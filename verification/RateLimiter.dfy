/**
 * The login rate limiter (internal/auth/ratelimit.go) on expiring Redis counters,
 * and the bound it puts on failed logins (its use in internal/auth/server.go).
 * Times are whole seconds.
 */
module RateLimiter {
  import opened Wrappers

  const MAX_ATTEMPTS := 10
  const MAX_DELAY := 300
  const BLOCK_DURATION := 3600

  datatype Key = IP(ip: string) | User(username: string)
  datatype Counter = Counter(count: nat, expiresAt: int)
  type Store = map<Key, Counter>

  /** The counter a GET sees: 0 for a key that is missing or expired. */
  function Failures(store: Store, key: Key, now: int): nat {
    if key in store && now < store[key].expiresAt then store[key].count else 0
  }

  /** INCR, then EXPIRE. */
  function Incremented(store: Store, key: Key, now: int): Store {
    store[key := Counter(Failures(store, key, now) + 1, now + BLOCK_DURATION)]
  }

  function Max(a: nat, b: nat): nat {
    if a > b then a else b
  }

  function Pow2(n: nat): nat {
    if n == 0 then 1 else 2 * Pow2(n - 1)
  }

  /** The delay imposed for a number of failures, None when blocked. */
  function DelayFor(fails: nat): Option<nat> {
    if fails >= MAX_ATTEMPTS then None
    else if fails == 0 then Some(0)
    else Some(if Pow2(fails) < MAX_DELAY then Pow2(fails) else MAX_DELAY)
  }

  function CheckResult(store: Store, ip: string, username: string, now: int): Option<nat> {
    DelayFor(Max(Failures(store, IP(ip), now), Failures(store, User(username), now)))
  }

  function AfterFailure(store: Store, ip: string, username: string, now: int): Store {
    Incremented(Incremented(store, IP(ip), now), User(username), now)
  }

  function AfterSuccess(store: Store, ip: string, username: string): Store {
    store - {IP(ip)} - {User(username)}
  }

  class RateLimiter {
    var rdb: Store

    constructor ()
      ensures rdb == map[]
    {
      rdb := map[];
    }

    method Check(ip: string, username: string, now: int) returns (delay: Option<nat>)
      ensures delay == CheckResult(rdb, ip, username, now)
    {
      var ipFails := Failures(rdb, IP(ip), now);
      var userFails := Failures(rdb, User(username), now);
      var maxFails := ipFails;
      if userFails > maxFails { maxFails := userFails; }
      if maxFails >= MAX_ATTEMPTS { return None; }
      if maxFails == 0 { return Some(0); }
      delay := Some(if Pow2(maxFails) < MAX_DELAY then Pow2(maxFails) else MAX_DELAY);
    }

    method Increment(key: Key, now: int)
      modifies this
      ensures rdb == Incremented(old(rdb), key, now)
    {
      rdb := rdb[key := if key in rdb
          && now < rdb[key].expiresAt then rdb[key].(count := rdb[key].count + 1) else Counter(1, now)];
      rdb := rdb[key := rdb[key].(expiresAt := now + BLOCK_DURATION)];
    }

    method RecordFailure(ip: string, username: string, now: int)
      modifies this
      ensures rdb == AfterFailure(old(rdb), ip, username, now)
    {
      Increment(IP(ip), now);
      Increment(User(username), now);
    }

    method Reset(ip: string, username: string)
      modifies this
      ensures rdb == AfterSuccess(old(rdb), ip, username)
    {
      rdb := rdb - {IP(ip)};
      rdb := rdb - {User(username)};
    }
  }

  // ---------------------------------------------------------------- the delay

  lemma {:induction false} Pow2Monotone(m: nat, n: nat)
    requires m <= n
    ensures 1 <= Pow2(m) <= Pow2(n)
  {
    if m > 0 { Pow2Monotone(m - 1, n - 1); } else if n > 0 { Pow2Monotone(0, n - 1); }
  }

  /** More failures never mean a shorter delay, a block is never lifted by one more, and no delay exceeds the cap. */
  lemma DelayMonotone(ipFails: nat, userFails: nat, ipFails': nat, userFails': nat)
    requires ipFails <= ipFails' && userFails <= userFails'
    ensures var d, d' := DelayFor(Max(ipFails, userFails)), DelayFor(Max(ipFails', userFails'));
      (d.None? ==> d'.None?) && (d'.Some? ==> d.value <= d'.value <= MAX_DELAY)
  {
    Pow2Monotone(Max(ipFails, userFails), Max(ipFails', userFails'));
  }

  /** The delays in seconds: 2 to the number of failures, at most 300, and a block from ten on. */
  lemma DelayTable(fails: nat)
    ensures fails >= 10 ==> DelayFor(fails) == None
    ensures fails < 10 ==> DelayFor(fails) == Some([0, 2, 4, 8, 16, 32, 64, 128, 256, 300][fails])
  {
    assert Pow2(1) == 2 && Pow2(2) == 4 && Pow2(3) == 8 && Pow2(4) == 16 && Pow2(5) == 32;
    assert Pow2(6) == 64 && Pow2(7) == 128 && Pow2(8) == 256 && Pow2(9) == 512;
  }

  // ---------------------------------------------------------------- runs of login attempts

  /** A passed check, and the end of an attempt. */
  datatype Op =
    | Passed(ip: string, username: string, at: int)
    | Failed(ip: string, username: string, at: int)
    | Succeeded(ip: string, username: string, at: int)

  ghost predicate Step(store: Store, op: Op, store': Store) {
    match op
    case Passed(ip, username, at) => store' == store && CheckResult(store, ip, username, at).Some?
    case Failed(ip, username, at) => store' == AfterFailure(store, ip, username, at)
    case Succeeded(ip, username, at) => store' == AfterSuccess(store, ip, username)
  }

  /** Attempts of all users from all addresses, in order of time. */
  ghost predicate Run(stores: seq<Store>, ops: seq<Op>) {
    && |stores| == |ops| + 1
    && (forall i :: 0 <= i < |ops| ==> Step(stores[i], ops[i], stores[i + 1]))
    && (forall i, j :: 0 <= i < j < |ops| ==> ops[i].at <= ops[j].at)
  }

  /** An attempt counts for its address and for its user. */
  predicate Concerns(op: Op, key: Key) {
    key == IP(op.ip) || key == User(op.username)
  }

  predicate IsFailure(op: Op, key: Key) {
    op.Failed? && Concerns(op, key)
  }

  /** Call `c` is the check of the failure at `i`, with nothing of that user, or that address, in between. */
  predicate CheckedAt(ops: seq<Op>, key: Key, c: int, i: int) {
    && 0 <= c < i < |ops| && ops[c].Passed? && Concerns(ops[c], key)
    && forall k :: c < k < i ==> !Concerns(ops[k], key)
  }

  /**
   * The attempts of one user, or from one address, are handled one at a time: each failure follows its own
   * passed check.
   */
  ghost predicate OneAtATime(ops: seq<Op>, key: Key) {
    forall i :: 0 <= i < |ops| && IsFailure(ops[i], key) ==> exists c :: CheckedAt(ops, key, c, i)
  }

  function FailuresIn(ops: seq<Op>, key: Key, lo: int, hi: int): nat
    requires 0 <= lo && hi <= |ops|
    decreases hi - lo
  {
    if lo >= hi then 0 else FailuresIn(ops, key, lo, hi - 1) + if IsFailure(ops[hi - 1], key) then 1 else 0
  }

  predicate NoSuccess(ops: seq<Op>, key: Key, lo: int, hi: int)
    requires 0 <= lo && hi <= |ops|
  {
    forall i :: lo <= i < hi ==> !(ops[i].Succeeded? && Concerns(ops[i], key))
  }

  /** Within an hour of a failure the counter keeps every failure since, and keeps existing. */
  lemma {:induction false} CounterKeepsCount(stores: seq<Store>, ops: seq<Op>, key: Key, lo: int, hi: int)
    requires Run(stores, ops) && 0 <= lo < hi <= |ops| && IsFailure(ops[lo], key) && NoSuccess(ops, key, lo, hi)
    requires ops[hi - 1].at < ops[lo].at + 3600
    ensures key in stores[hi] && stores[hi][key].count >= FailuresIn(ops, key, lo, hi)
    ensures stores[hi][key].expiresAt >= ops[lo].at + 3600
    decreases hi - lo
  {
    assert Step(stores[hi - 1], ops[hi - 1], stores[hi]);
    if lo + 1 < hi {
      assert ops[hi - 2].at <= ops[hi - 1].at;
      CounterKeepsCount(stores, ops, key, lo, hi - 1);
      assert ops[lo].at <= ops[hi - 1].at;
    } else {
      assert FailuresIn(ops, key, lo, lo) == 0;
    }
  }

  /** Within an hour of the last failure the counter is there, and an hour after it, it is gone. */
  lemma {:induction false} CounterAfterLast(stores: seq<Store>, ops: seq<Op>, key: Key, lo: int, hi: int, now: int)
    requires Run(stores, ops) && 0 <= lo < hi <= |ops| && IsFailure(ops[lo], key)
    requires forall i :: lo < i < hi ==> !IsFailure(ops[i], key)
    ensures now >= ops[lo].at + 3600 ==> Failures(stores[hi], key, now) == 0
    ensures now < ops[lo].at + 3600 && NoSuccess(ops, key, lo, hi) ==> Failures(stores[hi], key, now) > 0
    decreases hi
  {
    assert Step(stores[hi - 1], ops[hi - 1], stores[hi]);
    if lo + 1 < hi { CounterAfterLast(stores, ops, key, lo, hi - 1, now); }
  }

  // ---------------------------------------------------------------- after a success

  /** A step that is neither failure nor success for the key leaves its counter. */
  lemma OtherStepKeepsCounter(store: Store, op: Op, store': Store, key: Key, now: int)
    requires Step(store, op, store') && (op.Passed? || !Concerns(op, key))
    ensures Failures(store', key, now) == Failures(store, key, now)
  {
  }

  lemma {:induction false} ClearedStaysClear(stores: seq<Store>, ops: seq<Op>, key: Key, lo: int, hi: int, now: int)
    requires Run(stores, ops) && 0 <= lo < hi <= |ops| && ops[lo].Succeeded? && Concerns(ops[lo], key)
    requires forall i :: lo < i < hi ==> !IsFailure(ops[i], key)
    ensures Failures(stores[hi], key, now) == 0
    decreases hi
  {
    assert Step(stores[hi - 1], ops[hi - 1], stores[hi]);
    if lo + 1 < hi { ClearedStaysClear(stores, ops, key, lo, hi - 1, now); }
  }

  /** Until the user or the address fails again, a check after a success imposes no delay. */
  lemma SuccessLiftsDelay(stores: seq<Store>, ops: seq<Op>, lo: int, hi: int, now: int)
    requires Run(stores, ops) && 0 <= lo < hi <= |ops| && ops[lo].Succeeded?
    requires forall i :: lo < i < hi ==>
              !(ops[i].Failed? && (ops[i].ip == ops[lo].ip || ops[i].username == ops[lo].username))
    ensures CheckResult(stores[hi], ops[lo].ip, ops[lo].username, now) == Some(0)
  {
    ClearedStaysClear(stores, ops, IP(ops[lo].ip), lo, hi, now);
    ClearedStaysClear(stores, ops, User(ops[lo].username), lo, hi, now);
  }

  /** An hour after the last failure of both, a block is over too. */
  lemma BlockEnds(stores: seq<Store>, ops: seq<Op>, ip: string, username: string, hi: int, now: int)
    requires Run(stores, ops) && stores[0] == map[] && 0 <= hi <= |ops|
    requires forall i :: 0 <= i < hi && (IsFailure(ops[i], IP(ip)) || IsFailure(ops[i], User(username))) ==>
               now >= ops[i].at + 3600
    ensures CheckResult(stores[hi], ip, username, now) == Some(0)
  {
    QuietKey(stores, ops, IP(ip), hi, now);
    QuietKey(stores, ops, User(username), hi, now);
  }

  lemma {:induction false} QuietKey(stores: seq<Store>, ops: seq<Op>, key: Key, hi: int, now: int)
    requires Run(stores, ops) && stores[0] == map[] && 0 <= hi <= |ops|
    requires forall i :: 0 <= i < hi && IsFailure(ops[i], key) ==> now >= ops[i].at + 3600
    ensures Failures(stores[hi], key, now) == 0
    decreases hi
  {
    if hi > 0 {
      assert Step(stores[hi - 1], ops[hi - 1], stores[hi]);
      QuietKey(stores, ops, key, hi - 1, now);
    }
  }

  // ---------------------------------------------------------------- attempts in flight

  /** `checkOf` names the passed check of each failure of the user or the address. */
  ghost predicate Checked(ops: seq<Op>, key: Key, checkOf: int -> int) {
    forall i :: 0 <= i < |ops| && IsFailure(ops[i], key) ==> IsCheck(ops, key, checkOf(i), i)
  }

  predicate IsCheck(ops: seq<Op>, key: Key, c: int, i: int) {
    0 <= c < i <= |ops| && ops[c].Passed? && Concerns(ops[c], key)
  }

  /** The failures of the user or the address whose check has passed by call `t`, and which are yet to come. */
  ghost function InFlight(ops: seq<Op>, key: Key, checkOf: int -> int, t: int): set<int> {
    set i | 0 <= i < |ops| && IsFailure(ops[i], key) && checkOf(i) <= t < i
  }

  ghost predicate AtMostInFlight(ops: seq<Op>, key: Key, checkOf: int -> int, m: nat) {
    forall t :: FewInFlight(ops, key, checkOf, m, t)
  }

  ghost predicate FewInFlight(ops: seq<Op>, key: Key, checkOf: int -> int, m: nat, t: int) {
    |InFlight(ops, key, checkOf, t)| <= m
  }

  function FailureSet(ops: seq<Op>, key: Key, lo: int, hi: int): set<int>
    requires 0 <= lo && hi <= |ops|
  {
    set i | lo <= i < hi && IsFailure(ops[i], key)
  }

  lemma {:induction false} FailuresCounted(ops: seq<Op>, key: Key, lo: int, hi: int)
    requires 0 <= lo && hi <= |ops|
    ensures |FailureSet(ops, key, lo, hi)| == FailuresIn(ops, key, lo, hi)
    decreases hi - lo
  {
    if lo < hi {
      FailuresCounted(ops, key, lo, hi - 1);
      var before := FailureSet(ops, key, lo, hi - 1);
      assert FailureSet(ops, key, lo, hi) == before + if IsFailure(ops[hi - 1], key) then {hi - 1} else {};
    } else {
      assert FailureSet(ops, key, lo, hi) == {};
    }
  }

  /** The latest of the checks of the failures in a range. */
  lemma {:induction false} LatestCheck(ops: seq<Op>, key: Key, checkOf: int -> int, lo: int, hi: int) returns (i: int)
    requires 0 <= lo < hi <= |ops| && IsFailure(ops[lo], key)
    ensures lo <= i < hi && IsFailure(ops[i], key)
    ensures forall j :: lo <= j < hi && IsFailure(ops[j], key) ==> checkOf(j) <= checkOf(i)
    decreases hi
  {
    i := lo;
    if lo + 1 < hi {
      i := LatestCheck(ops, key, checkOf, lo, hi - 1);
      if IsFailure(ops[hi - 1], key) && checkOf(hi - 1) > checkOf(i) { i := hi - 1; }
    }
  }

  /** What comes after the latest check is in flight there. */
  lemma LaterAreInFlight(ops: seq<Op>, key: Key, checkOf: int -> int, c: int, lo: int, hi: int, m: nat)
    requires AtMostInFlight(ops, key, checkOf, m) && 0 <= lo && hi <= |ops| && c < lo
    requires forall j :: lo <= j < hi && IsFailure(ops[j], key) ==> checkOf(j) <= c
    ensures FailuresIn(ops, key, lo, hi) <= m
  {
    FailuresCounted(ops, key, lo, hi);
    assert FewInFlight(ops, key, checkOf, m, c);
    SubsetBound(FailureSet(ops, key, lo, hi), InFlight(ops, key, checkOf, c));
  }

  /** A check that passes within the hour after a failure has seen fewer than ten failures since. */
  lemma PassedSawFew(stores: seq<Store>, ops: seq<Op>, key: Key, lo: int, c: int)
    requires Run(stores, ops) && 0 <= lo < c < |ops| && IsFailure(ops[lo], key) && NoSuccess(ops, key, lo, c)
    requires ops[c].Passed? && Concerns(ops[c], key) && ops[c].at < ops[lo].at + 3600
    ensures FailuresIn(ops, key, lo, c) < 10
  {
    assert Step(stores[c], ops[c], stores[c + 1]) && ops[c - 1].at <= ops[c].at;
    CounterKeepsCount(stores, ops, key, lo, c);
  }

  /**
   * With at most `m` attempts of a user or an address in flight, at most 9 + m of them fail within an hour with
   * no success between.
   */
  lemma FailuresWithinAnHour(stores: seq<Store>, ops: seq<Op>, key: Key, checkOf: int -> int, m: nat, lo: int, hi: int)
    requires Run(stores, ops) && Checked(ops, key, checkOf) && AtMostInFlight(ops, key, checkOf, m)
    requires 0 <= lo < hi <= |ops| && IsFailure(ops[lo], key) && NoSuccess(ops, key, lo, hi)
    requires ops[hi - 1].at < ops[lo].at + 3600
    ensures FailuresIn(ops, key, lo, hi) <= 9 + m
  {
    var last := LatestCheck(ops, key, checkOf, lo, hi);
    var c := checkOf(last);
    assert IsCheck(ops, key, c, last);
    if c < lo {
      LaterAreInFlight(ops, key, checkOf, c, lo, hi, m);
    } else {
      assert c != lo && ops[c].at <= ops[hi - 1].at;
      PassedSawFew(stores, ops, key, lo, c);
      LaterAreInFlight(ops, key, checkOf, c, c + 1, hi, m);
      FailuresSplit(ops, key, lo, c + 1, hi);
    }
  }

  /** One at a time is the case of one in flight. */
  lemma OneInFlight(ops: seq<Op>, key: Key) returns (checkOf: int -> int)
    requires OneAtATime(ops, key)
    ensures Checked(ops, key, checkOf) && AtMostInFlight(ops, key, checkOf, 1)
  {
    checkOf := CheckBefore(ops, key);
    forall t ensures FewInFlight(ops, key, checkOf, 1, t) {
      if i :| i in InFlight(ops, key, checkOf, t) {
        forall j | j in InFlight(ops, key, checkOf, t) ensures j == i {
          assert CheckedAt(ops, key, checkOf(i), i) && CheckedAt(ops, key, checkOf(j), j);
        }
        assert InFlight(ops, key, checkOf, t) == {i};
      } else {
        assert InFlight(ops, key, checkOf, t) == {};
      }
    }
  }

  ghost function CheckBefore(ops: seq<Op>, key: Key): (checkOf: int -> int)
    requires OneAtATime(ops, key)
    ensures forall i :: 0 <= i < |ops| && IsFailure(ops[i], key) ==> CheckedAt(ops, key, checkOf(i), i)
  {
    i => if 0 <= i < |ops| && IsFailure(ops[i], key) then var c :| CheckedAt(ops, key, c, i); c else 0
  }

  /** Eleven consecutive failures of a user or from an address, with no success between them, span at least an hour. */
  lemma ElevenFailuresSpanAnHour(stores: seq<Store>, ops: seq<Op>, key: Key, lo: int, hi: int)
    requires Run(stores, ops) && OneAtATime(ops, key)
    requires 0 <= lo < hi < |ops| && IsFailure(ops[lo], key) && IsFailure(ops[hi], key) && NoSuccess(ops, key, lo, hi)
    requires FailuresIn(ops, key, lo, hi) == 10
    ensures ops[hi].at - ops[lo].at >= 3600
  {
    var checkOf := OneInFlight(ops, key);
    if ops[hi].at < ops[lo].at + 3600 {
      FailuresWithinAnHour(stores, ops, key, checkOf, 1, lo, hi + 1);
    }
  }

  lemma {:induction false} FailuresSplit(ops: seq<Op>, key: Key, lo: int, mid: int, hi: int)
    requires 0 <= lo <= mid <= hi <= |ops|
    ensures FailuresIn(ops, key, lo, hi) == FailuresIn(ops, key, lo, mid) + FailuresIn(ops, key, mid, hi)
    decreases hi
  {
    if mid < hi { FailuresSplit(ops, key, lo, mid, hi - 1); }
  }

  /** With more than `n` failures in the range, one of them is preceded by exactly `n`. */
  lemma {:induction false} NthFailure(ops: seq<Op>, key: Key, lo: int, hi: int, n: nat) returns (i: int)
    requires 0 <= lo <= hi <= |ops| && FailuresIn(ops, key, lo, hi) > n
    ensures lo <= i < hi && IsFailure(ops[i], key) && FailuresIn(ops, key, lo, i) == n
    decreases hi
  {
    if FailuresIn(ops, key, lo, hi - 1) > n {
      i := NthFailure(ops, key, lo, hi - 1, n);
    } else {
      i := hi - 1;
    }
  }

  /** With at most `m` in flight, at most 9 + m failures per started hour. */
  lemma {:induction false} FailuresBoundedInFlight(stores: seq<Store>, ops: seq<Op>, key: Key, checkOf: int -> int,
      m: nat, lo: int, hi: int)
    requires Run(stores, ops) && Checked(ops, key, checkOf) && AtMostInFlight(ops, key, checkOf, m)
    requires 0 <= lo < hi <= |ops| && IsFailure(ops[lo], key) && NoSuccess(ops, key, lo, hi)
    ensures FailuresIn(ops, key, lo, hi) <= (9 + m) * ((ops[hi - 1].at - ops[lo].at) / 3600 + 1)
    decreases hi - lo
  {
    var bound, span := 9 + m, ops[hi - 1].at - ops[lo].at;
    assert span >= 0 by { assert lo < hi - 1 ==> ops[lo].at <= ops[hi - 1].at; }
    if FailuresIn(ops, key, lo, hi) > bound {
      var next := NthFailure(ops, key, lo, hi, bound);
      assert next > lo by { assert FailuresIn(ops, key, lo, lo) == 0; }
      if ops[next].at < ops[lo].at + 3600 {
        FailuresWithinAnHour(stores, ops, key, checkOf, m, lo, next + 1);
      }
      FailuresBoundedInFlight(stores, ops, key, checkOf, m, next, hi);
      FailuresSplit(ops, key, lo, next, hi);
      HoursAdd(ops[hi - 1].at - ops[next].at, span);
      Distribute(bound, (ops[hi - 1].at - ops[next].at) / 3600 + 1, span / 3600);
    } else {
      Distribute(bound, 0, span / 3600);
    }
  }

  lemma Distribute(bound: nat, fewer: int, more: int)
    requires 0 <= fewer <= more
    ensures bound + bound * fewer <= bound * (more + 1)
  {
    assert bound * fewer <= bound * more;
  }

  /** At most ten failures per started hour: the bound on guesses between two successful logins. */
  lemma FailuresBounded(stores: seq<Store>, ops: seq<Op>, key: Key, lo: int, hi: int)
    requires Run(stores, ops) && OneAtATime(ops, key)
    requires 0 <= lo < hi <= |ops| && IsFailure(ops[lo], key) && NoSuccess(ops, key, lo, hi)
    ensures FailuresIn(ops, key, lo, hi) <= 10 * ((ops[hi - 1].at - ops[lo].at) / 3600 + 1)
  {
    var checkOf := OneInFlight(ops, key);
    FailuresBoundedInFlight(stores, ops, key, checkOf, 1, lo, hi);
  }

  lemma HoursAdd(rest: int, span: int)
    requires 0 <= rest && rest + 3600 <= span
    ensures rest / 3600 + 1 <= span / 3600
  {
  }

  // ---------------------------------------------------------------- the bound is reached

  /** Nine attempts one after the other, then m checks, then their m failures, all at once. */
  function Burst(m: nat): seq<Op> {
    seq(18 + 2 * m, i requires 0 <= i < 18 + 2 * m =>
      if (if i < 18 then i % 2 == 0 else i < 18 + m) then Passed("ip", "u", 0) else Failed("ip", "u", 0))
  }

  predicate IsBurstKey(key: Key) {
    key == IP("ip") || key == User("u")
  }

  function BurstFailures(m: nat, i: int): int {
    if i <= 18 then i / 2 else if i <= 18 + m then 9 else 9 + (i - 18 - m)
  }

  lemma {:induction false} BurstCount(m: nat, i: int, key: Key)
    requires 0 <= i <= |Burst(m)| && IsBurstKey(key)
    ensures FailuresIn(Burst(m), key, 0, i) == BurstFailures(m, i)
    decreases i
  {
    if i > 0 { BurstCount(m, i - 1, key); }
  }

  /** The counters after `n` failures. */
  function BurstStore(n: nat): Store {
    if n == 0 then map[] else map[IP("ip") := Counter(n, 3600), User("u") := Counter(n, 3600)]
  }

  lemma BurstFails(n: nat)
    ensures AfterFailure(BurstStore(n), "ip", "u", 0) == BurstStore(n + 1)
  {
  }

  lemma BurstPasses(n: nat)
    requires n < 10
    ensures CheckResult(BurstStore(n), "ip", "u", 0).Some?
  {
  }

  lemma BurstIsRun(m: nat) returns (stores: seq<Store>)
    ensures Run(stores, Burst(m))
  {
    var ops := Burst(m);
    stores := seq(|ops| + 1,
        i requires 0 <= i <= |ops| => BurstStore(if BurstFailures(m, i) < 0 then 0 else BurstFailures(m, i)));
    forall i | 0 <= i < |ops| ensures Step(stores[i], ops[i], stores[i + 1]) {
      var n := BurstFailures(m, i);
      if ops[i].Failed? { BurstFails(n); } else { BurstPasses(n); }
    }
  }

  function BurstCheck(m: nat, i: int): int {
    if i < 18 then i - 1 else i - m
  }

  lemma BurstInFlight(m: nat, key: Key)
    requires m >= 1 && IsBurstKey(key)
    ensures Checked(Burst(m), key, i => BurstCheck(m, i)) && AtMostInFlight(Burst(m), key, i => BurstCheck(m, i), m)
  {
    var checkOf := i => BurstCheck(m, i);
    forall t ensures FewInFlight(Burst(m), key, checkOf, m, t) {
      SubsetBound(InFlight(Burst(m), key, checkOf, t), Window(t, m));
    }
  }

  /** The m numbers after `t`. */
  function Window(t: int, m: nat): (w: set<int>)
    ensures |w| == m && forall i :: i in w <==> t < i <= t + m
  {
    if m == 0 then {} else Window(t, m - 1) + {t + m}
  }

  /** For every m there is a run with m in flight in which 9 + m attempts fail at one moment. */
  lemma BoundIsReached(m: nat, key: Key) returns (stores: seq<Store>)
    requires m >= 1 && IsBurstKey(key)
    ensures var ops, checkOf := Burst(m), i => BurstCheck(m, i);
      && Run(stores, ops) && Checked(ops, key, checkOf) && AtMostInFlight(ops, key, checkOf, m)
      && NoSuccess(ops, key, 0, |ops|) && FailuresIn(ops, key, 0, |ops|) == 9 + m
      && forall i :: 0 <= i < |ops| ==> ops[i].at == 0
  {
    stores := BurstIsRun(m);
    BurstInFlight(m, key);
    BurstCount(m, |Burst(m)|, key);
  }
}
