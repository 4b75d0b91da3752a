/**
 * Pulling images concurrently (PullImagesWithProgress in internal/appservice/imagepull.go):
 * one goroutine per image, a semaphore of three, atomic counters and a polling goroutine,
 * as interleaved steps.
 */
module ImagePuller {
  import opened Wrappers

  const MAX_CONCURRENT := 3

  /** Where the goroutine of one image stands. */
  datatype Pc =
    | Unspawned
    | Waiting                  // for the semaphore
    | Started
    | Announcing(seen: nat)    // has read the counter for its first report
    | Pulling
    | Failed                   // the error counter is still to be incremented
    | Pulled
    | Counted(number: nat)     // has incremented the counter to this value
    | Told
    | Released
    | Done

  /** A progress callback: of the poller, before a pull, or after it. */
  datatype Report = Polled(pulled: nat) | Before(pulled: nat, image: nat) | After(pulled: nat, image: nat)

  /**
   * The images are numbered below |pcs|; `order` lists them as the counter was incremented, so that the
   * counter is its length; `failed` holds those whose pull failed; `polling` is a value the poller has read.
   */
  datatype State = State(spawned: nat, pcs: seq<Pc>, sem: nat, order: seq<nat>, errors: nat, failed: set<nat>,
                         reports: seq<Report>, polling: Option<nat>, result: Option<nat>)

  datatype Op =
    | Spawn
    | Acquire(i: nat)
    | ReadCounter(i: nat)
    | Announce(i: nat)
    | PullEnds(i: nat, ok: bool)
    | CountError(i: nat)
    | CountPull(i: nat)
    | Tell(i: nat)
    | Release(i: nat)
    | Finish(i: nat)
    | Poll
    | TellPoll
    | Return

  function Init(total: nat): State {
    State(0, seq(total, _ => Unspawned), 0, [], 0, {}, [], None, None)
  }

  predicate At(s: State, i: nat, pc: Pc) {
    i < |s.pcs| && s.pcs[i] == pc
  }

  predicate AllDone(s: State) {
    forall i :: 0 <= i < |s.pcs| ==> s.pcs[i] == Done
  }

  predicate Enabled(s: State, op: Op) {
    match op
    case Spawn => s.spawned < |s.pcs| && At(s, s.spawned, Unspawned)
    case Acquire(i) => At(s, i, Waiting) && s.sem < MAX_CONCURRENT
    case ReadCounter(i) => At(s, i, Started)
    case Announce(i) => i < |s.pcs| && s.pcs[i].Announcing?
    case PullEnds(i, ok) => At(s, i, Pulling)
    case CountError(i) => At(s, i, Failed)
    case CountPull(i) => At(s, i, Pulled)
    case Tell(i) => i < |s.pcs| && s.pcs[i].Counted?
    case Release(i) => At(s, i, Told) && s.sem > 0
    case Finish(i) => At(s, i, Released)
    case Poll => s.polling.None?
    case TellPoll => s.polling.Some?
    case Return => s.result.None? && s.spawned == |s.pcs| && AllDone(s)
  }

  function Move(s: State, i: nat, pc: Pc): State
    requires i < |s.pcs|
  {
    s.(pcs := s.pcs[i := pc])
  }

  function Next(s: State, op: Op): State
    requires Enabled(s, op)
  {
    match op
    case Spawn => Move(s, s.spawned, Waiting).(spawned := s.spawned + 1)
    case Acquire(i) => Move(s, i, Started).(sem := s.sem + 1)
    case ReadCounter(i) => Move(s, i, Announcing(|s.order|))
    case Announce(i) => Move(s, i, Pulling).(reports := s.reports + [Before(s.pcs[i].seen, i)])
    case PullEnds(i, ok) => if ok then Move(s, i, Pulled) else Move(s, i, Failed).(failed := s.failed + {i})
    case CountError(i) => Move(s, i, Pulled).(errors := s.errors + 1)
    case CountPull(i) => Move(s, i, Counted(|s.order| + 1)).(order := s.order + [i])
    case Tell(i) => Move(s, i, Told).(reports := s.reports + [After(s.pcs[i].number, i)])
    case Release(i) => Move(s, i, Released).(sem := s.sem - 1)
    case Finish(i) => Move(s, i, Done)
    case Poll => s.(polling := Some(|s.order|))
    case TellPoll => s.(polling := None, reports := s.reports + [Polled(s.polling.value)])
    case Return => s.(result := Some(s.errors))
  }

  ghost predicate Run(total: nat, states: seq<State>, ops: seq<Op>) {
    && |states| == |ops| + 1 && states[0] == Init(total)
    && forall i :: 0 <= i < |ops| ==> Enabled(states[i], ops[i]) && states[i + 1] == Next(states[i], ops[i])
  }

  // ---------------------------------------------------------------- counting goroutines

  predicate Holds(pc: Pc) {
    !(pc.Unspawned? || pc.Waiting? || pc.Released? || pc.Done?)
  }

  predicate BeforePullEnds(pc: Pc) {
    pc.Unspawned? || pc.Waiting? || pc.Started? || pc.Announcing? || pc.Pulling?
  }

  predicate Incremented(pc: Pc) {
    pc.Counted? || HasTold(pc)
  }

  predicate IsFailed(pc: Pc) {
    pc.Failed?
  }

  predicate HasTold(pc: Pc) {
    pc.Told? || pc.Released? || pc.Done?
  }

  function CountIf(pcs: seq<Pc>, f: Pc -> bool): nat {
    if pcs == [] then 0 else (if f(pcs[0]) then 1 else 0) + CountIf(pcs[1..], f)
  }

  lemma {:induction false} CountMoved(pcs: seq<Pc>, i: nat, pc: Pc, f: Pc -> bool)
    requires i < |pcs|
    ensures CountIf(pcs[i := pc], f) == CountIf(pcs, f) - (if f(pcs[i]) then 1 else 0) + (if f(pc) then 1 else 0)
  {
    if i == 0 {
      assert pcs[0 := pc][1..] == pcs[1..];
    } else {
      assert pcs[i := pc][1..] == pcs[1..][i - 1 := pc];
      CountMoved(pcs[1..], i - 1, pc, f);
    }
  }

  lemma {:induction false} CountWitness(pcs: seq<Pc>, f: Pc -> bool) returns (i: nat)
    requires CountIf(pcs, f) > 0
    ensures i < |pcs| && f(pcs[i])
  {
    if f(pcs[0]) { return 0; }
    i := CountWitness(pcs[1..], f);
    i := i + 1;
  }

  lemma {:induction false} CountNone(pcs: seq<Pc>, f: Pc -> bool)
    requires forall i :: 0 <= i < |pcs| ==> !f(pcs[i])
    ensures CountIf(pcs, f) == 0
  {
    if pcs != [] { CountNone(pcs[1..], f); }
  }

  // ---------------------------------------------------------------- what every step keeps

  ghost predicate Distinct<T>(xs: seq<T>) {
    forall i, j :: 0 <= i < j < |xs| ==> xs[i] != xs[j]
  }

  /** The images reported after their pull, in the order of the reports. */
  ghost predicate ReportInv(s: State, r: Report) {
    match r
    case Polled(p) => p <= |s.order|
    case Before(p, i) => p <= |s.order|
    case After(p, i) => 1 <= p <= |s.order| && s.order[p - 1] == i && i < |s.pcs| && HasTold(s.pcs[i])
  }

  ghost predicate WorkerInv(s: State, i: nat)
    requires i < |s.pcs|
  {
    && (i in s.order <==> Incremented(s.pcs[i]))
    && (s.pcs[i].Counted? ==> 1 <= s.pcs[i].number <= |s.order| && s.order[s.pcs[i].number - 1] == i)
    && (s.pcs[i].Announcing? ==> s.pcs[i].seen <= |s.order|)
    && (s.pcs[i].Unspawned? <==> s.spawned <= i)
    && (i in s.failed ==> !BeforePullEnds(s.pcs[i]))
    && (HasTold(s.pcs[i]) ==> ReportedAfter(s.reports, i))
  }

  ghost predicate ReportedAfter(reports: seq<Report>, i: nat) {
    exists k :: 0 <= k < |reports| && reports[k].After? && reports[k].image == i
  }

  /** No image is reported twice after its pull. */
  ghost predicate ReportedOnce(reports: seq<Report>) {
    forall k, l :: 0 <= k < l < |reports| && reports[k].After? && reports[l].After? ==>
        reports[k].image != reports[l].image
  }

  ghost predicate Inv(s: State) {
    && s.spawned <= |s.pcs| && s.sem <= MAX_CONCURRENT && s.sem == CountIf(s.pcs, Holds)
    && s.errors + CountIf(s.pcs, IsFailed) == |s.failed|
    && Distinct(s.order) && (forall i :: i in s.order ==> i < |s.pcs|)
    && (forall i :: 0 <= i < |s.pcs| ==> WorkerInv(s, i))
    && (forall k :: 0 <= k < |s.reports| ==> ReportInv(s, s.reports[k]))
    && ReportedOnce(s.reports)
    && (s.polling.Some? ==> s.polling.value <= |s.order|)
    && (s.result.Some? ==> AllDone(s) && s.result.value == |s.failed|)
  }

  function One(b: bool): nat {
    if b then 1 else 0
  }

  /** What a step of goroutine `i` must satisfy: the other goroutines see at most a longer order and more reports. */
  ghost predicate WorkerStep(s: State, s': State, i: nat) {
    && i < |s.pcs| && |s'.pcs| == |s.pcs| && s'.pcs == s.pcs[i := s'.pcs[i]]
    && s.order <= s'.order && Distinct(s'.order) && (forall j :: j in s'.order ==> j in s.order || j == i)
    && (HasTold(s.pcs[i]) ==> HasTold(s'.pcs[i])) && WorkerInv(s', i)
    && (forall j :: 0 <= j < |s.pcs| && j != i ==>
         (s'.spawned <= j <==> s.spawned <= j) && (j in s'.failed <==> j in s.failed))
    && s'.spawned <= |s.pcs| && s'.sem <= MAX_CONCURRENT
    && s'.sem + One(Holds(s.pcs[i])) == s.sem + One(Holds(s'.pcs[i]))
    && s'.errors + One(IsFailed(s'.pcs[i])) + |s.failed| == s.errors + One(IsFailed(s.pcs[i])) + |s'.failed|
    && (s'.reports == s.reports || (|s'.reports| == |s.reports| + 1 && s'.reports[..|s.reports|] == s.reports
                                     && ReportInv(s', s'.reports[|s.reports|])
                                     && (s'.reports[|s.reports|].After? ==>
                                          s'.reports[|s.reports|].image == i && !HasTold(s.pcs[i]))))
    && s'.polling == s.polling && s'.result == s.result && s.pcs[i] != Done
  }

  lemma OtherWorkerInv(s: State, s': State, i: nat, j: nat)
    requires Inv(s) && WorkerStep(s, s', i) && j < |s.pcs| && j != i
    ensures WorkerInv(s', j)
  {
    assert WorkerInv(s, j);
    if HasTold(s.pcs[j]) {
      var k :| 0 <= k < |s.reports| && s.reports[k].After? && s.reports[k].image == j;
      assert s'.reports[k] == s.reports[k];
    }
    assert j in s'.order <==> j in s.order;
  }

  lemma WorkerStepKeepsInv(s: State, s': State, i: nat)
    requires Inv(s) && WorkerStep(s, s', i)
    ensures Inv(s')
  {
    assert s.result.None?;
    CountMoved(s.pcs, i, s'.pcs[i], Holds);
    CountMoved(s.pcs, i, s'.pcs[i], IsFailed);
    assert CountIf(s'.pcs, Holds) + One(Holds(s.pcs[i])) == CountIf(s.pcs, Holds) + One(Holds(s'.pcs[i]));
    assert CountIf(s'.pcs, IsFailed) + One(IsFailed(s.pcs[i])) == CountIf(s.pcs, IsFailed) + One(IsFailed(s'.pcs[i]));
    forall j | 0 <= j < |s'.pcs| ensures WorkerInv(s', j) {
      if j != i { OtherWorkerInv(s, s', i, j); }
    }
    WorkerStepReports(s, s', i);
  }

  lemma WorkerStepReports(s: State, s': State, i: nat)
    requires Inv(s) && WorkerStep(s, s', i)
    ensures forall k :: 0 <= k < |s'.reports| ==> ReportInv(s', s'.reports[k])
    ensures ReportedOnce(s'.reports)
  {
    forall k | 0 <= k < |s.reports| ensures s'.reports[k] == s.reports[k] && ReportInv(s', s'.reports[k]) {
      assert ReportInv(s, s.reports[k]);
    }
  }

  lemma SpawnKeepsInv(s: State)
    requires Inv(s) && Enabled(s, Spawn)
    ensures Inv(Next(s, Spawn))
  {
    assert WorkerInv(s, s.spawned);
    WorkerStepKeepsInv(s, Next(s, Spawn), s.spawned);
  }

  /** The steps that touch neither the counters nor the reports. */
  lemma MoveKeepsInv(s: State, op: Op, i: nat)
    requires Inv(s) && Enabled(s, op) && op in {Acquire(i), ReadCounter(i), CountError(i), Release(i), Finish(i)}
    ensures Inv(Next(s, op))
  {
    assert WorkerInv(s, i);
    CountMoved(s.pcs, i, Next(s, op).pcs[i], Holds);
    WorkerStepKeepsInv(s, Next(s, op), i);
  }

  lemma PullEndsKeepsInv(s: State, i: nat, ok: bool)
    requires Inv(s) && Enabled(s, PullEnds(i, ok))
    ensures Inv(Next(s, PullEnds(i, ok)))
  {
    assert WorkerInv(s, i);
    WorkerStepKeepsInv(s, Next(s, PullEnds(i, ok)), i);
  }

  lemma ReportKeepsInv(s: State, op: Op, i: nat)
    requires Inv(s) && Enabled(s, op) && op in {Announce(i), Tell(i)}
    ensures Inv(Next(s, op))
  {
    assert WorkerInv(s, i);
    var s' := Next(s, op);
    if op.Tell? { assert s'.reports[|s.reports|] == After(s.pcs[i].number, i); }
    WorkerStepKeepsInv(s, s', i);
  }

  lemma CountPullKeepsInv(s: State, i: nat)
    requires Inv(s) && Enabled(s, CountPull(i))
    ensures Inv(Next(s, CountPull(i)))
  {
    assert WorkerInv(s, i);
    var s' := Next(s, CountPull(i));
    assert s'.order[|s.order|] == i;
    WorkerStepKeepsInv(s, s', i);
  }

  lemma MainKeepsInv(s: State, op: Op)
    requires Inv(s) && Enabled(s, op) && op in {Poll, TellPoll, Return}
    ensures Inv(Next(s, op))
  {
    var s' := Next(s, op);
    if op.Return? { CountNone(s.pcs, IsFailed); }
    forall j | 0 <= j < |s'.pcs| ensures WorkerInv(s', j) {
      assert WorkerInv(s, j);
      if HasTold(s.pcs[j]) {
        var k :| 0 <= k < |s.reports| && s.reports[k].After? && s.reports[k].image == j;
        assert s'.reports[k] == s.reports[k];
      }
    }
    forall k | 0 <= k < |s.reports| ensures s'.reports[k] == s.reports[k] && ReportInv(s', s'.reports[k]) {
      assert ReportInv(s, s.reports[k]);
    }
  }

  lemma StepKeepsInv(s: State, op: Op)
    requires Inv(s) && Enabled(s, op)
    ensures Inv(Next(s, op))
  {
    match op
    case Spawn => SpawnKeepsInv(s);
    case Acquire(i) => MoveKeepsInv(s, op, i);
    case ReadCounter(i) => MoveKeepsInv(s, op, i);
    case Announce(i) => ReportKeepsInv(s, op, i);
    case PullEnds(i, ok) => PullEndsKeepsInv(s, i, ok);
    case CountError(i) => MoveKeepsInv(s, op, i);
    case CountPull(i) => CountPullKeepsInv(s, i);
    case Tell(i) => ReportKeepsInv(s, op, i);
    case Release(i) => MoveKeepsInv(s, op, i);
    case Finish(i) => MoveKeepsInv(s, op, i);
    case Poll => MainKeepsInv(s, op);
    case TellPoll => MainKeepsInv(s, op);
    case Return => MainKeepsInv(s, op);
  }

  lemma {:induction false} RunKeepsInv(total: nat, states: seq<State>, ops: seq<Op>, n: nat)
    requires Run(total, states, ops) && n < |states|
    ensures Inv(states[n]) && |states[n].pcs| == total
  {
    if n > 0 {
      RunKeepsInv(total, states, ops, n - 1);
      StepKeepsInv(states[n - 1], ops[n - 1]);
    } else {
      CountNone(states[0].pcs, Holds);
      CountNone(states[0].pcs, IsFailed);
    }
  }

  // ---------------------------------------------------------------- what every run guarantees

  function Below(n: nat): (all: set<nat>)
    ensures |all| == n && forall i :: i in all <==> 0 <= i < n
  {
    if n == 0 then {} else Below(n - 1) + {n - 1}
  }

  function Elements(xs: seq<nat>): set<nat> {
    set x | x in xs
  }

  /** Distinct numbers below `n` are at most `n` many, and exactly `n` when none is missing. */
  lemma DistinctBelow(xs: seq<nat>, n: nat)
    requires Distinct(xs) && forall x :: x in xs ==> x < n
    ensures |xs| <= n
    ensures Below(n) <= Elements(xs) ==> |xs| == n
  {
    DistinctCardinality(xs);
    SubsetBound(Elements(xs), Below(n));
    if Below(n) <= Elements(xs) { assert Elements(xs) == Below(n); }
  }

  lemma {:induction false} DistinctCardinality(xs: seq<nat>)
    requires Distinct(xs)
    ensures |Elements(xs)| == |xs|
  {
    if xs == [] {
      assert Elements(xs) == {};
    } else {
      var front, last := xs[..|xs| - 1], xs[|xs| - 1];
      assert xs == front + [last];
      DistinctCardinality(front);
      assert last !in Elements(front);
      assert Elements(xs) == Elements(front) + {last};
    }
  }

  /** The goroutines holding the semaphore; a pull runs only in one of them. */
  function InFlight(pcs: seq<Pc>): set<nat> {
    set i: nat | i < |pcs| && Holds(pcs[i])
  }

  lemma {:induction false} CountIsCardinality(pcs: seq<Pc>)
    ensures |InFlight(pcs)| == CountIf(pcs, Holds)
  {
    if pcs == [] {
      assert InFlight(pcs) == {};
    } else {
      var front, last := pcs[..|pcs| - 1], pcs[|pcs| - 1];
      assert pcs == front + [last];
      CountIsCardinality(front);
      CountSnoc(front, last, Holds);
      assert InFlight(pcs) == InFlight(front) + if Holds(last) then {|front|} else {};
    }
  }

  lemma {:induction false} CountSnoc(pcs: seq<Pc>, last: Pc, f: Pc -> bool)
    ensures CountIf(pcs + [last], f) == CountIf(pcs, f) + One(f(last))
  {
    if pcs == [] {
      assert pcs + [last] == [last];
    } else {
      assert (pcs + [last])[1..] == pcs[1..] + [last];
      CountSnoc(pcs[1..], last, f);
    }
  }

  /** At most three pulls are in flight, and every count ever reported lies between zero and the total. */
  lemma PullsBounded(total: nat, states: seq<State>, ops: seq<Op>, n: nat)
    requires Run(total, states, ops) && n < |states|
    ensures |InFlight(states[n].pcs)| <= 3
    ensures forall i :: 0 <= i < |states[n].pcs| && states[n].pcs[i].Pulling? ==> i in InFlight(states[n].pcs)
    ensures forall k :: 0 <= k < |states[n].reports| ==> states[n].reports[k].pulled <= total
  {
    RunKeepsInv(total, states, ops, n);
    var s := states[n];
    CountIsCardinality(s.pcs);
    DistinctBelow(s.order, total);
    forall k | 0 <= k < |s.reports| ensures s.reports[k].pulled <= total {
      assert ReportInv(s, s.reports[k]);
    }
  }

  /** Step `j` ends the pull of image `i`. */
  predicate EndsPull(ops: seq<Op>, j: int, i: nat) {
    0 <= j < |ops| && ops[j].PullEnds? && ops[j].i == i
  }

  lemma OneStep(total: nat, states: seq<State>, ops: seq<Op>, n: nat)
    requires Run(total, states, ops) && n < |ops|
    ensures Enabled(states[n], ops[n]) && states[n + 1] == Next(states[n], ops[n])
  {
  }

  /**
   * An image whose pull is not over is one for which no pull ended so far, and the failed ones are those that
   * did so.
   */
  ghost predicate PullsSeen(s: State, ops: seq<Op>, n: nat, i: nat)
    requires i < |s.pcs|
  {
    && (BeforePullEnds(s.pcs[i]) <==> forall j :: 0 <= j < n ==> !EndsPull(ops, j, i))
    && (i in s.failed <==> exists j :: 0 <= j < n && EndsPull(ops, j, i) && !ops[j].ok)
  }

  lemma StepPulls(s: State, op: Op, i: nat)
    requires Enabled(s, op) && i < |s.pcs|
    ensures |Next(s, op).pcs| == |s.pcs|
    ensures op.PullEnds? && op.i == i ==>
              BeforePullEnds(s.pcs[i]) && !BeforePullEnds(Next(s, op).pcs[i])
              && Next(s, op).failed == s.failed + if op.ok then {} else {i}
    ensures !(op.PullEnds? && op.i == i) ==>
              (BeforePullEnds(Next(s, op).pcs[i]) <==> BeforePullEnds(s.pcs[i]))
              && (i in Next(s, op).failed <==> i in s.failed)
  {
  }

  lemma {:induction false} RunPullsSeen(total: nat, states: seq<State>, ops: seq<Op>, n: nat, i: nat)
    requires Run(total, states, ops) && n < |states| && i < total
    ensures |states[n].pcs| == total && PullsSeen(states[n], ops, n, i)
  {
    if n == 0 {
      NoPullYet(total, ops, i);
    } else {
      RunPullsSeen(total, states, ops, n - 1, i);
      OneStep(total, states, ops, n - 1);
      StepSeen(states[n - 1], ops, n - 1, i);
    }
  }

  lemma NoPullYet(total: nat, ops: seq<Op>, i: nat)
    requires i < total
    ensures PullsSeen(Init(total), ops, 0, i)
  {
  }

  lemma StepSeen(s: State, ops: seq<Op>, n: nat, i: nat)
    requires n < |ops| && Enabled(s, ops[n]) && i < |s.pcs| && PullsSeen(s, ops, n, i)
    ensures |Next(s, ops[n]).pcs| == |s.pcs| && PullsSeen(Next(s, ops[n]), ops, n + 1, i)
  {
    StepPulls(s, ops[n], i);
    PullsOneMore(s, Next(s, ops[n]), ops, n, i);
  }

  lemma PullsOneMore(s: State, s': State, ops: seq<Op>, n: nat, i: nat)
    requires n < |ops| && i < |s.pcs| == |s'.pcs| && PullsSeen(s, ops, n, i)
    requires EndsPull(ops, n, i) ==> !BeforePullEnds(s'.pcs[i]) && s'.failed == s.failed + if ops[n].ok then {} else {i}
    requires !EndsPull(ops, n, i) ==>
               (BeforePullEnds(s'.pcs[i]) <==> BeforePullEnds(s.pcs[i])) && (i in s'.failed <==> i in s.failed)
    ensures PullsSeen(s', ops, n + 1, i)
  {
  }

  /** No pull ends twice, and on return the pull of every image has ended. */
  lemma PulledOnce(total: nat, states: seq<State>, ops: seq<Op>, n: nat, i: nat)
    requires Run(total, states, ops) && n < |states| && i < total
    ensures forall j, k :: 0 <= j < k < n && EndsPull(ops, j, i) ==> !EndsPull(ops, k, i)
    ensures states[n].result.Some? ==> exists j :: 0 <= j < n && EndsPull(ops, j, i)
    ensures i in states[n].failed <==> exists j :: 0 <= j < n && EndsPull(ops, j, i) && !ops[j].ok
  {
    forall j, k | 0 <= j < k < n && EndsPull(ops, j, i) ensures !EndsPull(ops, k, i) {
      RunPullsSeen(total, states, ops, k, i);
      OneStep(total, states, ops, k);
    }
    RunPullsSeen(total, states, ops, n, i);
    RunKeepsInv(total, states, ops, n);
  }

  /**
   * On return the number given back is the number of failed pulls, and the reports after the pulls number 1 to
   * the total, each once.
   */
  lemma ReturnIsExact(total: nat, states: seq<State>, ops: seq<Op>, n: nat)
    requires Run(total, states, ops) && n < |states| && states[n].result.Some?
    ensures states[n].result.value == |states[n].failed|
    ensures forall p :: 1 <= p <= total ==> ReportedExactlyOnce(states[n].reports, p)
  {
    RunKeepsInv(total, states, ops, n);
    var s := states[n];
    forall i | i in Below(total) ensures i in Elements(s.order) { assert WorkerInv(s, i); }
    DistinctBelow(s.order, total);
    forall p | 1 <= p <= total ensures ReportedExactlyOnce(s.reports, p) {
      OneReportEach(s, p);
    }
  }

  lemma OneReportEach(s: State, p: nat)
    requires Inv(s) && AllDone(s) && 1 <= p <= |s.order|
    ensures ReportedExactlyOnce(s.reports, p)
  {
    var i := s.order[p - 1];
    assert i in s.order && WorkerInv(s, i);
    var k :| 0 <= k < |s.reports| && s.reports[k].After? && s.reports[k].image == i;
    assert ReportInv(s, s.reports[k]);
    assert IsReport(s.reports, k, p);
    forall l | IsReport(s.reports, l, p) ensures l == k {
      assert ReportInv(s, s.reports[l]);
    }
  }

  predicate IsReport(reports: seq<Report>, k: int, p: int) {
    0 <= k < |reports| && reports[k].After? && reports[k].pulled == p
  }

  ghost predicate ReportedExactlyOnce(reports: seq<Report>, p: int) {
    exists k :: IsReport(reports, k, p) && forall l :: IsReport(reports, l, p) ==> l == k
  }

  /** The next step of a goroutine, whatever the pull's outcome. */
  function StepOf(s: State, i: nat): Op
    requires i < |s.pcs|
  {
    match s.pcs[i]
    case Unspawned => Spawn
    case Waiting => Acquire(i)
    case Started => ReadCounter(i)
    case Announcing(_) => Announce(i)
    case Pulling => PullEnds(i, true)
    case Failed => CountError(i)
    case Pulled => CountPull(i)
    case Counted(_) => Tell(i)
    case Told => Release(i)
    case Released => Finish(i)
    case Done => Poll
  }

  /** Until it has returned, the function is never stuck: some step other than polling is enabled. */
  lemma NeverStuck(total: nat, states: seq<State>, ops: seq<Op>, n: nat) returns (op: Op)
    requires Run(total, states, ops) && n < |states| && states[n].result.None?
    ensures op != Poll && op != TellPoll && Enabled(states[n], op)
  {
    RunKeepsInv(total, states, ops, n);
    var s := states[n];
    if s.spawned < total {
      assert WorkerInv(s, s.spawned);
      return Spawn;
    }
    if AllDone(s) { return Return; }
    var i: nat :| i < |s.pcs| && s.pcs[i] != Done;
    if s.pcs[i] == Waiting && s.sem == MAX_CONCURRENT {
      i := CountWitness(s.pcs, Holds);
    }
    WorkerCanMove(s, i);
    op := StepOf(s, i);
  }

  /** A goroutine that is not done can move, unless it waits for a full semaphore. */
  lemma WorkerCanMove(s: State, i: nat)
    requires Inv(s) && i < |s.pcs| && s.spawned == |s.pcs| && s.pcs[i] != Done
    requires s.pcs[i] == Waiting ==> s.sem < MAX_CONCURRENT
    ensures var op := StepOf(s, i); op != Poll && op != TellPoll && Enabled(s, op)
  {
    assert WorkerInv(s, i);
    if s.pcs[i] == Told { HolderCounted(s, i); }
  }

  lemma {:induction false} HolderCounted(s: State, i: nat)
    requires Inv(s) && i < |s.pcs| && Holds(s.pcs[i])
    ensures s.sem > 0
  {
    CountMoved(s.pcs, i, Done, Holds);
  }

  function PcRank(pc: Pc): nat {
    match pc
    case Unspawned => 10
    case Waiting => 9
    case Started => 8
    case Announcing(_) => 7
    case Pulling => 6
    case Failed => 5
    case Pulled => 4
    case Counted(_) => 3
    case Told => 2
    case Released => 1
    case Done => 0
  }

  function Ranks(pcs: seq<Pc>): nat {
    if pcs == [] then 0 else PcRank(pcs[0]) + Ranks(pcs[1..])
  }

  /** How many steps, apart from polling, can still be taken at most. */
  function Remaining(s: State): nat {
    Ranks(s.pcs) + One(s.result.None?)
  }

  lemma {:induction false} RanksMoved(pcs: seq<Pc>, i: nat, pc: Pc)
    requires i < |pcs|
    ensures Ranks(pcs[i := pc]) == Ranks(pcs) - PcRank(pcs[i]) + PcRank(pc)
  {
    if i == 0 {
      assert pcs[0 := pc][1..] == pcs[1..];
    } else {
      assert pcs[i := pc][1..] == pcs[1..][i - 1 := pc];
      RanksMoved(pcs[1..], i - 1, pc);
    }
  }

  /** Every step but polling brings the return nearer, so with a step always enabled every fair run returns. */
  lemma StepsRunOut(s: State, op: Op)
    requires Enabled(s, op)
    ensures if op == Poll
            || op == TellPoll then Remaining(Next(s, op)) == Remaining(s) else Remaining(Next(s, op)) < Remaining(s)
  {
    if op != Poll && op != TellPoll && op != Return {
      var i := if op.Spawn? then s.spawned else op.i;
      RanksMoved(s.pcs, i, Next(s, op).pcs[i]);
    }
  }
}
