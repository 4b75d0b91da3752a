/**
 * Publishing public hosts to a ConfigMap (internal/appservice/publicdomains.go):
 * an incremental per-app view and a writer that skips unchanged bodies.
 */
module PublicDomains {
  import opened Wrappers
  import opened Text

  datatype Entrance = Entrance(name: string, authLevel: string)
  datatype AppRecord = AppRecord(name: string, uninstalled: bool, publicAccess: bool, entrances: seq<Entrance>)

  /** USER_ZONE and CUSTOM_DOMAIN. */
  datatype Domains = Domains(zone: string, custom: string)

  // ---------------------------------------------------------------- hosts

  function CollectHosts(name: string, d: Domains): seq<string> {
    (if d.zone != "" then [name + "." + d.zone] else []) + (if d.custom != "" then [name + "." + d.custom] else [])
  }

  /** "public" is always public, "private" never, anything else follows the app's toggle. */
  predicate IsIncluded(e: Entrance, rec: AppRecord) {
    var level := ToLower(e.authLevel);
    level == "public" || (level != "private" && rec.publicAccess)
  }

  function EntranceHosts(rec: AppRecord, entrances: seq<Entrance>, d: Domains): seq<string> {
    if entrances == [] then []
    else
      var last := entrances[|entrances| - 1];
      EntranceHosts(rec, entrances[..|entrances| - 1], d)
      + if IsIncluded(last, rec) then CollectHosts(if last.name == "" then rec.name else last.name, d) else []
  }

  function HostsForApp(rec: AppRecord, d: Domains): seq<string> {
    if rec.entrances == [] then (if rec.publicAccess then CollectHosts(rec.name, d) else [])
    else EntranceHosts(rec, rec.entrances, d)
  }

  method ListHostsForApp(rec: AppRecord, d: Domains) returns (out: seq<string>)
    ensures out == HostsForApp(rec, d)
  {
    if |rec.entrances| == 0 {
      return if rec.publicAccess then CollectHosts(rec.name, d) else [];
    }
    out := [];
    for i := 0 to |rec.entrances|
      invariant out == EntranceHosts(rec, rec.entrances[..i], d)
    {
      assert rec.entrances[..i + 1][..i] == rec.entrances[..i];
      var e := rec.entrances[i];
      var level := ToLower(e.authLevel);
      var include_ := rec.publicAccess;
      if level == "public" {
        include_ := true;
      } else if level == "private" {
        include_ := false;
      }
      if include_ {
        out := out + CollectHosts(if e.name == "" then rec.name else e.name, d);
      }
    }
    assert rec.entrances[..|rec.entrances|] == rec.entrances;
  }

  /** "public" is open whatever the app's toggle, "private" never, and any other level when the toggle is on. */
  ghost predicate IsOpen(e: Entrance, toggle: bool) {
    Spelt(e.authLevel, "public") || (toggle && !Spelt(e.authLevel, "private"))
  }

  /** The host is the stem in one of the two domains. */
  predicate HostNamed(stem: string, d: Domains, host: string) {
    (d.zone != "" && host == stem + "." + d.zone) || (d.custom != "" && host == stem + "." + d.custom)
  }

  /** The host leads to the entrance, which is named after the app when it has no name of its own. */
  predicate LeadsTo(rec: AppRecord, e: Entrance, d: Domains, host: string) {
    HostNamed(if e.name != "" then e.name else rec.name, d, host)
  }

  /** A host belongs to an app through an open entrance, or through its name when it has none. */
  ghost predicate Publishes(rec: AppRecord, d: Domains, host: string) {
    || (rec.entrances == [] && rec.publicAccess && HostNamed(rec.name, d, host))
    || exists e :: e in rec.entrances && IsOpen(e, rec.publicAccess) && LeadsTo(rec, e, d, host)
  }

  lemma IncludedIff(e: Entrance, rec: AppRecord)
    ensures IsIncluded(e, rec) <==> IsOpen(e, rec.publicAccess)
  {
    SpeltIff(e.authLevel, "public");
    SpeltIff(e.authLevel, "private");
    PublicIsNotPrivate(e.authLevel);
  }

  lemma PublicIsNotPrivate(level: string)
    ensures !(Spelt(level, "public") && Spelt(level, "private"))
  {
  }

  lemma CollectedIff(stem: string, d: Domains, host: string)
    ensures host in CollectHosts(stem, d) <==> HostNamed(stem, d, host)
  {
  }

  lemma {:induction false} EntranceHostsMembers(rec: AppRecord, entrances: seq<Entrance>, d: Domains, host: string)
    ensures host in EntranceHosts(rec, entrances, d) <==>
      exists e :: e in entrances && IsOpen(e, rec.publicAccess) && LeadsTo(rec, e, d, host)
    decreases |entrances|
  {
    if entrances != [] {
      var before, last := entrances[..|entrances| - 1], entrances[|entrances| - 1];
      assert entrances == before + [last];
      EntranceHostsMembers(rec, before, d, host);
      IncludedIff(last, rec);
      CollectedIff(if last.name == "" then rec.name else last.name, d, host);
    }
  }

  lemma HostsForAppMembers(rec: AppRecord, d: Domains, host: string)
    ensures host in HostsForApp(rec, d) <==> Publishes(rec, d, host)
  {
    EntranceHostsMembers(rec, rec.entrances, d, host);
    CollectedIff(rec.name, d, host);
  }

  /** An app all of whose entrances are private publishes nothing, whatever its toggle. */
  lemma AllPrivatePublishNone(rec: AppRecord, d: Domains)
    requires rec.entrances != [] && forall e :: e in rec.entrances ==> Spelt(e.authLevel, "private")
    ensures HostsForApp(rec, d) == []
  {
    forall host ensures host !in HostsForApp(rec, d) {
      HostsForAppMembers(rec, d, host);
      forall e | e in rec.entrances ensures !IsOpen(e, rec.publicAccess) { PublicIsNotPrivate(e.authLevel); }
    }
    EmptyWithoutElements(HostsForApp(rec, d));
  }

  lemma EmptyWithoutElements(hosts: seq<string>)
    requires forall host :: host !in hosts
    ensures hosts == []
  {
    SomeElement(hosts);
  }

  lemma SomeElement(hosts: seq<string>)
    ensures hosts == [] || exists host :: host in hosts
  {
    if hosts != [] { assert hosts[0] in hosts; }
  }

  /** A public entrance is published whatever the toggle; one of any other level but "private" if the toggle is on. */
  lemma OpenIsPublished(rec: AppRecord, d: Domains, e: Entrance, host: string)
    requires e in rec.entrances && LeadsTo(rec, e, d, host)
    ensures Spelt(e.authLevel, "public") ==> host in HostsForApp(rec, d)
    ensures !Spelt(e.authLevel, "private") && rec.publicAccess ==> host in HostsForApp(rec, d)
  {
    HostsForAppMembers(rec, d, host);
  }

  /** Without the toggle a host is published only through a public entrance. */
  lemma ClosedIsPublicOnly(rec: AppRecord, d: Domains, host: string)
    requires !rec.publicAccess
    ensures host in HostsForApp(rec, d) <==>
            exists e :: e in rec.entrances && Spelt(e.authLevel, "public") && LeadsTo(rec, e, d, host)
  {
    HostsForAppMembers(rec, d, host);
  }

  /** The trimmed, non-empty hosts of a list. */
  function HostSet(hosts: seq<string>): set<string> {
    set h | h in hosts && TrimSpace(h) != "" :: TrimSpace(h)
  }

  method UniqSorted(hosts: seq<string>) returns (out: seq<string>)
    ensures out == Sorted(HostSet(hosts))
  {
    if |hosts| == 0 { return []; }
    var seen: set<string> := {};
    for i := 0 to |hosts|
      invariant seen == HostSet(hosts[..i])
    {
      TakeSucc(hosts, i);
      var h := TrimSpace(hosts[i]);
      if h == "" || h in seen { continue; }
      seen := seen + {h};
    }
    assert hosts[..|hosts|] == hosts;
    out := Sorted(seen);
  }

  // ---------------------------------------------------------------- the merged view

  type View = map<string, seq<string>>

  function MergedHosts(byApp: View): set<string> {
    set app, h | app in byApp && h in byApp[app] && h != "" :: h
  }

  function Body(byApp: View): string {
    Join(Sorted(MergedHosts(byApp)), "\n")
  }

  /** What Reconcile builds from the records. */
  function Rebuilt(records: map<string, AppRecord>, d: Domains): View {
    map n | n in records && IsPublished(records[n], d) :: Sorted(HostSet(HostsForApp(records[n], d)))
  }

  predicate IsPublished(rec: AppRecord, d: Domains) {
    !rec.uninstalled && HostsForApp(rec, d) != []
  }

  class PublicDomainSync {
    const domains: Domains
    var configMap: string
    var byApp: View
    var lastBody: string

    /** The ConfigMap always holds the last body written. */
    ghost predicate Valid()
      reads this
    {
      configMap == lastBody
    }

    constructor (domains: Domains)
      ensures Valid() && configMap == "" && byApp == map[] && this.domains == domains
    {
      this.domains, configMap, byApp, lastBody := domains, "", map[], "";
    }

    /** `applyFails` is the outcome of writing the ConfigMap, should it be tried. */
    method Flush(applyFails: bool) returns (failed: bool)
      requires Valid()
      modifies this`configMap, this`lastBody
      ensures Valid() && failed == (applyFails && Body(byApp) != old(lastBody))
      ensures configMap == if failed then old(configMap) else Body(byApp)
    {
      var all: set<string> := {};
      var todo := byApp.Keys;
      while todo != {}
        invariant todo <= byApp.Keys
        invariant all == set app, h | app in byApp && app !in todo && h in byApp[app] && h != "" :: h
        decreases todo
      {
        var app :| app in todo;
        todo := todo - {app};
        all := all + set h | h in byApp[app] && h != "";
      }
      assert all == MergedHosts(byApp);
      var body := Join(Sorted(all), "\n");
      if body == lastBody { return false; }
      if applyFails { return true; }
      configMap := body;
      lastBody := body;
      failed := false;
    }

    method Sync(appName: string, enabled: bool, hosts: seq<string>, applyFails: bool) returns (failed: bool)
      requires Valid()
      modifies this
      ensures Valid()
      ensures byApp == if enabled then old(byApp)[appName := Sorted(HostSet(hosts))] else old(byApp) - {appName}
      ensures enabled == (hosts != []) ==> byApp == Synced(old(byApp), appName, hosts)
      ensures configMap == if failed then old(configMap) else Body(byApp)
      ensures failed ==> applyFails
    {
      if enabled {
        var list := UniqSorted(hosts);
        byApp := byApp[appName := list];
      } else {
        byApp := byApp - {appName};
      }
      failed := Flush(applyFails);
    }

    method Reconcile(recs: seq<Option<AppRecord>>, applyFails: bool) returns (failed: bool)
      requires Valid()
      modifies this
      ensures Valid() && byApp == RebuiltList(recs, domains)
      ensures configMap == if failed then old(configMap) else Body(byApp)
      ensures failed ==> applyFails
    {
      byApp := map[];
      for i := 0 to |recs|
        invariant Valid() && configMap == old(configMap)
        invariant byApp == RebuiltList(recs[..i], domains)
      {
        assert recs[..i + 1][..i] == recs[..i];
        if recs[i].None? || recs[i].value.uninstalled { continue; }
        var hosts := ListHostsForApp(recs[i].value, domains);
        if |hosts| == 0 { continue; }
        var list := UniqSorted(hosts);
        byApp := byApp[recs[i].value.name := list];
      }
      assert recs[..|recs|] == recs;
      failed := Flush(applyFails);
    }
  }

  function RebuiltList(recs: seq<Option<AppRecord>>, d: Domains): View {
    if recs == [] then map[]
    else
      var before := RebuiltList(recs[..|recs| - 1], d);
      var last := recs[|recs| - 1];
      if last.Some? && IsPublished(last.value, d)
      then before[last.value.name := Sorted(HostSet(HostsForApp(last.value, d)))]
      else before
  }

  /** `recs` lists the store's records, each once, possibly with nils between them. */
  ghost predicate Lists(recs: seq<Option<AppRecord>>, records: map<string, AppRecord>) {
    && (forall n :: n in records ==> records[n].name == n && Some(records[n]) in recs)
    && (forall i :: 0 <= i < |recs| && recs[i].Some? ==>
         recs[i].value.name in records && records[recs[i].value.name] == recs[i].value)
  }

  lemma {:induction false} RebuiltFromPrefix(recs: seq<Option<AppRecord>>, records: map<string, AppRecord>, d: Domains,
      n: string)
    requires forall i :: 0 <= i < |recs| && recs[i].Some? ==>
              recs[i].value.name in records && records[recs[i].value.name] == recs[i].value
    ensures var view := RebuiltList(recs, d);
      && (n in view <==> n in records && records[n].name == n && IsPublished(records[n], d) && Some(records[n]) in recs)
      && (n in view ==> view[n] == Sorted(HostSet(HostsForApp(records[n], d))))
    decreases |recs|
  {
    if recs != [] {
      var before, last := recs[..|recs| - 1], recs[|recs| - 1];
      assert recs == before + [last];
      RebuiltFromPrefix(before, records, d, n);
    }
  }

  /** Whatever order the store lists its records in, Reconcile builds the same view. */
  lemma ReconcileRebuilds(recs: seq<Option<AppRecord>>, records: map<string, AppRecord>, d: Domains)
    requires Lists(recs, records)
    ensures RebuiltList(recs, d) == Rebuilt(records, d)
  {
    forall n ensures SameAt(RebuiltList(recs, d), Rebuilt(records, d), n) {
      RebuiltFromPrefix(recs, records, d, n);
    }
    SameEverywhere(RebuiltList(recs, d), Rebuilt(records, d));
  }

  ghost predicate SameAt(a: View, b: View, n: string) {
    (n in a <==> n in b) && (n in a ==> a[n] == b[n])
  }

  lemma SameEverywhere(a: View, b: View)
    requires forall n :: SameAt(a, b, n)
    ensures a == b
  {
    forall n ensures (n in a <==> n in b) && (n in a ==> a[n] == b[n]) {
      assert SameAt(a, b, n);
    }
  }

  // ---------------------------------------------------------------- incremental against rebuilt

  datatype Service = Service(records: map<string, AppRecord>, byApp: View)

  /**
   * What the service does: store or remove a record, publish the hosts an app's record calls for (after an
   * install or a toggle, whatever state the record is in), clear an app (in an uninstall, before the record
   * becomes uninstalled or is removed), reconcile at the start.
   */
  datatype Op = Store(rec: AppRecord) | Remove(name: string) | Publish(name: string) | Clear(name: string)
      | ReconcileAll

  function Synced(byApp: View, name: string, hosts: seq<string>): View {
    if hosts != [] then byApp[name := Sorted(HostSet(hosts))] else byApp - {name}
  }

  function Apply(s: Service, op: Op, d: Domains): Service {
    match op
    case Store(rec) => s.(records := s.records[rec.name := rec])
    case Remove(name) => s.(records := s.records - {name})
    case Publish(name) => if name in s.records
        then s.(byApp := Synced(s.byApp, name, HostsForApp(s.records[name], d))) else s
    case Clear(name) => s.(byApp := s.byApp - {name})
    case ReconcileAll => s.(byApp := Rebuilt(s.records, d))
  }

  function After(ops: seq<Op>, d: Domains): Service {
    if ops == [] then Service(map[], map[]) else Apply(After(ops[..|ops| - 1], d), ops[|ops| - 1], d)
  }

  function RecordOf(records: map<string, AppRecord>, name: string): Option<AppRecord> {
    if name in records then Some(records[name]) else None
  }

  /** A step that decides what is published of the app. */
  predicate Syncs(op: Op, rec: Option<AppRecord>, name: string) {
    op == Clear(name) || op == ReconcileAll || (op == Publish(name) && rec.Some?)
  }

  /** The record of the app before step `i`. */
  function RecordAt(ops: seq<Op>, i: nat, name: string, d: Domains): Option<AppRecord>
    requires i <= |ops|
  {
    RecordOf(After(ops[..i], d).records, name)
  }

  /** The last such step, -1 when there was none. */
  function LastSync(ops: seq<Op>, name: string, d: Domains): (i: int)
    ensures -1 <= i < |ops|
  {
    if ops == [] then -1
    else if Syncs(ops[|ops| - 1], RecordAt(ops, |ops| - 1, name, d), name) then |ops| - 1
    else LastSync(ops[..|ops| - 1], name, d)
  }

  /** The hosts that a sync step leaves published, None when it leaves none. */
  function Left(op: Op, rec: Option<AppRecord>, d: Domains): Option<set<string>> {
    if op.Clear? || rec.None? || HostsForApp(rec.value, d) == []
        || (op.ReconcileAll? && rec.value.uninstalled) then None
    else Some(HostSet(HostsForApp(rec.value, d)))
  }

  /** What the view holds of an app is what its last sync step left. */
  predicate Shows(byApp: View, name: string, hosts: Option<set<string>>) {
    if hosts.None? then name !in byApp else name in byApp && byApp[name] == Sorted(hosts.value)
  }

  lemma {:induction false} ViewIsLastSync(ops: seq<Op>, name: string, d: Domains)
    ensures var i := LastSync(ops, name, d);
      Shows(After(ops, d).byApp, name, if i < 0 then None else Left(ops[i], RecordAt(ops, i, name, d), d))
  {
    if ops != [] {
      var n := |ops| - 1;
      ViewIsLastSync(ops[..n], name, d);
      ViewAfterStep(After(ops[..n], d), ops[n], name, d);
      var i := LastSync(ops[..n], name, d);
      if i >= 0 { assert ops[..n][..i] == ops[..i]; }
    }
  }

  lemma ViewAfterStep(s: Service, op: Op, name: string, d: Domains)
    ensures var s', rec := Apply(s, op, d), RecordOf(s.records, name);
      if Syncs(op, rec, name) then Shows(s'.byApp, name, Left(op, rec, d))
      else (name in s'.byApp <==> name in s.byApp) && (name in s.byApp ==> s'.byApp[name] == s.byApp[name])
  {
  }

  /** The app is one that a rebuild would publish. */
  predicate IsLive(rec: Option<AppRecord>, d: Domains) {
    rec.Some? && IsPublished(rec.value, d)
  }

  /**
   * An app is kept up when, live, its last sync step published the hosts its record calls for now, and
   * otherwise that step was its clearing one, or found nothing to publish, or never came.
   */
  predicate KeptUp(ops: seq<Op>, name: string, d: Domains) {
    var i, now := LastSync(ops, name, d), RecordAt(ops, |ops|, name, d);
    if IsLive(now, d) then
      && i >= 0 && !ops[i].Clear?
      && var then_ := RecordAt(ops, i, name, d);
         && then_.Some? && HostsForApp(then_.value, d) != [] && (ops[i].ReconcileAll? ==> !then_.value.uninstalled)
         && HostSet(HostsForApp(then_.value, d)) == HostSet(HostsForApp(now.value, d))
    else
      i >= 0 && !ops[i].Clear? ==>
        var then_ := RecordAt(ops, i, name, d);
        then_.None? || HostsForApp(then_.value, d) == [] || (ops[i].ReconcileAll? && then_.value.uninstalled)
  }

  lemma SortedInjective(s: set<string>, t: set<string>)
    requires Sorted(s) == Sorted(t)
    ensures s == t
  {
    assert forall x :: x in s <==> x in Sorted(s);
    assert forall x :: x in t <==> x in Sorted(t);
  }

  lemma KeptUpIff(ops: seq<Op>, name: string, d: Domains)
    ensures SameAt(After(ops, d).byApp, Rebuilt(After(ops, d).records, d), name) <==> KeptUp(ops, name, d)
  {
    var i, now := LastSync(ops, name, d), RecordAt(ops, |ops|, name, d);
    assert ops[..|ops|] == ops;
    ViewIsLastSync(ops, name, d);
    if IsLive(now, d) && i >= 0 && Left(ops[i], RecordAt(ops, i, name, d), d).Some? {
      var left, wanted := Left(ops[i], RecordAt(ops, i, name, d), d).value, HostSet(HostsForApp(now.value, d));
      if Sorted(left) == Sorted(wanted) { SortedInjective(left, wanted); }
    }
  }

  /** In every run the incremental view is the rebuilt one exactly when every app is kept up. */
  lemma IncrementalIsRebuiltIff(ops: seq<Op>, d: Domains)
    ensures After(ops, d).byApp == Rebuilt(After(ops, d).records, d) <==> forall name :: KeptUp(ops, name, d)
  {
    forall name ensures SameAt(After(ops, d).byApp, Rebuilt(After(ops, d).records, d), name) <==> KeptUp(ops, name, d) {
      KeptUpIff(ops, name, d);
    }
    if forall name :: KeptUp(ops, name, d) {
      forall name ensures SameAt(After(ops, d).byApp, Rebuilt(After(ops, d).records, d), name) {
        assert KeptUp(ops, name, d);
      }
      SameEverywhere(After(ops, d).byApp, Rebuilt(After(ops, d).records, d));
    }
  }

  /** The step stores or removes the app's record. */
  predicate Changes(op: Op, name: string) {
    (op.Store? && op.rec.name == name) || op == Remove(name)
  }

  /**
   * Each change of a live app is followed by its sync, and an app that is not live was last cleared, or never
   * synced.
   */
  predicate Followed(ops: seq<Op>, name: string, d: Domains) {
    var i := LastSync(ops, name, d);
    if IsLive(RecordAt(ops, |ops|, name, d), d)
    then i >= 0 && !ops[i].Clear? && forall j :: i < j < |ops| ==> !Changes(ops[j], name)
    else i < 0 || ops[i].Clear?
  }

  lemma {:induction false} UnchangedSince(ops: seq<Op>, name: string, d: Domains, i: nat, n: nat)
    requires i <= n <= |ops| && forall j :: i <= j < n ==> !Changes(ops[j], name)
    ensures RecordAt(ops, n, name, d) == RecordAt(ops, i, name, d)
    decreases n
  {
    if i < n {
      UnchangedSince(ops, name, d, i, n - 1);
      assert ops[..n][..n - 1] == ops[..n - 1] && !Changes(ops[n - 1], name);
    }
  }

  /** Incremental equals rebuilt when every app's changes are followed so. */
  lemma IncrementalIsRebuilt(ops: seq<Op>, d: Domains)
    requires forall name :: Followed(ops, name, d)
    ensures After(ops, d).byApp == Rebuilt(After(ops, d).records, d)
  {
    forall name ensures KeptUp(ops, name, d) { FollowedIsKeptUp(ops, name, d); }
    IncrementalIsRebuiltIff(ops, d);
  }

  lemma FollowedIsKeptUp(ops: seq<Op>, name: string, d: Domains)
    requires Followed(ops, name, d)
    ensures KeptUp(ops, name, d)
  {
    var i := LastSync(ops, name, d);
    if IsLive(RecordAt(ops, |ops|, name, d), d) {
      SyncIsNoChange(ops, name, d);
      UnchangedSince(ops, name, d, i, |ops|);
    }
  }

  lemma {:induction false} SyncIsNoChange(ops: seq<Op>, name: string, d: Domains)
    ensures LastSync(ops, name, d) >= 0 ==> !Changes(ops[LastSync(ops, name, d)], name)
  {
    if ops != [] { SyncIsNoChange(ops[..|ops| - 1], name, d); }
  }

  /** An uninstall clears the app first; the record becomes uninstalled, or goes, only later. */
  lemma UninstallClears(ops: seq<Op>, name: string, off: AppRecord, removed: bool, d: Domains)
    requires off.name == name && off.uninstalled
    ensures KeptUp(ops + [Clear(name), Store(off)] + (if removed then [Remove(name)] else []), name, d)
  {
    var cleared := ops + [Clear(name)];
    var stored := cleared + [Store(off)];
    assert ops + [Clear(name), Store(off)] == stored;
    LastSyncOfSnoc(ops, Clear(name), name, d);
    LastSyncOfSnoc(cleared, Store(off), name, d);
    if removed {
      LastSyncOfSnoc(stored, Remove(name), name, d);
    } else {
      assert stored + [] == stored;
    }
  }

  /** Until then the app is published by a rebuild but not by the view. */
  lemma ClearedEarly(ops: seq<Op>, name: string, d: Domains)
    requires IsLive(RecordAt(ops, |ops|, name, d), d)
    ensures !KeptUp(ops + [Clear(name)], name, d)
  {
    LastSyncOfSnoc(ops, Clear(name), name, d);
    assert ops[..|ops|] == ops;
  }

  lemma LastSyncOfSnoc(ops: seq<Op>, op: Op, name: string, d: Domains)
    ensures var all := ops + [op];
      && After(all, d) == Apply(After(ops, d), op, d)
      && LastSync(all, name, d)
           == (if Syncs(op, RecordOf(After(ops, d).records, name), name) then |ops| else LastSync(ops, name, d))
      && RecordAt(all, |ops|, name, d) == RecordOf(After(ops, d).records, name)
      && RecordAt(all, |all|, name, d) == RecordOf(After(all, d).records, name)
  {
    var all := ops + [op];
    assert all[..|ops|] == ops && all[..|all|] == all;
  }

  /** A toggle while an uninstall waits for the pods publishes the app again, and nothing clears it after that. */
  lemma ToggleDuringUninstall(ops: seq<Op>, on: AppRecord, off: AppRecord, d: Domains)
    requires on.name == off.name && off.uninstalled && HostsForApp(on, d) != []
    ensures var s := After(ops + [Clear(on.name), Store(on), Publish(on.name), Store(off)], d);
      on.name in s.byApp && on.name !in Rebuilt(s.records, d)
  {
    var name := on.name;
    var a := ops + [Clear(name)];
    var b := a + [Store(on)];
    var c := b + [Publish(name)];
    assert ops + [Clear(name), Store(on), Publish(name), Store(off)] == c + [Store(off)];
    LastSyncOfSnoc(a, Store(on), name, d);
    LastSyncOfSnoc(b, Publish(name), name, d);
    LastSyncOfSnoc(c, Store(off), name, d);
  }

  /** Such a record: an app without entrances, toggled on, under a zone. */
  lemma ToggledRecord(name: string, d: Domains)
    requires d.zone != ""
    ensures HostsForApp(AppRecord(name, false, true, []), d) != []
  {
  }
}
