/**
 * The event handlers of the system server (internal/systemserver/server.go) on
 * the registry, the known applications and the deployments of the cluster.
 *
 * First the steps and what every run keeps, then the handlers.
 */
module SystemServer {
  import opened Wrappers
  import opened Text
  import opened Applications
  import opened RegistrySpec
  import opened EnvVars

  /** Where the deployments of an app are found. */
  datatype DeployKey = DeployKey(namespace: string, appName: string)

  /** For each deployment of an app, the environments of its containers. */
  type Deployments = seq<seq<Env>>

  datatype State = State(apps: map<string, Application>, registry: Registry, cluster: map<DeployKey, Deployments>)

  datatype Event = Changed(app: Application) | Deleted(app: Application)

  function KeyOf(app: Application): string {
    app.namespace + "/" + app.name
  }

  function DeployKeyOf(app: Application): DeployKey {
    DeployKey(AppNamespace(app), app.spec.name)
  }

  // ---------------------------------------------------------------- steps

  ghost predicate SettledAll(before: Deployments, after: Deployments, vars: map<string, string>) {
    && |after| == |before|
    && forall i :: 0 <= i < |before| ==>
         |after[i]| == |before[i]| && forall j :: 0 <= j < |before[i]| ==> Settled(before[i][j], after[i][j], vars)
  }

  /** The deployments of one consumer get its wanted variables; nothing else changes. */
  ghost predicate ReconcileStep(s: State, consumer: Application, s': State) {
    var d := DeployKeyOf(consumer);
    && s' == s.(cluster := s'.cluster) && s'.cluster.Keys == s.cluster.Keys
    && (d in s.cluster ==> SettledAll(s.cluster[d], s'.cluster[d], WantedVars(s.registry, consumer)))
    && forall d' :: d' in s.cluster && d' != d ==> s'.cluster[d'] == s.cluster[d']
  }

  predicate WantsAny(app: Application, groups: set<string>) {
    exists g :: g in groups && Wants(app, g)
  }

  ghost predicate UniqueDeploy(apps: map<string, Application>, k: string)
    requires k in apps
  {
    forall k' :: k' in apps && DeployKeyOf(apps[k']) == DeployKeyOf(apps[k]) ==> k' == k
  }

  /** Consumers of the groups are reconciled; deployments of no such consumer are left alone. */
  ghost predicate NotifyStep(s: State, groups: set<string>, s': State) {
    && s' == s.(cluster := s'.cluster) && s'.cluster.Keys == s.cluster.Keys
    && (forall d :: d in s.cluster && s'.cluster[d] != s.cluster[d] ==> NotifiedAt(s.apps, groups, d))
    && (forall k :: k in s.apps && WantsAny(s.apps[k], groups) && UniqueDeploy(s.apps, k) ==>
          var d := DeployKeyOf(s.apps[k]);
          d in s.cluster ==> SettledAll(s.cluster[d], s'.cluster[d], WantedVars(s.registry, s.apps[k])))
  }

  ghost predicate NotifiedAt(apps: map<string, Application>, groups: set<string>, d: DeployKey) {
    exists k :: k in apps && WantsAny(apps[k], groups) && DeployKeyOf(apps[k]) == d
  }

  /** The state in which consumers are notified of an event. */
  function Announced(s: State, e: Event): State {
    match e
    case Changed(app) =>
      s.(apps := s.apps[KeyOf(app) := app],
         registry := if app.spec.sharedEntrances == [] then s.registry else Register(s.registry, app))
    case Deleted(app) =>
      s.(registry := if app.spec.sharedEntrances == [] then s.registry else Unregister(s.registry, app.spec.name))
  }

  ghost predicate Step(s: State, e: Event, s': State) {
    exists m: State :: NotifyStep(Announced(s, e), GroupsOf(e.app), m) && FinishStep(m, e, s')
  }

  ghost predicate FinishStep(m: State, e: Event, s': State) {
    match e
    case Changed(app) => if SysData(app) == [] then s' == m else ReconcileStep(m, app, s')
    case Deleted(app) => s' == m.(apps := m.apps - {KeyOf(app)})
  }

  // ---------------------------------------------------------------- the property

  ghost predicate AllInStep(s: State, app: Application) {
    var d := DeployKeyOf(app);
    d in s.cluster ==>
      forall i, j :: 0 <= i < |s.cluster[d]| && 0 <= j < |s.cluster[d][i]| ==>
          InStep(s.registry, app, s.cluster[d][i][j])
  }

  /** Every eligible consumer has, in every container, the registry's current endpoints of each group it wants. */
  ghost predicate Synced(s: State) {
    forall k :: k in s.apps && Eligible(s.apps[k]) ==> AllInStep(s, s.apps[k])
  }

  /** Every container of the app's deployments sees the current addresses under the names the app looks for. */
  ghost predicate EachSeesProviders(s: State, app: Application) {
    var d := DeployKey(if app.spec.namespace != "" then app.spec.namespace else app.namespace, app.spec.name);
    d in s.cluster ==>
      forall i, j :: 0 <= i < |s.cluster[d]| && 0 <= j < |s.cluster[d][i]| ==>
          SeesProviders(s.registry, app, s.cluster[d][i][j])
  }

  ghost predicate DistinctDeploys(apps: map<string, Application>) {
    forall k :: k in apps ==> UniqueDeploy(apps, k)
  }

  /**
   * A consumer that would keep a stale list: one of its groups loses this app but not every provider, and it
   * hears of none.
   */
  ghost predicate LeftStale(s: State, app: Application, consumer: Application) {
    && Eligible(consumer) && !WantsAny(consumer, GroupsOf(app)) && HasContainer(s, consumer)
    && app.spec.sharedEntrances != []
    && exists g :: Wants(consumer, g) && LosesProvider(s.registry, app.spec.name, g)
  }

  predicate LosesProvider(r: Registry, appName: string, g: string) {
    Without(Listing(r, g), appName) != [] && Without(Listing(r, g), appName) != Listing(r, g)
  }

  predicate HasContainer(s: State, app: Application) {
    var d := DeployKeyOf(app);
    d in s.cluster && exists i :: 0 <= i < |s.cluster[d]| && s.cluster[d][i] != []
  }

  // ---------------------------------------------------------------- one event

  /** Settled deployments are in step, whatever they were before. */
  lemma SettledAllInStep(s: State, before: Deployments, app: Application)
    requires Eligible(app) && DeployKeyOf(app) in s.cluster
    requires SettledAll(before, s.cluster[DeployKeyOf(app)], WantedVars(s.registry, app))
    ensures AllInStep(s, app)
  {
    var after := s.cluster[DeployKeyOf(app)];
    forall i, j | 0 <= i < |after| && 0 <= j < |after[i]| ensures InStep(s.registry, app, after[i][j]) {
      SettledInStep(s.registry, app, before[i][j], after[i][j]);
    }
  }

  /** A consumer whose deployments and listings did not change stays in step. */
  lemma UntouchedInStep(s: State, s': State, app: Application)
    requires AllInStep(s, app)
    requires var d := DeployKeyOf(app); d in s'.cluster ==> d in s.cluster && s'.cluster[d] == s.cluster[d]
    requires forall g :: Wants(app, g) && Listing(s'.registry, g) != [] ==>
              Listing(s'.registry, g) == Listing(s.registry, g)
    ensures AllInStep(s', app)
  {
    var d := DeployKeyOf(app);
    if d in s'.cluster {
      forall i, j | 0 <= i < |s'.cluster[d]| && 0 <= j < |s'.cluster[d][i]|
        ensures InStep(s'.registry, app, s'.cluster[d][i][j])
      {
        assert InStep(s.registry, app, s.cluster[d][i][j]);
      }
    }
  }

  lemma UnnotifiedUntouched(a: State, groups: set<string>, m: State, k: string)
    requires NotifyStep(a, groups, m) && k in a.apps && UniqueDeploy(a.apps, k) && !WantsAny(a.apps[k], groups)
    ensures var d := DeployKeyOf(a.apps[k]); d in m.cluster ==> d in a.cluster && m.cluster[d] == a.cluster[d]
  {
    assert !NotifiedAt(a.apps, groups, DeployKeyOf(a.apps[k]));
  }

  /** After the notification, a consumer is in step if it was notified, or if nothing it wants changed. */
  lemma NotifiedInStep(s: State, a: State, groups: set<string>, m: State, k: string)
    requires a.cluster == s.cluster && NotifyStep(a, groups, m)
    requires k in a.apps && Eligible(a.apps[k]) && UniqueDeploy(a.apps, k)
    requires WantsAny(a.apps[k], groups) || (AllInStep(s, a.apps[k]) && ListingsKept(s.registry, a.registry, a.apps[k]))
    ensures AllInStep(m, a.apps[k])
  {
    var app, d := a.apps[k], DeployKeyOf(a.apps[k]);
    if WantsAny(app, groups) {
      if d in m.cluster { SettledAllInStep(m, a.cluster[d], app); }
    } else {
      UnnotifiedUntouched(a, groups, m, k);
      UntouchedInStep(s, m, app);
    }
  }

  ghost predicate ListingsKept(r: Registry, r': Registry, app: Application) {
    forall g :: Wants(app, g) && Listing(r', g) != [] ==> Listing(r', g) == Listing(r, g)
  }

  /**
   * An event that concerns no group of the consumer's sysData leaves its deployments alone, whatever its
   * permission.provider entries name.
   */
  lemma UnconcernedUntouched(s: State, e: Event, s': State, k: string)
    requires Step(s, e, s') && k in s.apps && k != KeyOf(e.app) && UniqueDeploy(Announced(s, e).apps, k)
    requires !WantsAny(s.apps[k], GroupsOf(e.app)) && DeployKeyOf(s.apps[k]) in s.cluster
    ensures var d := DeployKeyOf(s.apps[k]); d in s'.cluster && s'.cluster[d] == s.cluster[d]
  {
    var a := Announced(s, e);
    var m: State :| NotifyStep(a, GroupsOf(e.app), m) && FinishStep(m, e, s');
    UnnotifiedUntouched(a, GroupsOf(e.app), m, k);
    if e.Changed? { assert DeployKeyOf(a.apps[KeyOf(e.app)]) != DeployKeyOf(a.apps[k]); }
  }

  /** The effective value of a variable in one container of a deployment. */
  predicate HasValue(cluster: map<DeployKey, Deployments>, d: DeployKey, i: nat, j: nat, name: string, value: string) {
    d in cluster && i < |cluster[d]| && j < |cluster[d][i]| && Effective(cluster[d][i][j], name) == Some(value)
  }

  lemma ChangedKeepsSynced(s: State, app: Application, s': State)
    requires Synced(s) && Step(s, Changed(app), s') && DistinctDeploys(s'.apps)
    ensures Synced(s')
  {
    var a := Announced(s, Changed(app));
    var m: State :| NotifyStep(a, GroupsOf(app), m) && FinishStep(m, Changed(app), s');
    forall k | k in s'.apps && Eligible(s'.apps[k]) ensures AllInStep(s', s'.apps[k]) {
      if k == KeyOf(app) { ChangedInStep(app, m, s'); } else { OtherInStep(s, app, m, s', k); }
    }
  }

  /** The changed app itself is reconciled last. */
  lemma ChangedInStep(app: Application, m: State, s': State)
    requires FinishStep(m, Changed(app), s') && Eligible(app)
    ensures AllInStep(s', app)
  {
    var d := DeployKeyOf(app);
    if SysData(app) != [] && d in s'.cluster {
      SettledAllInStep(s', m.cluster[d], app);
    }
  }

  lemma OtherInStep(s: State, app: Application, m: State, s': State, k: string)
    requires Synced(s) && NotifyStep(Announced(s, Changed(app)), GroupsOf(app), m) && FinishStep(m, Changed(app), s')
    requires DistinctDeploys(s'.apps) && k in s'.apps && k != KeyOf(app) && Eligible(s'.apps[k])
    ensures AllInStep(s', s'.apps[k])
  {
    var a, c := Announced(s, Changed(app)), s'.apps[k];
    assert s'.apps == a.apps && a.apps[KeyOf(app)] == app && UniqueDeploy(s'.apps, k);
    assert AllInStep(s, c);
    if !WantsAny(c, GroupsOf(app)) { RegisterKeepsListings(s.registry, app, c); }
    NotifiedInStep(s, a, GroupsOf(app), m, k);
    assert DeployKeyOf(app) != DeployKeyOf(c);
    UntouchedInStep(m, s', c);
  }

  lemma RegisterKeepsListings(r: Registry, app: Application, consumer: Application)
    requires !WantsAny(consumer, GroupsOf(app))
    ensures ListingsKept(r, Register(r, app), consumer)
  {
    forall g | Wants(consumer, g) ensures Listing(Register(r, app), g) == Listing(r, g) {
      RegisterListing(r, app, g);
    }
  }

  /** A delete keeps everyone in step except exactly the consumers it leaves stale. */
  lemma DeletedKeepsSyncedIff(s: State, app: Application, s': State)
    requires Synced(s) && Step(s, Deleted(app), s') && DistinctDeploys(s.apps)
    ensures Synced(s') <==> forall k :: k in s.apps && k != KeyOf(app) ==> !LeftStale(s, app, s.apps[k])
  {
    var m: State :| NotifyStep(Announced(s, Deleted(app)), GroupsOf(app), m) && FinishStep(m, Deleted(app), s');
    forall k | k in s.apps && k != KeyOf(app) && Eligible(s.apps[k])
      ensures k in s'.apps && s'.apps[k] == s.apps[k] && (AllInStep(s', s'.apps[k]) <==> !LeftStale(s, app, s.apps[k]))
    {
      DeletedAt(s, app, m, s', k);
    }
  }

  lemma DeletedAt(s: State, app: Application, m: State, s': State, k: string)
    requires Synced(s) && DistinctDeploys(s.apps)
    requires NotifyStep(Announced(s, Deleted(app)), GroupsOf(app), m) && FinishStep(m, Deleted(app), s')
    requires k in s.apps && k != KeyOf(app) && Eligible(s.apps[k])
    ensures k in s'.apps && s'.apps[k] == s.apps[k] && (AllInStep(s', s'.apps[k]) <==> !LeftStale(s, app, s.apps[k]))
  {
    assert UniqueDeploy(s.apps, k) && AllInStep(s, s.apps[k]);
    DeletedInStepIff(s, app, Announced(s, Deleted(app)), m, k);
    assert AllInStep(s', s'.apps[k]) <==> AllInStep(m, m.apps[k]);
  }

  lemma DeletedInStepIff(s: State, app: Application, a: State, m: State, k: string)
    requires a == Announced(s, Deleted(app)) && NotifyStep(a, GroupsOf(app), m)
    requires k in s.apps && Eligible(s.apps[k]) && UniqueDeploy(s.apps, k) && AllInStep(s, s.apps[k])
    ensures AllInStep(m, m.apps[k]) <==> !LeftStale(s, app, s.apps[k])
  {
    var c := s.apps[k];
    if WantsAny(c, GroupsOf(app)) || ListingsKept(s.registry, a.registry, c) {
      NotifiedInStep(s, a, GroupsOf(app), m, k);
      if LeftStale(s, app, c) {
        var g :| Wants(c, g) && LosesProvider(s.registry, app.spec.name, g);
        UnregisterListing(s.registry, app.spec.name, g);
      }
    } else {
      var g :| Wants(c, g) && Listing(a.registry, g) != [] && Listing(a.registry, g) != Listing(s.registry, g);
      UnregisterListing(s.registry, app.spec.name, g);
      assert LosesProvider(s.registry, app.spec.name, g);
      StaleList(s, app, a, m, k, g);
    }
  }

  /** The consumer's variable still holds the old list, which differs from the new one. */
  lemma StaleList(s: State, app: Application, a: State, m: State, k: string, g: string)
    requires a == Announced(s, Deleted(app)) && NotifyStep(a, GroupsOf(app), m)
    requires k in s.apps && UniqueDeploy(s.apps, k) && AllInStep(s, s.apps[k])
    requires !WantsAny(s.apps[k], GroupsOf(app)) && app.spec.sharedEntrances != []
    requires Wants(s.apps[k], g) && LosesProvider(s.registry, app.spec.name, g)
    ensures AllInStep(m, m.apps[k]) <==> !HasContainer(s, s.apps[k])
  {
    var c, d := s.apps[k], DeployKeyOf(s.apps[k]);
    var old_, new_ := Listing(s.registry, g), Without(Listing(s.registry, g), app.spec.name);
    UnnotifiedUntouched(a, GroupsOf(app), m, k);
    UnregisterListing(s.registry, app.spec.name, g);
    ShorterList(old_, app.spec.name);
    if HasContainer(s, c) {
      var i :| 0 <= i < |s.cluster[d]| && s.cluster[d][i] != [];
      assert InStep(s.registry, c, s.cluster[d][i][0]);
      assert !InStep(m.registry, c, m.cluster[d][i][0]) by {
        assert Effective(m.cluster[d][i][0], GroupToEnvVarName(g)) == Some(UrlList(old_));
      }
    }
  }

  function Weight(eps: seq<Endpoint>): nat {
    if eps == [] then 0 else |Url(eps[0].host, eps[0].port)| + 1 + Weight(eps[1..])
  }

  lemma {:induction false} UrlListLength(eps: seq<Endpoint>)
    requires eps != []
    ensures |UrlList(eps)| + 1 == Weight(eps)
  {
    assert Urls(eps)[1..] == Urls(eps[1..]);
    if |eps| > 1 { UrlListLength(eps[1..]); }
  }

  lemma WeightCons(e: Endpoint, eps: seq<Endpoint>)
    ensures Weight([e] + eps) == |Url(e.host, e.port)| + 1 + Weight(eps)
  {
    assert ([e] + eps)[1..] == eps;
  }

  lemma {:induction false} WithoutWeight(eps: seq<Endpoint>, name: string)
    ensures Weight(Without(eps, name)) <= Weight(eps)
    ensures Without(eps, name) != eps ==> Weight(Without(eps, name)) < Weight(eps)
  {
    if eps != [] {
      WithoutWeight(eps[1..], name);
      assert eps == [eps[0]] + eps[1..];
      assert [] + Without(eps[1..], name) == Without(eps[1..], name);
      WeightCons(eps[0], Without(eps[1..], name));
    }
  }

  lemma ShorterList(eps: seq<Endpoint>, name: string)
    requires Without(eps, name) != [] && Without(eps, name) != eps
    ensures UrlList(Without(eps, name)) != UrlList(eps)
  {
    WithoutWeight(eps, name);
    UrlListLength(eps);
    UrlListLength(Without(eps, name));
  }

  // ---------------------------------------------------------------- every run

  ghost predicate Run(states: seq<State>, events: seq<Event>) {
    && |states| == |events| + 1
    && states[0].apps == map[] && states[0].registry == map[]
    && forall i :: 0 <= i < |events| ==> Step(states[i], events[i], states[i + 1])
  }

  ghost predicate LeavesNoneStale(s: State, e: Event) {
    e.Deleted? ==> forall k :: k in s.apps && k != KeyOf(e.app) ==> !LeftStale(s, e.app, s.apps[k])
  }

  lemma StepKeepsSynced(s: State, e: Event, s': State)
    requires Synced(s) && Step(s, e, s') && DistinctDeploys(s.apps) && DistinctDeploys(s'.apps) && LeavesNoneStale(s, e)
    ensures Synced(s')
  {
    match e
    case Changed(app) => ChangedKeepsSynced(s, app, s');
    case Deleted(app) => DeletedKeepsSyncedIff(s, app, s');
  }

  /** Whatever happens to groups: only a delete that leaves a consumer stale can end the synchrony. */
  lemma {:induction false} RunKeepsSynced(states: seq<State>, events: seq<Event>, n: nat)
    requires Run(states, events) && n < |states|
    requires forall i :: 0 <= i < |states| ==> DistinctDeploys(states[i].apps)
    requires forall i :: 0 <= i < n ==> LeavesNoneStale(states[i], events[i])
    ensures Synced(states[n])
  {
    if n > 0 {
      RunKeepsSynced(states, events, n - 1);
      assert Step(states[n - 1], events[n - 1], states[n]);
      StepKeepsSynced(states[n - 1], events[n - 1], states[n]);
    }
  }

  /** App names are unique, and an app keeps its name and its shared groups for life. */
  ghost predicate Stable(s: State, e: Event) {
    && (KeyOf(e.app) in s.apps ==>
          var known := s.apps[KeyOf(e.app)]; known.spec.name == e.app.spec.name && GroupsOf(known) == GroupsOf(e.app))
    && forall k :: k in s.apps && k != KeyOf(e.app) ==> s.apps[k].spec.name != e.app.spec.name
  }

  /** Whoever is listed in a group is a known app that offers it. */
  ghost predicate ListedAppsKnown(s: State) {
    forall g, i :: 0 <= i < |Listing(s.registry, g)| ==> OffersUnder(s, Listing(s.registry, g)[i].appName, g)
  }

  ghost predicate OffersUnder(s: State, name: string, g: string) {
    exists k :: k in s.apps && s.apps[k].spec.name == name && g in GroupsOf(s.apps[k])
  }

  lemma StableStepKeepsListed(s: State, e: Event, s': State)
    requires ListedAppsKnown(s) && Stable(s, e) && Step(s, e, s')
    ensures ListedAppsKnown(s')
  {
    var m: State :| NotifyStep(Announced(s, e), GroupsOf(e.app), m) && FinishStep(m, e, s');
    forall g, i | 0 <= i < |Listing(s'.registry, g)| ensures OffersUnder(s', Listing(s'.registry, g)[i].appName, g) {
      if e.Changed? {
        ListedAfterChange(s, e.app, s', g, i);
      } else {
        ListedAfterDelete(s, e.app, s', g, i);
      }
    }
  }

  lemma ListedAfterChange(s: State, app: Application, s': State, g: string, i: nat)
    requires ListedAppsKnown(s) && Stable(s, Changed(app))
    requires s'.apps == Announced(s, Changed(app)).apps && s'.registry == Announced(s, Changed(app)).registry
    requires i < |Listing(s'.registry, g)|
    ensures OffersUnder(s', Listing(s'.registry, g)[i].appName, g)
  {
    var eps, ep := Listing(s.registry, g), Listing(s'.registry, g)[i];
    if app.spec.sharedEntrances != [] { RegisterListing(s.registry, app, g); }
    if app.spec.sharedEntrances != [] && g in GroupsOf(app) && i == IndexOfApp(eps, app.spec.name) {
      assert s'.apps[KeyOf(app)] == app;
    } else {
      assert ep == eps[i];
      assert OffersUnder(s, ep.appName, g);
      var k :| k in s.apps && s.apps[k].spec.name == ep.appName && g in GroupsOf(s.apps[k]);
      assert k in s'.apps && GroupsOf(s'.apps[k]) == GroupsOf(s.apps[k]);
    }
  }

  lemma ListedAfterDelete(s: State, app: Application, s': State, g: string, i: nat)
    requires ListedAppsKnown(s) && Stable(s, Deleted(app))
    requires s'.apps == s.apps - {KeyOf(app)} && s'.registry == Announced(s, Deleted(app)).registry
    requires i < |Listing(s'.registry, g)|
    ensures OffersUnder(s', Listing(s'.registry, g)[i].appName, g)
  {
    var eps, ep := Listing(s.registry, g), Listing(s'.registry, g)[i];
    var j: nat;
    if app.spec.sharedEntrances == [] {
      j := i;
    } else {
      UnregisterListing(s.registry, app.spec.name, g);
      KeptIsThere(eps, app.spec.name, i);
      j := KeptAt(eps, app.spec.name, i);
    }
    assert ep == eps[j] && OffersUnder(s, ep.appName, g);
    var k :| k in s.apps && s.apps[k].spec.name == ep.appName && g in GroupsOf(s.apps[k]);
    assert k != KeyOf(app) && s'.apps[k] == s.apps[k];
  }

  /** With stable groups no delete leaves a consumer stale: every group that loses the app is announced. */
  lemma StableDeleteLeavesNone(s: State, app: Application, consumer: Application)
    requires ListedAppsKnown(s) && Stable(s, Deleted(app))
    ensures !LeftStale(s, app, consumer)
  {
    forall g | Wants(consumer, g) && LosesProvider(s.registry, app.spec.name, g) ensures g in GroupsOf(app) {
      var i := RemovedPosition(Listing(s.registry, g), app.spec.name);
      assert OffersUnder(s, app.spec.name, g);
    }
  }

  lemma {:induction false} RemovedPosition(eps: seq<Endpoint>, name: string) returns (i: nat)
    requires Without(eps, name) != eps
    ensures i < |eps| && eps[i].appName == name
  {
    if eps[0].appName == name { return 0; }
    assert eps == [eps[0]] + eps[1..];
    i := RemovedPosition(eps[1..], name);
    i := i + 1;
  }

  lemma {:induction false} StableRunKnown(states: seq<State>, events: seq<Event>, n: nat)
    requires Run(states, events) && n < |states|
    requires forall i :: 0 <= i < |events| ==> Stable(states[i], events[i])
    ensures ListedAppsKnown(states[n])
  {
    if n > 0 {
      StableRunKnown(states, events, n - 1);
      StableStepKeepsListed(states[n - 1], events[n - 1], states[n]);
    }
  }

  /** Apps with unique names have deployments of their own. */
  lemma {:induction false} StableRunDistinct(states: seq<State>, events: seq<Event>, n: nat)
    requires Run(states, events) && n < |states|
    requires forall i :: 0 <= i < |events| ==> Stable(states[i], events[i])
    ensures DistinctDeploys(states[n].apps)
  {
    if n > 0 {
      StableRunDistinct(states, events, n - 1);
      assert Step(states[n - 1], events[n - 1], states[n]);
      StableStepDistinct(states[n - 1], events[n - 1], states[n]);
    }
  }

  function AppsAfter(apps: map<string, Application>, e: Event): map<string, Application> {
    match e
    case Changed(app) => apps[KeyOf(app) := app]
    case Deleted(app) => apps - {KeyOf(app)}
  }

  lemma StepApps(s: State, e: Event, s': State)
    requires Step(s, e, s')
    ensures s'.apps == AppsAfter(s.apps, e)
    ensures var key := e.app.namespace + "/" + e.app.name;
      s'.apps == if e.Changed? then s.apps[key := e.app] else s.apps - {key}
  {
  }

  /** The registry call an event makes: none for an app without shared entrances. */
  function OpOf(e: Event): seq<Op> {
    if e.app.spec.sharedEntrances == [] then []
    else if e.Changed? then [Registered(e.app)]
    else [Unregistered(e.app.spec.name)]
  }

  function OpsOf(events: seq<Event>): seq<Op> {
    if events == [] then [] else OpsOf(events[..|events| - 1]) + OpOf(events[|events| - 1])
  }

  lemma AfterOneMore(ops: seq<Op>, op: Op)
    ensures After(ops + [op]) == Applied(After(ops), op)
  {
    assert (ops + [op])[..|ops|] == ops;
  }

  lemma StepRegistry(s: State, e: Event, s': State, ops: seq<Op>)
    requires Step(s, e, s') && s.registry == After(ops)
    ensures s'.registry == After(ops + OpOf(e))
  {
    assert s'.registry == Announced(s, e).registry;
    assert ops + [] == ops;
    if OpOf(e) != [] { AfterOneMore(ops, OpOf(e)[0]); }
  }

  lemma {:induction false} RunRegistry(states: seq<State>, events: seq<Event>, n: nat)
    requires Run(states, events) && n < |states|
    ensures states[n].registry == After(OpsOf(events[..n]))
  {
    if n > 0 {
      RunRegistry(states, events, n - 1);
      assert events[..n][..n - 1] == events[..n - 1];
      StepRegistry(states[n - 1], events[n - 1], states[n], OpsOf(events[..n - 1]));
    }
  }

  /** In every run the registry lists the apps, in the order and with the addresses, the events gave it. */
  lemma RunListingsFaithful(states: seq<State>, events: seq<Event>, n: nat, group: string)
    requires Run(states, events) && n < |states|
    ensures var ops, eps := OpsOf(events[..n]), Listing(states[n].registry, group);
      Faithful(ops, group, eps) && forall ep :: ep in eps ==> ListedAddress(ops, group, ep)
  {
    RunRegistry(states, events, n);
    ListingsFaithful(OpsOf(events[..n]), group);
  }

  lemma StableAppsDistinct(apps: map<string, Application>, e: Event)
    requires DistinctDeploys(apps) && forall k :: k in apps && k != KeyOf(e.app) ==>
              apps[k].spec.name != e.app.spec.name
    ensures DistinctDeploys(AppsAfter(apps, e))
  {
    forall k | k in AppsAfter(apps, e) ensures UniqueDeploy(AppsAfter(apps, e), k) {
      assert k in apps ==> UniqueDeploy(apps, k);
    }
  }

  lemma StableStepDistinct(s: State, e: Event, s': State)
    requires DistinctDeploys(s.apps) && Stable(s, e) && Step(s, e, s')
    ensures DistinctDeploys(s'.apps)
  {
    StepApps(s, e, s');
    StableAppsDistinct(s.apps, e);
  }

  /** In every run with stable apps every eligible consumer is in step after every event. */
  lemma StableRunSynced(states: seq<State>, events: seq<Event>, n: nat)
    requires Run(states, events) && n < |states|
    requires forall i :: 0 <= i < |events| ==> Stable(states[i], events[i])
    ensures Synced(states[n])
    ensures forall k :: k in states[n].apps && Eligible(states[n].apps[k]) ==>
              EachSeesProviders(states[n], states[n].apps[k])
  {
    StableRunInStep(states, events, n);
    var s := states[n];
    forall k | k in s.apps && Eligible(s.apps[k]) ensures EachSeesProviders(s, s.apps[k]) {
      InStepEachSees(s, s.apps[k]);
    }
  }

  lemma InStepEachSees(s: State, app: Application)
    requires AllInStep(s, app)
    ensures EachSeesProviders(s, app)
  {
    var d := DeployKeyOf(app);
    if d in s.cluster {
      forall i, j | 0 <= i < |s.cluster[d]| && 0 <= j < |s.cluster[d][i]|
        ensures SeesProviders(s.registry, app, s.cluster[d][i][j])
      {
        InStepSees(s.registry, app, s.cluster[d][i][j]);
      }
    }
  }

  lemma StableRunInStep(states: seq<State>, events: seq<Event>, n: nat)
    requires Run(states, events) && n < |states|
    requires forall i :: 0 <= i < |events| ==> Stable(states[i], events[i])
    ensures Synced(states[n])
  {
    forall i | 0 <= i < |states| { StableRunDistinct(states, events, i); }
    forall i | 0 <= i < n ensures LeavesNoneStale(states[i], events[i]) {
      if events[i].Deleted? {
        StableRunKnown(states, events, i);
        forall k | k in states[i].apps { StableDeleteLeavesNone(states[i], events[i].app, states[i].apps[k]); }
      }
    }
    RunKeepsSynced(states, events, n);
  }

  // ---------------------------------------------------------------- the handlers

  /** Read copies of a deployment's containers, merge in place, and send the result back if it changed. */
  method PatchDeployment(containers: seq<Env>, vars: map<string, string>) returns (updated: seq<Env>)
    ensures |updated| == |containers| && forall j :: 0 <= j < |containers| ==> Settled(containers[j], updated[j], vars)
  {
    var deploy: seq<Container> := [];
    for j := 0 to |containers|
      invariant |deploy| == j && fresh(set c | c in deploy)
      invariant forall i :: 0 <= i < j ==> deploy[i].env == containers[i]
      invariant forall i, k :: 0 <= i < k < j ==> deploy[i] != deploy[k]
    {
      var c := new Container(containers[j]);
      deploy := deploy + [c];
    }
    label read:
    var changed := UpdateDeploymentEnv(deploy, vars);
    updated := containers;
    if changed {
      updated := [];
      for j := 0 to |deploy|
        invariant |updated| == j && forall i :: 0 <= i < j ==> updated[i] == deploy[i].env
      {
        updated := updated + [deploy[j].env];
      }
    }
    forall j | 0 <= j < |containers| ensures Settled(containers[j], updated[j], vars) {
      assert Merged(old@read(deploy[j].env), vars, deploy[j].env);
      MergedSettles(containers[j], vars, updated[j]);
    }
  }

  method PatchDeployments(before: Deployments, vars: map<string, string>) returns (after: Deployments)
    ensures SettledAll(before, after, vars)
  {
    after := [];
    for i := 0 to |before|
      invariant SettledAll(before[..i], after, vars)
    {
      var updated := PatchDeployment(before[i], vars);
      after := after + [updated];
    }
    assert before[..|before|] == before;
  }

  lemma SettledAllAgain(before: Deployments, middle: Deployments, after: Deployments, vars: map<string, string>)
    requires (middle == before || SettledAll(before, middle, vars)) && SettledAll(middle, after, vars)
    ensures SettledAll(before, after, vars)
  {
    if middle != before {
      forall i, j | 0 <= i < |before| && 0 <= j < |before[i]| ensures Settled(before[i][j], after[i][j], vars) {
        assert Settled(before[i][j], middle[i][j], vars) && Settled(middle[i][j], after[i][j], vars);
      }
    }
  }

  /** Consumers in `done` are settled; the deployments of any other are as at the start or settled too. */
  ghost predicate PartlyNotified(a: State, groups: set<string>, done: set<Application>, m: State) {
    && m == a.(cluster := m.cluster) && m.cluster.Keys == a.cluster.Keys
    && (forall d :: d in a.cluster && m.cluster[d] != a.cluster[d] ==> NotifiedAt(a.apps, groups, d))
    && (forall k :: k in a.apps && UniqueDeploy(a.apps, k) && DeployKeyOf(a.apps[k]) in a.cluster ==>
          ConsumerProgress(a, m, a.apps[k], a.apps[k] in done))
  }

  ghost predicate ConsumerProgress(a: State, m: State, app: Application, done: bool)
    requires DeployKeyOf(app) in a.cluster && m.cluster.Keys == a.cluster.Keys
  {
    var before, now := a.cluster[DeployKeyOf(app)], m.cluster[DeployKeyOf(app)];
    SettledAll(before, now, WantedVars(a.registry, app)) || (!done && now == before)
  }

  ghost predicate AllWantingIn(apps: map<string, Application>, groups: set<string>, done: set<Application>) {
    forall k, g :: k in apps && g in groups && Wants(apps[k], g) ==> apps[k] in done
  }

  lemma OneMoreNotified(a: State, groups: set<string>, done: set<Application>, m: State, k: string, m': State)
    requires PartlyNotified(a, groups, done, m) && k in a.apps && WantsAny(a.apps[k], groups)
    requires ReconcileStep(m, a.apps[k], m')
    ensures PartlyNotified(a, groups, done + {a.apps[k]}, m')
  {
    var d0 := DeployKeyOf(a.apps[k]);
    forall d | d in a.cluster && m'.cluster[d] != a.cluster[d] ensures NotifiedAt(a.apps, groups, d) {
      if d != d0 { assert m.cluster[d] != a.cluster[d]; }
    }
    forall j | j in a.apps && UniqueDeploy(a.apps, j) && DeployKeyOf(a.apps[j]) in a.cluster
      ensures ConsumerProgress(a, m', a.apps[j], a.apps[j] in done + {a.apps[k]})
    {
      var d := DeployKeyOf(a.apps[j]);
      assert ConsumerProgress(a, m, a.apps[j], a.apps[j] in done);
      if d == d0 {
        assert j == k;
        SettledAllAgain(a.cluster[d], m.cluster[d], m'.cluster[d], WantedVars(a.registry, a.apps[j]));
      } else {
        assert a.apps[j] != a.apps[k];
      }
    }
  }

  /** The applications that name the group in their sysData, each once. */
  method FindConsumers(apps: map<string, Application>, group: string) returns (consumers: set<string>)
    ensures consumers == set k | k in apps && Names(apps[k], group)
  {
    consumers := {};
    var todo := apps.Keys;
    while todo != {}
      invariant todo <= apps.Keys && consumers == set k | k in apps && k !in todo && Names(apps[k], group)
      decreases todo
    {
      var k :| k in todo;
      todo := todo - {k};
      var sysData := SysData(apps[k]);
      for i := 0 to |sysData|
        invariant consumers == set k | k in apps && k !in todo && Names(apps[k], group) && k in consumers
        invariant k !in consumers && forall j :: 0 <= j < i ==> sysData[j].group != group
        invariant forall k' :: k' in apps && k' !in todo && k' != k && Names(apps[k'], group) ==> k' in consumers
      {
        if sysData[i].group == group {
          consumers := consumers + {k};
          break;
        }
      }
    }
  }

  predicate Names(app: Application, group: string) {
    exists sd :: sd in SysData(app) && sd.group == group
  }

  class Server {
    var apps: map<string, Application>
    var registry: Registry
    var cluster: map<DeployKey, Deployments>

    ghost function Now(): State
      reads this
    {
      State(apps, registry, cluster)
    }

    constructor (cluster: map<DeployKey, Deployments>)
      ensures Now() == State(map[], map[], cluster)
    {
      apps, registry, this.cluster := map[], map[], cluster;
    }

    method Reconcile(consumer: Application)
      modifies this`cluster
      ensures ReconcileStep(old(Now()), consumer, Now())
    {
      if SysData(consumer) == [] {
        NothingToSettle(cluster);
        return;
      }
      var envVars := BuildProviderEnvVars(registry, consumer);
      if envVars == map[] {
        NothingToSettle(cluster);
        return;
      }
      var d := DeployKeyOf(consumer);
      if d in cluster {
        var patched := PatchDeployments(cluster[d], envVars);
        cluster := cluster[d := patched];
      }
    }

    method OnProviderChanged(provider: Application)
      modifies this`cluster
      ensures NotifyStep(old(Now()), GroupsOf(provider), Now())
    {
      ghost var start := Now();
      var groups := GroupsOf(provider);
      ghost var done: set<Application> := {};
      var todo := groups;
      while todo != {}
        invariant todo <= groups && apps == start.apps && registry == start.registry
        invariant PartlyNotified(start, groups, done, Now())
        invariant AllWantingIn(apps, groups - todo, done)
        decreases todo
      {
        ghost var handled := groups - todo;
        var group :| group in todo;
        todo := todo - {group};
        var consumers := FindConsumers(apps, group);
        ghost var before := done;
        done := ReconcileConsumers(consumers, group, start, groups, done);
        assert AllWantingIn(apps, groups - todo, done) by {
          forall k, g | k in apps && g in groups - todo && Wants(apps[k], g) ensures apps[k] in done {
            if g == group { assert Names(apps[k], g) && k in consumers; } else { assert g in handled; }
          }
        }
      }
      assert groups - todo == groups;
    }

    method ReconcileConsumers(consumers: set<string>, ghost group: string, ghost start: State,
        ghost groups: set<string>, ghost done: set<Application>)
      returns (ghost done': set<Application>)
      requires apps == start.apps && registry == start.registry && PartlyNotified(start, groups, done, Now())
      requires group in groups && group != "" && forall k :: k in consumers ==> k in apps && Names(apps[k], group)
      modifies this`cluster
      ensures PartlyNotified(start, groups, done', Now()) && done <= done'
      ensures forall k :: k in consumers ==> apps[k] in done'
    {
      done' := done;
      var todo := consumers;
      while todo != {}
        invariant todo <= consumers && done <= done' && PartlyNotified(start, groups, done', Now())
        invariant forall k :: k in consumers - todo ==> apps[k] in done'
        decreases todo
      {
        var k :| k in todo;
        todo := todo - {k};
        ghost var m := Now();
        Reconcile(apps[k]);
        assert Wants(apps[k], group);
        OneMoreNotified(start, groups, done', m, k, Now());
        done' := done' + {apps[k]};
      }
    }

    method HandleAppCreateOrUpdate(app: Application)
      modifies this
      ensures Step(old(Now()), Changed(app), Now())
    {
      ghost var start := Now();
      apps := apps[KeyOf(app) := app];
      if |app.spec.sharedEntrances| > 0 {
        registry := Register(registry, app);
        OnProviderChanged(app);
      } else {
        NobodyNotified(Now(), GroupsOf(app));
      }
      ghost var m := Now();
      assert NotifyStep(Announced(start, Changed(app)), GroupsOf(app), m);
      if |SysData(app)| > 0 {
        Reconcile(app);
      }
      assert FinishStep(m, Changed(app), Now());
    }

    method HandleAppDelete(app: Application)
      modifies this
      ensures Step(old(Now()), Deleted(app), Now())
    {
      ghost var start := Now();
      if |app.spec.sharedEntrances| > 0 {
        registry := Unregister(registry, app.spec.name);
        OnProviderChanged(app);
      } else {
        NobodyNotified(Now(), GroupsOf(app));
      }
      ghost var m := Now();
      assert NotifyStep(Announced(start, Deleted(app)), GroupsOf(app), m);
      apps := apps - {KeyOf(app)};
      assert FinishStep(m, Deleted(app), Now());
    }
  }

  lemma NothingToSettle(cluster: map<DeployKey, Deployments>)
    ensures forall d :: d in cluster ==> SettledAll(cluster[d], cluster[d], map[])
  {
  }

  lemma NobodyNotified(s: State, groups: set<string>)
    requires groups == {}
    ensures NotifyStep(s, groups, s)
  {
  }
}
