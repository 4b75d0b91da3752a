/**
 * Runs of the system server that leave a consumer with a list of addresses that is not
 * the registry's (internal/systemserver/server.go): after a delete, and for a group that
 * is named in permission.provider only.
 */
module SystemRuns {
  import opened Wrappers
  import opened Applications
  import opened RegistrySpec
  import opened EnvVars
  import opened SystemServer
  import opened AddressChanges

  function Provider(name: string, groups: seq<string>): Application {
    Application("ns", name,
        Spec(name, "", seq(|groups|, i requires 0 <= i < |groups| => SharedEntrance(groups[i], "", 80, "")), None))
  }

  function Consumer(sysData: string, entries: seq<ProviderEntry>): Application {
    Application("ns", "c", Spec("c", "", [], Some(Permission([SysDataEntry(sysData, "", 0, "")], entries))))
  }

  const PLACE := DeployKey("ns", "c")

  /** The consumer's one deployment has one container, with no variable. */
  const CLUSTER: map<DeployKey, Deployments> := map[PLACE := [[[]]]]

  const START := State(map[], map[], CLUSTER)

  lemma GroupsOfProvider(name: string, groups: seq<string>)
    requires "" !in groups
    ensures GroupsOf(Provider(name, groups)) == set g | g in groups
  {
    var app := Provider(name, groups);
    forall g | g in groups ensures g in GroupsOf(app) {
      var i :| 0 <= i < |groups| && groups[i] == g;
      assert app.spec.sharedEntrances[i].name == g && app.spec.sharedEntrances[i] in app.spec.sharedEntrances;
    }
    forall g | g in GroupsOf(app) ensures g in groups {
      var se :| se in app.spec.sharedEntrances && se.name == g;
    }
  }

  /** A container stays, whatever happens to its variables. */
  lemma NotifyKeepsContainer(a: State, groups: set<string>, m: State, d: DeployKey, i: nat, j: nat)
    requires NotifyStep(a, groups, m) && IsContainer(a.cluster, d, i, j) && DistinctDeploys(a.apps)
    ensures IsContainer(m.cluster, d, i, j)
  {
    if m.cluster[d] != a.cluster[d] {
      assert NotifiedAt(a.apps, groups, d);
      var k :| k in a.apps && WantsAny(a.apps[k], groups) && DeployKeyOf(a.apps[k]) == d;
      assert UniqueDeploy(a.apps, k);
    }
  }

  lemma FinishKeepsContainer(m: State, e: Event, s': State, d: DeployKey, i: nat, j: nat)
    requires FinishStep(m, e, s') && IsContainer(m.cluster, d, i, j)
    ensures IsContainer(s'.cluster, d, i, j)
  {
  }

  lemma KeepsContainer(s: State, e: Event, s': State, d: DeployKey, i: nat, j: nat)
    requires Step(s, e, s') && IsContainer(s.cluster, d, i, j) && DistinctDeploys(Announced(s, e).apps)
    ensures IsContainer(s'.cluster, d, i, j)
  {
    var a := Announced(s, e);
    var m: State :| NotifyStep(a, GroupsOf(e.app), m) && FinishStep(m, e, s');
    NotifyKeepsContainer(a, GroupsOf(e.app), m, d, i, j);
    FinishKeepsContainer(m, e, s', d, i, j);
  }

  /** Everyone is in step, and the consumer's container is there. */
  ghost predicate Ready(s: State, apps: map<string, Application>, r: Registry) {
    Synced(s) && IsContainer(s.cluster, PLACE, 0, 0) && s.apps == apps && s.registry == r && DistinctDeploys(apps)
  }

  lemma StartReady()
    ensures Ready(START, map[], map[])
  {
  }

  function RegistryWith(r: Registry, app: Application): Registry {
    if app.spec.sharedEntrances == [] then r else Register(r, app)
  }

  predicate NewName(apps: map<string, Application>, app: Application) {
    forall k :: k in apps && k != KeyOf(app) ==> apps[k].spec.name != app.spec.name
  }

  /** Registering keeps everyone in step and the container in place. */
  lemma ChangedStep(s: State, apps: map<string, Application>, r: Registry, app: Application, s': State)
    requires Ready(s, apps, r) && Step(s, Changed(app), s') && NewName(apps, app)
    ensures Ready(s', apps[KeyOf(app) := app], RegistryWith(r, app))
  {
    StepApps(s, Changed(app), s');
    StableAppsDistinct(apps, Changed(app));
    RegistryAfter(s, Changed(app), s');
    ChangedKeepsSynced(s, app, s');
    KeepsContainer(s, Changed(app), s', PLACE, 0, 0);
  }

  // ---------------------------------------------------------------- a delete

  const P := Provider("p", ["g1", "g2"])
  const Q := Provider("q", ["g2"])
  const C := Consumer("g2", [])

  /** The first provider, later, without the group the consumer wants. */
  const P_LATER := Provider("p", ["g1"])

  lemma TheirGroups()
    ensures GroupsOf(P) == {"g1", "g2"} && GroupsOf(Q) == {"g2"} && GroupsOf(P_LATER) == {"g1"} && GroupsOf(C) == {}
  {
    GroupsOfProvider("p", ["g1", "g2"]);
    GroupsOfProvider("q", ["g2"]);
    GroupsOfProvider("p", ["g1"]);
  }

  /** Before the delete both providers are listed in the group. */
  lemma ListedBoth(r1: Registry, r2: Registry, r4: Registry)
    requires r1 == Register(map[], P) && r2 == Register(r1, Q) && r4 == Register(r2, P_LATER)
    ensures LosesProvider(r4, "p", "g2")
  {
    TheirGroups();
    RegisterListing(map[], P, "g2");
    RegisterListing(r1, Q, "g2");
    RegisterListing(r2, P_LATER, "g2");
    var p, q := OfferedBy(P, "g2"), OfferedBy(Q, "g2");
    assert Upsert([], p) == [p] && IndexOfApp([p], "q") == 1 && Upsert([p], q) == [p, q];
    assert [p, q][1..] == [q] && [q][1..] == [];
    assert Without([q], "p") == [q] && Without([p, q], "p") == [q];
  }

  const APPS_1: map<string, Application> := map["ns/p" := P]
  const APPS_2: map<string, Application> := map["ns/p" := P, "ns/q" := Q]
  const APPS_3: map<string, Application> := map["ns/p" := P, "ns/q" := Q, "ns/c" := C]
  const APPS_4: map<string, Application> := map["ns/p" := P_LATER, "ns/q" := Q, "ns/c" := C]

  lemma Keys()
    ensures KeyOf(P) == KeyOf(P_LATER) == "ns/p" && KeyOf(Q) == "ns/q" && KeyOf(C) == "ns/c"
  {
  }

  lemma TheirApps()
    ensures map[][KeyOf(P) := P] == APPS_1 && APPS_1[KeyOf(Q) := Q] == APPS_2 && APPS_2[KeyOf(C) := C] == APPS_3
    ensures APPS_3[KeyOf(P_LATER) := P_LATER] == APPS_4
  {
    Keys();
  }

  lemma TheirNames()
    ensures NewName(map[], P) && NewName(APPS_1, Q) && NewName(APPS_2, C) && NewName(APPS_3, P_LATER)
  {
    Keys();
    assert P.spec.name == "p" && P_LATER.spec.name == "p" && Q.spec.name == "q" && C.spec.name == "c";
  }

  lemma ReadyForDelete(s1: State, s2: State, s3: State, s4: State)
    requires Step(START, Changed(P), s1) && Step(s1, Changed(Q), s2) && Step(s2, Changed(C), s3)
             && Step(s3, Changed(P_LATER), s4)
    ensures Ready(s4, APPS_4, Register(Register(Register(map[], P), Q), P_LATER))
  {
    TheirApps();
    TheirNames();
    StartReady();
    var r1 := Register(map[], P);
    var r2 := Register(r1, Q);
    ChangedStep(START, map[], map[], P, s1);
    ChangedStep(s1, APPS_1, r1, Q, s2);
    ChangedStep(s2, APPS_2, r2, C, s3);
    ChangedStep(s3, APPS_3, r2, P_LATER, s4);
  }

  lemma ConsumerLeftStale(s: State)
    requires IsContainer(s.cluster, PLACE, 0, 0) && LosesProvider(s.registry, "p", "g2")
    ensures LeftStale(s, P_LATER, C)
  {
    TheirGroups();
    assert SysData(C) == [SysDataEntry("g2", "", 0, "")] && ProviderEntries(C) == [];
    assert SysData(C)[0] in SysData(C) && Wants(C, "g2");
    assert DeployKeyOf(C) == PLACE && s.cluster[PLACE][0] != [];
  }

  lemma StaleAfterDelete(s1: State, s2: State, s3: State, s4: State, s5: State)
    requires Step(START, Changed(P), s1) && Step(s1, Changed(Q), s2) && Step(s2, Changed(C), s3)
    requires Step(s3, Changed(P_LATER), s4) && Step(s4, Deleted(P_LATER), s5)
    ensures Synced(s4) && !Synced(s5)
  {
    ReadyForDelete(s1, s2, s3, s4);
    Keys();
    ListedBoth(Register(map[], P), Register(Register(map[], P), Q), s4.registry);
    ConsumerLeftStale(s4);
    DeletedKeepsSyncedIff(s4, P_LATER, s5);
    assert s4.apps["ns/c"] == C && "ns/c" != KeyOf(P_LATER);
  }

  /** From an empty server: p registers g1 and g2, q g2, a consumer of g2 comes, p shrinks to g1 and is deleted. */
  method DeleteLeavesStale() returns (server: Server)
    ensures fresh(server) && !Synced(server.Now())
  {
    server := new Server(CLUSTER);
    server.HandleAppCreateOrUpdate(P);
    ghost var s1 := server.Now();
    server.HandleAppCreateOrUpdate(Q);
    ghost var s2 := server.Now();
    server.HandleAppCreateOrUpdate(C);
    ghost var s3 := server.Now();
    server.HandleAppCreateOrUpdate(P_LATER);
    ghost var s4 := server.Now();
    server.HandleAppDelete(P_LATER);
    StaleAfterDelete(s1, s2, s3, s4, server.Now());
  }

  // ---------------------------------------------------------------- a permission.provider entry

  const FIRST := Provider("p", ["g"])
  const SECOND := Provider("q", ["g"])
  const WITH_ENTRY := Consumer("other", [ProviderEntry("g")])

  lemma EntryGroups()
    ensures GroupsOf(FIRST) == {"g"} && GroupsOf(SECOND) == {"g"}
  {
    GroupsOfProvider("p", ["g"]);
    GroupsOfProvider("q", ["g"]);
  }

  const ENTRY_APPS_1: map<string, Application> := map["ns/p" := FIRST]
  const ENTRY_APPS_2: map<string, Application> := map["ns/p" := FIRST, "ns/c" := WITH_ENTRY]
  const ENTRY_APPS_3: map<string, Application> := map["ns/p" := FIRST, "ns/c" := WITH_ENTRY, "ns/q" := SECOND]

  lemma EntryKeys()
    ensures KeyOf(FIRST) == "ns/p" && KeyOf(WITH_ENTRY) == "ns/c" && KeyOf(SECOND) == "ns/q"
  {
  }

  lemma EntryApps()
    ensures map[][KeyOf(FIRST) := FIRST] == ENTRY_APPS_1
            && ENTRY_APPS_1[KeyOf(WITH_ENTRY) := WITH_ENTRY] == ENTRY_APPS_2
    ensures ENTRY_APPS_2[KeyOf(SECOND) := SECOND] == ENTRY_APPS_3
  {
    EntryKeys();
  }

  lemma EntryNames()
    ensures NewName(map[], FIRST) && NewName(ENTRY_APPS_1, WITH_ENTRY) && NewName(ENTRY_APPS_2, SECOND)
  {
    EntryKeys();
    assert FIRST.spec.name == "p" && WITH_ENTRY.spec.name == "c" && SECOND.spec.name == "q";
  }

  lemma EntryFields()
    ensures SysData(WITH_ENTRY) == [SysDataEntry("other", "", 0, "")]
            && ProviderEntries(WITH_ENTRY) == [ProviderEntry("g")]
  {
  }

  lemma NamesDoNotClash()
    ensures NoClash("other", "g")
  {
    NoDot("other");
    NoDot("g");
    assert "other"[0..] == "other" && "g"[0..] == "g";
    assert |GroupToEnvVarName("other")| != |GroupToEnvVarName("g")|;
  }

  lemma OneOfEach(app: Application, g: string, h: string)
    requires forall sd :: sd in SysData(app) ==> sd.group == g
    requires forall pe :: pe in ProviderEntries(app) ==> pe.providerName == h
    requires NoClash(g, h)
    ensures ClashFree(app)
  {
  }

  lemma OnlyThese(app: Application, sd: SysDataEntry, pe: ProviderEntry)
    requires SysData(app) == [sd] && ProviderEntries(app) == [pe] && pe.providerName != ""
             && NoClash(sd.group, pe.providerName)
    ensures ClashFree(app) && HasEntry(app, pe.providerName)
  {
    OneOfEach(app, sd.group, pe.providerName);
    assert ProviderEntries(app)[0] == pe;
  }

  lemma EntryIsPlain()
    ensures ClashFree(WITH_ENTRY) && HasEntry(WITH_ENTRY, "g")
  {
    EntryFields();
    NamesDoNotClash();
    OnlyThese(WITH_ENTRY, SysDataEntry("other", "", 0, ""), ProviderEntry("g"));
  }

  lemma EntryNotConcerned()
    ensures !WantsAny(WITH_ENTRY, {"g"})
  {
    EntryFields();
    assert "other"[0] != "g"[0];
  }

  /** Its own event brings the consumer's entry in step. */
  lemma EntrySetByOwnEvent(s1: State, s2: State)
    requires Ready(s1, ENTRY_APPS_1, Register(map[], FIRST)) && Step(s1, Changed(WITH_ENTRY), s2)
    ensures HasValue(s2.cluster, PLACE, 0, 0, GroupToEnvVarName("g"), UrlList(Listing(s2.registry, "g")))
  {
    EntryIsPlain();
    EntryFields();
    FirstIsListed();
    EntryWanted(s1.registry, WITH_ENTRY, "g");
    var a := Announced(s1, Changed(WITH_ENTRY));
    var m: State :| NotifyStep(a, GroupsOf(WITH_ENTRY), m) && FinishStep(m, Changed(WITH_ENTRY), s2);
    EntryApps();
    EntryNames();
    StableAppsDistinct(ENTRY_APPS_1, Changed(WITH_ENTRY));
    NotifyKeepsContainer(a, GroupsOf(WITH_ENTRY), m, PLACE, 0, 0);
    OwnReconcile(m, s2);
  }

  lemma OwnReconcile(m: State, s': State)
    requires ReconcileStep(m, WITH_ENTRY, s') && IsContainer(m.cluster, PLACE, 0, 0)
    ensures IsContainer(s'.cluster, PLACE, 0, 0)
    ensures Settled(m.cluster[PLACE][0][0], s'.cluster[PLACE][0][0], WantedVars(m.registry, WITH_ENTRY))
  {
    assert DeployKeyOf(WITH_ENTRY) == PLACE;
  }

  lemma FirstIsListed()
    ensures Listing(Register(map[], FIRST), "g") == [OfferedBy(FIRST, "g")]
  {
    EntryGroups();
    RegisterListing(map[], FIRST, "g");
  }

  lemma SecondChangesAddresses(r: Registry)
    requires r == Register(map[], FIRST)
    ensures ChangesAddresses(r, Changed(SECOND), "g") && Listing(Register(r, SECOND), "g") != []
  {
    EntryGroups();
    FirstIsListed();
    assert SECOND.spec.name == "q" && OfferedBy(FIRST, "g").appName == "p";
    assert IndexOfApp([OfferedBy(FIRST, "g")], "q") == 1;
    RegisterListing(r, SECOND, "g");
  }

  lemma ReadyForSecond(s1: State, s2: State)
    requires Step(START, Changed(FIRST), s1) && Step(s1, Changed(WITH_ENTRY), s2)
    ensures Ready(s1, ENTRY_APPS_1, Register(map[], FIRST)) && Ready(s2, ENTRY_APPS_2, Register(map[], FIRST))
  {
    EntryApps();
    EntryNames();
    StartReady();
    ChangedStep(START, map[], map[], FIRST, s1);
    ChangedStep(s1, ENTRY_APPS_1, Register(map[], FIRST), WITH_ENTRY, s2);
  }

  lemma EntryIsUnique()
    requires DistinctDeploys(ENTRY_APPS_2)
    ensures UniqueDeploy(ENTRY_APPS_3, "ns/c") && DeployKeyOf(ENTRY_APPS_3["ns/c"]) == PLACE
  {
    EntryKeys();
    EntryApps();
    EntryNames();
    StableAppsDistinct(ENTRY_APPS_2, Changed(SECOND));
  }

  lemma EntryStale(s1: State, s2: State, s3: State)
    requires Step(START, Changed(FIRST), s1) && Step(s1, Changed(WITH_ENTRY), s2) && Step(s2, Changed(SECOND), s3)
    ensures !HasValue(s3.cluster, PLACE, 0, 0, GroupToEnvVarName("g"), UrlList(Listing(s3.registry, "g")))
  {
    ReadyForSecond(s1, s2);
    EntrySetByOwnEvent(s1, s2);
    SecondChangesAddresses(s2.registry);
    RegistryAfter(s2, Changed(SECOND), s3);
    EntryStaleHere(s2, s3);
  }

  lemma EntryStaleHere(s2: State, s3: State)
    requires Ready(s2, ENTRY_APPS_2, s2.registry) && Step(s2, Changed(SECOND), s3)
    requires ChangesAddresses(s2.registry, Changed(SECOND), "g") && Listing(s3.registry, "g") != []
    requires HasValue(s2.cluster, PLACE, 0, 0, GroupToEnvVarName("g"), UrlList(Listing(s2.registry, "g")))
    ensures !HasValue(s3.cluster, PLACE, 0, 0, GroupToEnvVarName("g"), UrlList(Listing(s3.registry, "g")))
  {
    EntryKeys();
    EntryApps();
    EntryIsUnique();
    EntryIsPlain();
    EntryGroups();
    EntryNotConcerned();
    ProviderEntryInStepIff(s2, Changed(SECOND), s3, "ns/c", "g", 0, 0);
  }

  /** From an empty server: p registers g, a consumer with an entry for g comes, then q registers g. */
  method EntryGoesStale() returns (server: Server)
    ensures fresh(server)
    ensures var s := server.Now();
      !HasValue(s.cluster, PLACE, 0, 0, GroupToEnvVarName("g"), UrlList(Listing(s.registry, "g")))
  {
    server := new Server(CLUSTER);
    server.HandleAppCreateOrUpdate(FIRST);
    ghost var s1 := server.Now();
    server.HandleAppCreateOrUpdate(WITH_ENTRY);
    ghost var s2 := server.Now();
    server.HandleAppCreateOrUpdate(SECOND);
    EntryStale(s1, s2, server.Now());
  }
}
