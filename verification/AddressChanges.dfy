/**
 * What one event does to a consumer's variable for a group outside the property of
 * SystemServer: a group it names in permission.provider, and a group whose last provider
 * goes (internal/systemserver/server.go and reconciler.go).
 */
module AddressChanges {
  import opened Wrappers
  import opened Text
  import opened Applications
  import opened RegistrySpec
  import opened EnvVars
  import opened SystemServer

  // ---------------------------------------------------------------- when an event changes a group's address list

  function UrlOf(ep: Endpoint): string {
    Url(ep.host, ep.port)
  }

  /** The app registers in the group anew or with another address, or it is listed there and goes. */
  predicate ChangesAddresses(r: Registry, e: Event, g: string) {
    var eps := Listing(r, g);
    var at := IndexOfApp(eps, e.app.spec.name);
    match e
    case Changed(app) => g in GroupsOf(app) && (at == |eps| || UrlOf(eps[at]) != UrlOf(OfferedBy(app, g)))
    case Deleted(app) => app.spec.sharedEntrances != [] && at < |eps|
  }

  lemma SameSuffix(a: string, b: string, t: string)
    ensures a + t == b + t <==> a == b
  {
    if a + t == b + t {
      assert |a| == |b| && (a + t)[..|a|] == a && (b + t)[..|b|] == b;
    }
  }

  lemma SamePrefix(p: string, a: string, b: string)
    ensures p + a == p + b <==> a == b
  {
    assert (p + a)[|p|..] == a && (p + b)[|p|..] == b;
  }

  /** Changing one part changes the joined text. */
  lemma {:induction false} JoinUpdate(parts: seq<string>, i: nat, x: string, sep: string)
    requires i < |parts|
    ensures Join(parts[i := x], sep) == Join(parts, sep) <==> x == parts[i]
  {
    if |parts| > 1 {
      if i == 0 {
        assert parts[0 := x][1..] == parts[1..];
        assert x + sep + Join(parts[1..], sep) == x + (sep + Join(parts[1..], sep));
        assert parts[0] + sep + Join(parts[1..], sep) == parts[0] + (sep + Join(parts[1..], sep));
        SameSuffix(x, parts[0], sep + Join(parts[1..], sep));
      } else {
        assert parts[i := x][1..] == parts[1..][i - 1 := x];
        JoinUpdate(parts[1..], i - 1, x, sep);
        SamePrefix(parts[0] + sep, Join(parts[1..][i - 1 := x], sep), Join(parts[1..], sep));
      }
    }
  }

  lemma UrlListUpdate(eps: seq<Endpoint>, i: nat, ep: Endpoint)
    requires i < |eps|
    ensures UrlList(eps[i := ep]) == UrlList(eps) <==> UrlOf(ep) == UrlOf(eps[i])
  {
    assert Urls(eps[i := ep]) == Urls(eps)[i := UrlOf(ep)];
    JoinUpdate(Urls(eps), i, UrlOf(ep), ",");
  }

  lemma {:induction false} WeightSnoc(eps: seq<Endpoint>, ep: Endpoint)
    ensures Weight(eps + [ep]) > Weight(eps)
  {
    if eps == [] {
      assert [] + [ep] == [ep];
    } else {
      assert (eps + [ep])[1..] == eps[1..] + [ep];
      WeightSnoc(eps[1..], ep);
    }
  }

  lemma UrlListAppend(eps: seq<Endpoint>, ep: Endpoint)
    ensures UrlList(eps + [ep]) != UrlList(eps)
  {
    WeightSnoc(eps, ep);
    UrlListLength(eps + [ep]);
    if eps == [] {
      assert eps + [ep] == [ep] && UrlList([ep]) == UrlOf(ep) && |UrlOf(ep)| > 0 && UrlList([]) == "";
    } else {
      UrlListLength(eps);
    }
  }

  lemma {:induction false} WithoutSameIff(eps: seq<Endpoint>, name: string)
    ensures Without(eps, name) == eps <==> IndexOfApp(eps, name) == |eps|
  {
    WithoutWeight(eps, name);
    if eps != [] {
      assert eps == [eps[0]] + eps[1..];
      WithoutSameIff(eps[1..], name);
      if eps[0].appName == name { WithoutShorter(eps[1..], name); }
    }
  }

  lemma {:induction false} WithoutShorter(eps: seq<Endpoint>, name: string)
    ensures |Without(eps, name)| <= |eps|
  {
    if eps != [] { WithoutShorter(eps[1..], name); }
  }

  /** For a group that is listed afterwards, the address list changes exactly so. */
  lemma AddressesChangeIff(s: State, e: Event, g: string)
    requires Listing(Announced(s, e).registry, g) != []
    ensures UrlList(Listing(Announced(s, e).registry, g)) != UrlList(Listing(s.registry, g))
            <==> ChangesAddresses(s.registry, e, g)
  {
    match e
    case Changed(app) => UpsertChangesIff(s.registry, app, g);
    case Deleted(app) => if app.spec.sharedEntrances != [] { RemovalChangesIff(s.registry, app, g); }
  }

  lemma UpsertChangesIff(r: Registry, app: Application, g: string)
    ensures UrlList(Listing(Register(r, app), g)) != UrlList(Listing(r, g)) <==> ChangesAddresses(r, Changed(app), g)
  {
    RegisterListing(r, app, g);
    if g in GroupsOf(app) {
      var eps, ep := Listing(r, g), OfferedBy(app, g);
      var at := IndexOfApp(eps, ep.appName);
      if at < |eps| { UrlListUpdate(eps, at, ep); } else { UrlListAppend(eps, ep); }
    }
  }

  lemma RemovalChangesIff(r: Registry, app: Application, g: string)
    requires app.spec.sharedEntrances != [] && Listing(Unregister(r, app.spec.name), g) != []
    ensures UrlList(Listing(Unregister(r, app.spec.name), g)) != UrlList(Listing(r, g))
            <==> ChangesAddresses(r, Deleted(app), g)
  {
    UnregisterListing(r, app.spec.name, g);
    WithoutSameIff(Listing(r, g), app.spec.name);
    if Without(Listing(r, g), app.spec.name) != Listing(r, g) { ShorterList(Listing(r, g), app.spec.name); }
  }

  // ---------------------------------------------------------------- permission.provider entries

  predicate HasEntry(app: Application, g: string) {
    g != "" && exists pe :: pe in ProviderEntries(app) && pe.providerName == g
  }

  /** No two groups of the consumer, wherever it names them, derive one variable name. */
  ghost predicate ClashFree(app: Application) {
    && Eligible(app)
    && forall pe, pe' :: pe in ProviderEntries(app) && pe' in ProviderEntries(app) ==>
         NoClash(pe.providerName, pe'.providerName)
  }

  lemma {:induction false} ProviderVarsSet(r: Registry, vars: map<string, string>, entries: seq<ProviderEntry>,
      g: string)
    requires g != "" && Listing(r, g) != [] && exists pe :: pe in entries && pe.providerName == g
    requires forall pe :: pe in entries ==> NoClash(g, pe.providerName)
    ensures var all := ProviderVars(r, vars, entries);
      GroupToEnvVarName(g) in all && all[GroupToEnvVarName(g)] == UrlList(Listing(r, g))
    decreases |entries|
  {
    var before, last := entries[..|entries| - 1], entries[|entries| - 1];
    assert entries == before + [last];
    if last.providerName != g {
      ProviderVarsSet(r, vars, before, g);
      assert NoClash(g, last.providerName);
    }
  }

  lemma EntryWanted(r: Registry, app: Application, g: string)
    requires ClashFree(app) && HasEntry(app, g) && SysData(app) != [] && Listing(r, g) != []
    ensures var vars := WantedVars(r, app);
      GroupToEnvVarName(g) in vars && vars[GroupToEnvVarName(g)] == UrlList(Listing(r, g))
  {
    var pe :| pe in ProviderEntries(app) && pe.providerName == g;
    assert forall pe' :: pe' in ProviderEntries(app) ==> NoClash(pe.providerName, pe'.providerName);
    ProviderVarsSet(r, SysDataVars(r, app, SysData(app)), ProviderEntries(app), g);
  }

  /** The last part of an event leaves the deployments of all other apps alone. */
  lemma FinishElsewhere(m: State, e: Event, s': State, d: DeployKey)
    requires FinishStep(m, e, s') && d in m.cluster && (e.Changed? ==> DeployKeyOf(e.app) != d)
    ensures d in s'.cluster && s'.cluster[d] == m.cluster[d] && s'.registry == m.registry
  {
  }

  lemma ConcernedSettled(s: State, e: Event, s': State, k: string)
    requires Step(s, e, s') && k in s.apps && k != KeyOf(e.app) && UniqueDeploy(Announced(s, e).apps, k)
    requires WantsAny(s.apps[k], GroupsOf(e.app)) && DeployKeyOf(s.apps[k]) in s.cluster
    ensures var c, d := s.apps[k], DeployKeyOf(s.apps[k]);
      d in s'.cluster && SettledAll(s.cluster[d], s'.cluster[d], WantedVars(Announced(s, e).registry, c))
  {
    var a, d := Announced(s, e), DeployKeyOf(s.apps[k]);
    var m: State :| NotifyStep(a, GroupsOf(e.app), m) && FinishStep(m, e, s');
    assert a.apps[k] == s.apps[k] && d in m.cluster;
    assert e.Changed? ==> DeployKeyOf(a.apps[KeyOf(e.app)]) != d;
    FinishElsewhere(m, e, s', d);
  }

  lemma RegistryAfter(s: State, e: Event, s': State)
    requires Step(s, e, s')
    ensures s'.registry == Announced(s, e).registry
  {
  }

  /**
   * What an event does to one container of another app: its variables settle when it concerns its sysData, else
   * nothing.
   */
  lemma ContainerAfter(s: State, e: Event, s': State, k: string, i: nat, j: nat)
    requires Step(s, e, s') && k in s.apps && k != KeyOf(e.app) && UniqueDeploy(Announced(s, e).apps, k)
    requires IsContainer(s.cluster, DeployKeyOf(s.apps[k]), i, j)
    ensures s'.registry == Announced(s, e).registry
    ensures var c, d := s.apps[k], DeployKeyOf(s.apps[k]);
      && IsContainer(s'.cluster, d, i, j)
      && if WantsAny(c, GroupsOf(e.app))
           then Settled(s.cluster[d][i][j], s'.cluster[d][i][j], WantedVars(s'.registry, c))
         else s'.cluster[d][i][j] == s.cluster[d][i][j]
  {
    RegistryAfter(s, e, s');
    if WantsAny(s.apps[k], GroupsOf(e.app)) {
      ConcernedSettled(s, e, s', k);
    } else {
      UnconcernedUntouched(s, e, s', k);
    }
  }

  predicate IsContainer(cluster: map<DeployKey, Deployments>, d: DeployKey, i: nat, j: nat) {
    d in cluster && i < |cluster[d]| && j < |cluster[d][i]|
  }

  /**
   * An entry that was in step is in step after another app's event exactly when the event also concerns a group
   * of the consumer's sysData, or leaves the entry's addresses alone.
   */
  lemma ProviderEntryInStepIff(s: State, e: Event, s': State, k: string, g: string, i: nat, j: nat)
    requires Step(s, e, s') && k in s.apps && k != KeyOf(e.app) && UniqueDeploy(Announced(s, e).apps, k)
    requires ClashFree(s.apps[k]) && HasEntry(s.apps[k], g) && Listing(s'.registry, g) != []
    requires HasValue(s.cluster, DeployKeyOf(s.apps[k]), i, j, GroupToEnvVarName(g), UrlList(Listing(s.registry, g)))
    ensures HasValue(s'.cluster, DeployKeyOf(s.apps[k]), i, j, GroupToEnvVarName(g), UrlList(Listing(s'.registry, g)))
            <==> WantsAny(s.apps[k], GroupsOf(e.app)) || !ChangesAddresses(s.registry, e, g)
  {
    ContainerAfter(s, e, s', k, i, j);
    AddressesChangeIff(s, e, g);
    if WantsAny(s.apps[k], GroupsOf(e.app)) { EntryWanted(s'.registry, s.apps[k], g); }
  }

  // ---------------------------------------------------------------- the last provider goes

  /** The static service of the consumer's last sysData entry for the group that gives one. */
  function StaticUrl(app: Application, sysData: seq<SysDataEntry>, g: string): Option<string> {
    if sysData == [] then None
    else
      var last := sysData[|sysData| - 1];
      if last.group == g && SysDataVar(map[], app, last).Some? then SysDataVar(map[], app, last)
      else StaticUrl(app, sysData[..|sysData| - 1], g)
  }

  /** An entry for the group that names a service and a port. */
  predicate NamesService(sd: SysDataEntry, g: string) {
    sd.group == g && sd.svc != "" && sd.port > 0
  }

  /** The last such entry decides, and without one there is no static service. */
  lemma {:induction false} StaticUrlIs(app: Application, sysData: seq<SysDataEntry>, g: string)
    requires g != ""
    ensures StaticUrl(app, sysData, g).None? <==> forall i :: 0 <= i < |sysData| ==> !NamesService(sysData[i], g)
    ensures forall i :: 0 <= i < |sysData| && NamesService(sysData[i], g)
                        && (forall j :: i < j < |sysData| ==> !NamesService(sysData[j], g)) ==>
              StaticUrl(app, sysData, g) == Some(ServiceText(app, sysData[i]))
  {
    if sysData != [] {
      var before, last := sysData[..|sysData| - 1], sysData[|sysData| - 1];
      StaticUrlIs(app, before, g);
      if last.group == g { EntryService(app, last, g); }
      assert forall i :: 0 <= i < |before| ==> before[i] == sysData[i];
    }
  }

  lemma EntryService(app: Application, sd: SysDataEntry, g: string)
    requires g != "" && sd.group == g
    ensures NamesService(sd, g) ==> SysDataVar(map[], app, sd) == Some(ServiceText(app, sd))
    ensures !NamesService(sd, g) ==> SysDataVar(map[], app, sd) == None
  {
    assert Listing(map[], sd.group) == [];
    WantedText(map[], app, sd);
  }

  function ValueIn(vars: map<string, string>, name: string): Option<string> {
    if name in vars then Some(vars[name]) else None
  }

  lemma {:induction false} StaticVar(r: Registry, app: Application, sysData: seq<SysDataEntry>, g: string)
    requires g != "" && Listing(r, g) == [] && forall sd :: sd in sysData ==> NoClash(g, sd.group)
    ensures ValueIn(SysDataVars(r, app, sysData), GroupToEnvVarName(g)) == StaticUrl(app, sysData, g)
    decreases |sysData|
  {
    if sysData != [] {
      var before, last := sysData[..|sysData| - 1], sysData[|sysData| - 1];
      assert NoClash(g, last.group) && sysData == before + [last];
      StaticVar(r, app, before, g);
      if last.group == g {
        SameStaticVar(r, app, last);
      } else {
        OtherVarKept(r, app, before, last, GroupToEnvVarName(g));
      }
    }
  }

  lemma SameStaticVar(r: Registry, app: Application, sd: SysDataEntry)
    requires Listing(r, sd.group) == []
    ensures SysDataVar(r, app, sd) == SysDataVar(map[], app, sd)
  {
    assert Listing(map[], sd.group) == [];
  }

  lemma {:induction false} NoProviderVar(r: Registry, vars: map<string, string>, entries: seq<ProviderEntry>, g: string)
    requires g != "" && Listing(r, g) == [] && forall pe :: pe in entries ==> NoClash(g, pe.providerName)
    ensures ValueIn(ProviderVars(r, vars, entries), GroupToEnvVarName(g)) == ValueIn(vars, GroupToEnvVarName(g))
    decreases |entries|
  {
    if entries != [] {
      NoProviderVar(r, vars, entries[..|entries| - 1], g);
      assert NoClash(g, entries[|entries| - 1].providerName);
    }
  }

  /** Without providers a wanted group asks for its static service, or for nothing. */
  lemma UnprovidedWanted(r: Registry, app: Application, g: string)
    requires Eligible(app) && Wants(app, g) && Listing(r, g) == []
    ensures ValueIn(WantedVars(r, app), GroupToEnvVarName(g)) == StaticUrl(app, SysData(app), g)
  {
    var sd :| sd in SysData(app) && sd.group == g;
    assert forall sd' :: sd' in SysData(app) ==> NoClash(sd.group, sd'.group);
    assert forall pe :: pe in ProviderEntries(app) ==> NoClash(sd.group, pe.providerName);
    StaticVar(r, app, SysData(app), g);
    NoProviderVar(r, SysDataVars(r, app, SysData(app)), ProviderEntries(app), g);
  }

  /**
   * When an event leaves a wanted group without providers, a container keeps the value it had, such as the
   * address of the provider that went, exactly when the event does not concern the consumer, or no static
   * service stands in, or one with that very address.
   */
  lemma LastProviderGoneIff(s: State, e: Event, s': State, k: string, g: string, i: nat, j: nat, value: string)
    requires Step(s, e, s') && k in s.apps && k != KeyOf(e.app) && UniqueDeploy(Announced(s, e).apps, k)
    requires Eligible(s.apps[k]) && Wants(s.apps[k], g) && Listing(s'.registry, g) == []
    requires HasValue(s.cluster, DeployKeyOf(s.apps[k]), i, j, GroupToEnvVarName(g), value)
    ensures HasValue(s'.cluster, DeployKeyOf(s.apps[k]), i, j, GroupToEnvVarName(g), value)
            <==> !WantsAny(s.apps[k], GroupsOf(e.app))
                 || StaticUrl(s.apps[k], SysData(s.apps[k]), g) in {None, Some(value)}
  {
    ContainerAfter(s, e, s', k, i, j);
    UnprovidedWanted(s'.registry, s.apps[k], g);
  }
}
