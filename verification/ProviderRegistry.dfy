/**
 * The provider registry (internal/systemserver/registry.go) with its slices on
 * the heap: append reuses spare capacity, unregistering filters each slice in
 * place, and readers are handed copies.
 */
module ProviderRegistry {
  import opened Applications
  import opened RegistrySpec
  import opened Text

  /** A Go slice: the first `len` elements of a backing array whose length is the capacity. */
  datatype Slice = Slice(backing: array<Endpoint>, len: nat)

  /** Go's append for one element: in place while there is capacity, into a larger array otherwise. */
  method Append(s: Slice, ep: Endpoint) returns (t: Slice)
    requires s.len <= s.backing.Length
    modifies s.backing
    ensures t.len == s.len + 1 <= t.backing.Length && (t.backing == s.backing || fresh(t.backing))
    ensures t.backing[..t.len] == old(s.backing[..s.len]) + [ep]
  {
    if s.len < s.backing.Length {
      s.backing[s.len] := ep;
      t := Slice(s.backing, s.len + 1);
    } else {
      var capacity: nat :| capacity > s.len;
      var larger := new Endpoint[capacity];
      forall i | 0 <= i < s.len { larger[i] := s.backing[i]; }
      larger[s.len] := ep;
      t := Slice(larger, s.len + 1);
    }
  }

  /** The loop of RegisterProvider over one group: overwrite the app's endpoint, or append it. */
  method Put(s: Slice, ep: Endpoint) returns (t: Slice)
    requires s.len <= s.backing.Length
    modifies s.backing
    ensures 0 < t.len <= t.backing.Length && (t.backing == s.backing || fresh(t.backing))
    ensures t.backing[..t.len] == Upsert(old(s.backing[..s.len]), ep)
  {
    ghost var eps := s.backing[..s.len];
    for i := 0 to s.len
      invariant s.backing[..s.len] == eps && i <= IndexOfApp(eps, ep.appName)
    {
      assert s.backing[i] == eps[i];
      if s.backing[i].appName == ep.appName {
        s.backing[i] := ep;
        return s;
      }
    }
    t := Append(s, ep);
  }

  lemma {:induction false} WithoutSnoc(eps: seq<Endpoint>, last: Endpoint, name: string)
    ensures Without(eps + [last], name) == Without(eps, name) + if last.appName != name then [last] else []
  {
    if eps == [] {
      assert (eps + [last])[1..] == [];
    } else {
      assert (eps + [last])[1..] == eps[1..] + [last];
      WithoutSnoc(eps[1..], last, name);
    }
  }

  /** The in-place filter of one slice: what is kept moves to the front of the same array. */
  method FilterSlice(s: Slice, appName: string) returns (kept: nat)
    requires s.len <= s.backing.Length
    modifies s.backing
    ensures kept <= s.len && s.backing[..kept] == Without(old(s.backing[..s.len]), appName)
  {
    ghost var eps := s.backing[..s.len];
    kept := 0;
    for i := 0 to s.len
      invariant kept <= i
      invariant forall j :: i <= j < s.len ==> s.backing[j] == eps[j]
      invariant s.backing[..kept] == Without(eps[..i], appName)
    {
      TakeSucc(eps, i);
      WithoutSnoc(eps[..i], eps[i], appName);
      if s.backing[i].appName != appName {
        ghost var front := s.backing[..kept];
        s.backing[kept] := s.backing[i];
        kept := kept + 1;
        assert s.backing[..kept] == front + [eps[i]];
      }
    }
    assert eps[..s.len] == eps;
  }

  class ProviderRegistry {
    var providers: map<string, Slice>

    ghost function Arrays(): set<object>
      reads this
    {
      set g | g in providers :: providers[g].backing
    }

    /** Slices stay within their arrays, no two groups share an array, no group is empty. */
    ghost predicate Valid()
      reads this
    {
      && (forall g :: g in providers ==> 0 < providers[g].len <= providers[g].backing.Length)
      && (forall g, h :: g in providers && h in providers && g != h ==> providers[g].backing != providers[h].backing)
    }

    ghost function Contents(): (r: Registry)
      requires Valid()
      reads this, Arrays()
      ensures r.Keys == providers.Keys
    {
      map g | g in providers :: providers[g].backing[..providers[g].len]
    }

    constructor ()
      ensures Valid() && Contents() == map[]
    {
      providers := map[];
    }

    /** When only one group's slice changed, so did only that group's endpoints. */
    twostate lemma OthersKept(group: string)
      requires old(Valid()) && Valid()
      requires forall g :: g != group ==> (g in providers <==> g in old(providers))
      requires forall g :: g in old(providers) && g != group ==>
        providers[g] == old(providers[g]) && unchanged(old(providers)[g].backing)
      ensures forall g :: g in providers && g != group ==> Contents()[g] == old(Contents()[g])
    {
    }

    method UpdateGroup(group: string, ep: Endpoint)
      requires Valid() && group in providers
      modifies this, providers[group].backing
      ensures Valid() && fresh(Arrays() - old(Arrays()))
      ensures Contents() == old(Contents())[group := Upsert(old(Contents())[group], ep)]
    {
      var t := Put(providers[group], ep);
      providers := providers[group := t];
      assert Valid();
      OthersKept(group);
      assert Contents()[group] == Upsert(old(Contents()[group]), ep);
      UpdateElsewhereEqual(Contents(), old(Contents()), group);
    }

    method AddGroup(group: string, ep: Endpoint)
      requires Valid() && group !in providers
      modifies this
      ensures Valid() && fresh(Arrays() - old(Arrays()))
      ensures Contents() == old(Contents())[group := [ep]]
    {
      var backing := new Endpoint[1](_ => ep);
      providers := providers[group := Slice(backing, 1)];
      assert backing[..1] == [ep];
      OthersKept(group);
      UpdateElsewhereEqual(Contents(), old(Contents()), group);
    }

    /** One shared entrance. */
    method PutInGroup(group: string, ep: Endpoint)
      requires Valid()
      modifies this, Arrays()
      ensures Valid() && fresh(Arrays() - old(Arrays()))
      ensures Contents() == old(Contents())[group := Upsert(Listing(old(Contents()), group), ep)]
    {
      if group in providers {
        UpdateGroup(group, ep);
      } else {
        assert Upsert([], ep) == [ep];
        AddGroup(group, ep);
      }
    }

    method RegisterProvider(app: Application)
      requires Valid()
      modifies this, Arrays()
      ensures Valid() && fresh(Arrays() - old(Arrays()))
      ensures Contents() == Register(old(Contents()), app)
    {
      var entrances := app.spec.sharedEntrances;
      for i := 0 to |entrances|
        invariant Valid() && fresh(Arrays() - old(Arrays()))
        invariant RegisterEntrances(Contents(), app, entrances[i..]) == Register(old(Contents()), app)
      {
        var se := entrances[i];
        assert entrances[i..][0] == se && entrances[i..][1..] == entrances[i + 1..];
        if se.name != "" {
          PutInGroup(se.name, EndpointOf(app, se));
        }
      }
      assert entrances[|entrances|..] == [];
    }

    method FilterGroup(group: string, appName: string)
      requires Valid() && group in providers
      modifies this, providers[group].backing
      ensures Valid() && Arrays() <= old(Arrays())
      ensures Contents() == old(FilteredAt(Contents(), group, appName))
    {
      var s := providers[group];
      var kept := FilterSlice(s, appName);
      if kept == 0 {
        providers := providers - {group};
        OthersKept(group);
        RemoveElsewhereEqual(Contents(), old(Contents()), group);
      } else {
        providers := providers[group := Slice(s.backing, kept)];
        assert Valid();
        OthersKept(group);
        UpdateElsewhereEqual(Contents(), old(Contents()), group);
      }
    }

    /** The loop of UnregisterProvider with the groups in `todo` still to come. */
    ghost predicate Unregistering(before: Registry, appName: string, todo: set<string>)
      reads this, Arrays()
    {
      Valid() && todo <= providers.Keys && todo <= before.Keys
          && Contents() == PartlyUnregistered(before, appName, todo)
    }

    method UnregisterProvider(appName: string)
      requires Valid()
      modifies this, Arrays()
      ensures Valid() && Arrays() <= old(Arrays())
      ensures Contents() == Unregister(old(Contents()), appName)
    {
      ghost var before := Contents();
      var todo := providers.Keys;
      NothingUnregistered(before, appName);
      while todo != {}
        invariant Unregistering(before, appName, todo) && Arrays() <= old(Arrays())
        decreases todo
      {
        var group :| group in todo;
        FilterNext(group, appName, before, todo);
        todo := todo - {group};
      }
      AllUnregistered(before, appName);
    }

    /** The next group of the loop. */
    method FilterNext(group: string, appName: string, ghost before: Registry, ghost todo: set<string>)
      requires group in todo && Unregistering(before, appName, todo)
      modifies this, providers[group].backing
      ensures Arrays() <= old(Arrays()) && Unregistering(before, appName, todo - {group})
    {
      PartlyUnregisteredStep(before, appName, todo, group);
      FilterGroup(group, appName);
    }

    /** A copy of a group's slice: a fresh array that no later call writes to. */
    method GetProviders(group: string) returns (snapshot: array<Endpoint>)
      requires Valid()
      ensures fresh(snapshot) && snapshot[..] == Listing(Contents(), group)
    {
      if group !in providers {
        snapshot := new Endpoint[0];
        return;
      }
      var s := providers[group];
      snapshot := new Endpoint[s.len];
      forall i | 0 <= i < s.len { snapshot[i] := s.backing[i]; }
      assert snapshot[..] == s.backing[..s.len];
    }

    method GetAllProviders() returns (snapshots: map<string, array<Endpoint>>)
      requires Valid()
      ensures snapshots.Keys == Contents().Keys
      ensures forall g :: g in snapshots ==> fresh(snapshots[g]) && snapshots[g][..] == Contents()[g]
    {
      snapshots := map[];
      var todo := providers.Keys;
      while todo != {}
        invariant todo <= providers.Keys && snapshots.Keys == providers.Keys - todo
        invariant forall g :: g in snapshots ==> fresh(snapshots[g]) && snapshots[g][..] == Contents()[g]
        decreases todo
      {
        var group :| group in todo;
        var snapshot := GetProviders(group);
        snapshots := snapshots[group := snapshot];
        todo := todo - {group};
      }
    }
  }

  /** Unregister with the groups in `todo` still untouched. */
  ghost function PartlyUnregistered(r: Registry, appName: string, todo: set<string>): Registry {
    map g | g in r && (g in todo || Without(r[g], appName) != []) :: if g in todo then r[g] else Without(r[g], appName)
  }

  lemma NothingUnregistered(r: Registry, appName: string)
    ensures PartlyUnregistered(r, appName, r.Keys) == r
  {
  }

  lemma AllUnregistered(r: Registry, appName: string)
    ensures PartlyUnregistered(r, appName, {}) == Unregister(r, appName)
  {
  }

  lemma UpdateElsewhereEqual(m: Registry, n: Registry, group: string)
    requires group in m && m.Keys == n.Keys + {group}
    requires forall g :: g in m && g != group ==> m[g] == n[g]
    ensures m == n[group := m[group]]
  {
  }

  lemma RemoveElsewhereEqual(m: Registry, n: Registry, group: string)
    requires m.Keys == n.Keys - {group} && forall g :: g in m ==> m[g] == n[g]
    ensures m == n - {group}
  {
  }

  /** The registry with the slice of one group filtered. */
  ghost function FilteredAt(r: Registry, group: string, appName: string): Registry
    requires group in r
  {
    var kept := Without(r[group], appName);
    if kept == [] then r - {group} else r[group := kept]
  }

  lemma PartlyUnregisteredStep(r: Registry, appName: string, todo: set<string>, group: string)
    requires todo <= r.Keys && group in todo
    ensures FilteredAt(PartlyUnregistered(r, appName, todo), group, appName)
            == PartlyUnregistered(r, appName, todo - {group})
  {
  }

  method Perform(registry: ProviderRegistry, op: Op)
    requires registry.Valid()
    modifies registry, registry.Arrays()
    ensures registry.Valid() && fresh(registry.Arrays() - old(registry.Arrays()))
    ensures registry.Contents() == Applied(old(registry.Contents()), op)
  {
    match op
    case Registered(app) => registry.RegisterProvider(app);
    case Unregistered(name) => registry.UnregisterProvider(name);
  }

  /** Whatever calls follow, arrays handed out before them keep their contents. */
  method SnapshotsSurvive(registry: ProviderRegistry, ops: seq<Op>, ghost snapshots: set<array<Endpoint>>)
    requires registry.Valid() && forall a :: a in snapshots ==> a !in registry.Arrays()
    modifies registry, registry.Arrays()
    ensures registry.Valid() && forall a :: a in snapshots ==> a !in registry.Arrays() && a[..] == old(a[..])
  {
    for i := 0 to |ops|
      invariant registry.Valid() && fresh(registry.Arrays() - old(registry.Arrays()))
      invariant forall a :: a in snapshots ==> a[..] == old(a[..])
    {
      Perform(registry, ops[i]);
    }
  }

  /** Snapshot k lists what its group listed before call k. */
  ghost predicate ListThen(snapshots: seq<array<Endpoint>>, ops: seq<Op>, groups: seq<string>)
    requires |snapshots| <= |ops| && |snapshots| <= |groups|
    reads snapshots
  {
    forall k :: 0 <= k < |snapshots| ==> snapshots[k][..] == ListedBefore(ops, groups, k)
  }

  ghost function ListedBefore(ops: seq<Op>, groups: seq<string>, k: nat): seq<Endpoint>
    requires k < |ops| && k < |groups|
  {
    Listing(After(ops[..k]), groups[k])
  }

  ghost predicate Apart(snapshots: seq<array<Endpoint>>, arrays: set<object>) {
    forall k :: 0 <= k < |snapshots| ==> snapshots[k] !in arrays
  }

  method TakeSnapshot(registry: ProviderRegistry, ops: seq<Op>, groups: seq<string>, snapshots: seq<array<Endpoint>>)
    returns (more: seq<array<Endpoint>>)
    requires registry.Valid() && |snapshots| < |ops| && |groups| == |ops|
             && registry.Contents() == After(ops[..|snapshots|])
    requires ListThen(snapshots, ops, groups) && Apart(snapshots, registry.Arrays())
    ensures |more| == |snapshots| + 1 && ListThen(more, ops, groups) && Apart(more, registry.Arrays())
  {
    var snapshot := registry.GetProviders(groups[|snapshots|]);
    assert snapshot !in registry.Arrays();
    more := snapshots + [snapshot];
  }

  /** A call leaves the snapshots as they are, and apart from the registry. */
  method PerformApart(registry: ProviderRegistry, op: Op, ops: seq<Op>, groups: seq<string>,
      snapshots: seq<array<Endpoint>>)
    requires registry.Valid() && |snapshots| <= |ops| && |snapshots| <= |groups|
    requires ListThen(snapshots, ops, groups) && Apart(snapshots, registry.Arrays())
    modifies registry, registry.Arrays()
    ensures registry.Valid() && fresh(registry.Arrays() - old(registry.Arrays()))
    ensures registry.Contents() == Applied(old(registry.Contents()), op)
    ensures ListThen(snapshots, ops, groups) && Apart(snapshots, registry.Arrays())
  {
    Perform(registry, op);
  }

  /**
   * A whole history of calls on a new registry, with a group's snapshot taken before each: the heap
   * denotes what the history denotes, and at the end each snapshot still lists what it listed then.
   */
  method Replay(ops: seq<Op>, groups: seq<string>) returns (registry: ProviderRegistry, snapshots: seq<array<Endpoint>>)
    requires |groups| == |ops|
    ensures fresh(registry) && registry.Valid() && registry.Contents() == After(ops)
    ensures |snapshots| == |ops| && ListThen(snapshots, ops, groups)
  {
    registry := new ProviderRegistry();
    snapshots := [];
    while |snapshots| < |ops|
      invariant fresh(registry) && registry.Valid() && fresh(registry.Arrays()) && |snapshots| <= |ops|
      invariant registry.Contents() == After(ops[..|snapshots|])
      invariant ListThen(snapshots, ops, groups) && Apart(snapshots, registry.Arrays())
      decreases |ops| - |snapshots|
    {
      var i := |snapshots|;
      assert ops[..i + 1][..i] == ops[..i];
      snapshots := TakeSnapshot(registry, ops, groups, snapshots);
      PerformApart(registry, ops[i], ops, groups, snapshots);
    }
    assert ops[..|ops|] == ops;
  }

  /** So on the heap, after every history of calls, every group lists what it should. */
  method ReplayIsFaithful(ops: seq<Op>, group: string) returns (snapshot: array<Endpoint>)
    ensures Faithful(ops, group, snapshot[..]) && forall ep :: ep in snapshot[..] ==> ListedAddress(ops, group, ep)
  {
    var registry, _ := Replay(ops, seq(|ops|, i => group));
    snapshot := registry.GetProviders(group);
    ListingsFaithful(ops, group);
  }
}
