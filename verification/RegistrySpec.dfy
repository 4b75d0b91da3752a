/** What the provider registry holds, as values, and what that means over a history of calls. */
module RegistrySpec {
  import opened Applications

  /** Group name to endpoints, in registration order. */
  type Registry = map<string, seq<Endpoint>>

  function Listing(r: Registry, group: string): seq<Endpoint> {
    if group in r then r[group] else []
  }

  function IndexOfApp(eps: seq<Endpoint>, appName: string): (i: nat)
    ensures i <= |eps|
    ensures i < |eps| ==> eps[i].appName == appName
    ensures forall j :: 0 <= j < i ==> eps[j].appName != appName
  {
    if eps == [] || eps[0].appName == appName then 0 else 1 + IndexOfApp(eps[1..], appName)
  }

  /** Overwrite the endpoint of the same app, or append. */
  function Upsert(eps: seq<Endpoint>, ep: Endpoint): seq<Endpoint> {
    var i := IndexOfApp(eps, ep.appName);
    if i < |eps| then eps[i := ep] else eps + [ep]
  }

  function RegisterEntrances(r: Registry, app: Application, entrances: seq<SharedEntrance>): Registry
    decreases |entrances|
  {
    if entrances == [] then r
    else
      var se := entrances[0];
      var r' := if se.name == "" then r else r[se.name := Upsert(Listing(r, se.name), EndpointOf(app, se))];
      RegisterEntrances(r', app, entrances[1..])
  }

  function Register(r: Registry, app: Application): Registry {
    RegisterEntrances(r, app, app.spec.sharedEntrances)
  }

  /** The endpoints of all other apps, in order. */
  function Without(eps: seq<Endpoint>, appName: string): seq<Endpoint> {
    if eps == [] then []
    else (if eps[0].appName != appName then [eps[0]] else []) + Without(eps[1..], appName)
  }

  function Unregister(r: Registry, appName: string): Registry {
    map g | g in r && Without(r[g], appName) != [] :: Without(r[g], appName)
  }

  // ---------------------------------------------------------------- histories

  datatype Op = Registered(app: Application) | Unregistered(appName: string)

  function After(ops: seq<Op>): Registry {
    if ops == [] then map[] else Applied(After(ops[..|ops| - 1]), ops[|ops| - 1])
  }

  function Applied(r: Registry, op: Op): Registry {
    match op
    case Registered(app) => Register(r, app)
    case Unregistered(name) => Unregister(r, name)
  }

  /** Call `i` registered `appName` in `group`, and the app was not unregistered since. */
  predicate Since(ops: seq<Op>, appName: string, group: string, i: int) {
    && 0 <= i < |ops| && ops[i].Registered? && ops[i].app.spec.name == appName && group in GroupsOf(ops[i].app)
    && forall j :: i < j < |ops| ==> ops[j] != Unregistered(appName)
  }

  /** Its earliest and its latest such call. */
  predicate FirstSince(ops: seq<Op>, appName: string, group: string, i: int) {
    Since(ops, appName, group, i) && forall j :: 0 <= j < i ==> !Since(ops, appName, group, j)
  }

  predicate LastSince(ops: seq<Op>, appName: string, group: string, i: int) {
    Since(ops, appName, group, i) && forall j :: i < j < |ops| ==> !Since(ops, appName, group, j)
  }

  /** The last entrance an app names for a group decides its endpoint. */
  function LastEndpoint(app: Application, entrances: seq<SharedEntrance>, group: string): Endpoint
    requires exists se :: se in entrances && se.name == group
  {
    var last := entrances[|entrances| - 1];
    if last.name == group then EndpointOf(app, last) else LastEndpoint(app, entrances[..|entrances| - 1], group)
  }

  function OfferedBy(app: Application, group: string): (ep: Endpoint)
    requires group in GroupsOf(app)
    ensures ep.appName == app.spec.name
  {
    LastEndpointNamesApp(app, app.spec.sharedEntrances, group);
    LastEndpoint(app, app.spec.sharedEntrances, group)
  }

  lemma {:induction false} LastEndpointNamesApp(app: Application, entrances: seq<SharedEntrance>, group: string)
    requires exists se :: se in entrances && se.name == group
    ensures LastEndpoint(app, entrances, group).appName == app.spec.name
  {
    if entrances[|entrances| - 1].name != group {
      LastEndpointNamesApp(app, entrances[..|entrances| - 1], group);
    }
  }

  /** What a group's listing must be after a history of calls. */
  ghost predicate Faithful(ops: seq<Op>, group: string, eps: seq<Endpoint>) {
    // exactly the apps registered since their last unregistration
    && (forall a, i :: Since(ops, a, group, i) ==> IndexOfApp(eps, a) < |eps|)
    // each with the endpoint of its latest registration
    && (forall k :: 0 <= k < |eps| ==> CurrentEndpoint(ops, group, eps[k]))
    // once each, in the order of their first registration
    && (forall k, l :: 0 <= k < l < |eps| ==> RegisteredBefore(ops, group, eps[k].appName, eps[l].appName))
  }

  ghost predicate CurrentEndpoint(ops: seq<Op>, group: string, ep: Endpoint) {
    exists i :: LastSince(ops, ep.appName, group, i) && ep == OfferedBy(ops[i].app, group)
  }

  ghost predicate RegisteredBefore(ops: seq<Op>, group: string, a: string, b: string) {
    exists i, j :: FirstSince(ops, a, group, i) && FirstSince(ops, b, group, j) && i < j
  }

  // ---------------------------------------------------------------- one registration seen from one group

  lemma UpsertTwice(eps: seq<Endpoint>, e: Endpoint, f: Endpoint)
    requires e.appName == f.appName
    ensures Upsert(Upsert(eps, e), f) == Upsert(eps, f)
  {
    var i := IndexOfApp(eps, e.appName);
    var once := Upsert(eps, e);
    assert IndexOfApp(once, f.appName) == i by {
      assert once[i].appName == f.appName;
      assert forall j :: 0 <= j < i ==> once[j].appName != f.appName;
    }
    assert Upsert(once, f) == Upsert(eps, f);
  }

  lemma {:induction false} RegisterEntrancesSnoc(r: Registry, app: Application, entrances: seq<SharedEntrance>,
      se: SharedEntrance)
    ensures var r' := RegisterEntrances(r, app, entrances);
      RegisterEntrances(r, app, entrances + [se])
      == if se.name == "" then r' else r'[se.name := Upsert(Listing(r', se.name), EndpointOf(app, se))]
    decreases |entrances|
  {
    var all := entrances + [se];
    if entrances == [] {
      assert all[1..] == [];
    } else {
      assert all[1..] == entrances[1..] + [se];
      var first := entrances[0];
      var r1 := if first.name == "" then r else r[first.name := Upsert(Listing(r, first.name), EndpointOf(app, first))];
      RegisterEntrancesSnoc(r1, app, entrances[1..], se);
    }
  }

  lemma {:induction false} RegisterInGroup(r: Registry, app: Application, entrances: seq<SharedEntrance>, group: string)
    ensures var offered := group != "" && exists se :: se in entrances && se.name == group;
      Listing(RegisterEntrances(r, app, entrances), group)
      == if offered then Upsert(Listing(r, group), LastEndpoint(app, entrances, group)) else Listing(r, group)
    decreases |entrances|
  {
    if entrances != [] {
      var pre, last := entrances[..|entrances| - 1], entrances[|entrances| - 1];
      assert entrances == pre + [last];
      RegisterInGroup(r, app, pre, group);
      RegisterEntrancesSnoc(r, app, pre, last);
      if last.name == group && group != "" {
        if exists se :: se in pre && se.name == group {
          LastEndpointNamesApp(app, pre, group);
          UpsertTwice(Listing(r, group), LastEndpoint(app, pre, group), EndpointOf(app, last));
        }
      } else {
        assert (exists se :: se in entrances && se.name == group) ==>
            (exists se :: se in pre && se.name == group) || group == "";
      }
    }
  }

  lemma RegisterListing(r: Registry, app: Application, group: string)
    ensures Listing(Register(r, app), group)
         == if group in GroupsOf(app) then Upsert(Listing(r, group), OfferedBy(app, group)) else Listing(r, group)
  {
    RegisterInGroup(r, app, app.spec.sharedEntrances, group);
    if group != "" && exists se :: se in app.spec.sharedEntrances && se.name == group {
      var se :| se in app.spec.sharedEntrances && se.name == group;
      assert se.name in GroupsOf(app);
    }
  }

  lemma UnregisterListing(r: Registry, appName: string, group: string)
    ensures Listing(Unregister(r, appName), group) == Without(Listing(r, group), appName)
  {
  }

  // ---------------------------------------------------------------- every history

  predicate NoneEmpty(r: Registry) {
    forall g :: g in r ==> r[g] != []
  }

  lemma {:induction false} RegisterLeavesNoneEmpty(r: Registry, app: Application, entrances: seq<SharedEntrance>)
    requires NoneEmpty(r)
    ensures NoneEmpty(RegisterEntrances(r, app, entrances))
    decreases |entrances|
  {
    if entrances != [] {
      var se := entrances[0];
      var r1 := if se.name == "" then r else r[se.name := Upsert(Listing(r, se.name), EndpointOf(app, se))];
      UpsertNames(Listing(r, se.name), EndpointOf(app, se));
      RegisterLeavesNoneEmpty(r1, app, entrances[1..]);
    }
  }

  /** No group is ever stored empty. */
  lemma {:induction false} NoEmptyGroup(ops: seq<Op>)
    ensures NoneEmpty(After(ops))
  {
    if ops != [] {
      var before := ops[..|ops| - 1];
      NoEmptyGroup(before);
      match ops[|ops| - 1]
      case Registered(app) => RegisterLeavesNoneEmpty(After(before), app, app.spec.sharedEntrances);
      case Unregistered(name) =>
    }
  }

  lemma SinceExtended(ops: seq<Op>, op: Op, a: string, group: string, i: int)
    requires 0 <= i < |ops|
    ensures Since(ops + [op], a, group, i) <==> Since(ops, a, group, i) && op != Unregistered(a)
  {
    var all := ops + [op];
    assert forall j :: 0 <= j < |ops| ==> all[j] == ops[j];
    assert all[|ops|] == op;
  }

  /** A step that neither registers `a` in the group nor unregisters it changes nothing about `a`. */
  lemma OtherStep(ops: seq<Op>, op: Op, a: string, group: string)
    requires op != Unregistered(a)
    requires !(op.Registered? && op.app.spec.name == a && group in GroupsOf(op.app))
    ensures forall i :: Since(ops + [op], a, group, i) <==> Since(ops, a, group, i)
    ensures forall i :: FirstSince(ops, a, group, i) ==> FirstSince(ops + [op], a, group, i)
    ensures forall i :: LastSince(ops, a, group, i) ==> LastSince(ops + [op], a, group, i)
  {
    forall i ensures Since(ops + [op], a, group, i) <==> Since(ops, a, group, i) {
      if 0 <= i < |ops| { SinceExtended(ops, op, a, group, i); }
    }
  }

  /** A step that registers `a` in the group is its latest, and its first if it had none. */
  lemma OwnStep(ops: seq<Op>, app: Application, group: string)
    requires group in GroupsOf(app)
    ensures LastSince(ops + [Registered(app)], app.spec.name, group, |ops|)
    ensures forall i :: FirstSince(ops, app.spec.name, group, i) ==>
              FirstSince(ops + [Registered(app)], app.spec.name, group, i)
    ensures (forall i :: !Since(ops, app.spec.name, group, i)) ==>
              FirstSince(ops + [Registered(app)], app.spec.name, group, |ops|)
  {
    var a, all := app.spec.name, ops + [Registered(app)];
    assert all[|ops|] == Registered(app);
    forall i | 0 <= i < |ops| ensures Since(all, a, group, i) <==> Since(ops, a, group, i) {
      SinceExtended(ops, Registered(app), a, group, i);
    }
  }

  lemma KeptPair(ops: seq<Op>, op: Op, group: string, a: string, b: string)
    requires RegisteredBefore(ops, group, a, b)
    requires op != Unregistered(a) && op != Unregistered(b)
    ensures RegisteredBefore(ops + [op], group, a, b)
  {
    var i, j :| FirstSince(ops, a, group, i) && FirstSince(ops, b, group, j) && i < j;
    KeptFirst(ops, op, group, a, i);
    KeptFirst(ops, op, group, b, j);
  }

  lemma KeptFirst(ops: seq<Op>, op: Op, group: string, a: string, i: int)
    requires FirstSince(ops, a, group, i) && op != Unregistered(a)
    ensures FirstSince(ops + [op], a, group, i)
  {
    if op.Registered? && op.app.spec.name == a && group in GroupsOf(op.app) {
      OwnStep(ops, op.app, group);
    } else {
      OtherStep(ops, op, a, group);
    }
  }

  lemma KeptCurrent(ops: seq<Op>, op: Op, group: string, ep: Endpoint)
    requires CurrentEndpoint(ops, group, ep) && op != Unregistered(ep.appName)
    requires !(op.Registered? && op.app.spec.name == ep.appName && group in GroupsOf(op.app))
    ensures CurrentEndpoint(ops + [op], group, ep)
  {
    var i :| LastSince(ops, ep.appName, group, i) && ep == OfferedBy(ops[i].app, group);
    OtherStep(ops, op, ep.appName, group);
    assert (ops + [op])[i] == ops[i];
  }

  lemma RegisteredIsFirst(ops: seq<Op>, group: string, a: string, b: Application)
    requires exists i :: FirstSince(ops, a, group, i)
    requires group in GroupsOf(b) && b.spec.name != a && forall i :: !Since(ops, b.spec.name, group, i)
    ensures RegisteredBefore(ops + [Registered(b)], group, a, b.spec.name)
  {
    var i :| FirstSince(ops, a, group, i);
    KeptFirst(ops, Registered(b), group, a, i);
    OwnStep(ops, b, group);
  }

  lemma {:induction false} HasFirst(ops: seq<Op>, a: string, group: string, i: int)
    requires Since(ops, a, group, i)
    ensures exists j :: FirstSince(ops, a, group, j)
    decreases i
  {
    if j :| 0 <= j < i && Since(ops, a, group, j) {
      HasFirst(ops, a, group, j);
    } else {
      assert FirstSince(ops, a, group, i);
    }
  }

  lemma NotBeforeItself(ops: seq<Op>, group: string, a: string)
    ensures !RegisteredBefore(ops, group, a, a)
  {
    forall i, j | FirstSince(ops, a, group, i) && FirstSince(ops, a, group, j) ensures i == j {
    }
  }

  lemma AppOnce(ops: seq<Op>, group: string, eps: seq<Endpoint>, k: nat, l: nat)
    requires Faithful(ops, group, eps) && k < |eps| && l < |eps| && eps[k].appName == eps[l].appName
    ensures k == l
  {
    NotBeforeItself(ops, group, eps[k].appName);
  }

  lemma RegisterStepEndpoints(ops: seq<Op>, app: Application, group: string, eps: seq<Endpoint>, k: nat)
    requires Faithful(ops, group, eps) && group in GroupsOf(app) && k < |Upsert(eps, OfferedBy(app, group))|
    ensures CurrentEndpoint(ops + [Registered(app)], group, Upsert(eps, OfferedBy(app, group))[k])
  {
    var op, at := Registered(app), IndexOfApp(eps, app.spec.name);
    if k == at {
      OwnStep(ops, app, group);
      assert (ops + [op])[|ops|] == op;
    } else {
      if eps[k].appName == app.spec.name { AppOnce(ops, group, eps, k, at); }
      KeptCurrent(ops, op, group, eps[k]);
    }
  }

  lemma RegisterStepMembers(ops: seq<Op>, app: Application, group: string, eps: seq<Endpoint>, b: string, i: int)
    requires Faithful(ops, group, eps) && group in GroupsOf(app) && Since(ops + [Registered(app)], b, group, i)
    ensures var eps' := Upsert(eps, OfferedBy(app, group)); IndexOfApp(eps', b) < |eps'|
  {
    var eps' := Upsert(eps, OfferedBy(app, group));
    if b == app.spec.name {
      assert eps'[IndexOfApp(eps, b)].appName == b;
    } else {
      OtherStep(ops, Registered(app), b, group);
      assert IndexOfApp(eps, b) < |eps|;
      assert eps'[IndexOfApp(eps, b)].appName == b;
    }
  }

  lemma UpsertNames(eps: seq<Endpoint>, ep: Endpoint)
    ensures var eps' := Upsert(eps, ep);
      && |eps'| == (if IndexOfApp(eps, ep.appName) < |eps| then |eps| else |eps| + 1)
      && (forall k :: 0 <= k < |eps| ==> eps'[k].appName == eps[k].appName)
      && (|eps'| > |eps| ==> eps'[|eps|] == ep)
  {
  }

  lemma RegisterStepOrder(ops: seq<Op>, app: Application, group: string, eps: seq<Endpoint>, k: nat, l: nat)
    requires Faithful(ops, group, eps) && group in GroupsOf(app) && k < l < |Upsert(eps, OfferedBy(app, group))|
    ensures var eps' := Upsert(eps, OfferedBy(app, group));
      RegisteredBefore(ops + [Registered(app)], group, eps'[k].appName, eps'[l].appName)
  {
    UpsertNames(eps, OfferedBy(app, group));
    if l < |eps| {
      assert RegisteredBefore(ops, group, eps[k].appName, eps[l].appName);
      KeptPair(ops, Registered(app), group, eps[k].appName, eps[l].appName);
    } else {
      NewIsLast(ops, app, group, eps, k);
    }
  }

  /** A first registration comes after those of all the listed apps. */
  lemma NewIsLast(ops: seq<Op>, app: Application, group: string, eps: seq<Endpoint>, k: nat)
    requires Faithful(ops, group, eps) && group in GroupsOf(app) && k < |eps| && IndexOfApp(eps, app.spec.name) == |eps|
    ensures RegisteredBefore(ops + [Registered(app)], group, eps[k].appName, app.spec.name)
  {
    assert CurrentEndpoint(ops, group, eps[k]);
    var i :| LastSince(ops, eps[k].appName, group, i);
    HasFirst(ops, eps[k].appName, group, i);
    RegisteredIsFirst(ops, group, eps[k].appName, app);
  }

  lemma RegisterStepFaithful(ops: seq<Op>, app: Application, group: string, eps: seq<Endpoint>)
    requires Faithful(ops, group, eps) && group in GroupsOf(app)
    ensures Faithful(ops + [Registered(app)], group, Upsert(eps, OfferedBy(app, group)))
  {
    var all, eps' := ops + [Registered(app)], Upsert(eps, OfferedBy(app, group));
    forall k | 0 <= k < |eps'| ensures CurrentEndpoint(all, group, eps'[k]) {
      RegisterStepEndpoints(ops, app, group, eps, k);
    }
    forall b, i | Since(all, b, group, i) ensures IndexOfApp(eps', b) < |eps'| {
      RegisterStepMembers(ops, app, group, eps, b, i);
    }
    forall k, l | 0 <= k < l < |eps'| ensures RegisteredBefore(all, group, eps'[k].appName, eps'[l].appName) {
      RegisterStepOrder(ops, app, group, eps, k, l);
    }
  }

  lemma OtherStepFaithful(ops: seq<Op>, op: Op, group: string, eps: seq<Endpoint>)
    requires Faithful(ops, group, eps) && op.Registered? && group !in GroupsOf(op.app)
    ensures Faithful(ops + [op], group, eps)
  {
    forall k | 0 <= k < |eps| ensures CurrentEndpoint(ops + [op], group, eps[k]) {
      KeptCurrent(ops, op, group, eps[k]);
    }
    forall a, i | Since(ops + [op], a, group, i) ensures IndexOfApp(eps, a) < |eps| { OtherStep(ops, op, a, group); }
    forall k, l | 0 <= k < l < |eps| ensures RegisteredBefore(ops + [op], group, eps[k].appName, eps[l].appName) {
      KeptPair(ops, op, group, eps[k].appName, eps[l].appName);
    }
  }

  /** Where the k-th entry that Without keeps stood before. */
  function KeptAt(eps: seq<Endpoint>, name: string, k: nat): nat
    requires k < |Without(eps, name)|
  {
    if eps[0].appName == name then 1 + KeptAt(eps[1..], name, k)
    else if k == 0 then 0
    else 1 + KeptAt(eps[1..], name, k - 1)
  }

  lemma {:induction false} KeptIsThere(eps: seq<Endpoint>, name: string, k: nat)
    requires k < |Without(eps, name)|
    ensures KeptAt(eps, name, k) < |eps| && eps[KeptAt(eps, name, k)] == Without(eps, name)[k]
            && Without(eps, name)[k].appName != name
  {
    if eps[0].appName == name {
      KeptIsThere(eps[1..], name, k);
    } else if k > 0 {
      KeptIsThere(eps[1..], name, k - 1);
    }
  }

  /** Without keeps the order. */
  lemma {:induction false} KeptInOrder(eps: seq<Endpoint>, name: string, k: nat, l: nat)
    requires k < l < |Without(eps, name)|
    ensures KeptAt(eps, name, k) < KeptAt(eps, name, l)
  {
    if eps[0].appName == name {
      KeptInOrder(eps[1..], name, k, l);
    } else if k > 0 {
      KeptInOrder(eps[1..], name, k - 1, l - 1);
    }
  }

  /** And it loses nobody else. */
  lemma {:induction false} WithoutKeeps(eps: seq<Endpoint>, name: string, i: nat)
    requires i < |eps| && eps[i].appName != name
    ensures eps[i] in Without(eps, name)
  {
    if i > 0 {
      WithoutKeeps(eps[1..], name, i - 1);
      assert eps[1..][i - 1] == eps[i];
    }
  }

  lemma UnregisterStepFaithful(ops: seq<Op>, name: string, group: string, eps: seq<Endpoint>)
    requires Faithful(ops, group, eps)
    ensures Faithful(ops + [Unregistered(name)], group, Without(eps, name))
  {
    var op, eps' := Unregistered(name), Without(eps, name);
    var all := ops + [op];
    assert all[|ops|] == op;
    forall k | 0 <= k < |eps'| ensures CurrentEndpoint(all, group, eps'[k]) {
      KeptIsThere(eps, name, k);
      KeptCurrent(ops, op, group, eps[KeptAt(eps, name, k)]);
    }
    forall a, i | Since(all, a, group, i) ensures IndexOfApp(eps', a) < |eps'| {
      if a != name {
        OtherStep(ops, op, a, group);
        WithoutKeeps(eps, name, IndexOfApp(eps, a));
      }
    }
    forall k, l | 0 <= k < l < |eps'| ensures RegisteredBefore(all, group, eps'[k].appName, eps'[l].appName) {
      KeptIsThere(eps, name, k);
      KeptIsThere(eps, name, l);
      KeptInOrder(eps, name, k, l);
      KeptPair(ops, op, group, eps[KeptAt(eps, name, k)].appName, eps[KeptAt(eps, name, l)].appName);
    }
  }

  // ---------------------------------------------------------------- the address of a listed endpoint

  /** Entrance `i` is the last one with this name. */
  predicate LastNamed(entrances: seq<SharedEntrance>, group: string, i: int) {
    0 <= i < |entrances| && entrances[i].name == group && forall j :: i < j < |entrances| ==> entrances[j].name != group
  }

  /** The service named by the entrance, else by the app, in the namespace of the app's deployments. */
  predicate AddressOf(app: Application, se: SharedEntrance, ep: Endpoint) {
    var namespace := if app.spec.namespace != "" then app.spec.namespace else app.namespace;
    && ep.host == (if se.host != "" then se.host else app.spec.name) + "." + namespace + ".svc.cluster.local"
    && ep.port == se.port && ep.title == se.title && ep.appName == app.spec.name && ep.namespace == namespace
  }

  lemma {:induction false} LastNamedDecides(app: Application, entrances: seq<SharedEntrance>, group: string)
      returns (i: int)
    requires exists se :: se in entrances && se.name == group
    ensures LastNamed(entrances, group, i) && LastEndpoint(app, entrances, group) == EndpointOf(app, entrances[i])
  {
    i := |entrances| - 1;
    if entrances[i].name != group { i := LastNamedDecides(app, entrances[..i], group); }
  }

  lemma EndpointAddress(app: Application, se: SharedEntrance)
    ensures AddressOf(app, se, EndpointOf(app, se))
  {
  }

  /** The endpoint is the address of the last entrance for the group in the latest registration. */
  ghost predicate ListedAddress(ops: seq<Op>, group: string, ep: Endpoint) {
    exists i, k :: LastSince(ops, ep.appName, group, i) && LastNamed(ops[i].app.spec.sharedEntrances, group, k)
                   && AddressOf(ops[i].app, ops[i].app.spec.sharedEntrances[k], ep)
  }

  lemma CurrentIsListed(ops: seq<Op>, group: string, ep: Endpoint)
    requires CurrentEndpoint(ops, group, ep)
    ensures ListedAddress(ops, group, ep)
  {
    var i :| LastSince(ops, ep.appName, group, i) && ep == OfferedBy(ops[i].app, group);
    var k := LastNamedDecides(ops[i].app, ops[i].app.spec.sharedEntrances, group);
    EndpointAddress(ops[i].app, ops[i].app.spec.sharedEntrances[k]);
  }

  /** After every history of calls every group lists what it should. */
  lemma ListingsFaithful(ops: seq<Op>, group: string)
    ensures Faithful(ops, group, Listing(After(ops), group))
    ensures forall ep :: ep in Listing(After(ops), group) ==> ListedAddress(ops, group, ep)
  {
    HistoryFaithful(ops, group);
    forall ep | ep in Listing(After(ops), group) ensures ListedAddress(ops, group, ep) {
      CurrentIsListed(ops, group, ep);
    }
  }

  lemma {:induction false} HistoryFaithful(ops: seq<Op>, group: string)
    ensures Faithful(ops, group, Listing(After(ops), group))
  {
    if ops != [] {
      var before, op := ops[..|ops| - 1], ops[|ops| - 1];
      assert ops == before + [op];
      HistoryFaithful(before, group);
      match op
      case Registered(app) =>
        RegisterListing(After(before), app, group);
        if group in GroupsOf(app) {
          RegisterStepFaithful(before, app, group, Listing(After(before), group));
        } else {
          OtherStepFaithful(before, op, group, Listing(After(before), group));
        }
      case Unregistered(name) =>
        UnregisterListing(After(before), name, group);
        UnregisterStepFaithful(before, name, group, Listing(After(before), group));
    }
  }
}
