/**
 * Keeping consumers' environment variables in step with the provider registry
 * (internal/systemserver/reconciler.go and the event handlers of server.go).
 */
module EnvVars {
  import opened Wrappers
  import opened Text
  import opened Applications
  import opened RegistrySpec

  datatype EnvVar = EnvVar(name: string, value: string)
  type Env = seq<EnvVar>

  /** The position of the last entry with this name: the one that takes effect. */
  function LastIndexOf(env: Env, name: string): (i: int)
    ensures -1 <= i < |env|
    ensures i >= 0 ==> env[i].name == name
    ensures forall j :: i < j < |env| ==> env[j].name != name
  {
    if env == [] then -1
    else if env[|env| - 1].name == name then |env| - 1
    else LastIndexOf(env[..|env| - 1], name)
  }

  predicate Has(env: Env, name: string) {
    exists i :: 0 <= i < |env| && env[i].name == name
  }

  function Effective(env: Env, name: string): Option<string> {
    var i := LastIndexOf(env, name);
    if i < 0 then None else Some(env[i].value)
  }

  function Rewritten(before: Env, vars: map<string, string>, i: nat): EnvVar
    requires i < |before|
  {
    var name := before[i].name;
    if name in vars && i == LastIndexOf(before, name) then EnvVar(name, vars[name]) else before[i]
  }

  /** Exactly the entries that take effect are overwritten, and the missing variables are appended once each. */
  ghost predicate Merged(before: Env, vars: map<string, string>, after: Env) {
    && |before| <= |after|
    && (forall i :: 0 <= i < |before| ==> after[i] == Rewritten(before, vars, i))
    && (forall i :: |before| <= i < |after| ==> Appended(before, vars, after[i]))
    && (forall i, j :: |before| <= i < j < |after| ==> after[i].name != after[j].name)
    && (forall n :: n in vars ==> Has(after, n))
  }

  ghost predicate Appended(before: Env, vars: map<string, string>, e: EnvVar) {
    e.name in vars && e.value == vars[e.name] && !Has(before, e.name)
  }

  /** The variables have the wanted values, and every other one the value it had. */
  ghost predicate Settled(before: Env, after: Env, vars: map<string, string>) {
    forall n :: Effective(after, n) == if n in vars then Some(vars[n]) else Effective(before, n)
  }

  lemma MergedSettles(before: Env, vars: map<string, string>, after: Env)
    requires Merged(before, vars, after)
    ensures Settled(before, after, vars)
  {
    assert forall j :: 0 <= j < |before| ==> after[j].name == before[j].name;
    forall n ensures Effective(after, n) == if n in vars then Some(vars[n]) else Effective(before, n) {
      var i := LastIndexOf(before, n);
      var k := LastIndexOf(after, n);
      if k >= |before| {
        assert Appended(before, vars, after[k]);
      } else if i >= 0 {
        assert after[i].name == n;
        assert k == i;
      }
    }
  }

  /** One more variable in the way the loop of mergeEnvVars adds it: overwrite the entry that takes effect. */
  lemma MergeOverwrite(before: Env, vars: map<string, string>, env: Env, name: string, value: string)
    requires Merged(before, vars, env) && name !in vars && LastIndexOf(before, name) >= 0
    ensures Merged(before, vars[name := value], env[LastIndexOf(before, name) := EnvVar(name, value)])
  {
    var i := LastIndexOf(before, name);
    var after, more := env[i := EnvVar(name, value)], vars[name := value];
    forall j | 0 <= j < |before| ensures after[j] == Rewritten(before, more, j) {
      assert env[j] == Rewritten(before, vars, j);
    }
    forall j | |before| <= j < |after| ensures Appended(before, more, after[j]) {
      assert Appended(before, vars, env[j]);
    }
    assert env[i].name == name;
    assert forall j :: 0 <= j < |env| ==> after[j].name == env[j].name;
    forall n | n in more ensures Has(after, n) {
      if n == name { assert after[i].name == n; } else { assert Has(env, n); }
    }
  }

  /** Or append it. */
  lemma MergeAppend(before: Env, vars: map<string, string>, env: Env, name: string, value: string)
    requires Merged(before, vars, env) && name !in vars && LastIndexOf(before, name) < 0
    ensures Merged(before, vars[name := value], env + [EnvVar(name, value)])
  {
    var after, more := env + [EnvVar(name, value)], vars[name := value];
    forall j | 0 <= j < |before| ensures after[j] == Rewritten(before, more, j) {
      assert before[j].name != name && env[j] == Rewritten(before, vars, j);
    }
    forall j | |before| <= j < |env| ensures env[j].name != name && Appended(before, more, after[j]) {
      assert Appended(before, vars, env[j]);
    }
    assert after[|env|].name == name;
    forall n | n in more ensures Has(after, n) {
      if n != name {
        var j :| 0 <= j < |env| && env[j].name == n;
        assert after[j].name == n;
      }
    }
  }

  class Container {
    var env: Env

    constructor (env: Env)
      ensures this.env == env
    {
      this.env := env;
    }
  }

  /** The positions of the entries that take effect. */
  method IndexEnv(env: Env) returns (existingIdx: map<string, nat>)
    ensures forall n :: LastIndexOf(env, n) == if n in existingIdx then existingIdx[n] else -1
  {
    existingIdx := map[];
    for i := 0 to |env|
      invariant forall n :: LastIndexOf(env[..i], n) == if n in existingIdx then existingIdx[n] else -1
    {
      TakeSucc(env, i);
      assert env[..i + 1][..i] == env[..i];
      existingIdx := existingIdx[env[i].name := i];
    }
    assert env[..|env|] == env;
  }

  /** Add or update the variables in one container, in any order. */
  method MergeEnvVars(container: Container, vars: map<string, string>) returns (changed: bool)
    modifies container
    ensures Merged(old(container.env), vars, container.env)
    ensures changed <==> container.env != old(container.env)
  {
    var before := container.env;
    var existingIdx := IndexEnv(before);
    changed := false;
    var todo := vars.Keys;
    ghost var done: map<string, string> := map[];
    while todo != {}
      invariant todo <= vars.Keys && done.Keys == vars.Keys - todo && (forall n :: n in done ==> done[n] == vars[n])
      invariant Merged(before, done, container.env)
      invariant changed <==> container.env != before
      decreases todo
    {
      var name :| name in todo;
      todo := todo - {name};
      var env, set_ := SetVar(container.env, existingIdx, name, vars[name], before, done);
      container.env := env;
      changed := changed || set_;
      done := done[name := vars[name]];
    }
    assert done == vars;
  }

  /** The body of the loop of mergeEnvVars. */
  method SetVar(env: Env, existingIdx: map<string, nat>, name: string, value: string, ghost before: Env,
      ghost done: map<string, string>)
    returns (env': Env, changed: bool)
    requires Merged(before, done, env) && name !in done
    requires LastIndexOf(before, name) == if name in existingIdx then existingIdx[name] else -1
    ensures Merged(before, done[name := value], env')
    ensures if changed then env' != before else env' == env
  {
    if name in existingIdx {
      var idx := existingIdx[name];
      MergeOverwrite(before, done, env, name, value);
      assert env[idx] == Rewritten(before, done, idx) == before[idx];
      env' := env[idx := EnvVar(name, value)];
      changed := env[idx].value != value;
      assert changed ==> env'[idx] != before[idx];
    } else {
      MergeAppend(before, done, env, name, value);
      env', changed := env + [EnvVar(name, value)], true;
    }
  }

  /** Merge into every container of a deployment. */
  method UpdateDeploymentEnv(deploy: seq<Container>, vars: map<string, string>) returns (changed: bool)
    requires forall i, j :: 0 <= i < j < |deploy| ==> deploy[i] != deploy[j]
    modifies set c | c in deploy
    ensures forall i :: 0 <= i < |deploy| ==> Merged(old(deploy[i].env), vars, deploy[i].env)
    ensures !changed ==> forall i :: 0 <= i < |deploy| ==> deploy[i].env == old(deploy[i].env)
  {
    changed := false;
    for ci := 0 to |deploy|
      invariant forall i :: 0 <= i < ci ==> Merged(old(deploy[i].env), vars, deploy[i].env)
      invariant forall i :: ci <= i < |deploy| ==> deploy[i].env == old(deploy[i].env)
      invariant !changed ==> forall i :: 0 <= i < |deploy| ==> deploy[i].env == old(deploy[i].env)
    {
      var merged := MergeEnvVars(deploy[ci], vars);
      changed := merged || changed;
    }
  }

  // ---------------------------------------------------------------- what a consumer needs

  function LastDot(s: string): (i: int)
    ensures -1 <= i < |s|
  {
    if s == [] then -1 else if s[|s| - 1] == '.' then |s| - 1 else LastDot(s[..|s| - 1])
  }

  function EnvNameChar(c: char): char {
    if c == '-' || c == '.' then '_' else UpperChar(c)
  }

  /** The group without its prefix up to the last dot. */
  function LastName(group: string): string {
    group[LastDot(group) + 1..]
  }

  function EnvName(name: string): string {
    seq(|name|, i requires 0 <= i < |name| => EnvNameChar(name[i]))
  }

  /** "api.ollama" becomes "OLLAMA_BASE_URLS". */
  function GroupToEnvVarName(group: string): string {
    EnvName(LastName(group)) + "_BASE_URLS"
  }

  function Itoa(n: int): string {
    if n < 0 then "-" + Decimal(-n) else Decimal(n)
  }

  function Url(host: string, port: int): string {
    "http://" + host + ":" + Itoa(port)
  }

  function Urls(eps: seq<Endpoint>): seq<string> {
    seq(|eps|, i requires 0 <= i < |eps| => Url(eps[i].host, eps[i].port))
  }

  function UrlList(eps: seq<Endpoint>): string {
    Join(Urls(eps), ",")
  }

  /** What one sysData entry asks for: the registered providers, else its own static service, else nothing. */
  function SysDataVar(r: Registry, consumer: Application, sd: SysDataEntry): Option<string> {
    if sd.group == "" then None
    else if Listing(r, sd.group) != [] then Some(UrlList(Listing(r, sd.group)))
    else if sd.svc != "" && sd.port > 0 then
      var namespace := if sd.appName != "" then consumer.spec.namespace else AppNamespace(consumer);
      Some(Url(ServiceHost(sd.svc, namespace), sd.port))
    else None
  }

  function SysDataVars(r: Registry, consumer: Application, sysData: seq<SysDataEntry>): map<string, string> {
    if sysData == [] then map[]
    else
      var last := sysData[|sysData| - 1];
      var vars := SysDataVars(r, consumer, sysData[..|sysData| - 1]);
      var v := SysDataVar(r, consumer, last);
      if v.None? then vars else vars[GroupToEnvVarName(last.group) := v.value]
  }

  function WithProviderVar(r: Registry, vars: map<string, string>, name: string): map<string, string> {
    if name == "" || Listing(r, name) == [] then vars else vars[GroupToEnvVarName(name) := UrlList(Listing(r, name))]
  }

  function ProviderVars(r: Registry, vars: map<string, string>, entries: seq<ProviderEntry>): map<string, string> {
    if entries == [] then vars
    else WithProviderVar(r, ProviderVars(r, vars, entries[..|entries| - 1]), entries[|entries| - 1].providerName)
  }

  function SysData(app: Application): seq<SysDataEntry> {
    if app.spec.permission.None? then [] else app.spec.permission.value.sysData
  }

  /** The variables Reconcile sets for a consumer. */
  function WantedVars(r: Registry, consumer: Application): map<string, string> {
    if SysData(consumer) == [] then map[]
    else ProviderVars(r, SysDataVars(r, consumer, SysData(consumer)), consumer.spec.permission.value.provider)
  }

  method BuildProviderEnvVars(r: Registry, consumer: Application) returns (envVars: map<string, string>)
    requires SysData(consumer) != []
    ensures envVars == WantedVars(r, consumer)
  {
    envVars := AddSysDataVars(r, consumer, SysData(consumer));
    envVars := AddProviderVars(r, envVars, consumer.spec.permission.value.provider);
  }

  method AddSysDataVars(r: Registry, consumer: Application, sysData: seq<SysDataEntry>)
      returns (envVars: map<string, string>)
    ensures envVars == SysDataVars(r, consumer, sysData)
  {
    envVars := map[];
    for i := 0 to |sysData|
      invariant envVars == SysDataVars(r, consumer, sysData[..i])
    {
      assert sysData[..i + 1][..i] == sysData[..i];
      var sd := sysData[i];
      if sd.group == "" { continue; }
      var providers := Listing(r, sd.group);
      if |providers| == 0 {
        if sd.svc != "" && sd.port > 0 {
          var ns := AppNamespace(consumer);
          if sd.appName != "" { ns := consumer.spec.namespace; }
          envVars := envVars[GroupToEnvVarName(sd.group) := Url(ServiceHost(sd.svc, ns), sd.port)];
        }
        continue;
      }
      envVars := envVars[GroupToEnvVarName(sd.group) := UrlList(providers)];
    }
    assert sysData[..|sysData|] == sysData;
  }

  method AddProviderVars(r: Registry, vars: map<string, string>, entries: seq<ProviderEntry>)
      returns (envVars: map<string, string>)
    ensures envVars == ProviderVars(r, vars, entries)
  {
    envVars := vars;
    for i := 0 to |entries|
      invariant envVars == ProviderVars(r, vars, entries[..i])
    {
      assert entries[..i + 1][..i] == entries[..i];
      envVars := AddProviderVar(r, envVars, entries[i].providerName);
    }
    assert entries[..|entries|] == entries;
  }

  method AddProviderVar(r: Registry, vars: map<string, string>, name: string) returns (envVars: map<string, string>)
    ensures envVars == WithProviderVar(r, vars, name)
  {
    envVars := vars;
    if name == "" { return; }
    var providers := Listing(r, name);
    if |providers| == 0 { return; }
    envVars := envVars[GroupToEnvVarName(name) := UrlList(providers)];
  }

  // ---------------------------------------------------------------- what the variables mean

  predicate Wants(app: Application, group: string) {
    group != "" && exists sd :: sd in SysData(app) && sd.group == group
  }

  function ProviderEntries(app: Application): seq<ProviderEntry> {
    if app.spec.permission.None? then [] else app.spec.permission.value.provider
  }

  /** A consumer whose groups, and whose permission.provider entries with them, derive distinct variable names. */
  ghost predicate Eligible(app: Application) {
    && (forall sd, pe :: sd in SysData(app) && pe in ProviderEntries(app) ==> NoClash(sd.group, pe.providerName))
    && (forall sd, sd' :: sd in SysData(app) && sd' in SysData(app) ==> NoClash(sd.group, sd'.group))
  }

  predicate NoClash(g: string, h: string) {
    g != "" && h != "" && GroupToEnvVarName(g) == GroupToEnvVarName(h) ==> g == h
  }

  /** In this container the variable of each wanted group with a provider lists exactly the registered endpoints. */
  ghost predicate InStep(r: Registry, app: Application, env: Env) {
    forall g :: Wants(app, g) && Listing(r, g) != [] ==>
        Effective(env, GroupToEnvVarName(g)) == Some(UrlList(Listing(r, g)))
  }

  /** An entry sets at most its own variable. */
  lemma OtherVarKept(r: Registry, app: Application, before: seq<SysDataEntry>, last: SysDataEntry, v: string)
    requires last.group == "" || GroupToEnvVarName(last.group) != v
    ensures var vars, vars' := SysDataVars(r, app, before), SysDataVars(r, app, before + [last]);
      (v in vars' <==> v in vars) && (v in vars ==> vars'[v] == vars[v])
  {
    assert (before + [last])[..|before|] == before;
  }

  lemma OwnVarSet(r: Registry, app: Application, before: seq<SysDataEntry>, last: SysDataEntry)
    requires last.group != "" && Listing(r, last.group) != []
    ensures var vars, v := SysDataVars(r, app, before + [last]), GroupToEnvVarName(last.group);
      v in vars && vars[v] == UrlList(Listing(r, last.group))
  {
    assert (before + [last])[..|before|] == before;
  }

  lemma {:induction false} SysDataVarsHold(r: Registry, app: Application, sysData: seq<SysDataEntry>, g: string)
    requires Eligible(app) && forall sd :: sd in sysData ==> sd in SysData(app)
    requires g != "" && Listing(r, g) != [] && exists sd :: sd in sysData && sd.group == g
    ensures var vars := SysDataVars(r, app, sysData);
      GroupToEnvVarName(g) in vars && vars[GroupToEnvVarName(g)] == UrlList(Listing(r, g))
    decreases |sysData|
  {
    var last, before := sysData[|sysData| - 1], sysData[..|sysData| - 1];
    assert sysData == before + [last];
    if last.group == g {
      OwnVarSet(r, app, before, last);
    } else {
      var sd :| sd in sysData && sd.group == g;
      assert sd in before;
      SysDataVarsHold(r, app, before, g);
      assert NoClash(last.group, sd.group);
      OtherVarKept(r, app, before, last, GroupToEnvVarName(g));
    }
  }

  /** A later entry of another group leaves the variable alone, one of the same group writes the same list. */
  lemma {:induction false} ProviderVarsHold(r: Registry, vars: map<string, string>, entries: seq<ProviderEntry>,
      g: string)
    requires forall pe :: pe in entries ==> NoClash(g, pe.providerName)
    requires g != "" && GroupToEnvVarName(g) in vars && vars[GroupToEnvVarName(g)] == UrlList(Listing(r, g))
    ensures var all := ProviderVars(r, vars, entries);
      GroupToEnvVarName(g) in all && all[GroupToEnvVarName(g)] == UrlList(Listing(r, g))
    decreases |entries|
  {
    if entries != [] {
      ProviderVarsHold(r, vars, entries[..|entries| - 1], g);
      assert NoClash(g, entries[|entries| - 1].providerName);
    }
  }

  lemma SettledInStep(r: Registry, app: Application, before: Env, after: Env)
    requires Eligible(app) && Settled(before, after, WantedVars(r, app))
    ensures InStep(r, app, after)
  {
    forall g | Wants(app, g) && Listing(r, g) != []
      ensures Effective(after, GroupToEnvVarName(g)) == Some(UrlList(Listing(r, g)))
    {
      SysDataVarsHold(r, app, SysData(app), g);
      assert forall pe :: pe in ProviderEntries(app) ==> NoClash(g, pe.providerName);
      ProviderVarsHold(r, SysDataVars(r, app, SysData(app)), ProviderEntries(app), g);
    }
  }

  // ---------------------------------------------------------------- how the variables are spelled

  /** The group is this name, alone or behind a dot. */
  ghost predicate LastPart(group: string, name: string) {
    '.' !in name && (group == name || exists prefix: string :: group == prefix + "." + name)
  }

  /** '_' for '-', the capital for a small letter, anything else as it is. */
  predicate SpelledFor(v: char, c: char) {
    && (c == '-' ==> v == '_')
    && ('a' <= c <= 'z' ==> v as int - 'A' as int == c as int - 'a' as int)
    && (c != '-' && !('a' <= c <= 'z') ==> v == c)
  }

  ghost predicate Spells(variable: string, name: string) {
    && |variable| == |name| + 10 && variable[|name|..] == "_BASE_URLS"
    && forall i :: 0 <= i < |name| ==> SpelledFor(variable[i], name[i])
  }

  lemma {:induction false} NoDot(s: string)
    requires '.' !in s
    ensures LastDot(s) == -1
  {
    if s != "" { NoDot(s[..|s| - 1]); }
  }

  lemma {:induction false} DotBehind(prefix: string, name: string)
    requires '.' !in name
    ensures LastDot(prefix + "." + name) == |prefix|
  {
    var s := prefix + "." + name;
    if name != "" {
      assert s[..|s| - 1] == prefix + "." + name[..|name| - 1];
      DotBehind(prefix, name[..|name| - 1]);
    }
  }

  lemma PartBehindDot(group: string, name: string)
    requires LastPart(group, name)
    ensures LastName(group) == name
  {
    if group == name {
      NoDot(name);
    } else {
      var prefix: string :| group == prefix + "." + name;
      DotBehind(prefix, name);
    }
  }

  lemma DotlessSpelled(name: string)
    requires '.' !in name
    ensures Spells(EnvName(name) + "_BASE_URLS", name)
  {
    EnvNameSpelled(name);
    SuffixSpelled(EnvName(name), name);
  }

  lemma EnvNameSpelled(name: string)
    requires '.' !in name
    ensures |EnvName(name)| == |name| && forall i :: 0 <= i < |name| ==> SpelledFor(EnvName(name)[i], name[i])
  {
    forall i | 0 <= i < |name| ensures SpelledFor(EnvNameChar(name[i]), name[i]) {
      assert name[i] in name;
    }
  }

  lemma SuffixSpelled(v: string, name: string)
    requires |v| == |name| && forall i :: 0 <= i < |name| ==> SpelledFor(v[i], name[i])
    ensures Spells(v + "_BASE_URLS", name)
  {
    assert (v + "_BASE_URLS")[|name|..] == "_BASE_URLS";
  }

  /** The variable spells the part of the group behind its last dot, so a prefix makes no difference. */
  lemma VariableSpelled(group: string, name: string)
    requires LastPart(group, name)
    ensures Spells(GroupToEnvVarName(group), name) && GroupToEnvVarName(group) == GroupToEnvVarName(name)
  {
    PartBehindDot(group, name);
    PartBehindDot(name, name);
    DotlessSpelled(name);
  }

  lemma SpelledOnce(v: string, v': string, name: string)
    requires Spells(v, name) && Spells(v', name)
    ensures v == v'
  {
    forall i | 0 <= i < |v| ensures v[i] == v'[i] {
      if i < |name| {
        assert SpelledFor(v[i], name[i]) && SpelledFor(v'[i], name[i]);
      } else {
        assert v[i] == v[|name|..][i - |name|] && v'[i] == v'[|name|..][i - |name|];
      }
    }
    assert v == v[..|v|] && v' == v'[..|v'|];
  }

  /** Every group has one. */
  lemma LastPartExists(group: string) returns (name: string)
    ensures LastPart(group, name)
  {
    NothingBehindLastDot(group);
    name := LastName(group);
    if LastDot(group) >= 0 { assert group == group[..LastDot(group)] + "." + name; }
  }

  lemma {:induction false} NothingBehindLastDot(s: string)
    ensures '.' !in s[LastDot(s) + 1..]
    ensures LastDot(s) >= 0 ==> s[LastDot(s)] == '.'
  {
    if s != "" && s[|s| - 1] != '.' {
      NothingBehindLastDot(s[..|s| - 1]);
      assert s[LastDot(s) + 1..] == s[..|s| - 1][LastDot(s) + 1..] + [s[|s| - 1]];
    }
  }

  /** The addresses of the endpoints as text, in their order. */
  function AddressText(eps: seq<Endpoint>): string {
    if eps == [] then ""
    else
      var port := if eps[0].port < 0 then "-" + Decimal(-eps[0].port) else Decimal(eps[0].port);
      "http://" + eps[0].host + ":" + port + if |eps| == 1 then "" else "," + AddressText(eps[1..])
  }

  lemma {:induction false} UrlListText(eps: seq<Endpoint>)
    ensures UrlList(eps) == AddressText(eps)
  {
    if |eps| > 1 {
      UrlListText(eps[1..]);
      assert Urls(eps)[1..] == Urls(eps[1..]);
      TextBehind(Urls(eps)[0], Join(Urls(eps[1..]), ","));
    }
  }

  lemma TextBehind(first: string, others: string)
    ensures first + "," + others == first + ("," + others)
  {
  }

  /** The container has the current addresses of each wanted group, under the name the app looks for. */
  ghost predicate SeesProviders(r: Registry, app: Application, env: Env) {
    forall g, name, v :: Wants(app, g) && Listing(r, g) != [] && LastPart(g, name) && Spells(v, name) ==>
        Effective(env, v) == Some(AddressText(Listing(r, g)))
  }

  lemma InStepSees(r: Registry, app: Application, env: Env)
    requires InStep(r, app, env)
    ensures SeesProviders(r, app, env)
  {
    forall g, name, v | Wants(app, g) && Listing(r, g) != [] && LastPart(g, name) && Spells(v, name)
      ensures Effective(env, v) == Some(AddressText(Listing(r, g)))
    {
      VariableSpelled(g, name);
      SpelledOnce(v, GroupToEnvVarName(g), name);
      UrlListText(Listing(r, g));
    }
  }

  /** What a sysData entry asks for, with and without registered providers. */
  lemma WantedText(r: Registry, app: Application, sd: SysDataEntry)
    requires sd.group != ""
    ensures Listing(r, sd.group) != [] ==> SysDataVar(r, app, sd) == Some(AddressText(Listing(r, sd.group)))
    ensures Listing(r, sd.group) == [] && (sd.svc == "" || sd.port <= 0) ==> SysDataVar(r, app, sd) == None
    ensures Listing(r, sd.group) == [] && sd.svc != "" && sd.port > 0 ==>
              SysDataVar(r, app, sd) == Some(ServiceText(app, sd))
  {
    UrlListText(Listing(r, sd.group));
  }

  /** The address of the entry's own service: in the app's stated namespace if the entry names an app. */
  function ServiceText(app: Application, sd: SysDataEntry): string
    requires sd.port > 0
  {
    var namespace :=
      if sd.appName != "" || app.spec.namespace != "" then app.spec.namespace else app.namespace;
    "http://" + (sd.svc + "." + namespace + ".svc.cluster.local") + ":" + Decimal(sd.port)
  }
}
