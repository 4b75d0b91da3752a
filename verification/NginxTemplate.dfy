/**
 * The nginx configuration (pkg/nginx/builder.go): `Build` runs one ReplaceAll per
 * placeholder in an order Go leaves open. With parameters free of "{" the result is the
 * simultaneous substitution of all placeholders, whatever the order.
 */
module NginxTemplate {
  import opened Text
  import opened Substitution

  // ---------------------------------------------------------------- the values

  datatype Params = Params(zone: string, serverIP: string, vpnIP: string, customDomain: string,
                           frameworkNS: string, userNS: string, resolver: string)

  /** A value that brings no "{{" into the text it is pasted into. */
  predicate Inert(v: string) {
    && (forall i :: 0 <= i < |v| - 1 ==> !(v[i] == '{' && v[i + 1] == '{'))
    && (v != [] ==> v[|v| - 1] != '{')
  }

  predicate BraceFree(p: Params) {
    '{' !in p.zone && '{' !in p.serverIP && '{' !in p.vpnIP && '{' !in p.customDomain
    && '{' !in p.frameworkNS && '{' !in p.userNS && '{' !in p.resolver
  }

  function Domains(p: Params): seq<string> {
    [p.zone] + if p.customDomain != "" then [p.customDomain] else []
  }

  function IPNames(p: Params): seq<string> {
    var names := (if p.serverIP != "" then [p.serverIP] else []) + (if p.vpnIP != "" then [p.vpnIP] else []);
    if names == [] then ["_"] else names
  }

  function Prefixed(prefix: string, domains: seq<string>): seq<string> {
    seq(|domains|, i requires 0 <= i < |domains| => prefix + domains[i])
  }

  function SysAppNames(domains: seq<string>): seq<string> {
    if domains == [] then []
    else
      var d := domains[0];
      ["market." + d, "settings." + d, "files." + d, "dashboard." + d] + SysAppNames(domains[1..])
  }

  function EscDots(s: string): string {
    ReplaceAll(s, ".", "\\.")
  }

  function ExactOrigin(host: string): string {
    "\"https://" + host + "\" $http_origin;"
  }

  function SubdomainOrigin(host: string): string {
    "~^https://[a-zA-Z0-9\\-]+\\." + EscDots(host) + "$ $http_origin;"
  }

  function CORSLines(p: Params): seq<string> {
    [ExactOrigin(p.zone), SubdomainOrigin(p.zone)]
    + (if p.serverIP != "" then [ExactOrigin(p.serverIP)] else [])
    + (if p.vpnIP != "" then [ExactOrigin(p.vpnIP)] else [])
    + (if p.customDomain != "" then [ExactOrigin(p.customDomain), SubdomainOrigin(p.customDomain)] else [])
  }

  /** One `map` block: the text up to its opening brace, and the text after it. */
  function MapHead(service: string): string {
    "  map $host $" + service + "_domain "
  }

  function MapBody(service: string, p: Params): string {
    Join(["",
          "    default                      " + service + "." + p.zone + ";",
          "    ~\\." + EscDots(p.customDomain) + "$                       " + service + "." + p.customDomain + ";",
          "    " + p.customDomain + "                           " + service + "." + p.customDomain + ";",
          "  }"], "\n")
  }

  function RedirectMaps(p: Params): string {
    if p.customDomain == "" then ""
    else MapHead("auth") + "{" + MapBody("auth", p) + "\n" + MapHead("desktop") + "{" + MapBody("desktop", p)
  }

  /** The placeholders `Build` knows. */
  datatype Slot =
    | Zone | NamesIP | NamesZone | NamesAPI | NamesDesktop | NamesAuth | NamesSysApps | NamesWildcard
    | CORSEntries | RedirectMapsSlot | AuthRedirect | DesktopRedirect | FrameworkNamespace | UserNamespace | Resolver

  function NameOf(slot: Slot): string {
    match slot
    case Zone => "ZONE"
    case NamesIP => "SERVER_NAMES_IP"
    case NamesZone => "SERVER_NAMES_ZONE"
    case NamesAPI => "SERVER_NAMES_API"
    case NamesDesktop => "SERVER_NAMES_DESKTOP"
    case NamesAuth => "SERVER_NAMES_AUTH"
    case NamesSysApps => "SERVER_NAMES_SYSAPPS"
    case NamesWildcard => "SERVER_NAMES_WILDCARD"
    case CORSEntries => "CORS_ENTRIES"
    case RedirectMapsSlot => "REDIRECT_MAPS"
    case AuthRedirect => "AUTH_REDIRECT"
    case DesktopRedirect => "DESKTOP_REDIRECT"
    case FrameworkNamespace => "FRAMEWORK_NAMESPACE"
    case UserNamespace => "USER_NAMESPACE"
    case Resolver => "RESOLVER"
  }

  predicate IsHostList(slot: Slot) {
    slot in {NamesIP, NamesZone, NamesAPI, NamesDesktop, NamesAuth, NamesSysApps, NamesWildcard}
  }

  predicate PlainName(name: string) {
    '{' !in name && '}' !in name
  }

  lemma HostListPlain(slot: Slot)
    requires IsHostList(slot)
    ensures PlainName(NameOf(slot))
  {
  }

  predicate IsMapOrRedirect(slot: Slot) {
    slot in {CORSEntries, RedirectMapsSlot, AuthRedirect, DesktopRedirect}
  }

  lemma MapOrRedirectPlain(slot: Slot)
    requires IsMapOrRedirect(slot)
    ensures PlainName(NameOf(slot))
  {
  }

  lemma SingleValuePlain(slot: Slot)
    requires !IsHostList(slot) && !IsMapOrRedirect(slot)
    ensures PlainName(NameOf(slot))
  {
  }

  function Placeholder(name: string): string {
    OPEN + name + "}}"
  }

  lemma SlotIsPlaceholder(slot: Slot)
    ensures IsPlaceholder(Placeholder(NameOf(slot)))
  {
    if IsHostList(slot) {
      HostListPlain(slot);
    } else if IsMapOrRedirect(slot) {
      MapOrRedirectPlain(slot);
    } else {
      SingleValuePlain(slot);
    }
    BracedIsPlaceholder(NameOf(slot));
  }

  /** Length, first and fourteenth character tell the names apart. */
  function CodeOf(slot: Slot): (int, char, char) {
    match slot
    case Zone => (4, 'Z', ' ')
    case NamesIP => (15, 'S', 'I')
    case NamesZone => (17, 'S', 'Z')
    case NamesAPI => (16, 'S', 'A')
    case NamesDesktop => (20, 'S', 'D')
    case NamesAuth => (17, 'S', 'A')
    case NamesSysApps => (20, 'S', 'S')
    case NamesWildcard => (21, 'S', 'W')
    case CORSEntries => (12, 'C', ' ')
    case RedirectMapsSlot => (13, 'R', ' ')
    case AuthRedirect => (13, 'A', ' ')
    case DesktopRedirect => (16, 'D', 'E')
    case FrameworkNamespace => (19, 'F', 'E')
    case UserNamespace => (14, 'U', 'E')
    case Resolver => (8, 'R', ' ')
  }

  function NameCode(name: string): (int, char, char)
    requires name != ""
  {
    (|name|, name[0], if |name| > 13 then name[13] else ' ')
  }

  lemma HasCode(slot: Slot)
    ensures NameOf(slot) != "" && NameCode(NameOf(slot)) == CodeOf(slot)
  {
  }

  lemma CodesDiffer(a: Slot, b: Slot)
    requires CodeOf(a) == CodeOf(b)
    ensures a == b
  {
  }

  lemma NamesDiffer(a: Slot, b: Slot)
    requires Placeholder(NameOf(a)) == Placeholder(NameOf(b))
    ensures a == b
  {
    HasCode(a);
    HasCode(b);
    assert Placeholder(NameOf(a))[2..|Placeholder(NameOf(a))| - 2] == NameOf(a);
    assert Placeholder(NameOf(b))[2..|Placeholder(NameOf(b))| - 2] == NameOf(b);
    CodesDiffer(a, b);
  }

  function ValueOf(slot: Slot, p: Params): string {
    match slot
    case Zone => p.zone
    case NamesIP => Join(IPNames(p), " ")
    case NamesZone => Join(Prefixed("", Domains(p)), " ")
    case NamesAPI => Join(Prefixed("api.", Domains(p)), " ")
    case NamesDesktop => Join(Prefixed("desktop.", Domains(p)), " ")
    case NamesAuth => Join(Prefixed("auth.", Domains(p)), " ")
    case NamesSysApps => Join(SysAppNames(Domains(p)), " ")
    case NamesWildcard => Join(Prefixed("*.", Domains(p)), " ")
    case CORSEntries => "    " + Join(CORSLines(p), "\n    ")
    case RedirectMapsSlot => RedirectMaps(p)
    case AuthRedirect => if p.customDomain != "" then "$auth_domain" else "auth." + p.zone
    case DesktopRedirect => if p.customDomain != "" then "$desktop_domain" else "desktop." + p.zone
    case FrameworkNamespace => p.frameworkNS
    case UserNamespace => p.userNS
    case Resolver => p.resolver
  }

  lemma BracedIsPlaceholder(name: string)
    requires PlainName(name)
    ensures IsPlaceholder(Placeholder(name))
  {
    var k := Placeholder(name);
    assert forall i :: 2 <= i < |k| - 2 ==> k[i] == name[i - 2];
  }

  lemma BraceFreeInert(v: string)
    requires '{' !in v
    ensures Inert(v)
  {
    assert forall i :: 0 <= i < |v| ==> v[i] in v;
  }

  lemma {:induction false} JoinBraceFree(parts: seq<string>, sep: string)
    requires '{' !in sep && forall i :: 0 <= i < |parts| ==> '{' !in parts[i]
    ensures '{' !in Join(parts, sep)
  {
    if |parts| > 1 { JoinBraceFree(parts[1..], sep); }
  }

  lemma {:induction false} SysAppNamesBraceFree(domains: seq<string>)
    requires forall i :: 0 <= i < |domains| ==> '{' !in domains[i]
    ensures forall i :: 0 <= i < |SysAppNames(domains)| ==> '{' !in SysAppNames(domains)[i]
  {
    if domains != [] { SysAppNamesBraceFree(domains[1..]); }
  }

  lemma {:induction false} EscDotsBraceFree(s: string)
    requires '{' !in s
    ensures '{' !in EscDots(s)
    decreases |s|
  {
    if s != [] {
      assert s[0] in s;
      EscDotsBraceFree(s[1..]);
    }
  }

  /** One brace between brace-free texts is inert as long as text follows it. */
  lemma OneBraceInert(a: string, b: string)
    requires '{' !in a && '{' !in b && b != []
    ensures Inert(a + "{" + b)
  {
    var v := a + "{" + b;
    forall i | 0 <= i < |v| - 1 ensures !(v[i] == '{' && v[i + 1] == '{') {
      if i < |a| { assert v[i] == a[i]; } else { assert v[i + 1] == b[i - |a|]; }
    }
    assert v[|v| - 1] == b[|b| - 1];
  }

  lemma InertConcat(a: string, b: string)
    requires Inert(a) && Inert(b)
    ensures Inert(a + b)
  {
    var v := a + b;
    forall i | 0 <= i < |v| - 1 ensures !(v[i] == '{' && v[i + 1] == '{') {
      if i + 1 < |a| { assert v[i] == a[i] && v[i + 1] == a[i + 1]; }
      else if i < |a| { assert v[i] == a[|a| - 1]; }
      else { assert v[i] == b[i - |a|] && v[i + 1] == b[i + 1 - |a|]; }
    }
  }

  lemma MapBlockInert(service: string, p: Params)
    requires BraceFree(p) && '{' !in service
    ensures Inert(MapHead(service) + "{" + MapBody(service, p))
  {
    EscDotsBraceFree(p.customDomain);
    JoinBraceFree(["",
                   "    default                      " + service + "." + p.zone + ";",
                   "    ~\\." + EscDots(p.customDomain) + "$                       " + service + "."
                       + p.customDomain + ";",
                   "    " + p.customDomain + "                           " + service + "." + p.customDomain + ";",
                   "  }"], "\n");
    OneBraceInert(MapHead(service), MapBody(service, p));
  }

  /** The redirect maps hold braces, but never two in a row. */
  lemma RedirectMapsInert(p: Params)
    requires BraceFree(p)
    ensures Inert(RedirectMaps(p))
  {
    if p.customDomain != "" {
      MapBlockInert("auth", p);
      MapBlockInert("desktop", p);
      InertConcat(MapHead("auth") + "{" + MapBody("auth", p), "\n");
      var first := MapHead("auth") + "{" + MapBody("auth", p) + "\n";
      var second := MapHead("desktop") + "{" + MapBody("desktop", p);
      InertConcat(first, second);
      assert RedirectMaps(p) == first + second;
    }
  }

  lemma DomainListsBraceFree(p: Params, prefix: string)
    requires BraceFree(p) && '{' !in prefix
    ensures '{' !in Join(Prefixed(prefix, Domains(p)), " ") && '{' !in Join(SysAppNames(Domains(p)), " ")
  {
    JoinBraceFree(Prefixed(prefix, Domains(p)), " ");
    SysAppNamesBraceFree(Domains(p));
    JoinBraceFree(SysAppNames(Domains(p)), " ");
  }

  lemma CORSBraceFree(p: Params)
    requires BraceFree(p)
    ensures '{' !in "    " + Join(CORSLines(p), "\n    ")
  {
    EscDotsBraceFree(p.zone);
    EscDotsBraceFree(p.customDomain);
    JoinBraceFree(CORSLines(p), "\n    ");
  }

  lemma HostListBraceFree(slot: Slot, p: Params)
    requires BraceFree(p) && IsHostList(slot)
    ensures '{' !in ValueOf(slot, p)
  {
    JoinBraceFree(IPNames(p), " ");
    DomainListsBraceFree(p, "");
    DomainListsBraceFree(p, "api.");
    DomainListsBraceFree(p, "desktop.");
    DomainListsBraceFree(p, "auth.");
    DomainListsBraceFree(p, "*.");
  }

  lemma ValueInert(slot: Slot, p: Params)
    requires BraceFree(p)
    ensures Inert(ValueOf(slot, p))
  {
    if slot.RedirectMapsSlot? {
      RedirectMapsInert(p);
    } else {
      if IsHostList(slot) { HostListBraceFree(slot, p); }
      CORSBraceFree(p);
      BraceFreeInert(ValueOf(slot, p));
    }
  }

  // ---------------------------------------------------------------- the builder

  method JoinWithPrefix(prefix: string, domains: seq<string>) returns (r: string)
    ensures r == Join(Prefixed(prefix, domains), " ")
  {
    var parts: seq<string> := [];
    for i := 0 to |domains|
      invariant |parts| == i && forall j :: 0 <= j < i ==> parts[j] == prefix + domains[j]
    {
      parts := parts + [prefix + domains[i]];
    }
    assert parts == Prefixed(prefix, domains);
    r := Join(parts, " ");
  }

  method BuildSysAppNames(domains: seq<string>) returns (r: string)
    ensures r == Join(SysAppNames(domains), " ")
  {
    var parts: seq<string> := [];
    for i := 0 to |domains|
      invariant parts + SysAppNames(domains[i..]) == SysAppNames(domains)
    {
      var d := domains[i];
      assert domains[i..][0] == d && domains[i..][1..] == domains[i + 1..];
      parts := parts + ["market." + d, "settings." + d, "files." + d, "dashboard." + d];
    }
    assert domains[|domains|..] == [] && parts + [] == parts;
    r := Join(parts, " ");
  }

  method BuildCORSEntries(p: Params) returns (r: string)
    ensures r == "    " + Join(CORSLines(p), "\n    ")
  {
    var lines := [ExactOrigin(p.zone), SubdomainOrigin(p.zone)];
    if p.serverIP != "" { lines := lines + [ExactOrigin(p.serverIP)]; }
    if p.vpnIP != "" { lines := lines + [ExactOrigin(p.vpnIP)]; }
    if p.customDomain != "" {
      lines := lines + [ExactOrigin(p.customDomain), SubdomainOrigin(p.customDomain)];
    }
    assert lines == CORSLines(p);
    r := "    " + Join(lines, "\n    ");
  }

  /** The value of one placeholder, as `Build` computes it. */
  method ValueFor(slot: Slot, p: Params, domains: seq<string>, ipNames: seq<string>) returns (v: string)
    requires domains == Domains(p) && ipNames == IPNames(p)
    ensures v == ValueOf(slot, p)
  {
    match slot {
      case Zone => v := p.zone;
      case NamesIP => v := Join(ipNames, " ");
      case NamesZone => v := JoinWithPrefix("", domains);
      case NamesAPI => v := JoinWithPrefix("api.", domains);
      case NamesDesktop => v := JoinWithPrefix("desktop.", domains);
      case NamesAuth => v := JoinWithPrefix("auth.", domains);
      case NamesSysApps => v := BuildSysAppNames(domains);
      case NamesWildcard => v := JoinWithPrefix("*.", domains);
      case CORSEntries => v := BuildCORSEntries(p);
      case RedirectMapsSlot => v := RedirectMaps(p);
      case AuthRedirect => v := if p.customDomain != "" then "$auth_domain" else "auth." + p.zone;
      case DesktopRedirect => v := if p.customDomain != "" then "$desktop_domain" else "desktop." + p.zone;
      case FrameworkNamespace => v := p.frameworkNS;
      case UserNamespace => v := p.userNS;
      case Resolver => v := p.resolver;
    }
  }

  method Replacements(p: Params) returns (rep: map<string, string>)
    ensures rep == BuildReplacements(p)
  {
    var domains := [p.zone];
    if p.customDomain != "" { domains := domains + [p.customDomain]; }
    var ipNames := [];
    if p.serverIP != "" { ipNames := ipNames + [p.serverIP]; }
    if p.vpnIP != "" { ipNames := ipNames + [p.vpnIP]; }
    if ipNames == [] { ipNames := ["_"]; }
    rep := map[];
    for i := 0 to |SLOTS|
      invariant rep == Bindings(SLOTS[..i], p)
    {
      var value := ValueFor(SLOTS[i], p, domains, ipNames);
      OneMoreBinding(SLOTS, p, i);
      rep := rep[Placeholder(NameOf(SLOTS[i])) := value];
    }
    assert SLOTS[..|SLOTS|] == SLOTS;
  }

  /** Expand the template, taking the placeholders in any order. */
  method Build(tmpl: string, p: Params) returns (result: string)
    ensures exists order ::
              IsOrder(order, BuildReplacements(p).Keys) && result == InOrder(tmpl, BuildReplacements(p), order)
    ensures BraceFree(p) && AllOpensKnown(tmpl, BuildReplacements(p).Keys) ==>
              result == Simultaneous(tmpl, BuildReplacements(p))
    ensures HostLists(p, BuildReplacements(p))
    ensures SingleValues(p, BuildReplacements(p))
    ensures Maps(p, BuildReplacements(p))
  {
    ghost var order;
    var rep := Replacements(p);
    result, order := ReplaceEach(tmpl, rep);
    if BraceFree(p) && AllOpensKnown(tmpl, rep.Keys) {
      BraceFreeIsCalm(p);
      CalmIsOrderFree(tmpl, rep, order);
    }
    HostListsHold(p);
    SingleValuesHold(p);
    MapsHold(p);
  }

  /** Inert values are calm. */
  lemma InertHarmless(v: string, p: string)
    requires Inert(v) && IsPlaceholder(p)
    ensures Harmless(v, p)
  {
    forall j | 0 <= j < |v| ensures !(p <= v[j..]) && !(v[j..] <= p) {
      assert v[j..][0] == v[j] && (j + 1 < |v| ==> v[j..][1] == v[j + 1]);
      assert p[0] == '{' && p[1] == '{';
      assert j + 1 < |v| ==> !(v[j] == '{' && v[j + 1] == '{');
    }
  }

  /** The placeholders in the order `Build` lists them. */
  const SLOTS: seq<Slot> := [
    Zone, NamesIP, NamesZone, NamesAPI, NamesDesktop, NamesAuth, NamesSysApps, NamesWildcard, CORSEntries,
    RedirectMapsSlot, AuthRedirect, DesktopRedirect, FrameworkNamespace, UserNamespace, Resolver
  ]

  lemma SlotListed(slot: Slot)
    ensures slot in SLOTS
  {
    assert SLOTS[3] == NamesAPI && SLOTS[7] == NamesWildcard && SLOTS[11] == DesktopRedirect && SLOTS[14] == Resolver;
  }

  function Bindings(slots: seq<Slot>, p: Params): (rep: map<string, string>)
    ensures forall k :: k in rep ==> IsPlaceholder(k)
  {
    if slots == [] then map[]
    else
      var last := slots[|slots| - 1];
      SlotIsPlaceholder(last);
      Bindings(slots[..|slots| - 1], p)[Placeholder(NameOf(last)) := ValueOf(last, p)]
  }

  lemma OneMoreBinding(slots: seq<Slot>, p: Params, i: nat)
    requires i < |slots|
    ensures Bindings(slots[..i + 1], p)
         == Bindings(slots[..i], p)[Placeholder(NameOf(slots[i])) := ValueOf(slots[i], p)]
  {
    assert slots[..i + 1][..i] == slots[..i];
  }

  lemma {:induction false} BindingsGive(slots: seq<Slot>, p: Params, slot: Slot)
    requires slot in slots
    ensures Gives(Bindings(slots, p), Placeholder(NameOf(slot)), ValueOf(slot, p))
  {
    var last := slots[|slots| - 1];
    if slot != last {
      assert slot in slots[..|slots| - 1];
      BindingsGive(slots[..|slots| - 1], p, slot);
      if Placeholder(NameOf(slot)) == Placeholder(NameOf(last)) { NamesDiffer(slot, last); }
    }
  }

  lemma {:induction false} BoundBySlot(slots: seq<Slot>, p: Params, k: string) returns (slot: Slot)
    requires k in Bindings(slots, p)
    ensures slot in slots && k == Placeholder(NameOf(slot))
  {
    slot := slots[|slots| - 1];
    if k != Placeholder(NameOf(slot)) { slot := BoundBySlot(slots[..|slots| - 1], p, k); }
  }

  /** What `Build` replaces, and by what. */
  function BuildReplacements(p: Params): (rep: map<string, string>)
    ensures forall k :: k in rep ==> IsPlaceholder(k)
  {
    Bindings(SLOTS, p)
  }

  predicate Gives(rep: map<string, string>, placeholder: string, value: string) {
    placeholder in rep && rep[placeholder] == value
  }

  lemma BraceFreeIsCalm(p: Params)
    requires BraceFree(p)
    ensures Calm(BuildReplacements(p))
  {
    var rep := BuildReplacements(p);
    forall k, k' | k in rep && k' in rep ensures Harmless(rep[k], k') {
      var slot := BoundBySlot(SLOTS, p, k);
      ReplacedByValue(slot, p);
      ValueInert(slot, p);
      InertHarmless(rep[k], k');
    }
  }

  // ---------------------------------------------------------------- which value arrives where

  /** The zone and, where there is one, the custom domain, each with the prefix. */
  function WithPrefix(prefix: string, p: Params): seq<string> {
    [prefix + p.zone] + if p.customDomain == "" then [] else [prefix + p.customDomain]
  }

  function FourApps(domain: string): seq<string> {
    ["market." + domain, "settings." + domain, "files." + domain, "dashboard." + domain]
  }

  function Addresses(p: Params): seq<string> {
    if p.serverIP != "" && p.vpnIP != "" then [p.serverIP, p.vpnIP]
    else if p.serverIP != "" then [p.serverIP]
    else if p.vpnIP != "" then [p.vpnIP]
    else ["_"]
  }

  ghost predicate HostLists(p: Params, rep: map<string, string>) {
    && Gives(rep, Placeholder("SERVER_NAMES_IP"), Join(Addresses(p), " "))
    && Gives(rep, Placeholder("SERVER_NAMES_ZONE"), Join(WithPrefix("", p), " "))
    && Gives(rep, Placeholder("SERVER_NAMES_API"), Join(WithPrefix("api.", p), " "))
    && Gives(rep, Placeholder("SERVER_NAMES_DESKTOP"), Join(WithPrefix("desktop.", p), " "))
    && Gives(rep, Placeholder("SERVER_NAMES_AUTH"), Join(WithPrefix("auth.", p), " "))
    && Gives(rep, Placeholder("SERVER_NAMES_WILDCARD"), Join(WithPrefix("*.", p), " "))
    && Gives(rep, Placeholder("SERVER_NAMES_SYSAPPS"),
             Join(FourApps(p.zone) + if p.customDomain == "" then [] else FourApps(p.customDomain), " "))
  }

  ghost predicate SingleValues(p: Params, rep: map<string, string>) {
    && Gives(rep, Placeholder("ZONE"), p.zone)
    && Gives(rep, Placeholder("FRAMEWORK_NAMESPACE"), p.frameworkNS)
    && Gives(rep, Placeholder("USER_NAMESPACE"), p.userNS)
    && Gives(rep, Placeholder("RESOLVER"), p.resolver)
    && Gives(rep, Placeholder("AUTH_REDIRECT"), if p.customDomain != "" then "$auth_domain" else "auth." + p.zone)
    && Gives(rep, Placeholder("DESKTOP_REDIRECT"),
             if p.customDomain != "" then "$desktop_domain" else "desktop." + p.zone)
  }

  function Origin(host: string): string {
    "\"https://" + host + "\" $http_origin;"
  }

  function Subdomains(escaped: string): string {
    "~^https://[a-zA-Z0-9\\-]+\\." + escaped + "$ $http_origin;"
  }

  /** The lines of the origin map: the zone, the addresses there are, the custom domain if there is one. */
  function Origins(p: Params): seq<string> {
    var own := [Origin(p.zone), Subdomains(Escaped(p.zone))];
    var addresses :=
      if p.serverIP != "" && p.vpnIP != "" then [Origin(p.serverIP), Origin(p.vpnIP)]
      else if p.serverIP != "" then [Origin(p.serverIP)]
      else if p.vpnIP != "" then [Origin(p.vpnIP)]
      else [];
    if p.customDomain == "" then own + addresses
    else own + addresses + [Origin(p.customDomain), Subdomains(Escaped(p.customDomain))]
  }

  /** The lines of the origin map, and of the two redirect maps; a dot is escaped by a backslash. */
  ghost predicate Maps(p: Params, rep: map<string, string>) {
    && Gives(rep, Placeholder("CORS_ENTRIES"), "    " + Join(Origins(p), "\n    "))
    && (p.customDomain == "" ==> Gives(rep, Placeholder("REDIRECT_MAPS"), ""))
    && (p.customDomain != "" ==>
          Gives(rep, Placeholder("REDIRECT_MAPS"),
                Join(RedirectLines("auth", p) + RedirectLines("desktop", p), "\n")))
  }

  function RedirectLines(service: string, p: Params): seq<string> {
    ["  map $host $" + service + "_domain {",
     "    default                      " + service + "." + p.zone + ";",
     "    ~\\." + Escaped(p.customDomain) + "$                       " + service + "." + p.customDomain + ";",
     "    " + p.customDomain + "                           " + service + "." + p.customDomain + ";",
     "  }"]
  }

  function Escaped(s: string): string {
    if s == "" then "" else (if s[0] == '.' then "\\." else [s[0]]) + Escaped(s[1..])
  }

  lemma {:induction false} EscDotsEscapes(s: string)
    ensures EscDots(s) == Escaped(s)
    decreases |s|
  {
    if s != "" {
      assert "." <= s <==> s[0] == '.';
      EscDotsEscapes(s[1..]);
    }
  }

  lemma PrefixedIsBoth(prefix: string, p: Params)
    ensures Prefixed(prefix, Domains(p)) == WithPrefix(prefix, p)
  {
  }

  /** Where no domain holds a blank, splitting a list at its blanks gives one prefixed name per domain. */
  lemma NamesReadBack(prefix: string, p: Params)
    requires ' ' !in prefix && ' ' !in p.zone && ' ' !in p.customDomain
    ensures Split(Join(WithPrefix(prefix, p), " "), ' ') ==
            if p.customDomain == "" then [prefix + p.zone] else [prefix + p.zone, prefix + p.customDomain]
  {
    SplitOfJoin(WithPrefix(prefix, p), ' ');
  }

  /** The placeholder of a slot becomes what the replacements give for it, wherever it stands. */
  lemma HoleBecomes(name: string, value: string, before: string, after: string, p: Params)
    requires '{' !in before && Gives(BuildReplacements(p), Placeholder(name), value)
    ensures var rep := BuildReplacements(p);
            Simultaneous(before + (Placeholder(name) + after), rep) == before + (value + Simultaneous(after, rep))
  {
    SimultaneousAt(Placeholder(name), after, BuildReplacements(p));
    SimultaneousAfter(before, Placeholder(name) + after, BuildReplacements(p));
  }

  lemma SysAppsOfNone()
    ensures SysAppNames([]) == []
  {
  }

  lemma SysAppsOfOne(domain: string)
    ensures SysAppNames([domain]) == FourApps(domain)
  {
    assert [domain][1..] == [];
    SysAppsOfNone();
  }

  lemma SysAppsAreFour(p: Params)
    ensures SysAppNames(Domains(p)) == FourApps(p.zone) + if p.customDomain == "" then [] else FourApps(p.customDomain)
  {
    assert Domains(p)[0] == p.zone && [p.customDomain][1..] == [];
    SysAppsOfNone();
    if p.customDomain == "" {
      assert Domains(p)[1..] == [];
    } else {
      assert Domains(p)[1..] == [p.customDomain];
      SysAppsOfOne(p.customDomain);
    }
  }

  lemma HostListsHold(p: Params)
    ensures HostLists(p, BuildReplacements(p))
  {
    var rep := BuildReplacements(p);
    PrefixedIsBoth("", p);
    PrefixedIsBoth("api.", p);
    PrefixedIsBoth("desktop.", p);
    PrefixedIsBoth("auth.", p);
    PrefixedIsBoth("*.", p);
    SysAppsAreFour(p);
    assert IPNames(p) == Addresses(p);
    ReplacedByValue(NamesIP, p);
    ReplacedByValue(NamesZone, p);
    ReplacedByValue(NamesAPI, p);
    ReplacedByValue(NamesDesktop, p);
    ReplacedByValue(NamesAuth, p);
    ReplacedByValue(NamesWildcard, p);
    ReplacedByValue(NamesSysApps, p);
  }

  lemma ParametersArrive(p: Params)
    ensures var rep := BuildReplacements(p);
      && Gives(rep, Placeholder("ZONE"), p.zone)
      && Gives(rep, Placeholder("FRAMEWORK_NAMESPACE"), p.frameworkNS)
      && Gives(rep, Placeholder("USER_NAMESPACE"), p.userNS)
      && Gives(rep, Placeholder("RESOLVER"), p.resolver)
  {
    ReplacedByValue(Zone, p);
    ReplacedByValue(FrameworkNamespace, p);
    ReplacedByValue(UserNamespace, p);
    ReplacedByValue(Resolver, p);
  }

  lemma SingleValuesHold(p: Params)
    ensures SingleValues(p, BuildReplacements(p))
  {
    ParametersArrive(p);
    ReplacedByValue(AuthRedirect, p);
    ReplacedByValue(DesktopRedirect, p);
  }

  lemma OriginsAreLines(p: Params)
    ensures CORSLines(p) == Origins(p)
  {
    EscDotsEscapes(p.zone);
    EscDotsEscapes(p.customDomain);
  }

  /** A block is its head line followed by the others. */
  lemma BlockIsLines(service: string, p: Params)
    ensures MapHead(service) + "{" + MapBody(service, p) == Join(RedirectLines(service, p), "\n")
  {
    EscDotsEscapes(p.customDomain);
    var lines := RedirectLines(service, p);
    assert lines[0] == MapHead(service) + "{";
    HeadOfJoin(lines[0], lines[1..]);
    assert lines == [lines[0]] + lines[1..];
  }

  lemma HeadOfJoin(head: string, others: seq<string>)
    ensures head + Join([""] + others, "\n") == Join([head] + others, "\n")
  {
    assert ([""] + others)[1..] == others && ([head] + others)[1..] == others;
    if others != [] { assert head + ("" + "\n" + Join(others, "\n")) == head + "\n" + Join(others, "\n"); }
  }

  lemma {:induction false} JoinConcat(a: seq<string>, b: seq<string>, sep: string)
    requires a != [] && b != []
    ensures Join(a + b, sep) == Join(a, sep) + sep + Join(b, sep)
  {
    if |a| == 1 {
      assert (a + b)[1..] == b;
    } else {
      assert (a + b)[1..] == a[1..] + b;
      JoinConcat(a[1..], b, sep);
    }
  }

  lemma OriginsArrive(p: Params)
    ensures Gives(BuildReplacements(p), Placeholder("CORS_ENTRIES"), "    " + Join(Origins(p), "\n    "))
  {
    OriginsAreLines(p);
    ReplacedByValue(CORSEntries, p);
  }

  lemma RedirectsAreLines(p: Params)
    requires p.customDomain != ""
    ensures RedirectMaps(p) == Join(RedirectLines("auth", p) + RedirectLines("desktop", p), "\n")
  {
    BlockIsLines("auth", p);
    BlockIsLines("desktop", p);
    JoinConcat(RedirectLines("auth", p), RedirectLines("desktop", p), "\n");
    var auth := MapHead("auth") + "{" + MapBody("auth", p);
    assert RedirectMaps(p) == auth + "\n" + (MapHead("desktop") + "{" + MapBody("desktop", p));
  }

  lemma RedirectMapsArrive(p: Params)
    ensures Gives(BuildReplacements(p), Placeholder("REDIRECT_MAPS"), RedirectMaps(p))
  {
    ReplacedByValue(RedirectMapsSlot, p);
  }

  lemma MapsHold(p: Params)
    ensures Maps(p, BuildReplacements(p))
  {
    OriginsArrive(p);
    RedirectMapsArrive(p);
    if p.customDomain != "" { RedirectsAreLines(p); }
  }

  /** Each placeholder is replaced by the value of its name. */
  lemma ReplacedByValue(slot: Slot, p: Params)
    ensures Gives(BuildReplacements(p), Placeholder(NameOf(slot)), ValueOf(slot, p))
  {
    SlotListed(slot);
    BindingsGive(SLOTS, p, slot);
  }

  /** The loop of `Build`: some order of the placeholders. */
  method ReplaceEach(tmpl: string, replacements: map<string, string>) returns (result: string, ghost order: seq<string>)
    requires forall k :: k in replacements ==> IsPlaceholder(k)
    ensures IsOrder(order, replacements.Keys) && result == InOrder(tmpl, replacements, order)
  {
    result, order := tmpl, [];
    var remaining := replacements.Keys;
    while remaining != {}
      invariant remaining <= replacements.Keys && IsOrder(order, replacements.Keys - remaining)
      invariant result == InOrder(tmpl, replacements, order)
      decreases remaining
    {
      var k :| k in remaining;
      InOrderConcat(tmpl, replacements, order, [k]);
      InOrderOne(result, replacements, k);
      result := ReplaceAll(result, k, replacements[k]);
      order := order + [k];
      remaining := remaining - {k};
    }
    assert replacements.Keys - {} == replacements.Keys;
  }

  /** A zone that reads "{{RESOLVER}}": two orders of `Build` give two results. */
  lemma BuildShowsOrder(p: Params) returns (tmpl: string, early: seq<string>, late: seq<string>)
    requires p.zone == Placeholder("RESOLVER") && p.resolver != Placeholder("RESOLVER")
    ensures var rep := BuildReplacements(p);
      && AllOpensKnown(tmpl, rep.Keys) && IsOrder(early, rep.Keys) && IsOrder(late, rep.Keys)
      && InOrder(tmpl, rep, early) != InOrder(tmpl, rep, late)
  {
    ReplacedByValue(Zone, p);
    ReplacedByValue(Resolver, p);
    assert Placeholder("ZONE")[2] != Placeholder("RESOLVER")[2];
    NotCalm(BuildReplacements(p), Placeholder("ZONE"), Placeholder("RESOLVER"));
    tmpl, early, late := OrderShows(BuildReplacements(p));
  }

  lemma NotCalm(rep: map<string, string>, k: string, k': string)
    requires k in rep && k' in rep && k != k' && k' != "" && rep[k] == k' && rep[k'] != k'
    ensures !Calm(rep)
  {
    assert k'[0..] == k' && !Harmless(rep[k], k');
  }
}
