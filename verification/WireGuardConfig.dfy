/**
 * Rewriting a user's WireGuard configuration (cmd/hostctl/main.go): pinning the
 * listen port, narrowing AllowedIPs, and injecting the PostUp and PostDown hooks.
 */
module WireGuardConfig {
  import opened Wrappers
  import opened Text

  type Lines = seq<string>

  function LinesOf(config: string): (lines: Lines)
    ensures IsText(lines)
  {
    Split(config, '\n')
  }

  function TextOf(lines: Lines): string {
    Join(lines, "\n")
  }

  predicate IsText(lines: Lines) {
    lines != [] && forall i :: 0 <= i < |lines| ==> '\n' !in lines[i]
  }

  /** `extra` inserted at position `p`. */
  function Insert(lines: Lines, p: nat, extra: Lines): Lines
    requires p <= |lines|
  {
    lines[..p] + extra + lines[p..]
  }

  lemma InsertSnoc(lines: Lines, p: nat, extra: Lines, line: string)
    requires p <= |lines|
    ensures Insert(lines + [line], p, extra) == Insert(lines, p, extra) + [line]
  {
  }

  /** The first line that reads `mark`, white space aside; |lines| if there is none. */
  function FirstMarked(lines: Lines, mark: string): (i: nat)
    ensures i <= |lines| && (i < |lines| ==> TrimSpace(lines[i]) == mark)
    ensures forall j :: 0 <= j < i ==> TrimSpace(lines[j]) != mark
  {
    if lines == [] || TrimSpace(lines[0]) == mark then 0 else 1 + FirstMarked(lines[1..], mark)
  }

  // ---------------------------------------------------------------- ensureInterfaceField

  predicate IsField(line: string, key: string) {
    var lower := ToLower(TrimSpace(line));
    HasPrefix(lower, ToLower(key) + " ") || HasPrefix(lower, ToLower(key) + "=")
  }

  /** Being in the [Interface] section before and after a line. */
  function InInterface(inside: bool, line: string): bool {
    var trimmed := TrimSpace(line);
    if trimmed == "[Interface]" then true else if HasPrefix(trimmed, "[") then false else inside
  }

  predicate IsHeader(line: string) {
    HasPrefix(TrimSpace(line), "[")
  }

  /** Some [Interface] section holds a line for the key. */
  predicate HasField(lines: Lines, inside: bool, key: string) {
    lines != [] && ((inside && !IsHeader(lines[0]) && IsField(lines[0], key))
                    || HasField(lines[1..], InInterface(inside, lines[0]), key))
  }

  function FieldLine(key: string, value: string): string {
    key + " = " + value
  }

  predicate NeedsField(lines: Lines, key: string) {
    !HasField(lines, false, key) && FirstMarked(lines, "[Interface]") < |lines|
  }

  function WithField(lines: Lines, key: string, value: string): Lines {
    if NeedsField(lines, key) then Insert(lines, FirstMarked(lines, "[Interface]") + 1, [FieldLine(key, value)])
        else lines
  }

  function Ensured(config: string, key: string, value: string): string {
    TextOf(WithField(LinesOf(config), key, value))
  }

  method EnsureInterfaceField(config: string, key: string, value: string) returns (r: string)
    ensures r == Ensured(config, key, value)
  {
    var lines := LinesOf(config);
    var found := FindField(lines, key);
    if found { return config; }
    var result := InsertAfterFirst(lines, "[Interface]", FieldLine(key, value));
    r := TextOf(result);
  }

  method FindField(lines: Lines, key: string) returns (found: bool)
    ensures found == HasField(lines, false, key)
  {
    var inInterface := false;
    for i := 0 to |lines|
      invariant HasField(lines, false, key) == HasField(lines[i..], inInterface, key)
    {
      assert lines[i..][0] == lines[i] && lines[i..][1..] == lines[i + 1..];
      var trimmed := TrimSpace(lines[i]);
      if trimmed == "[Interface]" {
        inInterface := true;
        continue;
      }
      if HasPrefix(trimmed, "[") {
        inInterface := false;
        continue;
      }
      if !inInterface { continue; }
      if IsField(lines[i], key) { return true; }
    }
    assert lines[|lines|..] == [];
    found := false;
  }

  /** The copying loop: a line is added after the first one that reads `mark`. */
  method InsertAfterFirst(lines: Lines, mark: string, extra: string) returns (result: Lines)
    ensures var i := FirstMarked(lines, mark); result == if i == |lines| then lines else Insert(lines, i + 1, [extra])
  {
    result := [];
    var injected := false;
    ghost var at := FirstMarked(lines, mark);
    for i := 0 to |lines|
      invariant injected <==> at < i
      invariant result == if injected then Insert(lines[..i], at + 1, [extra]) else lines[..i]
    {
      TakeSucc(lines, i);
      if injected { InsertSnoc(lines[..i], at + 1, [extra], lines[i]); }
      result := result + [lines[i]];
      if !injected && TrimSpace(lines[i]) == mark {
        assert i == at;
        result := result + [extra];
        injected := true;
      }
    }
    assert lines[..|lines|] == lines;
  }

  // ---------------------------------------------------------------- rewriteAllowedIPs

  predicate IsAllowedIPs(line: string) {
    HasPrefix(TrimSpace(line), "AllowedIPs")
  }

  function Rewritten(line: string, allowed: string): string {
    if IsAllowedIPs(line) then "AllowedIPs = " + allowed else line
  }

  function WithAllowedIPs(lines: Lines, allowed: string): (r: Lines)
    ensures |r| == |lines| && forall i :: 0 <= i < |lines| ==> r[i] == Rewritten(lines[i], allowed)
  {
    seq(|lines|, i requires 0 <= i < |lines| => Rewritten(lines[i], allowed))
  }

  function Narrowed(config: string, allowed: string): string {
    TextOf(WithAllowedIPs(LinesOf(config), allowed))
  }

  method RewriteAllowedIPs(config: string, allowed: string) returns (r: string)
    ensures r == Narrowed(config, allowed)
  {
    var original := LinesOf(config);
    var lines := original;
    for i := 0 to |lines|
      invariant |lines| == |original|
      invariant forall j :: 0 <= j < i ==> lines[j] == Rewritten(original[j], allowed)
      invariant forall j :: i <= j < |lines| ==> lines[j] == original[j]
    {
      if HasPrefix(TrimSpace(lines[i]), "AllowedIPs") {
        lines := lines[i := "AllowedIPs = " + allowed];
      }
    }
    assert lines == WithAllowedIPs(original, allowed);
    r := TextOf(lines);
  }

  // ---------------------------------------------------------------- the sections it rewrites

  /** Being in a [Peer] section before and after a line. */
  function InPeer(inside: bool, line: string): bool {
    var trimmed := TrimSpace(line);
    if trimmed == "[Peer]" then true else if HasPrefix(trimmed, "[") then false else inside
  }

  /** What the function is documented to do: replace the AllowedIPs lines of [Peer] sections. */
  function PeersNarrowed(lines: Lines, inside: bool, allowed: string): Lines {
    if lines == [] then []
    else
      [if inside then Rewritten(lines[0], allowed) else lines[0]]
          + PeersNarrowed(lines[1..], InPeer(inside, lines[0]), allowed)
  }

  /** An AllowedIPs line, other than the new one, outside every [Peer] section. */
  predicate HasStray(lines: Lines, inside: bool, allowed: string) {
    lines != [] && ((!inside && IsAllowedIPs(lines[0]) && lines[0] != "AllowedIPs = " + allowed)
                    || HasStray(lines[1..], InPeer(inside, lines[0]), allowed))
  }

  /** It keeps to the [Peer] sections exactly when no such line stands outside them. */
  lemma {:induction false} KeepsToPeersIff(lines: Lines, inside: bool, allowed: string)
    ensures WithAllowedIPs(lines, allowed) == PeersNarrowed(lines, inside, allowed)
            <==> !HasStray(lines, inside, allowed)
  {
    if lines != [] {
      var here, others := if inside then Rewritten(lines[0], allowed)
          else lines[0], PeersNarrowed(lines[1..], InPeer(inside, lines[0]), allowed);
      KeepsToPeersIff(lines[1..], InPeer(inside, lines[0]), allowed);
      assert WithAllowedIPs(lines, allowed) == [Rewritten(lines[0], allowed)] + WithAllowedIPs(lines[1..], allowed);
      SameCons(Rewritten(lines[0], allowed), WithAllowedIPs(lines[1..], allowed), here, others);
    }
  }

  lemma SameCons(x: string, s: Lines, y: string, t: Lines)
    ensures [x] + s == [y] + t <==> x == y && s == t
  {
    assert ([x] + s)[0] == x && ([y] + t)[0] == y && ([x] + s)[1..] == s && ([y] + t)[1..] == t;
  }

  /** A configuration whose [Interface] section is rewritten. */
  lemma InterfaceIsRewritten()
    ensures var lines := ["[Interface]", "AllowedIPs = 0.0.0.0/0"];
      WithAllowedIPs(lines, "10.8.0.0/24") != PeersNarrowed(lines, false, "10.8.0.0/24")
  {
    var stray, allowed := "AllowedIPs = 0.0.0.0/0", "10.8.0.0/24";
    var lines := ["[Interface]", stray];
    NewAllowedIPs("0.0.0.0/0");
    assert stray != "AllowedIPs = " + allowed by { assert stray[13] == '0' && ("AllowedIPs = " + allowed)[13] == '1'; }
    assert TrimSpace("[Interface]") == "[Interface]";
    assert lines[1..] == [stray] && !InPeer(false, lines[0]) && HasStray([stray], false, allowed);
    KeepsToPeersIff(lines, false, allowed);
  }

  // ---------------------------------------------------------------- buildWGConfig

  const HOOKS: Lines := ["PostUp = /usr/local/bin/wg0-up.sh", "PostDown = /usr/local/bin/wg0-down.sh", ""]

  function WithHooks(lines: Lines): Lines {
    var i := FirstMarked(lines, "[Peer]");
    if i == |lines| then lines else Insert(lines, i, HOOKS)
  }

  /** The configuration that is written, line by line. */
  function Built(lines: Lines, mode: string): Lines {
    var pinned := WithField(lines, "ListenPort", "51820");
    WithHooks(if mode == "dns-only" then WithAllowedIPs(pinned, "10.8.0.0/24") else pinned)
  }

  lemma InsertAtEnd(lines: Lines, extra: Lines, line: string)
    ensures Insert(lines + [line], |lines|, extra) == lines + extra + [line]
  {
  }

  /** The copying loop: lines are added before the first one that reads `mark`. */
  method InsertBeforeFirst(lines: Lines, mark: string, extra: Lines) returns (result: Lines)
    ensures var i := FirstMarked(lines, mark); result == if i == |lines| then lines else Insert(lines, i, extra)
  {
    result := [];
    var injected := false;
    ghost var at := FirstMarked(lines, mark);
    for i := 0 to |lines|
      invariant injected <==> at < i
      invariant result == if injected then Insert(lines[..i], at, extra) else lines[..i]
    {
      TakeSucc(lines, i);
      if injected { InsertSnoc(lines[..i], at, extra, lines[i]); }
      if TrimSpace(lines[i]) == mark && !injected {
        assert i == at;
        InsertAtEnd(lines[..i], extra, lines[i]);
        result := result + extra;
        injected := true;
      }
      result := result + [lines[i]];
    }
    assert lines[..|lines|] == lines;
  }

  method BuildWGConfig(userConfig: string, mode: string) returns (r: string)
    ensures r == TextOf(Built(LinesOf(userConfig), mode))
    ensures IsBuilt(LinesOf(userConfig), mode, LinesOf(r))
  {
    BuiltIs(LinesOf(userConfig), mode);
    BuiltReadBack(LinesOf(userConfig), mode);
    var config := EnsureInterfaceField(userConfig, "ListenPort", "51820");
    EnsuredLines(userConfig, "ListenPort", "51820");
    NarrowedLines(config, "10.8.0.0/24");
    if mode == "dns-only" {
      config := RewriteAllowedIPs(config, "10.8.0.0/24");
    }
    var result := InsertBeforeFirst(LinesOf(config), "[Peer]", HOOKS);
    r := TextOf(result);
  }

  lemma WithFieldIsText(lines: Lines, key: string, value: string)
    requires IsText(lines) && '\n' !in key && '\n' !in value
    ensures IsText(WithField(lines, key, value))
  {
  }

  lemma RewrittenIsText(lines: Lines, allowed: string)
    requires IsText(lines) && '\n' !in allowed
    ensures IsText(WithAllowedIPs(lines, allowed))
  {
  }

  // ---------------------------------------------------------------- idempotence

  /** A key that can start a line of its own. */
  predicate PlainKey(key: string) {
    key != "" && !IsSpace(key[0]) && key[0] != '[' && '\n' !in key
  }

  lemma TrimKeepsStart(line: string, n: nat)
    requires n < |line| && !IsSpace(line[0]) && !IsSpace(line[n])
    ensures |TrimSpace(line)| > n && TrimSpace(line) <= line
  {
    assert TrimLeft(line) == line;
    TrimRightFacts(line);
    TrimRightKeeps(line, n);
  }

  lemma {:induction false} TrimRightKeeps(s: string, n: nat)
    requires n < |s| && !IsSpace(s[n])
    ensures |TrimRight(s)| > n
  {
    if IsSpace(s[|s| - 1]) { TrimRightKeeps(s[..|s| - 1], n); }
  }

  /** The injected line is a line for its key, and no section header. */
  lemma FieldLineIsField(key: string, value: string)
    requires PlainKey(key)
    ensures IsField(FieldLine(key, value), key) && !IsHeader(FieldLine(key, value))
  {
    var line := FieldLine(key, value);
    assert line[|key| + 1] == '=';
    TrimKeepsStart(line, |key| + 1);
    var trimmed := TrimSpace(line);
    assert trimmed[0] == key[0];
    assert ToLower(trimmed)[..|key| + 1] == ToLower(key) + " " by {
      assert forall i :: 0 <= i < |key| ==> trimmed[i] == key[i];
      assert trimmed[|key|] == ' ';
    }
  }

  /** A line for the key right after an [Interface] line is found. */
  lemma {:induction false} FieldFound(lines: Lines, inside: bool, p: nat, key: string)
    requires p + 1 < |lines| && TrimSpace(lines[p]) == "[Interface]"
    requires IsField(lines[p + 1], key) && !IsHeader(lines[p + 1])
    ensures HasField(lines, inside, key)
  {
    if p == 0 {
      assert lines[1..][0] == lines[1];
    } else {
      FieldFound(lines[1..], InInterface(inside, lines[0]), p - 1, key);
    }
  }

  lemma EnsureIdempotent(lines: Lines, key: string, value: string)
    requires PlainKey(key)
    ensures WithField(WithField(lines, key, value), key, value) == WithField(lines, key, value)
  {
    EnsuredIff(lines, key, value);
  }

  lemma {:induction false} FieldNeedsSection(lines: Lines, key: string)
    requires HasField(lines, false, key)
    ensures FirstMarked(lines, "[Interface]") < |lines|
  {
    if TrimSpace(lines[0]) != "[Interface]" { FieldNeedsSection(lines[1..], key); }
  }

  /** Afterwards the key has a line exactly when there is an [Interface] section. */
  lemma EnsuredIff(lines: Lines, key: string, value: string)
    requires PlainKey(key)
    ensures HasField(WithField(lines, key, value), false, key) <==> FirstMarked(lines, "[Interface]") < |lines|
  {
    var once, p := WithField(lines, key, value), FirstMarked(lines, "[Interface]");
    if HasField(lines, false, key) {
      FieldNeedsSection(lines, key);
    } else if p < |lines| {
      assert once[p] == lines[p] && once[p + 1] == FieldLine(key, value);
      FieldLineIsField(key, value);
      FieldFound(once, false, p, key);
    }
  }

  lemma RewrittenTwice(line: string, allowed: string)
    ensures Rewritten(Rewritten(line, allowed), allowed) == Rewritten(line, allowed)
  {
  }

  lemma RewriteIdempotent(lines: Lines, allowed: string)
    ensures WithAllowedIPs(WithAllowedIPs(lines, allowed), allowed) == WithAllowedIPs(lines, allowed)
  {
    forall i | 0 <= i < |lines| { RewrittenTwice(lines[i], allowed); }
  }

  // ---------------------------------------------------------------- the two rewrites commute

  /** A key no AllowedIPs line can be a line for. */
  predicate NotAllowedIPsKey(key: string) {
    !HasPrefix(ToLower(key), ALLOWED_IPS)
  }

  const ALLOWED_IPS := "allowedips"

  lemma PrefixLonger(lower: string, k: string, c: char)
    requires ALLOWED_IPS <= lower && k + [c] <= lower && (c == ' ' || c == '=')
    ensures ALLOWED_IPS <= k
  {
    assert (k + [c])[|k|] == c == lower[|k|];
    assert forall i :: 0 <= i < 10 ==> lower[i] == ALLOWED_IPS[i] && ALLOWED_IPS[i] != ' ' && ALLOWED_IPS[i] != '=';
    assert |k| >= 10;
    assert k == lower[..|k|];
  }

  lemma AllowedIPsLower(line: string)
    requires IsAllowedIPs(line)
    ensures ALLOWED_IPS <= ToLower(TrimSpace(line)) && TrimSpace(line)[0] == 'A'
  {
    var trimmed, lower := TrimSpace(line), ToLower(TrimSpace(line));
    assert forall i :: 0 <= i < 10 ==> trimmed[i] == "AllowedIPs"[i];
    assert forall i :: 0 <= i < 10 ==> lower[i] == LowerChar("AllowedIPs"[i]) == ALLOWED_IPS[i];
  }

  /** What the two AllowedIPs forms of a line have in common: neither is a header, a mark or a line for another key. */
  lemma AllowedIPsIsNeutral(line: string, key: string)
    requires IsAllowedIPs(line) && NotAllowedIPsKey(key)
    ensures !IsHeader(line) && TrimSpace(line) != "[Interface]" && !IsField(line, key)
  {
    var lower := ToLower(TrimSpace(line));
    AllowedIPsLower(line);
    if HasPrefix(lower, ToLower(key) + " ") { PrefixLonger(lower, ToLower(key), ' '); }
    if HasPrefix(lower, ToLower(key) + "=") { PrefixLonger(lower, ToLower(key), '='); }
  }

  lemma NewAllowedIPs(allowed: string)
    ensures IsAllowedIPs("AllowedIPs = " + allowed)
  {
    var line := "AllowedIPs = " + allowed;
    assert line[0] == 'A' && line[11] == '=';
    TrimKeepsStart(line, 11);
    assert "AllowedIPs" <= line;
    assert TrimSpace(line)[..10] == line[..10] == "AllowedIPs";
  }

  lemma RewrittenNeutral(line: string, allowed: string, key: string)
    requires NotAllowedIPsKey(key)
    ensures var r := Rewritten(line, allowed);
      (TrimSpace(r) == "[Interface]" <==> TrimSpace(line) == "[Interface]") && (IsHeader(r) <==> IsHeader(line))
          && (IsField(r, key) <==> IsField(line, key))
  {
    if IsAllowedIPs(line) {
      NewAllowedIPs(allowed);
      AllowedIPsIsNeutral(line, key);
      AllowedIPsIsNeutral("AllowedIPs = " + allowed, key);
    }
  }

  lemma {:induction false} RewriteKeepsFields(lines: Lines, inside: bool, allowed: string, key: string)
    requires NotAllowedIPsKey(key)
    ensures HasField(WithAllowedIPs(lines, allowed), inside, key) == HasField(lines, inside, key)
    ensures FirstMarked(WithAllowedIPs(lines, allowed), "[Interface]") == FirstMarked(lines, "[Interface]")
  {
    if lines != [] {
      RewrittenNeutral(lines[0], allowed, key);
      assert WithAllowedIPs(lines, allowed)[1..] == WithAllowedIPs(lines[1..], allowed);
      RewriteKeepsFields(lines[1..], InInterface(inside, lines[0]), allowed, key);
    }
  }

  lemma RewriteOfInsert(lines: Lines, p: nat, line: string, allowed: string)
    requires p <= |lines| && !IsAllowedIPs(line)
    ensures WithAllowedIPs(Insert(lines, p, [line]), allowed) == Insert(WithAllowedIPs(lines, allowed), p, [line])
  {
  }

  lemma FieldLineIsNotAllowedIPs(key: string, value: string)
    requires PlainKey(key) && NotAllowedIPsKey(key)
    ensures !IsAllowedIPs(FieldLine(key, value))
  {
    FieldLineIsField(key, value);
    if IsAllowedIPs(FieldLine(key, value)) { AllowedIPsIsNeutral(FieldLine(key, value), key); }
  }

  lemma EnsureAndRewriteCommute(lines: Lines, key: string, value: string, allowed: string)
    requires PlainKey(key) && NotAllowedIPsKey(key)
    ensures WithAllowedIPs(WithField(lines, key, value), allowed)
            == WithField(WithAllowedIPs(lines, allowed), key, value)
  {
    RewriteKeepsFields(lines, false, allowed, key);
    if NeedsField(lines, key) {
      FieldLineIsNotAllowedIPs(key, value);
      RewriteOfInsert(lines, FirstMarked(lines, "[Interface]") + 1, FieldLine(key, value), allowed);
    }
  }

  /** For the key AllowedIPs itself they do not: the later of the two decides its value. */
  lemma AllowedIPsDoesNotCommute(value: string, allowed: string)
    requires value != allowed
    ensures var lines := ["[Interface]"];
      WithAllowedIPs(WithField(lines, "AllowedIPs", value), allowed)
      != WithField(WithAllowedIPs(lines, allowed), "AllowedIPs", value)
  {
    var lines, line := ["[Interface]"], FieldLine("AllowedIPs", value);
    assert TrimSpace("[Interface]") == "[Interface]" && WithAllowedIPs(lines, allowed) == lines;
    assert lines[1..] == [] && FirstMarked(lines, "[Interface]") == 0 && NeedsField(lines, "AllowedIPs");
    var once := WithField(lines, "AllowedIPs", value);
    assert once == ["[Interface]", line];
    assert line == "AllowedIPs = " + value;
    NewAllowedIPs(value);
    assert WithAllowedIPs(once, allowed)[1] == "AllowedIPs = " + allowed;
    assert line[13..] == value && ("AllowedIPs = " + allowed)[13..] == allowed;
  }

  // ---------------------------------------------------------------- the same on whole texts

  /** Free of newlines, what is put in stays the lines it was. */
  lemma EnsuredLines(config: string, key: string, value: string)
    requires '\n' !in key && '\n' !in value
    ensures LinesOf(Ensured(config, key, value)) == WithField(LinesOf(config), key, value)
  {
    WithFieldIsText(LinesOf(config), key, value);
    SplitOfJoin(WithField(LinesOf(config), key, value), '\n');
  }

  lemma NarrowedLines(config: string, allowed: string)
    requires '\n' !in allowed
    ensures LinesOf(Narrowed(config, allowed)) == WithAllowedIPs(LinesOf(config), allowed)
  {
    RewrittenIsText(LinesOf(config), allowed);
    SplitOfJoin(WithAllowedIPs(LinesOf(config), allowed), '\n');
  }

  /** Each rewrite of a configuration is idempotent. */
  lemma RewritesIdempotent(config: string, key: string, value: string, allowed: string)
    requires PlainKey(key) && '\n' !in value && '\n' !in allowed
    ensures Ensured(Ensured(config, key, value), key, value) == Ensured(config, key, value)
    ensures Narrowed(Narrowed(config, allowed), allowed) == Narrowed(config, allowed)
  {
    EnsuredLines(config, key, value);
    EnsureIdempotent(LinesOf(config), key, value);
    NarrowedLines(config, allowed);
    RewriteIdempotent(LinesOf(config), allowed);
  }

  /** And they commute. */
  lemma RewritesCommute(config: string, key: string, value: string, allowed: string)
    requires PlainKey(key) && NotAllowedIPsKey(key) && '\n' !in value && '\n' !in allowed
    ensures Narrowed(Ensured(config, key, value), allowed) == Ensured(Narrowed(config, allowed), key, value)
  {
    EnsuredLines(config, key, value);
    NarrowedLines(config, allowed);
    EnsureAndRewriteCommute(LinesOf(config), key, value, allowed);
  }

  // ---------------------------------------------------------------- the user's lines are kept

  /** `after` is `before`, possibly with `extra` inserted somewhere. */
  ghost predicate AtMostInserted(before: Lines, after: Lines, extra: Lines) {
    after == before || exists p :: 0 <= p <= |before| && after == Insert(before, p, extra)
  }

  lemma FieldInserted(lines: Lines, key: string, value: string)
    ensures AtMostInserted(lines, WithField(lines, key, value), [FieldLine(key, value)])
  {
  }

  lemma HooksInserted(lines: Lines)
    ensures AtMostInserted(lines, WithHooks(lines), HOOKS)
  {
  }

  function AllowedIn(lines: Lines, mode: string): Lines {
    if mode == "dns-only" then WithAllowedIPs(lines, "10.8.0.0/24") else lines
  }

  /**
   * Deleting the pinned port and the hooks gives back the user's lines, with only the AllowedIPs lines replaced
   * in dns-only mode.
   */
  lemma UserLinesKept(lines: Lines, mode: string)
    ensures exists pinned ::
      AtMostInserted(AllowedIn(lines, mode), pinned, [FieldLine("ListenPort", "51820")])
          && AtMostInserted(pinned, Built(lines, mode), HOOKS)
  {
    PinnedEitherWay(lines, mode);
    var pinned := WithField(AllowedIn(lines, mode), "ListenPort", "51820");
    FieldInserted(AllowedIn(lines, mode), "ListenPort", "51820");
    HooksInserted(pinned);
  }

  lemma PinnedEitherWay(lines: Lines, mode: string)
    ensures Built(lines, mode) == WithHooks(WithField(AllowedIn(lines, mode), "ListenPort", "51820"))
  {
    assert ToLower("ListenPort")[0] == 'l' && ALLOWED_IPS[0] == 'a';
    EnsureAndRewriteCommute(lines, "ListenPort", "51820", "10.8.0.0/24");
  }

  // ---------------------------------------------------------------- the parsed settings are kept

  function IndexOf(s: string, c: char): (i: nat)
    ensures i <= |s| && c !in s[..i] && (i < |s| ==> s[i] == c)
  {
    if s == [] || s[0] == c then 0
    else
      var i := 1 + IndexOf(s[1..], c);
      assert s[..i] == [s[0]] + s[1..][..i - 1];
      i
  }

  function LastIndexOf(s: string, c: char): (i: int)
    ensures -1 <= i < |s|
  {
    if s == [] then -1 else if s[|s| - 1] == c then |s| - 1 else LastIndexOf(s[..|s| - 1], c)
  }

  /** A line that assigns the setting: it starts with its name, in any case, and holds a "=". */
  predicate Assigns(line: string, name: string) {
    var trimmed := TrimSpace(line);
    HasPrefix(ToLower(trimmed), name) && IndexOf(trimmed, '=') < |trimmed|
  }

  function AssignedValue(line: string): string
    requires IndexOf(TrimSpace(line), '=') < |TrimSpace(line)|
  {
    TrimSpace(TrimSpace(line)[IndexOf(TrimSpace(line), '=') + 1..])
  }

  /** The value of the first line that assigns the setting. */
  function Setting(lines: Lines, name: string): Option<string> {
    if lines == [] then None
    else if Assigns(lines[0], name) then Some(AssignedValue(lines[0]))
    else Setting(lines[1..], name)
  }

  method FindSetting(config: string, name: string) returns (r: Option<string>)
    ensures r == Setting(LinesOf(config), name)
  {
    var lines := LinesOf(config);
    for i := 0 to |lines|
      invariant Setting(lines, name) == Setting(lines[i..], name)
    {
      assert lines[i..][0] == lines[i] && lines[i..][1..] == lines[i + 1..];
      var line := TrimSpace(lines[i]);
      if HasPrefix(ToLower(line), name) {
        var eq := IndexOf(line, '=');
        if eq < |line| { return Some(TrimSpace(line[eq + 1..])); }
      }
    }
    assert lines[|lines|..] == [];
    r := None;
  }

  /** parseWGAddress: the address without its prefix length. */
  function Address(lines: Lines): string {
    match Setting(lines, "address")
    case None => ""
    case Some(addr) => var i := IndexOf(addr, '/'); if 0 < i < |addr| then addr[..i] else addr
  }

  /** parseWGDNS: the first server of the list. */
  function DNS(lines: Lines): string {
    match Setting(lines, "dns")
    case None => ""
    case Some(dns) => var i := IndexOf(dns, ','); if 0 < i < |dns| then TrimSpace(dns[..i]) else dns
  }

  /** parseWGEndpoint: host and port. */
  function Endpoint(lines: Lines): (string, string) {
    match Setting(lines, "endpoint")
    case None => ("", "")
    case Some(ep) => var i := LastIndexOf(ep, ':'); if i > 0 then (ep[..i], ep[i + 1..]) else (ep, "51820")
  }

  lemma {:induction false} InsertKeepsSetting(lines: Lines, p: nat, extra: Lines, name: string)
    requires p <= |lines| && forall i :: 0 <= i < |extra| ==> !Assigns(extra[i], name)
    ensures Setting(Insert(lines, p, extra), name) == Setting(lines, name)
    decreases p + |extra|
  {
    var all := Insert(lines, p, extra);
    if p > 0 {
      assert all[0] == lines[0] && all[1..] == Insert(lines[1..], p - 1, extra);
      InsertKeepsSetting(lines[1..], p - 1, extra, name);
    } else if extra != [] {
      assert all[0] == extra[0] && all[1..] == Insert(lines, 0, extra[1..]);
      InsertKeepsSetting(lines, 0, extra[1..], name);
    } else {
      assert all == lines;
    }
  }

  predicate IsSetting(name: string) {
    name == "address" || name == "dns" || name == "endpoint"
  }

  /** Lines that start with "l", "p" or "al" assign none of the three. */
  lemma NotASetting(line: string, name: string)
    requires IsSetting(name) && line != [] && !IsSpace(line[0])
    requires LowerChar(line[0]) == 'l' || LowerChar(line[0]) == 'p' || IsAllowedIPs(line)
    ensures !Assigns(line, name)
  {
    var trimmed := TrimSpace(line);
    TrimKeepsStart(line, 0);
    assert trimmed[0] == line[0] && ToLower(trimmed)[0] == LowerChar(line[0]);
    if IsAllowedIPs(line) { AllowedIPsAssignsNothing(line, name); }
  }

  lemma AllowedIPsAssignsNothing(line: string, name: string)
    requires IsSetting(name) && IsAllowedIPs(line)
    ensures !Assigns(line, name)
  {
    var lower := ToLower(TrimSpace(line));
    assert TrimSpace(line)[0] == "AllowedIPs"[0] && TrimSpace(line)[1] == "AllowedIPs"[1];
    assert lower[0] == 'a' && lower[1] == 'l';
  }

  lemma {:induction false} RewriteKeepsSetting(lines: Lines, allowed: string, name: string)
    requires IsSetting(name)
    ensures Setting(WithAllowedIPs(lines, allowed), name) == Setting(lines, name)
  {
    if lines != [] {
      if IsAllowedIPs(lines[0]) {
        NewAllowedIPs(allowed);
        AllowedIPsAssignsNothing(lines[0], name);
        AllowedIPsAssignsNothing("AllowedIPs = " + allowed, name);
      }
      assert WithAllowedIPs(lines, allowed)[1..] == WithAllowedIPs(lines[1..], allowed);
      RewriteKeepsSetting(lines[1..], allowed, name);
    }
  }

  lemma HooksAssignNothing(name: string)
    requires IsSetting(name)
    ensures forall i :: 0 <= i < |HOOKS| ==> !Assigns(HOOKS[i], name)
  {
    HookAssignsNothing(HOOKS[0], name);
    HookAssignsNothing(HOOKS[1], name);
    EmptyAssignsNothing(name);
  }

  lemma HookAssignsNothing(line: string, name: string)
    requires IsSetting(name) && line != [] && line[0] == 'P'
    ensures !Assigns(line, name)
  {
    NotASetting(line, name);
  }

  lemma EmptyAssignsNothing(name: string)
    requires IsSetting(name)
    ensures !Assigns("", name)
  {
    assert TrimSpace("") == "";
  }

  /** Each of the three settings reads the same before and after. */
  lemma BuiltKeepsSetting(lines: Lines, mode: string, name: string)
    requires IsSetting(name)
    ensures Setting(Built(lines, mode), name) == Setting(lines, name)
  {
    var pinned := WithField(lines, "ListenPort", "51820");
    if pinned != lines {
      var line := FieldLine("ListenPort", "51820");
      assert line[0] == 'L';
      NotASetting(line, name);
      InsertKeepsSetting(lines, FirstMarked(lines, "[Interface]") + 1, [line], name);
    }
    RewriteKeepsSetting(pinned, "10.8.0.0/24", name);
    var rewritten := if mode == "dns-only" then WithAllowedIPs(pinned, "10.8.0.0/24") else pinned;
    HooksAssignNothing(name);
    InsertKeepsSetting(rewritten, FirstMarked(rewritten, "[Peer]"), HOOKS, name);
  }

  lemma InsertIsText(lines: Lines, p: nat, extra: Lines)
    requires IsText(lines) && p <= |lines| && forall i :: 0 <= i < |extra| ==> '\n' !in extra[i]
    ensures IsText(Insert(lines, p, extra))
  {
  }

  lemma HooksArePlain()
    ensures forall i :: 0 <= i < |HOOKS| ==> '\n' !in HOOKS[i]
  {
    assert '\n' !in "PostUp = /usr/local/bin/wg0-up.sh" && '\n' !in "PostDown = /usr/local/bin/wg0-down.sh"
        && '\n' !in "";
  }

  lemma HooksAreText(lines: Lines)
    requires IsText(lines)
    ensures IsText(WithHooks(lines))
  {
    var at := FirstMarked(lines, "[Peer]");
    HooksArePlain();
    if at < |lines| { InsertIsText(lines, at, HOOKS); }
  }

  /** The text written out is read back as the lines it was made of. */
  lemma BuiltReadBack(lines: Lines, mode: string)
    requires IsText(lines)
    ensures LinesOf(TextOf(Built(lines, mode))) == Built(lines, mode)
  {
    var pinned := WithField(lines, "ListenPort", "51820");
    WithFieldIsText(lines, "ListenPort", "51820");
    RewrittenIsText(pinned, "10.8.0.0/24");
    HooksAreText(AllowedIn(pinned, mode));
    SplitOfJoin(Built(lines, mode), '\n');
  }

  lemma SameSettings(a: Lines, b: Lines)
    requires forall name :: IsSetting(name) ==> Setting(a, name) == Setting(b, name)
    ensures Address(a) == Address(b) && DNS(a) == DNS(b) && Endpoint(a) == Endpoint(b)
  {
    assert IsSetting("address") && IsSetting("dns") && IsSetting("endpoint");
  }

  /** The parsers find the same address, server and endpoint in the text written out as in the user's. */
  lemma ParsedSettingsKept(config: string, mode: string)
    ensures var lines, built := LinesOf(config), LinesOf(TextOf(Built(LinesOf(config), mode)));
      Address(built) == Address(lines) && DNS(built) == DNS(lines) && Endpoint(built) == Endpoint(lines)
  {
    var lines := LinesOf(config);
    BuiltReadBack(lines, mode);
    forall name | IsSetting(name) { BuiltKeepsSetting(lines, mode, name); }
    SameSettings(Built(lines, mode), lines);
  }

  // ---------------------------------------------------------------- line by line what is written

  /** The line sets the key, a word of small letters here, in any case of letters. */
  ghost predicate Sets(line: string, word: string) {
    var t := TrimSpace(line);
    |t| > |word| && Spelt(t[..|word|], word) && (t[|word|] == ' ' || t[|word|] == '=')
  }

  predicate IsWord(word: string) {
    forall i :: 0 <= i < |word| ==> 'a' <= word[i] <= 'z'
  }

  lemma LowerPrefix(t: string, word: string, c: char)
    requires c == ' ' || c == '='
    ensures HasPrefix(ToLower(t), word + [c]) <==> |t| > |word| && ToLower(t[..|word|]) == word && t[|word|] == c
  {
    if |t| > |word| {
      assert ToLower(t)[..|word|] == ToLower(t[..|word|]);
      assert ToLower(t)[|word|] == c <==> t[|word|] == c;
      assert (word + [c])[..|word|] == word;
      assert ToLower(t)[..|word| + 1] == ToLower(t)[..|word|] + [ToLower(t)[|word|]];
    }
  }

  lemma SetsIff(line: string, key: string, word: string)
    requires IsWord(word) && ToLower(key) == word
    ensures IsField(line, key) <==> Sets(line, word)
  {
    var t := TrimSpace(line);
    LowerPrefix(t, word, ' ');
    LowerPrefix(t, word, '=');
    if |t| > |word| { SpeltIff(t[..|word|], word); }
  }

  /** No section starts at the lines from `lo` to `hi`. */
  predicate NoHeaders(lines: Lines, lo: int, hi: int) {
    forall k :: 0 <= lo <= k <= hi && k < |lines| ==> !IsHeader(lines[k])
  }

  /** Line `j` opens an [Interface] section that reaches line `i`. */
  predicate Reaches(lines: Lines, j: int, i: int) {
    0 <= j < i < |lines| && TrimSpace(lines[j]) == "[Interface]" && NoHeaders(lines, j + 1, i)
  }

  ghost predicate InSection(lines: Lines, inside: bool, i: int) {
    (inside && 0 <= i < |lines| && NoHeaders(lines, 0, i)) || exists j :: Reaches(lines, j, i)
  }

  lemma HeadersShift(lines: Lines, lo: int, hi: int)
    requires 0 <= lo && lines != []
    ensures NoHeaders(lines[1..], lo, hi) <==> NoHeaders(lines, lo + 1, hi + 1)
  {
    if NoHeaders(lines, lo + 1, hi + 1) {
      forall k | lo <= k <= hi && k < |lines[1..]| ensures !IsHeader(lines[1..][k]) {
        assert lines[1..][k] == lines[k + 1];
      }
    }
    if NoHeaders(lines[1..], lo, hi) {
      forall k | lo + 1 <= k <= hi + 1 && k < |lines| ensures !IsHeader(lines[k]) {
        assert lines[k] == lines[1..][k - 1];
      }
    }
  }

  /** A section is entered where it starts, or was entered before. */
  lemma SectionShift(lines: Lines, inside: bool, i: int)
    requires 0 < i < |lines|
    ensures InSection(lines, inside, i) <==> InSection(lines[1..], InInterface(inside, lines[0]), i - 1)
  {
    var rest, n := lines[1..], i - 1;
    HeadersShift(lines, 0, n);
    assert NoHeaders(lines, 0, i) <==> !IsHeader(lines[0]) && NoHeaders(lines, 1, i);
    if j :| Reaches(rest, j, n) {
      HeadersShift(lines, j + 1, n);
      assert Reaches(lines, j + 1, i);
    }
    if j :| Reaches(lines, j, i) {
      if j > 0 {
        HeadersShift(lines, j, n);
        assert Reaches(rest, j - 1, n);
      }
    }
    assert Reaches(lines, 0, i) <==> TrimSpace(lines[0]) == "[Interface]" && NoHeaders(lines, 1, i);
  }

  ghost predicate FieldAt(lines: Lines, inside: bool, key: string, i: int) {
    InSection(lines, inside, i) && 0 <= i < |lines| && IsField(lines[i], key)
  }

  lemma {:induction false} HasFieldIff(lines: Lines, inside: bool, key: string)
    ensures HasField(lines, inside, key) <==> exists i :: FieldAt(lines, inside, key, i)
  {
    if lines != [] {
      var rest, inside' := lines[1..], InInterface(inside, lines[0]);
      HasFieldIff(rest, inside', key);
      forall i ensures i > 0 ==> (FieldAt(lines, inside, key, i) <==> FieldAt(rest, inside', key, i - 1)) {
        if 0 < i < |lines| { SectionShift(lines, inside, i); }
      }
      if FieldAt(rest, inside', key, 0) || exists i :: FieldAt(rest, inside', key, i) {
        var i :| FieldAt(rest, inside', key, i);
        assert FieldAt(lines, inside, key, i + 1);
      }
      assert FieldAt(lines, inside, key, 0) <==> inside && !IsHeader(lines[0]) && IsField(lines[0], key);
    }
  }

  /** Line `p` is the first that reads `mark`. */
  predicate FirstReads(lines: Lines, mark: string, p: int) {
    0 <= p < |lines| && TrimSpace(lines[p]) == mark && forall k :: 0 <= k < p ==> TrimSpace(lines[k]) != mark
  }

  predicate NeverReads(lines: Lines, mark: string) {
    forall k :: 0 <= k < |lines| ==> TrimSpace(lines[k]) != mark
  }

  ghost predicate SetsPort(lines: Lines, i: int) {
    0 <= i < |lines| && Sets(lines[i], "listenport") && exists j :: Reaches(lines, j, i)
  }

  /** Unless the user has set the port, it stands right after the first [Interface] line. */
  ghost predicate PortPinned(lines: Lines, after: Lines) {
    && ((NeverReads(lines, "[Interface]") || exists i :: SetsPort(lines, i)) ==> after == lines)
    && (forall p :: FirstReads(lines, "[Interface]", p) && (forall i :: !SetsPort(lines, i)) ==>
          after == lines[..p + 1] + ["ListenPort = 51820"] + lines[p + 1..])
  }

  /** In dns-only mode the AllowedIPs lines are replaced. */
  predicate IPsNarrowed(mode: string, lines: Lines, after: Lines) {
    && |after| == |lines|
    && forall i :: 0 <= i < |lines| ==>
         after[i] == if mode == "dns-only" && "AllowedIPs" <= TrimSpace(lines[i]) then "AllowedIPs = 10.8.0.0/24"
                     else lines[i]
  }

  /** The hooks stand right before the first [Peer] line. */
  ghost predicate Hooked(lines: Lines, after: Lines) {
    && (NeverReads(lines, "[Peer]") ==> after == lines)
    && (forall p :: FirstReads(lines, "[Peer]", p) ==>
          after == lines[..p] + ["PostUp = /usr/local/bin/wg0-up.sh", "PostDown = /usr/local/bin/wg0-down.sh", ""]
                   + lines[p..])
  }

  lemma FirstIsMarked(lines: Lines, mark: string)
    ensures FirstMarked(lines, mark) == |lines| <==> NeverReads(lines, mark)
    ensures forall p :: FirstReads(lines, mark, p) <==> p == FirstMarked(lines, mark) < |lines|
  {
  }

  lemma PortIsWord()
    ensures IsWord("listenport") && ToLower("ListenPort") == "listenport"
  {
  }

  lemma PortSetIff(lines: Lines)
    ensures HasField(lines, false, "ListenPort") <==> exists i :: SetsPort(lines, i)
  {
    HasFieldIff(lines, false, "ListenPort");
    PortIsWord();
    forall i ensures FieldAt(lines, false, "ListenPort", i) <==> SetsPort(lines, i) {
      if 0 <= i < |lines| { SetsIff(lines[i], "ListenPort", "listenport"); }
    }
  }

  lemma PortLine()
    ensures FieldLine("ListenPort", "51820") == "ListenPort = 51820"
  {
  }

  lemma PinnedIs(lines: Lines)
    ensures PortPinned(lines, WithField(lines, "ListenPort", "51820"))
  {
    PortSetIff(lines);
    PortLine();
    FirstIsMarked(lines, "[Interface]");
  }

  lemma NarrowedIs(lines: Lines, mode: string)
    ensures IPsNarrowed(mode, lines, AllowedIn(lines, mode))
  {
  }

  lemma HookedIs(lines: Lines)
    ensures Hooked(lines, WithHooks(lines))
  {
    FirstIsMarked(lines, "[Peer]");
  }

  /** The configuration written is the user's with these three changes one after the other. */
  ghost predicate IsBuilt(lines: Lines, mode: string, out: Lines) {
    exists pinned, narrowed :: PortPinned(lines, pinned) && IPsNarrowed(mode, pinned, narrowed) && Hooked(narrowed, out)
  }

  lemma BuiltIs(lines: Lines, mode: string)
    ensures IsBuilt(lines, mode, Built(lines, mode))
  {
    var pinned := WithField(lines, "ListenPort", "51820");
    PinnedIs(lines);
    NarrowedIs(pinned, mode);
    HookedIs(AllowedIn(pinned, mode));
    assert Built(lines, mode) == WithHooks(AllowedIn(pinned, mode));
  }

  // ---------------------------------------------------------------- what the parsers find

  /** The line starts with the word, in any case of letters, and holds a "=" between these two parts. */
  ghost predicate Assigned(line: string, word: string, head: string, tail: string) {
    && TrimSpace(line) == head + "=" + tail && '=' !in head && |head| >= |word| && Spelt(head[..|word|], word)
  }

  lemma {:induction false} IndexOfFirst(head: string, c: char, tail: string)
    requires c !in head
    ensures IndexOf(head + [c] + tail, c) == |head|
  {
    var s := head + [c] + tail;
    if head != "" {
      assert s[0] == head[0] && s[1..] == head[1..] + [c] + tail;
      IndexOfFirst(head[1..], c, tail);
    }
  }

  lemma AssignsLower(line: string, word: string)
    requires IsWord(word)
    ensures Assigns(line, word) <==> exists head, tail :: Assigned(line, word, head, tail)
    ensures forall head, tail :: Assigned(line, word, head, tail) ==>
              IndexOf(TrimSpace(line), '=') == |head| && AssignedValue(line) == TrimSpace(tail)
  {
    var t := TrimSpace(line);
    forall head, tail | Assigned(line, word, head, tail)
      ensures IndexOf(t, '=') == |head| && |head| < |t| && AssignedValue(line) == TrimSpace(tail) && Assigns(line, word)
    {
      IndexOfFirst(head, '=', tail);
      assert t[|head| + 1..] == tail && t[..|word|] == head[..|word|];
      StartsLower(t, word);
    }
    if Assigns(line, word) {
      var i := IndexOf(t, '=');
      StartsLower(t, word);
      EqualsBehindWord(t, word, i);
      assert t == t[..i] + "=" + t[i + 1..] && t[..i][..|word|] == t[..|word|];
      assert Assigned(line, word, t[..i], t[i + 1..]);
    }
  }

  lemma StartsLower(t: string, word: string)
    requires IsWord(word)
    ensures HasPrefix(ToLower(t), word) <==> |t| >= |word| && Spelt(t[..|word|], word)
  {
    if |t| >= |word| {
      assert ToLower(t)[..|word|] == ToLower(t[..|word|]);
      SpeltIff(t[..|word|], word);
    }
  }

  lemma EqualsBehindWord(t: string, word: string, i: nat)
    requires IsWord(word) && |t| >= |word| && Spelt(t[..|word|], word) && i < |t| && t[i] == '='
    ensures i >= |word|
  {
    forall k | 0 <= k < |word| ensures t[k] != '=' { assert SameLetter(t[..|word|][k], word[k]); }
  }

  /** The first line that assigns the setting gives its value, trimmed; without one there is none. */
  lemma {:induction false} SettingIs(lines: Lines, word: string, i: nat, head: string, tail: string)
    requires IsWord(word) && i < |lines| && Assigned(lines[i], word, head, tail)
    requires forall j, h, t :: 0 <= j < i ==> !Assigned(lines[j], word, h, t)
    ensures Setting(lines, word) == Some(TrimSpace(tail))
  {
    AssignsLower(lines[0], word);
    if i > 0 {
      forall j, h, t | 0 <= j < i - 1 ensures !Assigned(lines[1..][j], word, h, t) {
        assert lines[1..][j] == lines[j + 1];
      }
      SettingIs(lines[1..], word, i - 1, head, tail);
    }
  }

  /** An address loses its prefix length, and a list of servers all but the first. */
  lemma AddressAndDNS(lines: Lines, first: string, others: string)
    requires first != ""
    ensures '/' !in first && Setting(lines, "address") in {Some(first), Some(first + "/" + others)} ==>
              Address(lines) == first
    ensures ',' !in first && Setting(lines, "dns") == Some(first) ==> DNS(lines) == first
    ensures ',' !in first && Setting(lines, "dns") == Some(first + "," + others) ==> DNS(lines) == TrimSpace(first)
    ensures Setting(lines, "address") == None ==> Address(lines) == ""
    ensures Setting(lines, "dns") == None ==> DNS(lines) == ""
  {
    if '/' !in first { IndexOfFirst(first, '/', others); }
    if ',' !in first { IndexOfFirst(first, ',', others); }
    assert (first + "/" + others)[..|first|] == first && (first + "," + others)[..|first|] == first;
  }

  lemma {:induction false} LastIndexOfLast(head: string, c: char, tail: string)
    requires c !in tail
    ensures LastIndexOf(head + [c] + tail, c) == |head|
  {
    var s := head + [c] + tail;
    if tail != "" {
      assert s[..|s| - 1] == head + [c] + tail[..|tail| - 1];
      LastIndexOfLast(head, c, tail[..|tail| - 1]);
    }
  }

  lemma {:induction false} NoLastIndex(s: string, c: char)
    requires c !in s
    ensures LastIndexOf(s, c) == -1
  {
    if s != "" { NoLastIndex(s[..|s| - 1], c); }
  }

  /** An endpoint is split at its last colon, and without one has the usual port. */
  lemma EndpointParts(lines: Lines, host: string, port: string)
    requires host != "" && ':' !in port
    ensures Setting(lines, "endpoint") == Some(host + ":" + port) ==> Endpoint(lines) == (host, port)
    ensures ':' !in host && Setting(lines, "endpoint") == Some(host) ==> Endpoint(lines) == (host, "51820")
    ensures Setting(lines, "endpoint") == None ==> Endpoint(lines) == ("", "")
  {
    LastIndexOfLast(host, ':', port);
    if ':' !in host { NoLastIndex(host, ':'); }
    assert (host + ":" + port)[..|host|] == host && (host + ":" + port)[|host| + 1..] == port;
  }
}
