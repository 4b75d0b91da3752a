/**
 * Replacing placeholders in a text one after the other, as a loop over a Go map does
 * (pkg/nginx/builder.go): when the order does not matter, and exactly when.
 */
module Substitution {
  import opened Text

  /** strings.ReplaceAll for a non-empty pattern: leftmost occurrences that do not overlap. */
  function ReplaceAll(s: string, pattern: string, new_: string): string
    requires pattern != []
  {
    if s == [] then []
    else if pattern <= s then new_ + ReplaceAll(s[|pattern|..], pattern, new_)
    else [s[0]] + ReplaceAll(s[1..], pattern, new_)
  }

  // ---------------------------------------------------------------- templates

  const OPEN := "{{"

  /** "{{NAME}}" with no brace in the name. */
  predicate IsPlaceholder(k: string) {
    && |k| >= 4 && OPEN <= k && k[|k| - 2..] == "}}"
    && (forall i :: 2 <= i < |k| ==> k[i] != '{')
    && (forall i :: 0 <= i < |k| - 2 ==> k[i] != '}')
  }

  ghost predicate OpensKey(s: string, keys: set<string>) {
    exists k :: k in keys && k <= s
  }

  /** Every "{{" opens a placeholder of the set. */
  ghost predicate AllOpensKnown(s: string, keys: set<string>) {
    forall i :: 0 <= i <= |s| && OPEN <= s[i..] ==> OpensKey(s[i..], keys)
  }

  lemma SuffixKnown(s: string, n: nat, keys: set<string>)
    requires n <= |s| && AllOpensKnown(s, keys)
    ensures AllOpensKnown(s[n..], keys)
  {
    forall i | 0 <= i <= |s| - n && OPEN <= s[n..][i..] ensures OpensKey(s[n..][i..], keys) {
      assert s[n..][i..] == s[n + i..];
    }
  }

  lemma NotProperPrefix(k: string, k': string)
    requires IsPlaceholder(k) && IsPlaceholder(k') && |k| < |k'|
    ensures !(k <= k')
  {
    assert k[|k| - 2] == k[|k| - 2..][0] == '}';
    assert k'[|k| - 2] != '}';
  }

  /** Two placeholders that start at the same place are the same. */
  lemma PlaceholderUnique(k: string, k': string, s: string)
    requires IsPlaceholder(k) && IsPlaceholder(k') && k <= s && k' <= s
    ensures k == k'
  {
    if |k| < |k'| { NotProperPrefix(k, k'); }
    if |k'| < |k| { NotProperPrefix(k', k); }
  }

  /** All placeholders replaced at once, in one pass from the left. */
  ghost function Simultaneous(s: string, rep: map<string, string>): string
    requires forall k :: k in rep ==> IsPlaceholder(k)
    decreases |s|
  {
    if s == [] then []
    else if OpensKey(s, rep.Keys) then
      var k :| k in rep.Keys && k <= s;
      rep[k] + Simultaneous(s[|k|..], rep)
    else [s[0]] + Simultaneous(s[1..], rep)
  }

  lemma SimultaneousAt(k: string, t: string, rep: map<string, string>)
    requires forall k :: k in rep ==> IsPlaceholder(k)
    requires k in rep
    ensures Simultaneous(k + t, rep) == rep[k] + Simultaneous(t, rep)
  {
    var s := k + t;
    assert k in rep.Keys && k <= s;
    assert OpensKey(s, rep.Keys);
    forall k' | k' in rep.Keys && k' <= s ensures k' == k { PlaceholderUnique(k, k', s); }
    assert s[|k|..] == t;
  }

  /** Where no "{{" starts, the substitution keeps the character. */
  lemma SimultaneousLiteral(s: string, rep: map<string, string>)
    requires forall k :: k in rep ==> IsPlaceholder(k)
    requires s != [] && !(OPEN <= s)
    ensures Simultaneous(s, rep) == [s[0]] + Simultaneous(s[1..], rep)
  {
    assert forall k :: k in rep.Keys && k <= s ==> OPEN <= k <= s;
  }

  /** Text without "{" stays as it is. */
  lemma {:induction false} SimultaneousAfter(before: string, t: string, rep: map<string, string>)
    requires forall k :: k in rep ==> IsPlaceholder(k)
    requires '{' !in before
    ensures Simultaneous(before + t, rep) == before + Simultaneous(t, rep)
  {
    if before == "" {
      assert before + t == t;
    } else {
      assert (before + t)[0] == before[0] && (before + t)[1..] == before[1..] + t;
      SimultaneousLiteral(before + t, rep);
      SimultaneousAfter(before[1..], t, rep);
    }
  }

  // ---------------------------------------------------------------- in some order

  /** The loop: one ReplaceAll per placeholder, in this order. */
  function InOrder(s: string, rep: map<string, string>, order: seq<string>): string
    requires forall k :: k in rep ==> IsPlaceholder(k)
    requires forall k :: k in order ==> k in rep
    decreases |order|
  {
    if order == [] then s
    else
      assert order[0] in order && IsPlaceholder(order[0]);
      InOrder(ReplaceAll(s, order[0], rep[order[0]]), rep, order[1..])
  }

  predicate NoRepeats(order: seq<string>) {
    forall i, j :: 0 <= i < j < |order| ==> order[i] != order[j]
  }

  /** Each key once. */
  ghost predicate IsOrder(order: seq<string>, keys: set<string>) {
    NoRepeats(order) && forall k :: k in order <==> k in keys
  }

  lemma {:induction false} InOrderConcat(s: string, rep: map<string, string>, first: seq<string>, others: seq<string>)
    requires forall k :: k in rep ==> IsPlaceholder(k)
    requires forall k :: k in first + others ==> k in rep
    ensures forall k :: k in first || k in others ==> k in rep
    ensures InOrder(s, rep, first + others) == InOrder(InOrder(s, rep, first), rep, others)
    decreases |first|
  {
    assert forall k :: k in first || k in others ==> k in first + others;
    if first == [] {
      assert first + others == others;
    } else {
      assert (first + others)[1..] == first[1..] + others && first[0] in first + others;
      InOrderConcat(ReplaceAll(s, first[0], rep[first[0]]), rep, first[1..], others);
    }
  }

  // ---------------------------------------------------------------- templates as tokens

  datatype Token = Lit(c: char) | Hole(k: string)

  /** The text of a template once the placeholders in `filled` have been replaced. */
  function TokenText(t: Token, rep: map<string, string>, filled: set<string>): string {
    match t
    case Lit(c) => [c]
    case Hole(k) => if k in filled && k in rep then rep[k] else k
  }

  function TextOf(ts: seq<Token>, rep: map<string, string>, filled: set<string>): string {
    if ts == [] then "" else TokenText(ts[0], rep, filled) + TextOf(ts[1..], rep, filled)
  }

  /** Holes are known, and a "{" outside them is followed by another character outside them. */
  predicate Tokens(ts: seq<Token>, keys: set<string>) {
    ts != [] ==>
      && Tokens(ts[1..], keys)
      && match ts[0]
         case Hole(k) => k in keys
         case Lit(c) => c == '{' && |ts| > 1 ==> ts[1].Lit? && ts[1].c != '{'
  }

  /** A template in which every "{{" opens a known placeholder is a sequence of such tokens. */
  lemma {:induction false} Tokenize(s: string, rep: map<string, string>) returns (ts: seq<Token>)
    requires forall k :: k in rep ==> IsPlaceholder(k)
    requires AllOpensKnown(s, rep.Keys)
    ensures Tokens(ts, rep.Keys) && TextOf(ts, rep, {}) == s && TextOf(ts, rep, rep.Keys) == Simultaneous(s, rep)
    ensures ts != [] && ts[0].Lit? ==> s != "" && s[0] == ts[0].c && !(OPEN <= s)
    ensures ts != [] && ts[0].Hole? ==> OPEN <= s
    decreases |s|
  {
    if s == "" { return []; }
    assert s[0..] == s;
    if OPEN <= s {
      var k :| k in rep.Keys && k <= s;
      SuffixKnown(s, |k|, rep.Keys);
      var others := Tokenize(s[|k|..], rep);
      ts := TokenizeHole(s, rep, k, others);
    } else {
      SuffixKnown(s, 1, rep.Keys);
      var others := Tokenize(s[1..], rep);
      ts := TokenizeLit(s, rep, others);
    }
  }

  lemma TokenizeHole(s: string, rep: map<string, string>, k: string, others: seq<Token>) returns (ts: seq<Token>)
    requires forall k :: k in rep ==> IsPlaceholder(k)
    requires k in rep && k <= s && Tokens(others, rep.Keys) && TextOf(others, rep, {}) == s[|k|..]
    requires TextOf(others, rep, rep.Keys) == Simultaneous(s[|k|..], rep)
    ensures ts == [Hole(k)] + others && Tokens(ts, rep.Keys) && TextOf(ts, rep, {}) == s
    ensures TextOf(ts, rep, rep.Keys) == Simultaneous(s, rep)
  {
    SimultaneousAt(k, s[|k|..], rep);
    assert s == k + s[|k|..];
    ts := [Hole(k)] + others;
    assert ts[1..] == others;
  }

  lemma TokenizeLit(s: string, rep: map<string, string>, others: seq<Token>) returns (ts: seq<Token>)
    requires forall k :: k in rep ==> IsPlaceholder(k)
    requires s != "" && !(OPEN <= s) && Tokens(others, rep.Keys) && TextOf(others, rep, {}) == s[1..]
    requires TextOf(others, rep, rep.Keys) == Simultaneous(s[1..], rep)
    requires s[0] == '{' && others != [] ==> others[0].Lit? && others[0].c != '{'
    ensures ts == [Lit(s[0])] + others && Tokens(ts, rep.Keys) && TextOf(ts, rep, {}) == s
    ensures TextOf(ts, rep, rep.Keys) == Simultaneous(s, rep)
  {
    SimultaneousLiteral(s, rep);
    ts := [Lit(s[0])] + others;
    assert ts[1..] == others && s == [s[0]] + s[1..];
  }

  // ---------------------------------------------------------------- one replacement

  predicate StartsAt(p: string, s: string, j: nat) {
    j <= |s| && p <= s[j..]
  }

  /** Text in which the pattern does not start is left alone, whatever follows. */
  lemma {:induction false} ReplaceSkips(a: string, t: string, p: string, v: string)
    requires p != [] && forall j :: 0 <= j < |a| ==> !StartsAt(p, a + t, j)
    ensures ReplaceAll(a + t, p, v) == a + ReplaceAll(t, p, v)
    decreases |a|
  {
    if a == [] {
      assert a + t == t;
    } else {
      assert !StartsAt(p, a + t, 0) && (a + t)[0..] == a + t && (a + t)[1..] == a[1..] + t;
      forall j | 0 <= j < |a[1..]| ensures !StartsAt(p, a[1..] + t, j) {
        assert !StartsAt(p, a + t, j + 1) && (a + t)[j + 1..] == (a[1..] + t)[j..];
      }
      ReplaceSkips(a[1..], t, p, v);
      assert a == [a[0]] + a[1..];
    }
  }

  /** In a placeholder no other one starts. */
  lemma NoneStartsInHole(k: string, t: string, p: string, j: nat)
    requires IsPlaceholder(k) && IsPlaceholder(p) && k != p && j < |k|
    ensures !StartsAt(p, k + t, j)
  {
    var s := k + t;
    assert s[0..] == s && s[j] == k[j] && s[2] == k[2];
    if j == 0 && p <= s { PlaceholderUnique(k, p, s); }
    StartsWithOpen(p, s, j);
  }

  lemma StartsWithOpen(p: string, s: string, j: nat)
    requires OPEN <= p
    ensures StartsAt(p, s, j) ==> j + 1 < |s| && s[j] == '{' && s[j + 1] == '{'
  {
    assert StartsAt(p, s, j) ==> OPEN <= s[j..] && s[j..][0] == s[j] && s[j..][1] == s[j + 1];
  }

  lemma PrefixOfConcat(p: string, w: string, t: string)
    requires p <= w + t
    ensures p <= w || w <= p
  {
    assert forall i :: 0 <= i < |p| && i < |w| ==> p[i] == w[i];
  }

  /** A value that neither holds the placeholder nor ends in the beginning of it. */
  predicate Harmless(v: string, p: string) {
    forall j :: 0 <= j < |v| ==> !(p <= v[j..]) && !(v[j..] <= p)
  }

  lemma NoneStartsInValue(v: string, t: string, p: string, j: nat)
    requires Harmless(v, p) && j < |v|
    ensures !StartsAt(p, v + t, j)
  {
    assert (v + t)[j..] == v[j..] + t;
    if p <= v[j..] + t { PrefixOfConcat(p, v[j..], t); }
  }

  /** No value can form, with the text around it, a placeholder that is replaced by something else. */
  ghost predicate Calm(rep: map<string, string>) {
    forall k, k' :: k in rep && k' in rep && k != k' && rep[k'] != k' ==> Harmless(rep[k], k')
  }

  lemma FirstChar(ts: seq<Token>, rep: map<string, string>, filled: set<string>)
    requires ts != [] && ts[0].Lit?
    ensures TextOf(ts, rep, filled)[0] == ts[0].c
  {
  }

  lemma NoneStartsInToken(ts: seq<Token>, rep: map<string, string>, filled: set<string>, p: string, j: nat)
    requires forall k :: k in rep ==> IsPlaceholder(k)
    requires Calm(rep) && p in rep && p !in filled && rep[p] != p && filled <= rep.Keys
    requires ts != [] && Tokens(ts, rep.Keys) && ts[0] != Hole(p) && j < |TokenText(ts[0], rep, filled)|
    ensures !StartsAt(p, TokenText(ts[0], rep, filled) + TextOf(ts[1..], rep, filled), j)
  {
    var t := TextOf(ts[1..], rep, filled);
    match ts[0]
    case Hole(k) =>
      if k in filled { NoneStartsInValue(rep[k], t, p, j); } else { NoneStartsInHole(k, t, p, j); }
    case Lit(c) =>
      StartsWithOpen(p, [c] + t, 0);
      if c == '{' && |ts| > 1 { FirstChar(ts[1..], rep, filled); }
  }

  /** One step of the loop fills exactly the holes of its placeholder. */
  lemma {:induction false} ReplaceFills(ts: seq<Token>, rep: map<string, string>, filled: set<string>, p: string)
    requires forall k :: k in rep ==> IsPlaceholder(k)
    requires Calm(rep) && p in rep && IsPlaceholder(p) && p !in filled && rep[p] != p && filled <= rep.Keys
             && Tokens(ts, rep.Keys)
    ensures ReplaceAll(TextOf(ts, rep, filled), p, rep[p]) == TextOf(ts, rep, filled + {p})
    decreases |ts|
  {
    if ts != [] {
      ReplaceFills(ts[1..], rep, filled, p);
      if ts[0] == Hole(p) {
        ReplaceFirst(p, TextOf(ts[1..], rep, filled), rep[p]);
      } else {
        ReplaceSkipsToken(ts, rep, filled, p);
        assert TokenText(ts[0], rep, filled + {p}) == TokenText(ts[0], rep, filled);
      }
    }
  }

  lemma ReplaceSkipsToken(ts: seq<Token>, rep: map<string, string>, filled: set<string>, p: string)
    requires forall k :: k in rep ==> IsPlaceholder(k)
    requires Calm(rep) && p in rep && IsPlaceholder(p) && p !in filled && rep[p] != p && filled <= rep.Keys
    requires ts != [] && Tokens(ts, rep.Keys) && ts[0] != Hole(p)
    ensures var a, t := TokenText(ts[0], rep, filled), TextOf(ts[1..], rep, filled);
      ReplaceAll(a + t, p, rep[p]) == a + ReplaceAll(t, p, rep[p])
  {
    var a, t := TokenText(ts[0], rep, filled), TextOf(ts[1..], rep, filled);
    forall j | 0 <= j < |a| { NoneStartsInToken(ts, rep, filled, p, j); }
    ReplaceSkips(a, t, p, rep[p]);
  }

  lemma ReplaceFirst(p: string, t: string, v: string)
    requires p != []
    ensures ReplaceAll(p + t, p, v) == v + ReplaceAll(t, p, v)
  {
    assert p <= p + t && (p + t)[|p|..] == t;
  }

  /** A placeholder that stands for itself changes nothing. */
  lemma {:induction false} ReplaceSame(s: string, p: string)
    requires p != []
    ensures ReplaceAll(s, p, p) == s
    decreases |s|
  {
    if s != [] {
      if p <= s {
        ReplaceSame(s[|p|..], p);
        assert p + s[|p|..] == s;
      } else {
        ReplaceSame(s[1..], p);
        assert [s[0]] + s[1..] == s;
      }
    }
  }

  lemma {:induction false} FillSame(ts: seq<Token>, rep: map<string, string>, filled: set<string>, p: string)
    requires p in rep && rep[p] == p
    ensures TextOf(ts, rep, filled + {p}) == TextOf(ts, rep, filled)
    decreases |ts|
  {
    if ts != [] {
      FillSame(ts[1..], rep, filled, p);
      assert TokenText(ts[0], rep, filled + {p}) == TokenText(ts[0], rep, filled);
    }
  }

  lemma FillOne(ts: seq<Token>, rep: map<string, string>, filled: set<string>, p: string)
    requires forall k :: k in rep ==> IsPlaceholder(k)
    requires Calm(rep) && p in rep && IsPlaceholder(p) && p !in filled && filled <= rep.Keys && Tokens(ts, rep.Keys)
    ensures ReplaceAll(TextOf(ts, rep, filled), p, rep[p]) == TextOf(ts, rep, filled + {p})
  {
    if rep[p] == p {
      ReplaceSame(TextOf(ts, rep, filled), p);
      FillSame(ts, rep, filled, p);
    } else {
      ReplaceFills(ts, rep, filled, p);
    }
  }

  lemma {:induction false} OrderFills(ts: seq<Token>, rep: map<string, string>, filled: set<string>, order: seq<string>)
    requires forall k :: k in rep ==> IsPlaceholder(k)
    requires Calm(rep) && filled <= rep.Keys && Tokens(ts, rep.Keys) && NoRepeats(order)
    requires forall k :: k in order ==> k in rep && k !in filled
    ensures InOrder(TextOf(ts, rep, filled), rep, order) == TextOf(ts, rep, filled + set k | k in order)
    decreases |order|
  {
    if order == [] {
      assert filled + (set k | k in order) == filled;
    } else {
      var p := order[0];
      assert p in order && p !in order[1..];
      FillOne(ts, rep, filled, p);
      OrderFills(ts, rep, filled + {p}, order[1..]);
      assert order == [p] + order[1..];
      assert filled + {p} + (set k | k in order[1..]) == filled + set k | k in order;
    }
  }

  /** With calm values every order gives the simultaneous substitution. */
  lemma CalmIsOrderFree(s: string, rep: map<string, string>, order: seq<string>)
    requires forall k :: k in rep ==> IsPlaceholder(k)
    requires Calm(rep) && AllOpensKnown(s, rep.Keys) && IsOrder(order, rep.Keys)
    ensures InOrder(s, rep, order) == Simultaneous(s, rep)
  {
    var ts := Tokenize(s, rep);
    OrderFills(ts, rep, {}, order);
    assert {} + (set k | k in order) == rep.Keys;
  }

  // ---------------------------------------------------------------- the order shows

  lemma {:induction false} ReplaceLength(s: string, p: string, v: string)
    requires p != []
    ensures |v| >= |p| ==> |ReplaceAll(s, p, v)| >= |s|
    ensures |v| <= |p| ==> |ReplaceAll(s, p, v)| <= |s|
    decreases |s|
  {
    if s != [] {
      ReplaceLength(if p <= s then s[|p|..] else s[1..], p, v);
    }
  }

  /** Replacing something by something else changes the text. */
  lemma {:induction false} ReplaceChanges(s: string, p: string, v: string, j: nat)
    requires p != [] && v != p && StartsAt(p, s, j)
    ensures ReplaceAll(s, p, v) != s
    decreases |s|
  {
    if p <= s {
      var t := s[|p|..];
      ReplaceLength(t, p, v);
      assert s == p + t;
      assert (v + ReplaceAll(t, p, v))[..|v|] == v && s[..|p|] == p;
    } else {
      assert s[0..] == s && s[j..] == s[1..][j - 1..];
      ReplaceChanges(s[1..], p, v, j - 1);
      assert ([s[0]] + ReplaceAll(s[1..], p, v))[1..] == ReplaceAll(s[1..], p, v);
    }
  }

  /** A text in which no "{{" starts. */
  predicate NoOpen(s: string) {
    forall i :: 0 <= i < |s| - 1 ==> !(s[i] == '{' && s[i + 1] == '{')
  }

  /** What follows in a placeholder after its first character, or later. */
  lemma RestHasNoOpen(k: string, n: nat)
    requires IsPlaceholder(k) && 1 <= n <= |k|
    ensures NoOpen(k[n..])
  {
    var r := k[n..];
    forall i | 0 <= i < |r| - 1 ensures !(r[i] == '{' && r[i + 1] == '{') {
      assert r[i + 1] == k[n + i + 1];
    }
  }

  lemma {:induction false} NoOpenSame(s: string, rep: map<string, string>)
    requires forall k :: k in rep ==> IsPlaceholder(k)
    requires NoOpen(s)
    ensures Simultaneous(s, rep) == s
    decreases |s|
  {
    if s != [] {
      StartsWithOpen(OPEN, s, 0);
      assert s[0..] == s && !(OPEN <= s);
      SimultaneousLiteral(s, rep);
      NoOpenTail(s);
      NoOpenSame(s[1..], rep);
      assert s == [s[0]] + s[1..];
    }
  }

  lemma NoOpenTail(s: string)
    requires NoOpen(s) && s != []
    ensures NoOpen(s[1..])
  {
    forall i | 0 <= i < |s[1..]| - 1 ensures !(s[1..][i] == '{' && s[1..][i + 1] == '{') {
      assert !(s[i + 1] == '{' && s[i + 1 + 1] == '{');
    }
  }

  lemma NoneStartsInPlain(r: string, p: string, j: nat)
    requires NoOpen(r) && IsPlaceholder(p)
    ensures !StartsAt(p, r, j)
  {
    StartsWithOpen(p, r, j);
  }

  lemma ReplacePlain(r: string, p: string, v: string)
    requires NoOpen(r) && IsPlaceholder(p)
    ensures ReplaceAll(r, p, v) == r
  {
    assert r + "" == r;
    forall j | 0 <= j < |r| { NoneStartsInPlain(r, p, j); }
    ReplaceSkips(r, "", p, v);
  }

  /** A template of one placeholder and some plain text. */
  lemma OneHole(k: string, r: string, keys: set<string>)
    requires IsPlaceholder(k) && k in keys && NoOpen(r)
    ensures AllOpensKnown(k + r, keys)
  {
    var s := k + r;
    forall i | 0 <= i <= |s| && OPEN <= s[i..] ensures OpensKey(s[i..], keys) {
      if i > 0 { OpensOnlyOnce(k, r, i); }
      assert s[0..] == s && k <= s;
    }
  }

  lemma OpensOnlyOnce(k: string, r: string, i: nat)
    requires IsPlaceholder(k) && NoOpen(r) && i > 0
    ensures !StartsAt(OPEN, k + r, i)
  {
    var s := k + r;
    StartsWithOpen(OPEN, s, i);
    assert k[|k| - 1] == k[|k| - 2..][1] == '}';
    assert i < |k| ==> s[i] == k[i];
    assert i + 1 < |k| ==> s[i + 1] == k[i + 1];
    assert i >= |k| && i + 1 < |s| ==> s[i] == r[i - |k|] && s[i + 1] == r[i - |k| + 1];
  }

  lemma ReplaceOther(k: string, r: string, p: string, v: string)
    requires IsPlaceholder(k) && IsPlaceholder(p) && k != p && NoOpen(r)
    ensures ReplaceAll(k + r, p, v) == k + r
  {
    forall j | 0 <= j < |k| { NoneStartsInHole(k, r, p, j); }
    ReplaceSkips(k, r, p, v);
    ReplacePlain(r, p, v);
  }

  lemma {:induction false} OthersLeaveIt(k: string, r: string, rep: map<string, string>, order: seq<string>)
    requires forall k :: k in rep ==> IsPlaceholder(k)
    requires k in rep && NoOpen(r) && forall p :: p in order ==> p in rep && p != k
    ensures InOrder(k + r, rep, order) == k + r
    decreases |order|
  {
    if order != [] {
      assert order[0] in order;
      ReplaceOther(k, r, order[0], rep[order[0]]);
      OthersLeaveIt(k, r, rep, order[1..]);
    }
  }

  lemma {:induction false} OrderExists(keys: set<string>) returns (order: seq<string>)
    ensures IsOrder(order, keys)
  {
    if keys == {} { return []; }
    var k :| k in keys;
    var others := OrderExists(keys - {k});
    order := [k] + others;
  }

  /** The orders that put the two placeholders last, in either sequence. */
  lemma LastTwo(keys: set<string>, k: string, k': string) returns (others: seq<string>)
    requires k in keys && k' in keys && k != k'
    ensures IsOrder(others + [k, k'], keys) && IsOrder(others + [k', k], keys)
    ensures forall p :: p in others ==> p in keys && p != k && p != k'
  {
    others := OrderExists(keys - {k, k'});
  }

  /** Filling the placeholder of such a template. */
  lemma FillsHole(k: string, r: string, rep: map<string, string>)
    requires forall k :: k in rep ==> IsPlaceholder(k)
    requires k in rep && IsPlaceholder(k) && NoOpen(r)
    ensures ReplaceAll(k + r, k, rep[k]) == rep[k] + r == Simultaneous(k + r, rep)
  {
    ReplaceFirst(k, r, rep[k]);
    ReplacePlain(r, k, rep[k]);
    SimultaneousAt(k, r, rep);
    NoOpenSame(r, rep);
  }

  lemma TwoOrders(k: string, r: string, k': string, j: nat, rep: map<string, string>)
      returns (early: seq<string>, late: seq<string>)
    requires forall k :: k in rep ==> IsPlaceholder(k)
    requires k in rep && k' in rep && k != k' && rep[k'] != k' && NoOpen(r) && StartsAt(k', rep[k] + r, j)
    ensures IsOrder(early, rep.Keys) && IsOrder(late, rep.Keys)
    ensures InOrder(k + r, rep, early) != Simultaneous(k + r, rep) == InOrder(k + r, rep, late)
  {
    var others := LastTwo(rep.Keys, k, k');
    early, late := others + [k, k'], others + [k', k];
    FillsHole(k, r, rep);
    ReplaceOther(k, r, k', rep[k']);
    OthersLeaveIt(k, r, rep, others);
    InOrderConcat(k + r, rep, others, [k, k']);
    InOrderConcat(k + r, rep, others, [k', k]);
    ReplaceChanges(rep[k] + r, k', rep[k'], j);
    InOrderTwo(k + r, rep, k, k');
    InOrderTwo(k + r, rep, k', k);
  }

  lemma InOrderOne(s: string, rep: map<string, string>, k: string)
    requires forall k :: k in rep ==> IsPlaceholder(k)
    requires k in rep && IsPlaceholder(k)
    ensures InOrder(s, rep, [k]) == ReplaceAll(s, k, rep[k])
  {
    assert [k][1..] == [];
  }

  lemma InOrderTwo(s: string, rep: map<string, string>, k: string, k': string)
    requires forall k :: k in rep ==> IsPlaceholder(k)
    requires k in rep && IsPlaceholder(k) && k' in rep && IsPlaceholder(k')
    ensures InOrder(s, rep, [k, k']) == ReplaceAll(ReplaceAll(s, k, rep[k]), k', rep[k'])
  {
    assert [k, k'] == [k] + [k'];
    InOrderConcat(s, rep, [k], [k']);
    InOrderOne(s, rep, k);
    InOrderOne(ReplaceAll(s, k, rep[k]), rep, k');
  }

  /** Without calm some template has two orders with different results. */
  lemma OrderShows(rep: map<string, string>) returns (s: string, early: seq<string>, late: seq<string>)
    requires forall k :: k in rep ==> IsPlaceholder(k)
    requires !Calm(rep)
    ensures AllOpensKnown(s, rep.Keys) && IsOrder(early, rep.Keys) && IsOrder(late, rep.Keys)
    ensures InOrder(s, rep, early) != Simultaneous(s, rep) == InOrder(s, rep, late)
  {
    var k, k' :| k in rep && k' in rep && k != k' && rep[k'] != k' && !Harmless(rep[k], k');
    var j: nat :| j < |rep[k]| && (k' <= rep[k][j..] || rep[k][j..] <= k');
    var r := if k' <= rep[k][j..] then "" else k'[|rep[k]| - j..];
    if r != "" { RestHasNoOpen(k', |rep[k]| - j); }
    assert (rep[k] + r)[j..] == rep[k][j..] + r;
    s := k + r;
    OneHole(k, r, rep.Keys);
    early, late := TwoOrders(k, r, k', j, rep);
  }

  /** Every template, every order: always the simultaneous substitution. */
  ghost predicate OrderFree(rep: map<string, string>)
    requires forall k :: k in rep ==> IsPlaceholder(k)
  {
    forall s, order :: AllOpensKnown(s, rep.Keys) && IsOrder(order, rep.Keys) ==>
        InOrder(s, rep, order) == Simultaneous(s, rep)
  }

  lemma OrderFreeIff(rep: map<string, string>)
    requires forall k :: k in rep ==> IsPlaceholder(k)
    ensures OrderFree(rep) <==> Calm(rep)
  {
    if Calm(rep) {
      forall s, order | AllOpensKnown(s, rep.Keys) && IsOrder(order, rep.Keys) { CalmIsOrderFree(s, rep, order); }
    } else {
      var s, early, late := OrderShows(rep);
    }
  }
}
