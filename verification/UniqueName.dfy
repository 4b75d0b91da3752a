/**
 * The search for a free file name (generateUniqueName in internal/files/util.go).
 * Paths are absolute and clean, as the only caller passes them.
 */
module UniqueName {
  import opened Text

  /** The position just after the last separator; 0 when there is none. */
  function AfterLast(s: string, sep: char): (i: nat)
    ensures i <= |s|
  {
    if s == "" then 0 else if s[|s| - 1] == sep then |s| else AfterLast(s[..|s| - 1], sep)
  }

  /** Everything up to the last "/" (filepath.Dir, with the separator kept). */
  function Dir(path: string): string {
    path[..AfterLast(path, '/')]
  }

  /** The last element of the path; empty for the root. */
  function Base(path: string): string {
    path[AfterLast(path, '/')..]
  }

  /** Where the extension of a name starts: at its last ".", or at its end. */
  function ExtStart(name: string): (i: nat)
    ensures i <= |name|
  {
    if AfterLast(name, '.') == 0 then |name| else AfterLast(name, '.') - 1
  }

  function Ext(name: string): string {
    name[ExtStart(name)..]
  }

  function Stem(name: string): string {
    name[..ExtStart(name)]
  }

  /** The name with a number put before its extension. */
  function Numbered(name: string, i: nat): string {
    Stem(name) + Number(i) + Ext(name)
  }

  function Number(i: nat): string {
    " (" + Decimal(i) + ")"
  }

  function Candidate(path: string, i: nat): string {
    Dir(path) + Numbered(Base(path), i)
  }

  // ---------------------------------------------------------------- what a candidate shares with the path

  lemma {:induction false} AfterLastFacts(s: string, sep: char)
    ensures var i := AfterLast(s, sep); sep !in s[i..] && (i > 0 ==> s[i - 1] == sep)
  {
    if s != "" && s[|s| - 1] != sep {
      var init, i := s[..|s| - 1], AfterLast(s, sep);
      AfterLastFacts(init, sep);
      assert s[i..] == init[i..] + [s[|s| - 1]];
    }
  }

  /** A separator followed by text without one is the last. */
  lemma {:induction false} AfterLastOfJoin(s: string, t: string, sep: char)
    requires sep !in t
    ensures AfterLast(s + t, sep) == AfterLast(s, sep)
  {
    if t == "" {
      assert s + t == s;
    } else {
      var init, last := t[..|t| - 1], t[|t| - 1];
      assert last in t;
      assert (s + t)[..|s + t| - 1] == s + init && (s + t)[|s + t| - 1] == last;
      AfterLastOfJoin(s, init, sep);
    }
  }

  lemma NotInConcat(a: string, b: string, c: char)
    ensures c in a + b <==> c in a || c in b
  {
  }

  lemma PlainNumber(i: nat)
    ensures '/' !in Number(i) && '.' !in Number(i)
  {
    assert !IsDigit('/') && !IsDigit('.');
    assert '/' !in Decimal(i) && '.' !in Decimal(i);
    NotInConcat(" (", Decimal(i), '/');
    NotInConcat(" (", Decimal(i), '.');
  }

  lemma NumberedHasNoSlash(name: string, i: nat)
    requires '/' !in name
    ensures '/' !in Numbered(name, i)
  {
    PlainNumber(i);
    assert '/' !in Stem(name) && '/' !in Ext(name);
    NotInConcat(Stem(name), Number(i), '/');
    NotInConcat(Stem(name) + Number(i), Ext(name), '/');
  }

  /** Taking a path apart after one of its separators. */
  lemma SplitsThere(dir: string, name: string, path: string)
    requires path == dir + name && AfterLast(path, '/') == |dir|
    ensures Dir(path) == dir && Base(path) == name
  {
  }

  lemma DirOfDir(path: string)
    ensures AfterLast(Dir(path), '/') == |Dir(path)| && '/' !in Base(path)
  {
    AfterLastFacts(path, '/');
  }

  lemma CandidateBase(path: string, i: nat)
    ensures Dir(Candidate(path, i)) == Dir(path) && Base(Candidate(path, i)) == Numbered(Base(path), i)
  {
    DirOfDir(path);
    NumberedHasNoSlash(Base(path), i);
    AfterLastOfJoin(Dir(path), Numbered(Base(path), i), '/');
    SplitsThere(Dir(path), Numbered(Base(path), i), Candidate(path, i));
  }

  /** Where there is no extension there is no "." at all. */
  lemma NoExt(name: string)
    requires ExtStart(name) == |name|
    ensures '.' !in name && Stem(name) == name && Ext(name) == ""
  {
    AfterLastFacts(name, '.');
    if AfterLast(name, '.') == 0 { assert name[0..] == name; }
  }

  lemma NumberedKeepsExt(name: string, i: nat)
    ensures Ext(Numbered(name, i)) == Ext(name)
  {
    PlainNumber(i);
    if ExtStart(name) == |name| {
      NoExt(name);
      AfterLastOfJoin(name, Number(i), '.');
      AfterLastOfJoin("", name, '.');
      assert "" + name == name && Numbered(name, i) == name + Number(i);
    } else {
      DottedKeepsExt(Stem(name) + Number(i), Ext(name), name);
    }
  }

  lemma DottedKeepsExt(front: string, ext: string, name: string)
    requires ExtStart(name) < |name| && ext == Ext(name)
    ensures Ext(front + ext) == ext
  {
    AfterLastFacts(name, '.');
    assert ext[1..] == name[AfterLast(name, '.')..];
    AfterLastOfJoin(front + ".", ext[1..], '.');
    assert front + ext == (front + ".") + ext[1..];
    assert AfterLast(front + ".", '.') == |front| + 1;
  }

  /** Every candidate lies in the same directory, has the same extension, and is another file. */
  lemma CandidateIsSibling(path: string, i: nat)
    ensures var c := Candidate(path, i); Dir(c) == Dir(path) && Ext(Base(c)) == Ext(Base(path)) && c != path
  {
    CandidateBase(path, i);
    NumberedKeepsExt(Base(path), i);
    assert |Numbered(Base(path), i)| > |Base(path)|;
  }

  lemma MiddleIs(before: string, a: string, b: string, after: string)
    requires before + a + after == before + b + after
    ensures a == b
  {
    assert |a| == |b|;
    assert (before + a + after)[|before|..|before| + |a|] == a;
    assert (before + b + after)[|before|..|before| + |b|] == b;
  }

  lemma CandidatesDiffer(path: string, i: nat, j: nat)
    requires Candidate(path, i) == Candidate(path, j)
    ensures i == j
  {
    var before, after := Dir(path) + Stem(Base(path)) + " (", ")" + Ext(Base(path));
    CandidateText(path, i, before, after);
    CandidateText(path, j, before, after);
    MiddleIs(before, Decimal(i), Decimal(j), after);
    DecimalInjective(i, j);
  }

  lemma CandidateText(path: string, i: nat, before: string, after: string)
    requires before == Dir(path) + Stem(Base(path)) + " (" && after == ")" + Ext(Base(path))
    ensures Candidate(path, i) == before + Decimal(i) + after
  {
  }

  /** A directory, a name and an extension: the extension is empty or starts at the last "." of the last element. */
  predicate Parts(dir: string, stem: string, ext: string) {
    && (dir == "" || dir[|dir| - 1] == '/') && '/' !in stem && '/' !in ext
    && if ext == "" then '.' !in stem else ext[0] == '.' && '.' !in ext[1..]
  }

  lemma StemAndExt(stem: string, ext: string)
    requires if ext == "" then '.' !in stem else ext[0] == '.' && '.' !in ext[1..]
    ensures Stem(stem + ext) == stem && Ext(stem + ext) == ext
  {
    var name := stem + ext;
    if ext == "" {
      AfterLastOfJoin("", stem, '.');
      assert "" + stem == stem == name;
    } else {
      assert name == (stem + ".") + ext[1..];
      AfterLastOfJoin(stem + ".", ext[1..], '.');
      assert name[..|stem|] == stem && name[|stem|..] == ext;
    }
  }

  /** The candidate puts a blank and the number in parentheses between the name and its extension. */
  lemma CandidateSpelt(dir: string, stem: string, ext: string, i: nat)
    requires Parts(dir, stem, ext)
    ensures Candidate(dir + stem + ext, i) == dir + stem + " (" + Decimal(i) + ")" + ext
  {
    var path := dir + stem + ext;
    assert path == dir + (stem + ext);
    NotInConcat(stem, ext, '/');
    AfterLastOfJoin(dir, stem + ext, '/');
    SplitsThere(dir, stem + ext, path);
    StemAndExt(stem, ext);
    CandidateText(path, i, dir + stem + " (", ")" + ext);
  }

  /** Every path is made of such parts. */
  lemma PartsExist(path: string) returns (dir: string, stem: string, ext: string)
    ensures path == dir + stem + ext && Parts(dir, stem, ext)
  {
    DirOfDir(path);
    AfterLastFacts(path, '/');
    var name := Base(path);
    AfterLastFacts(name, '.');
    dir, stem, ext := Dir(path), Stem(name), Ext(name);
    if ext != "" { assert ext[1..] == name[AfterLast(name, '.')..]; }
  }

  // ---------------------------------------------------------------- a free candidate exists

  predicate TakenBelow(path: string, existing: set<string>, i: nat)
  {
    forall j :: 1 <= j < i ==> Candidate(path, j) in existing
  }

  /** Pigeonhole: n existing paths take at most n candidates. */
  lemma {:induction false} AtMostExisting(path: string, existing: set<string>, i: nat)
    requires i >= 1 && TakenBelow(path, existing, i)
    ensures i - 1 <= |existing|
    decreases i
  {
    if i > 1 {
      var last := Candidate(path, i - 1);
      forall j | 1 <= j < i - 1 ensures Candidate(path, j) in existing - {last} {
        if Candidate(path, j) == last { CandidatesDiffer(path, j, i - 1); }
      }
      AtMostExisting(path, existing - {last}, i - 1);
    }
  }

  /** The smallest number, from i on, whose candidate does not exist. */
  function FirstFree(path: string, existing: set<string>, i: nat): (k: nat)
    requires i >= 1 && TakenBelow(path, existing, i)
    ensures k >= i && TakenBelow(path, existing, k) && Candidate(path, k) !in existing
    decreases |existing| + 1 - i
  {
    AtMostExisting(path, existing, i);
    if Candidate(path, i) in existing then
      AtMostExisting(path, existing, i + 1);
      FirstFree(path, existing, i + 1)
    else i
  }

  // ---------------------------------------------------------------- the search

  /** The longest last element and the longest whole path that os.Stat looks up; 255 and 4095 bytes on Linux. */
  datatype Limits = Limits(name: nat, path: nat)

  predicate Fits(path: string, limits: Limits) {
    |Base(path)| <= limits.name && |path| <= limits.path
  }

  /**
   * os.Stat reports "not exist": past either limit it reports a different error, and so it does,
   * or succeeds, for the paths in `existing`.
   */
  predicate NotExist(path: string, existing: set<string>, limits: Limits) {
    path !in existing && Fits(path, limits)
  }

  lemma {:induction false} DecimalLengthGrows(m: nat, n: nat)
    requires m <= n
    ensures |Decimal(m)| <= |Decimal(n)|
  {
    if m >= 10 { DecimalLengthGrows(m / 10, n / 10); }
  }

  /** A candidate is longer than the path by its number, a blank and two parentheses, in its last element. */
  lemma CandidateLength(path: string, i: nat)
    ensures |Base(Candidate(path, i))| == |Base(path)| + 3 + |Decimal(i)|
    ensures |Candidate(path, i)| == |path| + 3 + |Decimal(i)|
  {
    CandidateBase(path, i);
  }

  /** When a candidate fits, so do those with smaller numbers. */
  lemma SmallerFits(path: string, i: nat, j: nat, limits: Limits)
    requires i <= j && Fits(Candidate(path, j), limits)
    ensures Fits(Candidate(path, i), limits)
  {
    CandidateLength(path, i);
    CandidateLength(path, j);
    DecimalLengthGrows(i, j);
  }

  /** The first free candidate is within both limits. */
  predicate FirstFreeFits(path: string, existing: set<string>, limits: Limits) {
    Fits(Candidate(path, FirstFree(path, existing, 1)), limits)
  }

  ghost predicate SomeNotExist(path: string, existing: set<string>, limits: Limits) {
    exists i :: i >= 1 && NotExist(Candidate(path, i), existing, limits)
  }

  /** The search ends exactly when the first free candidate is within both limits. */
  lemma SearchEndsIff(path: string, existing: set<string>, limits: Limits)
    ensures SomeNotExist(path, existing, limits) <==> FirstFreeFits(path, existing, limits)
  {
    var k := FirstFree(path, existing, 1);
    if FirstFreeFits(path, existing, limits) {
      assert NotExist(Candidate(path, k), existing, limits);
    }
    if SomeNotExist(path, existing, limits) {
      var i :| i >= 1 && NotExist(Candidate(path, i), existing, limits);
      SmallerFits(path, k, i, limits);
    }
  }

  /** It ends within |existing| + 1 probes whenever it ends. */
  lemma FirstFreeBounded(path: string, existing: set<string>)
    ensures 1 <= FirstFree(path, existing, 1) <= |existing| + 1
  {
    AtMostExisting(path, existing, FirstFree(path, existing, 1));
  }

  // ---------------------------------------------------------------- the room for digits

  function Pow10(d: nat): nat {
    if d == 0 then 1 else 10 * Pow10(d - 1)
  }

  lemma {:induction false} DigitsIff(n: nat, d: nat)
    requires d >= 1
    ensures |Decimal(n)| <= d <==> n < Pow10(d)
  {
    if d == 1 {
      assert Pow10(1) == 10 * Pow10(0) == 10;
      if n >= 10 { assert Decimal(n) == Decimal(n / 10) + ['0' + (n % 10) as char]; }
    } else if n >= 10 {
      DigitsIff(n / 10, d - 1);
      assert n / 10 < Pow10(d - 1) <==> n < 10 * Pow10(d - 1);
    } else {
      Pow10Grows(d - 1);
    }
  }

  lemma {:induction false} Pow10Grows(d: nat)
    ensures Pow10(d) >= 1
  {
    if d > 0 { Pow10Grows(d - 1); }
  }

  /** How many digits a number may have for its candidate to be within both limits. */
  function Room(path: string, limits: Limits): int {
    var name, whole := limits.name - |Base(path)| - 3, limits.path - |path| - 3;
    if name < whole then name else whole
  }

  lemma FitsIff(path: string, i: nat, limits: Limits)
    ensures Fits(Candidate(path, i), limits) <==> Room(path, limits) >= 1 && i < Pow10(Room(path, limits))
  {
    CandidateLength(path, i);
    if Room(path, limits) >= 1 { DigitsIff(i, Room(path, limits)); }
  }

  predicate IsFree(path: string, existing: set<string>, i: nat) {
    i >= 1 && Candidate(path, i) !in existing
  }

  /** The search ends exactly when there is room for a digit, and a number with at most that many digits is free. */
  lemma EndsWithRoomIff(path: string, existing: set<string>, limits: Limits)
    ensures SomeNotExist(path, existing, limits)
            <==> Room(path, limits) >= 1 && exists i: nat :: i < Pow10(Room(path, limits)) && IsFree(path, existing, i)
  {
    if SomeNotExist(path, existing, limits) {
      var i :| i >= 1 && NotExist(Candidate(path, i), existing, limits);
      FitsIff(path, i, limits);
      assert IsFree(path, existing, i);
    }
    if Room(path, limits) >= 1 {
      forall i: nat | i < Pow10(Room(path, limits)) && IsFree(path, existing, i)
        ensures SomeNotExist(path, existing, limits)
      {
        FitsIff(path, i, limits);
        assert NotExist(Candidate(path, i), existing, limits);
      }
    }
  }

  /** So it ends whenever fewer paths exist than there are such numbers. */
  lemma FewExistingEnds(path: string, existing: set<string>, limits: Limits)
    requires Room(path, limits) >= 1 && |existing| < Pow10(Room(path, limits)) - 1
    ensures SomeNotExist(path, existing, limits)
  {
    var k := FirstFree(path, existing, 1);
    FirstFreeBounded(path, existing);
    assert IsFree(path, existing, k);
    EndsWithRoomIff(path, existing, limits);
  }

  /** Four bytes short of either limit the search never ends, whatever exists. */
  lemma LongNameNeverEnds(path: string, existing: set<string>, limits: Limits)
    requires |Base(path)| + 4 > limits.name || |path| + 4 > limits.path
    ensures !SomeNotExist(path, existing, limits)
  {
    forall i: nat ensures !NotExist(Candidate(path, i), existing, limits) {
      CandidateLength(path, i);
    }
  }

  /** And with four bytes to spare it does end when nothing but the path exists. */
  lemma ShortNameEnds(path: string, limits: Limits)
    requires |Base(path)| + 4 <= limits.name && |path| + 4 <= limits.path
    ensures SomeNotExist(path, {path}, limits)
  {
    CandidateLength(path, 1);
    assert NotExist(Candidate(path, 1), {path}, limits);
  }

  /** Where it ends, the search finds the free candidate with the smallest number. */
  method GenerateUniqueName(path: string, existing: set<string>, limits: Limits) returns (candidate: string)
    requires FirstFreeFits(path, existing, limits)
    ensures NotExist(candidate, existing, limits)
    ensures exists k :: k >= 1 && candidate == Candidate(path, k) && TakenBelow(path, existing, k)
  {
    var name := Base(path);
    var ext := Ext(name);
    var stem := Stem(name);
    ghost var k := FirstFree(path, existing, 1);
    var i := 1;
    while true
      invariant 1 <= i <= k
      decreases k - i
    {
      candidate := Dir(path) + (stem + " (" + Decimal(i) + ")" + ext);
      assert stem + " (" + Decimal(i) + ")" + ext == Numbered(name, i);
      SmallerFits(path, i, k, limits);
      if candidate !in existing && |Base(candidate)| <= limits.name && |candidate| <= limits.path {
        return candidate;
      }
      i := i + 1;
    }
  }
}
