/**
 * The reader of the published hosts (internal/auth/publicdomainwatcher.go) and
 * the lookup behind it (isDomainPublic in internal/auth/server.go).
 */
module PublicDomainWatcher {
  import opened Wrappers
  import opened Text
  import opened PublicDomains

  /** A line this long does not fit the scanner's buffer. */
  const MAX_LINE := 65536

  predicate IsHostLine(line: string) {
    var host := TrimSpace(line);
    host != "" && host[0] != '#'
  }

  function HostsIn(lines: seq<string>): set<string> {
    set line | line in lines && IsHostLine(line) :: TrimSpace(line)
  }

  /** The hosts of a file, or None when a line is too long to scan. */
  function Parse(content: string): Option<set<string>> {
    var lines := Split(content, '\n');
    if exists i :: 0 <= i < |lines| && |lines[i]| >= MAX_LINE then None else Some(HostsIn(lines))
  }

  lemma HostsInSnoc(lines: seq<string>, line: string)
    ensures HostsIn(lines + [line]) == HostsIn(lines) + if IsHostLine(line) then {TrimSpace(line)} else {}
  {
  }

  method ScanHosts(content: string) returns (hosts: Option<set<string>>)
    ensures hosts == Parse(content)
  {
    var lines := Split(content, '\n');
    var found: set<string> := {};
    for i := 0 to |lines|
      invariant forall j :: 0 <= j < i ==> |lines[j]| < MAX_LINE
      invariant found == HostsIn(lines[..i])
    {
      if |lines[i]| >= MAX_LINE { return None; }
      TakeSucc(lines, i);
      HostsInSnoc(lines[..i], lines[i]);
      var host := TrimSpace(lines[i]);
      if host == "" || host[0] == '#' { continue; }
      found := found + {host};
    }
    assert lines[..|lines|] == lines;
    hosts := Some(found);
  }

  // ---------------------------------------------------------------- writing and reading back

  /** A host that survives being a line of its own. */
  predicate Readable(host: string) {
    '\n' !in host && |host| < 65536 && (host != "" ==> host[0] != '#')
  }

  lemma LinesOfHosts(hosts: set<string>)
    requires forall h :: h in hosts ==> '\n' !in h
    ensures Split(Join(Sorted(hosts), "\n"), '\n') == if hosts == {} then [[]] else Sorted(hosts)
  {
    var lines := Sorted(hosts);
    if hosts == {} {
      assert lines == [];
    } else {
      assert |lines| == |hosts| && |hosts| > 0;
      forall i | 0 <= i < |lines| ensures '\n' !in lines[i] { assert lines[i] in hosts; }
      SplitOfJoin(lines, '\n');
    }
  }

  /** Reading the written body gives the hosts back exactly when each of them is readable. */
  lemma ReadsBackIff(hosts: set<string>)
    requires forall h :: h in hosts ==> Clean(h)
    ensures Parse(Join(Sorted(hosts), "\n")) == Some(hosts) <==> forall h :: h in hosts ==> Readable(h)
  {
    var body := Join(Sorted(hosts), "\n");
    if forall h :: h in hosts ==> Readable(h) {
      ReadsBack(hosts);
    }
    if Parse(body) == Some(hosts) {
      ParsedAreReadable(body);
    }
  }

  /** One line too long for the scanner loses the whole file, whatever stands in the other lines. */
  lemma LongLineLosesAll(before: string, host: string)
    requires '\n' !in host && |host| >= 65536 && '\n' !in before
    ensures Parse(host) == None && Parse(before + "\n" + host) == None
  {
    SplitSingle(host, '\n');
    SplitCons(before, host, '\n');
    assert Split(host, '\n')[0] == host && Split(before + ['\n'] + host, '\n')[1] == host;
  }

  /** A host worth writing: not empty, and with no white space around it. */
  predicate Clean(host: string) {
    host != "" && Trimmed(host)
  }

  lemma ReadsBack(hosts: set<string>)
    requires forall h :: h in hosts ==> Clean(h) && Readable(h)
    ensures Parse(Join(Sorted(hosts), "\n")) == Some(hosts)
  {
    LinesOfHosts(hosts);
    if hosts == {} {
      EmptyBodyHoldsNone();
    } else {
      ParsePlainLines(Join(Sorted(hosts), "\n"), Sorted(hosts), hosts);
    }
  }

  lemma ParsePlainLines(body: string, lines: seq<string>, hosts: set<string>)
    requires Split(body, '\n') == lines
    requires forall line :: line in lines <==> line in hosts
    requires forall h :: h in hosts ==> Clean(h) && Readable(h)
    ensures Parse(body) == Some(hosts)
  {
    ShortLines(lines, hosts);
    HostsInPlainLines(lines);
    assert HostsIn(lines) == hosts;
  }

  lemma EmptyBodyHoldsNone()
    ensures Parse("") == Some({})
  {
    assert Split("", '\n') == [""] && HostsIn([""]) == {};
  }

  lemma ShortLines(lines: seq<string>, hosts: set<string>)
    requires forall line :: line in lines <==> line in hosts
    requires forall h :: h in hosts ==> Clean(h) && Readable(h)
    ensures forall i :: 0 <= i < |lines| ==> |lines[i]| < MAX_LINE
    ensures forall line :: line in lines ==> Clean(line) && Readable(line)
  {
    forall i | 0 <= i < |lines| ensures |lines[i]| < MAX_LINE { assert lines[i] in hosts; }
  }

  lemma HostsInPlainLines(lines: seq<string>)
    requires forall line :: line in lines ==> Clean(line) && Readable(line)
    ensures forall h :: h in HostsIn(lines) <==> h in lines
  {
    forall h | h in lines ensures h in HostsIn(lines) {
      TrimSpaceFacts(h);
      assert IsHostLine(h) && TrimSpace(h) == h;
    }
    forall h | h in HostsIn(lines) ensures h in lines {
      var line :| line in lines && h == TrimSpace(line);
      TrimSpaceFacts(line);
    }
  }

  /** Nothing unreadable is ever read. */
  lemma ParsedAreReadable(body: string)
    requires Parse(body).Some?
    ensures forall h :: h in Parse(body).value ==> Readable(h)
  {
    var lines := Split(body, '\n');
    forall h | h in Parse(body).value ensures Readable(h) {
      var line :| line in lines && IsHostLine(line) && h == TrimSpace(line);
      var i :| 0 <= i < |lines| && lines[i] == line;
      assert |lines[i]| < MAX_LINE;
      TrimSpaceFacts(line);
    }
  }

  // ---------------------------------------------------------------- the watcher

  /** What the watcher finds at its path; `opens` is whether the file can be opened after the stat. */
  datatype FileView = Missing | Unreadable | Present(content: string, mtime: nat, opens: bool)

  datatype Watch = Watch(lastMod: nat, lastSize: nat, target: Option<set<string>>)

  const UNSTARTED := Watch(0, 0, None)

  function Reloaded(w: Watch, force: bool, file: FileView): Watch {
    match file
    case Missing => if w.target.None? then w.(target := Some({})) else w
    case Unreadable => w
    case Present(content, mtime, opens) =>
      if !force && mtime == w.lastMod && |content| == w.lastSize then w
      else
        var seen := w.(lastMod := mtime, lastSize := |content|);
        if opens && Parse(content).Some? then seen.(target := Some(Parse(content).value)) else seen
  }

  class Watcher {
    var lastMod: nat
    var lastSize: nat
    var target: Option<set<string>>

    function Now(): Watch
      reads this
    {
      Watch(lastMod, lastSize, target)
    }

    constructor ()
      ensures Now() == UNSTARTED
    {
      lastMod, lastSize, target := 0, 0, None;
    }

    method Reload(force: bool, file: FileView)
      modifies this
      ensures Now() == Reloaded(old(Now()), force, file)
    {
      if file.Missing? {
        if target.None? { target := Some({}); }
        return;
      }
      if file.Unreadable? { return; }
      if !force && file.mtime == lastMod && |file.content| == lastSize { return; }
      lastMod, lastSize := file.mtime, |file.content|;
      if !file.opens { return; }
      var found := ScanHosts(file.content);
      if found.None? { return; }
      target := found;
    }

    /** isDomainPublic: the configured domains and their subdomains, then the published hosts. */
    method IsDomainPublic(publicDomains: seq<string>, domain: string) returns (r: bool)
      ensures r == PublicDomain(publicDomains, target, domain)
      ensures domain == "" ==> !r
      ensures domain != "" && target.Some? && domain in target.value ==> r
      ensures forall d, below :: d in publicDomains && d != "" && domain in {d, below + "." + d} ==> r
      ensures r ==> (target.Some? && domain in target.value)
                    || exists d :: d in publicDomains && d != "" && IsOrIsBelow(domain, d)
    {
      CoversAll(publicDomains, target, domain);
      if domain == "" { return false; }
      for i := 0 to |publicDomains|
        invariant forall j :: 0 <= j < i ==> !Covers(publicDomains[j], domain)
      {
        var d := publicDomains[i];
        if d == "" { continue; }
        if d == domain || HasSuffix(domain, "." + d) {
          assert Covers(publicDomains[i], domain);
          return true;
        }
      }
      r := target.Some? && domain in target.value;
    }
  }

  predicate Covers(d: string, domain: string) {
    d != "" && (d == domain || HasSuffix(domain, "." + d))
  }

  ghost predicate IsOrIsBelow(domain: string, d: string) {
    domain == d || exists below: string :: domain == below + "." + d
  }

  lemma CoversIff(d: string, domain: string)
    ensures Covers(d, domain) <==> d != "" && IsOrIsBelow(domain, d)
  {
    if HasSuffix(domain, "." + d) {
      assert domain == domain[..|domain| - |d| - 1] + ("." + d);
      assert domain == domain[..|domain| - |d| - 1] + "." + d;
    }
    if below: string :| domain == below + "." + d { assert domain[|below|..] == "." + d; }
  }

  lemma CoversAll(publicDomains: seq<string>, target: Option<set<string>>, domain: string)
    ensures PublicDomain(publicDomains, target, domain) <==>
      domain != "" && ((target.Some? && domain in target.value)
                       || exists d :: d in publicDomains && d != "" && IsOrIsBelow(domain, d))
  {
    forall d ensures Covers(d, domain) <==> d != "" && IsOrIsBelow(domain, d) { CoversIff(d, domain); }
    if d :| d in publicDomains && d != "" && IsOrIsBelow(domain, d) {
      var i :| 0 <= i < |publicDomains| && publicDomains[i] == d;
      assert Covers(publicDomains[i], domain);
    }
  }

  predicate PublicDomain(publicDomains: seq<string>, target: Option<set<string>>, domain: string) {
    domain != "" && ((exists i :: 0 <= i < |publicDomains| && Covers(publicDomains[i], domain))
                     || (target.Some? && domain in target.value))
  }

  // ---------------------------------------------------------------- publisher and watcher together

  /** The published file, if there is one yet; every new version carries a larger modification time. */
  datatype Version = Version(content: string, mtime: nat)

  datatype Mounted = Mounted(file: Option<Version>, watch: Watch)

  /** How a poll fares: the stat fails, or the file cannot be opened after it, or both go well. */
  datatype Access = StatFails | OpenFails | Opens

  datatype MountOp = Publish(body: string, mtime: nat) | Poll(force: bool, access: Access)

  function Seen(file: Option<Version>, access: Access): FileView {
    if access.StatFails? then Unreadable
    else if file.None? then Missing
    else Present(file.value.content, file.value.mtime, access.Opens?)
  }

  function Next(m: Mounted, op: MountOp): Mounted {
    match op
    case Publish(body, mtime) => m.(file := Some(Version(body, mtime)))
    case Poll(force, access) => m.(watch := Reloaded(m.watch, force, Seen(m.file, access)))
  }

  predicate Newer(m: Mounted, op: MountOp) {
    op.Publish? ==> op.mtime > (if m.file.Some? then m.file.value.mtime else 0)
  }

  ghost predicate Run(ms: seq<Mounted>, ops: seq<MountOp>) {
    && |ms| == |ops| + 1 && ms[0] == Mounted(None, UNSTARTED)
    && forall i :: 0 <= i < |ops| ==> IsNext(ms, ops, i)
  }

  predicate IsNext(ms: seq<Mounted>, ops: seq<MountOp>, i: nat)
    requires i < |ops| && |ms| == |ops| + 1
  {
    Newer(ms[i], ops[i]) && ms[i + 1] == Next(ms[i], ops[i])
  }

  /** The watcher has seen no time later than the file's. */
  predicate NotAhead(m: Mounted) {
    m.watch.lastMod <= if m.file.Some? then m.file.value.mtime else 0
  }

  lemma {:induction false} RunNotAhead(ms: seq<Mounted>, ops: seq<MountOp>, i: nat)
    requires Run(ms, ops) && i < |ms|
    ensures NotAhead(ms[i])
  {
    if i > 0 {
      RunNotAhead(ms, ops, i - 1);
      assert IsNext(ms, ops, i - 1);
    }
  }

  /** No poll since step `p` got past the stat. */
  predicate NoneSeen(ops: seq<MountOp>, p: nat, j: nat) {
    forall k :: p < k < j && k < |ops| && ops[k].Poll? ==> ops[k].access.StatFails?
  }

  /** Poll `j` opens the version published at step `p`: as the first to see it, or forced. */
  predicate Reads(ops: seq<MountOp>, p: nat, j: nat) {
    p < j < |ops| && ops[j].Poll? && ops[j].access.Opens? && (ops[j].force || NoneSeen(ops, p, j))
  }

  predicate ReadBefore(ops: seq<MountOp>, p: nat, i: nat) {
    exists j :: p < j < i && Reads(ops, p, j)
  }

  /** Step `p` published the version that is still there at step `i`. */
  predicate IsCurrent(ops: seq<MountOp>, p: nat, i: nat) {
    p < i <= |ops| && ops[p].Publish? && forall k :: p < k < i ==> ops[k].Poll?
  }

  /** The file of step `p`, seen or not, and its hosts where it was read; where not, the hosts of before. */
  ghost predicate WatchInv(ms: seq<Mounted>, ops: seq<MountOp>, p: nat, i: nat)
    requires |ms| == |ops| + 1 && IsCurrent(ops, p, i)
  {
    var body, mtime := ops[p].body, ops[p].mtime;
    var w := ms[i].watch;
    && ms[i].file == Some(Version(body, mtime))
    && (if NoneSeen(ops, p, i) then w.lastMod < mtime else w.lastMod == mtime && w.lastSize == |body|)
    && w.target == if ReadBefore(ops, p, i) && Parse(body).Some? then Parse(body) else ms[p + 1].watch.target
  }

  lemma PollKeepsWatchInv(ms: seq<Mounted>, ops: seq<MountOp>, p: nat, i: nat)
    requires |ms| == |ops| + 1 && IsCurrent(ops, p, i) && i < |ops| && ops[i].Poll? && IsNext(ms, ops, i)
    requires WatchInv(ms, ops, p, i)
    ensures WatchInv(ms, ops, p, i + 1)
  {
    ReadOneMore(ops, p, i);
    assert NoneSeen(ops, p, i + 1) <==> NoneSeen(ops, p, i) && ops[i].access.StatFails?;
  }

  lemma ReadOneMore(ops: seq<MountOp>, p: nat, i: nat)
    requires p < i < |ops|
    ensures ReadBefore(ops, p, i + 1) <==> ReadBefore(ops, p, i) || Reads(ops, p, i)
  {
  }

  /** In every run the watcher has the hosts of the current version exactly from the first poll on that reads it. */
  lemma {:induction false} RunKeepsWatchInv(ms: seq<Mounted>, ops: seq<MountOp>, p: nat, i: nat)
    requires Run(ms, ops) && IsCurrent(ops, p, i)
    ensures WatchInv(ms, ops, p, i)
    decreases i
  {
    assert IsNext(ms, ops, i - 1);
    if i == p + 1 {
      RunNotAhead(ms, ops, p);
      assert NoneSeen(ops, p, i) && !ReadBefore(ops, p, i);
    } else {
      RunKeepsWatchInv(ms, ops, p, i - 1);
      PollKeepsWatchInv(ms, ops, p, i - 1);
    }
  }

  /** When the first poll that sees a version cannot open it, only a forced one reads it after that. */
  lemma FailedOpenSticks(ms: seq<Mounted>, ops: seq<MountOp>, p: nat, j: nat, i: nat)
    requires Run(ms, ops) && IsCurrent(ops, p, i) && p < j < i && ops[j].access.OpenFails?
    requires NoneSeen(ops, p, j) && forall k :: j < k < i ==> !ops[k].force
    ensures ms[i].watch.target == ms[p + 1].watch.target
  {
    RunKeepsWatchInv(ms, ops, p, i);
    forall k | p < k < i ensures !Reads(ops, p, k) { }
  }

  // A run in which that happens: one host is published, the first poll cannot open the file, the next one could.

  const STICKING: seq<MountOp> := [MountOp.Publish("h", 1), Poll(false, OpenFails), Poll(false, Opens)]

  const STUCK: seq<Mounted> := [
    Mounted(None, UNSTARTED),
    Mounted(Some(Version("h", 1)), UNSTARTED),
    Mounted(Some(Version("h", 1)), Watch(1, 1, None)),
    Mounted(Some(Version("h", 1)), Watch(1, 1, None))
  ]

  lemma OneHost()
    ensures Parse("h") == Some({"h"})
  {
    assert Trimmed("h");
    TrimSpaceFacts("h");
    assert Split("h", '\n') == ["h"] && HostsIn(["h"]) == {"h"};
  }

  lemma HostIsNeverRead()
    ensures Run(STUCK, STICKING) && Parse(STUCK[3].file.value.content) == Some({"h"})
            && PublicHosts(STUCK[3].watch.target) == {}
  {
    OneHost();
    assert IsNext(STUCK, STICKING, 0) && IsNext(STUCK, STICKING, 1) && IsNext(STUCK, STICKING, 2);
  }

  /** The hosts that are dynamically public. */
  function PublicHosts(target: Option<set<string>>): set<string> {
    if target.None? then {} else target.value - {""}
  }

  /**
   * End to end, in every run: once the current view is published, the dynamically public hosts are those of
   * the published apps exactly when a poll has read it, or when they happened to be the same before.
   */
  lemma PublishedIsPublicIff(ms: seq<Mounted>, ops: seq<MountOp>, p: nat, i: nat, records: map<string, AppRecord>,
      d: Domains)
    requires Run(ms, ops) && IsCurrent(ops, p, i) && ops[p].body == Body(Rebuilt(records, d))
    requires forall h :: h in MergedHosts(Rebuilt(records, d)) ==> Readable(h)
    ensures PublicHosts(ms[i].watch.target) == MergedHosts(Rebuilt(records, d))
            <==> ReadBefore(ops, p, i) || PublicHosts(ms[p + 1].watch.target) == MergedHosts(Rebuilt(records, d))
  {
    ViewReadsBack(records, d);
    CurrentHosts(ms, ops, p, i, MergedHosts(Rebuilt(records, d)));
  }

  lemma ViewReadsBack(records: map<string, AppRecord>, d: Domains)
    requires forall h :: h in MergedHosts(Rebuilt(records, d)) ==> Readable(h)
    ensures Parse(Body(Rebuilt(records, d))) == Some(MergedHosts(Rebuilt(records, d)))
            && "" !in MergedHosts(Rebuilt(records, d))
  {
    MergedAreClean(records, d);
    ReadsBack(MergedHosts(Rebuilt(records, d)));
  }

  lemma CurrentHosts(ms: seq<Mounted>, ops: seq<MountOp>, p: nat, i: nat, hosts: set<string>)
    requires Run(ms, ops) && IsCurrent(ops, p, i) && Parse(ops[p].body) == Some(hosts) && "" !in hosts
    ensures PublicHosts(ms[i].watch.target) == hosts
            <==> ReadBefore(ops, p, i) || PublicHosts(ms[p + 1].watch.target) == hosts
  {
    RunKeepsWatchInv(ms, ops, p, i);
    assert hosts - {""} == hosts;
  }

  /** Host by host: from the first poll that reads it on, a host is public exactly when it is one of a published app. */
  lemma PublishedIsPublic(ms: seq<Mounted>, ops: seq<MountOp>, p: nat, i: nat, records: map<string, AppRecord>,
      d: Domains, host: string)
    requires Run(ms, ops) && IsCurrent(ops, p, i) && ops[p].body == Body(Rebuilt(records, d)) && ReadBefore(ops, p, i)
    requires forall h :: h in MergedHosts(Rebuilt(records, d)) ==> Readable(h)
    ensures PublicDomain([], ms[i].watch.target, host)
            <==> exists n :: n in records && PublishedBy(records[n], d, host)
  {
    PublishedIsPublicIff(ms, ops, p, i, records, d);
    assert PublicDomain([], ms[i].watch.target, host) <==> host in PublicHosts(ms[i].watch.target);
    MergedAreClean(records, d);
    MergedMembers(records, d, host);
  }

  /** Whatever leads to the host is a private entrance. */
  ghost predicate OnlyPrivately(rec: AppRecord, d: Domains, host: string) {
    forall raw :: TrimSpace(raw) == host ==>
        && (rec.entrances == [] ==> !HostNamed(rec.name, d, raw))
        && forall e :: e in rec.entrances && LeadsTo(rec, e, d, raw) ==> Spelt(e.authLevel, "private")
  }

  /** A host that leads only to private entrances is never dynamically public, whatever the toggles. */
  lemma PrivateIsNeverPublic(ms: seq<Mounted>, ops: seq<MountOp>, p: nat, i: nat, records: map<string, AppRecord>,
      d: Domains, host: string)
    requires Run(ms, ops) && IsCurrent(ops, p, i) && ops[p].body == Body(Rebuilt(records, d)) && ReadBefore(ops, p, i)
    requires forall h :: h in MergedHosts(Rebuilt(records, d)) ==> Readable(h)
    requires forall n :: n in records ==> OnlyPrivately(records[n], d, host)
    ensures !PublicDomain([], ms[i].watch.target, host)
  {
    PublishedIsPublic(ms, ops, p, i, records, d, host);
    if n :| n in records && PublishedBy(records[n], d, host) { PrivateIsNotPublished(records[n], d, host); }
  }

  lemma PrivateIsNotPublished(rec: AppRecord, d: Domains, host: string)
    requires OnlyPrivately(rec, d, host)
    ensures !PublishedBy(rec, d, host)
  {
    forall raw | TrimSpace(raw) == host ensures !Publishes(rec, d, raw) {
      forall e | e in rec.entrances && LeadsTo(rec, e, d, raw) ensures !IsOpen(e, rec.publicAccess) {
        PublicIsNotPrivate(e.authLevel);
      }
    }
  }

  /** And one that leads to a public entrance of an installed app always is, whatever the toggle. */
  lemma PublicIsAlwaysPublic(ms: seq<Mounted>, ops: seq<MountOp>, p: nat, i: nat, records: map<string, AppRecord>,
      d: Domains, n: string, e: Entrance, raw: string)
    requires Run(ms, ops) && IsCurrent(ops, p, i) && ops[p].body == Body(Rebuilt(records, d)) && ReadBefore(ops, p, i)
    requires forall h :: h in MergedHosts(Rebuilt(records, d)) ==> Readable(h)
    requires n in records && !records[n].uninstalled && e in records[n].entrances && LeadsTo(records[n], e, d, raw)
    requires Spelt(e.authLevel, "public")
    ensures PublicDomain([], ms[i].watch.target, TrimSpace(raw))
  {
    PublishedIsPublic(ms, ops, p, i, records, d, TrimSpace(raw));
    assert '.' in raw;
    SolidSurvives(raw, '.');
    assert IsOpen(e, records[n].publicAccess) && Publishes(records[n], d, raw);
    assert PublishedBy(records[n], d, TrimSpace(raw));
  }

  /** Trimming loses white space only. */
  lemma SolidSurvives(s: string, c: char)
    requires c in s && !IsSpace(c)
    ensures c in TrimSpace(s)
  {
    var i, k := TrimSpaceIs(s);
    assert s == s[..i] + s[i..k] + s[k..];
  }

  lemma MergedAreClean(records: map<string, AppRecord>, d: Domains)
    ensures forall h :: h in MergedHosts(Rebuilt(records, d)) ==> Clean(h)
  {
    var view := Rebuilt(records, d);
    forall h | h in MergedHosts(view) ensures Clean(h) {
      var n :| n in view && h in view[n];
      assert h in HostSet(HostsForApp(records[n], d));
      var raw :| raw in HostsForApp(records[n], d) && h == TrimSpace(raw);
      TrimSpaceFacts(raw);
    }
  }

  /** An installed app publishes the host, apart from white space around it. */
  ghost predicate PublishedBy(rec: AppRecord, d: Domains, host: string) {
    !rec.uninstalled && host != "" && exists raw :: Publishes(rec, d, raw) && host == TrimSpace(raw)
  }

  lemma PublishedByIff(rec: AppRecord, d: Domains, host: string)
    ensures PublishedBy(rec, d, host) <==> IsPublished(rec, d) && host in HostSet(HostsForApp(rec, d))
  {
    forall raw ensures raw in HostsForApp(rec, d) <==> Publishes(rec, d, raw) { HostsForAppMembers(rec, d, raw); }
  }

  /** The merged view holds exactly the hosts of the published apps. */
  lemma MergedMembers(records: map<string, AppRecord>, d: Domains, host: string)
    ensures host in MergedHosts(Rebuilt(records, d)) <==> exists n :: n in records && PublishedBy(records[n], d, host)
  {
    var view := Rebuilt(records, d);
    if host in MergedHosts(view) {
      var n :| n in view && host in view[n];
      PublishedByIff(records[n], d, host);
    }
    if n :| n in records && PublishedBy(records[n], d, host) {
      PublishedByIff(records[n], d, host);
      assert n in view && view[n] == Sorted(HostSet(HostsForApp(records[n], d)));
      assert host in view[n];
    }
  }
}
