/**
 * What the market catalog (internal/market/catalog.go) may assume of the disk: index
 * entries with two modification times each, the steps of a catalog above a disk on which
 * files come and go with any times, and the exact disk histories under which the cache
 * of parsed entries is invisible.
 */
module CatalogHistory {
  import opened Wrappers
  import opened Text

  // ---------------------------------------------------------------- the disk

  datatype Dir = ChartsDir | ModelsDir
  datatype Path = Path(dir: Dir, name: string)
  datatype File = Regular(content: string, mtime: nat) | Folder(mtime: nat)
  type Disk = map<Path, File>

  predicate IsRegular(files: Disk, p: Path) {
    p in files && files[p].Regular?
  }

  // ---------------------------------------------------------------- entries

  datatype App = App(details: string, entrances: seq<string>)

  /** JSON decoding of a sidecar, and extraction of the entrances of an app from a chart archive. */
  datatype Parser = Parser(sidecar: string -> Option<App>, manifest: (string, string) -> Option<seq<string>>)

  datatype ChartEntry = ChartEntry(sidecarPath: Path, sidecarMtime: nat,
                                   tgzPath: Option<Path>, tgzMtime: nat, kind: string)
  type Index = map<string, ChartEntry>

  /** A chart archive found by a directory scan. */
  datatype Archive = Archive(path: Path, mtime: nat)

  const LRU_CACHE_SIZE := 64
  const RESCAN_INTERVAL := 5

  function LastDash(s: string): (i: int)
    ensures -1 <= i < |s|
    ensures i >= 0 ==> s[i] == '-'
  {
    if s == [] then -1 else if s[|s| - 1] == '-' then |s| - 1 else LastDash(s[..|s| - 1])
  }

  /** The app an archive called "<app>-x.y.z.tgz" belongs to. */
  function AppOfArchive(name: string): string
    requires HasSuffix(name, ".tgz")
  {
    var stem := name[..|name| - 4];
    if LastDash(stem) > 0 then stem[..LastDash(stem)] else stem
  }

  predicate IsArchiveOf(files: Disk, dir: Dir, name: string, app: string) {
    IsRegular(files, Path(dir, name)) && HasSuffix(name, ".tgz") && AppOfArchive(name) == app
  }

  predicate HasSidecar(files: Disk, dir: Dir, app: string) {
    IsRegular(files, Path(dir, app + ".json"))
  }

  function Elements(names: seq<string>): set<string> {
    set n | n in names
  }

  /** A later time wins; of several archives with one time the first in name order does. */
  predicate Outranks(files: Disk, dir: Dir, best: string, n: string)
    requires Path(dir, best) in files && Path(dir, n) in files
  {
    var time, other := files[Path(dir, best)].mtime, files[Path(dir, n)].mtime;
    other < time || (other == time && Leq(best, n))
  }

  /**
   * One more name in the sorted listing changes the newest archive only of the app it belongs to, and only when
   * it is newer.
   */
  lemma NewestExtends(files: Disk, dir: Dir, app: string, names: set<string>, best: Option<Archive>, n: string)
    requires Newest(files, dir, app, names, best) && forall m :: m in names ==> Leq(m, n)
    ensures !IsArchiveOf(files, dir, n, app) ==> Newest(files, dir, app, names + {n}, best)
    ensures IsArchiveOf(files, dir, n, app) ==>
      var p := Path(dir, n);
      Newest(files, dir, app, names + {n},
             if best.None? || files[p].mtime > best.value.mtime then Some(Archive(p, files[p].mtime)) else best)
  {
    LeqTotal(n, n);
  }

  function NamesIn(files: Disk, dir: Dir): set<string> {
    set p | p in files && p.dir == dir :: p.name
  }

  function At<T>(m: map<string, T>, key: string): Option<T> {
    if key in m then Some(m[key]) else None
  }

  /** `best` is the newest archive of `app` among `names`, if there is one. */
  ghost predicate Newest(files: Disk, dir: Dir, app: string, names: set<string>, best: Option<Archive>) {
    match best
    case None => forall n :: n in names ==> !IsArchiveOf(files, dir, n, app)
    case Some(Archive(p, mtime)) =>
      && p.dir == dir && p.name in names && IsArchiveOf(files, dir, p.name, app) && files[p].mtime == mtime
      && forall n :: n in names && IsArchiveOf(files, dir, n, app) ==> Outranks(files, dir, p.name, n)
  }

  /** `e` describes the sidecar of `app` in `dir` and its newest archive, as they are on disk. */
  ghost predicate EntryFor(files: Disk, dir: Dir, kind: string, app: string, e: ChartEntry) {
    && HasSidecar(files, dir, app)
    && e.sidecarPath == Path(dir, app + ".json")
    && e.sidecarMtime == files[e.sidecarPath].mtime
    && e.kind == kind
    && Newest(files, dir, app, NamesIn(files, dir), if e.tgzPath.None? then None
         else Some(Archive(e.tgzPath.value, e.tgzMtime)))
    && (e.tgzPath.None? ==> e.tgzMtime == 0)
  }

  /** `after` is `before` overlaid with an entry for every sidecar in `dir`; an unreadable directory adds nothing. */
  ghost predicate Scanned(files: Disk, dir: Dir, kind: string, readable: bool, before: Index, after: Index) {
    forall app ::
      if readable && HasSidecar(files, dir, app) then
        app in after && EntryFor(files, dir, kind, app, after[app])
      else
        (app in after <==> app in before) && (app in after ==> after[app] == before[app])
  }

  /** The index a rescan builds: apps first, models over them. */
  ghost predicate IndexOf(files: Disk, appsReadable: bool, modelsReadable: bool, index: Index) {
    exists apps: Index ::
      Scanned(files, ChartsDir, "app", appsReadable, map[], apps)
          && Scanned(files, ModelsDir, "model", modelsReadable, apps, index)
  }

  /** The contents of a readable file. */
  function TextAt(files: Disk, p: Path): Option<string> {
    if IsRegular(files, p) then Some(files[p].content) else None
  }

  function ArchiveText(files: Disk, e: ChartEntry): Option<string> {
    if e.tgzPath.None? then None else TextAt(files, e.tgzPath.value)
  }

  /** The app made of a sidecar, with the entrances of the archive when it has any. */
  function Parsed(parser: Parser, name: string, sidecar: Option<string>, archive: Option<string>): Option<App> {
    if sidecar.None? then None
    else
      match parser.sidecar(sidecar.value)
      case None => None
      case Some(app) =>
        if archive.None? then Some(app)
        else
          match parser.manifest(archive.value, name)
          case None => Some(app)
          case Some(entrances) => Some(app.(entrances := entrances))
  }

  /** An app with sidecars in both directories is indexed from the models, else from the directory that has one. */
  lemma ModelsOverCharts(files: Disk, index: Index, name: string)
    requires IndexOf(files, true, true, index)
    ensures var charts, models := Path(ChartsDir, name + ".json"), Path(ModelsDir, name + ".json");
      if models in files && files[models].Regular? then
        name in index && index[name].sidecarPath == models && index[name].sidecarMtime == files[models].mtime
        && index[name].kind == "model"
      else if charts in files && files[charts].Regular? then
        name in index && index[name].sidecarPath == charts && index[name].sidecarMtime == files[charts].mtime
        && index[name].kind == "app"
      else name !in index
  {
  }

  lemma {:induction false} LastDashIn(app: string, version: string)
    requires '-' !in version
    ensures LastDash(app + "-" + version) == |app|
  {
    var s := app + "-" + version;
    if version != "" {
      assert version[|version| - 1] in version;
      assert s[..|s| - 1] == app + "-" + version[..|version| - 1];
      LastDashIn(app, version[..|version| - 1]);
    }
  }

  lemma {:induction false} NoDash(s: string)
    requires '-' !in s
    ensures LastDash(s) == -1
  {
    if s != "" { NoDash(s[..|s| - 1]); }
  }

  /**
   * "<app>-<version>.tgz", with no dash in the version, belongs to the app, and so does "<app>.tgz" with no
   * dash in it; a name whose only dash is its first character belongs to itself.
   */
  lemma ArchiveBelongsTo(app: string, version: string)
    ensures app != "" && '-' !in version ==>
      HasSuffix(app + "-" + version + ".tgz", ".tgz") && AppOfArchive(app + "-" + version + ".tgz") == app
    ensures '-' !in app ==> HasSuffix(app + ".tgz", ".tgz") && AppOfArchive(app + ".tgz") == app
    ensures '-' !in version ==> AppOfArchive("-" + version + ".tgz") == "-" + version
  {
    if '-' !in version {
      LastDashIn("", version);
      assert "" + "-" + version == "-" + version == ("-" + version + ".tgz")[..1 + |version|];
    }
    if '-' !in version {
      var stem := app + "-" + version;
      assert (stem + ".tgz")[|stem|..] == ".tgz" && (stem + ".tgz")[..|stem|] == stem;
      LastDashIn(app, version);
      assert stem[..|app|] == app;
    }
    if '-' !in app {
      assert (app + ".tgz")[|app|..] == ".tgz" && (app + ".tgz")[..|app|] == app;
      NoDash(app);
    }
  }

  /** What parsing the indexed sidecar and archive would return from this disk. */
  function FreshLoad(parser: Parser, name: string, e: ChartEntry, files: Disk): Option<App> {
    Parsed(parser, name, TextAt(files, e.sidecarPath), ArchiveText(files, e))
  }

  /** `text` is what a file that can be read holds. */
  predicate Reads(files: Disk, p: Path, text: string) {
    p in files && files[p].Regular? && files[p].content == text
  }

  /**
   * The answer in terms of the disk and the parser: none without a sidecar that can be read and parsed; its app,
   * with the entrances of the chart in place of its own, when the chart can be read and parsed; its app as it is,
   * when the chart cannot.
   */
  ghost predicate IsAnswer(parser: Parser, name: string, e: ChartEntry, files: Disk, answer: Option<App>) {
    && (answer.Some? ==> exists text :: Reads(files, e.sidecarPath, text) && parser.sidecar(text).Some?)
    && (forall text :: Reads(files, e.sidecarPath, text) && parser.sidecar(text).Some? ==>
          AnswerWith(parser, name, e, files, parser.sidecar(text).value, answer))
  }

  ghost predicate AnswerWith(parser: Parser, name: string, e: ChartEntry, files: Disk, app: App, answer: Option<App>) {
    && (forall path, text, entrances ::
          e.tgzPath == Some(path) && Reads(files, path, text) && parser.manifest(text, name) == Some(entrances) ==>
            answer == Some(App(app.details, entrances)))
    && ((forall path, text :: e.tgzPath == Some(path) && Reads(files, path, text) ==>
           parser.manifest(text, name) == None) ==>
          answer == Some(app))
  }

  lemma FreshLoadIsAnswer(parser: Parser, name: string, e: ChartEntry, files: Disk)
    ensures IsAnswer(parser, name, e, files, FreshLoad(parser, name, e, files))
  {
    var answer := FreshLoad(parser, name, e, files);
    if answer.Some? {
      assert Reads(files, e.sidecarPath, files[e.sidecarPath].content);
    }
    forall text | Reads(files, e.sidecarPath, text) && parser.sidecar(text).Some?
      ensures AnswerWith(parser, name, e, files, parser.sidecar(text).value, answer)
    {
      ChartDecides(parser, name, e, files, parser.sidecar(text).value, answer);
    }
  }

  lemma ChartDecides(parser: Parser, name: string, e: ChartEntry, files: Disk, app: App, answer: Option<App>)
    requires TextAt(files, e.sidecarPath).Some? && parser.sidecar(TextAt(files, e.sidecarPath).value) == Some(app)
    requires answer == FreshLoad(parser, name, e, files)
    ensures AnswerWith(parser, name, e, files, app, answer)
  {
    if e.tgzPath.Some? && IsRegular(files, e.tgzPath.value) {
      assert Reads(files, e.tgzPath.value, files[e.tgzPath.value].content);
    }
  }

  /** At most one answer is right. */
  lemma AnswerUnique(parser: Parser, name: string, e: ChartEntry, files: Disk, a: Option<App>, b: Option<App>)
    requires IsAnswer(parser, name, e, files, a) && IsAnswer(parser, name, e, files, b)
    ensures a == b
  {
    if exists text :: Reads(files, e.sidecarPath, text) && parser.sidecar(text).Some? {
      var text :| Reads(files, e.sidecarPath, text) && parser.sidecar(text).Some?;
      var app := parser.sidecar(text).value;
      assert AnswerWith(parser, name, e, files, app, a) && AnswerWith(parser, name, e, files, app, b);
      if e.tgzPath.Some? && IsRegular(files, e.tgzPath.value) {
        assert Reads(files, e.tgzPath.value, files[e.tgzPath.value].content);
      }
    }
  }

  /** The two modification times on disk are the indexed ones. */
  predicate Unchanged(e: ChartEntry, files: Disk) {
    && e.sidecarPath in files && files[e.sidecarPath].mtime == e.sidecarMtime
    && (e.tgzPath.None? || (e.tgzPath.value in files && files[e.tgzPath.value].mtime == e.tgzMtime))
  }

  // ---------------------------------------------------------------- worlds and steps

  datatype World = World(files: Disk, index: Index, parsed: map<string, App>)

  datatype Op =
    | Write(path: Path, file: File)
    | Delete(path: Path)
    | Rescan(appsReadable: bool, modelsReadable: bool)
    | Evict(name: string)
    | Lookup(name: string, result: Option<App>)

  /** `after` is `before` with `name` added; exactly one other entry goes, and only when the cache is full. */
  ghost predicate LruAdd(before: map<string, App>, name: string, app: App, after: map<string, App>) {
    if |before| < LRU_CACHE_SIZE then after == before[name := app]
    else exists victim :: victim in before && after == (before - {victim})[name := app]
  }

  /** The entries whose index record appeared, vanished or changed since the last scan. */
  predicate Drifted(old_: Index, new_: Index, name: string) {
    (name in old_ && (name !in new_ || !SameStamps(old_[name], new_[name])))
    || (name in new_ && name !in old_)
  }

  /** What rescan compares of two entries: the sidecar's path is not among it. */
  predicate SameStamps(e: ChartEntry, e': ChartEntry) {
    e'.sidecarMtime == e.sidecarMtime && e'.tgzMtime == e.tgzMtime && e'.tgzPath == e.tgzPath
  }

  function DriftedNames(old_: Index, new_: Index): set<string> {
    set n | n in old_.Keys + new_.Keys && Drifted(old_, new_, n)
  }

  ghost predicate RescanStep(w: World, appsReadable: bool, modelsReadable: bool, w': World) {
    && IndexOf(w.files, appsReadable, modelsReadable, w'.index)
    && w' == w.(index := w'.index, parsed := w.parsed - DriftedNames(w.index, w'.index))
  }

  ghost predicate LookupStep(parser: Parser, w: World, name: string, result: Option<App>, w': World) {
    if name !in w.index then
      result == None && w' == w
    else if name in w.parsed && Unchanged(w.index[name], w.files) then
      result == Some(w.parsed[name]) && w' == w
    else
      && result == FreshLoad(parser, name, w.index[name], w.files)
      && w' == w.(parsed := w'.parsed)
      && if result.None? then w'.parsed == w.parsed - {name}
           else LruAdd(w.parsed - {name}, name, result.value, w'.parsed)
  }

  predicate ChangesDisk(op: Op) {
    op.Write? || op.Delete?
  }

  function DiskAfter(files: Disk, op: Op): Disk {
    match op
    case Write(p, file) => files[p := file]
    case Delete(p) => files - {p}
    case _ => files
  }

  /** One atomic step; a write may carry any contents and any time. */
  ghost predicate Step(parser: Parser, w: World, op: Op, w': World) {
    match op
    case Write(_, _) => w' == w.(files := DiskAfter(w.files, op))
    case Delete(_) => w' == w.(files := DiskAfter(w.files, op))
    case Rescan(a, m) => RescanStep(w, a, m, w')
    case Evict(name) => w' == w.(parsed := w.parsed - {name})
    case Lookup(name, result) => LookupStep(parser, w, name, result, w')
  }

  /** A run starts with a new catalog above any disk. */
  ghost predicate Run(parser: Parser, ws: seq<World>, ops: seq<Op>) {
    && |ws| == |ops| + 1 && ws[0].index == map[] && ws[0].parsed == map[]
    && forall i :: 0 <= i < |ops| ==> Step(parser, ws[i], ops[i], ws[i + 1])
  }

  /** The states the disk goes through in a run. */
  function Trace(ws: seq<World>, ops: seq<Op>): (disks: seq<Disk>)
    requires |ws| == |ops| + 1
    ensures disks != []
    decreases |ops|
  {
    if ops == [] then [ws[0].files]
    else
      var before := Trace(ws[..|ops|], ops[..|ops| - 1]);
      if ChangesDisk(ops[|ops| - 1]) then before + [ws[|ops|].files] else before
  }

  function Last<T>(s: seq<T>): T
    requires s != []
  {
    s[|s| - 1]
  }

  /** What a lookup would answer with no cache at all. */
  function Answer(parser: Parser, files: Disk, index: Index, name: string): Option<App> {
    if name in index then FreshLoad(parser, name, index[name], files) else None
  }

  // ---------------------------------------------------------------- where a cached value comes from

  /** A scan of this disk can yield this entry. */
  ghost predicate InScan(files: Disk, name: string, e: ChartEntry) {
    EntryFor(files, ChartsDir, "app", name, e) || EntryFor(files, ModelsDir, "model", name, e)
  }

  ghost predicate Indexed(disks: seq<Disk>, name: string, e: ChartEntry) {
    exists i :: 0 <= i < |disks| && InScan(disks[i], name, e)
  }

  /** The entry is still the one of the load, or one of a later scan that found the same stamps. */
  ghost predicate CarriedOver(disks: seq<Disk>, j: nat, name: string, e0: ChartEntry, e: ChartEntry) {
    e == e0 || (SameStamps(e0, e) && exists l :: j <= l < |disks| && InScan(disks[l], name, e))
  }

  ghost predicate LoadedAt(parser: Parser, disks: seq<Disk>, j: nat, name: string, e0: ChartEntry, app: App) {
    j < |disks| && Indexed(disks[..j + 1], name, e0) && FreshLoad(parser, name, e0, disks[j]) == Some(app)
  }

  ghost predicate Cached(parser: Parser, disks: seq<Disk>, name: string, e: ChartEntry, app: App) {
    exists j: nat, e0 :: LoadedAt(parser, disks, j, name, e0, app) && CarriedOver(disks, j, name, e0, e)
  }

  ghost predicate Inv(parser: Parser, disks: seq<Disk>, w: World) {
    && disks != [] && Last(disks) == w.files && |w.parsed| <= LRU_CACHE_SIZE
    && AllIndexed(disks, w.index) && w.parsed.Keys <= w.index.Keys && AllCached(parser, disks, w)
  }

  ghost predicate AllIndexed(disks: seq<Disk>, index: Index) {
    forall n :: n in index ==> Indexed(disks, n, index[n])
  }

  ghost predicate AllCached(parser: Parser, disks: seq<Disk>, w: World)
    requires w.parsed.Keys <= w.index.Keys
  {
    forall n :: n in w.parsed ==> Cached(parser, disks, n, w.index[n], w.parsed[n])
  }

  lemma IndexedLater(disks: seq<Disk>, files: Disk, name: string, e: ChartEntry)
    requires Indexed(disks, name, e)
    ensures Indexed(disks + [files], name, e)
  {
    var i :| 0 <= i < |disks| && InScan(disks[i], name, e);
    assert (disks + [files])[i] == disks[i];
  }

  lemma CarriedOverLater(disks: seq<Disk>, files: Disk, j: nat, name: string, e0: ChartEntry, e: ChartEntry)
    requires CarriedOver(disks, j, name, e0, e)
    ensures CarriedOver(disks + [files], j, name, e0, e)
  {
    if e != e0 {
      var l :| j <= l < |disks| && InScan(disks[l], name, e);
      assert (disks + [files])[l] == disks[l];
    }
  }

  lemma CachedLater(parser: Parser, disks: seq<Disk>, files: Disk, name: string, e: ChartEntry, app: App)
    requires Cached(parser, disks, name, e, app)
    ensures Cached(parser, disks + [files], name, e, app)
  {
    var j: nat, e0 :| LoadedAt(parser, disks, j, name, e0, app) && CarriedOver(disks, j, name, e0, e);
    assert (disks + [files])[..j + 1] == disks[..j + 1] && (disks + [files])[j] == disks[j];
    assert LoadedAt(parser, disks + [files], j, name, e0, app);
    CarriedOverLater(disks, files, j, name, e0, e);
  }

  lemma AllIndexedLater(disks: seq<Disk>, files: Disk, index: Index)
    requires AllIndexed(disks, index)
    ensures AllIndexed(disks + [files], index)
  {
    forall n | n in index { IndexedLater(disks, files, n, index[n]); }
  }

  lemma AllCachedLater(parser: Parser, disks: seq<Disk>, files: Disk, w: World)
    requires w.parsed.Keys <= w.index.Keys && AllCached(parser, disks, w)
    ensures AllCached(parser, disks + [files], w.(files := files))
  {
    forall n | n in w.parsed { CachedLater(parser, disks, files, n, w.index[n], w.parsed[n]); }
  }

  /** Whatever happens to the disk, the provenance of the cache stays. */
  lemma DiskChangeKeepsInv(parser: Parser, disks: seq<Disk>, w: World, files: Disk)
    requires Inv(parser, disks, w)
    ensures Inv(parser, disks + [files], w.(files := files))
  {
    AllIndexedLater(disks, files, w.index);
    AllCachedLater(parser, disks, files, w);
  }

  lemma ScannedInScan(files: Disk, appsReadable: bool, modelsReadable: bool, index: Index, name: string)
    requires IndexOf(files, appsReadable, modelsReadable, index) && name in index
    ensures InScan(files, name, index[name])
  {
    var apps: Index :| Scanned(files, ChartsDir, "app", appsReadable, map[], apps)
                       && Scanned(files, ModelsDir, "model", modelsReadable, apps, index);
  }

  /** A value that survives a rescan is carried over to the new entry. */
  lemma CachedRescanned(parser: Parser, disks: seq<Disk>, name: string, e: ChartEntry, e': ChartEntry, app: App)
    requires disks != [] && Cached(parser, disks, name, e, app) && SameStamps(e, e') && InScan(Last(disks), name, e')
    ensures Cached(parser, disks, name, e', app)
  {
    var j: nat, e0 :| LoadedAt(parser, disks, j, name, e0, app) && CarriedOver(disks, j, name, e0, e);
    assert j <= |disks| - 1 < |disks| && InScan(disks[|disks| - 1], name, e');
    assert CarriedOver(disks, j, name, e0, e');
  }

  lemma RestrictBound<V>(m: map<string, V>, r: map<string, V>)
    requires r.Keys <= m.Keys
    ensures |r| <= |m|
  {
    SubsetBound(r.Keys, m.Keys);
  }

  lemma RescanKeepsInv(parser: Parser, disks: seq<Disk>, w: World, appsReadable: bool, modelsReadable: bool, w': World)
    requires Inv(parser, disks, w) && RescanStep(w, appsReadable, modelsReadable, w')
    ensures Inv(parser, disks, w')
  {
    RestrictBound(w.parsed, w'.parsed);
    forall n | n in w'.index ensures InScan(Last(disks), n, w'.index[n]) && Indexed(disks, n, w'.index[n]) {
      ScannedInScan(w.files, appsReadable, modelsReadable, w'.index, n);
      assert InScan(disks[|disks| - 1], n, w'.index[n]);
    }
    forall n | n in w'.parsed ensures n in w'.index && Cached(parser, disks, n, w'.index[n], w'.parsed[n]) {
      assert n !in DriftedNames(w.index, w'.index) && n in w.index;
      CachedRescanned(parser, disks, n, w.index[n], w'.index[n], w.parsed[n]);
    }
  }

  lemma EvictKeepsInv(parser: Parser, disks: seq<Disk>, w: World, parsed: map<string, App>)
    requires Inv(parser, disks, w) && parsed.Keys <= w.parsed.Keys && forall n :: n in parsed ==>
              parsed[n] == w.parsed[n]
    ensures Inv(parser, disks, w.(parsed := parsed))
  {
    RestrictBound(w.parsed, parsed);
  }

  lemma PutBound<V>(m: map<string, V>, k: string, v: V)
    requires k !in m
    ensures |m[k := v]| == |m| + 1
  {
    assert m[k := v].Keys == m.Keys + {k};
  }

  lemma DropBound<V>(m: map<string, V>, k: string)
    requires k in m
    ensures |m - {k}| == |m| - 1
  {
    assert (m - {k}).Keys == m.Keys - {k};
  }

  lemma LruAddBound(before: map<string, App>, name: string, app: App, after: map<string, App>)
    requires LruAdd(before, name, app, after) && |before| <= LRU_CACHE_SIZE && name !in before
    ensures |after| <= LRU_CACHE_SIZE && name in after && after[name] == app
    ensures |before| == LRU_CACHE_SIZE ==> |after| == LRU_CACHE_SIZE
    ensures forall n :: n in after && n != name ==> n in before && after[n] == before[n]
  {
    if |before| < LRU_CACHE_SIZE {
      PutBound(before, name, app);
    } else {
      var victim :| victim in before && after == (before - {victim})[name := app];
      DropBound(before, victim);
      PutBound(before - {victim}, name, app);
    }
  }

  lemma LoadedNow(parser: Parser, disks: seq<Disk>, name: string, e: ChartEntry, app: App)
    requires disks != [] && Indexed(disks, name, e) && FreshLoad(parser, name, e, Last(disks)) == Some(app)
    ensures Cached(parser, disks, name, e, app)
  {
    assert disks[..|disks| - 1 + 1] == disks;
    assert LoadedAt(parser, disks, |disks| - 1, name, e, app);
  }

  lemma LoadKeepsInv(parser: Parser, disks: seq<Disk>, w: World, name: string, app: App, w': World)
    requires Inv(parser, disks, w) && name in w.index && name !in w.parsed
    requires FreshLoad(parser, name, w.index[name], w.files) == Some(app)
    requires w' == w.(parsed := w'.parsed) && LruAdd(w.parsed, name, app, w'.parsed)
    ensures Inv(parser, disks, w')
  {
    LruAddBound(w.parsed, name, app, w'.parsed);
    LoadedNow(parser, disks, name, w.index[name], app);
    forall n | n in w'.parsed ensures Cached(parser, disks, n, w'.index[n], w'.parsed[n]) {
      if n != name { assert Cached(parser, disks, n, w.index[n], w.parsed[n]); }
    }
  }

  lemma LookupKeepsInv(parser: Parser, disks: seq<Disk>, w: World, name: string, result: Option<App>, w': World)
    requires Inv(parser, disks, w) && LookupStep(parser, w, name, result, w')
    ensures Inv(parser, disks, w')
  {
    if w' != w {
      var dropped := w.(parsed := w.parsed - {name});
      EvictKeepsInv(parser, disks, w, dropped.parsed);
      if result.Some? { LoadKeepsInv(parser, disks, dropped, name, result.value, w'); }
    }
  }

  lemma StepKeepsInv(parser: Parser, disks: seq<Disk>, w: World, op: Op, w': World)
    requires Inv(parser, disks, w) && Step(parser, w, op, w')
    ensures Inv(parser, if ChangesDisk(op) then disks + [w'.files] else disks, w')
  {
    match op
    case Write(_, _) => DiskChangeKeepsInv(parser, disks, w, w'.files);
    case Delete(_) => DiskChangeKeepsInv(parser, disks, w, w'.files);
    case Rescan(a, m) => RescanKeepsInv(parser, disks, w, a, m, w');
    case Evict(name) => EvictKeepsInv(parser, disks, w, w'.parsed);
    case Lookup(name, result) => LookupKeepsInv(parser, disks, w, name, result, w');
  }

  lemma RunPrefix(parser: Parser, ws: seq<World>, ops: seq<Op>, n: nat)
    requires Run(parser, ws, ops) && n <= |ops|
    ensures Run(parser, ws[..n + 1], ops[..n])
  {
  }

  lemma TraceStep(ws: seq<World>, ops: seq<Op>, n: nat)
    requires |ws| == |ops| + 1 && |ops| == n + 1
    ensures var before := Trace(ws[..n + 1], ops[..n]);
      Trace(ws, ops) == if ChangesDisk(ops[n]) then before + [ws[n + 1].files] else before
  {
  }

  lemma {:induction false} RunKeepsInv(parser: Parser, ws: seq<World>, ops: seq<Op>)
    requires Run(parser, ws, ops)
    ensures Inv(parser, Trace(ws, ops), Last(ws))
    decreases |ops|
  {
    if ops != [] {
      var n := |ops| - 1;
      TraceStep(ws, ops, n);
      RunPrefix(parser, ws, ops, n);
      RunKeepsInv(parser, ws[..n + 1], ops[..n]);
      RunStepKeepsInv(parser, Trace(ws[..n + 1], ops[..n]), ws, ops, n);
    } else {
      StartInv(parser, ws[0]);
    }
  }

  lemma StartInv(parser: Parser, w: World)
    requires w.index == map[] && w.parsed == map[]
    ensures Inv(parser, [w.files], w)
  {
  }

  lemma RunStepKeepsInv(parser: Parser, disks: seq<Disk>, ws: seq<World>, ops: seq<Op>, n: nat)
    requires Run(parser, ws, ops) && n < |ops| && Inv(parser, disks, ws[n])
    ensures Inv(parser, if ChangesDisk(ops[n]) then disks + [ws[n + 1].files] else disks, ws[n + 1])
  {
    assert Step(parser, ws[n], ops[n], ws[n + 1]);
    StepKeepsInv(parser, disks, ws[n], ops[n], ws[n + 1]);
  }

  // ---------------------------------------------------------------- when a lookup reads the disk

  /** A load from one disk, by its entry, can differ from what the other holds under the other entry. */
  predicate TellsApart(files: Disk, e: ChartEntry, files': Disk, e': ChartEntry) {
    && TextAt(files, e.sidecarPath).Some?
    && (TextAt(files', e'.sidecarPath) != TextAt(files, e.sidecarPath)
         || ArchiveText(files', e') != ArchiveText(files, e))
  }

  /**
   * The latest disk shows the times of an entry `e`, and yet the disk of the load, at moment `j`, held something
   * else under the entry `e0` that a scan had found by then.
   */
  ghost predicate Mixup(disks: seq<Disk>, name: string, j: nat, e0: ChartEntry, e: ChartEntry)
    requires disks != []
  {
    && j < |disks| && Indexed(disks[..j + 1], name, e0) && CarriedOver(disks, j, name, e0, e)
    && Unchanged(e, Last(disks)) && TellsApart(disks[j], e0, Last(disks), e)
  }

  /** A condition on the history of the disk alone: nothing in it speaks of a cache. */
  ghost predicate Confused(disks: seq<Disk>)
    requires disks != []
  {
    exists name, j: nat, e0, e :: Mixup(disks, name, j, e0, e)
  }

  /** A hit is what a fresh load would be. */
  lemma HitReadsTheDisk(parser: Parser, disks: seq<Disk>, name: string, e: ChartEntry, app: App)
    requires disks != [] && Cached(parser, disks, name, e, app) && Unchanged(e, Last(disks)) && !Confused(disks)
    ensures FreshLoad(parser, name, e, Last(disks)) == Some(app)
  {
    var j: nat, e0 :| LoadedAt(parser, disks, j, name, e0, app) && CarriedOver(disks, j, name, e0, e);
    assert !Mixup(disks, name, j, e0, e);
  }

  lemma LookupReadsTheDisk(parser: Parser, disks: seq<Disk>, w: World, name: string, result: Option<App>, w': World)
    requires Inv(parser, disks, w) && LookupStep(parser, w, name, result, w') && !Confused(disks)
    ensures result == Answer(parser, w.files, w.index, name)
  {
    if name in w.parsed && Unchanged(w.index[name], w.files) {
      HitReadsTheDisk(parser, disks, name, w.index[name], w.parsed[name]);
    }
  }

  /** A lookup is answered from the disk: none for a name that is not indexed, else as its entry says. */
  ghost predicate AnsweredFromDisk(parser: Parser, files: Disk, index: Index, name: string, answer: Option<App>) {
    if name in index then IsAnswer(parser, name, index[name], files, answer) else answer == None
  }

  lemma AnswerIsFromDisk(parser: Parser, files: Disk, index: Index, name: string)
    ensures AnsweredFromDisk(parser, files, index, name, Answer(parser, files, index, name))
  {
    if name in index { FreshLoadIsAnswer(parser, name, index[name], files); }
  }

  /** In every run, while the disk's history is not confused, every lookup answers what reading the disk now would. */
  lemma LookupsReadTheDisk(parser: Parser, ws: seq<World>, ops: seq<Op>, i: nat)
    requires Run(parser, ws, ops) && i < |ops| && ops[i].Lookup?
    requires !Confused(Trace(ws[..i + 1], ops[..i]))
    ensures ops[i].result == Answer(parser, ws[i].files, ws[i].index, ops[i].name)
    ensures AnsweredFromDisk(parser, ws[i].files, ws[i].index, ops[i].name, ops[i].result)
    ensures |ws[i].parsed| <= 64
  {
    AnswerIsFromDisk(parser, ws[i].files, ws[i].index, ops[i].name);
    RunPrefix(parser, ws, ops, i);
    RunKeepsInv(parser, ws[..i + 1], ops[..i]);
    assert Step(parser, ws[i], ops[i], ws[i + 1]);
    LookupReadsTheDisk(parser, Trace(ws[..i + 1], ops[..i]), ws[i], ops[i].name, ops[i].result, ws[i + 1]);
  }

  // ---------------------------------------------------------------- fresh times

  predicate DistinctTimes(files: Disk) {
    forall p, q :: p in files && q in files && p != q ==> files[p].mtime != files[q].mtime
  }

  /** A time later than every time seen so far. */
  predicate NewTime(disks: seq<Disk>, m: nat) {
    forall i, p :: 0 <= i < |disks| && p in disks[i] ==> disks[i][p].mtime < m
  }

  ghost predicate FreshChange(disks: seq<Disk>, files: Disk)
    requires disks != []
  {
    exists p :: files == Last(disks) - {p}
        || (p in files && files == Last(disks)[p := files[p]] && NewTime(disks, files[p].mtime))
  }

  /** Files are deleted, and written with new times. */
  ghost predicate FreshHistory(disks: seq<Disk>)
    requires disks != []
  {
    DistinctTimes(disks[0]) && forall i :: 0 < i < |disks| ==> FreshChange(disks[..i], disks[i])
  }

  lemma FreshChangeDistinct(disks: seq<Disk>, files: Disk)
    requires disks != [] && FreshChange(disks, files) && DistinctTimes(Last(disks))
    ensures DistinctTimes(files)
  {
    assert NewerThanLast(disks);
  }

  /** What NewTime says of the latest disk. */
  ghost predicate NewerThanLast(disks: seq<Disk>)
    requires disks != []
  {
    forall m, p :: NewTime(disks, m) && p in Last(disks) ==> Last(disks)[p].mtime < m
  }

  lemma {:induction false} FreshDistinct(disks: seq<Disk>, k: nat)
    requires disks != [] && FreshHistory(disks) && k < |disks|
    ensures DistinctTimes(disks[k])
  {
    if k > 0 {
      FreshDistinct(disks, k - 1);
      assert FreshChange(disks[..k], disks[k]) && Last(disks[..k]) == disks[k - 1];
      FreshChangeDistinct(disks[..k], disks[k]);
    }
  }

  /** A file with a time that was on the disk at moment `i` has been there, as it is, ever since. */
  lemma {:induction false} Persists(disks: seq<Disk>, i: nat, k: nat, p: Path, q: Path, t: nat)
    requires disks != [] && FreshHistory(disks) && i <= t <= k < |disks|
    requires q in disks[i] && p in disks[k] && disks[k][p].mtime == disks[i][q].mtime
    ensures p in disks[t] && disks[t][p] == disks[k][p]
    decreases k
  {
    if t < k {
      assert FreshChange(disks[..k], disks[k]) && Last(disks[..k]) == disks[k - 1];
      assert disks[..k][i] == disks[i];
      assert p in disks[k - 1] && disks[k - 1][p] == disks[k][p];
      Persists(disks, i, k - 1, p, q, t);
    }
  }

  /** Fresh times suffice. */
  lemma FreshIsNotConfused(disks: seq<Disk>)
    requires disks != [] && FreshHistory(disks)
    ensures !Confused(disks)
  {
    forall name, j: nat, e0, e ensures !Mixup(disks, name, j, e0, e) {
      if j < |disks| && Indexed(disks[..j + 1], name, e0) && CarriedOver(disks, j, name, e0, e)
          && Unchanged(e, Last(disks)) {
        FreshLoadsAgree(disks, name, j, e0, e);
      }
    }
  }

  lemma FreshLoadsAgree(disks: seq<Disk>, name: string, j: nat, e0: ChartEntry, e: ChartEntry)
    requires disks != [] && FreshHistory(disks) && j < |disks|
    requires Indexed(disks[..j + 1], name, e0) && CarriedOver(disks, j, name, e0, e) && Unchanged(e, Last(disks))
    ensures !TellsApart(disks[j], e0, Last(disks), e)
  {
    var i :| 0 <= i < |disks[..j + 1]| && InScan(disks[..j + 1][i], name, e0);
    assert SameStamps(e0, e) && disks[..j + 1][i] == disks[i];
    FreshEntriesAgree(disks, name, i, j, e0, e);
  }

  lemma FreshEntriesAgree(disks: seq<Disk>, name: string, i: nat, j: nat, e0: ChartEntry, e: ChartEntry)
    requires disks != [] && FreshHistory(disks) && i <= j < |disks|
    requires InScan(disks[i], name, e0) && SameStamps(e0, e) && Unchanged(e, Last(disks))
    ensures !TellsApart(disks[j], e0, Last(disks), e)
  {
    var k := |disks| - 1;
    StampedOnDisk(disks[i], name, e0);
    Persists(disks, i, k, e.sidecarPath, e0.sidecarPath, i);
    Persists(disks, i, k, e.sidecarPath, e0.sidecarPath, j);
    FreshDistinct(disks, i);
    if e.tgzPath.Some? {
      Persists(disks, i, k, e.tgzPath.value, e.tgzPath.value, j);
    }
  }

  /** A scanned entry bears the times of the files it names. */
  lemma StampedOnDisk(files: Disk, name: string, e: ChartEntry)
    requires InScan(files, name, e)
    ensures Unchanged(e, files)
  {
  }

  /** So with a fresh time for every write, every lookup of every run answers what reading the disk now would. */
  lemma FreshRunsReadTheDisk(parser: Parser, ws: seq<World>, ops: seq<Op>, i: nat)
    requires Run(parser, ws, ops) && i < |ops| && ops[i].Lookup? && FreshHistory(Trace(ws[..i + 1], ops[..i]))
    ensures ops[i].result == Answer(parser, ws[i].files, ws[i].index, ops[i].name)
    ensures AnsweredFromDisk(parser, ws[i].files, ws[i].index, ops[i].name, ops[i].result)
  {
    FreshIsNotConfused(Trace(ws[..i + 1], ops[..i]));
    LookupsReadTheDisk(parser, ws, ops, i);
  }

  // ---------------------------------------------------------------- every entry on disk can be scanned

  lemma {:induction false} NewestOfPrefix(files: Disk, dir: Dir, app: string, q: seq<string>, i: nat)
    returns (best: Option<Archive>)
    requires i <= |q| && forall k, l :: 0 <= k < l < |q| ==> Leq(q[k], q[l])
    ensures Newest(files, dir, app, Elements(q[..i]), best)
  {
    if i == 0 { return None; }
    best := NewestOfPrefix(files, dir, app, q, i - 1);
    var n := q[i - 1];
    NewestExtends(files, dir, app, Elements(q[..i - 1]), best, n);
    assert q[..i] == q[..i - 1] + [n];
    assert Elements(q[..i]) == Elements(q[..i - 1]) + {n};
    if IsArchiveOf(files, dir, n, app) && (best.None? || files[Path(dir, n)].mtime > best.value.mtime) {
      best := Some(Archive(Path(dir, n), files[Path(dir, n)].mtime));
    }
  }

  lemma NewestExists(files: Disk, dir: Dir, app: string, names: set<string>) returns (best: Option<Archive>)
    ensures Newest(files, dir, app, names, best)
  {
    var q := Sorted(names);
    best := NewestOfPrefix(files, dir, app, q, |q|);
    assert q[..|q|] == q && Elements(q) == names;
  }

  /** No two archives are the newest: a scan of a directory leaves nothing open. */
  lemma NewestUnique(files: Disk, dir: Dir, app: string, names: set<string>, a: Option<Archive>, b: Option<Archive>)
    requires Newest(files, dir, app, names, a) && Newest(files, dir, app, names, b)
    ensures a == b
  {
    if a.Some? && b.Some? {
      assert Outranks(files, dir, a.value.path.name, b.value.path.name)
          && Outranks(files, dir, b.value.path.name, a.value.path.name);
      LeqAntisymmetric(a.value.path.name, b.value.path.name);
    }
  }

  lemma EntryUnique(files: Disk, dir: Dir, kind: string, app: string, e: ChartEntry, e': ChartEntry)
    requires EntryFor(files, dir, kind, app, e) && EntryFor(files, dir, kind, app, e')
    ensures e == e'
  {
    var best := if e.tgzPath.None? then None else Some(Archive(e.tgzPath.value, e.tgzMtime));
    var best' := if e'.tgzPath.None? then None else Some(Archive(e'.tgzPath.value, e'.tgzMtime));
    NewestUnique(files, dir, app, NamesIn(files, dir), best, best');
  }

  lemma EntryExists(files: Disk, dir: Dir, kind: string, app: string)
    requires HasSidecar(files, dir, app)
    ensures exists e :: EntryFor(files, dir, kind, app, e)
  {
    var best := NewestExists(files, dir, app, NamesIn(files, dir));
    var p := Path(dir, app + ".json");
    var e := if best.None? then ChartEntry(p, files[p].mtime, None, 0, kind)
             else ChartEntry(p, files[p].mtime, Some(best.value.path), best.value.mtime, kind);
    assert EntryFor(files, dir, kind, app, e);
  }

  /** Some entry for an app, and the given one for the given app. */
  ghost function PickEntry(files: Disk, dir: Dir, kind: string, name: string, e: ChartEntry,
      app: string): (e': ChartEntry)
    requires EntryFor(files, dir, kind, name, e) && HasSidecar(files, dir, app)
    ensures EntryFor(files, dir, kind, app, e') && (app == name ==> e' == e)
  {
    EntryExists(files, dir, kind, app);
    if app == name then e else var e' :| EntryFor(files, dir, kind, app, e'); e'
  }

  function SidecarApps(files: Disk, dir: Dir): (apps: set<string>)
    ensures forall app :: app in apps <==> HasSidecar(files, dir, app)
  {
    var apps := set p | p in files && p.dir == dir && files[p].Regular?
        && HasSuffix(p.name, ".json") :: p.name[..|p.name| - 5];
    assert forall app :: HasSidecar(files, dir, app) ==> app in apps by {
      forall app | HasSidecar(files, dir, app) ensures app in apps {
        var p := Path(dir, app + ".json");
        assert HasSuffix(p.name, ".json") && p.name[..|p.name| - 5] == app;
      }
    }
    assert forall p :: p in files && HasSuffix(p.name, ".json") ==> p.name == p.name[..|p.name| - 5] + ".json";
    apps
  }

  lemma ScannedWith(files: Disk, dir: Dir, kind: string, name: string, e: ChartEntry) returns (after: Index)
    requires EntryFor(files, dir, kind, name, e)
    ensures Scanned(files, dir, kind, true, map[], after) && name in after && after[name] == e
  {
    after := map app | app in SidecarApps(files, dir) :: PickEntry(files, dir, kind, name, e, app);
  }

  /** A scan that yields the entry: of the one directory while the other cannot be read. */
  lemma IndexWith(files: Disk, name: string, e: ChartEntry)
      returns (appsReadable: bool, modelsReadable: bool, index: Index)
    requires InScan(files, name, e)
    ensures IndexOf(files, appsReadable, modelsReadable, index) && name in index && index[name] == e
  {
    if EntryFor(files, ChartsDir, "app", name, e) {
      index := ScannedWith(files, ChartsDir, "app", name, e);
      appsReadable, modelsReadable := true, false;
      assert Scanned(files, ModelsDir, "model", false, index, index);
    } else {
      index := ScannedWith(files, ModelsDir, "model", name, e);
      appsReadable, modelsReadable := false, true;
      assert Scanned(files, ChartsDir, "app", false, map[], map[]);
    }
  }

  // ---------------------------------------------------------------- every confused history is served stale

  /** Every change of the disk is one write or one delete. */
  ghost predicate History(disks: seq<Disk>) {
    disks != [] && forall i :: 0 < i < |disks| ==> IsChange(disks[i - 1], disks[i])
  }

  ghost predicate IsChange(files: Disk, files': Disk) {
    exists op :: ChangesDisk(op) && files' == DiskAfter(files, op)
  }

  /** Some run leads the disk through these states and ends in this world. */
  ghost predicate Reached(parser: Parser, disks: seq<Disk>, w: World) {
    exists ws, ops :: RunTo(parser, ws, ops, disks, w)
  }

  ghost predicate RunTo(parser: Parser, ws: seq<World>, ops: seq<Op>, disks: seq<Disk>, w: World) {
    Run(parser, ws, ops) && Trace(ws, ops) == disks && Last(ws) == w
  }

  lemma ReachedStart(parser: Parser, files: Disk)
    ensures Reached(parser, [files], World(files, map[], map[]))
  {
    assert RunTo(parser, [World(files, map[], map[])], [], [files], World(files, map[], map[]));
  }

  lemma ReachedStep(parser: Parser, disks: seq<Disk>, w: World, op: Op, w': World)
    requires Reached(parser, disks, w) && Step(parser, w, op, w')
    ensures Reached(parser, if ChangesDisk(op) then disks + [w'.files] else disks, w')
  {
    var ws, ops :| RunTo(parser, ws, ops, disks, w);
    RunExtends(parser, ws, ops, op, w');
    assert RunTo(parser, ws + [w'], ops + [op], if ChangesDisk(op) then disks + [w'.files] else disks, w');
  }

  lemma RunExtends(parser: Parser, ws: seq<World>, ops: seq<Op>, op: Op, w': World)
    requires Run(parser, ws, ops) && Step(parser, Last(ws), op, w')
    ensures Run(parser, ws + [w'], ops + [op])
    ensures Trace(ws + [w'], ops + [op]) == if ChangesDisk(op) then Trace(ws, ops) + [w'.files] else Trace(ws, ops)
  {
    var n := |ops|;
    assert (ws + [w'])[..n + 1] == ws && (ops + [op])[..n] == ops;
    TraceStep(ws + [w'], ops + [op], n);
  }

  /** The catalog can do nothing while the disk moves on. */
  lemma {:induction false} ReachedAlong(parser: Parser, disks: seq<Disk>, m: nat, n: nat, w: World)
    requires History(disks) && 0 < m <= n <= |disks| && Reached(parser, disks[..m], w) && w.files == disks[m - 1]
    ensures Reached(parser, disks[..n], w.(files := disks[n - 1]))
    decreases n
  {
    if m < n {
      ReachedAlong(parser, disks, m, n - 1, w);
      assert IsChange(disks[n - 2], disks[n - 1]);
      var op :| ChangesDisk(op) && disks[n - 1] == DiskAfter(disks[n - 2], op);
      ReachedStep(parser, disks[..n - 1], w.(files := disks[n - 2]), op, w.(files := disks[n - 1]));
      assert disks[..n] == disks[..n - 1] + [disks[n - 1]];
    }
  }

  lemma MovesOn(disks: seq<Disk>, from_: nat, to_: nat, index: Index, parsed: map<string, App>)
    requires History(disks) && from_ <= to_ < |disks|
             && Reached(TEXT_PARSER, disks[..from_ + 1], World(disks[from_], index, parsed))
    ensures Reached(TEXT_PARSER, disks[..to_ + 1], World(disks[to_], index, parsed))
  {
    ReachedAlong(TEXT_PARSER, disks, from_ + 1, to_ + 1, World(disks[from_], index, parsed));
  }

  /** A parser that keeps everything it reads. */
  const TEXT_PARSER := Parser(content => Some(App(content, [])), (archive, app) => Some([archive]))

  lemma TextParserTellsApart(name: string, files: Disk, e: ChartEntry, files': Disk, e': ChartEntry)
    requires TellsApart(files, e, files', e')
    ensures FreshLoad(TEXT_PARSER, name, e, files).Some?
    ensures FreshLoad(TEXT_PARSER, name, e', files') != FreshLoad(TEXT_PARSER, name, e, files)
  {
  }

  /** A first scan, at moment `i`. */
  lemma ScanReached(disks: seq<Disk>, i: nat, name: string, e0: ChartEntry) returns (index: Index)
    requires History(disks) && i < |disks| && InScan(disks[i], name, e0)
    ensures Reached(TEXT_PARSER, disks[..i + 1], World(disks[i], index, map[])) && name in index && index[name] == e0
  {
    ReachedStart(TEXT_PARSER, disks[0]);
    assert disks[..1] == [disks[0]];
    MovesOn(disks, 0, i, map[], map[]);
    var a, m;
    a, m, index := IndexWith(disks[i], name, e0);
    var before, after := World(disks[i], map[], map[]), World(disks[i], index, map[]);
    assert RescanStep(before, a, m, after);
    ReachedStep(TEXT_PARSER, disks[..i + 1], before, Rescan(a, m), after);
  }

  lemma FirstLoad(parser: Parser, files: Disk, index: Index, name: string, app: App)
    requires name in index && FreshLoad(parser, name, index[name], files) == Some(app)
    ensures LookupStep(parser, World(files, index, map[]), name, Some(app), World(files, index, map[name := app]))
  {
    var w := World(files, index, map[]);
    assert w.parsed - {name} == map[];
  }

  /** Then a lookup, at moment `j`. */
  lemma LoadReached(disks: seq<Disk>, i: nat, j: nat, name: string, e0: ChartEntry, app: App) returns (index: Index)
    requires History(disks) && i <= j < |disks| && InScan(disks[i], name, e0)
    requires FreshLoad(TEXT_PARSER, name, e0, disks[j]) == Some(app)
    ensures Reached(TEXT_PARSER, disks[..j + 1], World(disks[j], index, map[name := app])) && name in index
            && index[name] == e0
  {
    index := ScanReached(disks, i, name, e0);
    MovesOn(disks, i, j, index, map[]);
    FirstLoad(TEXT_PARSER, disks[j], index, name, app);
    ReachedStep(TEXT_PARSER, disks[..j + 1], World(disks[j], index, map[]), Lookup(name, Some(app)),
                World(disks[j], index, map[name := app]));
  }

  lemma CarryStep(files: Disk, a: bool, m: bool, index: Index, later: Index, name: string, app: App)
    requires IndexOf(files, a, m, later) && name in index && name in later && SameStamps(index[name], later[name])
    ensures RescanStep(World(files, index, map[name := app]), a, m, World(files, later, map[name := app]))
  {
    var parsed := map[name := app];
    assert name !in DriftedNames(index, later);
    assert parsed - DriftedNames(index, later) == parsed;
  }

  /** Then a second scan: with the same stamps the cached value stays. */
  lemma CarryHere(disks: seq<Disk>, files: Disk, name: string, e: ChartEntry, index: Index, app: App)
      returns (later: Index)
    requires name in index && SameStamps(index[name], e) && InScan(files, name, e)
    requires Reached(TEXT_PARSER, disks, World(files, index, map[name := app]))
    ensures Reached(TEXT_PARSER, disks, World(files, later, map[name := app])) && name in later && later[name] == e
  {
    var a, m;
    a, m, later := IndexWith(files, name, e);
    CarryStep(files, a, m, index, later, name, app);
    ReachedStep(TEXT_PARSER, disks, World(files, index, map[name := app]), Rescan(a, m),
        World(files, later, map[name := app]));
  }

  /** At the end the cached value answers a lookup. */
  lemma HitReached(disks: seq<Disk>, at: nat, name: string, index: Index, app: App) returns (w: World)
    requires History(disks) && at < |disks| && name in index && Unchanged(index[name], Last(disks))
    requires Reached(TEXT_PARSER, disks[..at + 1], World(disks[at], index, map[name := app]))
    ensures Reached(TEXT_PARSER, disks, w) && LookupStep(TEXT_PARSER, w, name, Some(app), w)
    ensures w.files == Last(disks) && w.index == index
  {
    MovesOn(disks, at, |disks| - 1, index, map[name := app]);
    assert disks[..|disks|] == disks;
    w := World(Last(disks), index, map[name := app]);
  }

  /** The cached value of a load reaches the end, under the entry of the mix-up. */
  lemma MixupReached(disks: seq<Disk>, name: string, i: nat, j: nat, e0: ChartEntry, e: ChartEntry, app: App)
      returns (w: World)
    requires History(disks) && i <= j < |disks| && InScan(disks[i], name, e0) && CarriedOver(disks, j, name, e0, e)
    requires FreshLoad(TEXT_PARSER, name, e0, disks[j]) == Some(app) && Unchanged(e, Last(disks))
    ensures Reached(TEXT_PARSER, disks, w) && LookupStep(TEXT_PARSER, w, name, Some(app), w)
    ensures w.files == Last(disks) && name in w.index && w.index[name] == e
  {
    var index := LoadReached(disks, i, j, name, e0, app);
    if e == e0 {
      w := HitReached(disks, j, name, index, app);
    } else {
      var l: nat :| j <= l < |disks| && InScan(disks[l], name, e);
      MovesOn(disks, j, l, index, map[name := app]);
      index := CarryHere(disks[..l + 1], disks[l], name, e, index, app);
      w := HitReached(disks, l, name, index, app);
    }
  }

  /** Every confused history has a run with a lookup that answers what the disk does not hold. */
  lemma ConfusedIsServedStale(disks: seq<Disk>) returns (w: World, name: string, app: App)
    requires History(disks) && Confused(disks)
    ensures Reached(TEXT_PARSER, disks, w) && LookupStep(TEXT_PARSER, w, name, Some(app), w)
    ensures Answer(TEXT_PARSER, w.files, w.index, name) != Some(app)
  {
    var j: nat, e0, e;
    name, j, e0, e :| Mixup(disks, name, j, e0, e);
    var i: nat :| i < |disks[..j + 1]| && InScan(disks[..j + 1][i], name, e0);
    TextParserTellsApart(name, disks[j], e0, Last(disks), e);
    app := FreshLoad(TEXT_PARSER, name, e0, disks[j]).value;
    w := MixupReached(disks, name, i, j, e0, e, app);
  }

  /** The cache is invisible after this history of the disk, to every parser and in every run. */
  ghost predicate Invisible(disks: seq<Disk>) {
    forall parser, w, name, result, w' ::
      Reached(parser, disks, w) && LookupStep(parser, w, name, result, w') ==>
          result == Answer(parser, w.files, w.index, name)
  }

  /** And it is so exactly when the history is not confused. */
  lemma InvisibleIff(disks: seq<Disk>)
    requires History(disks)
    ensures Invisible(disks) <==> !Confused(disks)
  {
    if Confused(disks) {
      var w, name, app := ConfusedIsServedStale(disks);
    } else {
      forall parser, w, name, result, w' | Reached(parser, disks, w) && LookupStep(parser, w, name, result, w')
        ensures result == Answer(parser, w.files, w.index, name)
      {
        var ws, ops :| RunTo(parser, ws, ops, disks, w);
        RunKeepsInv(parser, ws, ops);
        LookupReadsTheDisk(parser, disks, w, name, result, w');
      }
    }
  }

  // ---------------------------------------------------------------- the kinds of confusion

  /**
   * The times of a scanned entry show over other contents than were loaded under it: a time restored, or given
   * twice.
   */
  lemma TimeShowsAgain(disks: seq<Disk>, name: string, e: ChartEntry, i: nat, j: nat)
    requires i <= j < |disks| && InScan(disks[i], name, e) && Unchanged(e, Last(disks))
             && TellsApart(disks[j], e, Last(disks), e)
    ensures Confused(disks)
  {
    assert disks[..j + 1][i] == disks[i];
    assert Mixup(disks, name, j, e, e);
  }

  /**
   * The sidecars of an app in the two directories bear one time, and one scan found the one, a later scan the
   * other.
   */
  lemma OtherDirectoryTakesOver(disks: seq<Disk>, name: string, e0: ChartEntry, e: ChartEntry, i: nat, l: nat)
    requires i <= l < |disks| && InScan(disks[i], name, e0) && InScan(disks[l], name, e) && SameStamps(e0, e)
    requires Unchanged(e, Last(disks)) && TellsApart(disks[i], e0, Last(disks), e)
    ensures Confused(disks)
  {
    assert disks[..i + 1][i] == disks[i];
    assert Mixup(disks, name, i, e0, e);
  }

  const SIDECAR := Path(ChartsDir, "a.json")
  const MODEL := Path(ModelsDir, "a.json")

  /** A file is rewritten, and then put back with its time, as a rename does. */
  const RESTORED: seq<Disk> := [map[SIDECAR := Regular("old", 1)], map[SIDECAR := Regular("new", 2)],
      map[SIDECAR := Regular("old", 1)]]

  /** Two directories hold a sidecar each with the same time, and one is deleted. */
  const TAKEN_OVER: seq<Disk> := [map[SIDECAR := Regular("app", 1), MODEL := Regular("model", 1)],
      map[SIDECAR := Regular("app", 1)]]

  /** No time is ever given to two contents of a path. */
  predicate TimesNameContents(disks: seq<Disk>) {
    forall i, j, p :: 0 <= i < |disks| && 0 <= j < |disks| && p in disks[i] && p in disks[j] ==>
      (disks[i][p].mtime == disks[j][p].mtime ==> disks[i][p] == disks[j][p])
  }

  lemma PlainEntry(files: Disk, dir: Dir, kind: string, e: ChartEntry)
    requires IsRegular(files, Path(dir, "a.json"))
    requires e == ChartEntry(Path(dir, "a.json"), files[Path(dir, "a.json")].mtime, None, 0, kind)
    requires forall p :: p in files ==> p.name == "a.json"
    ensures EntryFor(files, dir, kind, "a", e)
  {
    assert "a" + ".json" == "a.json" && !HasSuffix("a.json", ".tgz");
  }

  /** It takes no time given twice: a restored one is enough. */
  lemma RestoredIsConfused()
    ensures History(RESTORED) && TimesNameContents(RESTORED) && Confused(RESTORED)
  {
    assert RESTORED[1] == DiskAfter(RESTORED[0], Write(SIDECAR, Regular("new", 2)));
    assert RESTORED[2] == DiskAfter(RESTORED[1], Write(SIDECAR, Regular("old", 1)));
    assert IsChange(RESTORED[0], RESTORED[1]) && IsChange(RESTORED[1], RESTORED[2]);
    var e := ChartEntry(SIDECAR, 1, None, 0, "app");
    PlainEntry(RESTORED[0], ChartsDir, "app", e);
    assert "old"[0] != "new"[0];
    TimeShowsAgain(RESTORED, "a", e, 0, 1);
  }

  const TIED: seq<Disk> := [TiedDisk("y"), TiedDisk("z")]

  /** Two archives of an app with one time. */
  function TiedDisk(second: string): Disk {
    map[SIDECAR := Regular("a", 1), FIRST := Regular("x", 5), SECOND := Regular(second, 5)]
  }

  const FIRST := Path(ChartsDir, "a-1.tgz")
  const SECOND := Path(ChartsDir, "a-2.tgz")

  /** Nor does it take a file that is put back. */
  lemma TakenOverIsConfused()
    ensures History(TAKEN_OVER) && TimesNameContents(TAKEN_OVER) && Confused(TAKEN_OVER)
  {
    assert TAKEN_OVER[1] == DiskAfter(TAKEN_OVER[0], Delete(MODEL));
    assert IsChange(TAKEN_OVER[0], TAKEN_OVER[1]);
    var e0, e := ChartEntry(MODEL, 1, None, 0, "model"), ChartEntry(SIDECAR, 1, None, 0, "app");
    PlainEntry(TAKEN_OVER[0], ModelsDir, "model", e0);
    PlainEntry(TAKEN_OVER[1], ChartsDir, "app", e);
    assert "app"[0] != "model"[0];
    OtherDirectoryTakesOver(TAKEN_OVER, "a", e0, e, 0, 1);
  }

  const TIED_ENTRY := ChartEntry(SIDECAR, 1, Some(FIRST), 5, "app")

  lemma TiedNames()
    ensures HasSuffix("a-1.tgz", ".tgz") && AppOfArchive("a-1.tgz") == "a" && Leq("a-1.tgz", "a-2.tgz")
            && Leq("a-1.tgz", "a-1.tgz")
    ensures !HasSuffix("a.json", ".tgz")
  {
    assert "a-1.tgz"[..3] == "a-1" && "a-1"[..2] == "a-";
    assert LastDash("a-") == 1 && LastDash("a-1") == 1 && "a-1"[..1] == "a";
    LeqTotal("a-1.tgz", "a-1.tgz");
    var p, q := "a-1.tgz", "a-2.tgz";
    assert p[1..][0] == '-' && q[1..][0] == '-' && p[1..][1..][0] == '1' && q[1..][1..][0] == '2';
  }

  /** Each scan finds the first archive in name order. */
  lemma TiedScan(second: string, name: string, e: ChartEntry)
    requires InScan(TiedDisk(second), name, e)
    ensures e == TIED_ENTRY
  {
    var files := TiedDisk(second);
    SidecarOf("a", name);
    assert HasSidecar(files, ChartsDir, name) && name == "a";
    TiedNewest(second);
    assert EntryFor(files, ChartsDir, "app", "a", TIED_ENTRY);
    EntryUnique(files, ChartsDir, "app", "a", e, TIED_ENTRY);
  }

  lemma SidecarOf(app: string, name: string)
    ensures name + ".json" == app + ".json" ==> name == app
    ensures name + ".json" != "a-1.tgz" && name + ".json" != "a-2.tgz" && "a" + ".json" == "a.json"
  {
    assert (name + ".json")[..|name|] == name && (app + ".json")[..|app|] == app;
    assert (name + ".json")[|name| + 4] == 'n';
  }

  lemma TiedNewest(second: string)
    ensures Newest(TiedDisk(second), ChartsDir, "a", NamesIn(TiedDisk(second), ChartsDir), Some(Archive(FIRST, 5)))
  {
    var files := TiedDisk(second);
    TiedNames();
    assert FIRST.name in NamesIn(files, ChartsDir);
    forall n | n in NamesIn(files, ChartsDir)
        && IsArchiveOf(files, ChartsDir, n, "a") ensures Outranks(files, ChartsDir, FIRST.name, n) {
      assert n in {"a.json", "a-1.tgz", "a-2.tgz"};
    }
  }

  /** But of two archives with one time a scan always finds the first: rewriting the other confuses nothing. */
  lemma TiedIsNotConfused()
    ensures History(TIED) && !Confused(TIED)
  {
    assert TIED[1] == DiskAfter(TIED[0], Write(SECOND, Regular("z", 5)));
    assert IsChange(TIED[0], TIED[1]);
    forall name, j: nat, e0, e ensures !Mixup(TIED, name, j, e0, e) {
      if j < |TIED| && Indexed(TIED[..j + 1], name, e0) && CarriedOver(TIED, j, name, e0, e) {
        TiedEntries(name, j, e0, e);
      }
    }
  }

  lemma TiedEntries(name: string, j: nat, e0: ChartEntry, e: ChartEntry)
    requires j < |TIED| && Indexed(TIED[..j + 1], name, e0) && CarriedOver(TIED, j, name, e0, e)
    ensures !TellsApart(TIED[j], e0, Last(TIED), e)
  {
    var i :| 0 <= i < |TIED[..j + 1]| && InScan(TIED[..j + 1][i], name, e0);
    TiedScan(if i == 0 then "y" else "z", name, e0);
    if e != e0 {
      var l :| j <= l < |TIED| && InScan(TIED[l], name, e);
      TiedScan(if l == 0 then "y" else "z", name, e);
    }
  }
}
