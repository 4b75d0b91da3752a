/**
 * The market catalog (internal/market/catalog.go): a name index rebuilt by
 * directory scans, with a bounded cache of parsed entries above it that is
 * validated by two modification times per entry.
 */
module MarketCatalog {
  import opened Wrappers
  import opened Text
  import opened CatalogHistory

  /** `now` is `before` overlaid with the entries of the sidecars among the names seen so far. */
  ghost predicate PartlyScanned(files: Disk, dir: Dir, kind: string, seen: set<string>, before: Index, now: Index) {
    forall app ::
      if app + ".json" in seen && HasSidecar(files, dir, app) then
        app in now && EntryFor(files, dir, kind, app, now[app])
      else
        (app in now <==> app in before) && (app in now ==> now[app] == before[app])
  }

  lemma ScanSkips(files: Disk, dir: Dir, kind: string, seen: set<string>, before: Index, now: Index, name: string)
    requires PartlyScanned(files, dir, kind, seen, before, now)
    requires !(IsRegular(files, Path(dir, name)) && HasSuffix(name, ".json"))
    ensures PartlyScanned(files, dir, kind, seen + {name}, before, now)
  {
    forall app | app + ".json" == name ensures !HasSidecar(files, dir, app) {
      assert HasSuffix(app + ".json", ".json");
    }
  }

  lemma ScanAdds(files: Disk, dir: Dir, kind: string, seen: set<string>, before: Index, now: Index, app: string,
      e: ChartEntry)
    requires PartlyScanned(files, dir, kind, seen, before, now)
    requires EntryFor(files, dir, kind, app, e)
    ensures PartlyScanned(files, dir, kind, seen + {app + ".json"}, before, now[app := e])
  {
    forall other | other + ".json" == app + ".json" ensures other == app {
      assert other == (other + ".json")[..|other|] == (app + ".json")[..|app|] == app;
    }
  }

  lemma ScanDone(files: Disk, dir: Dir, kind: string, before: Index, now: Index)
    requires PartlyScanned(files, dir, kind, NamesIn(files, dir), before, now)
    ensures Scanned(files, dir, kind, true, before, now)
  {
    forall app | HasSidecar(files, dir, app) ensures app + ".json" in NamesIn(files, dir) {
      assert Path(dir, app + ".json").name in NamesIn(files, dir);
    }
  }

  lemma ElementsSnoc(names: seq<string>, i: nat)
    requires i < |names|
    ensures Elements(names[..i + 1]) == Elements(names[..i]) + {names[i]}
  {
    assert names[..i + 1] == names[..i] + [names[i]];
  }

  /** First pass of scanDir: the newest archive of each app in a directory. */
  method CollectArchives(files: Disk, dir: Dir, names: seq<string>) returns (tgzByApp: map<string, Archive>)
    requires forall n :: n in names ==> Path(dir, n) in files
    requires forall i, j :: 0 <= i < j < |names| ==> Leq(names[i], names[j])
    ensures forall app :: Newest(files, dir, app, Elements(names), At(tgzByApp, app))
  {
    tgzByApp := map[];
    for i := 0 to |names|
      invariant forall app :: Newest(files, dir, app, Elements(names[..i]), At(tgzByApp, app))
    {
      ElementsSnoc(names, i);
      ghost var before := tgzByApp;
      var p := Path(dir, names[i]);
      if files[p].Regular? && HasSuffix(names[i], ".tgz") {
        var app := AppOfArchive(names[i]);
        if app !in tgzByApp || files[p].mtime > tgzByApp[app].mtime {
          tgzByApp := tgzByApp[app := Archive(p, files[p].mtime)];
        }
      }
      assert forall m :: m in Elements(names[..i]) ==> Leq(m, names[i]);
      forall app ensures Newest(files, dir, app, Elements(names[..i + 1]), At(tgzByApp, app)) {
        NewestExtends(files, dir, app, Elements(names[..i]), At(before, app), names[i]);
      }
    }
    assert names[..|names|] == names;
  }

  method ScanDir(files: Disk, dir: Dir, kind: string, idx: Index) returns (out: Index)
    ensures Scanned(files, dir, kind, true, idx, out)
  {
    var names := Sorted(NamesIn(files, dir));
    assert forall n :: n in names ==> Path(dir, n) in files;
    var tgzByApp := CollectArchives(files, dir, names);
    assert Elements(names) == NamesIn(files, dir);
    out := idx;
    for i := 0 to |names|
      invariant PartlyScanned(files, dir, kind, Elements(names[..i]), idx, out)
    {
      ElementsSnoc(names, i);
      var p := Path(dir, names[i]);
      if files[p].Regular? && HasSuffix(names[i], ".json") {
        var app := names[i][..|names[i]| - 5];
        assert names[i] == app + ".json";
        var entry := ChartEntry(p, files[p].mtime, None, 0, kind);
        if app in tgzByApp {
          entry := entry.(tgzPath := Some(tgzByApp[app].path), tgzMtime := tgzByApp[app].mtime);
        }
        assert Newest(files, dir, app, NamesIn(files, dir), At(tgzByApp, app));
        ScanAdds(files, dir, kind, Elements(names[..i]), idx, out, app, entry);
        out := out[app := entry];
      } else {
        ScanSkips(files, dir, kind, Elements(names[..i]), idx, out, names[i]);
      }
    }
    assert names[..|names|] == names;
    ScanDone(files, dir, kind, idx, out);
  }

  /** The disk, with the states it has been in. Anyone may write any contents with any time. */
  class Storage {
    var files: Disk
    ghost var trace: seq<Disk>

    ghost predicate Valid()
      reads this
    {
      trace != [] && Last(trace) == files
    }

    constructor ()
      ensures Valid() && trace == [map[]]
    {
      files, trace := map[], [map[]];
    }

    method Write(p: Path, file: File)
      requires Valid()
      modifies this
      ensures Valid() && files == old(files)[p := file] && trace == old(trace) + [files]
    {
      files := files[p := file];
      trace := trace + [files];
    }

    method Delete(p: Path)
      requires Valid()
      modifies this
      ensures Valid() && files == old(files) - {p} && trace == old(trace) + [files]
    {
      files := files - {p};
      trace := trace + [files];
    }
  }

  class Catalog {
    const parser: Parser
    const disk: Storage
    var chartIndex: Index
    var indexedAt: int
    var parsed: map<string, App>

    ghost function Now(): World
      reads this, disk
    {
      World(disk.files, chartIndex, parsed)
    }

    /**
     * Every cached value was loaded from some state of the disk; DiskChangeKeepsInv says that changes of the
     * disk keep this.
     */
    ghost predicate Valid()
      reads this, disk
    {
      Inv(parser, disk.trace, Now())
    }

    constructor (parser: Parser, disk: Storage)
      requires disk.Valid()
      ensures Valid() && this.parser == parser && this.disk == disk
      ensures chartIndex == map[] && parsed == map[]
    {
      this.parser, this.disk := parser, disk;
      chartIndex, indexedAt, parsed := map[], 0, map[];
    }

    /** Rebuild the index and drop every cached entry whose record drifted. */
    method Rescan(now: int, appsReadable: bool, modelsReadable: bool)
      requires Valid()
      modifies this
      ensures Valid() && indexedAt == now
      ensures RescanStep(old(Now()), appsReadable, modelsReadable, Now())
    {
      var newIndex: Index := map[];
      if appsReadable { newIndex := ScanDir(disk.files, ChartsDir, "app", newIndex); }
      ghost var apps := newIndex;
      if modelsReadable { newIndex := ScanDir(disk.files, ModelsDir, "model", newIndex); }
      assert Scanned(disk.files, ChartsDir, "app", appsReadable, map[], apps);
      assert Scanned(disk.files, ModelsDir, "model", modelsReadable, apps, newIndex);
      assert IndexOf(disk.files, appsReadable, modelsReadable, newIndex);

      DropDrifted(newIndex);
      chartIndex := newIndex;
      indexedAt := now;
      RescanKeepsInv(parser, disk.trace, old(Now()), appsReadable, modelsReadable, Now());
    }

    /** The two eviction loops of rescan. */
    method DropDrifted(newIndex: Index)
      modifies this`parsed
      ensures parsed == old(parsed) - DriftedNames(chartIndex, newIndex)
    {
      var stale := chartIndex.Keys;
      ghost var gone: set<string> := {};
      while stale != {}
        invariant stale <= chartIndex.Keys
        invariant gone == set n | n in chartIndex.Keys - stale && Drifted(chartIndex, newIndex, n)
        invariant parsed == old(parsed) - gone
        decreases stale
      {
        var name :| name in stale;
        stale := stale - {name};
        if name !in newIndex
           || newIndex[name].sidecarMtime != chartIndex[name].sidecarMtime
           || newIndex[name].tgzMtime != chartIndex[name].tgzMtime
           || newIndex[name].tgzPath != chartIndex[name].tgzPath {
          parsed := parsed - {name};
          gone := gone + {name};
        }
      }
      var unseen := newIndex.Keys;
      ghost var fresh_: set<string> := {};
      while unseen != {}
        invariant unseen <= newIndex.Keys
        invariant fresh_ == set n | n in newIndex.Keys - unseen && n !in chartIndex
        invariant parsed == old(parsed) - gone - fresh_
        decreases unseen
      {
        var name :| name in unseen;
        unseen := unseen - {name};
        if name !in chartIndex {
          parsed := parsed - {name};
          fresh_ := fresh_ + {name};
        }
      }
      assert gone + fresh_ == DriftedNames(chartIndex, newIndex);
      assert old(parsed) - gone - fresh_ == old(parsed) - (gone + fresh_);
    }

    /** Rescan at most once per interval. */
    method EnsureFresh(now: int, appsReadable: bool, modelsReadable: bool)
      requires Valid()
      modifies this
      ensures Valid()
      ensures if now - old(indexedAt) > 5
              then indexedAt == now && RescanStep(old(Now()), appsReadable, modelsReadable, Now())
              else indexedAt == old(indexedAt) && Now() == old(Now())
    {
      if now - indexedAt > RESCAN_INTERVAL {
        Rescan(now, appsReadable, modelsReadable);
      }
    }

    /** The read path of loadOne: the sidecar, with the entrances taken from the chart when it can be read. */
    method ReadApp(name: string, entry: ChartEntry) returns (app: Option<App>)
      ensures app == FreshLoad(parser, name, entry, disk.files) && IsAnswer(parser, name, entry, disk.files, app)
    {
      FreshLoadIsAnswer(parser, name, entry, disk.files);
      if !IsRegular(disk.files, entry.sidecarPath) { return None; }
      app := parser.sidecar(disk.files[entry.sidecarPath].content);
      if app.Some? && entry.tgzPath.Some? && IsRegular(disk.files, entry.tgzPath.value) {
        var entrances := parser.manifest(disk.files[entry.tgzPath.value].content, name);
        if entrances.Some? {
          app := Some(app.value.(entrances := entrances.value));
        }
      }
    }

    /** The body of loadOne, for any cache within its bound. */
    method CacheOrDisk(name: string) returns (app: Option<App>)
      requires |parsed| <= LRU_CACHE_SIZE
      modifies this`parsed
      ensures LookupStep(parser, old(Now()), name, app, Now())
    {
      if name !in chartIndex { return None; }
      var entry := chartIndex[name];
      if name in parsed {
        if Unchanged(entry, disk.files) { return Some(parsed[name]); }
        parsed := parsed - {name};
      }
      assert parsed == old(parsed) - {name};
      RestrictBound(old(parsed), parsed);
      app := ReadApp(name, entry);
      if app.Some? {
        AddToCache(name, app.value);
      }
    }

    method LoadOne(name: string) returns (app: Option<App>)
      requires Valid()
      modifies this`parsed
      ensures Valid()
      ensures LookupStep(parser, old(Now()), name, app, Now())
      ensures !Confused(disk.trace) ==> app == Answer(parser, disk.files, chartIndex, name)
      ensures !Confused(disk.trace) ==> AnsweredFromDisk(parser, disk.files, chartIndex, name, app)
    {
      AnswerIsFromDisk(parser, disk.files, chartIndex, name);
      app := CacheOrDisk(name);
      LookupKeepsInv(parser, disk.trace, old(Now()), name, app, Now());
      if !Confused(disk.trace) { LookupReadsTheDisk(parser, disk.trace, old(Now()), name, app, Now()); }
    }

    /** lru.Cache.Add; which entry a full cache gives up is left open. */
    method AddToCache(name: string, app: App)
      requires name !in parsed && |parsed| <= LRU_CACHE_SIZE
      modifies this`parsed
      ensures LruAdd(old(parsed), name, app, parsed)
      ensures |parsed| <= 64 && (old(|parsed|) < 64 ==> parsed == old(parsed)[name := app])
      ensures old(|parsed|) == 64 ==> |parsed| == 64
    {
      if |parsed| == LRU_CACHE_SIZE {
        var victim :| victim in parsed;
        parsed := parsed - {victim};
      }
      parsed := parsed[name := app];
      LruAddBound(old(parsed), name, app, parsed);
    }

    method GetApp(name: string, now: int, appsReadable: bool, modelsReadable: bool) returns (app: Option<App>)
      requires Valid()
      modifies this
      ensures Valid()
      ensures !Confused(disk.trace) ==> app == Answer(parser, disk.files, chartIndex, name)
      ensures !Confused(disk.trace) ==> AnsweredFromDisk(parser, disk.files, chartIndex, name, app)
    {
      EnsureFresh(now, appsReadable, modelsReadable);
      app := LoadOne(name);
    }

    method ListApps(now: int, appsReadable: bool, modelsReadable: bool) returns (apps: seq<App>)
      requires Valid()
      modifies this
      ensures Valid()
      ensures !Confused(disk.trace) ==> ListedFromDisk(parser, disk.files, chartIndex, apps)
      ensures !Confused(disk.trace) ==> apps == Answers(parser, disk.files, chartIndex, Sorted(chartIndex.Keys))
    {
      EnsureFresh(now, appsReadable, modelsReadable);
      var names := Sorted(chartIndex.Keys);
      apps := LoadEach(names);
      AnswersFromDisk(parser, disk.files, chartIndex, names);
    }

    /** The loop of ListApps. */
    method LoadEach(names: seq<string>) returns (apps: seq<App>)
      requires Valid()
      modifies this`parsed
      ensures Valid()
      ensures !Confused(disk.trace) ==> apps == Answers(parser, disk.files, chartIndex, names)
    {
      apps := [];
      for i := 0 to |names|
        invariant Valid()
        invariant !Confused(disk.trace) ==> apps == Answers(parser, disk.files, chartIndex, names[..i])
      {
        TakeSucc(names, i);
        AnswersSnoc(parser, disk.files, chartIndex, names[..i], names[i]);
        var app := LoadOne(names[i]);
        apps := apps + Listed(app);
      }
      assert names[..|names|] == names;
    }
  }

  /** One answer for each indexed name, in ascending order; `apps` are those that are not none. */
  ghost predicate ListedFromDisk(parser: Parser, files: Disk, index: Index, apps: seq<App>) {
    exists names, answers ::
      && (forall n :: n in names <==> n in index)
      && (forall i, j :: 0 <= i < j < |names| ==> names[i] != names[j] && Leq(names[i], names[j]))
      && AllAnswered(parser, files, index, names, answers) && apps == Present(answers)
  }

  ghost predicate AllAnswered(parser: Parser, files: Disk, index: Index, names: seq<string>,
      answers: seq<Option<App>>) {
    |answers| == |names| && forall i :: 0 <= i < |names| ==>
        AnsweredFromDisk(parser, files, index, names[i], answers[i])
  }

  function Present(answers: seq<Option<App>>): seq<App> {
    if answers == [] then [] else (if answers[0].Some? then [answers[0].value] else []) + Present(answers[1..])
  }

  lemma {:induction false} AnswersPresent(parser: Parser, files: Disk, index: Index, names: seq<string>)
    returns (answers: seq<Option<App>>)
    ensures AllAnswered(parser, files, index, names, answers)
            && Answers(parser, files, index, names) == Present(answers)
  {
    if names == [] { return []; }
    var others := AnswersPresent(parser, files, index, names[1..]);
    AnswerIsFromDisk(parser, files, index, names[0]);
    answers := [Answer(parser, files, index, names[0])] + others;
    assert answers[1..] == others;
  }

  lemma AnswersFromDisk(parser: Parser, files: Disk, index: Index, names: seq<string>)
    requires names == Sorted(index.Keys)
    ensures ListedFromDisk(parser, files, index, Answers(parser, files, index, names))
  {
    var answers := AnswersPresent(parser, files, index, names);
  }

  function Listed(app: Option<App>): seq<App> {
    if app.None? then [] else [app.value]
  }

  /** The parseable entries among `names`, in order. */
  function Answers(parser: Parser, files: Disk, index: Index, names: seq<string>): seq<App> {
    if names == [] then []
    else
      Listed(Answer(parser, files, index, names[0]))
      + Answers(parser, files, index, names[1..])
  }

  lemma {:induction false} AnswersSnoc(parser: Parser, files: Disk, index: Index, names: seq<string>, last: string)
    ensures Answers(parser, files, index, names + [last])
         == Answers(parser, files, index, names)
          + Listed(Answer(parser, files, index, last))
  {
    if names == [] {
      assert names + [last] == [last];
    } else {
      assert (names + [last])[1..] == names[1..] + [last];
      AnswersSnoc(parser, files, index, names[1..], last);
    }
  }
}
