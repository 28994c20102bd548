/** When the log config of a dead container may be deleted. */
module ConfigGc {

  /** A config file: the log paths it lists, or something that does not parse. */
  datatype Conf = Loaded(paths: seq<string>) | Unreadable

  /** The outside at the moment of a scan: registered offsets, file sizes, glob results and volume paths. */
  datatype World = World(
    offsets: map<string, int>,
    sizes: map<string, int>,
    glob: string -> seq<string>,
    autoMount: string -> bool)

  /** `dir` maps file names to configs; `watch` holds the containers known to be dead. */
  datatype State = State(dir: map<string, Conf>, watch: set<string>)

  function ConfName(id: string): string { id + ".yml" }

  lemma ConfNameInjective(a: string, b: string)
    requires ConfName(a) == ConfName(b)
    ensures a == b
  {
    assert a == ConfName(a)[..|a|] && b == ConfName(b)[..|b|];
  }

  // ---------- Container ids out of file names ----------

  predicate InCutset(c: char) { c == '.' || c == 'y' || c == 'm' || c == 'l' }

  /** `strings.TrimRight(name, ".yml")`, which strips a set of characters, not a suffix. */
  function TrimRight(name: string): string {
    if name != "" && InCutset(name[|name| - 1]) then TrimRight(name[..|name| - 1]) else name
  }

  predicate EndsOutside(id: string) { id == "" || !InCutset(id[|id| - 1]) }

  lemma {:induction false} TrimRightShape(s: string)
    ensures TrimRight(s) <= s && EndsOutside(TrimRight(s))
  {
    if s != "" && InCutset(s[|s| - 1]) { TrimRightShape(s[..|s| - 1]); }
  }

  /** The id comes back from the file name exactly when it does not itself end in one of `.`, `y`, `m`, `l`. */
  lemma TrimRightExactIff(id: string)
    ensures TrimRight(ConfName(id)) == id <==> EndsOutside(id)
  {
    TrimRightShape(ConfName(id));
    var s := ConfName(id);
    assert s[..|s| - 1] == id + ".ym" && (id + ".ym")[..|id| + 2] == id + ".y";
    assert (id + ".y")[..|id| + 1] == id + "." && (id + ".")[..|id|] == id;
    assert TrimRight(s) == TrimRight(id + ".ym") == TrimRight(id + ".y") == TrimRight(id + ".") == TrimRight(id);
  }

  /** Hexadecimal container ids always come back. */
  lemma HexIdsTrimExactly(id: string)
    requires forall c :: c in id ==> '0' <= c <= '9' || 'a' <= c <= 'f'
    ensures EndsOutside(id)
  {
    if id != "" { assert id[|id| - 1] in id; }
  }

  // ---------- What a scan decides ----------

  predicate Lists(dir: map<string, Conf>, id: string, path: string) {
    ConfName(id) in dir && dir[ConfName(id)].Loaded? && path in dir[ConfName(id)].paths
  }

  predicate FileUnread(w: World, file: string) {
    file in w.sizes && file in w.offsets && w.offsets[file] < w.sizes[file]
  }

  /** Some existing file of the path is registered and not read to its end. */
  ghost predicate Unread(w: World, path: string) { exists f :: f in w.glob(path) && FileUnread(w, f) }

  /** What `loadConfigPaths` collects: the paths of the configs it takes to be of live containers. */
  function Covered(s: State): set<string> {
    set name, path | name in s.dir && TrimRight(name) !in s.watch && Lists(s.dir, TrimRight(name), path) &&
                     path in s.dir[ConfName(TrimRight(name))].paths :: path
  }

  ghost predicate Removable(w: World, conf: Conf, covered: set<string>) {
    conf.Loaded? && forall path :: path in conf.paths && Unread(w, path) ==> !w.autoMount(path) && path in covered
  }

  /** The dead containers whose config a scan deletes, `stuck` being those whose deletion fails. */
  ghost predicate Removes(s: State, w: World, stuck: set<string>, id: string) {
    && id in s.watch && id !in stuck
    && ConfName(id) in s.dir && Removable(w, s.dir[ConfName(id)], Covered(s))
  }

  ghost function Scanned(s: State, w: World, stuck: set<string>): State {
    State(map name | name in s.dir && !(exists id :: name == ConfName(id) && Removes(s, w, stuck, id)) :: s.dir[name],
          set id | id in s.watch && ConfName(id) in s.dir && !Removes(s, w, stuck, id))
  }

  // ---------- Runs ----------

  datatype Step =
    | Create(id: string, conf: Conf)
    | Feed(id: string)
    | Scan(w: World, stuck: set<string>)
    | NoRegistry

  /** A config is only written for a container that has none. */
  predicate Enabled(s: State, step: Step) { step.Create? ==> ConfName(step.id) !in s.dir }

  ghost function Apply(s: State, step: Step): State
    requires Enabled(s, step)
  {
    match step
    case Create(id, conf) => s.(dir := s.dir[ConfName(id) := conf])
    case Feed(id) => s.(watch := s.watch + {id})
    case Scan(w, stuck) => Scanned(s, w, stuck)
    case NoRegistry => s
  }

  ghost predicate IsRun(s: State, run: seq<Step>)
    decreases |run|
  {
    run == [] || (Enabled(s, run[0]) && IsRun(Apply(s, run[0]), run[1..]))
  }

  ghost function After(s: State, run: seq<Step>): State
    requires IsRun(s, run)
    decreases |run|
  {
    if run == [] then s else After(Apply(s, run[0]), run[1..])
  }

  /** In every scan of the run the path still has unread bytes. */
  ghost predicate UnreadThroughout(run: seq<Step>, path: string) {
    forall step :: step in run && step.Scan? ==> Unread(step.w, path)
  }

  ghost predicate Listed(s: State, path: string) { exists id :: Lists(s.dir, id, path) }

  /** Covered paths are listed by a container that this scan cannot touch. */
  lemma CoveredByLive(s: State, path: string) returns (live: string)
    requires path in Covered(s)
    ensures live !in s.watch && Lists(s.dir, live, path)
  {
    var name :| name in s.dir && TrimRight(name) !in s.watch && Lists(s.dir, TrimRight(name), path);
    live := TrimRight(name);
  }

  lemma KeptBy(s: State, w: World, stuck: set<string>, id: string)
    requires ConfName(id) in s.dir && !Removes(s, w, stuck, id)
    ensures ConfName(id) in Scanned(s, w, stuck).dir && Scanned(s, w, stuck).dir[ConfName(id)] == s.dir[ConfName(id)]
  {
    forall other | ConfName(id) == ConfName(other) ensures other == id {
      ConfNameInjective(id, other);
    }
  }

  /** One scan never deletes the last config that lists a path with unread bytes. */
  lemma ScanKeepsListing(s: State, w: World, stuck: set<string>, path: string)
    requires Unread(w, path) && Listed(s, path)
    ensures Listed(Scanned(s, w, stuck), path)
  {
    var id :| Lists(s.dir, id, path);
    var keeper := id;
    if Removes(s, w, stuck, id) {
      keeper := CoveredByLive(s, path);
    }
    KeptBy(s, w, stuck, keeper);
    assert Lists(Scanned(s, w, stuck).dir, keeper, path);
  }

  /** Over any run of creations, deaths and scans, a path with unread bytes stays listed. */
  lemma {:induction false} RunKeepsListing(s: State, run: seq<Step>, path: string)
    requires IsRun(s, run) && Listed(s, path) && UnreadThroughout(run, path)
    ensures Listed(After(s, run), path)
    decreases |run|
  {
    if run != [] {
      var t := Apply(s, run[0]);
      var id :| Lists(s.dir, id, path);
      if run[0].Scan? {
        assert run[0] in run;
        ScanKeepsListing(s, run[0].w, run[0].stuck, path);
      } else {
        assert Lists(t.dir, id, path);
      }
      RunKeepsListing(t, run[1..], path);
    }
  }

  /** Dead containers do not cover each other: if only dead ones list the unread path, none of them goes. */
  lemma DeadDoNotCover(s: State, w: World, stuck: set<string>, path: string)
    requires Unread(w, path) && forall id :: Lists(s.dir, id, path) ==> id in s.watch
    ensures forall id :: Lists(s.dir, id, path) ==> Lists(Scanned(s, w, stuck).dir, id, path)
  {
  }

  /** Volume paths are stricter: an unread one keeps its own config, whoever else lists it. */
  lemma VolumePathsWait(s: State, w: World, stuck: set<string>, id: string, path: string)
    requires Lists(s.dir, id, path) && Unread(w, path) && w.autoMount(path)
    ensures Lists(Scanned(s, w, stuck).dir, id, path)
  {
  }

  /** Every file in the directory belongs to a container whose id survives the trimming. */
  ghost predicate ExactNames(s: State) {
    forall name :: name in s.dir ==> exists id :: name == ConfName(id) && EndsOutside(id)
  }

  /** With such ids a dead container's config goes exactly when it parses, its deletion works, and each of its paths
      is read to the end or is a host path that a live container still lists. */
  lemma RemovedIff(s: State, w: World, stuck: set<string>, id: string)
    requires ExactNames(s) && id in s.watch && ConfName(id) in s.dir
    ensures ConfName(id) !in Scanned(s, w, stuck).dir <==>
      && id !in stuck && s.dir[ConfName(id)].Loaded?
      && forall path :: path in s.dir[ConfName(id)].paths && Unread(w, path) ==>
           !w.autoMount(path) && exists live :: live !in s.watch && Lists(s.dir, live, path)
  {
    forall path ensures path in Covered(s) <==> exists live :: live !in s.watch && Lists(s.dir, live, path) {
      if path in Covered(s) {
        var live := CoveredByLive(s, path);
      }
      if live :| live !in s.watch && Lists(s.dir, live, path) {
        var id' :| ConfName(live) == ConfName(id') && EndsOutside(id');
        ConfNameInjective(live, id');
        TrimRightExactIff(live);
        assert TrimRight(ConfName(live)) == live;
      }
    }
    if !Removes(s, w, stuck, id) { KeptBy(s, w, stuck, id); }
  }

  /** On offsets and sizes: a globbed file whose registered offset is below its size keeps the configs of all its
      containers when only dead ones list its path. */
  lemma BytesLeftKeepConfig(s: State, w: World, stuck: set<string>, path: string, file: string, id: string)
    requires file in w.glob(path) && file in w.sizes && file in w.offsets && w.offsets[file] < w.sizes[file]
    requires Lists(s.dir, id, path) && forall other :: Lists(s.dir, other, path) ==> other in s.watch
    ensures ConfName(id) in Scanned(s, w, stuck).dir && Scanned(s, w, stuck).dir[ConfName(id)] == s.dir[ConfName(id)]
  {
    assert FileUnread(w, file);
    DeadDoNotCover(s, w, stuck, path);
    if Removes(s, w, stuck, id) {
      var live := CoveredByLive(s, path);
    }
    KeptBy(s, w, stuck, id);
  }

  /** And when every globbed file of every path is missing, unregistered, or read to its size, the config of a dead
      container goes, if it parses and its deletion works. */
  lemma AllReadConfigGoes(s: State, w: World, stuck: set<string>, id: string)
    requires id in s.watch && id !in stuck && ConfName(id) in s.dir && s.dir[ConfName(id)].Loaded?
    requires forall path, file :: path in s.dir[ConfName(id)].paths && file in w.glob(path) ==>
      file !in w.sizes || file !in w.offsets || w.offsets[file] >= w.sizes[file]
    ensures ConfName(id) !in Scanned(s, w, stuck).dir && id !in Scanned(s, w, stuck).watch
  {
    assert Removes(s, w, stuck, id);
  }

  /** A scan only deletes configs of dead containers, changes none, and goes on watching a dead container exactly while
      its config is there. */
  lemma ScanTouchesOnlyDead(s: State, w: World, stuck: set<string>)
    ensures var t := Scanned(s, w, stuck);
      && (forall name :: name in t.dir ==> name in s.dir && t.dir[name] == s.dir[name])
      && (forall name :: name in s.dir && name !in t.dir ==> exists id :: id in s.watch && name == ConfName(id))
      && (forall id :: id in t.watch <==> id in s.watch && ConfName(id) in t.dir)
  {
    var t := Scanned(s, w, stuck);
    forall id | id in s.watch && ConfName(id) in s.dir ensures id in t.watch <==> ConfName(id) in t.dir {
      if !Removes(s, w, stuck, id) { KeptBy(s, w, stuck, id); }
    }
  }

  // ---------- The piloter ----------

  class FilebeatPiloter {
    var confDir: map<string, Conf>
    var watchContainer: set<string>

    function View(): State
      reads this
    {
      State(confDir, watchContainer)
    }

    constructor ()
      ensures View() == State(map[], {})
    {
      confDir, watchContainer := map[], {};
    }

    method Feed(id: string)
      modifies this
      ensures View() == Apply(old(View()), Step.Feed(id))
      ensures watchContainer == old(watchContainer) + {id} && confDir == old(confDir)
    {
      if id !in watchContainer { watchContainer := watchContainer + {id}; }
    }

    method LoadConfigPaths() returns (paths: map<string, string>)
      ensures paths.Keys == Covered(View())
    {
      paths := map[];
      var names := confDir.Keys;
      ghost var seen: set<string> := {};
      while names != {}
        invariant names <= confDir.Keys && seen == confDir.Keys - names
        invariant paths.Keys == CoveredBy(View(), seen)
        decreases names
      {
        var name :| name in names;
        names, seen := names - {name}, seen + {name};
        var container := TrimRight(name);
        ghost var before := paths.Keys;
        if container !in watchContainer && ConfName(container) in confDir && confDir[ConfName(container)].Loaded? {
          paths := AddPaths(paths, confDir[ConfName(container)].paths, container);
        }
        CoveredByOneMore(View(), seen - {name}, name);
        assert seen == (seen - {name}) + {name};
      }
      assert seen == confDir.Keys;
      CoveredByAll(View());
    }

    method AddPaths(paths: map<string, string>, more: seq<string>, container: string) returns (r: map<string, string>)
      ensures r.Keys == paths.Keys + set path | path in more
    {
      r := paths;
      for i := 0 to |more|
        invariant r.Keys == paths.Keys + set path | path in more[..i]
      {
        assert more[..i + 1] == more[..i] + [more[i]];
        if more[i] !in r { r := r[more[i] := container]; }
      }
      assert more[..|more|] == more;
    }

    /** `canRemoveConf`: two nested loops over the paths and their files. */
    method CanRemoveConf(container: string, w: World, configPaths: map<string, string>) returns (ok: bool)
      requires ConfName(container) in confDir
      ensures ok <==> Removable(w, confDir[ConfName(container)], configPaths.Keys)
      ensures ok <==>
        && confDir[ConfName(container)].Loaded?
        && forall path, file :: path in confDir[ConfName(container)].paths && file in w.glob(path) ==>
             || file !in w.sizes || file !in w.offsets || w.offsets[file] >= w.sizes[file]
             || (!w.autoMount(path) && path in configPaths)
    {
      var conf := confDir[ConfName(container)];
      if conf.Unreadable? { return false; }
      for i := 0 to |conf.paths|
        invariant forall j :: 0 <= j < i ==> Unread(w, conf.paths[j]) ==>
          !w.autoMount(conf.paths[j]) && conf.paths[j] in configPaths
      {
        var path := conf.paths[i];
        var autoMount := w.autoMount(path);
        var logFiles := w.glob(path);
        for n := 0 to |logFiles|
          invariant (exists m :: 0 <= m < n && FileUnread(w, logFiles[m])) ==> !autoMount && path in configPaths
        {
          var file := logFiles[n];
          if file !in w.sizes || file !in w.offsets { continue; }
          if w.offsets[file] < w.sizes[file] {
            assert FileUnread(w, file);
            if autoMount { return false; }
            if path !in configPaths { return false; }
          }
        }
      }
      ok := true;
    }

    /** `scan`, once the registry has been read; `stuck` are the files whose removal fails. */
    method Scan(w: World, stuck: set<string>)
      modifies this
      ensures View() == Apply(old(View()), Step.Scan(w, stuck))
    {
      ghost var s := View();
      var configPaths := LoadConfigPaths();
      var todo := watchContainer;
      while todo != {}
        invariant todo <= s.watch
        invariant PartlyScanned(s, w, stuck, todo, View())
        decreases todo
      {
        var container :| container in todo;
        ghost var before := View();
        if ConfName(container) !in confDir {
          watchContainer := watchContainer - {container};
        } else {
          var ok := CanRemoveConf(container, w, configPaths);
          if ok && container !in stuck {
            confDir := confDir - {ConfName(container)};
            watchContainer := watchContainer - {container};
          }
        }
        ScanOneMore(s, w, stuck, todo, before, container);
        todo := todo - {container};
      }
      ScanDone(s, w, stuck, View());
    }
  }

  function CoveredBy(s: State, names: set<string>): set<string> {
    set name, path | name in names && TrimRight(name) !in s.watch && Lists(s.dir, TrimRight(name), path) &&
                     path in s.dir[ConfName(TrimRight(name))].paths :: path
  }

  lemma CoveredByAll(s: State)
    ensures CoveredBy(s, s.dir.Keys) == Covered(s)
  {
  }

  lemma CoveredByOneMore(s: State, names: set<string>, name: string)
    ensures CoveredBy(s, names + {name}) == CoveredBy(s, names) +
      (if TrimRight(name) !in s.watch && ConfName(TrimRight(name)) in s.dir && s.dir[ConfName(TrimRight(name))].Loaded?
       then set path | path in s.dir[ConfName(TrimRight(name))].paths else {})
  {
  }

  /** The state in the middle of a scan: the containers in `todo` are still to be looked at. */
  ghost predicate PartlyScanned(s: State, w: World, stuck: set<string>, todo: set<string>, t: State) {
    && (forall name :: name in t.dir <==>
          name in s.dir && !(exists id :: id !in todo && name == ConfName(id) && Removes(s, w, stuck, id)))
    && (forall name :: name in t.dir ==> t.dir[name] == s.dir[name])
    && (forall id :: id in t.watch <==>
          id in s.watch && (id in todo || (ConfName(id) in s.dir && !Removes(s, w, stuck, id))))
  }

  lemma ScanOneMore(s: State, w: World, stuck: set<string>, todo: set<string>, t: State, id: string)
    requires PartlyScanned(s, w, stuck, todo, t) && id in todo && todo <= s.watch
    ensures ConfName(id) in t.dir <==> ConfName(id) in s.dir
    ensures ConfName(id) in t.dir ==> t.dir[ConfName(id)] == s.dir[ConfName(id)]
    ensures
      var u :=
        if ConfName(id) !in t.dir then t.(watch := t.watch - {id})
        else if Removes(s, w, stuck, id) then State(t.dir - {ConfName(id)}, t.watch - {id})
        else t;
      PartlyScanned(s, w, stuck, todo - {id}, u)
  {
    forall other | ConfName(other) == ConfName(id) ensures other == id {
      ConfNameInjective(other, id);
    }
  }

  lemma ScanDone(s: State, w: World, stuck: set<string>, t: State)
    requires PartlyScanned(s, w, stuck, {}, t)
    ensures t == Scanned(s, w, stuck)
  {
  }
}
