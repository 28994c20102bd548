/** The allocator of disk project ids: interleaved allocation, the scan at start-up, and the path keys. */
module ProjectQuota {
  import opened Bytes
  import M = MountLookup

  /** uint32 increment. */
  function Inc32(n: nat): nat { (n + 1) % TWO32 }

  /** `if next <= id { next = id + 1 }`. */
  function Above(next: nat, id: nat): nat { if next <= id then Inc32(id) else next }

  // ---------- Interleaved SetDirQuota calls ----------

  /** A quota key: which controller, and the directory's real path. */
  type Key = (nat, string)

  /** Where a `SetDirQuota` call is: it found no entry, or it holds an id it has not stored yet. */
  datatype Caller = Missing(key: Key) | Holding(key: Key, id: nat)

  /** `bounds` remembers every minimum id and every id a scan visited; `issued` every id handed out, in order. */
  datatype State = State(next: nat, quotas: map<Key, nat>, callers: map<nat, Caller>, bounds: set<nat>, issued: seq<nat>)

  function Init(): State { State(1, map[], map[], {}, []) }

  datatype Step =
    | UpdateMin(min: nat)
    | Scan(control: nat, visited: map<string, nat>, order: seq<string>)
    | Look(caller: nat, key: Key)
    | Allocate(caller: nat, ok: bool)
    | Store(caller: nat)

  function VisitAll(next: nat, visited: map<string, nat>, order: seq<string>): nat
    requires forall p :: p in order ==> p in visited
    decreases |order|
  {
    if order == [] then next else VisitAll(Above(next, visited[order[0]]), visited, order[1..])
  }

  function Found(control: nat, visited: map<string, nat>): (m: map<Key, nat>)
    ensures forall key :: key in m ==> key.0 == control && key.1 in visited && 0 < m[key] == visited[key.1]
    ensures forall p :: p in visited && visited[p] > 0 ==> (control, p) in m
  {
    map p | p in visited && visited[p] > 0 :: (control, p) := visited[p]
  }

  predicate Enabled(s: State, step: Step) {
    match step
    case UpdateMin(min) => min < TWO32
    case Scan(_, visited, order) =>
      && (forall p :: p in visited ==> p in order)
      && (forall p :: p in order ==> p in visited)
      && (forall p :: p in visited ==> visited[p] < TWO32)
    case Look(c, _) => c !in s.callers
    case Allocate(c, _) => c in s.callers && s.callers[c].Missing?
    case Store(c) => c in s.callers && s.callers[c].Holding?
  }

  function Apply(s: State, step: Step): State
    requires Enabled(s, step)
  {
    match step
    case UpdateMin(min) => s.(next := Above(s.next, min), bounds := s.bounds + {min})
    case Scan(control, visited, order) =>
      s.(next := VisitAll(s.next, visited, order),
         quotas := s.quotas + Found(control, visited),
         bounds := s.bounds + visited.Values)
    case Look(c, key) => if key in s.quotas then s else s.(callers := s.callers[c := Missing(key)])
    case Allocate(c, ok) =>
      if ok then s.(callers := s.callers[c := Holding(s.callers[c].key, s.next)],
                    next := Inc32(s.next), issued := s.issued + [s.next])
      else s.(callers := s.callers - {c})
    case Store(c) =>
      s.(quotas := s.quotas[s.callers[c].key := s.callers[c].id], callers := s.callers - {c})
  }

  /** The 32-bit counter runs over in this step. */
  predicate Wraps(s: State, step: Step)
    requires Enabled(s, step)
  {
    match step
    case UpdateMin(min) => s.next <= min && min == TWO32 - 1
    case Scan(_, visited, _) => TWO32 - 1 in visited.Values
    case Allocate(_, ok) => ok && s.next == TWO32 - 1
    case _ => false
  }

  predicate Inv(s: State) {
    && s.next < TWO32
    && (forall b :: b in s.bounds ==> b < s.next)
    && (forall i :: 0 <= i < |s.issued| ==> s.issued[i] < s.next)
    && (forall i, j :: 0 <= i < j < |s.issued| ==> s.issued[i] < s.issued[j])
    && (forall key :: key in s.quotas ==> s.quotas[key] < s.next)
    && (forall c :: c in s.callers && s.callers[c].Holding? ==> s.callers[c].id < s.next)
  }

  lemma {:induction false} VisitAllAbove(next: nat, visited: map<string, nat>, order: seq<string>)
    requires forall p :: p in order ==> p in visited && visited[p] < TWO32 - 1
    requires next < TWO32
    ensures next <= VisitAll(next, visited, order) < TWO32
    ensures forall p :: p in order ==> visited[p] < VisitAll(next, visited, order)
    decreases |order|
  {
    if order != [] {
      assert order[0] in order;
      VisitAllAbove(Above(next, visited[order[0]]), visited, order[1..]);
    }
  }

  lemma StepKeepsInv(s: State, step: Step)
    requires Inv(s) && Enabled(s, step) && !Wraps(s, step)
    ensures Inv(Apply(s, step)) && Apply(s, step).next >= s.next
  {
    if step.Scan? {
      assert forall p :: p in step.visited ==> step.visited[p] in step.visited.Values;
      VisitAllAbove(s.next, step.visited, step.order);
    }
  }

  /** The bound is exact: a step that runs the counter over breaks the invariant. */
  lemma WrapBreaksInv(s: State, step: Step)
    requires Inv(s) && Enabled(s, step) && Wraps(s, step)
    ensures !Inv(Apply(s, step))
  {
    var t := Apply(s, step);
    match step
    case UpdateMin(min) => assert min in t.bounds;
    case Scan(_, visited, _) => assert TWO32 - 1 in t.bounds;
    case Allocate(_, _) => assert t.issued[|s.issued|] == TWO32 - 1;
    case _ =>
  }

  predicate IsRun(s: State, run: seq<Step>)
    decreases |run|
  {
    run == [] || (Enabled(s, run[0]) && !Wraps(s, run[0]) && IsRun(Apply(s, run[0]), run[1..]))
  }

  function After(s: State, run: seq<Step>): State
    requires IsRun(s, run)
    decreases |run|
  {
    if run == [] then s else After(Apply(s, run[0]), run[1..])
  }

  lemma RunCons(s: State, step: Step, rest: seq<Step>)
    requires Enabled(s, step) && !Wraps(s, step) && IsRun(Apply(s, step), rest)
    ensures IsRun(s, [step] + rest) && After(s, [step] + rest) == After(Apply(s, step), rest)
  {
    assert ([step] + rest)[1..] == rest;
  }

  lemma {:induction false} RunKeepsInv(s: State, run: seq<Step>)
    requires Inv(s) && IsRun(s, run)
    ensures Inv(After(s, run))
    decreases |run|
  {
    if run != [] {
      StepKeepsInv(s, run[0]);
      RunKeepsInv(Apply(s, run[0]), run[1..]);
    }
  }

  /** In any interleaving of calls, constructions and scans, a newly issued id exceeds every minimum and every scanned
      id so far, every id issued before, and every id in the quota maps. */
  lemma IssuedIdIsFresh(run: seq<Step>, caller: nat)
    requires IsRun(Init(), run) && Enabled(After(Init(), run), Allocate(caller, true))
    ensures var s := After(Init(), run); var id := s.next;
      && Apply(s, Allocate(caller, true)).issued == s.issued + [id]
      && (forall b :: b in s.bounds ==> b < id)
      && (forall i :: 0 <= i < |s.issued| ==> s.issued[i] < id)
      && (forall key :: key in s.quotas ==> s.quotas[key] < id)
  {
    RunKeepsInv(Init(), run);
  }

  // ---------- Path keys ----------

  predicate IsName(n: string) { n != "" && n != "." && n != ".." && '/' !in n }

  predicate IsCleanAbs(p: string) { p != "" && p[0] == '/' && (p == "/" || p[|p| - 1] != '/') }

  /** `filepath.Join` of a clean directory and one name. */
  function Join(dir: string, name: string): string { if dir == "/" then "/" + name else dir + "/" + name }

  /** A joined path lies in the directory and ends in the name. */
  lemma JoinedPath(dir: string, name: string)
    requires IsCleanAbs(dir) && IsName(name)
    ensures M.Dir(Join(dir, name)) == dir
    ensures |name| < |Join(dir, name)| && Join(dir, name)[|Join(dir, name)| - |name|..] == name
  {
    var front := if dir == "/" then "" else dir;
    M.DirOfJoined(front, name);
    assert Join(dir, name) == front + "/" + name;
  }

  predicate OccursAt(s: string, x: string, i: nat) { i + |x| <= |s| && s[i..i + |x|] == x }

  /** `strings.Replace(s, x, y, 1)`. */
  function ReplaceFirst(s: string, x: string, y: string): string {
    if OccursAt(s, x, 0) then y + s[|x|..]
    else if s == "" then s
    else [s[0]] + ReplaceFirst(s[1..], x, y)
  }

  /** `getRealPath` of a clean absolute path. */
  function RealPath(base: string, rel: string, target: string): string { ReplaceFirst(target, base, rel) }

  /** The key `SetDirQuota` uses for a child of the base is the key the scan uses, exactly when the base and its real
      path are both the root or both not. */
  lemma KeysCoincideIff(base: string, rel: string, name: string)
    requires IsCleanAbs(base) && IsCleanAbs(rel) && IsName(name)
    ensures RealPath(base, rel, Join(base, name)) == Join(rel, name) <==> (base == "/" <==> rel == "/")
  {
  }

  // ---------- The directory tree and its scan ----------

  /** A directory directly under the base: its project id and the ids of its own subdirectories. */
  datatype Dir = Dir(id: nat, subs: map<string, nat>)

  predicate Descends(d: Dir, baseID: nat) { d.id == 0 || d.id == baseID }

  /** A path of the scan: a child, or a subdirectory of a child without an id of its own. */
  datatype Place = Child(name: string) | Sub(name: string, sub: string)

  function PathOf(home: string, p: Place): string {
    match p
    case Child(name) => Join(home, name)
    case Sub(name, sub) => Join(Join(home, name), sub)
  }

  predicate Visited(dirs: map<string, Dir>, baseID: nat, p: Place) {
    p.name in dirs && (p.Sub? ==> Descends(dirs[p.name], baseID) && p.sub in dirs[p.name].subs)
  }

  function IdAt(dirs: map<string, Dir>, baseID: nat, p: Place): nat
    requires Visited(dirs, baseID, p)
  {
    match p
    case Child(name) => dirs[name].id
    case Sub(name, sub) => dirs[name].subs[sub]
  }

  /** Two names and what follows them are told apart by the first slash. */
  lemma FirstSlash(a: string, x: string, b: string, y: string)
    requires '/' !in a && '/' !in b && a + "/" + x == b + "/" + y
    ensures a == b && x == y
  {
    var s, t := a + "/" + x, b + "/" + y;
    assert forall i :: 0 <= i < |a| ==> s[i] == a[i] && a[i] in a;
    assert forall i :: 0 <= i < |b| ==> t[i] == b[i] && b[i] in b;
    assert s[|a|] == '/' == t[|b|];
    assert |a| == |b|;
    assert a == s[..|a|] && b == t[..|b|] && x == s[|a| + 1..] && y == t[|b| + 1..];
  }

  function Stem(home: string): string { if home == "/" then "/" else home + "/" }

  function Tail(p: Place): string { if p.Child? then p.name else p.name + "/" + p.sub }

  lemma PathIsStemAndTail(home: string, p: Place)
    requires IsCleanAbs(home) && IsName(p.name)
    ensures PathOf(home, p) == Stem(home) + Tail(p)
  {
  }

  lemma TailInjective(p: Place, q: Place)
    requires Tail(p) == Tail(q) && IsName(p.name) && IsName(q.name)
    ensures p == q
  {
    assert p.Sub? ==> Tail(p)[|p.name|] == '/';
    assert q.Sub? ==> Tail(q)[|q.name|] == '/';
    assert p.Sub? == ('/' in Tail(p)) == q.Sub?;
    if p.Sub? { FirstSlash(p.name, p.sub, q.name, q.sub); }
  }

  /** Distinct places have distinct paths. */
  lemma PathOfInjective(home: string, p: Place, q: Place)
    requires IsCleanAbs(home) && PathOf(home, p) == PathOf(home, q) && IsName(p.name) && IsName(q.name)
    ensures p == q
  {
    PathIsStemAndTail(home, p);
    PathIsStemAndTail(home, q);
    assert Tail(p) == PathOf(home, p)[|Stem(home)|..] == Tail(q);
    TailInjective(p, q);
  }

  /** The global counter, shared by all controllers. */
  class PquotaState {
    var nextProjectID: nat

    constructor ()
      ensures nextProjectID == 1
    {
      nextProjectID := 1;
    }

    /** The counter never goes back and ends past the minimum, no further than it must, unless the minimum is the
        largest uint32: then it starts over at 0. */
    method UpdateMinProjID(min: nat)
      requires min < TWO32
      modifies this
      ensures min < TWO32 - 1 ==> nextProjectID > min && nextProjectID >= old(nextProjectID)
      ensures min < TWO32 - 1 ==> nextProjectID == old(nextProjectID) || nextProjectID == min + 1
      ensures min == TWO32 - 1 && old(nextProjectID) < TWO32 ==> nextProjectID == 0
    {
      if nextProjectID <= min { nextProjectID := Inc32(min); }
    }
  }

  predicate SubNamesOk(d: Dir) { forall m :: m in d.subs ==> IsName(m) }

  predicate NamesOk(dirs: map<string, Dir>) { forall n :: n in dirs ==> IsName(n) && SubNamesOk(dirs[n]) }

  predicate AllVisited(dirs: map<string, Dir>, baseID: nat, trace: seq<Place>) {
    forall p :: p in trace ==> Visited(dirs, baseID, p)
  }

  /** The map after `checkProjID` on each place of the trace. */
  function Record(home: string, dirs: map<string, Dir>, baseID: nat, trace: seq<Place>): map<string, nat>
    requires AllVisited(dirs, baseID, trace)
  {
    if trace == [] then map[]
    else
      var last := trace[|trace| - 1];
      assert last in trace;
      var m := Record(home, dirs, baseID, trace[..|trace| - 1]);
      var id := IdAt(dirs, baseID, last);
      if id > 0 then m[PathOf(home, last) := id] else m
  }

  /** The counter after `checkProjID` on each place of the trace. */
  function Cleared(next: nat, dirs: map<string, Dir>, baseID: nat, trace: seq<Place>): nat
    requires AllVisited(dirs, baseID, trace)
  {
    if trace == [] then next
    else
      var last := trace[|trace| - 1];
      assert last in trace;
      Above(Cleared(next, dirs, baseID, trace[..|trace| - 1]), IdAt(dirs, baseID, last))
  }

  /** The trace has every place of the scan, in some order. */
  ghost predicate IsScan(dirs: map<string, Dir>, baseID: nat, trace: seq<Place>) {
    AllVisited(dirs, baseID, trace) && forall p :: Visited(dirs, baseID, p) ==> p in trace
  }

  /** Whatever the order, the map ends up with exactly the positive ids of the places seen. */
  lemma {:induction false} RecordedIds(home: string, dirs: map<string, Dir>, baseID: nat, trace: seq<Place>)
    requires IsCleanAbs(home) && NamesOk(dirs) && AllVisited(dirs, baseID, trace)
    ensures forall p {:trigger PathOf(home, p)} :: p in trace && IdAt(dirs, baseID, p) > 0 ==>
      PathOf(home, p) in Record(home, dirs, baseID, trace) &&
      Record(home, dirs, baseID, trace)[PathOf(home, p)] == IdAt(dirs, baseID, p)
    ensures forall path :: path in Record(home, dirs, baseID, trace) ==>
      exists p :: p in trace && IdAt(dirs, baseID, p) > 0 && path == PathOf(home, p)
    decreases |trace|
  {
    if trace != [] {
      var init, last := trace[..|trace| - 1], trace[|trace| - 1];
      assert trace == init + [last] && last in trace;
      RecordedIds(home, dirs, baseID, init);
      forall p | p in trace && PathOf(home, p) == PathOf(home, last) ensures p == last {
        PathOfInjective(home, p, last);
      }
      forall path | path in Record(home, dirs, baseID, trace)
        ensures exists p :: p in trace && IdAt(dirs, baseID, p) > 0 && path == PathOf(home, p)
      {
        if path in Record(home, dirs, baseID, init) {
          var p :| p in init && IdAt(dirs, baseID, p) > 0 && path == PathOf(home, p);
          assert p in trace;
        }
      }
    }
  }

  /** A whole scan, on the disk itself: the map has a directory under the home exactly if its id is positive, and a
      subdirectory exactly if its id is positive and the directory above has no id or the base id. */
  lemma RecordedOnDisk(home: string, dirs: map<string, Dir>, baseID: nat, trace: seq<Place>, n: string)
    requires IsCleanAbs(home) && NamesOk(dirs) && IsScan(dirs, baseID, trace) && n in dirs
    ensures
      var r := Record(home, dirs, baseID, trace);
      && (Join(home, n) in r <==> dirs[n].id > 0)
      && (dirs[n].id > 0 ==> r[Join(home, n)] == dirs[n].id)
      && (forall m :: m in dirs[n].subs ==>
            (Join(Join(home, n), m) in r <==> dirs[n].subs[m] > 0 && (dirs[n].id == 0 || dirs[n].id == baseID)))
      && (forall m :: m in dirs[n].subs && Join(Join(home, n), m) in r ==> r[Join(Join(home, n), m)] == dirs[n].subs[m])
  {
    RecordedPlace(home, dirs, baseID, trace, Child(n));
    forall m | m in dirs[n].subs
      ensures Join(Join(home, n), m) in Record(home, dirs, baseID, trace) <==>
        dirs[n].subs[m] > 0 && (dirs[n].id == 0 || dirs[n].id == baseID)
      ensures Join(Join(home, n), m) in Record(home, dirs, baseID, trace) ==>
        Record(home, dirs, baseID, trace)[Join(Join(home, n), m)] == dirs[n].subs[m]
    {
      RecordedPlace(home, dirs, baseID, trace, Sub(n, m));
    }
  }

  lemma RecordedPlace(home: string, dirs: map<string, Dir>, baseID: nat, trace: seq<Place>, p: Place)
    requires IsCleanAbs(home) && NamesOk(dirs) && IsScan(dirs, baseID, trace) && IsName(p.name)
    ensures
      var r := Record(home, dirs, baseID, trace);
      && (PathOf(home, p) in r <==> Visited(dirs, baseID, p) && IdAt(dirs, baseID, p) > 0)
      && (PathOf(home, p) in r ==> r[PathOf(home, p)] == IdAt(dirs, baseID, p))
  {
    var r := Record(home, dirs, baseID, trace);
    RecordedIds(home, dirs, baseID, trace);
    if PathOf(home, p) in r {
      var q :| q in trace && IdAt(dirs, baseID, q) > 0 && PathOf(home, p) == PathOf(home, q);
      assert Visited(dirs, baseID, q);
      PathOfInjective(home, p, q);
    }
  }

  lemma {:induction false} ClearedAbove(next: nat, dirs: map<string, Dir>, baseID: nat, trace: seq<Place>)
    requires SmallIds(dirs) && AllVisited(dirs, baseID, trace) && next < TWO32
    ensures next <= Cleared(next, dirs, baseID, trace) < TWO32
    ensures forall p :: p in trace ==> IdAt(dirs, baseID, p) < Cleared(next, dirs, baseID, trace)
    ensures Cleared(next, dirs, baseID, trace) == next ||
      exists p :: p in trace && Cleared(next, dirs, baseID, trace) == IdAt(dirs, baseID, p) + 1
    decreases |trace|
  {
    if trace != [] {
      var init, last := trace[..|trace| - 1], trace[|trace| - 1];
      assert trace == init + [last] && last in trace;
      ClearedAbove(next, dirs, baseID, init);
    }
  }

  /** The scan gets past this place: it reads the id there and, where it descends, lists the directory. */
  predicate Readable(dirs: map<string, Dir>, baseID: nat, home: string, bad: set<string>, unlisted: set<string>, p: Place) {
    && PathOf(home, p) !in bad
    && (p.Child? && p.name in dirs && Descends(dirs[p.name], baseID) ==> PathOf(home, p) !in unlisted)
  }

  /** The scan stopped at this place after the trace: its id could not be read, or it was read and the directory could
      not be listed. Directories before it are complete, those after it untouched. */
  ghost predicate StoppedAt(dirs: map<string, Dir>, baseID: nat, home: string, bad: set<string>, unlisted: set<string>,
                            trace: seq<Place>, at: Place)
  {
    && Visited(dirs, baseID, at) && !Readable(dirs, baseID, home, bad, unlisted, at)
    && (at in trace <==> PathOf(home, at) !in bad)
    && (at.Sub? ==> Child(at.name) in trace)
    && (at.Child? ==> forall p :: p in trace && p.name == at.name ==> p == at)
    && (forall p :: p in trace && p != at ==> Readable(dirs, baseID, home, bad, unlisted, p))
    && (forall p :: p in trace ==> Child(p.name) in trace)
    && (forall p :: Visited(dirs, baseID, p) && p.name != at.name && Child(p.name) in trace ==> p in trace)
  }

  /** The directories outside `names` have been scanned whole, without a failure, and no others. */
  ghost predicate Scanned(dirs: map<string, Dir>, baseID: nat, home: string, bad: set<string>, unlisted: set<string>,
                          trace: seq<Place>, names: set<string>)
  {
    && AllVisited(dirs, baseID, trace)
    && (forall p :: p in trace ==> p.name !in names && Readable(dirs, baseID, home, bad, unlisted, p))
    && (forall p :: Visited(dirs, baseID, p) && p.name !in names ==> p in trace)
  }

  /** What looking at one more directory adds to a trace, and how that can end. */
  ghost predicate ChildTrace(dirs: map<string, Dir>, baseID: nat, home: string, bad: set<string>, unlisted: set<string>,
                             trace0: seq<Place>, name: string, trace: seq<Place>, at: Place, ok: bool)
  {
    var child := Child(name);
    if PathOf(home, child) in bad then !ok && trace == trace0 && at == child
    else if name !in dirs || !Descends(dirs[name], baseID) then ok && trace == trace0 + [child]
    else if PathOf(home, child) in unlisted then !ok && trace == trace0 + [child] && at == child
    else SubsTrace(dirs, baseID, home, bad, trace0 + [child], name, trace, at, ok)
  }

  ghost predicate SubsTrace(dirs: map<string, Dir>, baseID: nat, home: string, bad: set<string>, trace0: seq<Place>,
                            name: string, trace: seq<Place>, at: Place, ok: bool)
  {
    && (forall p :: p in trace0 ==> p in trace)
    && (forall p :: p in trace ==> p in trace0 || (p.Sub? && p.name == name && Visited(dirs, baseID, p) && PathOf(home, p) !in bad))
    && (if ok then forall p: Place :: p.Sub? && p.name == name && Visited(dirs, baseID, p) ==> p in trace
        else at.Sub? && at.name == name && Visited(dirs, baseID, at) && PathOf(home, at) in bad)
  }

  lemma ChildScanned(dirs: map<string, Dir>, baseID: nat, home: string, bad: set<string>, unlisted: set<string>,
                     trace0: seq<Place>, names: set<string>, name: string, trace: seq<Place>, at: Place, ok: bool)
    requires name in dirs && name in names && Scanned(dirs, baseID, home, bad, unlisted, trace0, names)
    requires ChildTrace(dirs, baseID, home, bad, unlisted, trace0, name, trace, at, ok)
    ensures ok ==> Scanned(dirs, baseID, home, bad, unlisted, trace, names - {name})
    ensures !ok ==> StoppedAt(dirs, baseID, home, bad, unlisted, trace, at)
  {
    if ok {
      ChildComplete(dirs, baseID, home, bad, unlisted, trace0, names, name, trace, at);
    } else {
      ChildStopped(dirs, baseID, home, bad, unlisted, trace0, names, name, trace, at);
    }
  }

  lemma ChildComplete(dirs: map<string, Dir>, baseID: nat, home: string, bad: set<string>, unlisted: set<string>,
                      trace0: seq<Place>, names: set<string>, name: string, trace: seq<Place>, at: Place)
    requires name in dirs && name in names && Scanned(dirs, baseID, home, bad, unlisted, trace0, names)
    requires ChildTrace(dirs, baseID, home, bad, unlisted, trace0, name, trace, at, true)
    ensures Scanned(dirs, baseID, home, bad, unlisted, trace, names - {name})
  {
    assert Visited(dirs, baseID, Child(name));
  }

  lemma ChildStopped(dirs: map<string, Dir>, baseID: nat, home: string, bad: set<string>, unlisted: set<string>,
                     trace0: seq<Place>, names: set<string>, name: string, trace: seq<Place>, at: Place)
    requires name in dirs && name in names && Scanned(dirs, baseID, home, bad, unlisted, trace0, names)
    requires ChildTrace(dirs, baseID, home, bad, unlisted, trace0, name, trace, at, false)
    ensures StoppedAt(dirs, baseID, home, bad, unlisted, trace, at)
  {
    assert forall p :: p in trace0 ==> Visited(dirs, baseID, Child(p.name));
  }

  predicate SmallDir(d: Dir) { d.id < TWO32 - 1 && forall m :: m in d.subs ==> d.subs[m] < TWO32 - 1 }

  predicate SmallIds(dirs: map<string, Dir>) { forall n :: n in dirs ==> SmallDir(dirs[n]) }

  /** `home` is the real path of `basePath`. */
  class Control {
    const basePath: string
    const home: string
    const state: PquotaState
    var quotas: map<string, nat>

    constructor (basePath: string, home: string, state: PquotaState)
      ensures this.basePath == basePath && this.home == home && this.state == state && quotas == map[]
    {
      this.basePath, this.home, this.state, quotas := basePath, home, state, map[];
    }

    /** `checkProjID`: records a positive id and moves the counter past it. */
    method CheckProjID(path: string, id: nat)
      modifies this`quotas, state
      ensures quotas == if id > 0 then old(quotas)[path := id] else old(quotas)
      ensures state.nextProjectID == Above(old(state.nextProjectID), id)
    {
      if id > 0 { quotas := quotas[path := id]; }
      if state.nextProjectID <= id { state.nextProjectID := Inc32(id); }
    }

    /** One more place of the scan. */
    method Visit(dirs: map<string, Dir>, baseID: nat, path: string, id: nat, ghost trace: seq<Place>, ghost p: Place,
                 ghost next0: nat)
      requires AllVisited(dirs, baseID, trace) && Visited(dirs, baseID, p)
      requires path == PathOf(home, p) && id == IdAt(dirs, baseID, p)
      requires quotas == Record(home, dirs, baseID, trace) && state.nextProjectID == Cleared(next0, dirs, baseID, trace)
      modifies this`quotas, state
      ensures AllVisited(dirs, baseID, trace + [p])
      ensures quotas == Record(home, dirs, baseID, trace + [p])
      ensures state.nextProjectID == Cleared(next0, dirs, baseID, trace + [p])
    {
      assert (trace + [p])[..|trace|] == trace;
      CheckProjID(path, id);
    }

    /** `findNextProjectID`: two levels of directories; `bad` are paths whose id cannot be read, `unlisted` directories
        that cannot be listed. */
    method FindNextProjectID(dirs: map<string, Dir>, baseID: nat, bad: set<string>, unlisted: set<string>)
      returns (ok: bool, ghost trace: seq<Place>, ghost at: Place)
      requires quotas == map[]
      modifies this`quotas, state
      ensures AllVisited(dirs, baseID, trace)
      ensures quotas == Record(home, dirs, baseID, trace)
      ensures state.nextProjectID == Cleared(old(state.nextProjectID), dirs, baseID, trace)
      ensures ok ==> IsScan(dirs, baseID, trace)
      ensures home in unlisted ==> trace == []
      ensures !ok && home !in unlisted ==> StoppedAt(dirs, baseID, home, bad, unlisted, trace, at)
      ensures ok <==> home !in unlisted && forall p :: Visited(dirs, baseID, p) ==> Readable(dirs, baseID, home, bad, unlisted, p)
    {
      trace, ok, at := [], home !in unlisted, Child("");
      if !ok { return; }
      var names := dirs.Keys;
      while names != {}
        invariant names <= dirs.Keys && ok && Scanned(dirs, baseID, home, bad, unlisted, trace, names)
        invariant quotas == Record(home, dirs, baseID, trace)
        invariant state.nextProjectID == Cleared(old(state.nextProjectID), dirs, baseID, trace)
        decreases names
      {
        var name :| name in names;
        ok, trace, at := ScanChild(dirs, baseID, bad, unlisted, name, names, trace, old(state.nextProjectID));
        if !ok { return; }
        names := names - {name};
      }
    }

    /** One directory under the home, and its subdirectories unless it has an id of its own. */
    method ScanChild(dirs: map<string, Dir>, baseID: nat, bad: set<string>, unlisted: set<string>, name: string,
                     ghost names: set<string>, ghost trace0: seq<Place>, ghost next0: nat)
      returns (ok: bool, ghost trace: seq<Place>, ghost at: Place)
      requires name in dirs && name in names && Scanned(dirs, baseID, home, bad, unlisted, trace0, names)
      requires quotas == Record(home, dirs, baseID, trace0) && state.nextProjectID == Cleared(next0, dirs, baseID, trace0)
      modifies this`quotas, state
      ensures AllVisited(dirs, baseID, trace)
      ensures quotas == Record(home, dirs, baseID, trace) && state.nextProjectID == Cleared(next0, dirs, baseID, trace)
      ensures ok ==> Scanned(dirs, baseID, home, bad, unlisted, trace, names - {name})
      ensures !ok ==> StoppedAt(dirs, baseID, home, bad, unlisted, trace, at)
    {
      var path := Join(home, name);
      at, trace := Child(name), trace0;
      assert Visited(dirs, baseID, at) && PathOf(home, at) == path;
      ok := path !in bad;
      if ok {
        Visit(dirs, baseID, path, dirs[name].id, trace, at, next0);
        trace := trace + [at];
        if Descends(dirs[name], baseID) {
          ok := path !in unlisted;
          if ok { ok, trace, at := ScanSubs(dirs, baseID, bad, name, trace, next0); }
        }
      }
      ChildScanned(dirs, baseID, home, bad, unlisted, trace0, names, name, trace, at, ok);
    }

    method ScanSubs(dirs: map<string, Dir>, baseID: nat, bad: set<string>, name: string,
                    ghost trace0: seq<Place>, ghost next0: nat)
      returns (ok: bool, ghost trace: seq<Place>, ghost at: Place)
      requires name in dirs && Descends(dirs[name], baseID) && AllVisited(dirs, baseID, trace0)
      requires quotas == Record(home, dirs, baseID, trace0) && state.nextProjectID == Cleared(next0, dirs, baseID, trace0)
      modifies this`quotas, state
      ensures AllVisited(dirs, baseID, trace)
      ensures quotas == Record(home, dirs, baseID, trace) && state.nextProjectID == Cleared(next0, dirs, baseID, trace)
      ensures SubsTrace(dirs, baseID, home, bad, trace0, name, trace, at, ok)
    {
      trace, at, ok := trace0, Child(name), true;
      var subs := dirs[name].subs.Keys;
      while subs != {} && ok
        invariant subs <= dirs[name].subs.Keys && AllVisited(dirs, baseID, trace)
        invariant forall p :: p in trace0 ==> p in trace
        invariant forall p :: p in trace ==>
          p in trace0 || (p.Sub? && p.name == name && Visited(dirs, baseID, p) && PathOf(home, p) !in bad)
        invariant ok ==> forall sub :: sub in dirs[name].subs && sub !in subs ==> Sub(name, sub) in trace
        invariant !ok ==> at.Sub? && at.name == name && Visited(dirs, baseID, at) && PathOf(home, at) in bad
        invariant quotas == Record(home, dirs, baseID, trace) && state.nextProjectID == Cleared(next0, dirs, baseID, trace)
        decreases subs
      {
        var sub :| sub in subs;
        subs := subs - {sub};
        var subpath := Join(Join(home, name), sub);
        at := Sub(name, sub);
        assert Visited(dirs, baseID, at) && PathOf(home, at) == subpath;
        ok := subpath !in bad;
        if ok {
          Visit(dirs, baseID, subpath, dirs[name].subs[sub], trace, at, next0);
          trace := trace + [at];
        }
      }
    }

    /** `SetDirQuota` on a child of the base, up to the quota limit itself, run alone. `ok` says whether the id could be
        set on disk. */
    method SetDirQuota(disk: Disk, target: string, name: string, ok: bool) returns (id: nat, done: bool)
      requires IsCleanAbs(basePath) && IsCleanAbs(home) && (basePath == "/" <==> home == "/")
      requires IsName(name) && target == Join(basePath, name)
      modifies this`quotas, state, disk
      ensures disk.files == old(disk.files)
      ensures (quotas, state.nextProjectID, disk.dirs, done) ==
        SetOne(old(quotas), old(state.nextProjectID), old(disk.dirs), disk.files, home, name, ok)
      ensures done ==> Join(home, name) in quotas && quotas[Join(home, name)] == id
      ensures forall n :: n != name ==> (n in disk.dirs <==> n in old(disk.dirs))
      ensures forall n :: n != name && n in disk.dirs ==> disk.dirs[n] == old(disk.dirs)[n]
      ensures done <==> name !in disk.files && (Join(home, name) in old(quotas) || ok)
      ensures !done || Join(home, name) in old(quotas) ==>
        quotas == old(quotas) && state.nextProjectID == old(state.nextProjectID)
      ensures done && Join(home, name) !in old(quotas) ==>
        && id == old(state.nextProjectID) && quotas == old(quotas)[Join(home, name) := id]
        && (id < TWO32 - 1 ==> state.nextProjectID == id + 1) && (id == TWO32 - 1 ==> state.nextProjectID == 0)
        && name in disk.dirs && disk.dirs[name].id == id
    {
      var path := RealPath(basePath, home, target);
      KeysCoincideIff(basePath, home, name);
      id := if path in quotas then quotas[path] else 0;
      var known := path in quotas;
      if name in disk.files { return id, false; }
      if name !in disk.dirs { disk.dirs := disk.dirs[name := Dir(0, map[])]; }
      if !known {
        id := state.nextProjectID;
        if !ok { return id, false; }
        disk.dirs := disk.dirs[name := disk.dirs[name].(id := id)];
        state.nextProjectID := Inc32(state.nextProjectID);
        quotas := quotas[path := id];
      }
      done := true;
    }
  }

  class Disk {
    var dirs: map<string, Dir>
    var files: set<string>
  }

  // ---------- The object's operations as steps of the interleaving machine ----------

  function Paths(home: string, trace: seq<Place>): seq<string> {
    if trace == [] then [] else Paths(home, trace[..|trace| - 1]) + [PathOf(home, trace[|trace| - 1])]
  }

  lemma {:induction false} VisitAllSnoc(next: nat, visited: map<string, nat>, order: seq<string>, p: string)
    requires p in visited && forall q :: q in order ==> q in visited
    ensures VisitAll(next, visited, order + [p]) == Above(VisitAll(next, visited, order), visited[p])
    decreases |order|
  {
    if order == [] {
      assert [] + [p] == [p] && [p][1..] == [];
    } else {
      VisitAllSnoc(Above(next, visited[order[0]]), visited, order[1..], p);
      assert (order + [p])[1..] == order[1..] + [p];
    }
  }

  lemma {:induction false} ScanCounter(next: nat, home: string, dirs: map<string, Dir>, baseID: nat, trace: seq<Place>,
                                      visited: map<string, nat>)
    requires AllVisited(dirs, baseID, trace)
    requires forall p :: p in trace ==> PathOf(home, p) in visited && visited[PathOf(home, p)] == IdAt(dirs, baseID, p)
    ensures forall path :: path in Paths(home, trace) ==> path in visited
    ensures Cleared(next, dirs, baseID, trace) == VisitAll(next, visited, Paths(home, trace))
    decreases |trace|
  {
    if trace != [] {
      var init, last := trace[..|trace| - 1], trace[|trace| - 1];
      assert trace == init + [last] && last in trace;
      ScanCounter(next, home, dirs, baseID, init, visited);
      VisitAllSnoc(next, visited, Paths(home, init), PathOf(home, last));
    }
  }

  /** `visited` gives the id at the path of every place of the trace, and nothing else. */
  ghost predicate Reads(visited: map<string, nat>, home: string, dirs: map<string, Dir>, baseID: nat, trace: seq<Place>)
    requires AllVisited(dirs, baseID, trace)
  {
    && (forall p :: p in trace ==> PathOf(home, p) in visited && visited[PathOf(home, p)] == IdAt(dirs, baseID, p))
    && (forall path :: path in visited ==> exists p :: p in trace && path == PathOf(home, p))
  }

  lemma {:induction false} PathsOfTrace(home: string, trace: seq<Place>)
    ensures forall p :: p in trace ==> PathOf(home, p) in Paths(home, trace)
    decreases |trace|
  {
    if trace != [] {
      var init, last := trace[..|trace| - 1], trace[|trace| - 1];
      assert trace == init + [last];
      PathsOfTrace(home, init);
    }
  }

  lemma ScanEntries(control: nat, home: string, dirs: map<string, Dir>, baseID: nat, trace: seq<Place>, visited: map<string, nat>)
    requires IsCleanAbs(home) && NamesOk(dirs) && AllVisited(dirs, baseID, trace) && Reads(visited, home, dirs, baseID, trace)
    ensures forall path :: path in Record(home, dirs, baseID, trace) <==> (control, path) in Found(control, visited)
    ensures forall path :: path in Record(home, dirs, baseID, trace) ==>
      Found(control, visited)[(control, path)] == Record(home, dirs, baseID, trace)[path]
  {
    RecordedIds(home, dirs, baseID, trace);
  }

  /** A directory scan is the machine's scan step over the same places: same counter, same entries added. */
  lemma ScanIsStep(s: State, control: nat, home: string, dirs: map<string, Dir>, baseID: nat, trace: seq<Place>,
                   visited: map<string, nat>)
    requires IsCleanAbs(home) && NamesOk(dirs) && SmallIds(dirs)
    requires AllVisited(dirs, baseID, trace) && Reads(visited, home, dirs, baseID, trace)
    ensures
      var step := Scan(control, visited, Paths(home, trace));
      && Enabled(s, step) && !Wraps(s, step)
      && Apply(s, step).next == Cleared(s.next, dirs, baseID, trace)
      && (forall path :: path in Record(home, dirs, baseID, trace) ==>
            (control, path) in Apply(s, step).quotas &&
            Apply(s, step).quotas[(control, path)] == Record(home, dirs, baseID, trace)[path])
      && (forall key :: key in Apply(s, step).quotas && (key.0 != control || key.1 !in Record(home, dirs, baseID, trace)) ==>
            key in s.quotas && Apply(s, step).quotas[key] == s.quotas[key])
      && (forall key :: key in s.quotas ==> key in Apply(s, step).quotas)
  {
    ScanCounter(s.next, home, dirs, baseID, trace, visited);
    PathsOfTrace(home, trace);
    ScanEntries(control, home, dirs, baseID, trace, visited);
    forall path | path in visited ensures visited[path] < TWO32 - 1 {
      var p :| p in trace && path == PathOf(home, p);
      assert SmallDir(dirs[p.name]);
    }
  }

  /** A call that runs alone is look-up, allocation and store in a row. */
  lemma CallIsThreeSteps(s: State, caller: nat, key: Key)
    requires caller !in s.callers && key !in s.quotas && s.next < TWO32 - 1
    ensures var run := [Look(caller, key), Allocate(caller, true), Store(caller)];
      && IsRun(s, run)
      && After(s, run) == s.(next := Inc32(s.next), quotas := s.quotas[key := s.next], issued := s.issued + [s.next])
  {
    var look, allocate, store := Look(caller, key), Allocate(caller, true), Store(caller);
    var a := Apply(s, look);
    var b := Apply(a, allocate);
    var c := Apply(b, store);
    RunCons(b, store, []);
    RunCons(a, allocate, [store] + []);
    RunCons(s, look, [allocate] + ([store] + []));
    assert [look, allocate, store] == [look] + ([allocate] + ([store] + []));
    assert c.callers == s.callers;
  }

  // ---------- Restart ----------

  function SetOne(quotas: map<string, nat>, next: nat, dirs: map<string, Dir>, files: set<string>, home: string,
                  name: string, ok: bool): (map<string, nat>, nat, map<string, Dir>, bool)
  {
    if name in files then (quotas, next, dirs, false)
    else
      var made := if name in dirs then dirs else dirs[name := Dir(0, map[])];
      if Join(home, name) in quotas then (quotas, next, made, true)
      else if !ok then (quotas, next, made, false)
      else (quotas[Join(home, name) := next], Inc32(next), made[name := made[name].(id := next)], true)
  }

  /** One controller over base project id 0, with the daemon's calls and other processes making directories. */
  datatype Disked = Disked(quotas: map<string, nat>, next: nat, dirs: map<string, Dir>, files: set<string>)

  datatype Act = SetQuota(name: string, ok: bool) | MakeChild(name: string) | MakeSub(name: string, sub: string)

  /** New directories inherit the project id of the directory they are made in. */
  function Act1(d: Disked, home: string, a: Act): Disked {
    match a
    case SetQuota(name, ok) =>
      var r := SetOne(d.quotas, d.next, d.dirs, d.files, home, name, ok);
      d.(quotas := r.0, next := r.1, dirs := r.2)
    case MakeChild(name) => if name in d.dirs || name in d.files then d else d.(dirs := d.dirs[name := Dir(0, map[])])
    case MakeSub(name, sub) =>
      if name !in d.dirs || sub in d.dirs[name].subs then d
      else d.(dirs := d.dirs[name := d.dirs[name].(subs := d.dirs[name].subs[sub := d.dirs[name].id])])
  }

  function Acts(d: Disked, home: string, acts: seq<Act>): Disked
    decreases |acts|
  {
    if acts == [] then d else Acts(Act1(d, home, acts[0]), home, acts[1..])
  }

  /** What a scan with base id 0 records, when quotas are only on direct children. */
  ghost predicate MapMatchesDisk(quotas: map<string, nat>, dirs: map<string, Dir>, home: string) {
    && (forall n :: n in dirs ==> HasEntry(quotas, home, n, dirs[n].id))
    && (forall path :: path in quotas ==> FromDir(dirs, home, path))
  }

  predicate HasEntry(quotas: map<string, nat>, home: string, n: string, id: nat) {
    id > 0 ==> Join(home, n) in quotas && quotas[Join(home, n)] == id
  }

  ghost predicate FromDir(dirs: map<string, Dir>, home: string, path: string) {
    exists n :: n in dirs && dirs[n].id > 0 && path == Join(home, n)
  }

  /** Only direct children carry quotas: below a directory without an id there are none. */
  predicate FlatDir(d: Dir) { d.id == 0 ==> forall m :: m in d.subs ==> d.subs[m] == 0 }

  predicate FlatIds(dirs: map<string, Dir>) { forall n :: n in dirs ==> FlatDir(dirs[n]) }

  predicate Sane(d: Disked) { NamesOk(d.dirs) && SmallIds(d.dirs) }

  predicate NamesIn(a: Act) { IsName(a.name) && (a.MakeSub? ==> IsName(a.sub)) }

  /** The directory an act makes or changes; all others stay as they are. */
  lemma ActTouchesOne(d: Disked, home: string, a: Act, n: string)
    ensures var e := Act1(d, home, a);
      n in e.dirs ==>
        || (n in d.dirs && e.dirs[n] == d.dirs[n])
        || (n == a.name && n !in d.dirs && e.dirs[n] == Dir(if a.SetQuota? && e.dirs[n].id > 0 then d.next else 0, map[]))
        || (n == a.name && n in d.dirs && a.SetQuota? && e.dirs[n] == d.dirs[n].(id := d.next))
        || (n == a.name && n in d.dirs && a.MakeSub? &&
              e.dirs[n] == d.dirs[n].(subs := d.dirs[n].subs[a.sub := d.dirs[n].id]))
  {
  }

  lemma ActKeepsSane(d: Disked, home: string, a: Act)
    requires Sane(d) && NamesIn(a) && 0 < d.next && d.next + 1 < TWO32
    ensures Sane(Act1(d, home, a))
    ensures FlatIds(d.dirs) ==> FlatIds(Act1(d, home, a).dirs)
  {
    var e := Act1(d, home, a);
    forall n | n in e.dirs
      ensures IsName(n) && SubNamesOk(e.dirs[n]) && SmallDir(e.dirs[n]) && (FlatIds(d.dirs) ==> FlatDir(e.dirs[n]))
    {
      ActTouchesOne(d, home, a, n);
    }
  }

  /** Directories may come and go as long as the positive ids stay. */
  lemma SameIdsSameMap(quotas: map<string, nat>, dirs: map<string, Dir>, dirs': map<string, Dir>, home: string)
    requires MapMatchesDisk(quotas, dirs, home)
    requires forall n :: n in dirs && dirs[n].id > 0 ==> n in dirs' && dirs'[n].id == dirs[n].id
    requires forall n :: n in dirs' && dirs'[n].id > 0 ==> n in dirs && dirs'[n].id == dirs[n].id
    ensures MapMatchesDisk(quotas, dirs', home)
  {
  }

  /** A new id on a directory that had none, and its map entry. */
  lemma NewIdNewEntry(quotas: map<string, nat>, dirs: map<string, Dir>, home: string, name: string, id: nat)
    requires MapMatchesDisk(quotas, dirs, home) && name in dirs && Join(home, name) !in quotas && id > 0
    ensures MapMatchesDisk(quotas[Join(home, name) := id], dirs[name := dirs[name].(id := id)], home)
  {
  }

  lemma SetKeepsMatch(d: Disked, home: string, name: string, ok: bool)
    requires MapMatchesDisk(d.quotas, d.dirs, home) && d.next > 0
    ensures MapMatchesDisk(Act1(d, home, SetQuota(name, ok)).quotas, Act1(d, home, SetQuota(name, ok)).dirs, home)
  {
    if name !in d.files {
      var made := if name in d.dirs then d.dirs else d.dirs[name := Dir(0, map[])];
      SameIdsSameMap(d.quotas, d.dirs, made, home);
      if Join(home, name) !in d.quotas { NewIdNewEntry(d.quotas, made, home, name, d.next); }
    }
  }

  lemma ActKeepsMatch(d: Disked, home: string, a: Act)
    requires MapMatchesDisk(d.quotas, d.dirs, home) && d.next > 0
    ensures MapMatchesDisk(Act1(d, home, a).quotas, Act1(d, home, a).dirs, home)
  {
    var e := Act1(d, home, a);
    if a.SetQuota? {
      SetKeepsMatch(d, home, a.name, a.ok);
    } else {
      forall n | n in e.dirs && e.dirs[n].id > 0 ensures n in d.dirs && e.dirs[n].id == d.dirs[n].id {
        ActTouchesOne(d, home, a, n);
      }
      SameIdsSameMap(d.quotas, d.dirs, e.dirs, home);
    }
  }

  lemma ActNext(d: Disked, home: string, a: Act)
    requires d.next + 1 < TWO32
    ensures d.next <= Act1(d, home, a).next <= d.next + 1
  {
  }

  lemma {:induction false} ActsKeepMatch(d: Disked, home: string, acts: seq<Act>)
    requires MapMatchesDisk(d.quotas, d.dirs, home) && d.next > 0 && d.next + |acts| < TWO32
    ensures MapMatchesDisk(Acts(d, home, acts).quotas, Acts(d, home, acts).dirs, home)
    decreases |acts|
  {
    if acts != [] {
      ActNext(d, home, acts[0]);
      ActKeepsMatch(d, home, acts[0]);
      ActsKeepMatch(Act1(d, home, acts[0]), home, acts[1..]);
    }
  }

  lemma {:induction false} ActsKeepSane(d: Disked, home: string, acts: seq<Act>)
    requires Sane(d) && FlatIds(d.dirs) && d.next > 0 && d.next + |acts| < TWO32
    requires forall i :: 0 <= i < |acts| ==> NamesIn(acts[i])
    ensures Sane(Acts(d, home, acts)) && FlatIds(Acts(d, home, acts).dirs)
    decreases |acts|
  {
    if acts != [] {
      ActNext(d, home, acts[0]);
      ActKeepsSane(d, home, acts[0]);
      ActsKeepSane(Act1(d, home, acts[0]), home, acts[1..]);
    }
  }

  /** What a run has issued since `d0`: every new entry has an id of its own, no smaller than the counter was and below
      what it is, old entries are as they were, and each new entry has cost one id. */
  ghost predicate Issued(d0: Disked, d: Disked) { IssuedMap(d0.quotas, d0.next, d.quotas, d.next) }

  ghost predicate IssuedMap(quotas0: map<string, nat>, next0: nat, quotas: map<string, nat>, next: nat) {
    && next0 <= next && |quotas| - |quotas0| == next - next0
    && KeptBelow(quotas0, next0, quotas, next) && OwnIds(quotas0, quotas)
  }

  ghost predicate KeptBelow(quotas0: map<string, nat>, next0: nat, quotas: map<string, nat>, next: nat) {
    && (forall p :: p in quotas0 ==> p in quotas && quotas[p] == quotas0[p])
    && (forall p :: p in quotas ==> quotas[p] < next && (p !in quotas0 ==> quotas[p] >= next0))
  }

  lemma IssueKept(quotas0: map<string, nat>, next0: nat, quotas: map<string, nat>, next: nat, path: string)
    requires KeptBelow(quotas0, next0, quotas, next) && path !in quotas && next0 <= next
    ensures KeptBelow(quotas0, next0, quotas[path := next], next + 1)
  {
  }

  lemma OneMoreEntry(quotas: map<string, nat>, path: string, id: nat)
    requires path !in quotas
    ensures |quotas[path := id]| == |quotas| + 1
  {
    assert quotas[path := id].Keys == quotas.Keys + {path};
  }

  /** A path that is new since `quotas0` shares its id with no other. */
  ghost predicate OwnIds(quotas0: map<string, nat>, quotas: map<string, nat>) {
    forall p, q :: p in quotas && q in quotas && p != q && p !in quotas0 ==> quotas[p] != quotas[q]
  }

  lemma IssueOwn(quotas0: map<string, nat>, quotas: map<string, nat>, next: nat, path: string)
    requires OwnIds(quotas0, quotas) && path !in quotas && forall p :: p in quotas ==> quotas[p] < next
    ensures OwnIds(quotas0, quotas[path := next])
  {
  }

  lemma IssueOne(quotas0: map<string, nat>, next0: nat, quotas: map<string, nat>, next: nat, path: string)
    requires IssuedMap(quotas0, next0, quotas, next) && path !in quotas
    ensures IssuedMap(quotas0, next0, quotas[path := next], next + 1)
  {
    IssueKept(quotas0, next0, quotas, next, path);
    IssueOwn(quotas0, quotas, next, path);
    OneMoreEntry(quotas, path, next);
  }

  /** An act gives one path that had none the next id, or leaves map and counter alone. */
  lemma ActOnCounter(d: Disked, home: string, a: Act)
    requires d.next + 1 < TWO32
    ensures var e := Act1(d, home, a);
      || (e.quotas == d.quotas && e.next == d.next)
      || (a.SetQuota? && Join(home, a.name) !in d.quotas &&
            e.quotas == d.quotas[Join(home, a.name) := d.next] && e.next == d.next + 1)
  {
  }

  lemma ActIssues(d0: Disked, d: Disked, home: string, a: Act)
    requires Issued(d0, d) && d.next + 1 < TWO32
    ensures Issued(d0, Act1(d, home, a))
  {
    var e := Act1(d, home, a);
    ActOnCounter(d, home, a);
    if e.quotas != d.quotas || e.next != d.next {
      IssueOne(d0.quotas, d0.next, d.quotas, d.next, Join(home, a.name));
    }
  }

  lemma {:induction false} RunIssues(d0: Disked, d: Disked, home: string, acts: seq<Act>)
    requires Issued(d0, d) && d.next + |acts| < TWO32
    ensures Issued(d0, Acts(d, home, acts))
    decreases |acts|
  {
    if acts != [] {
      ActNext(d, home, acts[0]);
      ActIssues(d0, d, home, acts[0]);
      RunIssues(d0, Act1(d, home, acts[0]), home, acts[1..]);
    }
  }

  /** Over any sequential run from a state whose ids are below the counter, the paths given ids get distinct ones. */
  lemma IdsIssuedOnce(d: Disked, home: string, acts: seq<Act>)
    requires (forall p :: p in d.quotas ==> d.quotas[p] < d.next) && d.next + |acts| < TWO32
    ensures Issued(d, Acts(d, home, acts))
  {
    RunIssues(d, d, home, acts);
  }

  /** The machine's map, for this controller, is the object's, and the counter is the same. */
  ghost predicate Mirrors(s: State, d: Disked, control: nat) {
    && s.next == d.next
    && (forall path :: path in d.quotas <==> (control, path) in s.quotas)
    && (forall path :: path in d.quotas ==> s.quotas[(control, path)] == d.quotas[path])
  }

  /** The machine's steps of one call: look-up, and for a path without an id allocation and, if that works, store. */
  function CallSteps(d: Disked, home: string, name: string, ok: bool, control: nat, caller: nat): seq<Step> {
    var key := (control, Join(home, name));
    if name in d.files then []
    else if key.1 in d.quotas then [Look(caller, key)]
    else if !ok then [Look(caller, key), Allocate(caller, false)]
    else [Look(caller, key), Allocate(caller, true), Store(caller)]
  }

  /** A call on the object is that run of the machine, on the same counter and the same map. */
  lemma SetQuotaIsCall(s: State, d: Disked, home: string, name: string, ok: bool, control: nat, caller: nat)
    requires Mirrors(s, d, control) && caller !in s.callers && d.next < TWO32 - 1
    ensures
      var run := CallSteps(d, home, name, ok, control, caller);
      && IsRun(s, run) && Mirrors(After(s, run), Act1(d, home, SetQuota(name, ok)), control)
      && After(s, run).callers == s.callers
  {
    var key := (control, Join(home, name));
    if name !in d.files {
      if key.1 in d.quotas {
        RunCons(s, Look(caller, key), []);
        assert [Look(caller, key)] + [] == [Look(caller, key)];
      } else if ok {
        CallIsThreeSteps(s, caller, key);
      } else {
        FailedCall(s, caller, key);
      }
    }
  }

  lemma FailedCall(s: State, caller: nat, key: Key)
    requires caller !in s.callers && key !in s.quotas
    ensures var run := [Look(caller, key), Allocate(caller, false)]; IsRun(s, run) && After(s, run) == s
  {
    var look, allocate := Look(caller, key), Allocate(caller, false);
    var a := Apply(s, look);
    RunCons(a, allocate, []);
    RunCons(s, look, [allocate] + []);
    assert [look, allocate] == [look] + ([allocate] + []);
    assert Apply(a, allocate).callers == s.callers;
  }

  lemma RebuiltIsThere(dirs: map<string, Dir>, home: string, trace: seq<Place>, quotas: map<string, nat>, path: string)
    requires IsCleanAbs(home) && NamesOk(dirs) && MapMatchesDisk(quotas, dirs, home) && FlatIds(dirs)
    requires AllVisited(dirs, 0, trace) && path in Record(home, dirs, 0, trace)
    ensures path in quotas && quotas[path] == Record(home, dirs, 0, trace)[path]
  {
    RecordedIds(home, dirs, 0, trace);
    var p :| p in trace && IdAt(dirs, 0, p) > 0 && path == PathOf(home, p);
    assert FlatDir(dirs[p.name]) && HasEntry(quotas, home, p.name, dirs[p.name].id);
    assert p.Child?;
  }

  lemma EntryIsRebuilt(dirs: map<string, Dir>, home: string, trace: seq<Place>, quotas: map<string, nat>, path: string)
    requires IsCleanAbs(home) && NamesOk(dirs) && MapMatchesDisk(quotas, dirs, home)
    requires IsScan(dirs, 0, trace) && path in quotas
    ensures path in Record(home, dirs, 0, trace)
  {
    RecordedIds(home, dirs, 0, trace);
    assert FromDir(dirs, home, path);
    var n :| n in dirs && dirs[n].id > 0 && path == Join(home, n);
    assert Visited(dirs, 0, Child(n)) && PathOf(home, Child(n)) == path;
  }

  /** A scan of such a disk rebuilds exactly the map that was in memory. */
  lemma ScanRebuildsMap(dirs: map<string, Dir>, home: string, trace: seq<Place>, quotas: map<string, nat>)
    requires IsCleanAbs(home) && NamesOk(dirs) && MapMatchesDisk(quotas, dirs, home) && FlatIds(dirs)
    requires IsScan(dirs, 0, trace)
    ensures Record(home, dirs, 0, trace) == quotas
  {
    var rebuilt := Record(home, dirs, 0, trace);
    forall path | path in rebuilt ensures path in quotas && quotas[path] == rebuilt[path] {
      RebuiltIsThere(dirs, home, trace, quotas, path);
    }
    forall path | path in quotas ensures path in rebuilt {
      EntryIsRebuilt(dirs, home, trace, quotas, path);
    }
  }

  /** What a scan records of any flat disk, whatever wrote it, matches that disk. */
  lemma ScanMatchesDisk(dirs: map<string, Dir>, home: string, trace: seq<Place>)
    requires IsCleanAbs(home) && NamesOk(dirs) && FlatIds(dirs) && IsScan(dirs, 0, trace)
    ensures MapMatchesDisk(Record(home, dirs, 0, trace), dirs, home)
  {
    var quotas := Record(home, dirs, 0, trace);
    RecordedIds(home, dirs, 0, trace);
    forall n | n in dirs ensures HasEntry(quotas, home, n, dirs[n].id) {
      assert Visited(dirs, 0, Child(n)) && PathOf(home, Child(n)) == Join(home, n);
    }
    forall path | path in quotas ensures FromDir(dirs, home, path) {
      var p :| p in trace && IdAt(dirs, 0, p) > 0 && path == PathOf(home, p);
      assert FlatDir(dirs[p.name]);
    }
  }

  /** `NewControl`: the minimum, then the scan. */
  method Start(dirs: map<string, Dir>, basePath: string, home: string, min: nat) returns (control: Control, ok: bool)
    requires IsCleanAbs(home) && NamesOk(dirs) && SmallIds(dirs) && FlatIds(dirs) && min < TWO32 - 1
    ensures fresh(control) && fresh(control.state) && ok
    ensures MapMatchesDisk(control.quotas, dirs, home)
    ensures forall quotas :: MapMatchesDisk(quotas, dirs, home) ==> control.quotas == quotas
    ensures min < control.state.nextProjectID < TWO32
    ensures forall path :: path in control.quotas ==> control.quotas[path] < control.state.nextProjectID
  {
    var state := new PquotaState();
    state.UpdateMinProjID(min);
    ghost var next := state.nextProjectID;
    control := new Control(basePath, home, state);
    ghost var trace;
    ghost var at;
    ok, trace, at := control.FindNextProjectID(dirs, 0, {}, {});
    ScanMatchesDisk(dirs, home, trace);
    ClearedAbove(next, dirs, 0, trace);
    IdsBelow(dirs, home, trace, next);
    forall quotas | MapMatchesDisk(quotas, dirs, home) ensures control.quotas == quotas {
      ScanRebuildsMap(dirs, home, trace, quotas);
    }
  }

  lemma IdsBelow(dirs: map<string, Dir>, home: string, trace: seq<Place>, next: nat)
    requires IsCleanAbs(home) && NamesOk(dirs) && SmallIds(dirs) && AllVisited(dirs, 0, trace) && next < TWO32
    ensures forall path :: path in Record(home, dirs, 0, trace) ==>
      Record(home, dirs, 0, trace)[path] < Cleared(next, dirs, 0, trace)
  {
    RecordedIds(home, dirs, 0, trace);
    ClearedAbove(next, dirs, 0, trace);
  }

  /** A first start on any flat disk, any sequential run of calls and directories made, and a second start: the new
      process has the same map as the old one, and its counter is past the minimum and past every id in use. */
  method Restart(dirs: map<string, Dir>, files: set<string>, basePath: string, home: string, acts: seq<Act>, min: nat)
    returns (first: Control, second: Control, ok: bool)
    requires IsCleanAbs(home) && NamesOk(dirs) && SmallIds(dirs) && FlatIds(dirs) && min < TWO32 - 1
    requires forall i :: 0 <= i < |acts| ==> NamesIn(acts[i])
    ensures fresh(first) && fresh(first.state) && fresh(second) && fresh(second.state)
    ensures MapMatchesDisk(first.quotas, dirs, home)
    ensures
      var before := Disked(first.quotas, first.state.nextProjectID, dirs, files);
      before.next + |acts| < TWO32 ==>
        && ok && second.quotas == Acts(before, home, acts).quotas
        && second.state.nextProjectID > min
        && Issued(before, Acts(before, home, acts))
        && forall path :: path in second.quotas ==> second.quotas[path] < second.state.nextProjectID
  {
    first, ok := Start(dirs, basePath, home, min);
    second := first;
    var before := Disked(first.quotas, first.state.nextProjectID, dirs, files);
    if before.next + |acts| < TWO32 {
      ActsKeepMatch(before, home, acts);
      ActsKeepSane(before, home, acts);
      IdsIssuedOnce(before, home, acts);
      second, ok := Start(Acts(before, home, acts).dirs, basePath, home, min);
    }
  }
}
