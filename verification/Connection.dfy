/** The coalescing log connection: every operation as an atomic step under the mutex, the timer as
    arm/expire/callback, and the one `flush(false)` that runs without the lock as separate sub-steps. */
module Connection {
  import opened Bytes

  const KEY_LEN: nat := 4

  type Message = m: seq<byte> | |m| >= KEY_LEN witness [0, 0, 0, 0]

  function KeyOf(m: Message): seq<byte> { m[..KEY_LEN] }
  function Body(m: Message): seq<byte> { m[KEY_LEN..] }

  /** Where the unlocked `flush(false)` is. `must` are the entries its range over the map still has to produce: those
      that were there at the start and have been neither reached nor removed. Later entries it may produce or skip. */
  datatype Flusher =
    | Idle
    | Looping(must: set<seq<byte>>)
    | Picked(key: seq<byte>, msg: Message, must: set<seq<byte>>)
    | Sent(key: seq<byte>, msg: Message, must: set<seq<byte>>)
    | Finishing

  /** Between picking the entry of a key and deleting it. */
  predicate Active(f: Flusher, key: seq<byte>) { (f.Picked? || f.Sent?) && f.key == key }

  /** Every entry of the map has been removed. */
  function Reached(f: Flusher): Flusher { if f.Idle? || f.Finishing? then f else f.(must := {}) }

  /** `current` is `timeAfter` (0 for nil); `armed` timers can be stopped, `fired` ones wait for the lock. */
  datatype State = State(
    cache: map<seq<byte>, Message>,
    sending: bool,
    current: nat, armed: set<nat>, fired: set<nat>, next: nat,
    closed: bool,
    flusher: Flusher,
    monitor: bool, inHub: bool,
    monitorCloses: nat, cancels: nat, removals: nat)

  function Init(monitor: bool): State {
    State(map[], false, 0, {}, {}, 1, false, Idle, monitor, true, 0, 0, 0)
  }

  datatype Step =
    | Write(m: Message)
    | WriteMid(m: Message)
    | Flush(order: seq<seq<byte>>)
    | Expire(id: nat)
    | Callback(id: nat, order: seq<seq<byte>>)
    | OnClose
    | LoopStart
    | LoopPick(key: seq<byte>)
    | LoopSend
    | LoopDelete
    | LoopEnd

  predicate IsLoop(step: Step) {
    step.LoopStart? || step.LoopPick? || step.LoopSend? || step.LoopDelete? || step.LoopEnd?
  }

  /** `order` lists every key of the map once: one way Go may range over it. */
  predicate IsOrder(cache: map<seq<byte>, Message>, order: seq<seq<byte>>) {
    if order == [] then cache == map[]
    else order[0] in cache && IsOrder(cache - {order[0]}, order[1..])
  }

  function Entries(cache: map<seq<byte>, Message>, order: seq<seq<byte>>): seq<Message>
    requires IsOrder(cache, order)
  {
    if order == [] then [] else [cache[order[0]]] + Entries(cache - {order[0]}, order[1..])
  }

  predicate Enabled(s: State, step: Step) {
    match step
    case Flush(order) => IsOrder(s.cache, order)
    case Expire(id) => id in s.armed
    case Callback(id, order) => id in s.fired && IsOrder(s.cache, order)
    case LoopStart => s.flusher.Idle?
    case LoopPick(key) => s.flusher.Looping? && key in s.cache
    case LoopSend => s.flusher.Picked?
    case LoopDelete => s.flusher.Sent?
    case LoopEnd => s.flusher.Finishing? || (s.flusher.Looping? && s.flusher.must == {})
    case _ => true
  }

  function Merged(cache: map<seq<byte>, Message>, m: Message): map<seq<byte>, Message> {
    cache[KeyOf(m) := if KeyOf(m) in cache then cache[KeyOf(m)] + Body(m) else m]
  }

  function Emptied(s: State): State {
    if s.closed then s.(sending := false) else s.(cache := map[], sending := false, flusher := Reached(s.flusher))
  }

  /** `timeAfter.Stop()`, when there is a timer: a no-op on one that has fired. */
  function Stopped(s: State): set<nat> { if s.current == 0 then s.armed else s.armed - {s.current} }

  function Apply(s: State, step: Step): State
    requires Enabled(s, step)
  {
    match step
    case Write(m) =>
      var t := s.(cache := Merged(s.cache, m));
      if s.sending then t
      else t.(sending := true, armed := Stopped(s) + {s.next}, current := s.next, next := s.next + 1)
    case WriteMid(_) => s
    case Flush(_) => Emptied(s)
    case Expire(id) => s.(armed := s.armed - {id}, fired := s.fired + {id})
    case Callback(id, _) => Emptied(s.(fired := s.fired - {id}))
    case OnClose =>
      if s.closed then s
      else s.(closed := true, cancels := s.cancels + 1,
              monitorCloses := s.monitorCloses + (if s.monitor then 1 else 0),
              inHub := false, removals := s.removals + (if s.inHub then 1 else 0))
    case LoopStart => s.(flusher := if s.closed || s.cache == map[] then Finishing else Looping(s.cache.Keys))
    case LoopPick(key) => s.(flusher := Picked(key, s.cache[key], s.flusher.must - {key}))
    case LoopSend => s.(flusher := Sent(s.flusher.key, s.flusher.msg, s.flusher.must))
    case LoopDelete => s.(cache := s.cache - {s.flusher.key}, flusher := Looping(s.flusher.must - {s.flusher.key}))
    case LoopEnd => s.(flusher := Idle, sending := false)
  }

  /** The messages a step's flush puts on the channel. */
  function Flushes(s: State, step: Step): seq<Message>
    requires Enabled(s, step)
  {
    match step
    case Flush(order) => if s.closed then [] else Entries(s.cache, order)
    case Callback(_, order) => if s.closed then [] else Entries(s.cache, order)
    case LoopSend => [s.flusher.msg]
    case _ => []
  }

  /** Everything a step puts on the channel. */
  function Wire(s: State, step: Step): seq<Message>
    requires Enabled(s, step)
  {
    if step.WriteMid? then (if s.closed then [] else [step.m]) else Flushes(s, step)
  }

  function Writes(step: Step): seq<Message> { if step.Write? then [step.m] else [] }

  // ---------- Runs ----------

  predicate IsRun(s: State, run: seq<Step>)
    decreases |run|
  {
    run == [] || (Enabled(s, run[0]) && IsRun(Apply(s, run[0]), run[1..]))
  }

  function After(s: State, run: seq<Step>): State
    requires IsRun(s, run)
    decreases |run|
  {
    if run == [] then s else After(Apply(s, run[0]), run[1..])
  }

  function AllFlushes(s: State, run: seq<Step>): seq<Message>
    requires IsRun(s, run)
    decreases |run|
  {
    if run == [] then [] else Flushes(s, run[0]) + AllFlushes(Apply(s, run[0]), run[1..])
  }

  function AllWire(s: State, run: seq<Step>): seq<Message>
    requires IsRun(s, run)
    decreases |run|
  {
    if run == [] then [] else Wire(s, run[0]) + AllWire(Apply(s, run[0]), run[1..])
  }

  function AllWrites(run: seq<Step>): seq<Message> {
    if run == [] then [] else Writes(run[0]) + AllWrites(run[1..])
  }

  /** One step in front of a run. */
  lemma RunCons(s: State, step: Step, rest: seq<Step>)
    requires Enabled(s, step) && IsRun(Apply(s, step), rest)
    ensures IsRun(s, [step] + rest)
    ensures After(s, [step] + rest) == After(Apply(s, step), rest)
    ensures AllFlushes(s, [step] + rest) == Flushes(s, step) + AllFlushes(Apply(s, step), rest)
    ensures AllWire(s, [step] + rest) == Wire(s, step) + AllWire(Apply(s, step), rest)
    ensures AllWrites([step] + rest) == Writes(step) + AllWrites(rest)
  {
  }

  predicate Locked(run: seq<Step>) { forall step :: step in run ==> !IsLoop(step) }

  /** The bytes carried under one key, headers stripped. */
  function Stream(key: seq<byte>, ms: seq<Message>): seq<byte> {
    if ms == [] then [] else (if KeyOf(ms[0]) == key then Body(ms[0]) else []) + Stream(key, ms[1..])
  }

  function Cached(s: State, key: seq<byte>): seq<byte> {
    if key in s.cache then Body(s.cache[key]) else []
  }

  lemma {:induction false} StreamAppend(key: seq<byte>, a: seq<Message>, b: seq<Message>)
    ensures Stream(key, a + b) == Stream(key, a) + Stream(key, b)
    decreases |a|
  {
    if a == [] {
      assert a + b == b;
    } else {
      assert (a + b)[1..] == a[1..] + b;
      StreamAppend(key, a[1..], b);
    }
  }

  // ---------- Invariants ----------

  predicate Headed(cache: map<seq<byte>, Message>) {
    forall key :: key in cache ==> KeyOf(cache[key]) == key
  }

  /** The current timer's callback has not run yet. */
  predicate Pending(s: State) { s.current in s.armed || s.current in s.fired }

  /** Kept by every step, unlocked sub-steps included. */
  predicate Inv(s: State) {
    && Headed(s.cache)
    && s.next > 0 && s.current < s.next
    && (forall id :: id in s.armed ==> 0 < id < s.next)
    && (forall id :: id in s.fired ==> 0 < id < s.next)
    && s.armed <= {s.current} && s.armed !! s.fired
    && (s.sending ==> Pending(s))
    && (!s.closed && s.cache != map[] ==> Pending(s))
    && (s.flusher.Picked? || s.flusher.Sent? ==> KeyOf(s.flusher.msg) == s.flusher.key)
    && (s.flusher.Idle? || s.flusher.Finishing? || s.flusher.must <= s.cache.Keys)
    && s.cancels == (if s.closed then 1 else 0)
    && s.monitorCloses == (if s.closed && s.monitor then 1 else 0)
    && s.removals == (if s.closed then 1 else 0)
    && s.inHub == !s.closed
  }

  /** Kept by the locked steps alone. */
  predicate LockedInv(s: State) {
    Inv(s) && s.flusher.Idle? && (!s.closed && s.cache != map[] ==> s.sending)
  }

  lemma MergedHeaded(cache: map<seq<byte>, Message>, m: Message)
    requires Headed(cache)
    ensures Headed(Merged(cache, m))
  {
    if KeyOf(m) in cache {
      var had := cache[KeyOf(m)];
      assert KeyOf(had + Body(m)) == KeyOf(had);
    }
  }

  lemma WriteKeepsInv(s: State, m: Message)
    requires Inv(s)
    ensures Inv(Apply(s, Write(m)))
    ensures LockedInv(s) ==> LockedInv(Apply(s, Write(m)))
  {
    MergedHeaded(s.cache, m);
  }

  lemma LoopStepKeepsInv(s: State, step: Step)
    requires Inv(s) && Enabled(s, step) && IsLoop(step)
    ensures Inv(Apply(s, step))
  {
  }

  lemma LockedStepKeepsInv(s: State, step: Step)
    requires Inv(s) && Enabled(s, step) && !IsLoop(step)
    ensures Inv(Apply(s, step))
    ensures LockedInv(s) ==> LockedInv(Apply(s, step))
  {
    if step.Write? { WriteKeepsInv(s, step.m); }
  }

  lemma StepKeepsInv(s: State, step: Step)
    requires Inv(s) && Enabled(s, step)
    ensures Inv(Apply(s, step))
    ensures LockedInv(s) && !IsLoop(step) ==> LockedInv(Apply(s, step))
  {
    if IsLoop(step) { LoopStepKeepsInv(s, step); } else { LockedStepKeepsInv(s, step); }
  }

  lemma {:induction false} RunKeepsInv(s: State, run: seq<Step>)
    requires Inv(s) && IsRun(s, run)
    ensures Inv(After(s, run))
    ensures LockedInv(s) && Locked(run) ==> LockedInv(After(s, run))
    decreases |run|
  {
    if run != [] {
      StepKeepsInv(s, run[0]);
      RunKeepsInv(Apply(s, run[0]), run[1..]);
    }
  }

  // ---------- Conservation ----------

  lemma {:induction false} EntriesStream(cache: map<seq<byte>, Message>, order: seq<seq<byte>>, key: seq<byte>)
    requires IsOrder(cache, order) && Headed(cache)
    ensures Stream(key, Entries(cache, order)) == if key in cache then Body(cache[key]) else []
    decreases |order|
  {
    if order != [] {
      EntriesStream(cache - {order[0]}, order[1..], key);
      assert Entries(cache, order)[1..] == Entries(cache - {order[0]}, order[1..]);
    }
  }

  lemma WriteConserves(s: State, m: Message, key: seq<byte>)
    ensures Cached(Apply(s, Write(m)), key) == Cached(s, key) + Stream(key, [m])
  {
  }

  lemma Zero(x: seq<byte>)
    ensures [] + x == x
  {
  }

  /** The step empties the cache onto the channel. */
  predicate Empties(s: State, step: Step) { !s.closed && (step.Flush? || step.Callback?) }

  /** What one locked step does to one key. */
  lemma StepOnKey(s: State, step: Step, key: seq<byte>)
    requires Headed(s.cache) && Enabled(s, step) && !IsLoop(step)
    ensures Empties(s, step) ==> Stream(key, Writes(step)) == []
    ensures Stream(key, Flushes(s, step)) == if Empties(s, step) then Cached(s, key) else []
    ensures Cached(Apply(s, step), key) == if Empties(s, step) then [] else Cached(s, key) + Stream(key, Writes(step))
  {
    if step.Write? {
      WriteConserves(s, step.m, key);
    } else if step.Flush? || step.Callback? {
      EntriesStream(s.cache, step.order, key);
    }
  }

  /** One locked step: what it flushes plus what it leaves cached is what was cached plus what it was given. */
  lemma StepConserves(s: State, step: Step, key: seq<byte>)
    requires Headed(s.cache) && Enabled(s, step) && !IsLoop(step)
    ensures Stream(key, Flushes(s, step)) + Cached(Apply(s, step), key) == Cached(s, key) + Stream(key, Writes(step))
  {
    StepOnKey(s, step, key);
    if !Empties(s, step) { Zero(Cached(s, key) + Stream(key, Writes(step))); }
  }

  /** Two balances in a row make one. */
  lemma Telescope(f1: seq<byte>, f2: seq<byte>, c0: seq<byte>, c1: seq<byte>, c2: seq<byte>, w1: seq<byte>, w2: seq<byte>)
    requires f1 + c1 == c0 + w1 && f2 + c2 == c1 + w2
    ensures (f1 + f2) + c2 == c0 + (w1 + w2)
  {
    calc {
      (f1 + f2) + c2;
      f1 + (f2 + c2);
      f1 + (c1 + w2);
      (f1 + c1) + w2;
      (c0 + w1) + w2;
      c0 + (w1 + w2);
    }
  }

  /** No loss and no duplication, for every key, over every interleaving of the locked operations. */
  lemma {:induction false} Conservation(s: State, run: seq<Step>, key: seq<byte>)
    requires Inv(s) && IsRun(s, run) && Locked(run)
    ensures Stream(key, AllFlushes(s, run)) + Cached(After(s, run), key) == Cached(s, key) + Stream(key, AllWrites(run))
    decreases |run|
  {
    if run != [] {
      var t := Apply(s, run[0]);
      StepKeepsInv(s, run[0]);
      StepConserves(s, run[0], key);
      Conservation(t, run[1..], key);
      StreamAppend(key, Flushes(s, run[0]), AllFlushes(t, run[1..]));
      StreamAppend(key, Writes(run[0]), AllWrites(run[1..]));
      Telescope(Stream(key, Flushes(s, run[0])), Stream(key, AllFlushes(t, run[1..])),
                Cached(s, key), Cached(t, key), Cached(After(s, run), key),
                Stream(key, Writes(run[0])), Stream(key, AllWrites(run[1..])));
    }
  }

  /** From a new connection: delivered bytes, then cached bytes, are exactly the written bytes. */
  lemma NothingLostNothingTwice(monitor: bool, run: seq<Step>, key: seq<byte>)
    requires IsRun(Init(monitor), run) && Locked(run)
    ensures Stream(key, AllFlushes(Init(monitor), run)) + Cached(After(Init(monitor), run), key)
         == Stream(key, AllWrites(run))
  {
    Conservation(Init(monitor), run, key);
  }

  // ---------- The unlocked flush ----------

  /** One key in a stretch of steps: whether the cache was emptied onto the channel, and what was written under the
      key before and after the last time it was. Without such a step everything counts as after. */
  datatype Window = Window(emptied: bool, before: seq<byte>, after: seq<byte>)

  const NOTHING: Window := Window(false, [], [])

  function Grow(w: Window, emptied: bool, written: seq<byte>): Window {
    if emptied then Window(true, w.before + w.after, []) else w.(after := w.after + written)
  }

  /** The window with one more step. */
  function Grown(w: Window, s: State, step: Step, key: seq<byte>): Window {
    Grow(w, Empties(s, step), Stream(key, Writes(step)))
  }

  function WindowFrom(w: Window, s: State, run: seq<Step>, key: seq<byte>): Window
    requires IsRun(s, run)
    decreases |run|
  {
    if run == [] then w else WindowFrom(Grown(w, s, run[0], key), Apply(s, run[0]), run[1..], key)
  }

  function WindowOf(s: State, run: seq<Step>, key: seq<byte>): Window
    requires IsRun(s, run)
  {
    WindowFrom(NOTHING, s, run, key)
  }

  /** What locked steps deliver of a key, and what they leave cached, given what was cached. */
  function Delivers(w: Window, cached: seq<byte>): seq<byte> { if w.emptied then cached + w.before else [] }
  function Leaves(w: Window, cached: seq<byte>): seq<byte> { if w.emptied then w.after else cached + w.after }

  predicate Sound(w: Window) { !w.emptied ==> w.before == [] }

  lemma LeavesNothing(v: seq<byte>)
    ensures Leaves(NOTHING, v) == v
  {
  }

  /** Growing a window, on byte strings: `v` was cached at its start. */
  lemma GrowOnBytes(w: Window, emptied: bool, written: seq<byte>, v: seq<byte>)
    requires Sound(w) && (emptied ==> written == [])
    ensures var w' := Grow(w, emptied, written);
      && Sound(w') && Leaves(w', v) == (if emptied then [] else Leaves(w, v) + written)
      && Delivers(w', v) == Delivers(w, v) + (if emptied then Leaves(w, v) else [])
      && w'.before + w'.after == (w.before + w.after) + written
  {
    var w' := Grow(w, emptied, written);
    if emptied {
      assert v + (w.before + w.after) == (v + w.before) + w.after;
    } else {
      assert w.before + (w.after + written) == (w.before + w.after) + written;
      assert v + (w.after + written) == (v + w.after) + written;
    }
  }

  /** One locked step, told by the window. */
  lemma StepGrows(w: Window, s: State, step: Step, key: seq<byte>, v: seq<byte>)
    requires Headed(s.cache) && Enabled(s, step) && !IsLoop(step) && Sound(w) && Cached(s, key) == Leaves(w, v)
    ensures
      var w' := Grown(w, s, step, key);
      && Sound(w') && Cached(Apply(s, step), key) == Leaves(w', v)
      && Delivers(w, v) + Stream(key, Flushes(s, step)) == Delivers(w', v)
      && (w.before + w.after) + Stream(key, Writes(step)) == w'.before + w'.after
  {
    StepOnKey(s, step, key);
    GrowOnBytes(w, Empties(s, step), Stream(key, Writes(step)), v);
  }

  lemma Extend(a: seq<byte>, x: seq<byte>, b: seq<byte>, y: seq<byte>, c: seq<byte>)
    requires a + x == b && b + y == c
    ensures a + (x + y) == c
  {
    assert a + (x + y) == (a + x) + y;
  }

  lemma {:induction false} RunGrows(w: Window, s: State, run: seq<Step>, key: seq<byte>, v: seq<byte>)
    requires Inv(s) && IsRun(s, run) && Locked(run) && Sound(w) && Cached(s, key) == Leaves(w, v)
    ensures
      var w' := WindowFrom(w, s, run, key);
      && Sound(w') && Cached(After(s, run), key) == Leaves(w', v)
      && Delivers(w, v) + Stream(key, AllFlushes(s, run)) == Delivers(w', v)
      && (w.before + w.after) + Stream(key, AllWrites(run)) == w'.before + w'.after
    decreases |run|
  {
    if run != [] {
      assert run[0] in run && !IsLoop(run[0]);
      var t := Apply(s, run[0]);
      StepKeepsInv(s, run[0]);
      StepGrows(w, s, run[0], key, v);
      var u := Grown(w, s, run[0], key);
      RunGrows(u, t, run[1..], key, v);
      var w' := WindowFrom(w, s, run, key);
      StreamAppend(key, Flushes(s, run[0]), AllFlushes(t, run[1..]));
      StreamAppend(key, Writes(run[0]), AllWrites(run[1..]));
      Extend(Delivers(w, v), Stream(key, Flushes(s, run[0])), Delivers(u, v), Stream(key, AllFlushes(t, run[1..])), Delivers(w', v));
      Extend(w.before + w.after, Stream(key, Writes(run[0])), u.before + u.after, Stream(key, AllWrites(run[1..])),
             w'.before + w'.after);
    }
  }

  /** Deliveries, cache and writes of a locked run, told by its window. */
  lemma FlushSplit(s: State, run: seq<Step>, key: seq<byte>)
    requires Inv(s) && IsRun(s, run) && Locked(run)
    ensures
      var w, v := WindowOf(s, run, key), Cached(s, key);
      && Sound(w) && Stream(key, AllFlushes(s, run)) == Delivers(w, v)
      && Cached(After(s, run), key) == Leaves(w, v)
      && Stream(key, AllWrites(run)) == w.before + w.after
  {
    LeavesNothing(Cached(s, key));
    RunGrows(NOTHING, s, run, key, Cached(s, key));
    Zero(Stream(key, AllFlushes(s, run)));
    Zero(Stream(key, AllWrites(run)));
    Zero([]);
  }

  lemma StepKeepsFlusher(s: State, step: Step)
    requires Enabled(s, step) && !IsLoop(step)
    ensures var f := Apply(s, step).flusher; f == s.flusher || f == Reached(s.flusher)
  {
  }

  lemma {:induction false} LockedKeepsFlusher(s: State, run: seq<Step>)
    requires IsRun(s, run) && Locked(run)
    ensures var f := After(s, run).flusher; f == s.flusher || f == Reached(s.flusher)
    decreases |run|
  {
    if run != [] {
      assert run[0] in run && !IsLoop(run[0]);
      LockedKeepsFlusher(Apply(s, run[0]), run[1..]);
    }
  }

  /** One turn of the unlocked loop: pick the entry, locked steps, send it, locked steps, delete what is there. */
  predicate IsTurn(s: State, key: seq<byte>, first: seq<Step>, second: seq<Step>) {
    && s.flusher.Looping? && key in s.cache
    && Locked(first) && IsRun(Apply(s, LoopPick(key)), first)
    && var p := After(Apply(s, LoopPick(key)), first);
    && p.flusher.Picked? && Locked(second) && IsRun(Apply(p, LoopSend), second)
  }

  /** Before the send, and before the delete. */
  function AtSend(s: State, key: seq<byte>, first: seq<Step>, second: seq<Step>): State
    requires IsTurn(s, key, first, second)
  {
    After(Apply(s, LoopPick(key)), first)
  }

  function AtDelete(s: State, key: seq<byte>, first: seq<Step>, second: seq<Step>): State
    requires IsTurn(s, key, first, second)
  {
    After(Apply(AtSend(s, key, first, second), LoopSend), second)
  }

  /** Delivered under `key` during the turn. */
  function TurnDelivers(s: State, key: seq<byte>, first: seq<Step>, second: seq<Step>): seq<byte>
    requires IsTurn(s, key, first, second)
  {
    var p := AtSend(s, key, first, second);
    Stream(key, AllFlushes(Apply(s, LoopPick(key)), first)) + Stream(key, Flushes(p, LoopSend)) +
    Stream(key, AllFlushes(Apply(p, LoopSend), second))
  }

  /** Whether a turn keeps the balance of its key, read off what was cached at the pick and the steps before and after
      the send. With neither window emptied: nothing was written. */
  predicate Balances(cached: seq<byte>, first: Window, second: Window) {
    if second.emptied then cached + (first.after + second.before) == (first.after + second.before) + second.after
    else if first.emptied then cached == first.after + second.after
    else first.after + second.after == []
  }

  lemma Cancel(front: seq<byte>, p: seq<byte>, q: seq<byte>)
    ensures front + p == front + q <==> p == q
  {
    assert (front + p)[|front|..] == p && (front + q)[|front|..] == q;
  }

  /** What a turn with these windows delivers against what it owed and was given. */
  lemma BalanceOnBytes(v: seq<byte>, w1: Window, w2: Window)
    requires Sound(w1) && Sound(w2)
    ensures Delivers(w1, v) + v + Delivers(w2, Leaves(w1, v)) == v + ((w1.before + w1.after) + (w2.before + w2.after))
       <==> Balances(v, w1, w2)
  {
    var b, x, y := w1.before, w1.after, w2.before;
    if w2.emptied {
      if w1.emptied { GotTwice(v, b, x, y); } else { GotLate(v, x, y); }
      DueTwice(v, b, x, y, w2.after);
      Cancel(v + b, v + (x + y), (x + y) + w2.after);
    } else {
      DueOnce(v, b, x, w2.after);
      assert (v + b) + v + [] == (v + b) + v && [] + v + [] == v + [];
      Cancel(v + b, if w1.emptied then v else [], x + w2.after);
      assert !w1.emptied ==> v + b == v;
    }
  }

  lemma GotTwice(v: seq<byte>, b: seq<byte>, x: seq<byte>, y: seq<byte>)
    ensures (v + b) + v + (x + y) == (v + b) + (v + (x + y))
  {
  }

  lemma GotLate(v: seq<byte>, x: seq<byte>, y: seq<byte>)
    ensures [] + v + ((v + x) + y) == (v + []) + (v + (x + y))
  {
  }

  lemma DueTwice(v: seq<byte>, b: seq<byte>, x: seq<byte>, y: seq<byte>, z: seq<byte>)
    ensures v + ((b + x) + (y + z)) == (v + b) + ((x + y) + z)
  {
  }

  lemma DueOnce(v: seq<byte>, b: seq<byte>, x: seq<byte>, z: seq<byte>)
    ensures v + ((b + x) + ([] + z)) == (v + b) + (x + z)
  {
  }

  /** The state after a window of locked steps inside a turn. */
  lemma WindowKeepsTurn(s: State, run: seq<Step>, key: seq<byte>)
    requires Inv(s) && IsRun(s, run) && Locked(run) && Active(s.flusher, key)
    ensures
      var t := After(s, run);
      Inv(t) && Active(t.flusher, key) && t.flusher.msg == s.flusher.msg && (t.flusher.Sent? <==> s.flusher.Sent?)
  {
    RunKeepsInv(s, run);
    LockedKeepsFlusher(s, run);
  }

  lemma TurnStates(s: State, key: seq<byte>, first: seq<Step>, second: seq<Step>)
    requires Inv(s) && IsTurn(s, key, first, second)
    ensures
      var p, u := AtSend(s, key, first, second), AtDelete(s, key, first, second);
      && Inv(Apply(s, LoopPick(key))) && Inv(p) && Inv(Apply(p, LoopSend)) && Inv(u)
      && Stream(key, Flushes(p, LoopSend)) == Cached(s, key)
      && Enabled(u, LoopDelete) && Cached(Apply(u, LoopDelete), key) == []
  {
    var t, p := Apply(s, LoopPick(key)), AtSend(s, key, first, second);
    StepKeepsInv(s, LoopPick(key));
    WindowKeepsTurn(t, first, key);
    StepKeepsInv(p, LoopSend);
    WindowKeepsTurn(Apply(p, LoopSend), second, key);
    assert Stream(key, [s.cache[key]]) == Cached(s, key);
  }

  /** What a turn delivers and is given, told by its two windows. */
  lemma TurnParts(s: State, key: seq<byte>, first: seq<Step>, second: seq<Step>)
    requires Inv(s) && IsTurn(s, key, first, second)
    ensures
      var p, u := AtSend(s, key, first, second), AtDelete(s, key, first, second);
      var w1, w2 := WindowOf(Apply(s, LoopPick(key)), first, key), WindowOf(Apply(p, LoopSend), second, key);
      && Enabled(u, LoopDelete) && Cached(Apply(u, LoopDelete), key) == [] && Sound(w1) && Sound(w2)
      && TurnDelivers(s, key, first, second)
           == Delivers(w1, Cached(s, key)) + Cached(s, key) + Delivers(w2, Leaves(w1, Cached(s, key)))
      && Stream(key, AllWrites(first) + AllWrites(second)) == (w1.before + w1.after) + (w2.before + w2.after)
  {
    var p := AtSend(s, key, first, second);
    TurnStates(s, key, first, second);
    FlushSplit(Apply(s, LoopPick(key)), first, key);
    FlushSplit(Apply(p, LoopSend), second, key);
    StreamAppend(key, AllWrites(first), AllWrites(second));
  }

  /** Exactly when a turn of the unlocked loop neither loses nor repeats bytes of its key. */
  lemma TurnConservesIff(s: State, key: seq<byte>, first: seq<Step>, second: seq<Step>)
    requires Inv(s) && IsTurn(s, key, first, second)
    ensures
      var p, u := AtSend(s, key, first, second), AtDelete(s, key, first, second);
      && Enabled(u, LoopDelete)
      && (TurnDelivers(s, key, first, second) + Cached(Apply(u, LoopDelete), key)
            == Cached(s, key) + Stream(key, AllWrites(first) + AllWrites(second))
         <==> Balances(Cached(s, key), WindowOf(Apply(s, LoopPick(key)), first, key), WindowOf(Apply(p, LoopSend), second, key)))
  {
    var p, v := AtSend(s, key, first, second), Cached(s, key);
    TurnParts(s, key, first, second);
    BalanceOnBytes(v, WindowOf(Apply(s, LoopPick(key)), first, key), WindowOf(Apply(p, LoopSend), second, key));
    var got := TurnDelivers(s, key, first, second);
    assert got + [] == got;
  }

  // ---------- Every turn of a key, in any run ----------

  /** The turn the loop is in: what was cached at its pick, and the steps before and after the send. */
  datatype Turn = Turn(had: seq<byte>, first: Window, second: Window)

  const NO_TURN: Turn := Turn([], NOTHING, NOTHING)

  /** The turn with one more locked step, before or after the send. */
  function GrowTurn(turn: Turn, sent: bool, emptied: bool, written: seq<byte>): Turn {
    if sent then turn.(second := Grow(turn.second, emptied, written)) else turn.(first := Grow(turn.first, emptied, written))
  }

  function Tracked(turn: Turn, s: State, step: Step, key: seq<byte>): Turn {
    if step == LoopPick(key) then Turn(Cached(s, key), NOTHING, NOTHING)
    else if IsLoop(step) || !Active(s.flusher, key) then turn
    else GrowTurn(turn, s.flusher.Sent?, Empties(s, step), Stream(key, Writes(step)))
  }

  /** Every turn of `key` that is completed in the run balances. */
  predicate TurnsBalance(turn: Turn, s: State, run: seq<Step>, key: seq<byte>)
    requires IsRun(s, run)
    decreases |run|
  {
    run == [] ||
    ((run[0].LoopDelete? && Active(s.flusher, key) ==> Balances(turn.had, turn.first, turn.second)) &&
     TurnsBalance(Tracked(turn, s, run[0], key), Apply(s, run[0]), run[1..], key))
  }

  /** Delivered since the pick, due since the pick, and cached now. */
  function TurnGot(turn: Turn, sent: bool): seq<byte> {
    Delivers(turn.first, turn.had) + (if sent then turn.had + Delivers(turn.second, Leaves(turn.first, turn.had)) else [])
  }

  function TurnDue(turn: Turn): seq<byte> {
    turn.had + ((turn.first.before + turn.first.after) + (turn.second.before + turn.second.after))
  }

  function TurnLeft(turn: Turn): seq<byte> { Leaves(turn.second, Leaves(turn.first, turn.had)) }

  predicate SoundTurn(turn: Turn, sent: bool) { Sound(turn.first) && Sound(turn.second) && (!sent ==> turn.second == NOTHING) }

  /** Off turn nothing has been delivered and the cache is due. */
  function Got(turn: Turn, s: State, key: seq<byte>): seq<byte> {
    if Active(s.flusher, key) then TurnGot(turn, s.flusher.Sent?) else []
  }

  function Due(turn: Turn, s: State, key: seq<byte>): seq<byte> {
    if Active(s.flusher, key) then TurnDue(turn) else Cached(s, key)
  }

  predicate InStep(turn: Turn, s: State, key: seq<byte>) {
    Active(s.flusher, key) ==>
      SoundTurn(turn, s.flusher.Sent?) && Body(s.flusher.msg) == turn.had && Cached(s, key) == TurnLeft(turn)
  }

  /** One step settles `out` of both accounts and leaves the rest open. */
  predicate Settles(turn: Turn, s: State, step: Step, key: seq<byte>, out: seq<byte>)
    requires Enabled(s, step)
  {
    var t, turn' := Apply(s, step), Tracked(turn, s, step, key);
    && InStep(turn', t, key)
    && Got(turn, s, key) + Stream(key, Flushes(s, step)) == out + Got(turn', t, key)
    && Due(turn, s, key) + Stream(key, Writes(step)) == out + Due(turn', t, key)
  }

  /** A locked step in a turn, on byte strings. */
  lemma TurnOnBytes(turn: Turn, sent: bool, emptied: bool, x: seq<byte>)
    requires SoundTurn(turn, sent) && (emptied ==> x == [])
    ensures var turn' := GrowTurn(turn, sent, emptied, x);
      && SoundTurn(turn', sent) && TurnLeft(turn') == (if emptied then [] else TurnLeft(turn) + x)
      && TurnGot(turn', sent) == TurnGot(turn, sent) + (if emptied then TurnLeft(turn) else [])
      && TurnDue(turn') == TurnDue(turn) + x
  {
    if sent { SecondOnBytes(turn, emptied, x); } else { FirstOnBytes(turn, emptied, x); }
  }

  lemma FirstOnBytes(turn: Turn, emptied: bool, x: seq<byte>)
    requires SoundTurn(turn, false) && (emptied ==> x == [])
    ensures var turn' := GrowTurn(turn, false, emptied, x);
      && SoundTurn(turn', false) && TurnLeft(turn') == (if emptied then [] else TurnLeft(turn) + x)
      && TurnGot(turn', false) == TurnGot(turn, false) + (if emptied then TurnLeft(turn) else [])
      && TurnDue(turn') == TurnDue(turn) + x
  {
    var v, a := turn.had, turn.first.before + turn.first.after;
    GrowOnBytes(turn.first, emptied, x, v);
    LeavesNothing(Leaves(turn.first, v));
    LeavesNothing(Leaves(Grow(turn.first, emptied, x), v));
    assert v + ((a + x) + ([] + [])) == (v + (a + ([] + []))) + x;
    var e, f := Delivers(turn.first, v), if emptied then Leaves(turn.first, v) else [];
    assert (e + f) + [] == (e + []) + f;
  }

  lemma SecondOnBytes(turn: Turn, emptied: bool, x: seq<byte>)
    requires SoundTurn(turn, true) && (emptied ==> x == [])
    ensures var turn' := GrowTurn(turn, true, emptied, x);
      && SoundTurn(turn', true) && TurnLeft(turn') == (if emptied then [] else TurnLeft(turn) + x)
      && TurnGot(turn', true) == TurnGot(turn, true) + (if emptied then TurnLeft(turn) else [])
      && TurnDue(turn') == TurnDue(turn) + x
  {
    var v, a, b := turn.had, turn.first.before + turn.first.after, turn.second.before + turn.second.after;
    var w := Leaves(turn.first, v);
    GrowOnBytes(turn.second, emptied, x, w);
    assert v + (a + (b + x)) == (v + (a + b)) + x;
    Regroup(Delivers(turn.first, v), v, Delivers(turn.second, w), if emptied then Leaves(turn.second, w) else []);
  }

  lemma Regroup(a: seq<byte>, b: seq<byte>, c: seq<byte>, d: seq<byte>)
    ensures a + (b + (c + d)) == (a + (b + c)) + d
  {
  }

  /** What a locked step adds to the turn it falls into. */
  lemma LockedInTurn(turn: Turn, s: State, step: Step, key: seq<byte>)
    requires Headed(s.cache) && Enabled(s, step) && !IsLoop(step) && Active(s.flusher, key)
    requires SoundTurn(turn, s.flusher.Sent?) && Cached(s, key) == TurnLeft(turn)
    ensures
      var turn' := Tracked(turn, s, step, key);
      && SoundTurn(turn', s.flusher.Sent?) && turn'.had == turn.had && Cached(Apply(s, step), key) == TurnLeft(turn')
      && TurnGot(turn, s.flusher.Sent?) + Stream(key, Flushes(s, step)) == TurnGot(turn', s.flusher.Sent?)
      && TurnDue(turn) + Stream(key, Writes(step)) == TurnDue(turn')
  {
    StepOnKey(s, step, key);
    TurnByStep(turn, s.flusher.Sent?, Empties(s, step), Stream(key, Writes(step)), Cached(s, key), Stream(key, Flushes(s, step)),
               Cached(Apply(s, step), key));
  }

  lemma TurnGoesOn(s: State, step: Step, key: seq<byte>)
    requires Enabled(s, step) && !IsLoop(step) && Active(s.flusher, key)
    ensures var f := Apply(s, step).flusher;
      Active(f, key) && f.Sent? == s.flusher.Sent? && f.msg == s.flusher.msg
  {
  }

  lemma TurnByStep(turn: Turn, sent: bool, emptied: bool, x: seq<byte>, c: seq<byte>, f: seq<byte>, c': seq<byte>)
    requires SoundTurn(turn, sent) && (emptied ==> x == []) && c == TurnLeft(turn)
    requires f == (if emptied then c else []) && c' == if emptied then [] else c + x
    ensures var turn' := GrowTurn(turn, sent, emptied, x);
      && SoundTurn(turn', sent) && turn'.had == turn.had && c' == TurnLeft(turn')
      && TurnGot(turn, sent) + f == TurnGot(turn', sent) && TurnDue(turn) + x == TurnDue(turn')
  {
    TurnOnBytes(turn, sent, emptied, x);
  }

  /** The accounts before and after a step, as plain byte strings. */
  lemma SettlesByParts(turn: Turn, s: State, step: Step, key: seq<byte>, out: seq<byte>,
                       got: seq<byte>, due: seq<byte>, got': seq<byte>, due': seq<byte>)
    requires Enabled(s, step) && InStep(Tracked(turn, s, step, key), Apply(s, step), key)
    requires Got(turn, s, key) == got && Due(turn, s, key) == due
    requires Got(Tracked(turn, s, step, key), Apply(s, step), key) == got'
    requires Due(Tracked(turn, s, step, key), Apply(s, step), key) == due'
    requires got + Stream(key, Flushes(s, step)) == out + got' && due + Stream(key, Writes(step)) == out + due'
    ensures Settles(turn, s, step, key, out)
  {
  }

  lemma LockedAccounts(turn: Turn, s: State, step: Step, key: seq<byte>)
    requires Headed(s.cache) && Enabled(s, step) && !IsLoop(step) && InStep(turn, s, key) && Active(s.flusher, key)
    ensures
      var t, turn', sent := Apply(s, step), Tracked(turn, s, step, key), s.flusher.Sent?;
      && InStep(turn', t, key)
      && Got(turn, s, key) == TurnGot(turn, sent) && Got(turn', t, key) == TurnGot(turn', sent)
      && Due(turn, s, key) == TurnDue(turn) && Due(turn', t, key) == TurnDue(turn')
  {
    TurnGoesOn(s, step, key);
    LockedInTurn(turn, s, step, key);
  }

  lemma LockedSettles(turn: Turn, s: State, step: Step, key: seq<byte>)
    requires Headed(s.cache) && Enabled(s, step) && !IsLoop(step) && InStep(turn, s, key) && Active(s.flusher, key)
    ensures Settles(turn, s, step, key, [])
  {
    var turn', sent := Tracked(turn, s, step, key), s.flusher.Sent?;
    LockedAccounts(turn, s, step, key);
    LockedInTurn(turn, s, step, key);
    Zero(TurnGot(turn', sent));
    Zero(TurnDue(turn'));
    SettlesByParts(turn, s, step, key, [], TurnGot(turn, sent), TurnDue(turn), TurnGot(turn', sent), TurnDue(turn'));
  }

  lemma OffTurnSettles(turn: Turn, s: State, step: Step, key: seq<byte>)
    requires Inv(s) && Enabled(s, step) && !Active(s.flusher, key) && step != LoopPick(key)
    ensures Settles(turn, s, step, key, Stream(key, Flushes(s, step)))
  {
    OffTurnBalance(s, step, key);
    var f := Stream(key, Flushes(s, step));
    assert [] + f == f + [];
    SettlesByParts(turn, s, step, key, f, [], Cached(s, key), [], Cached(Apply(s, step), key));
  }

  lemma OffTurnBalance(s: State, step: Step, key: seq<byte>)
    requires Inv(s) && Enabled(s, step) && !Active(s.flusher, key) && step != LoopPick(key)
    ensures !Active(Apply(s, step).flusher, key)
    ensures Stream(key, Flushes(s, step)) + Cached(Apply(s, step), key) == Cached(s, key) + Stream(key, Writes(step))
  {
    if IsLoop(step) { LoopStepConserves(s, step, key); } else { StepOffTurn(s, step, key); }
  }

  lemma FreshTurn(v: seq<byte>)
    ensures var turn := Turn(v, NOTHING, NOTHING);
      TurnGot(turn, false) == [] && TurnDue(turn) == v && TurnLeft(turn) == v
  {
  }

  lemma PickSettles(turn: Turn, s: State, key: seq<byte>)
    requires Inv(s) && Enabled(s, LoopPick(key))
    ensures Settles(turn, s, LoopPick(key), key, [])
  {
    FreshTurn(Cached(s, key));
  }

  lemma SentTurn(turn: Turn)
    requires turn.second == NOTHING
    ensures TurnGot(turn, false) + turn.had == [] + TurnGot(turn, true)
  {
  }

  lemma SendSettles(turn: Turn, s: State, key: seq<byte>)
    requires Inv(s) && Enabled(s, LoopSend) && InStep(turn, s, key) && Active(s.flusher, key)
    ensures Settles(turn, s, LoopSend, key, [])
  {
    SentTurn(turn);
    assert Stream(key, [s.flusher.msg]) == turn.had;
    assert TurnDue(turn) + [] == [] + TurnDue(turn);
  }

  lemma DeleteSettles(turn: Turn, s: State, key: seq<byte>)
    requires Inv(s) && Enabled(s, LoopDelete) && InStep(turn, s, key) && Active(s.flusher, key)
    requires Balances(turn.had, turn.first, turn.second)
    ensures Settles(turn, s, LoopDelete, key, Got(turn, s, key))
  {
    BalancedTurn(turn);
    assert TurnDue(turn) + [] == TurnDue(turn) && TurnGot(turn, true) + [] == TurnGot(turn, true);
  }

  lemma BalancedTurn(turn: Turn)
    requires SoundTurn(turn, true) && Balances(turn.had, turn.first, turn.second)
    ensures TurnGot(turn, true) == TurnDue(turn)
  {
    BalanceOnBytes(turn.had, turn.first, turn.second);
    var d, v, e := Delivers(turn.first, turn.had), turn.had, Delivers(turn.second, Leaves(turn.first, turn.had));
    assert d + (v + e) == d + v + e;
  }

  lemma StepSettles(turn: Turn, s: State, step: Step, key: seq<byte>) returns (out: seq<byte>)
    requires Inv(s) && Enabled(s, step) && InStep(turn, s, key)
    requires step.LoopDelete? && Active(s.flusher, key) ==> Balances(turn.had, turn.first, turn.second)
    ensures Settles(turn, s, step, key, out)
  {
    out := [];
    if step == LoopPick(key) {
      PickSettles(turn, s, key);
    } else if !Active(s.flusher, key) {
      out := Stream(key, Flushes(s, step));
      OffTurnSettles(turn, s, step, key);
    } else if !IsLoop(step) {
      LockedSettles(turn, s, step, key);
    } else if step.LoopSend? {
      SendSettles(turn, s, key);
    } else {
      out := Got(turn, s, key);
      DeleteSettles(turn, s, key);
    }
  }

  lemma SettledThenRest(got: seq<byte>, f: seq<byte>, due: seq<byte>, w: seq<byte>, out: seq<byte>,
                        got': seq<byte>, fs: seq<byte>, c: seq<byte>, due': seq<byte>, ws: seq<byte>)
    requires got + f == out + got' && due + w == out + due' && got' + fs + c == due' + ws
    ensures got + (f + fs) + c == due + (w + ws)
  {
    calc {
      got + (f + fs) + c;
      (got + f) + fs + c;
      (out + got') + fs + c;
      out + (got' + fs + c);
      out + (due' + ws);
      (out + due') + ws;
      (due + w) + ws;
      due + (w + ws);
    }
  }

  lemma {:induction false} RunSettles(turn: Turn, s: State, run: seq<Step>, key: seq<byte>)
    requires Inv(s) && IsRun(s, run) && InStep(turn, s, key) && TurnsBalance(turn, s, run, key)
    requires !Active(After(s, run).flusher, key)
    ensures Got(turn, s, key) + Stream(key, AllFlushes(s, run)) + Cached(After(s, run), key)
         == Due(turn, s, key) + Stream(key, AllWrites(run))
    decreases |run|
  {
    if run != [] {
      var t, turn' := Apply(s, run[0]), Tracked(turn, s, run[0], key);
      StepKeepsInv(s, run[0]);
      var out := StepSettles(turn, s, run[0], key);
      RunSettles(turn', t, run[1..], key);
      StreamAppend(key, Flushes(s, run[0]), AllFlushes(t, run[1..]));
      StreamAppend(key, Writes(run[0]), AllWrites(run[1..]));
      SettledThenRest(Got(turn, s, key), Stream(key, Flushes(s, run[0])), Due(turn, s, key), Stream(key, Writes(run[0])), out,
                      Got(turn', t, key), Stream(key, AllFlushes(t, run[1..])), Cached(After(s, run), key),
                      Due(turn', t, key), Stream(key, AllWrites(run[1..])));
    }
  }

  /** Any key, any interleaving with the unlocked flush, written during its turns or not: if every turn of the key
      balances, nothing is lost and nothing repeated. */
  lemma BalancedTurnsConserve(monitor: bool, run: seq<Step>, key: seq<byte>)
    requires IsRun(Init(monitor), run) && TurnsBalance(NO_TURN, Init(monitor), run, key)
    requires !Active(After(Init(monitor), run).flusher, key)
    ensures Stream(key, AllFlushes(Init(monitor), run)) + Cached(After(Init(monitor), run), key)
         == Stream(key, AllWrites(run))
  {
    RunSettles(NO_TURN, Init(monitor), run, key);
    var got, given := Stream(key, AllFlushes(Init(monitor), run)), Stream(key, AllWrites(run));
    assert [] + got == got && [] + given == given;
  }

  /** A write that lands between send and delete is lost, all of it. */
  lemma WriteInWindowIsLost(s: State, m: Message)
    requires Inv(s) && s.flusher.Sent? && s.flusher.key == KeyOf(m)
    ensures var u := Apply(s, Write(m));
      && Cached(u, KeyOf(m)) == Cached(s, KeyOf(m)) + Body(m)
      && Cached(Apply(u, LoopDelete), KeyOf(m)) == [] && Flushes(s, Write(m)) + Flushes(u, LoopDelete) == []
  {
    WriteConserves(s, m, KeyOf(m));
    assert Stream(KeyOf(m), [m]) == Body(m);
  }

  /** A locked flush between pick and delete delivers the picked bytes besides the loop's own send. */
  lemma FlushInWindowRepeats(s: State, order: seq<seq<byte>>)
    requires Inv(s) && !s.closed && IsOrder(s.cache, order)
    requires s.flusher.Picked? && s.flusher.key in s.cache && s.cache[s.flusher.key] == s.flusher.msg
    ensures
      var t := Apply(s, Flush(order));
      Enabled(t, LoopSend) && Stream(s.flusher.key, Flushes(s, Flush(order))) == Stream(s.flusher.key, Flushes(t, LoopSend))
  {
    EntriesStream(s.cache, order, s.flusher.key);
  }

  /** The sub-steps of an unlocked flush that ranges over the map in this order. */
  function LoopBody(order: seq<seq<byte>>): seq<Step> {
    if order == [] then [LoopEnd] else [LoopPick(order[0])] + ([LoopSend] + ([LoopDelete] + LoopBody(order[1..])))
  }

  lemma {:induction false} LoopBodyRuns(s: State, order: seq<seq<byte>>)
    requires IsOrder(s.cache, order)
    requires (s.flusher.Finishing? && order == []) || (s.flusher.Looping? && s.flusher.must <= s.cache.Keys)
    ensures IsRun(s, LoopBody(order))
    ensures After(s, LoopBody(order)) == s.(cache := map[], sending := false, flusher := Idle)
    ensures AllFlushes(s, LoopBody(order)) == Entries(s.cache, order)
    decreases |order|
  {
    if order == [] {
      RunCons(s, LoopEnd, []);
      assert [LoopEnd] + [] == LoopBody(order);
    } else {
      var t := Apply(s, LoopPick(order[0]));
      var u := Apply(t, LoopSend);
      var w := Apply(u, LoopDelete);
      LoopBodyRuns(w, order[1..]);
      RunCons(u, LoopDelete, LoopBody(order[1..]));
      RunCons(t, LoopSend, [LoopDelete] + LoopBody(order[1..]));
      RunCons(s, LoopPick(order[0]), [LoopSend] + ([LoopDelete] + LoopBody(order[1..])));
      assert [] + Entries(w.cache, order[1..]) == Entries(w.cache, order[1..]);
    }
  }

  /** Left alone, the unlocked flush is the locked one. */
  lemma UninterruptedLoopIsFlush(s: State, order: seq<seq<byte>>)
    requires s.flusher.Idle? && !s.closed && IsOrder(s.cache, order)
    ensures IsRun(s, [LoopStart] + LoopBody(order))
    ensures After(s, [LoopStart] + LoopBody(order)) == Apply(s, Flush(order))
    ensures AllFlushes(s, [LoopStart] + LoopBody(order)) == Flushes(s, Flush(order))
  {
    LoopBodyRuns(Apply(s, LoopStart), order);
    RunCons(s, LoopStart, LoopBody(order));
    assert [] + Entries(s.cache, order) == Entries(s.cache, order);
  }

  /** On a closed connection or an empty cache the unlocked flush only clears the flag, whatever is written meanwhile. */
  lemma GuardedStart(s: State, run: seq<Step>, step: Step)
    requires s.flusher.Idle? && (s.closed || s.cache == map[])
    requires Locked(run) && IsRun(Apply(s, LoopStart), run) && IsLoop(step) && Enabled(After(Apply(s, LoopStart), run), step)
    ensures step == LoopEnd
  {
    LockedKeepsFlusher(Apply(s, LoopStart), run);
  }

  /** An entry the range still has to produce. */
  predicate Unreached(s: State, key: seq<byte>) {
    && (s.flusher.Looping? || s.flusher.Picked? || s.flusher.Sent?) && key in s.flusher.must
    && key in s.cache && !Active(s.flusher, key)
  }

  predicate Spares(s: State, run: seq<Step>, key: seq<byte>)
    requires IsRun(s, run)
    decreases |run|
  {
    run == [] || (run[0] != LoopPick(key) && !Empties(s, run[0]) && Spares(Apply(s, run[0]), run[1..], key))
  }

  /** All entries are, when the range begins. */
  lemma AllUnreachedAtStart(s: State, key: seq<byte>)
    requires s.flusher.Idle? && !s.closed && key in s.cache
    ensures Unreached(Apply(s, LoopStart), key)
  {
  }

  /** Every entry that is there when the range begins is picked before the unlocked flush ends, unless a locked flush
      takes it first. */
  lemma {:induction false} EveryEntryIsReached(s: State, run: seq<Step>, key: seq<byte>)
    requires Unreached(s, key) && IsRun(s, run) && Spares(s, run, key)
    ensures LoopEnd !in run && Unreached(After(s, run), key)
    decreases |run|
  {
    if run != [] {
      assert run[0] != LoopEnd && Unreached(Apply(s, run[0]), key);
      EveryEntryIsReached(Apply(s, run[0]), run[1..], key);
      assert run == [run[0]] + run[1..];
    }
  }

  // ---------- Keys nobody writes while the loop is at them ----------

  predicate WritesInTurn(s: State, key: seq<byte>, step: Step) {
    Active(s.flusher, key) && step.Write? && KeyOf(step.m) == key && Body(step.m) != []
  }

  predicate FlushesInTurn(s: State, key: seq<byte>, step: Step) {
    Active(s.flusher, key) && Empties(s, step) && Cached(s, key) != []
  }

  /** Nothing is written under `key` while the loop is between pick and delete of that key. */
  predicate Unwritten(s: State, run: seq<Step>, key: seq<byte>)
    requires IsRun(s, run)
    decreases |run|
  {
    run == [] || (!WritesInTurn(s, key, run[0]) && Unwritten(Apply(s, run[0]), run[1..], key))
  }

  /** No locked flush finds bytes of `key` in the cache while the loop is between pick and delete of that key. */
  predicate Unflushed(s: State, run: seq<Step>, key: seq<byte>)
    requires IsRun(s, run)
    decreases |run|
  {
    run == [] || (!FlushesInTurn(s, key, run[0]) && Unflushed(Apply(s, run[0]), run[1..], key))
  }

  /** Bytes of `key` still owed to the client: of an entry the loop is at, those it picked until it has sent them. */
  function Owed(s: State, key: seq<byte>): seq<byte> {
    if !Active(s.flusher, key) then Cached(s, key)
    else if s.flusher.Picked? then Body(s.flusher.msg)
    else []
  }

  /** The entry the loop is at is unchanged or gone. */
  predicate EntryKept(s: State, key: seq<byte>) {
    Active(s.flusher, key) ==> Cached(s, key) == [] || Cached(s, key) == Body(s.flusher.msg)
  }

  lemma LoopStepConserves(s: State, step: Step, key: seq<byte>)
    requires (s.flusher.Picked? || s.flusher.Sent? ==> KeyOf(s.flusher.msg) == s.flusher.key) && Enabled(s, step) && EntryKept(s, key) && IsLoop(step)
    ensures EntryKept(Apply(s, step), key)
    ensures Stream(key, Flushes(s, step)) + Owed(Apply(s, step), key) == Owed(s, key) + Stream(key, Writes(step))
  {
  }

  /** A locked step away from the key's turn. */
  lemma StepOffTurn(s: State, step: Step, key: seq<byte>)
    requires Inv(s) && Enabled(s, step) && !IsLoop(step) && !Active(s.flusher, key)
    ensures !Active(Apply(s, step).flusher, key)
    ensures Stream(key, Flushes(s, step)) + Owed(Apply(s, step), key) == Owed(s, key) + Stream(key, Writes(step))
  {
    StepKeepsFlusher(s, step);
    StepConserves(s, step, key);
  }

  /** A locked step while the loop is at the key: a flush delivers the cached bytes once more. */
  lemma StepInTurn(s: State, step: Step, key: seq<byte>)
    requires Inv(s) && Enabled(s, step) && !IsLoop(step)
    requires EntryKept(s, key) && Active(s.flusher, key) && !WritesInTurn(s, key, step)
    ensures EntryKept(Apply(s, step), key) && Owed(Apply(s, step), key) == Owed(s, key)
    ensures Stream(key, Flushes(s, step)) == if Empties(s, step) then Cached(s, key) else []
    ensures Stream(key, Writes(step)) == []
  {
    StepKeepsFlusher(s, step);
    StepOnKey(s, step, key);
  }

  lemma UnwrittenStep(s: State, step: Step, key: seq<byte>)
    requires Inv(s) && Enabled(s, step) && EntryKept(s, key) && !WritesInTurn(s, key, step)
    ensures EntryKept(Apply(s, step), key)
    ensures
      var t := Apply(s, step);
      var flushed, given := Stream(key, Flushes(s, step)), Stream(key, Writes(step));
      if FlushesInTurn(s, key, step) then |flushed| + |Owed(t, key)| > |Owed(s, key)| + |given|
      else flushed + Owed(t, key) == Owed(s, key) + given
  {
    if IsLoop(step) {
      LoopStepConserves(s, step, key);
    } else if Active(s.flusher, key) {
      StepInTurn(s, step, key);
    } else {
      StepOffTurn(s, step, key);
    }
  }

  lemma {:induction false} UnwrittenRun(s: State, run: seq<Step>, key: seq<byte>)
    requires Inv(s) && IsRun(s, run) && EntryKept(s, key) && Unwritten(s, run, key)
    ensures
      var got, owed, given := Stream(key, AllFlushes(s, run)), Owed(After(s, run), key), Stream(key, AllWrites(run));
      if Unflushed(s, run, key) then got + owed == Owed(s, key) + given
      else |got| + |owed| > |Owed(s, key)| + |given|
    decreases |run|
  {
    if run != [] {
      var t := Apply(s, run[0]);
      StepKeepsInv(s, run[0]);
      UnwrittenStep(s, run[0], key);
      UnwrittenRun(t, run[1..], key);
      StreamAppend(key, Flushes(s, run[0]), AllFlushes(t, run[1..]));
      StreamAppend(key, Writes(run[0]), AllWrites(run[1..]));
      if Unflushed(s, run, key) {
        Telescope(Stream(key, Flushes(s, run[0])), Stream(key, AllFlushes(t, run[1..])),
                  Owed(s, key), Owed(t, key), Owed(After(s, run), key),
                  Stream(key, Writes(run[0])), Stream(key, AllWrites(run[1..])));
      }
    }
  }

  /** A key that is not written during its turns, over any interleaving with the unlocked flush: the client never
      gets fewer bytes than it should, and exactly the right ones if and only if no flush comes into a turn. */
  lemma UnwrittenConservesIff(monitor: bool, run: seq<Step>, key: seq<byte>)
    requires IsRun(Init(monitor), run) && Unwritten(Init(monitor), run, key)
    ensures
      var s := Init(monitor);
      var got, owed, given := Stream(key, AllFlushes(s, run)), Owed(After(s, run), key), Stream(key, AllWrites(run));
      && (got + owed == given <==> Unflushed(s, run, key))
      && (got + owed != given ==> |got| + |owed| > |given|)
  {
    UnwrittenRun(Init(monitor), run, key);
  }

  // ---------- What reaches the channel ----------

  /** A message sent past the cache that carries bytes of `key`. */
  predicate MidCarries(s: State, key: seq<byte>, step: Step) {
    step.WriteMid? && !s.closed && KeyOf(step.m) == key && Body(step.m) != []
  }

  /** No message sent past the cache puts bytes of `key` on the channel. */
  predicate NoMids(s: State, run: seq<Step>, key: seq<byte>)
    requires IsRun(s, run)
    decreases |run|
  {
    run == [] || (!MidCarries(s, key, run[0]) && NoMids(Apply(s, run[0]), run[1..], key))
  }

  /** The messages sent past the cache, while the connection is open. */
  function Mids(s: State, run: seq<Step>): seq<Message>
    requires IsRun(s, run)
    decreases |run|
  {
    if run == [] then []
    else (if run[0].WriteMid? && !s.closed then [run[0].m] else []) + Mids(Apply(s, run[0]), run[1..])
  }

  /** The channel carries the flushed messages and the mid messages, each once and in its own order. */
  lemma {:induction false} WireIsShuffle(s: State, run: seq<Step>)
    requires IsRun(s, run)
    ensures Shuffle(AllFlushes(s, run), Mids(s, run), AllWire(s, run))
    decreases |run|
  {
    if run != [] {
      var t, step := Apply(s, run[0]), run[0];
      var mid: seq<Message> := if step.WriteMid? && !s.closed then [step.m] else [];
      WireIsShuffle(t, run[1..]);
      assert Shuffle(Flushes(s, step), mid, Wire(s, step)) by {
        if mid == [] { ShuffleSelf(Flushes(s, step)); } else { assert [step.m][1..] == []; }
      }
      ShuffleAppend(Flushes(s, step), mid, Wire(s, step), AllFlushes(t, run[1..]), Mids(t, run[1..]), AllWire(t, run[1..]));
    }
  }

  lemma WireStep(s: State, step: Step, key: seq<byte>)
    requires Enabled(s, step)
    ensures
      if MidCarries(s, key, step) then |Stream(key, Wire(s, step))| > |Stream(key, Flushes(s, step))|
      else Stream(key, Wire(s, step)) == Stream(key, Flushes(s, step))
  {
  }

  /** The channel carries what the flushes deliver, and more exactly when messages sent past the cache carry bytes. */
  lemma {:induction false} WireOfRun(s: State, run: seq<Step>, key: seq<byte>)
    requires IsRun(s, run)
    ensures
      if NoMids(s, run, key) then Stream(key, AllWire(s, run)) == Stream(key, AllFlushes(s, run))
      else |Stream(key, AllWire(s, run))| > |Stream(key, AllFlushes(s, run))|
    decreases |run|
  {
    if run != [] {
      var t := Apply(s, run[0]);
      WireStep(s, run[0], key);
      WireOfRun(t, run[1..], key);
      StreamAppend(key, Wire(s, run[0]), AllWire(t, run[1..]));
      StreamAppend(key, Flushes(s, run[0]), AllFlushes(t, run[1..]));
    }
  }

  lemma {:induction false} OtherMids(s: State, run: seq<Step>, key: seq<byte>)
    requires IsRun(s, run) && forall step :: step in run && step.WriteMid? ==> KeyOf(step.m) != key
    ensures NoMids(s, run, key)
    decreases |run|
  {
    if run != [] {
      assert run[0] in run;
      OtherMids(Apply(s, run[0]), run[1..], key);
    }
  }

  /** Runs without the unlocked flush have no turns. */
  lemma {:induction false} LockedHasNoTurns(s: State, run: seq<Step>, key: seq<byte>)
    requires IsRun(s, run) && Locked(run) && s.flusher.Idle?
    ensures Unwritten(s, run, key) && Unflushed(s, run, key) && After(s, run).flusher.Idle?
    decreases |run|
  {
    if run != [] {
      assert run[0] in run && !IsLoop(run[0]);
      LockedHasNoTurns(Apply(s, run[0]), run[1..], key);
    }
  }

  /** A writer that has stopped before the unlocked flush begins leaves its key unwritten in every turn: in the
      repository the log writer returns before the same goroutine calls `flush(false)`. */
  lemma {:induction false} StoppedBeforeFlush(s: State, before: seq<Step>, rest: seq<Step>, key: seq<byte>)
    requires IsRun(s, before + rest) && s.flusher.Idle? && Locked(before)
    requires forall m :: m in AllWrites(rest) ==> KeyOf(m) != key
    ensures Unwritten(s, before + rest, key)
    decreases |before + rest|
  {
    if before != [] {
      assert (before + rest)[1..] == before[1..] + rest;
      assert before[0] in before && !IsLoop(before[0]);
      StoppedBeforeFlush(Apply(s, before[0]), before[1..], rest, key);
    } else {
      assert before + rest == rest;
      NoWritesUnwritten(s, rest, key);
    }
  }

  lemma {:induction false} NoWritesUnwritten(s: State, run: seq<Step>, key: seq<byte>)
    requires IsRun(s, run) && forall m :: m in AllWrites(run) ==> KeyOf(m) != key
    ensures Unwritten(s, run, key)
    decreases |run|
  {
    if run != [] {
      assert run[0].Write? ==> run[0].m in AllWrites(run);
      NoWritesUnwritten(Apply(s, run[0]), run[1..], key);
    }
  }

  // ---------- The sending flag ----------

  /** The unlocked flush has ended and nothing has been written since. */
  predicate EndedSinceWrite(run: seq<Step>) {
    exists i :: 0 <= i < |run| && run[i].LoopEnd? && forall j :: i < j < |run| ==> !run[j].Write?
  }

  predicate EndedAfter(ended: bool, run: seq<Step>)
    decreases |run|
  {
    if run == [] then ended else EndedAfter(run[0].LoopEnd? || (ended && !run[0].Write?), run[1..])
  }

  lemma {:induction false} EndedAfterMeaning(ended: bool, run: seq<Step>)
    ensures EndedAfter(ended, run)
       <==> EndedSinceWrite(run) || (ended && forall j :: 0 <= j < |run| ==> !run[j].Write?)
    decreases |run|
  {
    if run != [] {
      var rest := run[1..];
      EndedAfterMeaning(run[0].LoopEnd? || (ended && !run[0].Write?), rest);
      if EndedSinceWrite(rest) {
        var i :| 0 <= i < |rest| && rest[i].LoopEnd? && forall j :: i < j < |rest| ==> !rest[j].Write?;
        assert run[i + 1].LoopEnd? && forall j :: i + 1 < j < |run| ==> run[j] == rest[j - 1];
      }
      if EndedSinceWrite(run) {
        var i :| 0 <= i < |run| && run[i].LoopEnd? && forall j :: i < j < |run| ==> !run[j].Write?;
        if i > 0 { assert rest[i - 1].LoopEnd?; }
      }
      assert forall j :: 0 <= j < |rest| ==> rest[j] == run[j + 1];
    }
  }

  lemma {:induction false} FlagFollows(s: State, ended: bool, run: seq<Step>)
    requires IsRun(s, run)
    requires !s.closed && s.cache != map[] ==> (s.sending <==> !ended)
    ensures var t := After(s, run); !t.closed && t.cache != map[] ==> (t.sending <==> !EndedAfter(ended, run))
    decreases |run|
  {
    if run != [] { FlagFollows(Apply(s, run[0]), run[0].LoopEnd? || (ended && !run[0].Write?), run[1..]); }
  }

  /** The unlocked loop can end with the flag down and bytes cached: a late entry may be skipped by its range. */
  lemma UnlockedEndDropsFlag(s: State, m: Message)
    requires Inv(s) && s.flusher.Looping? && s.flusher.must == {} && !s.closed
    ensures var t := Apply(s, Write(m));
      Enabled(t, LoopEnd) && !Apply(t, LoopEnd).sending && Apply(t, LoopEnd).cache != map[]
  {
    assert KeyOf(m) in Apply(s, Write(m)).cache;
  }

  // ---------- The timer ----------

  /** A write while the flag is set leaves the timers alone; otherwise it arms one new timer and no other stays armed. */
  lemma WriteTimers(s: State, m: Message)
    requires Inv(s)
    ensures
      var t := Apply(s, Write(m));
      if s.sending then t.sending && (t.current, t.armed, t.fired, t.next) == (s.current, s.armed, s.fired, s.next)
      else
        && t.sending && t.armed == {t.current} && t.fired == s.fired
        && t.current != s.current && t.current !in s.armed && t.current !in s.fired
  {
  }

  /** Apart from writes, only the timer's own steps touch timers. */
  lemma OthersKeepTimers(s: State, step: Step)
    requires Enabled(s, step) && !step.Write? && !step.Expire? && !step.Callback?
    ensures var t := Apply(s, step); (t.current, t.armed, t.fired, t.next) == (s.current, s.armed, s.fired, s.next)
  {
  }

  predicate FlagStays(s: State, run: seq<Step>)
    requires IsRun(s, run)
    decreases |run|
  {
    s.sending && (run == [] || FlagStays(Apply(s, run[0]), run[1..]))
  }

  /** While the flag stays set, whatever else happens, the pending callback stays the same one: no write postpones it,
      and once its timer has expired it only waits for the lock. */
  lemma {:induction false} NotPostponed(s: State, run: seq<Step>)
    requires Inv(s) && IsRun(s, run) && FlagStays(s, run)
    ensures
      var t := After(s, run);
      && t.current == s.current && t.next == s.next && Pending(t)
      && (s.current in s.fired ==> s.current in t.fired)
    decreases |run|
  {
    if run != [] {
      StepKeepsInv(s, run[0]);
      if run[0].Write? {
        WriteTimers(s, run[0].m);
      } else if !run[0].Expire? && !run[0].Callback? {
        OthersKeepTimers(s, run[0]);
      }
      NotPostponed(Apply(s, run[0]), run[1..]);
    }
  }

  /** Neither armed nor waiting, and not to be made again. */
  predicate Spent(s: State, id: nat) { 0 < id < s.next && id !in s.armed && id !in s.fired }

  lemma SpentStep(s: State, step: Step, id: nat)
    requires Enabled(s, step) && Spent(s, id)
    ensures Spent(Apply(s, step), id) && !(step.Callback? && step.id == id)
  {
  }

  lemma {:induction false} SpentStays(s: State, run: seq<Step>, id: nat, j: nat)
    requires IsRun(s, run) && Spent(s, id) && j < |run|
    ensures !(run[j].Callback? && run[j].id == id)
    decreases |run|
  {
    SpentStep(s, run[0], id);
    if j > 0 { SpentStays(Apply(s, run[0]), run[1..], id, j - 1); }
  }

  /** Every timer's callback runs at most once. */
  lemma {:induction false} CallbackOnce(s: State, run: seq<Step>, i: nat, j: nat)
    requires Inv(s) && IsRun(s, run) && i < j < |run| && run[i].Callback? && run[j].Callback?
    ensures run[i].id != run[j].id
    decreases |run|
  {
    var t := Apply(s, run[0]);
    if i > 0 {
      StepKeepsInv(s, run[0]);
      CallbackOnce(t, run[1..], i - 1, j - 1);
    } else {
      assert Spent(t, run[0].id);
      SpentStays(t, run[1..], run[0].id, j - 1);
    }
  }

  // ---------- Nothing stranded, nothing after close ----------

  /** In every reachable state, cached bytes of an open connection have a callback coming; the sending flag is
      set too if and only if the unlocked flush has not ended since the last write. */
  lemma CallbackIsComing(monitor: bool, run: seq<Step>)
    requires IsRun(Init(monitor), run)
    ensures var s := After(Init(monitor), run);
      !s.closed && s.cache != map[] ==> Pending(s) && (s.sending <==> !EndedSinceWrite(run))
  {
    RunKeepsInv(Init(monitor), run);
    FlagFollows(Init(monitor), false, run);
    EndedAfterMeaning(false, run);
  }

  lemma {:induction false} OrderExists(cache: map<seq<byte>, Message>) returns (order: seq<seq<byte>>)
    ensures IsOrder(cache, order)
    decreases |cache|
  {
    if cache == map[] {
      order := [];
    } else {
      var key :| key in cache;
      assert (cache - {key}).Keys == cache.Keys - {key};
      var rest := OrderExists(cache - {key});
      order := [key] + rest;
      assert order[1..] == rest;
    }
  }

  lemma FireFired(s: State, order: seq<seq<byte>>) returns (run: seq<Step>)
    requires s.current in s.fired && !s.closed && IsOrder(s.cache, order)
    ensures IsRun(s, run) && Locked(run)
    ensures After(s, run).cache == map[] && !After(s, run).sending
    ensures AllFlushes(s, run) == Entries(s.cache, order)
  {
    RunCons(s, Callback(s.current, order), []);
    run := [Callback(s.current, order)] + [];
    assert Entries(s.cache, order) + [] == Entries(s.cache, order);
  }

  lemma FireCurrent(s: State, order: seq<seq<byte>>) returns (run: seq<Step>)
    requires Pending(s) && !s.closed && IsOrder(s.cache, order)
    ensures IsRun(s, run) && Locked(run)
    ensures After(s, run).cache == map[] && !After(s, run).sending
    ensures AllFlushes(s, run) == Entries(s.cache, order)
  {
    if s.current in s.fired {
      run := FireFired(s, order);
    } else {
      var fire := FireFired(Apply(s, Expire(s.current)), order);
      RunCons(s, Expire(s.current), fire);
      run := [Expire(s.current)] + fire;
      assert [] + Entries(s.cache, order) == Entries(s.cache, order);
    }
  }

  /** That callback, once the timer expires, delivers every cached byte and leaves the cache empty. */
  lemma CallbackDeliversAll(s: State) returns (run: seq<Step>)
    requires Inv(s) && !s.closed && s.cache != map[]
    ensures IsRun(s, run) && Locked(run)
    ensures After(s, run).cache == map[] && !After(s, run).sending
    ensures forall key :: Stream(key, AllFlushes(s, run)) == Cached(s, key)
  {
    var order := OrderExists(s.cache);
    run := FireCurrent(s, order);
    forall key ensures Stream(key, AllFlushes(s, run)) == Cached(s, key) {
      EntriesStream(s.cache, order, key);
    }
  }

  /** After close nothing enters the channel, unless an unlocked flush loop was already past its check. */
  lemma {:induction false} ClosedIsSilent(s: State, run: seq<Step>)
    requires s.closed && (s.flusher.Idle? || s.flusher.Finishing?) && IsRun(s, run)
    ensures AllWire(s, run) == [] && After(s, run).closed
    decreases |run|
  {
    if run != [] { ClosedIsSilent(Apply(s, run[0]), run[1..]); }
  }

  /** The exception is real: every closed state with the loop running has a run that still sends. */
  lemma ClosedLoopStillSends(s: State, m: Message) returns (run: seq<Step>)
    requires s.closed && !s.flusher.Idle? && !s.flusher.Finishing?
    ensures IsRun(s, run) && AllWire(s, run) != []
  {
    if s.flusher.Picked? {
      RunCons(s, LoopSend, []);
      run := [LoopSend] + [];
    } else {
      var a := if s.flusher.Sent? then Apply(s, LoopDelete) else s;
      run := LoopSendsWritten(a, m);
      if s.flusher.Sent? {
        RunCons(s, LoopDelete, run);
        run := [LoopDelete] + run;
      }
    }
  }

  lemma LoopSendsWritten(s: State, m: Message) returns (run: seq<Step>)
    requires s.flusher.Looping?
    ensures IsRun(s, run) && AllWire(s, run) != []
  {
    var a := Apply(s, Write(m));
    var b := Apply(a, LoopPick(KeyOf(m)));
    RunCons(b, LoopSend, []);
    RunCons(a, LoopPick(KeyOf(m)), [LoopSend] + []);
    RunCons(s, Write(m), [LoopPick(KeyOf(m))] + ([LoopSend] + []));
    run := [Write(m)] + ([LoopPick(KeyOf(m))] + ([LoopSend] + []));
  }

  /** Monitor close, cancel and hub removal happen at most once, and exactly once by the time it is closed. */
  lemma EndsOnce(monitor: bool, run: seq<Step>)
    requires IsRun(Init(monitor), run)
    ensures var s := After(Init(monitor), run);
      && s.cancels <= 1 && s.removals <= 1 && s.monitorCloses <= 1
      && (s.closed <==> s.cancels == 1) && (s.closed <==> s.removals == 1)
      && (s.closed && s.monitor <==> s.monitorCloses == 1)
  {
    RunKeepsInv(Init(monitor), run);
  }
}
