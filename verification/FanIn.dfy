/** The map's iterator: one sender and one forwarder per shard, joined on one channel, in every interleaving. */
module FanIn {
  import opened Wrappers
  import opened ShardedMap

  /** One shard's channel: entries not yet sent, the buffer, and what its forwarder holds. */
  datatype Lane<T> = Lane(todo: seq<T>, buf: seq<T>, cap: nat, closed: bool, held: Option<T>, done: bool)

  /** The joined channel, and what the consumer has received from it. */
  datatype State<T> = State(lanes: seq<Lane<T>>, out: seq<T>, outCap: nat, outClosed: bool, taken: seq<T>)

  function Total<T>(entries: seq<seq<T>>): nat {
    if entries == [] then 0 else |entries[0]| + Total(entries[1..])
  }

  function Lanes<T>(entries: seq<seq<T>>): seq<Lane<T>> {
    if entries == [] then [] else [Lane(entries[0], [], |entries[0]|, false, None, false)] + Lanes(entries[1..])
  }

  /** After `snapshot`: every channel has room for its shard; `buffered` tells IterBuffered from Iter. */
  function Init<T>(entries: seq<seq<T>>, buffered: bool): State<T> {
    State(Lanes(entries), [], if buffered then Total(entries) else 0, false, [])
  }

  datatype Step = Send(i: nat) | Close(i: nat) | Receive(i: nat) | Forward(i: nat) | Handoff(i: nat) | Finish(i: nat)
    | CloseOut | Take

  predicate AllDone<T>(lanes: seq<Lane<T>>) { forall i :: 0 <= i < |lanes| ==> lanes[i].done }

  /** A send needs room; on the unbuffered joined channel it meets the consumer instead. */
  predicate Enabled<T>(s: State<T>, step: Step) {
    match step
    case Send(i) => i < |s.lanes| && s.lanes[i].todo != [] && |s.lanes[i].buf| < s.lanes[i].cap
    case Close(i) => i < |s.lanes| && s.lanes[i].todo == [] && !s.lanes[i].closed
    case Receive(i) => i < |s.lanes| && s.lanes[i].buf != [] && s.lanes[i].held.None? && !s.lanes[i].done
    case Forward(i) => i < |s.lanes| && s.lanes[i].held.Some? && |s.out| < s.outCap
    case Handoff(i) => i < |s.lanes| && s.lanes[i].held.Some? && s.outCap == 0
    case Finish(i) =>
      i < |s.lanes| && s.lanes[i].closed && s.lanes[i].buf == [] && s.lanes[i].held.None? && !s.lanes[i].done
    case CloseOut => AllDone(s.lanes) && !s.outClosed
    case Take => s.out != []
  }

  function Apply<T>(s: State<T>, step: Step): State<T>
    requires Enabled(s, step)
  {
    match step
    case Send(i) =>
      var l := s.lanes[i];
      s.(lanes := s.lanes[i := l.(todo := l.todo[1..], buf := l.buf + [l.todo[0]])])
    case Close(i) => s.(lanes := s.lanes[i := s.lanes[i].(closed := true)])
    case Receive(i) =>
      var l := s.lanes[i];
      s.(lanes := s.lanes[i := l.(buf := l.buf[1..], held := Some(l.buf[0]))])
    case Forward(i) =>
      s.(lanes := s.lanes[i := s.lanes[i].(held := None)], out := s.out + [s.lanes[i].held.value])
    case Handoff(i) =>
      s.(lanes := s.lanes[i := s.lanes[i].(held := None)], taken := s.taken + [s.lanes[i].held.value])
    case Finish(i) => s.(lanes := s.lanes[i := s.lanes[i].(done := true)])
    case CloseOut => s.(outClosed := true)
    case Take => s.(out := s.out[1..], taken := s.taken + [s.out[0]])
  }

  predicate IsRun<T>(s: State<T>, run: seq<Step>)
    decreases |run|
  {
    run == [] || (Enabled(s, run[0]) && IsRun(Apply(s, run[0]), run[1..]))
  }

  function After<T>(s: State<T>, run: seq<Step>): State<T>
    requires IsRun(s, run)
    decreases |run|
  {
    if run == [] then s else After(Apply(s, run[0]), run[1..])
  }

  /** The consumer's `range` loop has ended. */
  predicate Ended<T>(s: State<T>) { s.outClosed && s.out == [] }

  // ---------- Nothing lost, nothing doubled ----------

  /** How often `x` occurs in a sequence, a lane, and the whole system. */
  ghost function Occurs<T>(q: seq<T>, x: T): nat { multiset(q)[x] }

  ghost function InLane<T>(l: Lane<T>, x: T): nat {
    Occurs(l.todo, x) + Occurs(l.buf, x) + (if l.held == Some(x) then 1 else 0)
  }

  ghost function InLanes<T>(lanes: seq<Lane<T>>, x: T): nat {
    if lanes == [] then 0 else InLane(lanes[0], x) + InLanes(lanes[1..], x)
  }

  ghost function Copies<T>(s: State<T>, x: T): nat { InLanes(s.lanes, x) + Occurs(s.out, x) + Occurs(s.taken, x) }

  ghost function InEntries<T>(entries: seq<seq<T>>, x: T): nat {
    if entries == [] then 0 else Occurs(entries[0], x) + InEntries(entries[1..], x)
  }

  lemma OccursAppend<T>(a: seq<T>, y: T, x: T)
    ensures Occurs(a + [y], x) == Occurs(a, x) + (if x == y then 1 else 0)
  {
  }

  lemma OccursHead<T>(a: seq<T>, x: T)
    requires a != []
    ensures Occurs(a, x) == Occurs(a[1..], x) + (if x == a[0] then 1 else 0)
  {
    assert a == [a[0]] + a[1..];
  }

  lemma {:induction false} InLanesUpdate<T>(lanes: seq<Lane<T>>, i: nat, l: Lane<T>, x: T)
    requires i < |lanes|
    ensures InLanes(lanes[i := l], x) + InLane(lanes[i], x) == InLanes(lanes, x) + InLane(l, x)
    decreases |lanes|
  {
    if i == 0 {
      assert lanes[0 := l][1..] == lanes[1..];
    } else {
      InLanesUpdate(lanes[1..], i - 1, l, x);
      assert lanes[i := l][1..] == lanes[1..][i - 1 := l];
    }
  }

  lemma StepKeepsCopies<T>(s: State<T>, step: Step, x: T)
    requires Enabled(s, step)
    ensures Copies(Apply(s, step), x) == Copies(s, x)
  {
    if step.Take? {
      OccursHead(s.out, x);
      OccursAppend(s.taken, s.out[0], x);
    } else if step.Forward? || step.Handoff? {
      OutOfLaneKeepsCopies(s, step, x);
    } else if !step.CloseOut? {
      InsideLaneKeepsCopies(s, step, x);
    }
  }

  lemma SendInLane<T>(l: Lane<T>, x: T)
    requires l.todo != []
    ensures InLane(l.(todo := l.todo[1..], buf := l.buf + [l.todo[0]]), x) == InLane(l, x)
  {
    OccursHead(l.todo, x);
    OccursAppend(l.buf, l.todo[0], x);
  }

  lemma ReceiveInLane<T>(l: Lane<T>, x: T)
    requires l.buf != [] && l.held.None?
    ensures InLane(l.(buf := l.buf[1..], held := Some(l.buf[0])), x) == InLane(l, x)
  {
    OccursHead(l.buf, x);
  }

  lemma InsideLaneKeepsCopies<T>(s: State<T>, step: Step, x: T)
    requires Enabled(s, step) && (step.Send? || step.Receive? || step.Close? || step.Finish?)
    ensures Copies(Apply(s, step), x) == Copies(s, x)
  {
    var l, m := s.lanes[step.i], Apply(s, step).lanes[step.i];
    assert InLane(m, x) == InLane(l, x) by {
      if step.Send? {
        SendInLane(l, x);
      } else if step.Receive? {
        ReceiveInLane(l, x);
      }
    }
    InLanesUpdate(s.lanes, step.i, m, x);
  }

  lemma OutOfLaneKeepsCopies<T>(s: State<T>, step: Step, x: T)
    requires Enabled(s, step) && (step.Forward? || step.Handoff?)
    ensures Copies(Apply(s, step), x) == Copies(s, x)
  {
    var l := s.lanes[step.i];
    InLanesUpdate(s.lanes, step.i, l.(held := None), x);
    OccursAppend(if step.Forward? then s.out else s.taken, l.held.value, x);
  }

  lemma {:induction false} RunKeepsCopies<T>(s: State<T>, run: seq<Step>, x: T)
    requires IsRun(s, run)
    ensures Copies(After(s, run), x) == Copies(s, x)
    decreases |run|
  {
    if run != [] {
      StepKeepsCopies(s, run[0], x);
      RunKeepsCopies(Apply(s, run[0]), run[1..], x);
    }
  }

  lemma {:induction false} InitCopies<T>(entries: seq<seq<T>>, x: T)
    ensures InLanes(Lanes(entries), x) == InEntries(entries, x)
    decreases |entries|
  {
    if entries != [] {
      InitCopies(entries[1..], x);
      assert Lanes(entries)[1..] == Lanes(entries[1..]);
    }
  }

  // ---------- Capacities and the end ----------

  /** A lane never overfills, always has room for what is still to send, and is done only when it is empty. */
  predicate LaneOk<T>(l: Lane<T>) {
    && |l.buf| + |l.todo| <= l.cap
    && (l.closed ==> l.todo == [])
    && (l.done ==> l.closed && l.buf == [] && l.held.None?)
  }

  function Load<T>(lanes: seq<Lane<T>>): nat {
    if lanes == [] then 0
    else |lanes[0].todo| + |lanes[0].buf| + (if lanes[0].held.Some? then 1 else 0) + Load(lanes[1..])
  }

  predicate Inv<T>(s: State<T>) {
    && (forall i :: 0 <= i < |s.lanes| ==> LaneOk(s.lanes[i]))
    && |s.out| <= s.outCap
    && (s.outCap > 0 ==> |s.out| + Load(s.lanes) <= s.outCap)
    && (s.outClosed ==> AllDone(s.lanes))
  }

  lemma {:induction false} LoadUpdate<T>(lanes: seq<Lane<T>>, i: nat, l: Lane<T>)
    requires i < |lanes|
    ensures Load(lanes[i := l]) + Load([lanes[i]]) == Load(lanes) + Load([l])
    decreases |lanes|
  {
    assert [l][1..] == [] && [lanes[i]][1..] == [];
    if i == 0 {
      assert lanes[0 := l][1..] == lanes[1..];
    } else {
      LoadUpdate(lanes[1..], i - 1, l);
      assert lanes[i := l][1..] == lanes[1..][i - 1 := l];
    }
  }

  lemma LoadOne<T>(l: Lane<T>)
    ensures Load([l]) == |l.todo| + |l.buf| + (if l.held.Some? then 1 else 0)
  {
  }

  lemma StepKeepsInv<T>(s: State<T>, step: Step)
    requires Inv(s) && Enabled(s, step)
    ensures Inv(Apply(s, step))
  {
    var t := Apply(s, step);
    if !step.CloseOut? && !step.Take? {
      LoadUpdate(s.lanes, step.i, t.lanes[step.i]);
      LoadOne(s.lanes[step.i]);
      LoadOne(t.lanes[step.i]);
      assert LaneOk(s.lanes[step.i]);
    }
  }

  lemma {:induction false} RunKeepsInv<T>(s: State<T>, run: seq<Step>)
    requires Inv(s) && IsRun(s, run)
    ensures Inv(After(s, run))
    decreases |run|
  {
    if run != [] {
      StepKeepsInv(s, run[0]);
      RunKeepsInv(Apply(s, run[0]), run[1..]);
    }
  }

  lemma {:induction false} InitInv<T>(entries: seq<seq<T>>)
    ensures Load(Lanes(entries)) == Total(entries)
    ensures forall i :: 0 <= i < |Lanes(entries)| ==> LaneOk(Lanes(entries)[i])
    decreases |entries|
  {
    if entries != [] {
      InitInv(entries[1..]);
      assert Lanes(entries)[1..] == Lanes(entries[1..]);
    }
  }

  lemma {:induction false} DoneLanesAreEmpty<T>(lanes: seq<Lane<T>>, x: T)
    requires AllDone(lanes) && forall i :: 0 <= i < |lanes| ==> LaneOk(lanes[i])
    ensures InLanes(lanes, x) == 0
    decreases |lanes|
  {
    if lanes != [] {
      assert LaneOk(lanes[0]);
      DoneLanesAreEmpty(lanes[1..], x);
    }
  }

  /** Every interleaving that ends has handed each entry to the consumer exactly as often as the shards hold it. */
  lemma EachEntryOnce<T>(entries: seq<seq<T>>, buffered: bool, run: seq<Step>, x: T)
    requires IsRun(Init(entries, buffered), run) && Ended(After(Init(entries, buffered), run))
    ensures Occurs(After(Init(entries, buffered), run).taken, x) == InEntries(entries, x)
  {
    var s := Init(entries, buffered);
    InitCopies(entries, x);
    InitInv(entries);
    RunKeepsCopies(s, run, x);
    RunKeepsInv(s, run);
    DoneLanesAreEmpty(After(s, run).lanes, x);
  }

  /** No channel ever holds more than its capacity, and in the buffered form no send ever waits for room. */
  lemma CapacitiesHold<T>(entries: seq<seq<T>>, buffered: bool, run: seq<Step>)
    requires IsRun(Init(entries, buffered), run)
    ensures var s := After(Init(entries, buffered), run);
      && |s.out| <= s.outCap
      && (forall i :: 0 <= i < |s.lanes| ==> |s.lanes[i].buf| <= s.lanes[i].cap)
      && (forall i :: 0 <= i < |s.lanes| && s.lanes[i].todo != [] ==> Enabled(s, Send(i)))
  {
    InitInv(entries);
    RunKeepsInv(Init(entries, buffered), run);
    var s := After(Init(entries, buffered), run);
    forall i | 0 <= i < |s.lanes| ensures |s.lanes[i].buf| + |s.lanes[i].todo| <= s.lanes[i].cap {
      assert LaneOk(s.lanes[i]);
    }
  }

  // ---------- Progress ----------

  function LaneWork<T>(l: Lane<T>): nat {
    4 * |l.todo| + 3 * |l.buf| + (if l.held.Some? then 2 else 0) + (if l.closed then 0 else 1) + (if l.done then 0 else 1)
  }

  function Work<T>(lanes: seq<Lane<T>>): nat {
    if lanes == [] then 0 else LaneWork(lanes[0]) + Work(lanes[1..])
  }

  lemma {:induction false} WorkUpdate<T>(lanes: seq<Lane<T>>, i: nat, l: Lane<T>)
    requires i < |lanes|
    ensures Work(lanes[i := l]) + LaneWork(lanes[i]) == Work(lanes) + LaneWork(l)
    decreases |lanes|
  {
    if i == 0 {
      assert lanes[0 := l][1..] == lanes[1..];
    } else {
      WorkUpdate(lanes[1..], i - 1, l);
      assert lanes[i := l][1..] == lanes[1..][i - 1 := l];
    }
  }

  function Measure<T>(s: State<T>): nat { Work(s.lanes) + |s.out| + (if s.outClosed then 0 else 1) }

  /** Every step uses up some work, so no interleaving goes on for ever. */
  lemma StepsRunOut<T>(s: State<T>, step: Step)
    requires Enabled(s, step)
    ensures Measure(Apply(s, step)) < Measure(s)
  {
    if !step.CloseOut? && !step.Take? {
      WorkUpdate(s.lanes, step.i, Apply(s, step).lanes[step.i]);
    }
  }

  /** And none gets stuck: in the buffered form and in the unbuffered one, some step is possible until the end. */
  lemma NeverStuck<T>(s: State<T>) returns (step: Step)
    requires Inv(s) && !Ended(s)
    ensures Enabled(s, step)
  {
    if s.out != [] { return Take; }
    if AllDone(s.lanes) { return CloseOut; }
    var i: nat :| i < |s.lanes| && !s.lanes[i].done;
    var l := s.lanes[i];
    assert LaneOk(l);
    if l.held.Some? {
      step := if s.outCap == 0 then Handoff(i) else Forward(i);
    } else if l.buf != [] {
      step := Receive(i);
    } else if l.todo != [] {
      step := Send(i);
    } else if !l.closed {
      step := Close(i);
    } else {
      step := Finish(i);
    }
  }

  // ---------- Items ----------

  type Entry<V> = (Key, V)

  /** `entries` ranges over the shard: each of its entries once. */
  ghost predicate Enumerates<V>(entries: seq<Entry<V>>, m: map<Key, V>) {
    && (forall e :: e in entries ==> e.0 in m && m[e.0] == e.1)
    && (forall k :: k in m ==> (k, m[k]) in entries)
    && (forall i, j :: 0 <= i < j < |entries| ==> entries[i].0 != entries[j].0)
  }

  /** The map `Items` builds from what it receives. */
  function Collected<V>(taken: seq<Entry<V>>): map<Key, V> {
    if taken == [] then map[] else Collected(taken[..|taken| - 1])[taken[|taken| - 1].0 := taken[|taken| - 1].1]
  }

  lemma {:induction false} CollectedAt<V>(taken: seq<Entry<V>>, m: map<Key, V>)
    requires forall e :: e in taken ==> e.0 in m && m[e.0] == e.1
    ensures forall k :: k in Collected(taken) ==> k in m && Collected(taken)[k] == m[k]
    ensures forall e :: e in taken ==> e.0 in Collected(taken)
    decreases |taken|
  {
    if taken != [] {
      var init, last := taken[..|taken| - 1], taken[|taken| - 1];
      assert taken == init + [last] && last in taken;
      CollectedAt(init, m);
    }
  }

  lemma {:induction false} InEntriesSomewhere<T>(entries: seq<seq<T>>, e: T)
    ensures InEntries(entries, e) > 0 <==> exists i :: 0 <= i < |entries| && e in entries[i]
    decreases |entries|
  {
    if entries != [] {
      InEntriesSomewhere(entries[1..], e);
      if InEntries(entries[1..], e) > 0 {
        var i :| 0 <= i < |entries[1..]| && e in entries[1..][i];
        assert e in entries[i + 1];
      }
      if j :| 0 <= j < |entries| && e in entries[j] {
        if j > 0 { assert e in entries[1..][j - 1]; }
      }
    }
  }

  /** `Items` over a map nobody writes to rebuilds exactly that map, in every interleaving. */
  lemma ItemsRebuildsMap<V>(shards: Shards<V>, entries: seq<seq<Entry<V>>>, buffered: bool, run: seq<Step>)
    requires Placed(shards) && |entries| == |shards|
    requires forall i :: 0 <= i < |shards| ==> Enumerates(entries[i], shards[i])
    requires IsRun(Init(entries, buffered), run) && Ended(After(Init(entries, buffered), run))
    ensures Collected(After(Init(entries, buffered), run).taken) == Contents(shards)
  {
    var taken := After(Init(entries, buffered), run).taken;
    var whole := Contents(shards);
    forall e | e in taken ensures e.0 in whole && whole[e.0] == e.1 {
      EachEntryOnce(entries, buffered, run, e);
      InEntriesSomewhere(entries, e);
      assert Occurs(taken, e) > 0;
      var i :| 0 <= i < |entries| && e in entries[i];
      assert Enumerates(entries[i], shards[i]) && InShard(shards[i], i);
      ContentsAt(shards, e.0);
    }
    CollectedAt(taken, whole);
    forall k | k in whole ensures k in Collected(taken) {
      ContentsAt(shards, k);
      var i := ShardOf(k);
      var e := (k, shards[i][k]);
      assert Enumerates(entries[i], shards[i]) && e in entries[i];
      EachEntryOnce(entries, buffered, run, e);
      InEntriesSomewhere(entries, e);
      assert e in multiset(taken);
    }
  }

  lemma {:induction false} OccursOnce<T>(q: seq<T>, e: T)
    requires e in q && forall i, j :: 0 <= i < j < |q| ==> q[i] != q[j]
    ensures Occurs(q, e) == 1
    decreases |q|
  {
    OccursHead(q, e);
    if e != q[0] {
      assert e in q[1..];
      OccursOnce(q[1..], e);
    } else {
      forall i | 0 <= i < |q[1..]| ensures q[1..][i] != e {
        assert q[1..][i] == q[i + 1] && q[0] != q[i + 1];
      }
      assert e !in multiset(q[1..]);
    }
  }

  lemma {:induction false} InOneShardOnly<T>(entries: seq<seq<T>>, i: nat, x: T)
    requires i < |entries| && forall j :: 0 <= j < |entries| && j != i ==> x !in entries[j]
    ensures InEntries(entries, x) == Occurs(entries[i], x)
    decreases |entries|
  {
    var rest := entries[1..];
    if i == 0 {
      InEntriesSomewhere(rest, x);
      assert forall j :: 0 <= j < |rest| ==> rest[j] == entries[j + 1];
    } else {
      assert forall j :: 0 <= j < |rest| ==> rest[j] == entries[j + 1];
      InOneShardOnly(rest, i - 1, x);
      assert x !in entries[0];
    }
  }

  /** The iterator emits each entry of the map exactly once. */
  lemma EmittedExactlyOnce<V>(shards: Shards<V>, entries: seq<seq<Entry<V>>>, buffered: bool, run: seq<Step>, k: Key)
    requires Placed(shards) && |entries| == |shards|
    requires forall i :: 0 <= i < |shards| ==> Enumerates(entries[i], shards[i])
    requires IsRun(Init(entries, buffered), run) && Ended(After(Init(entries, buffered), run))
    requires k in Contents(shards)
    ensures Occurs(After(Init(entries, buffered), run).taken, (k, Contents(shards)[k])) == 1
  {
    ContentsAt(shards, k);
    var i := ShardOf(k);
    var e := (k, shards[i][k]);
    EachEntryOnce(entries, buffered, run, e);
    assert Enumerates(entries[i], shards[i]) && e in entries[i];
    OccursOnce(entries[i], e);
    forall j | 0 <= j < |entries| && j != i ensures e !in entries[j] {
      assert Enumerates(entries[j], shards[j]) && InShard(shards[j], j);
    }
    InOneShardOnly(entries, i, e);
  }
}
