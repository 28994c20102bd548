/** `Keys` of the sharded map: one sender per shard, all on one channel, in every interleaving. */
module KeyGather {
  import opened ShardedMap
  import F = FanIn

  /** What each sender has not sent yet, who has called `Done`, the channel, and what the caller has appended. */
  datatype State<T> = State(todo: seq<seq<T>>, done: seq<bool>, ch: seq<T>, cap: nat, closed: bool, keys: seq<T>)

  /** `cap` is the count taken before the senders start, `found` what each finds under its shard's lock. */
  function Init<T>(found: seq<seq<T>>, cap: nat): State<T> {
    State(found, seq(|found|, _ => false), [], cap, false, [])
  }

  datatype Step = Send(i: nat) | Handoff(i: nat) | Done(i: nat) | Close | Receive

  predicate AllDone<T>(s: State<T>) { forall i :: 0 <= i < |s.done| ==> s.done[i] }

  /** A send needs room; on a channel without capacity it meets the receiver instead. */
  predicate Enabled<T>(s: State<T>, step: Step) {
    match step
    case Send(i) => i < |s.todo| && s.todo[i] != [] && |s.ch| < s.cap
    case Handoff(i) => i < |s.todo| && s.todo[i] != [] && s.cap == 0
    case Done(i) => i < |s.todo| && i < |s.done| && s.todo[i] == [] && !s.done[i]
    case Close => AllDone(s) && !s.closed
    case Receive => s.ch != []
  }

  function Apply<T>(s: State<T>, step: Step): State<T>
    requires Enabled(s, step)
  {
    match step
    case Send(i) => s.(todo := s.todo[i := s.todo[i][1..]], ch := s.ch + [s.todo[i][0]])
    case Handoff(i) => s.(todo := s.todo[i := s.todo[i][1..]], keys := s.keys + [s.todo[i][0]])
    case Done(i) => s.(done := s.done[i := true])
    case Close => s.(closed := true)
    case Receive => s.(ch := s.ch[1..], keys := s.keys + [s.ch[0]])
  }

  predicate IsRun<T>(s: State<T>, run: seq<Step>)
    decreases |run|
  {
    run == [] || (Enabled(s, run[0]) && IsRun(Apply(s, run[0]), run[1..]))
  }

  function After<T>(s: State<T>, run: seq<Step>): State<T>
    requires IsRun(s, run)
    decreases |run|
  {
    if run == [] then s else After(Apply(s, run[0]), run[1..])
  }

  /** The caller's `range` loop has ended. */
  predicate Ended<T>(s: State<T>) { s.closed && s.ch == [] }

  // ---------- Each key once ----------

  ghost function Copies<T>(s: State<T>, x: T): nat { F.InEntries(s.todo, x) + F.Occurs(s.ch, x) + F.Occurs(s.keys, x) }

  lemma {:induction false} HeadLeaves<T>(todo: seq<seq<T>>, i: nat, x: T)
    requires i < |todo| && todo[i] != []
    ensures F.InEntries(todo, x) == F.InEntries(todo[i := todo[i][1..]], x) + (if x == todo[i][0] then 1 else 0)
    ensures F.Total(todo) == F.Total(todo[i := todo[i][1..]]) + 1
    decreases |todo|
  {
    var after := todo[i := todo[i][1..]];
    if i == 0 {
      F.OccursHead(todo[0], x);
      assert after[1..] == todo[1..];
    } else {
      HeadLeaves(todo[1..], i - 1, x);
      assert after[1..] == todo[1..][i - 1 := todo[i][1..]];
    }
  }

  lemma StepKeepsCopies<T>(s: State<T>, step: Step, x: T)
    requires Enabled(s, step)
    ensures Copies(Apply(s, step), x) == Copies(s, x)
  {
    if step.Send? || step.Handoff? {
      HeadLeaves(s.todo, step.i, x);
      F.OccursAppend(if step.Send? then s.ch else s.keys, s.todo[step.i][0], x);
    } else if step.Receive? {
      F.OccursHead(s.ch, x);
      F.OccursAppend(s.keys, s.ch[0], x);
    }
  }

  lemma {:induction false} RunKeepsCopies<T>(s: State<T>, run: seq<Step>, x: T)
    requires IsRun(s, run)
    ensures Copies(After(s, run), x) == Copies(s, x)
    decreases |run|
  {
    if run != [] {
      StepKeepsCopies(s, run[0], x);
      RunKeepsCopies(Apply(s, run[0]), run[1..], x);
    }
  }

  /** Senders are done only when they have sent everything, and the channel is closed after all of them. */
  predicate Inv<T>(s: State<T>) {
    && |s.todo| == |s.done|
    && (forall i :: 0 <= i < |s.done| && s.done[i] ==> s.todo[i] == [])
    && |s.ch| <= s.cap
    && (s.closed ==> AllDone(s))
  }

  /** The channel has room for everything still to come. */
  predicate Roomy<T>(s: State<T>) { |s.ch| + F.Total(s.todo) <= s.cap }

  lemma StepKeepsInv<T>(s: State<T>, step: Step)
    requires Inv(s) && Enabled(s, step)
    ensures Inv(Apply(s, step)) && (Roomy(s) ==> Roomy(Apply(s, step)))
  {
    if step.Send? || step.Handoff? { HeadLeaves(s.todo, step.i, s.todo[step.i][0]); }
  }

  lemma {:induction false} RunKeepsInv<T>(s: State<T>, run: seq<Step>)
    requires Inv(s) && IsRun(s, run)
    ensures Inv(After(s, run)) && (Roomy(s) ==> Roomy(After(s, run)))
    decreases |run|
  {
    if run != [] {
      StepKeepsInv(s, run[0]);
      RunKeepsInv(Apply(s, run[0]), run[1..]);
    }
  }

  lemma {:induction false} NothingLeft<T>(todo: seq<seq<T>>, x: T)
    requires forall i :: 0 <= i < |todo| ==> todo[i] == []
    ensures F.InEntries(todo, x) == 0
    decreases |todo|
  {
    if todo != [] {
      assert todo[0] == [];
      NothingLeft(todo[1..], x);
    }
  }

  /** Whatever the capacity, every interleaving that ends has gathered each key as often as the senders found it. */
  lemma GatheredOnce<T>(found: seq<seq<T>>, cap: nat, run: seq<Step>, x: T)
    requires IsRun(Init(found, cap), run) && Ended(After(Init(found, cap), run))
    ensures F.Occurs(After(Init(found, cap), run).keys, x) == F.InEntries(found, x)
  {
    RunKeepsCopies(Init(found, cap), run, x);
    RunKeepsInv(Init(found, cap), run);
    NothingLeft(After(Init(found, cap), run).todo, x);
  }

  // ---------- Progress ----------

  function Undone(done: seq<bool>): nat {
    if done == [] then 0 else (if done[0] then 0 else 1) + Undone(done[1..])
  }

  lemma {:induction false} OneMoreDone(done: seq<bool>, i: nat)
    requires i < |done| && !done[i]
    ensures Undone(done) == Undone(done[i := true]) + 1
    decreases |done|
  {
    if i == 0 {
      assert done[0 := true][1..] == done[1..];
    } else {
      OneMoreDone(done[1..], i - 1);
      assert done[i := true][1..] == done[1..][i - 1 := true];
    }
  }

  function Measure<T>(s: State<T>): nat {
    2 * F.Total(s.todo) + |s.ch| + Undone(s.done) + (if s.closed then 0 else 1)
  }

  /** Every step uses up some work, so no interleaving goes on for ever. */
  lemma StepsRunOut<T>(s: State<T>, step: Step)
    requires Enabled(s, step)
    ensures Measure(Apply(s, step)) < Measure(s)
  {
    if step.Send? || step.Handoff? {
      HeadLeaves(s.todo, step.i, s.todo[step.i][0]);
    } else if step.Done? {
      OneMoreDone(s.done, step.i);
    }
  }

  /** Until the caller's loop has ended some step is possible, whatever the capacity. */
  lemma NeverStuck<T>(s: State<T>) returns (step: Step)
    requires Inv(s) && !Ended(s)
    ensures Enabled(s, step)
  {
    if s.ch != [] { return Receive; }
    if AllDone(s) { return Close; }
    var i: nat :| i < |s.done| && !s.done[i];
    step := if s.todo[i] == [] then Step.Done(i) else if s.cap == 0 then Handoff(i) else Send(i);
  }

  // ---------- On a map's own shards ----------

  /** The sender's range over its shard: each key once. */
  ghost predicate RangesOver<V>(found: seq<Key>, m: map<Key, V>) {
    && (forall k :: k in m <==> k in found)
    && (forall i, j :: 0 <= i < j < |found| ==> found[i] != found[j])
  }

  lemma {:induction false} DistinctLength(q: seq<Key>, keys: set<Key>)
    requires (forall k :: k in keys <==> k in q) && forall i, j :: 0 <= i < j < |q| ==> q[i] != q[j]
    ensures |q| == |keys|
    decreases |q|
  {
    if q != [] {
      var init, last := q[..|q| - 1], q[|q| - 1];
      assert q == init + [last] && last in q;
      DistinctLength(init, keys - {last});
    } else {
      assert keys == {};
    }
  }

  lemma TotalSnoc<T>(found: seq<seq<T>>, last: seq<T>)
    ensures F.Total(found + [last]) == F.Total(found) + |last|
    decreases |found|
  {
    if found != [] {
      TotalSnoc(found[1..], last);
      assert (found + [last])[1..] == found[1..] + [last];
    }
  }

  lemma {:induction false} TotalIsCount<V>(shards: Shards<V>, found: seq<seq<Key>>, n: nat)
    requires n <= |shards| == |found| && forall i :: 0 <= i < |shards| ==> RangesOver(found[i], shards[i])
    ensures F.Total(found[..n]) == Sizes(shards, n)
    decreases n
  {
    if n > 0 {
      TotalIsCount(shards, found, n - 1);
      assert found[..n] == found[..n - 1] + [found[n - 1]];
      TotalSnoc(found[..n - 1], found[n - 1]);
      assert RangesOver(found[n - 1], shards[n - 1]);
      DistinctLength(found[n - 1], shards[n - 1].Keys);
    }
  }

  /** With the map's count as capacity, as `Keys` makes it, no sender ever waits for room. */
  lemma NoSenderWaits<V>(shards: Shards<V>, found: seq<seq<Key>>, run: seq<Step>, i: nat)
    requires Placed(shards) && |found| == |shards|
    requires forall j :: 0 <= j < |shards| ==> RangesOver(found[j], shards[j])
    requires IsRun(Init(found, |Contents(shards)|), run)
    ensures var s := After(Init(found, |Contents(shards)|), run); i < |s.todo| && s.todo[i] != [] ==> Enabled(s, Send(i))
  {
    var s := Init(found, |Contents(shards)|);
    TotalIsCount(shards, found, |shards|);
    CountIsCardinality(shards, |shards|);
    assert found[..|shards|] == found;
    RunKeepsInv(s, run);
    var t := After(s, run);
    if i < |t.todo| && t.todo[i] != [] { HeadLeaves(t.todo, i, t.todo[i][0]); }
  }

  /** `Keys` over a map nobody writes to returns each of its keys exactly once and nothing else, in every interleaving. */
  lemma KeysOfMap<V>(shards: Shards<V>, found: seq<seq<Key>>, cap: nat, run: seq<Step>, k: Key)
    requires Placed(shards) && |found| == |shards|
    requires forall i :: 0 <= i < |shards| ==> RangesOver(found[i], shards[i])
    requires IsRun(Init(found, cap), run) && Ended(After(Init(found, cap), run))
    ensures F.Occurs(After(Init(found, cap), run).keys, k) == if k in Contents(shards) then 1 else 0
  {
    GatheredOnce(found, cap, run, k);
    ContentsAt(shards, k);
    var i := ShardOf(k);
    forall j | 0 <= j < |found| && j != i ensures k !in found[j] {
      assert RangesOver(found[j], shards[j]) && InShard(shards[j], j);
    }
    F.InOneShardOnly(found, i, k);
    assert RangesOver(found[i], shards[i]);
    if k in found[i] {
      F.OccursOnce(found[i], k);
    } else {
      assert k !in multiset(found[i]);
    }
  }
}
