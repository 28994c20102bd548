/** Windows on byte streams: a writer that keeps one window of its input, a reader that skips a prefix. */
module SkipLimit {
  import opened Bytes
  import opened Streams
  import opened Wrappers

  // ---------- LimitWriter ----------

  /** `skip` bytes still to drop, `limit` bytes still to keep; `plan` are the answers of the writer underneath and
      `out` is what it accepted. */
  datatype Limiter = Limiter(skip: int, limit: nat, plan: seq<WriteStep>, out: seq<byte>)

  /** What is still to skip after `len` bytes. */
  function SkipLeft(skip: int, len: nat): int { if skip <= 0 then skip else if skip >= len then skip - len else 0 }

  /** What one write offers to the writer underneath; nothing when it is all skipped or the limit is used up. */
  function Offered(w: Limiter, p: seq<byte>): Option<seq<byte>> {
    if w.skip > 0 && w.skip >= |p| then None
    else
      var q := if w.skip > 0 then p[w.skip..] else p;
      if w.limit == 0 then None else Some(if w.limit < |q| then q[..w.limit] else q)
  }

  /** One write: only accepted bytes count against the limit. */
  function Written(w: Limiter, p: seq<byte>): Limiter {
    match Offered(w, p)
    case None => w.(skip := SkipLeft(w.skip, |p|))
    case Some(q) =>
      var n := Took(AnswerTo(w.plan), |q|);
      Limiter(SkipLeft(w.skip, |p|), w.limit - n, Rest(w.plan), w.out + q[..n])
  }

  function AllWritten(w: Limiter, chunks: seq<seq<byte>>): Limiter
    decreases |chunks|
  {
    if chunks == [] then w else AllWritten(Written(w, chunks[0]), chunks[1..])
  }

  predicate TakesOffer(w: Limiter, p: seq<byte>) {
    Offered(w, p).Some? ==> Took(AnswerTo(w.plan), |Offered(w, p).value|) == |Offered(w, p).value|
  }

  /** The writer underneath takes all it is offered. */
  predicate TakesAll(w: Limiter, chunks: seq<seq<byte>>)
    decreases |chunks|
  {
    chunks == [] || (TakesOffer(w, chunks[0]) && TakesAll(Written(w, chunks[0]), chunks[1..]))
  }

  /** Bytes `skip` up to `skip + limit` of a stream. */
  function Window(s: seq<byte>, skip: int, limit: nat): seq<byte> {
    var from: nat := if skip <= 0 then 0 else Min(skip, |s|);
    s[from..from + Min(limit, |s| - from)]
  }

  lemma WindowAppend(p: seq<byte>, rest: seq<byte>, skip: int, limit: nat)
    ensures |Window(p, skip, limit)| <= limit
    ensures
      Window(p + rest, skip, limit)
        == Window(p, skip, limit) + Window(rest, SkipLeft(skip, |p|), limit - |Window(p, skip, limit)|)
  {
  }

  lemma WrittenWindow(w: Limiter, p: seq<byte>)
    requires TakesOffer(w, p)
    ensures var kept := Window(p, w.skip, w.limit);
      Written(w, p) == Limiter(SkipLeft(w.skip, |p|), w.limit - |kept|, Written(w, p).plan, w.out + kept)
  {
    var kept := Window(p, w.skip, w.limit);
    if Offered(w, p).None? {
      assert kept == [] && w.out + [] == w.out;
    } else {
      var q := Offered(w, p).value;
      assert q == kept && q[..|q|] == q;
    }
  }

  lemma WriteThenRest(w: Limiter, p: seq<byte>, rest: seq<byte>)
    requires TakesOffer(w, p)
    ensures var v := Written(w, p);
      v.out + Window(rest, v.skip, v.limit) == w.out + Window(p + rest, w.skip, w.limit)
  {
    WrittenWindow(w, p);
    WindowAppend(p, rest, w.skip, w.limit);
  }

  /** However the input is cut into writes, the output is the same window of the whole. */
  lemma {:induction false} ChunkingDoesNotMatter(w: Limiter, chunks: seq<seq<byte>>)
    requires TakesAll(w, chunks)
    ensures AllWritten(w, chunks).out == w.out + Window(Concat(chunks), w.skip, w.limit)
    decreases |chunks|
  {
    if chunks != [] {
      ChunkingDoesNotMatter(Written(w, chunks[0]), chunks[1..]);
      WriteThenRest(w, chunks[0], Concat(chunks[1..]));
    }
  }

  /** Whatever the writer underneath does, it gets no more than the limit, and the limit is charged for what it took. */
  lemma {:induction false} LimitHolds(w: Limiter, chunks: seq<seq<byte>>)
    ensures var v := AllWritten(w, chunks); w.out <= v.out && |v.out| + v.limit == |w.out| + w.limit
    decreases |chunks|
  {
    if chunks != [] { LimitHolds(Written(w, chunks[0]), chunks[1..]); }
  }

  class LimitWriter {
    const w: Sink
    var skipBytes: int
    var wLimit: nat

    function View(): Limiter
      reads this, w
    {
      Limiter(skipBytes, wLimit, w.plan, w.got)
    }

    constructor (w: Sink, skip: int, limit: nat)
      ensures this.w == w && View() == Limiter(skip, limit, w.plan, w.got)
    {
      this.w, skipBytes, wLimit := w, skip, limit;
    }

    /** The full length is reported whatever is kept, with the error of the writer underneath. */
    method Write(p0: seq<byte>) returns (n: nat, err: Option<int>)
      modifies this, w
      ensures n == |p0| && View() == Written(old(View()), p0)
      ensures err == if Offered(old(View()), p0).None? || !AnswerTo(old(w.plan)).Refuse? then None
                     else Some(AnswerTo(old(w.plan)).code)
    {
      var p := p0;
      n, err := |p|, None;
      if skipBytes > 0 {
        if skipBytes >= |p| {
          skipBytes := skipBytes - |p|;
          return;
        }
        p := p[skipBytes..];
        skipBytes := 0;
      }
      if wLimit == 0 { return; }
      var q := if wLimit < |p| then p[..wLimit] else p;
      var step := w.Write(q);
      wLimit := wLimit - Took(step, |q|);
      if step.Refuse? { err := Some(step.code); }
    }
  }

  // ---------- SkipReader ----------

  type Answers = seq<(nat, ReadError)>

  /** The skip loop of one call: what is left to skip and to read, and the answers it got on the way. */
  datatype Skipped = Skipped(skip: int, rest: seq<byte>, plan: seq<ReadStep>, answers: Answers)

  /** Asks for at most `l` bytes at a time until the skip is used up or an answer carries an error. Bytes beside an
      error are gone, but not counted as skipped. */
  function Discarded(skip: int, rest: seq<byte>, plan: seq<ReadStep>, l: nat): Skipped
    requires l > 0
    decreases |plan| + |rest|
  {
    if skip <= 0 then Skipped(skip, rest, plan, [])
    else
      var a := Answer(rest, plan, Min(l, skip));
      var plan' := Later(plan);
      if a.1 != NoError then Skipped(skip, rest[a.0..], plan', [a])
      else
        var d := Discarded(skip - a.0, rest[a.0..], plan', Min(l, skip));
        d.(answers := [a] + d.answers)
  }

  /** The error the loop ended with. */
  function LastError(answers: Answers): ReadError {
    if answers == [] then NoError else answers[|answers| - 1].1
  }

  /** What the loop leaves behind. */
  function LoopEnd(skip: int, rest: seq<byte>, plan: seq<ReadStep>, l: nat): (int, seq<byte>, seq<ReadStep>, ReadError)
    requires l > 0
  {
    var d := Discarded(skip, rest, plan, l);
    (d.skip, d.rest, d.plan, LastError(d.answers))
  }

  /** One turn of the loop. */
  lemma LoopTurn(skip: int, rest: seq<byte>, plan: seq<ReadStep>, l: nat)
    requires l > 0 && skip > 0
    ensures
      var a, plan' := Answer(rest, plan, Min(l, skip)), Later(plan);
      LoopEnd(skip, rest, plan, l) == if a.1 != NoError then (skip, rest[a.0..], plan', a.1)
                                      else LoopEnd(skip - a.0, rest[a.0..], plan', Min(l, skip))
  {
  }

  /** The reader: `handed` is all the caller got so far. */
  datatype Skipper = Skipper(skip: int, rest: seq<byte>, plan: seq<ReadStep>, handed: seq<byte>)

  datatype Call = Call(next: Skipper, n: nat, err: ReadError, skipping: Answers)

  /** One call with room for `room` bytes. */
  function ReadOnce(s: Skipper, room: nat): Call {
    if room == 0 then Call(s, 0, NoError, [])
    else
      var d := Discarded(s.skip, s.rest, s.plan, room);
      if LastError(d.answers) != NoError then
        Call(Skipper(d.skip, d.rest, d.plan, s.handed), 0, LastError(d.answers), d.answers)
      else
        var a := Answer(d.rest, d.plan, room);
        Call(Skipper(d.skip, d.rest[a.0..], Later(d.plan), s.handed + d.rest[..a.0]),
             a.0, a.1, d.answers)
  }

  function Reads(s: Skipper, rooms: seq<nat>): Skipper
    decreases |rooms|
  {
    if rooms == [] then s else Reads(ReadOnce(s, rooms[0]).next, rooms[1..])
  }

  /** Every answer the source gave while skipping. */
  function SkipAnswers(s: Skipper, rooms: seq<nat>): Answers
    decreases |rooms|
  {
    if rooms == [] then []
    else ReadOnce(s, rooms[0]).skipping + SkipAnswers(ReadOnce(s, rooms[0]).next, rooms[1..])
  }

  /** No failing answer of these carried bytes. */
  predicate FailsEmpty(answers: Answers) { forall a :: a in answers ==> a.1.Failed? ==> a.0 == 0 }

  /** The source from the skip point on. */
  function Tail(whole: seq<byte>, skip: int): seq<byte> { whole[if skip <= 0 then 0 else Min(skip, |whole|)..] }

  // How many bytes came beside errors, and how many beside the end of the source.
  function FailedBytes(answers: Answers): nat {
    if answers == [] then 0 else (if answers[0].1.Failed? then answers[0].0 else 0) + FailedBytes(answers[1..])
  }

  function EofBytes(answers: Answers): nat {
    if answers == [] then 0 else (if answers[0].1.Eof? then answers[0].0 else 0) + EofBytes(answers[1..])
  }

  lemma {:induction false} BytesAppend(a: Answers, b: Answers)
    ensures FailedBytes(a + b) == FailedBytes(a) + FailedBytes(b) && EofBytes(a + b) == EofBytes(a) + EofBytes(b)
    decreases |a|
  {
    if a == [] {
      assert a + b == b;
    } else {
      assert (a + b)[1..] == a[1..] + b;
      BytesAppend(a[1..], b);
    }
  }

  lemma {:induction false} FailsEmptyIff(answers: Answers)
    ensures FailsEmpty(answers) <==> FailedBytes(answers) == 0
    decreases |answers|
  {
    if answers != [] {
      FailsEmptyIff(answers[1..]);
      assert answers == [answers[0]] + answers[1..];
    }
  }

  predicate IsSuffix(a: seq<byte>, whole: seq<byte>) { |a| <= |whole| && a == whole[|whole| - |a|..] }

  /** A skip loop leaves a suffix of the source. */
  lemma {:induction false} DiscardSuffix(skip: int, rest: seq<byte>, plan: seq<ReadStep>, l: nat)
    requires l > 0
    ensures IsSuffix(Discarded(skip, rest, plan, l).rest, rest)
    decreases |Discarded(skip, rest, plan, l).answers|
  {
    if skip > 0 {
      var a, plan' := Answer(rest, plan, Min(l, skip)), Later(plan);
      if a.1 == NoError { DiscardSuffix(skip - a.0, rest[a.0..], plan', Min(l, skip)); }
    }
  }

  /** It ends without an error exactly when nothing is left to skip. */
  lemma {:induction false} DiscardError(skip: int, rest: seq<byte>, plan: seq<ReadStep>, l: nat)
    requires l > 0
    ensures var d := Discarded(skip, rest, plan, l); LastError(d.answers) == NoError <==> d.skip <= 0
    decreases |Discarded(skip, rest, plan, l).answers|
  {
    if skip > 0 {
      var a := Answer(rest, plan, Min(l, skip));
      if a.1 == NoError { DiscardError(skip - a.0, rest[a.0..], Later(plan), Min(l, skip)); }
    }
  }

  /** It has gone past what it counted and what came beside errors. */
  predicate LoopAccounts(skip: int, len: nat, left: int, end: nat, answers: Answers) {
    && len - end == skip - left + FailedBytes(answers) + EofBytes(answers)
    && (if skip <= 0 then left == skip && answers == [] else 0 <= left <= skip)
    && (EofBytes(answers) == 0 || (end == 0 && EofBytes(answers) <= left))
  }

  /** An answer without error only moves on. */
  lemma AnswerInFront(skip: int, len: nat, a: (nat, ReadError), left: int, end: nat, answers: Answers)
    requires a.0 <= skip && 0 < skip && a.0 <= len && a.1 == NoError
    requires LoopAccounts(skip - a.0, len - a.0, left, end, answers)
    ensures LoopAccounts(skip, len, left, end, [a] + answers)
  {
    var all := [a] + answers;
    assert FailedBytes(all) == FailedBytes(answers) && EofBytes(all) == EofBytes(answers);
  }

  lemma ErrorAtEnd(skip: int, len: nat, a: (nat, ReadError))
    requires a.0 <= skip && 0 < skip && a.0 <= len && a.1 != NoError && (a.1 == Eof ==> a.0 == len)
    ensures LoopAccounts(skip, len, skip, len - a.0, [a])
  {
    assert FailedBytes([a]) + EofBytes([a]) == a.0;
  }

  lemma {:induction false} DiscardAccounts(skip: int, rest: seq<byte>, plan: seq<ReadStep>, l: nat)
    requires l > 0
    ensures var d := Discarded(skip, rest, plan, l); LoopAccounts(skip, |rest|, d.skip, |d.rest|, d.answers)
    decreases |Discarded(skip, rest, plan, l).answers|
  {
    if skip > 0 {
      var a, plan' := Answer(rest, plan, Min(l, skip)), Later(plan);
      if a.1 == NoError {
        var d := Discarded(skip - a.0, rest[a.0..], plan', Min(l, skip));
        DiscardAccounts(skip - a.0, rest[a.0..], plan', Min(l, skip));
        AnswerInFront(skip, |rest|, a, d.skip, |d.rest|, d.answers);
      } else {
        ErrorAtEnd(skip, |rest|, a);
      }
    }
  }

  /** What all calls so far keep, when `seen` are the answers given while skipping. */
  predicate Accounted(whole: seq<byte>, skip: int, s: Skipper, seen: Answers) {
    && IsSuffix(s.handed + s.rest, whole)
    && |whole| - |s.handed| - |s.rest| == skip - s.skip + FailedBytes(seen) + EofBytes(seen)
    && (if skip <= 0 then s.skip == skip && seen == [] else 0 <= s.skip <= skip)
    && (s.skip > 0 ==> s.handed == [])
    && (EofBytes(seen) == 0 || (s.rest == [] && EofBytes(seen) <= s.skip))
  }

  lemma SuffixOfSuffix(whole: seq<byte>, handed: seq<byte>, a: seq<byte>, b: seq<byte>)
    requires IsSuffix(handed + a, whole) && handed == [] && IsSuffix(b, a)
    ensures IsSuffix(handed + b, whole)
  {
    assert handed + a == a && handed + b == b;
  }

  lemma DropKeeps(whole: seq<byte>, skip: int, s: Skipper, seen: Answers, d: Skipped)
    requires Accounted(whole, skip, s, seen) && s.skip > 0
    requires IsSuffix(d.rest, s.rest)
    requires LoopAccounts(s.skip, |s.rest|, d.skip, |d.rest|, d.answers)
    ensures Accounted(whole, skip, Skipper(d.skip, d.rest, d.plan, s.handed), seen + d.answers)
  {
    BytesAppend(seen, d.answers);
    SuffixOfSuffix(whole, s.handed, s.rest, d.rest);
  }

  lemma DiscardKeeps(whole: seq<byte>, skip: int, s: Skipper, seen: Answers, room: nat)
    requires Accounted(whole, skip, s, seen) && room > 0
    ensures var d := Discarded(s.skip, s.rest, s.plan, room);
      Accounted(whole, skip, Skipper(d.skip, d.rest, d.plan, s.handed), seen + d.answers)
  {
    if s.skip <= 0 {
      assert seen + [] == seen;
    } else {
      DiscardAccounts(s.skip, s.rest, s.plan, room);
      DiscardSuffix(s.skip, s.rest, s.plan, room);
      DropKeeps(whole, skip, s, seen, Discarded(s.skip, s.rest, s.plan, room));
    }
  }

  lemma HandOutKeeps(whole: seq<byte>, skip: int, s: Skipper, seen: Answers, n: nat, plan: seq<ReadStep>)
    requires Accounted(whole, skip, s, seen) && s.skip <= 0 && n <= |s.rest|
    ensures Accounted(whole, skip, Skipper(s.skip, s.rest[n..], plan, s.handed + s.rest[..n]), seen)
  {
    assert (s.handed + s.rest[..n]) + s.rest[n..] == s.handed + s.rest;
  }

  lemma ReadAccounts(whole: seq<byte>, skip: int, s: Skipper, seen: Answers, room: nat)
    requires Accounted(whole, skip, s, seen)
    ensures var c := ReadOnce(s, room); Accounted(whole, skip, c.next, seen + c.skipping)
  {
    if room == 0 {
      assert seen + [] == seen;
    } else {
      var d := Discarded(s.skip, s.rest, s.plan, room);
      DiscardError(s.skip, s.rest, s.plan, room);
      DiscardKeeps(whole, skip, s, seen, room);
      if LastError(d.answers) == NoError {
        HandOutKeeps(whole, skip, Skipper(d.skip, d.rest, d.plan, s.handed), seen + d.answers, Answer(d.rest, d.plan, room).0,
                     Later(d.plan));
      }
    }
  }

  lemma {:induction false} ReadsAccount(whole: seq<byte>, skip: int, s: Skipper, seen: Answers, rooms: seq<nat>)
    requires Accounted(whole, skip, s, seen)
    ensures Accounted(whole, skip, Reads(s, rooms), seen + SkipAnswers(s, rooms))
    decreases |rooms|
  {
    if rooms == [] {
      assert seen + [] == seen;
    } else {
      var c := ReadOnce(s, rooms[0]);
      ReadAccounts(whole, skip, s, seen, rooms[0]);
      ReadsAccount(whole, skip, c.next, seen + c.skipping, rooms[1..]);
      assert (seen + c.skipping) + SkipAnswers(c.next, rooms[1..]) == seen + SkipAnswers(s, rooms);
    }
  }

  lemma TailWhenNothingFailed(whole: seq<byte>, skip: int, s: Skipper, seen: Answers)
    requires Accounted(whole, skip, s, seen) && (s.skip <= 0 || s.rest == [])
    ensures s.handed + s.rest == Tail(whole, skip) <==> |whole| <= skip || FailedBytes(seen) == 0
  {
    assert |s.handed + s.rest| == |s.handed| + |s.rest|;
    assert |Tail(whole, skip)| == |whole| - (if skip <= 0 then 0 else Min(skip, |whole|));
  }

  /** For every source, every plan of its answers and every sequence of reads: once the skip is over or the source is
      used up, what was handed out and what is left is the source from the skip point on if and only if nothing lies
      beyond that point or no failing answer given while skipping carried bytes. */
  lemma HandsOutTailIff(whole: seq<byte>, plan: seq<ReadStep>, skip: int, rooms: seq<nat>)
    requires var s := Reads(Skipper(skip, whole, plan, []), rooms); s.skip <= 0 || s.rest == []
    ensures
      var s := Skipper(skip, whole, plan, []);
      var t := Reads(s, rooms);
      t.handed + t.rest == Tail(whole, skip) <==> |whole| <= skip || FailsEmpty(SkipAnswers(s, rooms))
  {
    var s := Skipper(skip, whole, plan, []);
    ReadsAccount(whole, skip, s, [], rooms);
    assert [] + SkipAnswers(s, rooms) == SkipAnswers(s, rooms);
    TailWhenNothingFailed(whole, skip, Reads(s, rooms), SkipAnswers(s, rooms));
    FailsEmptyIff(SkipAnswers(s, rooms));
  }

  /** The failing family is not empty: one failing answer with a byte, and the caller gets [3] where [2, 3] is due. */
  lemma FailureEatsBytes()
    ensures
      var s := Skipper(1, [1, 2, 3], [Fail(1, 7)], []);
      var t := Reads(s, [3, 3]);
      && t.skip == 0 && t.rest == [] && t.handed == [3] && Tail([1, 2, 3], 1) == [2, 3]
      && SkipAnswers(s, [3, 3])[0] == (1, Failed(7))
  {
    var s := Skipper(1, [1, 2, 3], [Fail(1, 7)], []);
    var c := ReadOnce(s, 3);
    assert c == Call(Skipper(1, [2, 3], [], []), 0, Failed(7), [(1, Failed(7))]);
    var d := Discarded(1, [2, 3], [], 3);
    assert d == Skipped(0, [3], [], [(1, NoError)]);
    assert ReadOnce(c.next, 3).next == Skipper(0, [], [], [3]);
    assert [3, 3][1..] == [3] && [3][1..] == [];
  }

  lemma NeverFailingAnswer(rest: seq<byte>, plan: seq<ReadStep>, room: nat)
    requires NeverFails(plan)
    ensures NeverFails(Later(plan)) && !Answer(rest, plan, room).1.Failed?
  {
  }

  lemma {:induction false} NeverFailingPlan(skip: int, rest: seq<byte>, plan: seq<ReadStep>, l: nat)
    requires l > 0 && NeverFails(plan)
    ensures NeverFails(Discarded(skip, rest, plan, l).plan)
    decreases |Discarded(skip, rest, plan, l).answers|
  {
    if skip > 0 {
      var a, next := Answer(rest, plan, Min(l, skip)), Later(plan);
      NeverFailingAnswer(rest, plan, Min(l, skip));
      if a.1 == NoError { NeverFailingPlan(skip - a.0, rest[a.0..], next, Min(l, skip)); }
    }
  }

  lemma {:induction false} NeverFailingDiscard(skip: int, rest: seq<byte>, plan: seq<ReadStep>, l: nat)
    requires l > 0 && NeverFails(plan)
    ensures FailedBytes(Discarded(skip, rest, plan, l).answers) == 0
    decreases |Discarded(skip, rest, plan, l).answers|
  {
    if skip > 0 {
      var a, next := Answer(rest, plan, Min(l, skip)), Later(plan);
      NeverFailingAnswer(rest, plan, Min(l, skip));
      if a.1 == NoError { NeverFailingDiscard(skip - a.0, rest[a.0..], next, Min(l, skip)); }
    }
  }

  /** A source that never fails meets the condition. */
  lemma {:induction false} NeverFailingAnswers(s: Skipper, rooms: seq<nat>)
    requires NeverFails(s.plan)
    ensures FailsEmpty(SkipAnswers(s, rooms))
    decreases |rooms|
  {
    if rooms != [] {
      if rooms[0] > 0 {
        var d := Discarded(s.skip, s.rest, s.plan, rooms[0]);
        NeverFailingDiscard(s.skip, s.rest, s.plan, rooms[0]);
        NeverFailingPlan(s.skip, s.rest, s.plan, rooms[0]);
        NeverFailingAnswer(d.rest, d.plan, rooms[0]);
        FailsEmptyIff(d.answers);
      }
      NeverFailingAnswers(ReadOnce(s, rooms[0]).next, rooms[1..]);
    }
  }

  lemma {:induction false} PlainDiscard(skip: int, rest: seq<byte>, l: nat)
    requires l > 0
    ensures var d := Discarded(skip, rest, [], l);
      if skip <= 0 then d == Skipped(skip, rest, [], [])
      else if skip <= |rest| then (d.skip, d.rest, d.plan, LastError(d.answers)) == (0, rest[skip..], [], NoError)
      else (d.rest, d.plan, LastError(d.answers)) == ([], [], Eof)
    decreases |rest|
  {
    if skip > 0 && rest != [] {
      var n := Min(Min(l, skip), |rest|);
      PlainDiscard(skip - n, rest[n..], Min(l, skip));
      assert Answer(rest, [], Min(l, skip)) == (n, NoError);
      var d := Discarded(skip - n, rest[n..], [], Min(l, skip));
      assert Discarded(skip, rest, [], l) == d.(answers := [(n, NoError)] + d.answers);
      if skip <= |rest| { assert rest[n..][skip - n..] == rest[skip..]; }
    }
  }

  /** A source that hands over all it can: the caller gets the bytes behind the skip point as room allows, and the end
      exactly when there are none. */
  lemma PlainRead(rest: seq<byte>, skip: int, handed: seq<byte>, room: nat)
    requires room > 0
    ensures
      var c, k := ReadOnce(Skipper(skip, rest, [], handed), room), if skip <= 0 then 0 else skip;
      if |rest| <= k then c.n == 0 && c.err == Eof && c.next.rest == [] && c.next.handed == handed
      else
        var n := Min(room, |rest| - k);
        c.n == n && c.err == NoError && c.next.rest == rest[k + n..] && c.next.handed == handed + rest[k..k + n]
  {
    PlainDiscard(skip, rest, room);
    assert handed + [] == handed;
  }

  /** The steps of the plan a call used. */
  function Used(before: seq<ReadStep>, after: seq<ReadStep>): seq<ReadStep>
    requires IsEnd(after, before)
  {
    before[..|before| - |after|]
  }

  predicate IsEnd(after: seq<ReadStep>, before: seq<ReadStep>) {
    |after| <= |before| && after == before[|before| - |after|..]
  }

  lemma UsedInTwo(before: seq<ReadStep>, between: seq<ReadStep>, after: seq<ReadStep>)
    requires IsEnd(between, before) && IsEnd(after, between)
    ensures IsEnd(after, before) && Used(before, after) == Used(before, between) + Used(between, after)
  {
  }

  /** A failing step among those used is the last of them, and is what the call reports; nothing else is reported as a
      failure. */
  predicate Reports(used: seq<ReadStep>, err: ReadError) {
    if used == [] then !err.Failed?
    else if used[0].Fail? then |used| == 1 && err == Failed(used[0].code)
    else Reports(used[1..], err)
  }

  lemma OneAnswerReports(rest: seq<byte>, plan: seq<ReadStep>, room: nat)
    ensures IsEnd(Later(plan), plan) && Reports(Used(plan, Later(plan)), Answer(rest, plan, room).1)
  {
    if plan != [] { assert Used(plan, Later(plan)) == [plan[0]]; }
  }

  /** A stretch that reported no failure, then another. */
  lemma {:induction false} ReportsAppend(a: seq<ReadStep>, first: ReadError, b: seq<ReadStep>, err: ReadError)
    requires Reports(a, first) && !first.Failed? && Reports(b, err)
    ensures Reports(a + b, err)
    decreases |a|
  {
    if a == [] {
      assert a + b == b;
    } else {
      assert (a + b)[1..] == a[1..] + b;
      ReportsAppend(a[1..], first, b, err);
    }
  }

  lemma ReportsInTwo(before: seq<ReadStep>, between: seq<ReadStep>, after: seq<ReadStep>, first: ReadError, err: ReadError)
    requires IsEnd(between, before) && IsEnd(after, between) && !first.Failed?
    requires Reports(Used(before, between), first) && Reports(Used(between, after), err)
    ensures IsEnd(after, before) && Reports(Used(before, after), err)
  {
    UsedInTwo(before, between, after);
    ReportsAppend(Used(before, between), first, Used(between, after), err);
  }

  lemma {:induction false} DiscardReports(skip: int, rest: seq<byte>, plan: seq<ReadStep>, l: nat)
    requires l > 0
    ensures var d := Discarded(skip, rest, plan, l);
      IsEnd(d.plan, plan) && Reports(Used(plan, d.plan), LastError(d.answers))
    decreases |Discarded(skip, rest, plan, l).answers|
  {
    if skip > 0 {
      var a, next := Answer(rest, plan, Min(l, skip)), Later(plan);
      OneAnswerReports(rest, plan, Min(l, skip));
      if a.1 == NoError {
        var d := Discarded(skip - a.0, rest[a.0..], next, Min(l, skip));
        DiscardReports(skip - a.0, rest[a.0..], next, Min(l, skip));
        ReportsInTwo(plan, next, d.plan, a.1, LastError(d.answers));
      }
    }
  }

  /** Every call reports the failing answer it met, in the skip or after it, and makes up no failure; it reports the end
      only when the source is used up. */
  lemma ErrorsAreReported(s: Skipper, room: nat)
    ensures var c := ReadOnce(s, room);
      && IsEnd(c.next.plan, s.plan) && Reports(Used(s.plan, c.next.plan), c.err)
      && (c.err == Eof ==> c.next.rest == [])
  {
    var c := ReadOnce(s, room);
    if room > 0 {
      var d := Discarded(s.skip, s.rest, s.plan, room);
      DiscardReports(s.skip, s.rest, s.plan, room);
      DiscardEof(s.skip, s.rest, s.plan, room);
      if LastError(d.answers) == NoError {
        var a := Answer(d.rest, d.plan, room);
        OneAnswerReports(d.rest, d.plan, room);
        ReportsInTwo(s.plan, d.plan, Later(d.plan), NoError, a.1);
        assert c.next.plan == Later(d.plan) && c.err == a.1;
      } else {
        assert c.next.plan == d.plan && c.err == LastError(d.answers);
      }
    } else {
      assert Used(s.plan, s.plan) == [];
    }
  }

  lemma {:induction false} DiscardEof(skip: int, rest: seq<byte>, plan: seq<ReadStep>, l: nat)
    requires l > 0
    ensures var d := Discarded(skip, rest, plan, l); LastError(d.answers) == Eof ==> d.rest == []
    decreases |Discarded(skip, rest, plan, l).answers|
  {
    if skip > 0 {
      var a := Answer(rest, plan, Min(l, skip));
      if a.1 == NoError { DiscardEof(skip - a.0, rest[a.0..], Later(plan), Min(l, skip)); }
    }
  }

  class SkipReader {
    const src: Source
    var skipCount: int
    ghost var handed: seq<byte>

    ghost function View(): Skipper
      reads this, src
    {
      Skipper(skipCount, src.rest, src.plan, handed)
    }

    constructor (src: Source, skip: int)
      ensures this.src == src && View() == Skipper(skip, src.rest, src.plan, [])
    {
      this.src, skipCount, handed := src, skip, [];
    }

    /** One read of the skip loop. */
    method DiscardOnce(p: array<byte>, l: nat) returns (n: nat, err: ReadError)
      requires 0 < l <= p.Length && skipCount > 0
      modifies src, p
      ensures err != Eof ==> |src.plan| + |src.rest| < old(|src.plan| + |src.rest|)
      ensures LoopEnd(skipCount, old(src.rest), old(src.plan), l)
           == if err != NoError then (skipCount, src.rest, src.plan, err)
              else LoopEnd(skipCount - n, src.rest, src.plan, Min(l, skipCount))
    {
      LoopTurn(skipCount, src.rest, src.plan, l);
      n, err := src.Read(p, 0, Min(l, skipCount));
    }

    /** Drops what is still to be skipped; an error ends the call. */
    method Discard(p: array<byte>) returns (err: ReadError)
      requires p.Length > 0
      modifies this`skipCount, src, p
      ensures
        (skipCount, src.rest, src.plan, err) == LoopEnd(old(skipCount), old(src.rest), old(src.plan), p.Length)
    {
      err := NoError;
      var l := p.Length;
      ghost var end := LoopEnd(skipCount, src.rest, src.plan, l);
      while skipCount > 0
        invariant 0 < l <= p.Length && err == NoError && LoopEnd(skipCount, src.rest, src.plan, l) == end
        decreases |src.plan| + |src.rest|
      {
        var n;
        n, err := DiscardOnce(p, l);
        if l > skipCount { l := skipCount; }
        if err != NoError { return; }
        skipCount := skipCount - n;
      }
    }

    method Read(p: array<byte>) returns (n: nat, err: ReadError)
      modifies this`skipCount, this`handed, src, p
      ensures
        var c := ReadOnce(old(View()), p.Length);
        View() == c.next && n == c.n && err == c.err
      ensures n <= p.Length && handed == old(handed) + p[..n]
    {
      n, err := 0, NoError;
      if p.Length > 0 {
        err := Discard(p);
        if err == NoError {
          ghost var rest := src.rest;
          n, err := src.Read(p, 0, p.Length);
          assert p[..n] == rest[..n];
          handed := handed + p[..n];
        }
      }
    }
  }
}
