/** Readers and writers that answer in pieces, with errors, as Go's io interfaces allow. */
module Streams {
  import opened Bytes

  datatype ReadError = NoError | Eof | Failed(code: int)

  /** How the reader answers one call: at most `n` bytes, with end-of-file as soon as
      nothing is left when `eof`, or with an error beside the bytes. */
  datatype ReadStep = Deliver(n: nat, eof: bool) | Fail(n: nat, code: int)

  function Min(a: nat, b: nat): nat { if a <= b then a else b }

  /** The number of bytes and the error the next call returns for `room` free bytes. */
  function Answer(rest: seq<byte>, plan: seq<ReadStep>, room: nat): (a: (nat, ReadError))
    ensures a.0 <= room && a.0 <= |rest|
    ensures a.1 == Eof ==> a.0 == |rest|
    ensures a.1 != Eof && room > 0 && plan == [] ==> a.0 > 0
  {
    if plan == [] then (Min(room, |rest|), if rest == [] then Eof else NoError)
    else
      var n := Min(plan[0].n, Min(room, |rest|));
      match plan[0]
      case Deliver(_, eof) => (n, if eof && n == |rest| then Eof else NoError)
      case Fail(_, code) => (n, Failed(code))
  }

  /** The answers after the next one. */
  function Later(plan: seq<ReadStep>): seq<ReadStep> { if plan == [] then [] else plan[1..] }

  predicate NeverFails(plan: seq<ReadStep>) {
    forall step :: step in plan ==> step.Deliver?
  }

  // ---------- Several reads in a row ----------

  /** A source as a value. */
  datatype Tape = Tape(rest: seq<byte>, plan: seq<ReadStep>)

  function ReadOf(t: Tape, room: nat): Tape { Tape(t.rest[Answer(t.rest, t.plan, room).0..], Later(t.plan)) }

  /** The reads made so far, each with its free bytes. */
  datatype Log = NoReads | OneMore(earlier: Log, room: nat)

  function Count(log: Log): nat {
    match log
    case NoReads => 0
    case OneMore(earlier, _) => Count(earlier) + 1
  }

  function AfterReads(t: Tape, log: Log): Tape {
    match log
    case NoReads => t
    case OneMore(earlier, room) => ReadOf(AfterReads(t, earlier), room)
  }

  /** The error of the last of these reads. */
  function LastRead(t: Tape, log: Log): ReadError {
    match log
    case NoReads => NoError
    case OneMore(earlier, room) => Answer(AfterReads(t, earlier).rest, AfterReads(t, earlier).plan, room).1
  }

  /** All of these reads are into some room and none fails. */
  predicate Smooth(t: Tape, log: Log) {
    match log
    case NoReads => true
    case OneMore(earlier, room) => Smooth(t, earlier) && room > 0 && !LastRead(t, log).Failed?
  }

  /** `now` is where these reads lead; the last one fails as `err` does, the others do not. */
  predicate Followed(t: Tape, log: Log, now: Tape, err: ReadError) {
    && now == AfterReads(t, log)
    && if err.Failed? then log.OneMore? && Smooth(t, log.earlier) && log.room > 0 && LastRead(t, log) == err
       else Smooth(t, log)
  }

  /** How many bytes were unread before the last of these reads. */
  function UnreadBefore(t: Tape, log: Log): nat
    requires log.OneMore?
  {
    |AfterReads(t, log.earlier).rest|
  }

  lemma FollowedByRead(t: Tape, log: Log, now: Tape, room: nat)
    requires Followed(t, log, now, NoError) && room > 0
    ensures Followed(t, OneMore(log, room), ReadOf(now, room), Answer(now.rest, now.plan, room).1)
    ensures UnreadBefore(t, OneMore(log, room)) == |now.rest|
  {
  }

  /** The k-th step of the plan, counted from one, is a failure with this code. */
  predicate FailsAt(plan: seq<ReadStep>, k: nat, code: int) {
    0 < k <= |plan| && plan[k - 1].Fail? && plan[k - 1].code == code
  }

  lemma {:induction false} PlanAfter(t: Tape, log: Log)
    ensures AfterReads(t, log).plan == t.plan[Min(Count(log), |t.plan|)..]
  {
    if log.OneMore? { PlanAfter(t, log.earlier); }
  }

  /** The reads answer the plan in order: the last one fails with this code if and only if its step says so. */
  lemma LastReadFails(t: Tape, log: Log, code: int)
    ensures LastRead(t, log) == Failed(code) <==> FailsAt(t.plan, Count(log), code)
  {
    if log.OneMore? {
      PlanAfter(t, log.earlier);
      if Count(log) <= |t.plan| { assert t.plan[Count(log) - 1..][0] == t.plan[Count(log) - 1]; }
    }
  }

  lemma NeverFailsAt(plan: seq<ReadStep>, k: nat)
    requires NeverFails(plan)
    ensures forall code :: !FailsAt(plan, k, code)
  {
    if 0 < k <= |plan| { assert plan[k - 1] in plan; }
  }

  lemma NeverFailsSnoc(plan: seq<ReadStep>, step: ReadStep)
    ensures NeverFails(plan + [step]) <==> NeverFails(plan) && step.Deliver?
  {
    assert step in plan + [step];
    assert forall x :: x in plan ==> x in plan + [step];
  }

  /** And if none fails, the steps they used all deliver. */
  lemma {:induction false} SmoothUsesDeliveries(t: Tape, log: Log)
    requires Smooth(t, log)
    ensures NeverFails(t.plan[..Min(Count(log), |t.plan|)])
  {
    if log.OneMore? {
      var n := Count(log);
      SmoothUsesDeliveries(t, log.earlier);
      if n <= |t.plan| {
        NeverFailsSnoc(t.plan[..n - 1], t.plan[n - 1]);
        assert t.plan[..n] == t.plan[..n - 1] + [t.plan[n - 1]];
        if t.plan[n - 1].Fail? { LastReadFails(t, log, t.plan[n - 1].code); }
      }
    }
  }

  /** A byte source. The plan is any finite list of answers; once it is used up the source
      hands over all it can. Every terminating sequence of reads is some plan. */
  class Source {
    var rest: seq<byte>
    var plan: seq<ReadStep>

    function View(): Tape
      reads this
    {
      Tape(rest, plan)
    }

    constructor (data: seq<byte>, plan: seq<ReadStep>)
      ensures rest == data && this.plan == plan
    {
      rest, this.plan := data, plan;
    }

    /** Reads into the slice `buf[from..to]`, which must not be empty. */
    method Read(buf: array<byte>, from: nat, to: nat) returns (n: nat, err: ReadError)
      requires from < to <= buf.Length
      modifies this, buf
      ensures (n, err) == Answer(old(rest), old(plan), to - from)
      ensures rest == old(rest)[n..]
      ensures plan == Later(old(plan)) && View() == ReadOf(old(View()), to - from)
      ensures buf[..] == old(buf[..from]) + old(rest)[..n] + old(buf[from + n..])
      ensures err != Eof ==> |plan| + |rest| < old(|plan| + |rest|)
    {
      var a := Answer(rest, plan, to - from);
      n, err := a.0, a.1;
      var i := 0;
      while i < n
        invariant i <= n
        invariant rest == old(rest) && plan == old(plan)
        invariant buf[..] == old(buf[..from]) + old(rest)[..i] + old(buf[from + i..])
      {
        buf[from + i] := rest[i];
        i := i + 1;
      }
      rest := rest[n..];
      if plan != [] { plan := plan[1..]; }
    }
  }

  /** How a writer answers one call: `Accept` takes everything, the others take at most `n` bytes. */
  datatype WriteStep = Accept | Partial(n: nat) | Refuse(n: nat, code: int)

  /** The next answer of a plan, which accepts once it is used up, and the answers after it. */
  function AnswerTo(sink: seq<WriteStep>): WriteStep { if sink == [] then Accept else sink[0] }
  function Rest(sink: seq<WriteStep>): seq<WriteStep> { if sink == [] then [] else sink[1..] }

  /** How many of `len` bytes are taken. */
  function Took(step: WriteStep, len: nat): (n: nat)
    ensures n <= len
  {
    if step.Accept? then len else Min(step.n, len)
  }

  /** `taken` are the buffers written, `got` the bytes that were accepted of them. */
  class Sink {
    var plan: seq<WriteStep>
    var taken: seq<seq<byte>>
    var got: seq<byte>

    constructor (plan: seq<WriteStep>)
      ensures this.plan == plan && taken == [] && got == []
    {
      this.plan, taken, got := plan, [], [];
    }

    method Write(p: seq<byte>) returns (step: WriteStep)
      modifies this
      ensures step == AnswerTo(old(plan)) && plan == Rest(old(plan))
      ensures taken == old(taken) + [p] && got == old(got) + p[..Took(step, |p|)]
    {
      step := AnswerTo(plan);
      plan := Rest(plan);
      taken := taken + [p];
      got := got + p[..Took(step, |p|)];
    }
  }
}
