/** The multiplexed log stream: frames, the whole-stream parser, and `StdCopy` over split reads. */
module StdCopy {
  import opened Bytes
  import opened Streams
  import opened Wrappers
  import opened Confound

  const PREFIX_LEN: nat := 8
  const SIZE_INDEX: nat := 4
  const STARTING_BUF_LEN: nat := 32 * 1024 + PREFIX_LEN + 1

  /** Stdin is 0 and Stdout 1; all three go to the same writer. */
  const STDERR: byte := 2
  const SYSTEMERR: byte := 3

  // ---------- The whole-stream parser ----------

  datatype Outcome =
    | EndOfStream
    | DaemonError(text: seq<byte>)
    | UnknownType(tag: byte)
    | ShortWrite
    | WriteFailed(code: int)
    | ReadFailed(code: int)

  /** The payloads handed to `outFun`, in order, and why copying stopped. */
  datatype Copied = Copied(frames: seq<seq<byte>>, outcome: Outcome)

  function FrameSize(s: seq<byte>): nat
    requires |s| >= PREFIX_LEN
  {
    FromBigEndian32(s[SIZE_INDEX..SIZE_INDEX + 4])
  }

  predicate HasFrame(s: seq<byte>) {
    |s| >= PREFIX_LEN && |s| >= PREFIX_LEN + FrameSize(s)
  }

  function Payload(s: seq<byte>): seq<byte>
    requires HasFrame(s)
  {
    s[PREFIX_LEN..PREFIX_LEN + FrameSize(s)]
  }

  function Prepend(frames: seq<seq<byte>>, c: Copied): Copied {
    c.(frames := frames + c.frames)
  }

  /** What copying the whole stream `s` does, when `sink` lists the writer's answers. */
  function Parse(s: seq<byte>, sink: seq<WriteStep>): Copied
    decreases |s|
  {
    if |s| < PREFIX_LEN then Copied([], EndOfStream)
    else if s[0] > SYSTEMERR then Copied([], UnknownType(s[0]))
    else if !HasFrame(s) then Copied([], EndOfStream)
    else if s[0] == SYSTEMERR then Copied([], DaemonError(Payload(s)))
    else
      match AnswerTo(sink)
      case Refuse(_, code) => Copied([Payload(s)], WriteFailed(code))
      case Partial(n) =>
        if n != FrameSize(s) then Copied([Payload(s)], ShortWrite)
        else Prepend([Payload(s)], Parse(s[PREFIX_LEN + FrameSize(s)..], Rest(sink)))
      case Accept => Prepend([Payload(s)], Parse(s[PREFIX_LEN + FrameSize(s)..], Rest(sink)))
  }

  /** Errors of the reader, the writer or the header reset the reported count. */
  function Written(c: Copied): nat {
    if c.outcome.EndOfStream? || c.outcome.DaemonError? then |Concat(c.frames)| else 0
  }

  // ---------- An independent account of the same stream ----------

  /** A complete frame: the three bytes after the type are free, the size field names the payload. */
  predicate IsRaw(raw: seq<byte>, tag: byte, payload: seq<byte>) {
    && |raw| == PREFIX_LEN + |payload|
    && raw[0] == tag
    && FromBigEndian32(raw[SIZE_INDEX..SIZE_INDEX + 4]) == |payload|
    && raw[PREFIX_LEN..] == payload
  }

  /** A frame of an ordinary stream. */
  predicate IsFrame(raw: seq<byte>, payload: seq<byte>) {
    |raw| > 0 && raw[0] <= STDERR && IsRaw(raw, raw[0], payload)
  }

  /** Nothing can be delivered from `tail`, and this is why. */
  predicate StopsAt(tail: seq<byte>, why: Outcome) {
    if |tail| < PREFIX_LEN then why == EndOfStream
    else if tail[0] > SYSTEMERR then why == UnknownType(tail[0])
    else if |tail| < PREFIX_LEN + FrameSize(tail) then why == EndOfStream
    else tail[0] == SYSTEMERR && why == DaemonError(tail[PREFIX_LEN..PREFIX_LEN + FrameSize(tail)])
  }

  /** `s` is cut into `raws`, frames of the given payloads, and a tail that stops the copy. */
  predicate Splits(s: seq<byte>, raws: seq<seq<byte>>, frames: seq<seq<byte>>, tail: seq<byte>, why: Outcome) {
    && s == Concat(raws) + tail
    && |raws| == |frames|
    && (forall i :: 0 <= i < |raws| ==> IsFrame(raws[i], frames[i]))
    && StopsAt(tail, why)
  }

  lemma HeadIsFrame(s: seq<byte>)
    requires HasFrame(s) && s[0] <= STDERR
    ensures IsFrame(s[..PREFIX_LEN + FrameSize(s)], Payload(s))
  {
    assert s[..PREFIX_LEN + FrameSize(s)][SIZE_INDEX..SIZE_INDEX + 4] == s[SIZE_INDEX..SIZE_INDEX + 4];
  }

  lemma SplitsCons(raw: seq<byte>, frame: seq<byte>, s: seq<byte>, raws: seq<seq<byte>>, frames: seq<seq<byte>>,
                   tail: seq<byte>, why: Outcome)
    requires IsFrame(raw, frame) && Splits(s, raws, frames, tail, why)
    ensures Splits(raw + s, [raw] + raws, [frame] + frames, tail, why)
  {
    assert ([raw] + raws)[1..] == raws;
    assert raw + (Concat(raws) + tail) == (raw + Concat(raws)) + tail;
  }

  /** Every stream splits that way, with the frames and the outcome of `Parse`. */
  lemma {:induction false} ParseSplits(s: seq<byte>) returns (raws: seq<seq<byte>>, tail: seq<byte>)
    ensures Splits(s, raws, Parse(s, []).frames, tail, Parse(s, []).outcome)
    decreases |s|
  {
    if HasFrame(s) && s[0] <= STDERR {
      var k := PREFIX_LEN + FrameSize(s);
      var more;
      more, tail := ParseSplits(s[k..]);
      raws := [s[..k]] + more;
      HeadIsFrame(s);
      var c := Parse(s[k..], []);
      SplitsCons(s[..k], Payload(s), s[k..], more, c.frames, tail, c.outcome);
      assert s == s[..k] + s[k..];
    } else {
      raws, tail := [], s;
    }
  }

  /** One frame in front of any stream is parsed first, whatever follows. */
  lemma ParseFrame(raw: seq<byte>, payload: seq<byte>, x: seq<byte>, sink: seq<WriteStep>)
    requires IsFrame(raw, payload)
    requires AnswerTo(sink).Accept? || AnswerTo(sink) == Partial(|payload|)
    ensures Parse(raw + x, sink) == Prepend([payload], Parse(x, Rest(sink)))
  {
  }

  /** A frame the writer refuses, or takes only in part, is the last one; its message has gone out. */
  lemma UntakenFrameStops(raw: seq<byte>, payload: seq<byte>, x: seq<byte>, sink: seq<WriteStep>)
    requires IsFrame(raw, payload)
    ensures AnswerTo(sink).Refuse? ==> Parse(raw + x, sink) == Copied([payload], WriteFailed(AnswerTo(sink).code))
    ensures AnswerTo(sink).Partial? && AnswerTo(sink).n != |payload| ==> Parse(raw + x, sink) == Copied([payload], ShortWrite)
  {
  }

  /** The split is the only one: any split of `s` carries exactly what `Parse` delivers. */
  lemma {:induction false} SplitsAreParsed(
    s: seq<byte>, raws: seq<seq<byte>>, frames: seq<seq<byte>>, tail: seq<byte>, why: Outcome)
    requires Splits(s, raws, frames, tail, why)
    ensures Parse(s, []) == Copied(frames, why)
    decreases |raws|
  {
    if raws == [] {
      assert s == tail;
    } else {
      var x := Concat(raws[1..]) + tail;
      SplitsAreParsed(x, raws[1..], frames[1..], tail, why);
      ConcatHead(raws, tail);
      ParseFrame(raws[0], frames[0], x, []);
      assert frames == [frames[0]] + frames[1..];
    }
  }

  // ---------- stdWriter and the round trip ----------

  /** The bytes `stdWriter.Write` sends for one payload; the size field is `uint32(len(p))`. */
  function Encode(prefix: byte, p: seq<byte>): (raw: seq<byte>)
    ensures |raw| == PREFIX_LEN + |p|
  {
    [prefix, 0, 0, 0] + BigEndian32(|p|) + p
  }

  /** The header names the payload exactly when its length fits in 32 bits. */
  lemma EncodedIsRaw(prefix: byte, p: seq<byte>)
    ensures IsRaw(Encode(prefix, p), prefix, p) <==> |p| < TWO32
    ensures Encode(prefix, p)[1..SIZE_INDEX] == [0, 0, 0]
  {
    var raw := Encode(prefix, p);
    assert raw[SIZE_INDEX..SIZE_INDEX + 4] == BigEndian32(|p|);
    BigEndianRoundTrip(|p|);
    assert raw[PREFIX_LEN..] == p;
  }

  function EncodeAll(msgs: seq<(byte, seq<byte>)>): seq<seq<byte>> {
    seq(|msgs|, i requires 0 <= i < |msgs| => Encode(msgs[i].0, msgs[i].1))
  }

  function Payloads(msgs: seq<(byte, seq<byte>)>): seq<seq<byte>> {
    seq(|msgs|, i requires 0 <= i < |msgs| => msgs[i].1)
  }

  /** Round trip: framed payloads come back in order, whatever stop follows them. */
  lemma RoundTrip(msgs: seq<(byte, seq<byte>)>, tail: seq<byte>, why: Outcome)
    requires forall m :: m in msgs ==> m.0 <= STDERR && |m.1| < TWO32
    requires StopsAt(tail, why)
    ensures Parse(Concat(EncodeAll(msgs)) + tail, []) == Copied(Payloads(msgs), why)
    ensures why == EndOfStream ==>
      Written(Parse(Concat(EncodeAll(msgs)) + tail, [])) == |Concat(Payloads(msgs))|
  {
    forall i | 0 <= i < |msgs| ensures IsFrame(EncodeAll(msgs)[i], Payloads(msgs)[i]) {
      assert msgs[i] in msgs;
      EncodedIsRaw(msgs[i].0, msgs[i].1);
    }
    SplitsAreParsed(Concat(EncodeAll(msgs)) + tail, EncodeAll(msgs), Payloads(msgs), tail, why);
  }

  /** A cut-off frame never delivers anything and is not an error. */
  lemma TruncatedFrameStops(raw: seq<byte>, tag: byte, p: seq<byte>, cut: nat)
    requires tag <= SYSTEMERR && IsRaw(raw, tag, p) && cut < |raw|
    ensures StopsAt(raw[..cut], EndOfStream)
  {
  }

  /** A complete Systemerr frame stops the copy with its payload as the error. */
  lemma DaemonFrameStops(raw: seq<byte>, p: seq<byte>, more: seq<byte>)
    requires IsRaw(raw, SYSTEMERR, p)
    ensures StopsAt(raw + more, DaemonError(p))
  {
  }

  datatype WriteResult = NotInstantiated | Sent(n: nat, code: Option<int>)

  /** `stdWriter.Write`: a nil payload sends nothing, otherwise header and payload leave in one write. */
  method WriteFrame(w: Option<Sink>, prefix: byte, p: Option<seq<byte>>) returns (r: WriteResult)
    modifies if w.Some? then {w.value} else {}
    ensures w.None? <==> r.NotInstantiated?
    ensures w.Some? && p.None? ==> r == Sent(0, None) && w.value.taken == old(w.value.taken)
    ensures w.Some? && p.Some? ==>
      && w.value.taken == old(w.value.taken) + [Encode(prefix, p.value)]
      && r == match AnswerTo(old(w.value.plan))
              case Accept => Sent(|p.value|, None)
              case Partial(n) => Sent(if n < PREFIX_LEN then 0 else n - PREFIX_LEN, None)
              case Refuse(n, code) => Sent(if n < PREFIX_LEN then 0 else n - PREFIX_LEN, Some(code))
  {
    if w.None? { return NotInstantiated; }
    if p.None? { return Sent(0, None); }
    var header := new byte[PREFIX_LEN](_ => 0);
    header[0] := prefix;
    var size := BigEndian32(|p.value|);
    header[SIZE_INDEX], header[SIZE_INDEX + 1], header[SIZE_INDEX + 2], header[SIZE_INDEX + 3]
      := size[0], size[1], size[2], size[3];
    var buf := header[..] + p.value;
    assert header[..] == [prefix, 0, 0, 0] + size;
    var step := w.value.Write(buf);
    match step
    case Accept => r := Sent(|p.value|, None);
    case Partial(n) => r := Sent(if n < PREFIX_LEN then 0 else n - PREFIX_LEN, None);
    case Refuse(n, code) => r := Sent(if n < PREFIX_LEN then 0 else n - PREFIX_LEN, Some(code));
  }

  // ---------- Resuming after a prefix ----------

  /** The frames `raws` carry `frames`, and a writer that starts at `sink0` takes them all and is then at `sink`. */
  predicate Accepted(raws: seq<seq<byte>>, frames: seq<seq<byte>>, sink0: seq<WriteStep>, sink: seq<WriteStep>) {
    if raws == [] || frames == [] then raws == [] && frames == [] && sink == sink0
    else
      && IsFrame(raws[0], frames[0])
      && (AnswerTo(sink0).Accept? || AnswerTo(sink0) == Partial(|frames[0]|))
      && Accepted(raws[1..], frames[1..], Rest(sink0), sink)
  }

  lemma {:induction false} AcceptedSnoc(raws: seq<seq<byte>>, frames: seq<seq<byte>>, sink0: seq<WriteStep>,
                                        sink: seq<WriteStep>, raw: seq<byte>, l: seq<byte>)
    requires Accepted(raws, frames, sink0, sink) && IsFrame(raw, l)
    requires AnswerTo(sink).Accept? || AnswerTo(sink) == Partial(|l|)
    ensures Accepted(raws + [raw], frames + [l], sink0, Rest(sink))
    decreases |raws|
  {
    if raws == [] || frames == [] {
      assert [raw][1..] == [] && [l][1..] == [];
      assert Accepted([], [], Rest(sink0), Rest(sink));
    } else {
      AcceptedSnoc(raws[1..], frames[1..], Rest(sink0), sink, raw, l);
      assert (raws + [raw])[1..] == raws[1..] + [raw] && (frames + [l])[1..] == frames[1..] + [l];
    }
  }

  lemma ConcatHead(raws: seq<seq<byte>>, x: seq<byte>)
    requires raws != []
    ensures Concat(raws) + x == raws[0] + (Concat(raws[1..]) + x)
  {
  }

  /** After accepted frames, copying any continuation behaves like copying that continuation alone. */
  lemma {:induction false} Resumes(raws: seq<seq<byte>>, frames: seq<seq<byte>>, sink0: seq<WriteStep>,
                                   sink: seq<WriteStep>, x: seq<byte>, c: Copied)
    requires Accepted(raws, frames, sink0, sink) && Parse(x, sink) == c
    ensures Parse(Concat(raws) + x, sink0) == Prepend(frames, c)
    decreases |raws|
  {
    if raws == [] || frames == [] {
      assert [] + x == x && [] + c.frames == c.frames;
    } else {
      var y := Concat(raws[1..]) + x;
      Resumes(raws[1..], frames[1..], Rest(sink0), sink, x, c);
      ConcatHead(raws, x);
      ResumesOne(Concat(raws) + x, frames, raws[0], sink0, y, c);
    }
  }

  lemma PrependTwice(a: seq<seq<byte>>, b: seq<seq<byte>>, c: Copied)
    ensures Prepend(a, Prepend(b, c)) == Prepend(a + b, c)
  {
  }

  lemma ResumesOne(s: seq<byte>, frames: seq<seq<byte>>, raw: seq<byte>, sink: seq<WriteStep>, y: seq<byte>, c: Copied)
    requires frames != [] && IsFrame(raw, frames[0]) && (AnswerTo(sink).Accept? || AnswerTo(sink) == Partial(|frames[0]|))
    requires s == raw + y && Parse(y, Rest(sink)) == Prepend(frames[1..], c)
    ensures Parse(s, sink) == Prepend(frames, c)
  {
    ParseFrame(raw, frames[0], y, sink);
    PrependTwice([frames[0]], frames[1..], c);
    assert [frames[0]] + frames[1..] == frames;
  }

  // ---------- StdCopy ----------

  /** `out` holds, in order, one log message per delivered frame. */
  ghost predicate Delivers(frames: seq<seq<byte>>, limit: int, out: seq<seq<byte>>) {
    |out| == |frames| && forall i :: 0 <= i < |out| ==> IsLogMessage(frames[i], limit, out[i])
  }

  /** The result of one run: `seen` is the part of the stream that counts, all of it unless a read failed. */
  ghost predicate Refines(whole: seq<byte>, sink: seq<WriteStep>, limit: int, left: seq<byte>,
                          seen: seq<byte>, written: nat, outcome: Outcome, out: seq<seq<byte>>)
  {
    var c := Parse(seen, sink);
    && Delivers(c.frames, limit, out)
    && (!outcome.ReadFailed? ==> seen == whole && outcome == c.outcome && written == Written(c))
    && (outcome.ReadFailed? ==>
          && c.outcome == EndOfStream && written == 0
          && exists lost :: whole == seen + lost + left)
  }

  /** One read behind the `nr` bytes that are buffered. */
  method ReadBehind(src: Source, buf: array<byte>, nr0: nat, ghost x: seq<byte>) returns (nr: nat, err: ReadError)
    requires nr0 < buf.Length && buf[..nr0] + src.rest == x
    modifies src, buf
    ensures (nr - nr0, err) == Answer(old(src.rest), old(src.plan), buf.Length - nr0)
    ensures nr0 <= nr <= buf.Length && buf[..nr] + src.rest == x && nr + |src.rest| == nr0 + old(|src.rest|)
    ensures src.View() == ReadOf(old(src.View()), buf.Length - nr0)
    ensures err == Eof ==> src.rest == []
    ensures err != Eof ==> |src.plan| + |src.rest| < old(|src.plan| + |src.rest|)
  {
    ghost var held, rest := buf[..nr0], src.rest;
    var nr2;
    nr2, err := src.Read(buf, nr0, buf.Length);
    nr := nr0 + nr2;
    assert buf[..nr] == held + rest[..nr2];
    CutHeld(held, rest, nr2);
  }

  lemma CutHeld(held: seq<byte>, rest: seq<byte>, n: nat)
    requires n <= |rest|
    ensures (held + rest[..n]) + rest[n..] == held + rest
  {
  }

  /** The same with the reads made so far from the source `tape`. */
  method ReadMore(src: Source, buf: array<byte>, nr0: nat, ghost x: seq<byte>, ghost tape: Tape, ghost log0: Log)
    returns (nr: nat, err: ReadError, ghost before: nat, ghost log: Log)
    requires nr0 < buf.Length && buf[..nr0] + src.rest == x && Followed(tape, log0, src.View(), NoError)
    modifies src, buf
    ensures nr0 <= nr <= buf.Length && buf[..nr] + src.rest == x && before == (if err == NoError then nr else nr0)
    ensures nr + |src.rest| == nr0 + old(|src.rest|)
    ensures err == Eof ==> src.rest == []
    ensures Followed(tape, log, src.View(), err)
    ensures err.Failed? ==> UnreadBefore(tape, log) == old(|src.rest|)
    ensures err != Eof ==> |src.plan| + |src.rest| < old(|src.plan| + |src.rest|)
  {
    FollowedByRead(tape, log0, src.View(), buf.Length - nr0);
    log := OneMore(log0, buf.Length - nr0);
    nr, err := ReadBehind(src, buf, nr0, x);
    before := if err == NoError then nr else nr0;
  }

  /** Reads until `need` bytes are buffered, end of stream, or a failure. `log` extends the reads made so far from the
      source `tape`. */
  method Fill(src: Source, buf: array<byte>, nr0: nat, need: nat, ghost tape: Tape, ghost log0: Log)
    returns (nr: nat, err: ReadError, ghost before: nat, ghost log: Log)
    requires nr0 <= buf.Length && need <= buf.Length && Followed(tape, log0, src.View(), NoError)
    modifies src, buf
    ensures nr0 <= nr <= buf.Length
    ensures old(buf[..nr0]) + old(src.rest) == buf[..nr] + src.rest
    ensures nr0 <= before <= nr && (nr0 < need && err != NoError ==> before < need)
    ensures err == NoError ==> nr >= need
    ensures err == Eof ==> src.rest == []
    ensures err.Failed? ==> before < need
    ensures Followed(tape, log, src.View(), err)
    ensures err.Failed? ==> before + UnreadBefore(tape, log) == nr0 + old(|src.rest|)
    ensures nr + |src.rest| == nr0 + old(|src.rest|)
  {
    nr, err, before, log := nr0, NoError, nr0, log0;
    ghost var x := buf[..nr0] + src.rest;
    while nr < need && err == NoError
      invariant nr0 <= before <= nr <= buf.Length && nr + |src.rest| == nr0 + old(|src.rest|)
      invariant if err == NoError then before == nr else before < need
      invariant buf[..nr] + src.rest == x
      invariant err == Eof ==> src.rest == []
      invariant Followed(tape, log, src.View(), err)
      invariant err.Failed? ==> before + UnreadBefore(tape, log) == nr0 + old(|src.rest|)
      decreases err == NoError, |src.plan| + |src.rest|
    {
      nr, err, before, log := ReadMore(src, buf, nr, x, tape, log);
    }
  }

  /** The buffer grown to hold a frame of `need` bytes, contents kept. */
  method Grow(buf: array<byte>, need: nat) returns (grown: array<byte>)
    ensures grown.Length >= need && grown.Length >= buf.Length
    ensures grown[..buf.Length] == buf[..]
    ensures grown == buf || fresh(grown)
  {
    if need <= buf.Length { return buf; }
    grown := new byte[buf.Length + (need - buf.Length + 1)](_ => 0);
    forall i | 0 <= i < buf.Length { grown[i] := buf[i]; }
    assert grown[..buf.Length] == buf[..];
  }

  /** Moves everything from `k` on to the front of the buffer. */
  method Shift(buf: array<byte>, k: nat, nr: nat)
    requires k <= nr <= buf.Length
    modifies buf
    ensures buf[..nr - k] == old(buf[k..nr])
  {
    forall i | 0 <= i < buf.Length - k { buf[i] := buf[i + k]; }
  }

  /** The header of a buffered prefix is the header of the stream. */
  lemma HeaderOfPrefix(a: seq<byte>, b: seq<byte>)
    requires |a| >= PREFIX_LEN
    ensures (a + b)[0] == a[0] && FrameSize(a + b) == FrameSize(a)
    ensures HasFrame(a) ==> Payload(a + b) == Payload(a)
    ensures HasFrame(a) && a[0] <= STDERR ==> IsFrame(a[..PREFIX_LEN + FrameSize(a)], Payload(a))
  {
    assert (a + b)[SIZE_INDEX..SIZE_INDEX + 4] == a[SIZE_INDEX..SIZE_INDEX + 4];
    if HasFrame(a) {
      var k := PREFIX_LEN + FrameSize(a);
      assert (a + b)[PREFIX_LEN..k] == a[PREFIX_LEN..k];
      assert a[..k][SIZE_INDEX..SIZE_INDEX + 4] == a[SIZE_INDEX..SIZE_INDEX + 4];
      assert a[..k][PREFIX_LEN..] == a[PREFIX_LEN..k];
    }
  }

  /** Not yet a whole frame, and nothing wrong with it so far. */
  predicate Incomplete(s: seq<byte>) {
    |s| < PREFIX_LEN || (s[0] <= SYSTEMERR && !HasFrame(s))
  }

  datatype Reading = Ended | Broken(code: int) | Alien(tag: byte) | Complete

  /** What reading one frame leaves: `x` is the buffered and unread input at the start. */
  ghost predicate ReadingOf(x: seq<byte>, reading: Reading, held: seq<byte>, left: seq<byte>, seen: seq<byte>) {
    match reading
    case Ended => Incomplete(x)
    case Broken(_) => Incomplete(seen) && exists lost :: x == seen + lost + left
    case Alien(tag) => |x| >= PREFIX_LEN && x[0] == tag && tag > SYSTEMERR
    case Complete => x == held + left && HasFrame(held) && held[0] <= SYSTEMERR
  }

  /** What a stretch of reads means for the frame whose header, the start of `x`, asks for `need` bytes. */
  lemma BodyReading(x: seq<byte>, header: seq<byte>, held: seq<byte>, left: seq<byte>, before: nat, need: nat, er: ReadError)
    requires x == held + left && PREFIX_LEN <= |header| <= before <= |held| && header <= held
    requires header[0] <= SYSTEMERR && need == PREFIX_LEN + FrameSize(header)
    requires (er.Failed? ==> before < need) && (er == Eof ==> left == []) && (er == NoError ==> |held| >= need)
    ensures er.Failed? ==> ReadingOf(x, Broken(er.code), held, left, held[..before])
    ensures !er.Failed? && |held| < need ==> ReadingOf(x, Ended, held, left, held[..before])
    ensures !er.Failed? && |held| >= need ==> ReadingOf(x, Complete, held, left, held[..before])
  {
    SameHeader(header, held, held[..before]);
    SameHeader(header, held, held);
    if er.Failed? {
      BrokenReading(x, held, left, before);
    } else if |held| < need {
      assert x == held;
    }
  }

  lemma BrokenReading(x: seq<byte>, held: seq<byte>, left: seq<byte>, before: nat)
    requires x == held + left && before <= |held|
    ensures exists lost :: x == held[..before] + lost + left
  {
    assert held == held[..before] + held[before..];
    assert x == held[..before] + held[before..] + left;
  }

  /** The reads this frame needed: one failed if it is broken, and then `seen` is all that had been read before. */
  ghost predicate ReadsOf(tape: Tape, log: Log, now: Tape, reading: Reading, seen: seq<byte>, total: nat) {
    && Followed(tape, log, now, if reading.Broken? then Failed(reading.code) else NoError)
    && (reading.Broken? ==> |seen| + UnreadBefore(tape, log) == total)
  }

  /** Reads the rest of a frame of `need` bytes whose header is buffered, growing the buffer if it must. */
  method ReadBody(src: Source, buf0: array<byte>, nr0: nat, need: nat, ghost tape: Tape, ghost log0: Log)
    returns (reading: Reading, buf: array<byte>, nr: nat, ghost seen: seq<byte>, ghost log: Log)
    requires Followed(tape, log0, src.View(), NoError)
    requires PREFIX_LEN <= nr0 <= buf0.Length
    requires buf0[0] <= SYSTEMERR && need == PREFIX_LEN + FrameSize(buf0[..nr0])
    modifies src, buf0
    ensures buf.Length >= buf0.Length && nr <= buf.Length && (buf == buf0 || fresh(buf))
    ensures nr + |src.rest| == nr0 + old(|src.rest|)
    ensures ReadsOf(tape, log, src.View(), reading, seen, nr0 + old(|src.rest|))
    ensures ReadingOf(old(buf0[..nr0]) + old(src.rest), reading, buf[..nr], src.rest, seen)
  {
    ghost var header, x := buf0[..nr0], buf0[..nr0] + src.rest;
    buf := Grow(buf0, need);
    assert buf[..nr0] == header;
    var er; ghost var before;
    nr, er, before, log := Fill(src, buf, nr0, need, tape, log0);
    ghost var held := buf[..nr];
    seen := held[..before];
    assert header <= held by { assert header == x[..nr0] && held == x[..nr]; }
    BodyReading(x, header, held, src.rest, before, need, er);
    if er.Failed? {
      reading := Broken(er.code);
    } else if nr < need {
      reading := Ended;
    } else {
      reading := Complete;
    }
  }

  /** Reads one frame into the buffer. */
  method ReadFrame(src: Source, buf0: array<byte>, nr0: nat, ghost tape: Tape, ghost log0: Log)
    returns (reading: Reading, buf: array<byte>, nr: nat, ghost seen: seq<byte>, ghost log: Log)
    requires PREFIX_LEN <= buf0.Length && nr0 <= buf0.Length && Followed(tape, log0, src.View(), NoError)
    modifies src, buf0
    ensures buf.Length >= buf0.Length && nr <= buf.Length && (buf == buf0 || fresh(buf))
    ensures nr + |src.rest| == nr0 + old(|src.rest|)
    ensures ReadsOf(tape, log, src.View(), reading, seen, nr0 + old(|src.rest|))
    ensures ReadingOf(old(buf0[..nr0]) + old(src.rest), reading, buf[..nr], src.rest, seen)
  {
    buf := buf0;
    ghost var x := buf[..nr0] + src.rest;
    var er; ghost var before;
    nr, er, before, log := Fill(src, buf, nr0, PREFIX_LEN, tape, log0);
    seen := buf[..nr][..before];
    BrokenReading(x, buf[..nr], src.rest, before);
    if er.Failed? {
      reading := Broken(er.code);
    } else if nr < PREFIX_LEN {
      reading := Ended;
    } else if buf[0] > SYSTEMERR {
      reading := Alien(buf[0]);
    } else {
      assert buf[SIZE_INDEX..SIZE_INDEX + 4] == buf[..nr][SIZE_INDEX..SIZE_INDEX + 4];
      var frameSize := FromBigEndian32(buf[SIZE_INDEX..SIZE_INDEX + 4]);
      reading, buf, nr, seen, log := ReadBody(src, buf, nr, PREFIX_LEN + frameSize, tape, log);
    }
  }

  lemma SameHeader(header: seq<byte>, x: seq<byte>, part: seq<byte>)
    requires PREFIX_LEN <= |header| && header <= x && part <= x && |header| <= |part|
    ensures part[0] == x[0] == header[0]
    ensures FrameSize(part) == FrameSize(x) == FrameSize(header)
  {
  }

  lemma DeliversMore(a: seq<seq<byte>>, limit: int, out: seq<seq<byte>>, b: seq<seq<byte>>, msgs: seq<seq<byte>>)
    requires Delivers(a, limit, out) && Delivers(b, limit, msgs)
    ensures Delivers(a + b, limit, out + msgs)
  {
  }

  /** Hands a complete frame at the head of `x` to the client and the writer, unless it carries an error. */
  method DeliverFrame(sink: Sink, limit: int, stream: byte, l: seq<byte>, ghost x: seq<byte>)
    returns (stop: Option<Outcome>, msgs: seq<seq<byte>>)
    requires HasFrame(x) && x[0] == stream <= SYSTEMERR && Payload(x) == l
    modifies sink
    ensures Delivers(if msgs == [] then [] else [l], limit, msgs)
    ensures sink.taken == old(sink.taken) + (if msgs == [] then [] else [l])
    ensures stop.Some? ==>
      && !stop.value.ReadFailed? && !stop.value.EndOfStream?
      && Parse(x, old(sink.plan)) == Copied(if msgs == [] then [] else [l], stop.value)
      && (stop.value.DaemonError? <==> msgs == [])
    ensures stop.None? ==>
      && |msgs| == 1 && stream <= STDERR && sink.plan == Rest(old(sink.plan))
      && (AnswerTo(old(sink.plan)).Accept? || AnswerTo(old(sink.plan)) == Partial(|l|))
  {
    if stream == SYSTEMERR { return Some(DaemonError(l)), []; }
    var m := LogMessage(l, limit);
    msgs := [m];
    var step := sink.Write(l);
    match step
    case Refuse(_, code) => stop := Some(WriteFailed(code));
    case Partial(n) => stop := if n != |l| then Some(ShortWrite) else None;
    case Accept => stop := None;
  }

  /** The frame at the head of the buffer, delivered. */
  method TakeFrame(sink: Sink, limit: int, buf: array<byte>, nr: nat, ghost x: seq<byte>, ghost left: seq<byte>)
    returns (l: seq<byte>, stop: Option<Outcome>, msgs: seq<seq<byte>>)
    requires nr <= buf.Length && x == buf[..nr] + left && HasFrame(buf[..nr]) && buf[0] <= SYSTEMERR
    modifies sink
    ensures Delivers(if msgs == [] then [] else [l], limit, msgs)
    ensures sink.taken == old(sink.taken) + (if msgs == [] then [] else [l])
    ensures stop.Some? ==>
      && !stop.value.ReadFailed? && !stop.value.EndOfStream?
      && Parse(x, old(sink.plan)) == Copied(if msgs == [] then [] else [l], stop.value)
      && (stop.value.DaemonError? <==> msgs == [])
    ensures stop.None? ==>
      && |msgs| == 1 && sink.plan == Rest(old(sink.plan))
      && (AnswerTo(old(sink.plan)).Accept? || AnswerTo(old(sink.plan)) == Partial(|l|))
      && PREFIX_LEN + |l| <= nr && IsFrame(buf[..nr][..PREFIX_LEN + |l|], l)
  {
    ghost var held := buf[..nr];
    HeaderOfPrefix(held, left);
    assert buf[SIZE_INDEX..SIZE_INDEX + 4] == held[SIZE_INDEX..SIZE_INDEX + 4];
    var need := PREFIX_LEN + FromBigEndian32(buf[SIZE_INDEX..SIZE_INDEX + 4]);
    assert need == PREFIX_LEN + FrameSize(held);
    l := buf[..nr][PREFIX_LEN..need];
    stop, msgs := DeliverFrame(sink, limit, buf[0], l, x);
  }

  /** What a turn that starts with input `x` establishes, `y` being the input it leaves. */
  ghost predicate TurnOf(x: seq<byte>, sink: seq<WriteStep>, stop: Option<Outcome>, l: seq<byte>, msgs: seq<seq<byte>>,
                         part: seq<byte>, y: seq<byte>, left: seq<byte>, sink': seq<WriteStep>)
  {
    if stop.None? then
      && x == part + y && IsFrame(part, l) && |msgs| == 1
      && sink' == Rest(sink) && (AnswerTo(sink).Accept? || AnswerTo(sink) == Partial(|l|))
    else if stop.value.ReadFailed? then
      && Incomplete(part) && msgs == [] && exists lost :: x == part + lost + left
    else
      && Parse(x, sink) == Copied(if msgs == [] then [] else [l], stop.value)
      && (stop.value.EndOfStream? || stop.value.DaemonError? ==> msgs == [])
  }

  /** Delivers the buffered frame and moves what follows it to the front. */
  method TakeAndShift(sink: Sink, limit: int, buf: array<byte>, nr0: nat, ghost x: seq<byte>, ghost left: seq<byte>)
    returns (stop: Option<Outcome>, nr: nat, l: seq<byte>, msgs: seq<seq<byte>>, ghost part: seq<byte>)
    requires nr0 <= buf.Length && x == buf[..nr0] + left && HasFrame(buf[..nr0]) && buf[0] <= SYSTEMERR
    modifies sink, buf
    ensures nr <= nr0
    ensures Delivers(if msgs == [] then [] else [l], limit, msgs)
    ensures sink.taken == old(sink.taken) + (if msgs == [] then [] else [l])
    ensures TurnOf(x, old(sink.plan), stop, l, msgs, part, buf[..nr] + left, left, sink.plan)
    ensures stop.Some? ==> !stop.value.ReadFailed?
  {
    nr, part := nr0, [];
    l, stop, msgs := TakeFrame(sink, limit, buf, nr, x, left);
    if stop.None? {
      ghost var held := buf[..nr];
      var need := PREFIX_LEN + |l|;
      part := held[..need];
      Shift(buf, need, nr);
      nr := nr - need;
      assert x == part + (held[need..] + left);
    }
  }

  /** The copy stops with a read error exactly when its last read failed, with that error, and then `seen` is all that
      had been read before. */
  ghost predicate StopReads(tape: Tape, log: Log, now: Tape, stop: Option<Outcome>, seen: seq<byte>, total: nat) {
    if stop.Some? && stop.value.ReadFailed? then
      Followed(tape, log, now, Failed(stop.value.code)) && |seen| + UnreadBefore(tape, log) == total
    else Followed(tape, log, now, NoError)
  }

  /** A copy that stops with a read error has used a failing step of the plan, with that code, as its last. */
  lemma ReadErrorIsPlanned(tape: Tape, log: Log, now: Tape, outcome: Outcome, seen: seq<byte>, total: nat)
    requires StopReads(tape, log, now, Some(outcome), seen, total)
    ensures outcome.ReadFailed? ==>
      FailsAt(tape.plan, Count(log), outcome.code) && NeverFails(tape.plan[..Count(log) - 1])
    ensures !outcome.ReadFailed? ==> NeverFails(tape.plan[..Min(Count(log), |tape.plan|)])
  {
    if outcome.ReadFailed? {
      LastReadFails(tape, log, outcome.code);
      SmoothUsesDeliveries(tape, log.earlier);
    } else {
      SmoothUsesDeliveries(tape, log);
    }
  }

  lemma NoFailingRead(tape: Tape, log: Log, now: Tape, outcome: Outcome, seen: seq<byte>, total: nat)
    requires StopReads(tape, log, now, Some(outcome), seen, total) && NeverFails(tape.plan)
    ensures !outcome.ReadFailed?
  {
    ReadErrorIsPlanned(tape, log, now, outcome, seen, total);
    NeverFailsAt(tape.plan, Count(log));
  }

  /** One turn of the copy loop: read a frame, deliver it, move the rest to the front. */
  method Turn(src: Source, sink: Sink, limit: int, buf0: array<byte>, nr0: nat, ghost tape: Tape, ghost log0: Log)
    returns (stop: Option<Outcome>, buf: array<byte>, nr: nat, l: seq<byte>, msgs: seq<seq<byte>>, ghost part: seq<byte>,
             ghost log: Log)
    requires PREFIX_LEN <= buf0.Length && nr0 <= buf0.Length && Followed(tape, log0, src.View(), NoError)
    modifies src, sink, buf0
    ensures buf.Length >= buf0.Length && nr <= buf.Length && (buf == buf0 || fresh(buf))
    ensures StopReads(tape, log, src.View(), stop, part, nr0 + old(|src.rest|))
    ensures Delivers(if msgs == [] then [] else [l], limit, msgs)
    ensures sink.taken == old(sink.taken) + (if msgs == [] then [] else [l])
    ensures TurnOf(old(buf0[..nr0]) + old(src.rest), old(sink.plan), stop, l, msgs, part,
                   buf[..nr] + src.rest, src.rest, sink.plan)
  {
    ghost var x := buf0[..nr0] + src.rest;
    var reading;
    l, msgs := [], [];
    reading, buf, nr, part, log := ReadFrame(src, buf0, nr0, tape, log0);
    match reading
    case Broken(code) => stop := Some(ReadFailed(code));
    case Ended => stop := Some(EndOfStream);
    case Alien(tag) => stop := Some(UnknownType(tag));
    case Complete => stop, nr, l, msgs, part := TakeAndShift(sink, limit, buf, nr, x, src.rest);
  }

  /** The copy loop's invariant: `raws` were delivered as `frames`, `x` is still to come. */
  ghost predicate Progress(whole: seq<byte>, sink0: seq<WriteStep>, limit: int, raws: seq<seq<byte>>, frames: seq<seq<byte>>,
                           x: seq<byte>, sink: seq<WriteStep>, out: seq<seq<byte>>, written: nat)
  {
    && whole == Concat(raws) + x
    && Accepted(raws, frames, sink0, sink)
    && Delivers(frames, limit, out)
    && written == |Concat(frames)|
  }

  lemma CutByFrame(raws: seq<seq<byte>>, part: seq<byte>, y: seq<byte>)
    ensures Concat(raws) + (part + y) == Concat(raws + [part]) + y
  {
    ConcatSnoc(raws, part);
  }

  lemma ProgressByFrame(whole: seq<byte>, sink0: seq<WriteStep>, limit: int, raws: seq<seq<byte>>, frames: seq<seq<byte>>,
                        x: seq<byte>, sink: seq<WriteStep>, out: seq<seq<byte>>, written: nat,
                        part: seq<byte>, y: seq<byte>, l: seq<byte>, msgs: seq<seq<byte>>)
    requires Progress(whole, sink0, limit, raws, frames, x, sink, out, written)
    requires x == part + y && IsFrame(part, l) && Delivers([l], limit, msgs)
    requires AnswerTo(sink).Accept? || AnswerTo(sink) == Partial(|l|)
    ensures Progress(whole, sink0, limit, raws + [part], frames + [l], y, Rest(sink), out + msgs, written + |l|)
  {
    ConcatSnoc(frames, l);
    CutByFrame(raws, part, y);
    AcceptedSnoc(raws, frames, sink0, sink, part, l);
    DeliversMore(frames, limit, out, [l], msgs);
  }

  /** A run whose read fails in this turn has delivered all that came before. */
  lemma BreakRefines(whole: seq<byte>, sink0: seq<WriteStep>, limit: int, raws: seq<seq<byte>>, frames: seq<seq<byte>>,
                     x: seq<byte>, sink: seq<WriteStep>, out: seq<seq<byte>>, written: nat, part: seq<byte>,
                     left: seq<byte>, code: int)
    requires Progress(whole, sink0, limit, raws, frames, x, sink, out, written)
    requires Incomplete(part) && exists lost :: x == part + lost + left
    ensures Refines(whole, sink0, limit, left, Concat(raws) + part, 0, ReadFailed(code), out)
    ensures Parse(Concat(raws) + part, sink0).frames == frames
  {
    var c := Copied([], EndOfStream);
    assert Parse(part, sink) == c;
    Resumes(raws, frames, sink0, sink, part, c);
    assert Prepend(frames, c) == Copied(frames, EndOfStream);
    var lost :| x == part + lost + left;
    Reassociate(Concat(raws), part, lost, left);
  }

  lemma Reassociate(a: seq<byte>, b: seq<byte>, c: seq<byte>, d: seq<byte>)
    ensures a + (b + c + d) == a + b + c + d
  {
  }

  /** A run that stops in this turn refines the whole-stream parser. */
  lemma StopRefines(whole: seq<byte>, sink0: seq<WriteStep>, limit: int, raws: seq<seq<byte>>, frames: seq<seq<byte>>,
                    x: seq<byte>, sink: seq<WriteStep>, out: seq<seq<byte>>, written: nat, stop: Outcome,
                    last: seq<seq<byte>>, msgs: seq<seq<byte>>, left: seq<byte>)
    requires Progress(whole, sink0, limit, raws, frames, x, sink, out, written)
    requires Parse(x, sink) == Copied(last, stop) && !stop.ReadFailed?
    requires stop.EndOfStream? || stop.DaemonError? ==> last == []
    requires Delivers(last, limit, msgs)
    ensures Refines(whole, sink0, limit, left, whole,
                    if stop.EndOfStream? || stop.DaemonError? then written else 0, stop, out + msgs)
    ensures Parse(whole, sink0).frames == frames + last
  {
    assert frames + [] == frames;
    Resumes(raws, frames, sink0, sink, x, Copied(last, stop));
    DeliversMore(frames, limit, out, last, msgs);
  }

  /** The count after a turn: a frame adds its length, an error resets it. */
  function Counted(stop: Option<Outcome>, written: nat, l: seq<byte>): nat {
    if stop.None? then written + |l|
    else if stop.value.EndOfStream? || stop.value.DaemonError? then written
    else 0
  }

  /** Either the loop's invariant again, or the result. */
  ghost predicate Standing(whole: seq<byte>, sink0: seq<WriteStep>, limit: int, raws: seq<seq<byte>>, frames: seq<seq<byte>>,
                           y: seq<byte>, left: seq<byte>, sink: seq<WriteStep>, out: seq<seq<byte>>, written: nat,
                           stop: Option<Outcome>, seen: seq<byte>)
  {
    if stop.None? then Progress(whole, sink0, limit, raws, frames, y, sink, out, written)
    else Refines(whole, sink0, limit, left, seen, written, stop.value, out) && Parse(seen, sink0).frames == frames
  }

  lemma AfterTurn(whole: seq<byte>, sink0: seq<WriteStep>, limit: int, raws: seq<seq<byte>>, frames: seq<seq<byte>>,
                  x: seq<byte>, sink: seq<WriteStep>, out: seq<seq<byte>>, written: nat, stop: Option<Outcome>,
                  l: seq<byte>, msgs: seq<seq<byte>>, part: seq<byte>, y: seq<byte>, left: seq<byte>, sink': seq<WriteStep>)
    returns (last: seq<seq<byte>>, seen: seq<byte>)
    requires Progress(whole, sink0, limit, raws, frames, x, sink, out, written)
    requires TurnOf(x, sink, stop, l, msgs, part, y, left, sink')
    requires Delivers(if msgs == [] then [] else [l], limit, msgs)
    ensures last == if msgs == [] then [] else [l]
    ensures stop.Some? && stop.value.ReadFailed? ==> |seen| + |x| == |part| + |whole|
    ensures Standing(whole, sink0, limit, raws + [part], frames + last, y, left, sink', out + msgs,
                     Counted(stop, written, l), stop, seen)
  {
    last, seen := if msgs == [] then [] else [l], whole;
    if stop.None? {
      ProgressByFrame(whole, sink0, limit, raws, frames, x, sink, out, written, part, y, l, msgs);
    } else if stop.value.ReadFailed? {
      BreakRefines(whole, sink0, limit, raws, frames, x, sink, out, written, part, left, stop.value.code);
      seen := Concat(raws) + part;
      assert out + msgs == out && frames + last == frames;
    } else {
      StopRefines(whole, sink0, limit, raws, frames, x, sink, out, written, stop.value, last, msgs, left);
    }
  }

  /** Copies frames from `src` until the stream ends or breaks; `log` lists the reads it made. */
  method Run(src: Source, sink: Sink, limit: int)
    returns (written: nat, outcome: Outcome, out: seq<seq<byte>>, ghost seen: seq<byte>, ghost log: Log)
    modifies src, sink
    ensures Refines(old(src.rest), old(sink.plan), limit, src.rest, seen, written, outcome, out)
    ensures written == if outcome.EndOfStream? || outcome.DaemonError? then |Concat(Parse(seen, old(sink.plan)).frames)| else 0
    ensures StopReads(old(src.View()), log, src.View(), Some(outcome), seen, old(|src.rest|))
    ensures sink.taken == old(sink.taken) + Parse(seen, old(sink.plan)).frames
  {
    var buf := new byte[STARTING_BUF_LEN];
    var nr: nat := 0;
    var stop: Option<Outcome> := None;
    written, out, seen := 0, [], [];
    ghost var raws, frames: seq<seq<byte>> := [], [];
    ghost var whole, sink0, tape := src.rest, sink.plan, src.View();
    log := NoReads;
    assert buf[..0] + src.rest == Concat(raws) + (buf[..0] + src.rest) == whole;
    while stop.None?
      invariant fresh(buf) && buf.Length >= STARTING_BUF_LEN && nr <= buf.Length
      invariant Standing(whole, sink0, limit, raws, frames, buf[..nr] + src.rest, src.rest, sink.plan, out, written, stop, seen)
      invariant sink.taken == old(sink.taken) + frames
      invariant StopReads(tape, log, src.View(), stop, seen, |whole|)
      decreases stop.None?, |buf[..nr] + src.rest|
    {
      ghost var x, sinkPlan := buf[..nr] + src.rest, sink.plan;
      var l, msgs; ghost var part;
      stop, buf, nr, l, msgs, part, log := Turn(src, sink, limit, buf, nr, tape, log);
      ghost var last;
      last, seen := AfterTurn(whole, sink0, limit, raws, frames, x, sinkPlan, out, written, stop, l, msgs, part,
                              buf[..nr] + src.rest, src.rest, sink.plan);
      raws, frames, out, written := raws + [part], frames + last, out + msgs, Counted(stop, written, l);
    }
    outcome := stop.value;
  }

  /** The round trip through the reader: however the framed payloads are split into reads, they all come back. */
  method CopyBack(msgs: seq<(byte, seq<byte>)>, plan: seq<ReadStep>, limit: int)
    returns (written: nat, outcome: Outcome, out: seq<seq<byte>>)
    requires forall m :: m in msgs ==> m.0 <= STDERR && |m.1| < TWO32
    requires NeverFails(plan)
    ensures outcome == EndOfStream && written == |Concat(Payloads(msgs))|
    ensures Delivers(Payloads(msgs), limit, out)
  {
    var src := new Source(Concat(EncodeAll(msgs)), plan);
    var sink := new Sink([]);
    RoundTrip(msgs, [], EndOfStream);
    assert Concat(EncodeAll(msgs)) + [] == Concat(EncodeAll(msgs));
    ghost var seen, log;
    written, outcome, out, seen, log := Run(src, sink, limit);
    NoFailingRead(Tape(Concat(EncodeAll(msgs)), plan), log, src.View(), outcome, seen, |Concat(EncodeAll(msgs))|);
  }
}
