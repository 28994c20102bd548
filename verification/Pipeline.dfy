/** From the container's multiplexed output to what the client receives under the log key. */
module Pipeline {
  import opened Bytes
  import opened Confound
  import S = StdCopy
  import C = Connection

  /** The messages of one key, in order. */
  function Select(key: seq<byte>, ms: seq<C.Message>): seq<C.Message> {
    if ms == [] then [] else (if C.KeyOf(ms[0]) == key then [ms[0]] else []) + Select(key, ms[1..])
  }

  lemma {:induction false} StreamOfSelected(key: seq<byte>, ms: seq<C.Message>)
    ensures C.Stream(key, Select(key, ms)) == C.Stream(key, ms)
    decreases |ms|
  {
    if ms != [] {
      StreamOfSelected(key, ms[1..]);
      if C.KeyOf(ms[0]) == key {
        assert Select(key, ms)[1..] == Select(key, ms[1..]);
      } else {
        assert Select(key, ms) == Select(key, ms[1..]);
      }
    }
  }

  /** The other messages the monitor writes. */
  function StatMessage(text: seq<byte>): C.Message { LOG_STAT_MESSAGE + text }
  function ResourceMessage(text: seq<byte>): C.Message { RESOURCE_MESSAGE + text }
  function GpuMessage(text: seq<byte>): C.Message { GPU_MESSAGE + text }

  /** They all go under keys of their own. */
  lemma OtherKindsOtherKeys(text: seq<byte>)
    ensures C.KeyOf(StatMessage(text)) == LOG_STAT_MESSAGE != LOG_MESSAGE
    ensures C.KeyOf(ResourceMessage(text)) == RESOURCE_MESSAGE != LOG_MESSAGE
    ensures C.KeyOf(GpuMessage(text)) == GPU_MESSAGE != LOG_MESSAGE
    ensures C.Body(StatMessage(text)) == C.Body(ResourceMessage(text)) == C.Body(GpuMessage(text)) == text
  {
    assert LOG_MESSAGE[0] != LOG_STAT_MESSAGE[0] && LOG_MESSAGE[1] != RESOURCE_MESSAGE[1] && LOG_MESSAGE[1] != GPU_MESSAGE[1];
  }

  /** Writers under other keys may come in between anywhere. */
  lemma {:induction false} SelectFromMixed(key: seq<byte>, mine: seq<C.Message>, others: seq<C.Message>, all: seq<C.Message>)
    requires Shuffle(mine, others, all)
    requires (forall m :: m in mine ==> C.KeyOf(m) == key) && (forall m :: m in others ==> C.KeyOf(m) != key)
    ensures Select(key, all) == mine
    decreases |all|
  {
    if all != [] {
      if mine != [] && mine[0] == all[0] && Shuffle(mine[1..], others, all[1..]) {
        SelectFromMixed(key, mine[1..], others, all[1..]);
        assert mine == [mine[0]] + mine[1..] && mine[0] in mine;
      } else {
        SelectFromMixed(key, mine, others[1..], all[1..]);
        assert others[0] in others;
      }
    }
  }

  lemma DeliveredKeys(frames: seq<seq<byte>>, limit: int, out: seq<C.Message>)
    requires S.Delivers(frames, limit, out)
    ensures forall m :: m in out ==> C.KeyOf(m) == LOG_MESSAGE
  {
    forall m | m in out ensures C.KeyOf(m) == LOG_MESSAGE {
      var i :| 0 <= i < |out| && out[i] == m;
      assert IsLogMessage(frames[i], limit, out[i]);
    }
  }

  /** The lines the frames show, frame by frame. */
  predicate ShowAll(frames: seq<seq<byte>>, lines: seq<seq<byte>>) {
    |frames| == |lines| && forall i :: 0 <= i < |frames| ==> Shows(frames[i], lines[i])
  }

  /** How many noise bytes these lines get. */
  function NoiseCount(lines: seq<seq<byte>>, limit: int): nat {
    if lines == [] then 0
    else (if |lines[0]| > limit then |lines[0]| / GRAIN else 0) + NoiseCount(lines[1..], limit)
  }

  /** `text` is the lines, in order, with that much alphabet noise shuffled in and nothing else. */
  ghost predicate CarriesLines(lines: seq<seq<byte>>, limit: int, text: seq<byte>) {
    exists noise: seq<byte> ::
      && |noise| == NoiseCount(lines, limit)
      && (forall x :: x in noise ==> IsNoise(x))
      && Shuffle(Concat(lines), noise, text)
  }

  lemma {:induction false} DeliveredText(frames: seq<seq<byte>>, lines: seq<seq<byte>>, limit: int, out: seq<C.Message>)
    returns (noise: seq<byte>)
    requires S.Delivers(frames, limit, out) && ShowAll(frames, lines)
    ensures |noise| == NoiseCount(lines, limit) && forall x :: x in noise ==> IsNoise(x)
    ensures Shuffle(Concat(lines), noise, C.Stream(LOG_MESSAGE, out))
    decreases |frames|
  {
    if frames == [] {
      noise := [];
    } else {
      var first := DeliveredLine(frames[0], lines[0], limit, out[0]);
      var rest := DeliveredText(frames[1..], lines[1..], limit, out[1..]);
      noise := first + rest;
      ShuffleAppend(lines[0], first, out[0][4..], Concat(lines[1..]), rest, C.Stream(LOG_MESSAGE, out[1..]));
      assert C.KeyOf(out[0]) == LOG_MESSAGE;
    }
  }

  lemma DeliveredLine(frame: seq<byte>, line: seq<byte>, limit: int, r: C.Message) returns (noise: seq<byte>)
    requires Shows(frame, line) && IsLogMessage(frame, limit, r)
    ensures r[..4] == LOG_MESSAGE && Shuffle(line, noise, r[4..])
    ensures (forall x :: x in noise ==> IsNoise(x)) && |noise| == if |line| > limit then |line| / GRAIN else 0
  {
    if frame == line && (|line| <= 1 || line[0] != SPACE) {
      noise := BareLineIsCarried(line, limit, r);
    } else {
      noise := SpacedLineIsCarried(line, limit, r);
    }
  }

  /** The writes of a run are StdCopy's messages in order, mixed in any way with writes under other keys. */
  ghost predicate Feeds(out: seq<C.Message>, others: seq<C.Message>, run: seq<C.Step>) {
    Shuffle(out, others, C.AllWrites(run)) && forall m :: m in others ==> C.KeyOf(m) != LOG_MESSAGE
  }

  /** The lines and their noise fix how long the text is. */
  lemma CarriedLength(lines: seq<seq<byte>>, limit: int, text: seq<byte>)
    requires CarriesLines(lines, limit, text)
    ensures |text| == |Concat(lines)| + NoiseCount(lines, limit)
  {
    var noise: seq<byte> :| |noise| == NoiseCount(lines, limit) && Shuffle(Concat(lines), noise, text);
    ShuffleContents(Concat(lines), noise, text);
  }

  /** What is written under the log key carries the lines. */
  lemma WrittenCarriesLines(frames: seq<seq<byte>>, lines: seq<seq<byte>>, limit: int, out: seq<C.Message>,
                            others: seq<C.Message>, run: seq<C.Step>)
    requires S.Delivers(frames, limit, out) && ShowAll(frames, lines) && Feeds(out, others, run)
    ensures CarriesLines(lines, limit, C.Stream(LOG_MESSAGE, C.AllWrites(run)))
  {
    var noise := DeliveredText(frames, lines, limit, out);
    DeliveredKeys(frames, limit, out);
    SelectFromMixed(LOG_MESSAGE, out, others, C.AllWrites(run));
    StreamOfSelected(LOG_MESSAGE, C.AllWrites(run));
  }

  /** Everything that has entered the channel under the log key, then what the client is still owed of it. */
  function ClientText(s: C.State, run: seq<C.Step>): seq<byte>
    requires C.IsRun(s, run)
  {
    C.Stream(LOG_MESSAGE, C.AllWire(s, run)) + C.Owed(C.After(s, run), LOG_MESSAGE)
  }

  /** Against what was written: never fewer bytes, and the very bytes if and only if no locked flush comes into a turn
      of the unlocked one at the log entry and nothing but the flushes carries log bytes. */
  lemma ClientTextIff(monitor: bool, run: seq<C.Step>)
    requires C.IsRun(C.Init(monitor), run) && C.Unwritten(C.Init(monitor), run, LOG_MESSAGE)
    ensures
      var s, written := C.Init(monitor), C.Stream(LOG_MESSAGE, C.AllWrites(run));
      && (ClientText(s, run) == written <==> C.Unflushed(s, run, LOG_MESSAGE) && C.NoMids(s, run, LOG_MESSAGE))
      && (ClientText(s, run) != written ==> |ClientText(s, run)| > |written|)
  {
    C.UnwrittenConservesIff(monitor, run, LOG_MESSAGE);
    C.WireOfRun(C.Init(monitor), run, LOG_MESSAGE);
  }

  /** End to end. The stream is split into reads in any way and copied; its log messages reach the connection in
      order, mixed with any other writes, mid messages, timer callbacks, flushes, closes and the sub-steps of the
      unlocked `flush(false)`. Log messages are not written while that flush is at the log entry, since the copy has
      returned when it starts. Then what enters the channel under the log key, followed by what is still owed, is the
      frames' lines plus their noise if and only if no locked flush meets log bytes while the unlocked one is between
      picking and deleting their entry, and no mid message carries log bytes. Otherwise there is more; never less. */
  lemma ClientReceivesFrames(frames: seq<seq<byte>>, lines: seq<seq<byte>>, limit: int, out: seq<C.Message>, others: seq<C.Message>,
                             monitor: bool, run: seq<C.Step>)
    requires S.Delivers(frames, limit, out) && ShowAll(frames, lines) && Feeds(out, others, run)
    requires C.IsRun(C.Init(monitor), run) && C.Unwritten(C.Init(monitor), run, LOG_MESSAGE)
    ensures
      var s := C.Init(monitor);
      && (CarriesLines(lines, limit, ClientText(s, run))
         <==> C.Unflushed(s, run, LOG_MESSAGE) && C.NoMids(s, run, LOG_MESSAGE))
      && |ClientText(s, run)| >= |Concat(lines)| + NoiseCount(lines, limit)
  {
    var written, text := C.Stream(LOG_MESSAGE, C.AllWrites(run)), ClientText(C.Init(monitor), run);
    WrittenCarriesLines(frames, lines, limit, out, others, run);
    CarriedLength(lines, limit, written);
    ClientTextIff(monitor, run);
    if text != written && CarriesLines(lines, limit, text) { CarriedLength(lines, limit, text); }
  }

  /** A session as the repository runs it: everything up to the end of the copy, then steps that write no log message,
      the unlocked flush among them. Mid messages are status messages, under a key of their own. */
  lemma SessionReceivesFrames(frames: seq<seq<byte>>, lines: seq<seq<byte>>, limit: int, out: seq<C.Message>, others: seq<C.Message>,
                              monitor: bool, copying: seq<C.Step>, ending: seq<C.Step>)
    requires S.Delivers(frames, limit, out) && ShowAll(frames, lines) && Feeds(out, others, copying + ending)
    requires C.IsRun(C.Init(monitor), copying + ending) && C.Locked(copying)
    requires forall m :: m in C.AllWrites(ending) ==> C.KeyOf(m) != LOG_MESSAGE
    requires forall step :: step in copying + ending && step.WriteMid? ==> LOG_STAT_MESSAGE <= step.m
    ensures
      var s, run := C.Init(monitor), copying + ending;
      CarriesLines(lines, limit, ClientText(s, run)) <==> C.Unflushed(s, run, LOG_MESSAGE)
  {
    var s, run := C.Init(monitor), copying + ending;
    StatusElsewhere(run);
    C.OtherMids(s, run, LOG_MESSAGE);
    C.StoppedBeforeFlush(s, copying, ending, LOG_MESSAGE);
    ClientReceivesFrames(frames, lines, limit, out, others, monitor, run);
  }

  lemma StatusElsewhere(run: seq<C.Step>)
    requires forall step :: step in run && step.WriteMid? ==> LOG_STAT_MESSAGE <= step.m
    ensures forall step :: step in run && step.WriteMid? ==> C.KeyOf(step.m) != LOG_MESSAGE
  {
    forall step | step in run && step.WriteMid? ensures C.KeyOf(step.m) != LOG_MESSAGE {
      OtherKindsOtherKeys(step.m[4..]);
      assert step.m == StatMessage(step.m[4..]);
    }
  }

  /** While the session lasts there is no unlocked flush; only mid messages could add to the text. */
  lemma LockedRunReceivesFrames(frames: seq<seq<byte>>, lines: seq<seq<byte>>, limit: int, out: seq<C.Message>, others: seq<C.Message>,
                                monitor: bool, run: seq<C.Step>)
    requires S.Delivers(frames, limit, out) && ShowAll(frames, lines) && Feeds(out, others, run)
    requires C.IsRun(C.Init(monitor), run) && C.Locked(run)
    ensures
      var s := C.Init(monitor);
      CarriesLines(lines, limit, C.Stream(LOG_MESSAGE, C.AllWire(s, run)) + C.Cached(C.After(s, run), LOG_MESSAGE))
      <==> C.NoMids(s, run, LOG_MESSAGE)
  {
    C.LockedHasNoTurns(C.Init(monitor), run, LOG_MESSAGE);
    ClientReceivesFrames(frames, lines, limit, out, others, monitor, run);
  }

  /** The same for framed payloads: once nothing is owed, the client has every payload's text. */
  lemma ClientReceivesPayloads(msgs: seq<(byte, seq<byte>)>, tail: seq<byte>, why: S.Outcome, lines: seq<seq<byte>>,
                               limit: int, out: seq<C.Message>, others: seq<C.Message>, monitor: bool, run: seq<C.Step>)
    requires forall m :: m in msgs ==> m.0 <= S.STDERR && |m.1| < TWO32
    requires S.StopsAt(tail, why) && ShowAll(S.Payloads(msgs), lines)
    requires S.Delivers(S.Parse(Concat(S.EncodeAll(msgs)) + tail, []).frames, limit, out) && Feeds(out, others, run)
    requires C.IsRun(C.Init(monitor), run) && C.Unwritten(C.Init(monitor), run, LOG_MESSAGE)
    requires C.Owed(C.After(C.Init(monitor), run), LOG_MESSAGE) == []
    ensures CarriesLines(lines, limit, C.Stream(LOG_MESSAGE, C.AllWire(C.Init(monitor), run)))
       <==> C.Unflushed(C.Init(monitor), run, LOG_MESSAGE) && C.NoMids(C.Init(monitor), run, LOG_MESSAGE)
  {
    S.RoundTrip(msgs, tail, why);
    ClientReceivesFrames(S.Payloads(msgs), lines, limit, out, others, monitor, run);
    var text := C.Stream(LOG_MESSAGE, C.AllWire(C.Init(monitor), run));
    assert text + [] == text;
  }
}
