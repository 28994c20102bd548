/** Noise insertion into long log lines (`LineConfound`) and the log message built from it. */
module Confound {
  import opened Bytes

  /** One noise byte is inserted for every GRAIN bytes of a long line. */
  const GRAIN: nat := 600

  /** `zz`: "#^()abc=defg123898TUVWXYZ*<>_". */
  const ALPHABET: seq<byte> := [
    35, 94, 40, 41, 97, 98, 99, 61, 100, 101, 102, 103, 49, 50, 51, 56, 57, 56,
    84, 85, 86, 87, 88, 89, 90, 42, 60, 62, 95]

  const CARRIAGE_RETURN: byte := 13
  const SPACE: byte := 32

  /** One round of random choices: an index into the alphabet and one into the line. */
  datatype Choice = Choice(symbol: nat, place: nat)

  /** What `rand.Intn(zzLen-1)` and `rand.Intn(lens-2)` may return; the last alphabet byte is never drawn. */
  predicate ValidChoice(c: Choice, lens: nat) {
    c.symbol < |ALPHABET| - 1 && c.place + 2 < lens
  }

  predicate IsNoise(x: byte) { x in ALPHABET[..|ALPHABET| - 1] }

  function InsertAt(line: seq<byte>, at: nat, x: byte): seq<byte>
    requires at <= |line|
  {
    line[..at] + [x] + line[at..]
  }

  /** The line after the given choices, all made against the original length `lens`. */
  function Inserted(line: seq<byte>, lens: nat, choices: seq<Choice>): (r: seq<byte>)
    requires lens <= |line| && forall c :: c in choices ==> ValidChoice(c, lens)
    ensures |r| == |line| + |choices|
  {
    if choices == [] then line
    else
      var last := choices[|choices| - 1];
      assert last in choices && ValidChoice(last, lens);
      InsertAt(Inserted(line, lens, choices[..|choices| - 1]), last.place + 1, ALPHABET[last.symbol])
  }

  /** `r` is a possible result of confounding `line`, for some outcome of the random choices. */
  ghost predicate Confounds(line: seq<byte>, limit: int, r: seq<byte>) {
    if |line| <= limit then r == line
    else exists choices: seq<Choice> ::
      && |choices| == |line| / GRAIN
      && (forall c :: c in choices ==> ValidChoice(c, |line|))
      && r == Inserted(line, |line|, choices)
  }

  /** With `rsb`, everything up to the last carriage return is dropped, unless that is the first byte. */
  predicate IsLastReturn(line: seq<byte>, at: int) {
    -1 <= at < |line|
    && (at >= 0 ==> line[at] == CARRIAGE_RETURN)
    && forall i :: at < i < |line| ==> line[i] != CARRIAGE_RETURN
  }

  method LastReturn(line: seq<byte>) returns (at: int)
    ensures IsLastReturn(line, at)
  {
    at := |line| - 1;
    while at >= 0 && line[at] != CARRIAGE_RETURN
      invariant -1 <= at < |line|
      invariant forall i :: at < i < |line| ==> line[i] != CARRIAGE_RETURN
    {
      at := at - 1;
    }
  }

  /** The insertion loop, with one pair of random draws per turn. */
  method AddNoise(start: seq<byte>, limit: int) returns (line: seq<byte>)
    ensures Confounds(start, limit, line)
  {
    line := start;
    var lens := |line|;
    if lens > limit {
      ghost var choices: seq<Choice> := [];
      for i := 0 to lens / GRAIN
        invariant |choices| == i
        invariant forall c :: c in choices ==> ValidChoice(c, lens)
        invariant line == Inserted(start, lens, choices)
      {
        var s: nat :| s < |ALPHABET| - 1;
        assert 0 + 2 < lens;
        var place: nat :| place + 2 < lens;
        ghost var before := choices;
        choices := choices + [Choice(s, place)];
        assert choices[..i] == before;
        line := line[..place + 1] + ([ALPHABET[s]] + line[place + 1..]);
        assert line == InsertAt(Inserted(start, lens, before), place + 1, ALPHABET[s]);
      }
    }
  }

  method LineConfound(line: seq<byte>, rsb: bool, limit: int) returns (r: seq<byte>)
    ensures !rsb ==> Confounds(line, limit, r)
    ensures rsb ==> exists at ::
      IsLastReturn(line, at) && Confounds(if at > 0 then line[at + 1..] else line, limit, r)
  {
    var kept := line;
    if rsb {
      var at := LastReturn(line);
      if at > 0 { kept := line[at + 1..]; }
    }
    r := AddNoise(kept, limit);
  }

  /** The shape every run of insertions keeps: a shuffle of the line with noise, ends untouched. */
  lemma {:induction false} InsertedShape(line: seq<byte>, choices: seq<Choice>) returns (noise: seq<byte>)
    requires forall c :: c in choices ==> ValidChoice(c, |line|)
    ensures |noise| == |choices| && forall x :: x in noise ==> IsNoise(x)
    ensures Shuffle(line, noise, Inserted(line, |line|, choices))
    ensures choices != [] ==> var r := Inserted(line, |line|, choices);
      |line| >= 3 && r[0] == line[0] && r[|r| - 2..] == line[|line| - 2..]
    decreases |choices|
  {
    if choices == [] {
      noise := [];
      ShuffleSelf(line);
    } else {
      var init, last := choices[..|choices| - 1], choices[|choices| - 1];
      assert last in choices && ValidChoice(last, |line|);
      var n := InsertedShape(line, init);
      var r := Inserted(line, |line|, init);
      assert ALPHABET[last.symbol] == ALPHABET[..|ALPHABET| - 1][last.symbol];
      noise := ShuffleInsert(line, n, r, last.place + 1, ALPHABET[last.symbol]);
      var s := InsertAt(r, last.place + 1, ALPHABET[last.symbol]);
      assert s[|s| - 2..] == r[|r| - 2..];
    }
  }

  /** Every possible result: bounded noise from the alphabet, the original in order, both ends kept. */
  lemma ConfoundsShape(line: seq<byte>, limit: int, r: seq<byte>) returns (noise: seq<byte>)
    requires Confounds(line, limit, r)
    ensures Shuffle(line, noise, r)
    ensures forall x :: x in noise ==> IsNoise(x)
    ensures |noise| == if |line| > limit then |line| / GRAIN else 0
    ensures |r| == |line| + |noise| && multiset(r) == multiset(line) + multiset(noise)
    ensures line != [] ==> r[0] == line[0]
    ensures |line| >= 2 ==> r[|r| - 2..] == line[|line| - 2..]
  {
    if |line| <= limit {
      noise := [];
      ShuffleSelf(line);
    } else {
      var choices: seq<Choice> :| |choices| == |line| / GRAIN
        && (forall c :: c in choices ==> ValidChoice(c, |line|))
        && r == Inserted(line, |line|, choices);
      noise := InsertedShape(line, choices);
    }
    ShuffleContents(line, noise, r);
  }

  // The message constructors of the connection.

  const LOG_MESSAGE: seq<byte> := [49, 48, 48, 48]
  const LOG_STAT_MESSAGE: seq<byte> := [48, 48, 48, 48]
  const RESOURCE_MESSAGE: seq<byte> := [49, 49, 48, 48]
  const GPU_MESSAGE: seq<byte> := [49, 49, 49, 48]

  /** Docker's detail mode puts one space in front of a line; a message that is only a space is the line itself. */
  predicate Shows(message: seq<byte>, line: seq<byte>) {
    || (line != [] && message == [SPACE] + line)
    || (message == line && (|line| <= 1 || line[0] != SPACE))
  }

  /** Every message shows one line and no other. */
  lemma ShowsOneLine(message: seq<byte>) returns (line: seq<byte>)
    ensures Shows(message, line) && forall other :: Shows(message, other) ==> other == line
  {
    line := if |message| > 1 && message[0] == SPACE then message[1..] else message;
    assert |message| > 1 && message[0] == SPACE ==> message == [SPACE] + line;
    forall other | Shows(message, other) ensures other == line {
      if other != message { assert message[1..] == other; }
    }
  }

  ghost predicate IsLogMessage(message: seq<byte>, limit: int, r: seq<byte>) {
    LOG_MESSAGE <= r && exists line :: Shows(message, line) && Confounds(line, limit, r[4..])
  }

  /** The line under its space: after the key the message carries the whole line, with the noise of its length. */
  lemma SpacedLineIsCarried(line: seq<byte>, limit: int, r: seq<byte>) returns (noise: seq<byte>)
    requires line != [] && IsLogMessage([SPACE] + line, limit, r)
    ensures r[..4] == LOG_MESSAGE && Shuffle(line, noise, r[4..])
    ensures (forall x :: x in noise ==> IsNoise(x)) && |noise| == if |line| > limit then |line| / GRAIN else 0
  {
    var only := ShowsOneLine([SPACE] + line);
    assert Shows([SPACE] + line, line);
    noise := ConfoundsShape(line, limit, r[4..]);
  }

  /** A message of at most one byte, or without a space in front, is carried as it is. */
  lemma BareLineIsCarried(line: seq<byte>, limit: int, r: seq<byte>) returns (noise: seq<byte>)
    requires (|line| <= 1 || line[0] != SPACE) && IsLogMessage(line, limit, r)
    ensures r[..4] == LOG_MESSAGE && Shuffle(line, noise, r[4..])
    ensures (forall x :: x in noise ==> IsNoise(x)) && |noise| == if |line| > limit then |line| / GRAIN else 0
  {
    var only := ShowsOneLine(line);
    assert Shows(line, line);
    noise := ConfoundsShape(line, limit, r[4..]);
  }

  method LogMessage(message: seq<byte>, limit: int) returns (r: seq<byte>)
    ensures IsLogMessage(message, limit, r)
  {
    var kept := message;
    if |message| > 1 && message[0] == SPACE {
      kept := message[1..];
      assert message == [SPACE] + kept;
    }
    var line := LineConfound(kept, false, limit);
    r := LOG_MESSAGE + line;
    assert r[4..] == line && Shows(message, kept);
  }
}
