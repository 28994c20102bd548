/** HTTP byte ranges: parsing, the window they select, and printing them back. */
module HttpRange {
  import opened Wrappers

  const TWO63: int := 0x8000_0000_0000_0000
  const TWO64: int := 0x1_0000_0000_0000_0000

  predicate Fits64(x: int) { -TWO63 <= x < TWO63 }

  /** int64 arithmetic wraps. */
  function Wrap64(x: int): (r: int)
    ensures Fits64(r)
    ensures Fits64(x) ==> r == x
  {
    (x + TWO63) % TWO64 - TWO63
  }

  datatype Error =
    | NoPrefix | NoDash | Signed | BadFirst | NegativeFirst | BadLast | NegativeLast
    | InvalidRange | NoPositions | NegativeSize | Unexpected

  datatype Result<T> = Ok(value: T) | Err(error: Error)


  /** A suffix of length n is Spec(true, -n, -1); an open end is -1. */
  datatype Spec = Spec(isSuffix: bool, start: int, end: int)

  // ---------- Decimal numbers ----------

  predicate IsDigit(c: char) { '0' <= c <= '9' }

  predicate IsDecimal(s: string) { s != "" && forall c :: c in s ==> IsDigit(c) }

  function Value(s: string): nat
    requires forall c :: c in s ==> IsDigit(c)
  {
    if s == "" then 0
    else
      assert s[|s| - 1] in s && IsDigit(s[|s| - 1]);
      10 * Value(s[..|s| - 1]) + (s[|s| - 1] as int - '0' as int)
  }

  /** `strconv.ParseInt(s, 10, 64)`. */
  function ParseInt(s: string): Option<int> {
    if s == "" then None
    else
      var negative := s[0] == '-';
      var digits := if s[0] == '-' || s[0] == '+' then s[1..] else s;
      if !IsDecimal(digits) then None
      else if negative then (if Value(digits) > TWO63 then None else Some(0 - Value(digits)))
      else if Value(digits) >= TWO63 then None
      else Some(Value(digits))
  }

  /** `%d` of a non-negative number. */
  function Print(n: nat): (s: string)
    ensures IsDecimal(s)
  {
    if n < 10 then [('0' as int + n) as char] else Print(n / 10) + [('0' as int + n % 10) as char]
  }

  function PrintInt(x: int): string { if x < 0 then "-" + Print(-x) else Print(x) }

  lemma {:induction false} PrintValue(n: nat)
    ensures Value(Print(n)) == n
  {
    if n < 10 {
      assert Print(n)[..0] == "";
    } else {
      PrintValue(n / 10);
      assert Print(n)[..|Print(n)| - 1] == Print(n / 10);
    }
  }

  // ---------- The parser ----------

  const PREFIX: string := "bytes="

  /** The first dash, or the length if there is none. */
  function FirstDash(s: string): (i: nat)
    ensures i <= |s| && '-' !in s[..i] && (i < |s| ==> s[i] == '-')
  {
    if s == "" || s[0] == '-' then 0
    else
      var i := FirstDash(s[1..]);
      assert s[..i + 1] == [s[0]] + s[1..][..i];
      1 + i
  }

  /** One position: -1 when it is missing. */
  function Position(s: string, bad: Error, negative: Error): Result<int> {
    if s == "" then Ok(-1)
    else if s[0] == '+' then Err(Signed)
    else match ParseInt(s)
      case None => Err(bad)
      case Some(n) => if n < 0 then Err(negative) else Ok(n)
  }

  function Combine(first: int, last: int): Result<Spec> {
    if first > -1 && last > -1 then (if first > last then Err(InvalidRange) else Ok(Spec(false, first, last)))
    else if first > -1 then Ok(Spec(false, first, -1))
    else if last > -1 then (if last == 0 then Err(InvalidRange) else Ok(Spec(true, Wrap64(-last), -1)))
    else Err(NoPositions)
  }

  function ParseSpec(header: string): Result<Spec> {
    if !(PREFIX <= header) then Err(NoPrefix)
    else
      var body := header[|PREFIX|..];
      var dash := FirstDash(body);
      if dash == |body| then Err(NoDash)
      else
        match Position(body[..dash], BadFirst, NegativeFirst)
        case Err(e) => Err(e)
        case Ok(first) =>
          match Position(body[dash + 1..], BadLast, NegativeLast)
          case Err(e) => Err(e)
          case Ok(last) => Combine(first, last)
  }

  // ---------- The window ----------

  function GetLength(h: Option<Spec>, size: int): Result<int> {
    if size < 0 then Err(NegativeSize)
    else match h
      case None => Ok(size)
      case Some(spec) =>
        if spec.isSuffix then Ok(if Wrap64(-spec.start) > size then size else Wrap64(-spec.start))
        else if spec.start >= size then Err(InvalidRange)
        else if spec.end > -1 then
          var end := if size <= spec.end then Wrap64(size - 1) else spec.end;
          Ok(Wrap64(Wrap64(end - spec.start) + 1))
        else if spec.end == -1 then Ok(Wrap64(size - spec.start))
        else Err(Unexpected)
  }

  function GetOffsetLength(h: Option<Spec>, size: int): Result<(int, int)> {
    match h
    case None => Ok((0, size))
    case Some(spec) =>
      match GetLength(h, size)
      case Err(e) => Err(e)
      case Ok(length) =>
        var start := if !spec.isSuffix then spec.start
                     else if Wrap64(size + spec.start) < 0 then 0 else Wrap64(size + spec.start);
        Ok((start, length))
  }

  /** `String`: empty for no range and for one that cannot be met. */
  function ToString(h: Option<Spec>, size: int): string {
    if h.None? then ""
    else match GetOffsetLength(h, size)
      case Err(_) => ""
      case Ok(w) => PrintInt(w.0) + "-" + PrintInt(Wrap64(Wrap64(w.0 + w.1) - 1))
  }

  // ---------- RFC 9110, section 14.1.2 ----------

  /** int-range: first-pos "-" [ last-pos ]; suffix-range: "-" suffix-length. */
  datatype Range = IntRange(first: nat, last: Option<nat>) | SuffixRange(length: nat)

  /** The byte positions of a representation of this size that the range selects. */
  predicate Selects(r: Range, size: nat, i: int) {
    0 <= i < size &&
    match r
    case IntRange(first, last) => first <= i && (last.Some? ==> i <= last.value)
    case SuffixRange(n) => size - n <= i
  }

  predicate IsPosition(s: string) { IsDecimal(s) && Value(s) < TWO63 }

  /** How the last position may be written: in the grammar, or as a minus sign and zeros. */
  predicate IsLast(s: string) { IsPosition(s) || (s != "" && s[0] == '-' && IsDecimal(s[1..]) && Value(s[1..]) == 0) }

  function LastValue(s: string): nat
    requires IsLast(s)
  {
    if IsPosition(s) then Value(s) else 0
  }

  /** The range a header's two parts stand for, when there is one. */
  function Meaning(first: string, last: string): Option<Range>
    requires (first == "" || IsPosition(first)) && (last == "" || IsLast(last))
  {
    if first != "" && last != "" then
      (if Value(first) > LastValue(last) then None else Some(IntRange(Value(first), Some(LastValue(last)))))
    else if first != "" then Some(IntRange(Value(first), None))
    else if last != "" && LastValue(last) > 0 then Some(SuffixRange(LastValue(last)))
    else None
  }

  function SpecOf(r: Range): Spec {
    match r
    case IntRange(first, last) => Spec(false, first, if last.Some? then last.value else -1)
    case SuffixRange(n) => Spec(true, 0 - n, -1)
  }

  /** Ranges whose numbers fit in an int64, as the parser makes them. */
  predicate Small(r: Range) {
    match r
    case IntRange(first, last) => first < TWO63 && (last.Some? ==> first <= last.value < TWO63)
    case SuffixRange(n) => 0 < n < TWO63
  }

  lemma PositionOk(s: string, bad: Error, negative: Error)
    requires s != ""
    ensures Position(s, bad, negative).Ok? <==> IsLast(s)
    ensures IsLast(s) ==> Position(s, bad, negative) == Ok(LastValue(s))
  {
    assert s[0] in s;
  }

  lemma SplitAtDash(first: string, last: string)
    requires '-' !in first
    ensures FirstDash(first + "-" + last) == |first|
    ensures (first + "-" + last)[..|first|] == first && (first + "-" + last)[|first| + 1..] == last
  {
    var s := first + "-" + last;
    var i := FirstDash(s);
    assert s[|first|] == '-';
    assert forall j :: 0 <= j < |first| ==> s[j] == first[j] && first[j] in first;
    assert forall j :: 0 <= j < i ==> s[..i][j] == s[j];
    assert i == |first|;
  }

  lemma PositionHasNoDash(s: string)
    requires IsPosition(s)
    ensures '-' !in s
  {
  }

  /** The parser on a header given in parts. */
  lemma ParseParts(first: string, last: string)
    requires '-' !in first
    ensures ParseSpec(PREFIX + first + "-" + last) ==
      match Position(first, BadFirst, NegativeFirst)
      case Err(e) => Err(e)
      case Ok(a) =>
        match Position(last, BadLast, NegativeLast)
        case Err(e) => Err(e)
        case Ok(b) => Combine(a, b)
  {
    assert (PREFIX + first + "-" + last)[|PREFIX|..] == first + "-" + last;
    SplitAtDash(first, last);
  }

  /** Every header of that shape is read as its meaning; every decimal range of the grammar is of that shape. */
  lemma ParsesMeaning(first: string, last: string)
    requires (first == "" || IsPosition(first)) && (last == "" || IsLast(last))
    ensures ParseSpec(PREFIX + first + "-" + last).Ok? <==> Meaning(first, last).Some?
    ensures Meaning(first, last).Some? ==>
      && Small(Meaning(first, last).value)
      && ParseSpec(PREFIX + first + "-" + last) == Ok(SpecOf(Meaning(first, last).value))
  {
    if first != "" {
      PositionHasNoDash(first);
      PositionOk(first, BadFirst, NegativeFirst);
    }
    if last != "" { PositionOk(last, BadLast, NegativeLast); }
    ParseParts(first, last);
  }

  /** And nothing else is accepted: an accepted header has that shape. */
  lemma AcceptedHasMeaning(header: string) returns (first: string, last: string)
    requires ParseSpec(header).Ok?
    ensures (first == "" || IsPosition(first)) && (last == "" || IsLast(last))
    ensures header == PREFIX + first + "-" + last && Meaning(first, last).Some?
  {
    first, last := Cut(header);
    ParseParts(first, last);
    if first != "" {
      PositionOk(first, BadFirst, NegativeFirst);
      assert first[0] in first;
    }
    if last != "" { PositionOk(last, BadLast, NegativeLast); }
    ParsesMeaning(first, last);
  }

  lemma Cut(header: string) returns (first: string, last: string)
    requires ParseSpec(header).Ok?
    ensures '-' !in first && header == PREFIX + first + "-" + last
  {
    first, last := CutAt(header[|PREFIX|..]);
    assert header == PREFIX + header[|PREFIX|..];
  }

  lemma CutAt(body: string) returns (first: string, last: string)
    requires FirstDash(body) < |body|
    ensures '-' !in first && body == first + "-" + last
  {
    var dash := FirstDash(body);
    first, last := body[..dash], body[dash + 1..];
  }

  /** Every intermediate result of the window fits in an int64. */
  predicate NoStepWraps(spec: Spec, size: int) {
    if spec.isSuffix then Fits64(-spec.start) && Fits64(size + spec.start)
    else if spec.start >= size || spec.end < -1 then true
    else if spec.end == -1 then Fits64(size - spec.start)
    else
      var end := if size <= spec.end then size - 1 else spec.end;
      Fits64(size - 1) && Fits64(end - spec.start) && Fits64(end - spec.start + 1)
  }

  /** The computed window is exactly the selected positions, lies inside the resource, and fails exactly when an
      int-range starts at or beyond the end. No step of the arithmetic wraps. */
  lemma WindowIsSelection(r: Range, size: nat)
    requires Small(r) && size < TWO63
    ensures var w := GetOffsetLength(Some(SpecOf(r)), size);
      && (w.Err? <==> r.IntRange? && r.first >= size)
      && (w.Err? ==> w.error == InvalidRange)
      && (w.Ok? ==>
            && 0 <= w.value.0 && 0 <= w.value.1 && w.value.0 + w.value.1 <= size
            && forall i :: w.value.0 <= i < w.value.0 + w.value.1 <==> Selects(r, size, i))
    ensures NoStepWraps(SpecOf(r), size)
    ensures var w := GetOffsetLength(Some(SpecOf(r)), size);
      w.Ok? ==> Fits64(w.value.0 + w.value.1) && Fits64(w.value.0 + w.value.1 - 1)
  {
  }

  /** Every header the parser accepts, at every size. */
  lemma AcceptedWindow(header: string, size: nat) returns (r: Range)
    requires ParseSpec(header).Ok? && size < TWO63
    ensures Small(r) && ParseSpec(header).value == SpecOf(r)
    ensures var w := GetOffsetLength(Some(ParseSpec(header).value), size);
      && (w.Err? <==> r.IntRange? && r.first >= size)
      && (w.Ok? ==>
            && w.value.0 + w.value.1 <= size
            && forall i :: w.value.0 <= i < w.value.0 + w.value.1 <==> Selects(r, size, i))
  {
    var first, last := AcceptedHasMeaning(header);
    ParsesMeaning(first, last);
    r := Meaning(first, last).value;
    WindowIsSelection(r, size);
  }

  lemma PrintsWindow(r: Range, size: nat, off: nat, length: nat)
    requires Small(r) && size < TWO63 && GetOffsetLength(Some(SpecOf(r)), size) == Ok((off, length))
    requires 0 < length && off + length <= size
    ensures ToString(Some(SpecOf(r)), size) == Print(off) + "-" + Print(off + length - 1)
  {
  }

  lemma WindowOfClosedRange(off: nat, length: nat, size: nat)
    requires 0 < length && off + length <= size < TWO63
    ensures GetOffsetLength(Some(SpecOf(IntRange(off, Some(off + length - 1)))), size) == Ok((off, length))
  {
  }

  lemma PrintedPosition(n: nat)
    requires n < TWO63
    ensures IsPosition(Print(n)) && Value(Print(n)) == n
  {
    PrintValue(n);
  }

  lemma MeaningOfPrinted(off: nat, last: nat)
    requires off <= last < TWO63
    ensures IsPosition(Print(off)) && IsLast(Print(last))
    ensures Meaning(Print(off), Print(last)) == Some(IntRange(off, Some(last)))
  {
    PrintedPosition(off);
    PrintedPosition(last);
  }

  lemma ParsesPrinted(off: nat, last: nat)
    requires off <= last < TWO63
    ensures ParseSpec(PREFIX + (Print(off) + "-" + Print(last))) == Ok(SpecOf(IntRange(off, Some(last))))
  {
    var a, b := Print(off), Print(last);
    MeaningOfPrinted(off, last);
    ParsesMeaning(a, b);
    Regroup(PREFIX, a, b);
  }

  lemma Regroup(p: string, a: string, b: string)
    ensures p + (a + "-" + b) == p + a + "-" + b
  {
  }

  // ---------- Headers on numbers ----------

  /** "bytes=a-b": from a to b, cut at the end of the resource; b before a is an invalid range. */
  lemma ClosedHeader(a: nat, b: nat, size: nat)
    requires a < TWO63 && b < TWO63 && size < TWO63
    ensures var h := ParseSpec(PREFIX + Print(a) + "-" + Print(b));
      if b < a then h == Err(InvalidRange)
      else
        && h.Ok?
        && GetOffsetLength(Some(h.value), size) ==
             if a >= size then Err(InvalidRange) else Ok((a, (if b < size then b else size - 1) - a + 1))
  {
    ClosedParses(a, b);
    if a <= b { ClosedWindow(a, b, size); }
  }

  lemma ClosedParses(a: nat, b: nat)
    requires a < TWO63 && b < TWO63
    ensures ParseSpec(PREFIX + Print(a) + "-" + Print(b)) == if b < a then Err(InvalidRange) else Ok(Spec(false, a, b))
  {
    PrintedPosition(a);
    PrintedPosition(b);
    PositionHasNoDash(Print(a));
    PositionOk(Print(a), BadFirst, NegativeFirst);
    PositionOk(Print(b), BadLast, NegativeLast);
    ParseParts(Print(a), Print(b));
  }

  lemma ClosedWindow(a: nat, b: nat, size: nat)
    requires a <= b < TWO63 && size < TWO63
    ensures GetOffsetLength(Some(Spec(false, a, b)), size) ==
      if a >= size then Err(InvalidRange) else Ok((a, (if b < size then b else size - 1) - a + 1))
  {
  }

  /** "bytes=a-": from a to the end. */
  lemma OpenHeader(a: nat, size: nat)
    requires a < TWO63 && size < TWO63
    ensures var h := ParseSpec(PREFIX + Print(a) + "-" + "");
      h.Ok? && GetOffsetLength(Some(h.value), size) == if a >= size then Err(InvalidRange) else Ok((a, size - a))
  {
    PrintedPosition(a);
    PositionHasNoDash(Print(a));
    PositionOk(Print(a), BadFirst, NegativeFirst);
    ParseParts(Print(a), "");
  }

  /** "bytes=-n": the last n bytes, or all of a smaller resource; no bytes is an invalid range. */
  lemma SuffixHeader(n: nat, size: nat)
    requires n < TWO63 && size < TWO63
    ensures var h := ParseSpec(PREFIX + "" + "-" + Print(n));
      if n == 0 then h == Err(InvalidRange)
      else h.Ok? && GetOffsetLength(Some(h.value), size) == if n > size then Ok((0, size)) else Ok((size - n, n))
  {
    PrintedPosition(n);
    PositionOk(Print(n), BadLast, NegativeLast);
    ParseParts("", Print(n));
  }

  /** Without a range it is the whole resource; a negative size has no length; without a window nothing is printed. */
  lemma NoRangeIsWhole(h: Option<Spec>, size: int)
    ensures GetOffsetLength(None, size) == Ok((0, size)) && ToString(None, size) == ""
    ensures size >= 0 ==> GetLength(None, size) == Ok(size)
    ensures size < 0 ==> GetLength(h, size) == Err(NegativeSize)
    ensures GetOffsetLength(h, size).Err? ==> ToString(h, size) == ""
  {
  }

  lemma SatisfiableIsNotEmpty(r: Range, size: nat) returns (off: nat, length: nat)
    requires Small(r) && 0 < size < TWO63 && (r.IntRange? ==> r.first < size)
    ensures GetOffsetLength(Some(SpecOf(r)), size) == Ok((off, length)) && 0 < length && off + length <= size
  {
    var w := GetOffsetLength(Some(SpecOf(r)), size).value;
    off, length := w.0, w.1;
  }

  lemma ParsesToString(r: Range, size: nat, off: nat, length: nat)
    requires Small(r) && size < TWO63 && GetOffsetLength(Some(SpecOf(r)), size) == Ok((off, length))
    requires 0 < length && off + length <= size
    ensures ParseSpec(PREFIX + ToString(Some(SpecOf(r)), size)) == Ok(SpecOf(IntRange(off, Some(off + length - 1))))
  {
    PrintsWindow(r, size, off, length);
    ParsesPrinted(off, off + length - 1);
  }

  /** Print and parse back: the same window of the same resource. */
  lemma PrintParseRoundTrip(r: Range, size: nat) returns (back: Spec)
    requires Small(r) && 0 < size < TWO63 && (r.IntRange? ==> r.first < size)
    ensures ParseSpec(PREFIX + ToString(Some(SpecOf(r)), size)) == Ok(back)
    ensures GetOffsetLength(Some(back), size) == GetOffsetLength(Some(SpecOf(r)), size)
  {
    var off, length := SatisfiableIsNotEmpty(r, size);
    ParsesToString(r, size, off, length);
    WindowOfClosedRange(off, length, size);
    back := SpecOf(IntRange(off, Some(off + length - 1)));
  }
}
