/** Byte and UTF-16 offsets into a Rust `&str`.  A text is a sequence of Unicode scalar values; an
    offset in either encoding is the width of the characters before it. */
module Utf {
  import opened Options

  datatype Encoding = Utf8 | Utf16

  const U32_LIMIT := 0x1_0000_0000

  /** Code units one character takes (section 3 of RFC 3629, section 2.1 of RFC 2781). */
  function Width(encoding: Encoding, c: char): (n: nat)
    ensures 1 <= n <= 4
  {
    var scalar := c as int;
    match encoding
    case Utf8 => if scalar < 0x80 then 1 else if scalar < 0x800 then 2 else if scalar < 0x1_0000 then 3 else 4
    case Utf16 => if scalar < 0x1_0000 then 1 else 2
  }

  /** How many scalar values `bytes` bytes of UTF-8 can hold: seven bits in one byte; otherwise six bits in
      every byte but the first, which gives one bit less for every further byte. */
  function Capacity(bytes: nat): nat {
    match bytes
    case 1 => 0x80
    case 2 => 0x20 * 0x40
    case 3 => 0x10 * 0x40 * 0x40
    case 4 => 0x08 * 0x40 * 0x40 * 0x40
    case _ => 0
  }

  /** UTF-8 takes the fewest bytes that can hold the character; UTF-16 takes one unit of sixteen bits, or
      two units of ten bits each for what lies beyond. */
  lemma WidthIsLeast(c: char)
    ensures c as int < Capacity(Width(Utf8, c))
    ensures forall bytes :: 1 <= bytes < Width(Utf8, c) ==> Capacity(bytes) <= c as int
    ensures if c as int < 0x1_0000 then Width(Utf16, c) == 1
            else Width(Utf16, c) == 2 && c as int - 0x1_0000 < 0x400 * 0x400
  {
    assert Capacity(1) == 0x80 && Capacity(2) == 0x800 && Capacity(3) == 0x1_0000 && Capacity(4) == 0x20_0000;
  }

  function Offset(encoding: Encoding, text: string, k: nat): nat
    requires k <= |text|
  {
    if k == 0 then 0 else Offset(encoding, text, k - 1) + Width(encoding, text[k - 1])
  }

  function ByteOf(text: string, k: nat): nat
    requires k <= |text|
  {
    Offset(Utf8, text, k)
  }

  /** `text.len()` in the given encoding. */
  function Length(encoding: Encoding, text: string): nat {
    Offset(encoding, text, |text|)
  }

  /** The character boundary at `offset`, if there is one at or after character `from`. */
  function IndexFrom(encoding: Encoding, text: string, offset: nat, from: nat): (r: Option<nat>)
    requires from <= |text|
    ensures r.Some? ==> from <= r.value <= |text| && Offset(encoding, text, r.value) == offset
    decreases |text| - from
  {
    if offset == Offset(encoding, text, from) then Some(from)
    else if from == |text| then None
    else IndexFrom(encoding, text, offset, from + 1)
  }

  function IndexAt(encoding: Encoding, text: string, offset: nat): Option<nat> {
    IndexFrom(encoding, text, offset, 0)
  }

  predicate IsCharBoundary(text: string, byte: nat) {
    IndexAt(Utf8, text, byte).Some?
  }

  /** `text.get(byte..)?.chars().next()`. */
  function CharAt(text: string, byte: nat): Option<char> {
    match IndexAt(Utf8, text, byte)
    case Some(k) => if k < |text| then Some(text[k]) else None
    case None => None
  }

  // ---- offsets are strictly monotone and slice well ----

  lemma {:induction false} OffsetsIncrease(encoding: Encoding, text: string, i: nat, j: nat)
    requires i < j <= |text|
    ensures Offset(encoding, text, i) + (j - i) <= Offset(encoding, text, j)
    decreases j
  {
    if i < j - 1 {
      OffsetsIncrease(encoding, text, i, j - 1);
    }
  }

  lemma {:induction false} OffsetInSlice(encoding: Encoding, text: string, from: nat, to: nat, k: nat)
    requires from <= to <= |text| && k <= to - from
    ensures Offset(encoding, text, from + k) == Offset(encoding, text, from) + Offset(encoding, text[from..to], k)
    decreases k
  {
    if k > 0 {
      OffsetInSlice(encoding, text, from, to, k - 1);
    }
  }

  lemma {:induction false} IndexFromFinds(encoding: Encoding, text: string, from: nat, k: nat)
    requires from <= k <= |text|
    ensures IndexFrom(encoding, text, Offset(encoding, text, k), from) == Some(k)
    decreases k - from
  {
    if from < k {
      OffsetsIncrease(encoding, text, from, k);
      IndexFromFinds(encoding, text, from + 1, k);
    }
  }

  lemma {:induction false} IndexFromMisses(encoding: Encoding, text: string, offset: nat, from: nat)
    requires from <= |text| && IndexFrom(encoding, text, offset, from).None?
    ensures forall k :: from <= k <= |text| ==> Offset(encoding, text, k) != offset
    decreases |text| - from
  {
    if from < |text| {
      IndexFromMisses(encoding, text, offset, from + 1);
    }
  }

  /** What a scan loop needs at the boundary it stands on. */
  lemma CharAtBoundary(text: string, k: nat)
    requires k <= |text|
    ensures CharAt(text, ByteOf(text, k)) == if k < |text| then Some(text[k]) else None
    ensures k < |text| <==> ByteOf(text, k) < Length(Utf8, text)
    ensures k < |text| ==> ByteOf(text, k + 1) == ByteOf(text, k) + Width(Utf8, text[k])
  {
    IndexFromFinds(Utf8, text, 0, k);
    if k < |text| {
      OffsetsIncrease(Utf8, text, k, |text|);
    }
  }

  lemma BoundaryIndex(text: string, byte: nat)
    requires IsCharBoundary(text, byte)
    ensures var k := IndexAt(Utf8, text, byte).value; k <= |text| && ByteOf(text, k) == byte
  {
  }

  // ---- converting between the two encodings ----

  /** Translates an offset, or nothing when the offset is not on a character boundary. */
  function Convert(source: Encoding, target: Encoding, text: string, offset: nat): Option<nat> {
    match IndexAt(source, text, offset)
    case Some(k) => Some(Offset(target, text, k))
    case None => None
  }

  /** The two translations undo each other. */
  lemma ConvertRoundTrip(source: Encoding, target: Encoding, text: string, offset: nat)
    ensures match Convert(source, target, text, offset)
            case Some(other) => Convert(target, source, text, other) == Some(offset)
            case None => forall other :: Convert(target, source, text, other) != Some(offset)
  {
    match IndexAt(source, text, offset)
    case Some(k) => IndexFromFinds(target, text, 0, k);
    case None => IndexFromMisses(source, text, offset, 0);
  }

  /** The translation is strictly monotone on the offsets it accepts. */
  lemma ConvertIsMonotone(source: Encoding, target: Encoding, text: string, x: nat, y: nat)
    requires x < y && Convert(source, target, text, x).Some? && Convert(source, target, text, y).Some?
    ensures Convert(source, target, text, x).value < Convert(source, target, text, y).value
  {
    var i, j := IndexAt(source, text, x).value, IndexAt(source, text, y).value;
    if j < i {
      OffsetsIncrease(source, text, j, i);
    }
    OffsetsIncrease(target, text, i, j);
  }

  /** Character `k` is written as a surrogate pair and `offset` points between its halves. */
  predicate InsidePair(text: string, offset: nat, k: nat) {
    k < |text| && Width(Utf16, text[k]) == 2 && offset == Offset(Utf16, text, k) + 1
  }

  lemma {:induction false} BoundaryBelow(text: string, offset: nat, n: nat) returns (k: nat)
    requires n <= |text| && offset <= Offset(Utf16, text, n)
    ensures k <= n && (Offset(Utf16, text, k) == offset || InsidePair(text, offset, k))
    decreases n
  {
    if offset == Offset(Utf16, text, n) {
      k := n;
    } else if offset >= Offset(Utf16, text, n - 1) {
      k := n - 1;
    } else {
      k := BoundaryBelow(text, offset, n - 1);
    }
  }

  /** A UTF-16 offset is refused exactly inside a surrogate pair and past the end. */
  lemma Utf16RefusedExactly(text: string, offset: nat)
    ensures Convert(Utf16, Utf8, text, offset).None?
            <==> offset > Length(Utf16, text) || exists k: nat :: InsidePair(text, offset, k)
  {
    if Convert(Utf16, Utf8, text, offset).None? {
      IndexFromMisses(Utf16, text, offset, 0);
      if offset <= Length(Utf16, text) {
        var k := BoundaryBelow(text, offset, |text|);
        assert InsidePair(text, offset, k);
      }
    } else {
      var i := IndexAt(Utf16, text, offset).value;
      if i < |text| {
        OffsetsIncrease(Utf16, text, i, |text|);
      }
      forall k: nat
        ensures !InsidePair(text, offset, k)
      {
        if InsidePair(text, offset, k) {
          if i < k { OffsetsIncrease(Utf16, text, i, k); }
          if k + 1 < i { OffsetsIncrease(Utf16, text, k + 1, i); }
        }
      }
    }
  }

  // ---- the loops of api_client.rs ----

  lemma {:induction false} NothingBefore(text: string, offset: nat, k: nat)
    requires k <= |text| && offset < Offset(Utf16, text, k)
    ensures IndexFrom(Utf16, text, offset, k) == None
    decreases |text| - k
  {
    if k < |text| {
      NothingBefore(text, offset, k + 1);
    }
  }

  /** `byte_index_from_utf16`: the running offset is a `u32`; when adding a width would overflow the
      answer is `None` anyway, so no overflow ever changes the result. */
  method ByteIndexFromUtf16(text: string, target: nat) returns (byte: Option<nat>)
    requires target < U32_LIMIT
    ensures byte == Convert(Utf16, Utf8, text, target)
  {
    var utf16, at := 0, 0;
    for k := 0 to |text|
      invariant utf16 == Offset(Utf16, text, k) && at == ByteOf(text, k)
      invariant utf16 <= target
      invariant IndexAt(Utf16, text, target) == IndexFrom(Utf16, text, target, k)
    {
      if utf16 == target {
        return Some(at);
      }
      var next := utf16 + Width(Utf16, text[k]);
      if next >= U32_LIMIT || target < next {
        NothingBefore(text, target, k + 1);
        return None;
      }
      utf16, at := next, at + Width(Utf8, text[k]);
    }
    byte := if utf16 == target then Some(Length(Utf8, text)) else None;
  }

  method Utf16ByteRange(text: string, start: nat, end: nat) returns (range: Option<(nat, nat)>)
    requires start < U32_LIMIT && end < U32_LIMIT
    ensures range.Some? <==> start <= end && Convert(Utf16, Utf8, text, start).Some?
                             && Convert(Utf16, Utf8, text, end).Some?
    ensures range.Some? ==> Convert(Utf16, Utf8, text, start) == Some(range.value.0)
                            && Convert(Utf16, Utf8, text, end) == Some(range.value.1)
  {
    if start > end {
      return None;
    }
    var first := ByteIndexFromUtf16(text, start);
    if first.None? {
      return None;
    }
    var last := ByteIndexFromUtf16(text, end);
    if last.None? {
      return None;
    }
    return Some((first.value, last.value));
  }

  /** `utf16_index_from_byte`: counts the units before `byte`; a count beyond `u32` is refused. */
  method Utf16IndexFromByte(text: string, byte: nat) returns (offset: Option<nat>)
    ensures offset == match Convert(Utf8, Utf16, text, byte)
                      case Some(units) => if units < 0x1_0000_0000 then Some(units) else None
                      case None => None
  {
    if !IsCharBoundary(text, byte) {
      return None;
    }
    var prefix := text[..IndexAt(Utf8, text, byte).value];
    var count := 0;
    for k := 0 to |prefix|
      invariant count == Offset(Utf16, text, k)
    {
      count := count + Width(Utf16, prefix[k]);
    }
    return if count < U32_LIMIT then Some(count) else None;
  }
}
