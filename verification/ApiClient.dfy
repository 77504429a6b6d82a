/** The one-pass scans of api_client.rs.  Every contract says the same thing: the answer is the one
    found by first blanking all strings and comments and then looking at brackets only. */
module ApiClient {
  import opened Options
  import opened Trivia
  import opened TopLevel
  import opened Utf
  import opened SourceScanner

  /** A character position as the byte offset the Rust code reports. */
  function ToByte(text: string, position: Option<nat>): Option<nat> {
    match position
    case Some(k) => if k <= |text| then Some(ByteOf(text, k)) else None
    case None => None
  }

  ghost predicate OnlyCode(hit: nat -> bool, mask: Mask) {
    forall j: nat :: hit(j) ==> j < |mask| && mask[j].Some?
  }

  /** The scan passed over hidden characters: no depth moves and nothing is hit. */
  lemma Pass(hit: nat -> bool, mask: Mask, k: nat, later: nat)
    requires HiddenRun(mask, k, later) && OnlyCode(hit, mask)
    ensures DepthsAt(mask, later) == DepthsAt(mask, k) && Net(mask, Angle, later) == Net(mask, Angle, k)
    ensures Least(hit, k, |mask|) == Least(hit, later, |mask|)
  {
    NothingMoves(mask, k, later);
    NothingHit(hit, k, later, |mask|);
  }

  /** The scan looked at a code character: what that does to the depths and to the answer. */
  lemma Look(hit: nat -> bool, mask: Mask, k: nat)
    requires k < |mask| && mask[k].Some?
    ensures DepthsAt(mask, k + 1) == Bump(DepthsAt(mask, k), mask[k].value)
    ensures Least(hit, k, |mask|) == if hit(k) then Some(k) else Least(hit, k + 1, |mask|)
  {
  }

  lemma Begin(mask: Mask)
    ensures DepthsAt(mask, 0) == Flat && Net(mask, Angle, 0) == 0
  {
  }

  lemma Finish(hit: nat -> bool, n: nat)
    ensures Least(hit, n, n) == None
  {
  }

  lemma AtEnd(text: string, k: nat)
    requires k <= |text| && ByteOf(text, k) >= Length(Utf8, text)
    ensures k == |text|
  {
    CharAtBoundary(text, k);
  }

  lemma TopLevelNeedleHere(mask: Mask, needles: seq<char>, k: nat)
    requires k < |mask| && mask[k].Some?
    ensures TopLevelNeedle(mask, needles)(k)
            <==> mask[k].value in needles && !IsBracket(mask[k].value) && DepthsAt(mask, k) == Flat
  {
  }

  lemma TopLevelNeedleIsCode(mask: Mask, needles: seq<char>)
    ensures OnlyCode(TopLevelNeedle(mask, needles), mask)
  {
  }

  /** The four depth counters of the source are the fields of one `Depths` value. */
  method FirstTopLevelIndexOfAny(text: string, needles: seq<char>) returns (found: Option<nat>)
    ensures found == ToByte(text, Least(TopLevelNeedle(Blank(text), needles), 0, |text|))
  {
    hide Blank, MaskFrom, DepthsAt, Least, ByteOf, Length, CharAt, Width, Scanner.At, HiddenRun, Bump, OnlyCode,
         IsBracket, TopLevelNeedle;
    var depths := Flat;
    var index: nat := 0;
    var scanner := new Scanner(text, 0);
    ghost var k: nat := 0;
    ghost var mask, hit := Blank(text), TopLevelNeedle(Blank(text), needles);
    Begin(mask);
    TopLevelNeedleIsCode(mask, needles);
    while index < Length(Utf8, text)
      invariant k <= |text| && index == ByteOf(text, k) && scanner.At(mask, text, index, k)
      invariant depths == DepthsAt(mask, k)
      invariant Least(hit, 0, |text|) == Least(hit, k, |text|)
      decreases |text| - k
    {
      var next, later := scanner.Skip(mask, text, index, k);
      if next > index {
        Pass(hit, mask, k, later);
        index, k := next, later;
        continue;
      }
      Look(hit, mask, k);
      TopLevelNeedleHere(mask, needles, k);
      var ch := CharAt(text, index).value;
      if ch in needles && !IsBracket(ch) && depths == Flat {
        return Some(index);
      }
      depths := Bump(depths, ch);
      index, k := index + Width(Utf8, ch), k + 1;
    }
    AtEnd(text, k);
    Finish(hit, |text|);
    found := None;
  }

  lemma TopLevelAngleHere(mask: Mask, k: nat)
    requires k < |mask| && mask[k].Some?
    ensures TopLevelAngle(mask)(k) <==> mask[k].value == '<' && DepthsAt(mask, k).(angle := 0) == Flat
  {
  }

  lemma TopLevelAngleIsCode(mask: Mask)
    ensures OnlyCode(TopLevelAngle(mask), mask)
  {
  }

  method FirstTopLevelOpeningAngle(text: string) returns (found: Option<nat>)
    ensures found == ToByte(text, Least(TopLevelAngle(Blank(text)), 0, |text|))
  {
    hide Blank, MaskFrom, DepthsAt, Least, ByteOf, Length, CharAt, Width, Scanner.At, HiddenRun, Bump, OnlyCode,
         IsBracket, TopLevelAngle;
    var depths := Flat;
    var index: nat := 0;
    var scanner := new Scanner(text, 0);
    ghost var k: nat := 0;
    ghost var mask, hit := Blank(text), TopLevelAngle(Blank(text));
    Begin(mask);
    TopLevelAngleIsCode(mask);
    while index < Length(Utf8, text)
      invariant k <= |text| && index == ByteOf(text, k) && scanner.At(mask, text, index, k)
      invariant depths == DepthsAt(mask, k)
      invariant Least(hit, 0, |text|) == Least(hit, k, |text|)
      decreases |text| - k
    {
      var next, later := scanner.Skip(mask, text, index, k);
      if next > index {
        Pass(hit, mask, k, later);
        index, k := next, later;
        continue;
      }
      Look(hit, mask, k);
      TopLevelAngleHere(mask, k);
      var ch := CharAt(text, index).value;
      if ch == '<' && depths.(angle := 0) == Flat {
        return Some(index);
      }
      depths := Bump(depths, ch);
      index, k := index + Width(Utf8, ch), k + 1;
    }
    AtEnd(text, k);
    Finish(hit, |text|);
    found := None;
  }

  lemma TopLevelParenHere(mask: Mask, k: nat)
    requires k < |mask| && mask[k].Some?
    ensures TopLevelParen(mask)(k) <==> mask[k].value == '(' && DepthsAt(mask, k).(paren := 0) == Flat
  {
  }

  lemma TopLevelParenIsCode(mask: Mask)
    ensures OnlyCode(TopLevelParen(mask), mask)
  {
  }

  method FirstTopLevelOpeningParen(text: string) returns (found: Option<nat>)
    ensures found == ToByte(text, Least(TopLevelParen(Blank(text)), 0, |text|))
  {
    hide Blank, MaskFrom, DepthsAt, Least, ByteOf, Length, CharAt, Width, Scanner.At, HiddenRun, Bump, OnlyCode,
         IsBracket, TopLevelParen;
    var depths := Flat;
    var index: nat := 0;
    var scanner := new Scanner(text, 0);
    ghost var k: nat := 0;
    ghost var mask, hit := Blank(text), TopLevelParen(Blank(text));
    Begin(mask);
    TopLevelParenIsCode(mask);
    while index < Length(Utf8, text)
      invariant k <= |text| && index == ByteOf(text, k) && scanner.At(mask, text, index, k)
      invariant depths == DepthsAt(mask, k)
      invariant Least(hit, 0, |text|) == Least(hit, k, |text|)
      decreases |text| - k
    {
      var next, later := scanner.Skip(mask, text, index, k);
      if next > index {
        Pass(hit, mask, k, later);
        index, k := next, later;
        continue;
      }
      Look(hit, mask, k);
      TopLevelParenHere(mask, k);
      var ch := CharAt(text, index).value;
      if ch == '(' && depths.(paren := 0) == Flat {
        return Some(index);
      }
      depths := Bump(depths, ch);
      index, k := index + Width(Utf8, ch), k + 1;
    }
    AtEnd(text, k);
    Finish(hit, |text|);
    found := None;
  }

  lemma AngleBalanceIsCode(mask: Mask)
    ensures OnlyCode(AngleBalance(mask), mask)
  {
  }

  ghost predicate NeverBelow(mask: Mask, k: nat)
    requires k <= |mask|
  {
    forall j :: 0 <= j <= k ==> Net(mask, Angle, j) >= 0
  }

  lemma NothingDips(mask: Mask, k: nat, later: nat)
    requires HiddenRun(mask, k, later)
    ensures NeverBelow(mask, later) <==> NeverBelow(mask, k)
  {
    forall j | k <= j <= later
      ensures Net(mask, Angle, j) == Net(mask, Angle, k)
    {
      assert HiddenRun(mask, k, j);
      NothingMoves(mask, k, j);
    }
  }

  /** A closer where nothing is open: no balance can follow. */
  lemma {:induction false} NoBalanceAfterDip(mask: Mask, dip: nat, k: nat)
    requires dip <= |mask| && Net(mask, Angle, dip) < 0 && dip <= k <= |mask|
    ensures Least(AngleBalance(mask), k, |mask|) == None
    decreases |mask| - k
  {
    if k < |mask| {
      assert !AngleBalance(mask)(k);
      NoBalanceAfterDip(mask, dip, k + 1);
    }
  }

  lemma NotBelowSoFar(mask: Mask, base: nat)
    requires base <= |mask| && forall j :: 0 <= j < base ==> mask[j] == None
    ensures NeverBelow(mask, base) && Net(mask, Angle, base) == 0
  {
    forall j | 0 <= j <= base
      ensures Net(mask, Angle, j) == 0
    {
      NetOfHidden(mask, j);
    }
  }

  lemma StillNotBelow(mask: Mask, k: nat)
    requires k < |mask| && NeverBelow(mask, k) && Net(mask, Angle, k + 1) >= 0
    ensures NeverBelow(mask, k + 1)
  {
  }

  lemma HiddenBefore(text: string, base: nat)
    requires base <= |text|
    ensures forall j :: 0 <= j < base ==> MaskFrom(text, base)[j] == None
  {
  }

  lemma NeverBelowHere(mask: Mask, k: nat)
    requires k < |mask| && mask[k].Some? && NeverBelow(mask, k)
    ensures AngleBalance(mask)(k) <==> mask[k].value == '>' && Net(mask, Angle, k) == 1
    ensures Net(mask, Angle, k + 1)
            == Net(mask, Angle, k) + (if mask[k].value == '<' then 1 else if mask[k].value == '>' then -1 else 0)
  {
  }

  /** `matching_angle_close`: starts a fresh scanner on the opening angle itself. */
  method MatchingAngleClose(text: string, open: nat) returns (close: Option<nat>)
    ensures close == match IndexAt(Utf8, text, open)
                     case Some(base) => ToByte(text, Least(AngleBalance(MaskFrom(text, base)), base, |text|))
                     case None => None
  {
    hide IndexAt, Blank, MaskFrom, Least, ByteOf, Length, CharAt, Width, Scanner.At, HiddenRun, OnlyCode, Net,
         NeverBelow, AngleBalance;
    if !IsCharBoundary(text, open) {
      return None;
    }
    ghost var base: nat := IndexAt(Utf8, text, open).value;
    BoundaryIndex(text, open);
    var depth: nat := 0;
    var index: nat := open;
    var scanner := new Scanner(text, base);
    ghost var k: nat := base;
    ghost var mask := MaskFrom(text, base);
    ghost var hit := AngleBalance(mask);
    HiddenBefore(text, base);
    NotBelowSoFar(mask, base);
    AngleBalanceIsCode(mask);
    while index < Length(Utf8, text)
      invariant k <= |text| && index == ByteOf(text, k) && scanner.At(mask, text, index, k)
      invariant depth == Net(mask, Angle, k) && NeverBelow(mask, k)
      invariant Least(hit, base, |text|) == Least(hit, k, |text|)
      decreases |text| - k
    {
      var next, later := scanner.Skip(mask, text, index, k);
      if next > index {
        Pass(hit, mask, k, later);
        NothingDips(mask, k, later);
        index, k := next, later;
        continue;
      }
      Look(hit, mask, k);
      NeverBelowHere(mask, k);
      var ch := CharAt(text, index).value;
      if ch == '<' {
        depth := depth + 1;
      } else if ch == '>' {
        if depth == 0 {
          NoBalanceAfterDip(mask, k + 1, k + 1);
          return None;
        }
        depth := depth - 1;
        if depth == 0 {
          return Some(index);
        }
      }
      StillNotBelow(mask, k);
      index, k := index + Width(Utf8, ch), k + 1;
    }
    AtEnd(text, k);
    Finish(hit, |text|);
    close := None;
  }

  // ---- splitting ----

  datatype ByteRange = ByteRange(start: nat, end: nat)

  /** `ranges` are the byte forms of the character ranges `chars`. */
  ghost predicate InBytes(text: string, ranges: seq<ByteRange>, chars: seq<Range>) {
    |ranges| == |chars|
    && forall i :: 0 <= i < |chars| ==>
         chars[i].0 <= chars[i].1 <= |text|
         && ranges[i] == ByteRange(ByteOf(text, chars[i].0), ByteOf(text, chars[i].1))
  }

  lemma InBytesAppend(text: string, ranges: seq<ByteRange>, chars: seq<Range>, start: nat, end: nat)
    requires InBytes(text, ranges, chars) && start <= end <= |text|
    ensures InBytes(text, ranges + [ByteRange(ByteOf(text, start), ByteOf(text, end))], chars + [(start, end)])
  {
  }

  lemma InBytesEmpty(text: string)
    ensures InBytes(text, [], [])
  {
  }

  lemma LengthIs(text: string)
    ensures Length(Utf8, text) == ByteOf(text, |text|)
  {
  }

  method SplitTopLevelRanges(text: string, delimiter: char) returns (ranges: seq<ByteRange>)
    ensures InBytes(text, ranges, Split(Blank(text), delimiter))
  {
    hide Blank, MaskFrom, DepthsAt, ByteOf, Length, CharAt, Width, Scanner.At, HiddenRun, Bump, IsBracket, Cut,
         SplitFrom, InBytes;
    ranges := [];
    var depths := Flat;
    var start: nat, index: nat := 0, 0;
    var scanner := new Scanner(text, 0);
    ghost var mask := Blank(text);
    ghost var first: nat, k: nat, done: seq<Range> := 0, 0, [];
    Begin(mask);
    InBytesEmpty(text);
    RangesAssoc([], [], SplitFrom(mask, delimiter, 0, 0));
    while index < Length(Utf8, text)
      invariant first <= k <= |text| && index == ByteOf(text, k) && start == ByteOf(text, first)
      invariant scanner.At(mask, text, index, k) && depths == DepthsAt(mask, k)
      invariant InBytes(text, ranges, done)
      invariant Split(mask, delimiter) == done + SplitFrom(mask, delimiter, first, k)
      decreases |text| - k
    {
      var next, later := scanner.Skip(mask, text, index, k);
      if next > index {
        NothingMoves(mask, k, later);
        NothingCut(mask, delimiter, first, k, later);
        index, k := next, later;
        continue;
      }
      Look(_ => false, mask, k);
      CutHere(mask, delimiter, first, k);
      var ch := CharAt(text, index).value;
      if !IsBracket(ch) && ch == delimiter && depths == Flat {
        InBytesAppend(text, ranges, done, first, k);
        ranges := ranges + [ByteRange(start, index)];
        RangesAssoc(done, [(first, k)], SplitFrom(mask, delimiter, k + 1, k + 1));
        done, first := done + [(first, k)], k + 1;
        start := index + Width(Utf8, ch);
      }
      depths := Bump(depths, ch);
      index, k := index + Width(Utf8, ch), k + 1;
    }
    AtEnd(text, k);
    SplitDone(mask, delimiter, first);
    InBytesAppend(text, ranges, done, first, |text|);
    LengthIs(text);
    ranges := ranges + [ByteRange(start, Length(Utf8, text))];
  }
}
