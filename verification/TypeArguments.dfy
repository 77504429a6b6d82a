/** `type_argument_positions_for_source_range` of api_client.rs: where the type arguments written in
    a source range begin, as UTF-16 offsets into the whole source text. */
module TypeArguments {
  import opened Options
  import opened Trivia
  import opened TopLevel
  import opened Utf
  import opened ApiClient

  /** `&text[start..end]`.  The precondition is what keeps Rust from panicking. */
  function StrSlice(text: string, start: nat, end: nat): string
    requires IsCharBoundary(text, start) && IsCharBoundary(text, end) && start <= end
  {
    var from, upto := IndexAt(Utf8, text, start).value, IndexAt(Utf8, text, end).value;
    if from <= upto then text[from..upto] else []
  }

  lemma SliceIs(text: string, from: nat, upto: nat)
    requires from <= upto <= |text|
    ensures IsCharBoundary(text, ByteOf(text, from)) && IsCharBoundary(text, ByteOf(text, upto))
    ensures ByteOf(text, from) <= ByteOf(text, upto)
    ensures StrSlice(text, ByteOf(text, from), ByteOf(text, upto)) == text[from..upto]
  {
    IndexFromFinds(Utf8, text, 0, from);
    IndexFromFinds(Utf8, text, 0, upto);
    if from < upto {
      OffsetsIncrease(Utf8, text, from, upto);
    }
  }

  lemma ByteInSlice(text: string, from: nat, upto: nat, k: nat)
    requires from <= upto <= |text| && k <= upto - from
    ensures ByteOf(text, from + k) == ByteOf(text, from) + ByteOf(text[from..upto], k)
  {
    OffsetInSlice(Utf8, text, from, upto, k);
  }

  // ---- what the function is for, in characters ----

  /** Just after the first top-level `:` or `=`, or the start when there is none. */
  function TypeStart(slice: string): (start: nat)
    ensures start <= |slice|
  {
    var found := Least(TopLevelNeedle(Blank(slice), [':', '=']), 0, |slice|);
    if found.Some? && found.value < |slice| then found.value + 1 else 0
  }

  /** The first top-level `<` of the type, counted from where the type starts. */
  function AngleInType(slice: string): Option<nat> {
    var rest := slice[TypeStart(slice)..];
    Least(TopLevelAngle(Blank(rest)), 0, |rest|)
  }

  function Opening(slice: string): (open: Option<nat>)
    ensures open.Some? ==> open.value < |slice|
  {
    match AngleInType(slice)
    case None => None
    case Some(offset) => if TypeStart(slice) + offset < |slice| then Some(TypeStart(slice) + offset) else None
  }

  /** The `>` that closes the `<` at `open`. */
  function Closing(slice: string, open: nat): Option<nat>
    requires open <= |slice|
  {
    Least(AngleBalance(MaskFrom(slice, open)), open, |slice|)
  }

  function ArgumentSpan(slice: string): Option<(nat, nat)> {
    match Opening(slice)
    case None => None
    case Some(open) =>
      match Closing(slice, open)
      case None => None
      case Some(close) => Some((open, close))
  }

  function NonBlank(text: string, isWhitespace: char -> bool): nat -> bool {
    (k: nat) => k < |text| && !isWhitespace(text[k])
  }

  /** Where the first non-whitespace character of one piece lies. */
  function Lead(text: string, isWhitespace: char -> bool, range: Range): Option<nat> {
    if range.0 <= range.1 <= |text| then
      match Least(NonBlank(text[range.0..range.1], isWhitespace), 0, range.1 - range.0)
      case None => None
      case Some(here) => Some(range.0 + here)
    else None
  }

  /** First non-whitespace characters of the pieces that have one, in order. */
  function Leads(text: string, isWhitespace: char -> bool, ranges: seq<Range>): seq<nat> {
    if ranges == [] then []
    else
      var lead := Lead(text, isWhitespace, ranges[0]);
      (if lead.Some? then [lead.value] else []) + Leads(text, isWhitespace, ranges[1..])
  }

  function Plus(positions: seq<nat>, distance: nat): (r: seq<nat>)
    ensures |r| == |positions|
  {
    seq(|positions|, i requires 0 <= i < |positions| => positions[i] + distance)
  }

  /** Characters of `slice` at which a type argument begins. */
  function ArgumentStarts(slice: string, isWhitespace: char -> bool): seq<nat> {
    match ArgumentSpan(slice)
    case None => []
    case Some((open, close)) =>
      if open < close <= |slice| then
        var arguments := slice[open + 1..close];
        Plus(Leads(arguments, isWhitespace, Split(Blank(arguments), ',')), open + 1)
      else []
  }

  ghost predicate Increasing(positions: seq<nat>) {
    forall i, j :: 0 <= i < j < |positions| ==> positions[i] < positions[j]
  }

  /** A piece leads with its first character that is not whitespace, if it has one. */
  lemma LeadIsFirst(text: string, isWhitespace: char -> bool, range: Range)
    requires range.0 <= range.1 <= |text|
    ensures match Lead(text, isWhitespace, range)
            case Some(p) =>
              range.0 <= p < range.1 && !isWhitespace(text[p]) && forall k :: range.0 <= k < p ==> isWhitespace(text[k])
            case None => forall k :: range.0 <= k < range.1 ==> isWhitespace(text[k])
  {
    var piece := text[range.0..range.1];
    LeastIsFirst(NonBlank(piece, isWhitespace), 0, |piece|);
    forall k | range.0 <= k < range.1
      ensures NonBlank(piece, isWhitespace)(k - range.0) <==> !isWhitespace(text[k])
    {
      assert piece[k - range.0] == text[k];
    }
  }

  /** There is one position for every piece that is not blank, and no other. */
  lemma {:induction false} LeadsExactly(text: string, isWhitespace: char -> bool, ranges: seq<Range>, p: nat)
    ensures p in Leads(text, isWhitespace, ranges)
            <==> exists i :: 0 <= i < |ranges| && Lead(text, isWhitespace, ranges[i]) == Some(p)
    decreases |ranges|
  {
    hide Lead;
    if ranges != [] {
      LeadsExactly(text, isWhitespace, ranges[1..], p);
      if i :| 0 <= i < |ranges[1..]| && Lead(text, isWhitespace, ranges[1..][i]) == Some(p) {
        assert ranges[i + 1] == ranges[1..][i];
      }
      if i :| 0 <= i < |ranges| && Lead(text, isWhitespace, ranges[i]) == Some(p) {
        assert i > 0 ==> ranges[1..][i - 1] == ranges[i];
      }
    }
  }

  lemma AngleIsThere(rest: string, k: nat)
    requires Least(TopLevelAngle(Blank(rest)), 0, |rest|) == Some(k)
    ensures k < |rest| && rest[k] == '<' && Blank(rest[k..])[0] == Some('<')
  {
    hide Blank, DepthsAt;
    LeastIsFirst(TopLevelAngle(Blank(rest)), 0, |rest|);
    CutAround(rest, k);
    assert Blank(rest)[k] == Blank(rest)[k..][0];
  }

  lemma DropDrop(text: string, x: nat, y: nat)
    requires x + y < |text|
    ensures text[x..][y..] == text[x + y..] && text[x..][y] == text[x + y]
  {
  }

  lemma AngleIsThereInSlice(slice: string)
    requires AngleInType(slice).Some?
    ensures var open := TypeStart(slice) + AngleInType(slice).value;
            open < |slice| && slice[open] == '<' && Blank(slice[open..])[0] == Some('<')
  {
    hide Blank, Least, TopLevelAngle, TypeStart;
    AngleIsThere(slice[TypeStart(slice)..], AngleInType(slice).value);
    DropDrop(slice, TypeStart(slice), AngleInType(slice).value);
  }

  lemma OpeningIsAngle(slice: string)
    ensures match Opening(slice)
            case None => AngleInType(slice).None?
            case Some(open) =>
              AngleInType(slice) == Some(open - TypeStart(slice)) && TypeStart(slice) <= open
              && slice[open] == '<' && Blank(slice[open..])[0] == Some('<')
  {
    hide Blank, AngleInType, TypeStart;
    if AngleInType(slice).Some? {
      AngleIsThereInSlice(slice);
    }
  }

  lemma SpanIsNested(slice: string)
    ensures match Opening(slice)
            case None => ArgumentSpan(slice).None?
            case Some(open) =>
              slice[open] == '<'
              && match Closing(slice, open)
                 case None => ArgumentSpan(slice).None?
                 case Some(close) => open < close < |slice| && ArgumentSpan(slice) == Some((open, close))
  {
    hide Blank, Least, AngleBalance, Net, Opening;
    OpeningIsAngle(slice);
    if Opening(slice).Some? {
      var open := Opening(slice).value;
      var mask := MaskFrom(slice, open);
      assert mask[open] == Blank(slice[open..])[0];
      if Closing(slice, open).Some? {
        BalanceIsEnclosed(mask, open, Closing(slice, open).value);
      }
    }
  }

  lemma {:induction false} StartsAfter(ranges: seq<Range>, start: nat, end: nat, i: nat)
    requires Spans(ranges, start, end) && 0 < i < |ranges|
    ensures ranges[0].1 + 1 <= ranges[i].0
  {
    if i > 1 {
      StartsAfter(ranges, start, end, i - 1);
    }
    assert ranges[i - 1 + 1].0 == ranges[i - 1].1 + 1;
  }

  lemma SpansTail(ranges: seq<Range>, start: nat, end: nat)
    requires Spans(ranges, start, end) && |ranges| > 1
    ensures Spans(ranges[1..], ranges[0].1 + 1, end)
  {
    var rest := ranges[1..];
    assert ranges[0 + 1].0 == ranges[0].1 + 1;
    forall i | 0 <= i < |rest|
      ensures ranges[0].1 + 1 <= rest[i].0 <= rest[i].1
    {
      StartsAfter(ranges, start, end, i + 1);
    }
    forall i | 0 <= i < |rest| - 1
      ensures rest[i + 1].0 == rest[i].1 + 1
    {
      assert ranges[i + 1 + 1].0 == ranges[i + 1].1 + 1;
    }
  }

  ghost predicate Within(positions: seq<nat>, from: nat, upto: nat) {
    forall i :: 0 <= i < |positions| ==> from <= positions[i] < upto
  }

  lemma IncreasingCons(first: nat, rest: seq<nat>, from: nat, next: nat, upto: nat)
    requires Increasing(rest) && Within(rest, next, upto) && from <= first < next && first < upto
    ensures Increasing([first] + rest) && Within([first] + rest, from, upto)
  {
  }

  lemma NoneBefore(rest: seq<nat>, from: nat, next: nat, upto: nat)
    requires Within(rest, next, upto) && from <= next
    ensures [] + rest == rest && Within(rest, from, upto)
  {
  }

  lemma SpansHead(ranges: seq<Range>, start: nat, end: nat)
    requires Spans(ranges, start, end)
    ensures ranges != [] && start == ranges[0].0 <= ranges[0].1 <= end
  {
  }

  lemma NoLeads(text: string, isWhitespace: char -> bool, ranges: seq<Range>, start: nat)
    requires ranges == []
    ensures Increasing(Leads(text, isWhitespace, ranges)) && Within(Leads(text, isWhitespace, ranges), start, |text|)
  {
  }

  lemma LeadsAre(text: string, isWhitespace: char -> bool, ranges: seq<Range>)
    requires ranges != []
    ensures var lead := Lead(text, isWhitespace, ranges[0]);
            Leads(text, isWhitespace, ranges)
            == (if lead.Some? then [lead.value] else []) + Leads(text, isWhitespace, ranges[1..])
  {
  }

  lemma LeadIs(text: string, isWhitespace: char -> bool, range: Range, here: Option<nat>)
    requires range.0 <= range.1 <= |text|
    requires here == Least(NonBlank(text[range.0..range.1], isWhitespace), 0, range.1 - range.0)
    ensures Lead(text, isWhitespace, range) == if here.Some? then Some(range.0 + here.value) else None
    ensures here.Some? ==> here.value < range.1 - range.0
  {
    LeastIsFirst(NonBlank(text[range.0..range.1], isWhitespace), 0, range.1 - range.0);
  }

  /** Leading characters come in text order, each inside its own piece. */
  lemma {:induction false} LeadsIncrease(text: string, isWhitespace: char -> bool, ranges: seq<Range>, start: nat)
    requires Spans(ranges, start, |text|)
    ensures Increasing(Leads(text, isWhitespace, ranges)) && Within(Leads(text, isWhitespace, ranges), start, |text|)
    decreases |ranges|
  {
    hide Lead, Least, Leads, Increasing, NonBlank, Spans, Within;
    SpansHead(ranges, start, |text|);
    var (from, upto) := ranges[0];
    LeadIs(text, isWhitespace, ranges[0], Least(NonBlank(text[from..upto], isWhitespace), 0, upto - from));
    var lead, rest := Lead(text, isWhitespace, ranges[0]), Leads(text, isWhitespace, ranges[1..]);
    if |ranges| > 1 {
      SpansTail(ranges, start, |text|);
      LeadsIncrease(text, isWhitespace, ranges[1..], upto + 1);
    } else {
      NoLeads(text, isWhitespace, ranges[1..], upto + 1);
    }
    LeadsAre(text, isWhitespace, ranges);
    NoneBefore(rest, start, upto + 1, |text|);
    if lead.Some? {
      IncreasingCons(lead.value, rest, start, upto + 1, |text|);
    }
  }

  /** The UTF-16 offsets of characters of `text`. */
  function Units(text: string, positions: seq<nat>): (r: seq<nat>)
    ensures |r| == |positions|
  {
    seq(|positions|, i requires 0 <= i < |positions| =>
        if positions[i] <= |text| then Offset(Utf16, text, positions[i]) else 0)
  }

  lemma UnitsIncrease(text: string, positions: seq<nat>, from: nat, upto: nat)
    requires Increasing(positions) && from <= upto <= |text|
    requires forall i :: 0 <= i < |positions| ==> from < positions[i] < upto
    ensures Increasing(Units(text, positions))
    ensures forall i :: 0 <= i < |positions| ==>
              Offset(Utf16, text, from) < Units(text, positions)[i] < Offset(Utf16, text, upto)
  {
    var units := Units(text, positions);
    forall i, j | 0 <= i < j < |positions|
      ensures units[i] < units[j]
    {
      OffsetsIncrease(Utf16, text, positions[i], positions[j]);
    }
    forall i | 0 <= i < |positions|
      ensures Offset(Utf16, text, from) < units[i] < Offset(Utf16, text, upto)
    {
      OffsetsIncrease(Utf16, text, from, positions[i]);
      OffsetsIncrease(Utf16, text, positions[i], upto);
    }
  }

  lemma StartsAreInside(slice: string, isWhitespace: char -> bool)
    ensures Increasing(ArgumentStarts(slice, isWhitespace))
    ensures forall i :: 0 <= i < |ArgumentStarts(slice, isWhitespace)| ==>
              0 < ArgumentStarts(slice, isWhitespace)[i] < |slice|
  {
    hide Blank, Leads, ArgumentSpan, SplitFrom;
    match ArgumentSpan(slice)
    case None =>
    case Some((open, close)) =>
      SpanIsNested(slice);
      var arguments := slice[open + 1..close];
      SplitAtEveryCut(Blank(arguments), ',', 0, 0);
      LeadsIncrease(arguments, isWhitespace, Split(Blank(arguments), ','), 0);
  }

  // ---- the loops ----

  method FirstNonWhitespace(text: string, isWhitespace: char -> bool) returns (found: Option<nat>)
    ensures found == ToByte(text, Least(NonBlank(text, isWhitespace), 0, |text|))
  {
    ghost var hit := NonBlank(text, isWhitespace);
    var at: nat := 0;
    for k := 0 to |text|
      invariant at == ByteOf(text, k) && Least(hit, 0, |text|) == Least(hit, k, |text|)
    {
      if !isWhitespace(text[k]) {
        return Some(at);
      }
      at := at + Width(Utf8, text[k]);
    }
    found := None;
  }

  /** `push_utf16_position`: skips a missing offset, one off a boundary or beyond `u32`, and repeats. */
  method PushUtf16Position(positions: seq<nat>, sourceText: string, byteOffset: Option<nat>) returns (pushed: seq<nat>)
    ensures byteOffset.None? ==> pushed == positions
    ensures byteOffset.Some? ==>
              var position := Convert(Utf8, Utf16, sourceText, byteOffset.value);
              pushed == if position.Some? && position.value < 0x1_0000_0000 && position.value !in positions
                        then positions + [position.value] else positions
  {
    if byteOffset.None? {
      return positions;
    }
    var position := Utf16IndexFromByte(sourceText, byteOffset.value);
    if position.Some? && position.value !in positions {
      return positions + [position.value];
    }
    return positions;
  }

  lemma Regroup(done: seq<nat>, lead: nat, rest: seq<nat>)
    ensures done + ([lead] + rest) == (done + [lead]) + rest && done + ([] + rest) == done + rest
  {
  }

  lemma LeadsCons(text: string, isWhitespace: char -> bool, ranges: seq<Range>, i: nat, done: seq<nat>)
    requires i < |ranges|
    ensures var lead := Lead(text, isWhitespace, ranges[i]);
            done + Leads(text, isWhitespace, ranges[i..])
            == (if lead.Some? then done + [lead.value] else done) + Leads(text, isWhitespace, ranges[i + 1..])
  {
    hide Lead;
    var lead := Lead(text, isWhitespace, ranges[i]);
    assert ranges[i..][0] == ranges[i] && ranges[i..][1..] == ranges[i + 1..];
    Regroup(done, if lead.Some? then lead.value else 0, Leads(text, isWhitespace, ranges[i + 1..]));
  }

  lemma ConvertBoundary(source: string, k: nat)
    requires k <= |source|
    ensures Convert(Utf8, Utf16, source, ByteOf(source, k)) == Some(Offset(Utf16, source, k))
  {
    IndexFromFinds(Utf8, source, 0, k);
  }

  /** One more leading character: the byte offset computed for it is a boundary, its UTF-16 offset
      fits and is new, so `push_utf16_position` appends exactly that offset. */
  lemma PushOne(source: string, text: string, base: nat, done: seq<nat>, lead: nat)
    requires base + |text| <= |source| && source[base..base + |text|] == text
    requires Offset(Utf16, source, base + |text|) < U32_LIMIT
    requires lead < |text| && forall p :: p in done ==> p < lead
    ensures ByteOf(source, base + lead) == ByteOf(source, base) + ByteOf(text, lead)
    ensures Convert(Utf8, Utf16, source, ByteOf(source, base + lead)) == Some(Offset(Utf16, source, base + lead))
    ensures Offset(Utf16, source, base + lead) < U32_LIMIT
    ensures Offset(Utf16, source, base + lead) !in Units(source, Plus(done, base))
    ensures Units(source, Plus(done + [lead], base))
            == Units(source, Plus(done, base)) + [Offset(Utf16, source, base + lead)]
  {
    hide IndexAt, Offset, Width;
    ByteInSlice(source, base, base + |text|, lead);
    IndexFromFinds(Utf8, source, 0, base + lead);
    OffsetsIncrease(Utf16, source, base + lead, base + |text|);
    ConvertBoundary(source, base + lead);
    forall j | 0 <= j < |done|
      ensures Units(source, Plus(done, base))[j] != Offset(Utf16, source, base + lead)
    {
      assert done[j] in done;
      OffsetsIncrease(Utf16, source, base + done[j], base + lead);
    }
  }

  lemma RangeAt(text: string, ranges: seq<ByteRange>, chars: seq<Range>, i: nat)
    requires Spans(chars, 0, |text|) && InBytes(text, ranges, chars) && i < |chars|
    ensures chars[i].0 <= chars[i].1 <= |text|
    ensures ranges[i] == ByteRange(ByteOf(text, chars[i].0), ByteOf(text, chars[i].1))
    ensures i + 1 < |chars| ==> chars[i + 1].0 == chars[i].1 + 1
  {
  }

  lemma SameLength(text: string, ranges: seq<ByteRange>, chars: seq<Range>)
    requires InBytes(text, ranges, chars)
    ensures |ranges| == |chars|
  {
  }

  lemma LeadsBegin(source: string, text: string, isWhitespace: char -> bool, chars: seq<Range>, base: nat)
    ensures Leads(text, isWhitespace, chars) == [] + Leads(text, isWhitespace, chars[0..])
    ensures Units(source, Plus([], base)) == []
  {
    assert chars[0..] == chars;
  }

  lemma LeadsEnd(text: string, isWhitespace: char -> bool, chars: seq<Range>, done: seq<nat>)
    ensures done + Leads(text, isWhitespace, chars[|chars|..]) == done
  {
  }

  /** One piece: its first non-whitespace character, if it has one, is pushed. */
  method PushLead(source: string, text: string, isWhitespace: char -> bool, startByte: nat, range: ByteRange,
                  positions: seq<nat>, ghost base: nat, ghost from: nat, ghost upto: nat, ghost done: seq<nat>)
    returns (pushed: seq<nat>, ghost grown: seq<nat>)
    requires base + |text| <= |source| && source[base..base + |text|] == text && startByte == ByteOf(source, base)
    requires Offset(Utf16, source, base + |text|) < U32_LIMIT
    requires from <= upto <= |text| && range == ByteRange(ByteOf(text, from), ByteOf(text, upto))
    requires positions == Units(source, Plus(done, base)) && forall p :: p in done ==> p < from
    ensures var lead :=
              Lead(text, isWhitespace, (from, upto)); grown == if lead.Some? then done + [lead.value] else done
    ensures pushed == Units(source, Plus(grown, base))
    ensures forall p :: p in grown ==> p in done || p < upto
  {
    hide IndexAt, Least, Offset, Width, Lead, Units, Plus, StrSlice, NonBlank, Convert;
    SliceIs(text, from, upto);
    var raw := StrSlice(text, range.start, range.end);
    var leading := FirstNonWhitespace(raw, isWhitespace);
    ghost var here := Least(NonBlank(raw, isWhitespace), 0, |raw|);
    LeadIs(text, isWhitespace, (from, upto), here);
    if leading.None? {
      return positions, done;
    }
    ghost var lead: nat := from + here.value;
    ByteInSlice(text, from, upto, here.value);
    PushOne(source, text, base, done, lead);
    pushed := PushUtf16Position(positions, source, Some(startByte + range.start + leading.value));
    grown := done + [lead];
  }

  /** The offsets of everything found in the pieces, pushed one by one: nothing is dropped, because
      every new offset lies beyond the ones before it. */
  method PushLeads(source: string, text: string, isWhitespace: char -> bool, startByte: nat, ghost base: nat)
    returns (positions: seq<nat>)
    requires base + |text| <= |source| && source[base..base + |text|] == text && startByte == ByteOf(source, base)
    requires Offset(Utf16, source, base + |text|) < U32_LIMIT
    ensures positions == Units(source, Plus(Leads(text, isWhitespace, Split(Blank(text), ',')), base))
  {
    hide Blank, SplitFrom, Offset, Leads, Lead, Units, Plus, InBytes, Spans, Cut, EndsAt, ByteOf;
    positions := [];
    var ranges := SplitTopLevelRanges(text, ',');
    ghost var chars := Split(Blank(text), ',');
    SplitAtEveryCut(Blank(text), ',', 0, 0);
    SameLength(text, ranges, chars);
    ghost var done: seq<nat> := [];
    LeadsBegin(source, text, isWhitespace, chars, base);
    for i := 0 to |ranges|
      invariant Leads(text, isWhitespace, chars) == done + Leads(text, isWhitespace, chars[i..])
      invariant positions == Units(source, Plus(done, base))
      invariant forall p :: p in done ==> i < |chars| ==> p < chars[i].0
    {
      RangeAt(text, ranges, chars, i);
      LeadsCons(text, isWhitespace, chars, i, done);
      positions, done := PushLead(source, text, isWhitespace, startByte, ranges[i], positions, base, chars[i].0,
                                  chars[i].1, done);
    }
    LeadsEnd(text, isWhitespace, chars, done);
  }

  /** The characters `start` and `end` stand on, when both are boundaries in the right order. */
  function CharRange(source: string, start: nat, end: nat): Option<(nat, nat)> {
    match (IndexAt(Utf16, source, start), IndexAt(Utf16, source, end))
    case (Some(from), Some(upto)) => if from <= upto then Some((from, upto)) else None
    case _ => None
  }

  /** The offsets reported for a source range. */
  function Expected(source: string, start: nat, end: nat, isWhitespace: char -> bool): seq<nat> {
    match CharRange(source, start, end)
    case None => []
    case Some((from, upto)) =>
      if upto <= |source| then Units(source, Plus(ArgumentStarts(source[from..upto], isWhitespace), from)) else []
  }

  lemma RangeFound(source: string, start: nat, end: nat)
    ensures CharRange(source, start, end).Some?
            <==> start <= end && Convert(Utf16, Utf8, source, start).Some? && Convert(Utf16, Utf8, source, end).Some?
    ensures CharRange(source, start, end).Some? ==>
              var (from, upto) := CharRange(source, start, end).value;
              from <= upto <= |source|
              && Convert(Utf16, Utf8, source, start) == Some(ByteOf(source, from))
              && Convert(Utf16, Utf8, source, end) == Some(ByteOf(source, upto))
              && Offset(Utf16, source, from) == start && Offset(Utf16, source, upto) == end
              && (from < upto <==> ByteOf(source, from) < ByteOf(source, upto))
  {
    match (IndexAt(Utf16, source, start), IndexAt(Utf16, source, end))
    case (Some(from), Some(upto)) =>
      if from < upto {
        OffsetsIncrease(Utf16, source, from, upto);
        OffsetsIncrease(Utf8, source, from, upto);
      } else if upto < from {
        OffsetsIncrease(Utf16, source, upto, from);
      }
    case _ =>
  }

  /** Strictly increasing, strictly inside the range. */
  lemma ExpectedIsOrdered(source: string, start: nat, end: nat, isWhitespace: char -> bool)
    ensures Increasing(Expected(source, start, end, isWhitespace))
    ensures forall p :: p in Expected(source, start, end, isWhitespace) ==> start < p < end
  {
    hide ArgumentStarts, CharRange, Offset;
    RangeFound(source, start, end);
    match CharRange(source, start, end)
    case None =>
    case Some((from, upto)) =>
      StartsAreInside(source[from..upto], isWhitespace);
      UnitsIncrease(source, Plus(ArgumentStarts(source[from..upto], isWhitespace), from), from, upto);
  }

  lemma NothingInEmpty(isWhitespace: char -> bool)
    ensures ArgumentStarts([], isWhitespace) == []
  {
  }

  /** `char_len_at` behind the needle that was found. */
  lemma NeedleEnds(slice: string)
    ensures var found := Least(TopLevelNeedle(Blank(slice), [':', '=']), 0, |slice|);
            found.Some? ==>
              (found.value < |slice| && CharAt(slice, ByteOf(slice, found.value)).Some?
               && ByteOf(slice, TypeStart(slice))
                  == ByteOf(slice, found.value) + Width(Utf8, CharAt(slice, ByteOf(slice, found.value)).value))
    ensures Least(TopLevelNeedle(Blank(slice), [':', '=']), 0, |slice|).None? ==> TypeStart(slice) == 0
    ensures ByteOf(slice, 0) == 0
  {
    hide Blank, DepthsAt;
    LeastIsFirst(TopLevelNeedle(Blank(slice), [':', '=']), 0, |slice|);
    var found := Least(TopLevelNeedle(Blank(slice), [':', '=']), 0, |slice|);
    if found.Some? {
      CharAtBoundary(slice, found.value);
    }
  }

  lemma StartsOfSpan(slice: string, isWhitespace: char -> bool)
    ensures match ArgumentSpan(slice)
            case None => ArgumentStarts(slice, isWhitespace) == []
            case Some((open, close)) =>
              open < close < |slice| && slice[open] == '<'
              && ArgumentStarts(slice, isWhitespace)
                 == Plus(Leads(slice[open + 1..close], isWhitespace, Split(Blank(slice[open + 1..close]), ',')),
                         open + 1)
  {
    hide ArgumentSpan, Blank, Leads;
    if ArgumentSpan(slice).Some? {
      SpanIsNested(slice);
    }
  }

  lemma PlusPlus(positions: seq<nat>, x: nat, y: nat)
    ensures Plus(Plus(positions, x), y) == Plus(positions, x + y)
  {
  }

  lemma AngleInTypeIs(slice: string)
    ensures var rest := slice[TypeStart(slice)..];
            AngleInType(slice) == Least(TopLevelAngle(Blank(rest)), 0, |rest|)
  {
  }

  lemma ClosingIs(slice: string, open: nat)
    requires open <= |slice|
    ensures Closing(slice, open) == Least(AngleBalance(MaskFrom(slice, open)), open, |slice|)
  {
  }

  lemma BoundaryFound(text: string, k: nat)
    requires k <= |text|
    ensures IndexAt(Utf8, text, ByteOf(text, k)) == Some(k)
  {
    IndexFromFinds(Utf8, text, 0, k);
  }

  /** The three scans over the slice: the byte offsets of the angle brackets around the arguments. */
  method FindArguments(slice: string) returns (span: Option<(nat, nat)>)
    ensures match ArgumentSpan(slice)
            case None => span.None?
            case Some((open, close)) =>
              open < close <= |slice| && span == Some((ByteOf(slice, open), ByteOf(slice, close)))
  {
    hide IndexAt, CharAt, Offset, Width, ArgumentSpan, AngleInType, Opening, Closing, TypeStart, Blank, MaskFrom, Least,
         TopLevelNeedle, TopLevelAngle, AngleBalance, StrSlice, IsCharBoundary;
    NeedleEnds(slice);
    var needle := FirstTopLevelIndexOfAny(slice, [':', '=']);
    var typeStart := if needle.Some? then needle.value + Width(Utf8, CharAt(slice, needle.value).value) else 0;
    ghost var typeFrom: nat := TypeStart(slice);
    SliceIs(slice, typeFrom, |slice|);
    assert slice[typeFrom..|slice|] == slice[typeFrom..];
    var openInType := FirstTopLevelOpeningAngle(StrSlice(slice, typeStart, Length(Utf8, slice)));
    SpanIsNested(slice);
    OpeningIsAngle(slice);
    AngleInTypeIs(slice);
    if openInType.None? {
      return None;
    }
    var open := typeStart + openInType.value;
    ByteInSlice(slice, typeFrom, |slice|, Opening(slice).value - typeFrom);
    BoundaryFound(slice, Opening(slice).value);
    ClosingIs(slice, Opening(slice).value);
    var close := MatchingAngleClose(slice, open);
    if close.None? {
      return None;
    }
    return Some((open, close.value));
  }

  lemma EmptyUnits(source: string, distance: nat)
    ensures Units(source, Plus([], distance)) == []
  {
  }

  lemma SliceOfSlice(source: string, from: nat, upto: nat, first: nat, last: nat)
    requires from <= upto <= |source| && first <= last <= upto - from
    ensures source[from + first..from + last] == source[from..upto][first..last]
  {
    var x, y := source[from + first..from + last], source[from..upto][first..last];
    assert forall j :: 0 <= j < |x| ==> x[j] == source[from + first + j] && y[j] == source[from..upto][first + j];
  }

  /** The text between the angle brackets, as a slice of the slice and of the source. */
  lemma ArgumentsInSource(source: string, from: nat, upto: nat, open: nat, close: nat)
    requires from <= upto <= |source| && open < close <= upto - from && source[from..upto][open] == '<'
    requires Offset(Utf16, source, upto) < U32_LIMIT
    ensures var slice := source[from..upto];
            ByteOf(slice, open) + 1 == ByteOf(slice, open + 1) <= ByteOf(slice, close)
            && IsCharBoundary(slice, ByteOf(slice, open + 1)) && IsCharBoundary(slice, ByteOf(slice, close))
            && StrSlice(slice, ByteOf(slice, open + 1), ByteOf(slice, close)) == slice[open + 1..close]
            && source[from + open + 1..from + close] == slice[open + 1..close]
            && ByteOf(source, from + open + 1) == ByteOf(source, from) + ByteOf(slice, open + 1)
    ensures Offset(Utf16, source, from + close) < U32_LIMIT
  {
    hide IndexAt, Offset, IsCharBoundary, StrSlice;
    var slice := source[from..upto];
    SliceIs(slice, open + 1, close);
    CharAtBoundary(slice, open);
    OffsetInSlice(Utf8, source, from, upto, open + 1);
    SliceOfSlice(source, from, upto, open + 1, close);
    if from + close < upto {
      OffsetsIncrease(Utf16, source, from + close, upto);
    }
  }

  /** Argument `i` of the arguments between `open` and `close` of the source's characters `from` to `upto`
      begins at character `k` of them, at UTF-16 offset `p` of the source. */
  ghost predicate ArgumentBegins(source: string, isWhitespace: char -> bool, from: nat, upto: nat, open: nat,
                                 close: nat, i: nat, k: nat, p: nat) {
    && from <= upto <= |source| && ArgumentSpan(source[from..upto]) == Some((open, close))
    && open < close <= upto - from && from + open + 1 + k <= |source|
    && p == Offset(Utf16, source, from + open + 1 + k)
    && var arguments := source[from..upto][open + 1..close];
       var pieces := Split(Blank(arguments), ',');
       && i < |pieces| && pieces[i].0 <= k < pieces[i].1 <= |arguments| && !isWhitespace(arguments[k])
       && forall before :: pieces[i].0 <= before < k ==> isWhitespace(arguments[before])
  }

  /** The characters from `from` to `upto` are the source range. */
  ghost predicate IsRange(source: string, start: nat, end: nat, from: nat, upto: nat) {
    from <= upto <= |source| && Offset(Utf16, source, from) == start && Offset(Utf16, source, upto) == end
  }

  /** `p` is where a type argument of the source range begins. */
  ghost predicate IsArgumentPosition(source: string, start: nat, end: nat, isWhitespace: char -> bool, p: nat) {
    exists from: nat, upto: nat, open: nat, close: nat, i: nat, k: nat ::
      IsRange(source, start, end, from, upto) && ArgumentBegins(source, isWhitespace, from, upto, open, close, i, k, p)
  }

  lemma OneRange(source: string, start: nat, end: nat, from: nat, upto: nat)
    requires IsRange(source, start, end, from, upto)
    ensures from <= upto <= |source|
    ensures CharRange(source, start, end) == Some((from, upto))
  {
    IndexFromFinds(Utf16, source, 0, from);
    IndexFromFinds(Utf16, source, 0, upto);
  }

  lemma LeadExactly(text: string, isWhitespace: char -> bool, range: Range, k: nat)
    requires range.0 <= range.1 <= |text|
    ensures Lead(text, isWhitespace, range) == Some(k)
            <==> range.0 <= k < range.1 && !isWhitespace(text[k])
                 && forall before :: range.0 <= before < k ==> isWhitespace(text[before])
  {
    hide Lead;
    LeadIsFirst(text, isWhitespace, range);
  }

  lemma UnitOfLead(source: string, leads: seq<nat>, base: nat, p: nat) returns (k: nat)
    requires p in Units(source, Plus(leads, base))
    requires forall i :: 0 <= i < |leads| ==> leads[i] + base <= |source|
    ensures k in leads && k + base <= |source| && p == Offset(Utf16, source, k + base)
  {
    hide Offset;
    var i :| 0 <= i < |leads| && Units(source, Plus(leads, base))[i] == p;
    k := leads[i];
  }

  lemma LeadHasUnit(source: string, leads: seq<nat>, base: nat, k: nat)
    requires k in leads && k + base <= |source|
    ensures Offset(Utf16, source, k + base) in Units(source, Plus(leads, base))
  {
    hide Offset;
    var i :| 0 <= i < |leads| && leads[i] == k;
    assert Units(source, Plus(leads, base))[i] == Offset(Utf16, source, k + base);
  }

  /** The pieces of the arguments, and where they lead, as the functions above compute them. */
  lemma PiecesOf(source: string, isWhitespace: char -> bool, from: nat, upto: nat, open: nat, close: nat)
    requires from <= upto <= |source| && ArgumentSpan(source[from..upto]) == Some((open, close))
    ensures open < close < upto - from
    ensures var arguments := source[from..upto][open + 1..close];
            var pieces := Split(Blank(arguments), ',');
            && Spans(pieces, 0, |arguments|)
            && (forall i :: 0 <= i < |Leads(arguments, isWhitespace, pieces)| ==>
                  Leads(arguments, isWhitespace, pieces)[i] < |arguments|)
            && Units(source, Plus(ArgumentStarts(source[from..upto], isWhitespace), from))
               == Units(source, Plus(Leads(arguments, isWhitespace, pieces), open + 1 + from))
  {
    hide ArgumentSpan, Leads, SplitFrom, Blank, Units, Plus, Offset, Cut;
    StartsOfSpan(source[from..upto], isWhitespace);
    var arguments := source[from..upto][open + 1..close];
    var pieces := Split(Blank(arguments), ',');
    SplitAtEveryCut(Blank(arguments), ',', 0, 0);
    LeadsIncrease(arguments, isWhitespace, pieces, 0);
    PlusPlus(Leads(arguments, isWhitespace, pieces), open + 1, from);
  }

  lemma StartBegins(source: string, isWhitespace: char -> bool, from: nat, upto: nat, p: nat)
    returns (open: nat, close: nat, i: nat, k: nat)
    requires from <= upto <= |source|
    requires p in Units(source, Plus(ArgumentStarts(source[from..upto], isWhitespace), from))
    ensures ArgumentBegins(source, isWhitespace, from, upto, open, close, i, k, p)
  {
    hide ArgumentSpan, Leads, Lead, SplitFrom, Blank, Units, Plus, Offset;
    StartsOfSpan(source[from..upto], isWhitespace);
    if ArgumentSpan(source[from..upto]).None? {
      EmptyUnits(source, from);
      assert false;
    }
    open, close := ArgumentSpan(source[from..upto]).value.0, ArgumentSpan(source[from..upto]).value.1;
    PiecesOf(source, isWhitespace, from, upto, open, close);
    var arguments := source[from..upto][open + 1..close];
    var pieces := Split(Blank(arguments), ',');
    k := UnitOfLead(source, Leads(arguments, isWhitespace, pieces), open + 1 + from, p);
    LeadsExactly(arguments, isWhitespace, pieces, k);
    i :| i < |pieces| && Lead(arguments, isWhitespace, pieces[i]) == Some(k);
    LeadExactly(arguments, isWhitespace, pieces[i], k);
  }

  lemma BeginIsStart(source: string, isWhitespace: char -> bool, from: nat, upto: nat, open: nat, close: nat, i: nat,
                     k: nat, p: nat)
    requires ArgumentBegins(source, isWhitespace, from, upto, open, close, i, k, p)
    ensures p in Units(source, Plus(ArgumentStarts(source[from..upto], isWhitespace), from))
  {
    hide ArgumentSpan, Leads, Lead, SplitFrom, Blank, Units, Plus, Offset;
    PiecesOf(source, isWhitespace, from, upto, open, close);
    var arguments := source[from..upto][open + 1..close];
    var pieces := Split(Blank(arguments), ',');
    LeadExactly(arguments, isWhitespace, pieces[i], k);
    LeadsExactly(arguments, isWhitespace, pieces, k);
    LeadHasUnit(source, Leads(arguments, isWhitespace, pieces), open + 1 + from, k);
  }

  lemma ExpectedIsPosition(source: string, start: nat, end: nat, isWhitespace: char -> bool, p: nat)
    requires p in Expected(source, start, end, isWhitespace)
    ensures IsArgumentPosition(source, start, end, isWhitespace, p)
  {
    hide ArgumentBegins, Offset, Units, Plus, ArgumentStarts, CharRange;
    RangeFound(source, start, end);
    var (from, upto) := CharRange(source, start, end).value;
    var open, close, i, k := StartBegins(source, isWhitespace, from, upto, p);
  }

  lemma ExpectedOf(source: string, start: nat, end: nat, isWhitespace: char -> bool, from: nat, upto: nat)
    requires CharRange(source, start, end) == Some((from, upto)) && from <= upto <= |source|
    ensures Expected(source, start, end, isWhitespace)
            == Units(source, Plus(ArgumentStarts(source[from..upto], isWhitespace), from))
  {
    hide Offset, Units, Plus, ArgumentStarts, CharRange;
  }

  lemma PositionIsExpected(source: string, start: nat, end: nat, isWhitespace: char -> bool, p: nat)
    requires IsArgumentPosition(source, start, end, isWhitespace, p)
    ensures p in Expected(source, start, end, isWhitespace)
  {
    hide ArgumentBegins, Offset, Expected, IsRange, Units, Plus, ArgumentStarts, CharRange;
    var from: nat, upto: nat, open: nat, close: nat, i: nat, k: nat :|
      IsRange(source, start, end, from, upto) && ArgumentBegins(source, isWhitespace, from, upto, open, close, i, k, p);
    OneRange(source, start, end, from, upto);
    ExpectedOf(source, start, end, isWhitespace, from, upto);
    BeginIsStart(source, isWhitespace, from, upto, open, close, i, k, p);
  }

  /** One offset for every argument that is not blank, and no other. */
  lemma ExpectedExactly(source: string, start: nat, end: nat, isWhitespace: char -> bool)
    ensures forall p: nat :: p in Expected(source, start, end, isWhitespace)
                             <==> IsArgumentPosition(source, start, end, isWhitespace, p)
  {
    hide Expected, IsArgumentPosition;
    forall p: nat
      ensures p in Expected(source, start, end, isWhitespace)
              <==> IsArgumentPosition(source, start, end, isWhitespace, p)
    {
      if p in Expected(source, start, end, isWhitespace) {
        ExpectedIsPosition(source, start, end, isWhitespace, p);
      }
      if IsArgumentPosition(source, start, end, isWhitespace, p) {
        PositionIsExpected(source, start, end, isWhitespace, p);
      }
    }
  }

  method TypeArgumentPositionsForSourceRange(start: nat, end: nat, sourceText: string, isWhitespace: char -> bool)
    returns (positions: seq<nat>)
    requires start < U32_LIMIT && end < U32_LIMIT
    ensures forall p: nat :: p in positions <==> IsArgumentPosition(sourceText, start, end, isWhitespace, p)
    ensures forall i, j :: 0 <= i < j < |positions| ==> positions[i] < positions[j]
    ensures positions == Expected(sourceText, start, end, isWhitespace)
  {
    hide Convert, IndexAt, CharAt, Offset, Width, ArgumentSpan, ArgumentStarts, Leads, Blank, CharRange, Units, Plus,
         StrSlice, SplitFrom, IsCharBoundary;
    hide IsArgumentPosition;
    ExpectedExactly(sourceText, start, end, isWhitespace);
    ExpectedIsOrdered(sourceText, start, end, isWhitespace);
    RangeFound(sourceText, start, end);
    var range := Utf16ByteRange(sourceText, start, end);
    if range.None? {
      return [];
    }
    var (startByte, endByte) := range.value;
    ghost var (from, upto) := CharRange(sourceText, start, end).value;
    EmptyUnits(sourceText, from);
    if startByte >= endByte {
      NothingInEmpty(isWhitespace);
      assert sourceText[from..upto] == [];
      return [];
    }
    SliceIs(sourceText, from, upto);
    var slice := StrSlice(sourceText, startByte, endByte);
    StartsOfSpan(slice, isWhitespace);
    var span := FindArguments(slice);
    if span.None? {
      return [];
    }
    var (open, close) := span.value;
    ghost var (opening, closing) := ArgumentSpan(slice).value;
    ArgumentsInSource(sourceText, from, upto, opening, closing);
    var arguments := StrSlice(slice, open + 1, close);
    positions := PushLeads(sourceText, arguments, isWhitespace, startByte + open + 1, from + opening + 1);
    PlusPlus(Leads(arguments, isWhitespace, Split(Blank(arguments), ',')), opening + 1, from);
  }
}
