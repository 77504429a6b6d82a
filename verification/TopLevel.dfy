/** The second pass of the two-pass reading: plain bracket scans over a blanked text, top-level
    positions and top-level splitting, all in characters. */
module TopLevel {
  import opened Options
  import opened Trivia

  datatype Bracket = Angle | Paren | Square | Brace

  datatype Depths = Depths(angle: nat, paren: nat, square: nat, brace: nat) {
    function Get(bracket: Bracket): nat {
      match bracket
      case Angle => angle
      case Paren => paren
      case Square => square
      case Brace => brace
    }
  }

  const Flat := Depths(0, 0, 0, 0)

  function Opener(bracket: Bracket): char {
    match bracket
    case Angle => '<'
    case Paren => '('
    case Square => '['
    case Brace => '{'
  }

  function Closer(bracket: Bracket): char {
    match bracket
    case Angle => '>'
    case Paren => ')'
    case Square => ']'
    case Brace => '}'
  }

  predicate IsBracket(c: char) {
    c in "<>()[]{}"
  }

  /** Subtraction that stops at zero, `saturating_sub(1)` and `Math.max(0, n - 1)`. */
  function Less(n: nat): nat {
    if n == 0 then 0 else n - 1
  }

  function Bump(d: Depths, c: char): Depths {
    match c
    case '<' => d.(angle := d.angle + 1)
    case '>' => d.(angle := Less(d.angle))
    case '(' => d.(paren := d.paren + 1)
    case ')' => d.(paren := Less(d.paren))
    case '[' => d.(square := d.square + 1)
    case ']' => d.(square := Less(d.square))
    case '{' => d.(brace := d.brace + 1)
    case '}' => d.(brace := Less(d.brace))
    case _ => d
  }

  /** The nesting depths before character `k`. */
  function DepthsAt(mask: Mask, k: nat): Depths
    requires k <= |mask|
  {
    if k == 0 then Flat
    else
      var d := DepthsAt(mask, k - 1);
      match mask[k - 1]
      case Some(c) => Bump(d, c)
      case None => d
  }

  /** Openers minus closers before character `k`, counted without any floor at zero. */
  function Net(mask: Mask, bracket: Bracket, k: nat): int
    requires k <= |mask|
  {
    if k == 0 then 0
    else
      Net(mask, bracket, k - 1)
      + (if mask[k - 1] == Some(Opener(bracket)) then 1 else if mask[k - 1] == Some(Closer(bracket)) then -1 else 0)
  }

  lemma DepthMoves(mask: Mask, bracket: Bracket, k: nat)
    requires k < |mask|
    ensures var depth, rise := DepthsAt(mask, k).Get(bracket), Net(mask, bracket, k + 1) - Net(mask, bracket, k);
            -1 <= rise <= 1
            && DepthsAt(mask, k + 1).Get(bracket) == if depth + rise < 0 then 0 else depth + rise
  {
  }

  /** `depth` is the largest rise of the net count up to `k`. */
  ghost predicate LargestRise(mask: Mask, bracket: Bracket, k: nat, depth: nat)
    requires k <= |mask|
  {
    (forall j :: 0 <= j <= k ==> Net(mask, bracket, k) - Net(mask, bracket, j) <= depth)
    && (exists j :: 0 <= j <= k && Net(mask, bracket, k) - Net(mask, bracket, j) == depth)
  }

  lemma RiseMoves(mask: Mask, bracket: Bracket, k: nat, depth: nat, depth': nat)
    requires k < |mask| && LargestRise(mask, bracket, k, depth)
    requires var rise := Net(mask, bracket, k + 1) - Net(mask, bracket, k);
             -1 <= rise <= 1 && depth' == if depth + rise < 0 then 0 else depth + rise
    ensures LargestRise(mask, bracket, k + 1, depth')
  {
    hide Net;
    var j :| 0 <= j <= k && Net(mask, bracket, k) - Net(mask, bracket, j) == depth;
    var here := if depth' == 0 then k + 1 else j;
    assert Net(mask, bracket, k + 1) - Net(mask, bracket, here) == depth';
  }

  /** A depth is the largest rise of the net count: the openers still unclosed, where a closer
      without an opener is ignored rather than owed. */
  lemma {:induction false} DepthIsUnclosedOpeners(mask: Mask, bracket: Bracket, k: nat)
    requires k <= |mask|
    ensures LargestRise(mask, bracket, k, DepthsAt(mask, k).Get(bracket))
  {
    if k == 0 {
      assert Net(mask, bracket, 0) - Net(mask, bracket, 0) == 0;
    } else {
      DepthIsUnclosedOpeners(mask, bracket, k - 1);
      DepthMoves(mask, bracket, k - 1);
      RiseMoves(mask, bracket, k - 1, DepthsAt(mask, k - 1).Get(bracket), DepthsAt(mask, k).Get(bracket));
    }
  }

  // ---- first position with a property ----

  function Least(hit: nat -> bool, from: nat, n: nat): Option<nat>
    decreases n - from
  {
    if from >= n then None else if hit(from) then Some(from) else Least(hit, from + 1, n)
  }

  lemma {:induction false} LeastIsFirst(hit: nat -> bool, from: nat, n: nat)
    ensures match Least(hit, from, n)
            case Some(k) => from <= k < n && hit(k) && forall j :: from <= j < k ==> !hit(j)
            case None => forall j :: from <= j < n ==> !hit(j)
    decreases n - from
  {
    if from < n && !hit(from) {
      LeastIsFirst(hit, from + 1, n);
    }
  }

  /** What the first-position scans look for. */
  function TopLevelNeedle(mask: Mask, needles: seq<char>): nat -> bool {
    (k: nat) => k < |mask| && mask[k].Some? && mask[k].value in needles && !IsBracket(mask[k].value)
         && DepthsAt(mask, k) == Flat
  }

  function TopLevelAngle(mask: Mask): nat -> bool {
    (k: nat) => k < |mask| && mask[k] == Some('<') && DepthsAt(mask, k).(angle := 0) == Flat
  }

  function TopLevelParen(mask: Mask): nat -> bool {
    (k: nat) => k < |mask| && mask[k] == Some('(') && DepthsAt(mask, k).(paren := 0) == Flat
  }

  function TopLevelBrace(mask: Mask): nat -> bool {
    (k: nat) => k < |mask| && mask[k] == Some('{') && DepthsAt(mask, k) == Flat
  }

  /** The `>` at `k` brings the count of angles opened since the start back to zero, and the count
      never fell below zero on the way. */
  function AngleBalance(mask: Mask): nat -> bool {
    (k: nat) => k < |mask| && mask[k] == Some('>') && Net(mask, Angle, k + 1) == 0
         && forall j :: 0 <= j <= k ==> Net(mask, Angle, j) >= 0
  }

  lemma {:induction false} NetOfHidden(mask: Mask, k: nat)
    requires k <= |mask| && forall j :: 0 <= j < k ==> mask[j] == None
    ensures Net(mask, Angle, k) == 0
  {
    if k > 0 {
      NetOfHidden(mask, k - 1);
    }
  }

  lemma {:induction false} StaysPositive(mask: Mask, open: nat, k: nat, j: nat)
    requires open < j <= k < |mask| && mask[open] == Some('<') && Net(mask, Angle, open) == 0
    requires forall i :: 0 <= i <= k ==> Net(mask, Angle, i) >= 0
    requires forall i :: open <= i < k ==> !AngleBalance(mask)(i)
    ensures Net(mask, Angle, j) > 0
    decreases j
  {
    if j > open + 1 {
      StaysPositive(mask, open, k, j - 1);
      assert !AngleBalance(mask)(j - 1);
    }
  }

  /** When a scan starts on `<`, that angle is open at every point before the balance it finds. */
  lemma BalanceIsEnclosed(mask: Mask, open: nat, k: nat)
    requires open < |mask| && mask[open] == Some('<') && forall j :: 0 <= j < open ==> mask[j] == None
    requires Least(AngleBalance(mask), open, |mask|) == Some(k)
    ensures open < k < |mask| && Net(mask, Angle, k + 1) == 0
    ensures forall j :: open < j <= k ==> Net(mask, Angle, j) > 0
  {
    var hit := AngleBalance(mask);
    LeastIsFirst(hit, open, |mask|);
    NetOfHidden(mask, open);
    assert hit(k) && !hit(open);
    forall j | open < j <= k
      ensures Net(mask, Angle, j) > 0
    {
      StaysPositive(mask, open, k, j);
    }
  }

  // ---- splitting ----

  type Range = (nat, nat)

  predicate Cut(mask: Mask, delimiter: char, k: nat) {
    k < |mask| && mask[k] == Some(delimiter) && !IsBracket(delimiter) && DepthsAt(mask, k) == Flat
  }

  function SplitFrom(mask: Mask, delimiter: char, start: nat, k: nat): (ranges: seq<Range>)
    requires start <= k <= |mask|
    ensures ranges != []
    decreases |mask| - k
  {
    if k == |mask| then [(start, k)]
    else if Cut(mask, delimiter, k) then [(start, k)] + SplitFrom(mask, delimiter, k + 1, k + 1)
    else SplitFrom(mask, delimiter, start, k + 1)
  }

  function Split(mask: Mask, delimiter: char): seq<Range> {
    SplitFrom(mask, delimiter, 0, 0)
  }

  function Shift(ranges: seq<Range>, distance: nat): (shifted: seq<Range>)
    ensures |shifted| == |ranges|
  {
    seq(|ranges|, i requires 0 <= i < |ranges| => (ranges[i].0 + distance, ranges[i].1 + distance))
  }

  /** Consecutive ranges are separated by exactly one character, and together they span the text. */
  ghost predicate Spans(ranges: seq<Range>, start: nat, end: nat) {
    && ranges != [] && ranges[0].0 == start && ranges[|ranges| - 1].1 == end
    && (forall i :: 0 <= i < |ranges| ==> start <= ranges[i].0 <= ranges[i].1 <= end)
    && (forall i :: 0 <= i < |ranges| - 1 ==> ranges[i + 1].0 == ranges[i].1 + 1)
  }

  ghost predicate EndsAt(ranges: seq<Range>, k: nat) {
    exists i :: 0 <= i < |ranges| - 1 && ranges[i].1 == k
  }

  lemma EndsAtCons(first: Range, rest: seq<Range>, p: nat)
    requires rest != []
    ensures EndsAt([first] + rest, p) <==> first.1 == p || EndsAt(rest, p)
  {
    var ranges := [first] + rest;
    if EndsAt(rest, p) {
      var i :| 0 <= i < |rest| - 1 && rest[i].1 == p;
      assert ranges[i + 1].1 == p;
    }
    if EndsAt(ranges, p) && first.1 != p {
      var i :| 0 <= i < |ranges| - 1 && ranges[i].1 == p;
      assert rest[i - 1].1 == p;
    }
    if first.1 == p {
      assert ranges[0].1 == p;
    }
  }

  lemma SpansCons(first: Range, rest: seq<Range>, end: nat)
    requires first.0 <= first.1 && Spans(rest, first.1 + 1, end)
    ensures Spans([first] + rest, first.0, end)
  {
  }

  lemma {:induction false} EndAfter(ranges: seq<Range>, i: nat, k: nat)
    requires i < |ranges| && Spans(ranges, ranges[0].0, ranges[|ranges| - 1].1) && ranges[0].1 > k
    ensures ranges[i].1 > k
  {
    if i > 0 {
      EndAfter(ranges, i - 1, k);
      assert ranges[i - 1 + 1].0 == ranges[i - 1].1 + 1;
    }
  }

  lemma LaterEnds(ranges: seq<Range>, k: nat)
    requires ranges != [] && Spans(ranges, ranges[0].0, ranges[|ranges| - 1].1) && ranges[0].1 > k
    ensures !EndsAt(ranges, k)
  {
    forall i | 0 <= i < |ranges|
      ensures ranges[i].1 > k
    {
      EndAfter(ranges, i, k);
    }
  }

  /** The ranges partition the text around single separators, and the ends of all ranges but the
      last are exactly the top-level delimiters. */
  lemma {:induction false} SplitAtEveryCut(mask: Mask, delimiter: char, start: nat, k: nat)
    requires start <= k <= |mask|
    ensures Spans(SplitFrom(mask, delimiter, start, k), start, |mask|)
    ensures SplitFrom(mask, delimiter, start, k)[0].1 >= k
    ensures forall p :: k <= p < |mask| ==>
              (Cut(mask, delimiter, p) <==> EndsAt(SplitFrom(mask, delimiter, start, k), p))
    decreases |mask| - k
  {
    hide Cut, EndsAt;
    if k < |mask| && Cut(mask, delimiter, k) {
      var rest := SplitFrom(mask, delimiter, k + 1, k + 1);
      SplitAtEveryCut(mask, delimiter, k + 1, k + 1);
      SpansCons((start, k), rest, |mask|);
      forall p | k <= p < |mask|
        ensures Cut(mask, delimiter, p) <==> EndsAt([(start, k)] + rest, p)
      {
        EndsAtCons((start, k), rest, p);
      }
    } else if k < |mask| {
      SplitAtEveryCut(mask, delimiter, start, k + 1);
      LaterEnds(SplitFrom(mask, delimiter, start, k + 1), k);
    }
  }

  function Pieces(text: string, ranges: seq<Range>): (pieces: seq<string>)
    requires forall i :: 0 <= i < |ranges| ==> ranges[i].0 <= ranges[i].1 <= |text|
    ensures |pieces| == |ranges|
  {
    seq(|ranges|, i requires 0 <= i < |ranges| => text[ranges[i].0..ranges[i].1])
  }

  function Join(pieces: seq<string>, delimiter: char): string {
    if pieces == [] then []
    else if |pieces| == 1 then pieces[0]
    else pieces[0] + [delimiter] + Join(pieces[1..], delimiter)
  }

  lemma PiecesCons(text: string, first: Range, rest: seq<Range>)
    requires Spans(rest, first.1 + 1, |text|) && first.0 <= first.1
    ensures Spans([first] + rest, first.0, |text|)
    ensures Pieces(text, [first] + rest) == [text[first.0..first.1]] + Pieces(text, rest)
  {
  }

  lemma JoinCons(first: string, rest: seq<string>, delimiter: char)
    requires rest != []
    ensures Join([first] + rest, delimiter) == first + [delimiter] + Join(rest, delimiter)
  {
    assert ([first] + rest)[1..] == rest;
  }

  /** A mask of `text`: what it shows, it shows unchanged. */
  ghost predicate Shows(mask: Mask, text: string) {
    |mask| == |text| && forall p :: 0 <= p < |text| && mask[p].Some? ==> mask[p].value == text[p]
  }

  lemma BlankShows(text: string)
    ensures Shows(Blank(text), text)
  {
    forall p | 0 <= p < |text| && Blank(text)[p].Some?
      ensures Blank(text)[p].value == text[p]
    {
      CutAround(text, p);
    }
  }

  lemma {:induction false} JoinRebuilds(mask: Mask, text: string, delimiter: char, start: nat, k: nat)
    requires start <= k <= |text| && Shows(mask, text)
    ensures var ranges := SplitFrom(mask, delimiter, start, k);
            Spans(ranges, start, |text|) && Join(Pieces(text, ranges), delimiter) == text[start..]
    decreases |text| - k
  {
    SplitAtEveryCut(mask, delimiter, start, k);
    hide DepthsAt;
    if k == |text| {
      assert Pieces(text, [(start, k)]) == [text[start..k]];
    } else if Cut(mask, delimiter, k) {
      var rest := SplitFrom(mask, delimiter, k + 1, k + 1);
      JoinRebuilds(mask, text, delimiter, k + 1, k + 1);
      PiecesCons(text, (start, k), rest);
      JoinCons(text[start..k], Pieces(text, rest), delimiter);
      assert text[start..k] + [delimiter] + text[k + 1..] == text[start..];
    } else {
      JoinRebuilds(mask, text, delimiter, start, k + 1);
    }
  }

  /** Joining the slices with the delimiter rebuilds the text. */
  lemma SplitJoinRoundTrip(text: string, delimiter: char)
    ensures var ranges := Split(Blank(text), delimiter);
            Spans(ranges, 0, |text|) && Join(Pieces(text, ranges), delimiter) == text
  {
    BlankShows(text);
    JoinRebuilds(Blank(text), text, delimiter, 0, 0);
    assert text[0..] == text;
  }

  lemma {:induction false} DepthsOfPrefix(x: Mask, y: Mask, k: nat)
    requires k <= |x|
    ensures DepthsAt(x + y, k) == DepthsAt(x, k)
  {
    if k > 0 {
      DepthsOfPrefix(x, y, k - 1);
    }
  }

  lemma {:induction false} DepthsOfSuffix(x: Mask, y: Mask, k: nat)
    requires k <= |y| && DepthsAt(x, |x|) == Flat
    ensures DepthsAt(x + y, |x| + k) == DepthsAt(y, k)
  {
    if k == 0 {
      DepthsOfPrefix(x, y, |x|);
    } else {
      DepthsOfSuffix(x, y, k - 1);
      assert (x + y)[|x| + k - 1] == y[k - 1];
    }
  }

  lemma CutOfSuffix(x: Mask, y: Mask, delimiter: char, k: nat)
    requires k < |y| && DepthsAt(x, |x|) == Flat
    ensures Cut(x + y, delimiter, |x| + k) <==> Cut(y, delimiter, k)
  {
    hide DepthsAt;
    DepthsOfSuffix(x, y, k);
    assert (x + y)[|x| + k] == y[k];
  }

  /** A split that has reached a flat point goes on as a split of what is left. */
  lemma {:induction false} SplitAfter(x: Mask, y: Mask, delimiter: char, start: nat, k: nat)
    requires start <= k <= |y| && DepthsAt(x, |x|) == Flat
    ensures SplitFrom(x + y, delimiter, |x| + start, |x| + k) == Shift(SplitFrom(y, delimiter, start, k), |x|)
    decreases |y| - k
  {
    hide DepthsAt, Cut;
    if k < |y| {
      CutOfSuffix(x, y, delimiter, k);
      if Cut(y, delimiter, k) {
        SplitAfter(x, y, delimiter, k + 1, k + 1);
      } else {
        SplitAfter(x, y, delimiter, start, k + 1);
      }
    }
  }

  lemma SplitAtDelimiter(x: Mask, y: Mask, delimiter: char, start: nat)
    requires start <= |x| && DepthsAt(x, |x|) == Flat && !IsBracket(delimiter)
    ensures SplitFrom(x + [Some(delimiter)] + y, delimiter, start, |x|)
            == [(start, |x|)] + Shift(Split(y, delimiter), |x| + 1)
  {
    var left := x + [Some(delimiter)];
    assert left + y == x + ([Some(delimiter)] + y);
    DepthsOfPrefix(x, [Some(delimiter)] + y, |x|);
    DepthsOfPrefix(x, [Some(delimiter)], |x|);
    assert DepthsAt(left, |left|) == Flat;
    assert Cut(left + y, delimiter, |x|);
    SplitAfter(left, y, delimiter, 0, 0);
  }

  lemma CutOfPrefix(x: Mask, y: Mask, delimiter: char, k: nat)
    requires k < |x|
    ensures Cut(x + y, delimiter, k) <==> Cut(x, delimiter, k)
  {
    DepthsOfPrefix(x, y, k);
  }

  lemma {:induction false} SplitBefore(x: Mask, y: Mask, delimiter: char, start: nat, k: nat)
    requires start <= k <= |x| && DepthsAt(x, |x|) == Flat && !IsBracket(delimiter)
    ensures SplitFrom(x + [Some(delimiter)] + y, delimiter, start, k)
            == SplitFrom(x, delimiter, start, k) + Shift(Split(y, delimiter), |x| + 1)
    decreases |x| - k
  {
    hide DepthsAt, Cut, Split, Shift;
    var m := x + [Some(delimiter)] + y;
    assert m == x + ([Some(delimiter)] + y);
    if k == |x| {
      SplitAtDelimiter(x, y, delimiter, start);
    } else {
      CutOfPrefix(x, [Some(delimiter)] + y, delimiter, k);
      if Cut(x, delimiter, k) {
        SplitBefore(x, y, delimiter, k + 1, k + 1);
      } else {
        SplitBefore(x, y, delimiter, start, k + 1);
      }
    }
  }

  /** A text that can be followed by a delimiter without hiding it: it ends outside strings and
      comments with every bracket closed. */
  ghost predicate Complete(a: string) {
    EndMode(Code, a) == Code && DepthsAt(Blank(a), |a|) == Flat
  }

  /** Top-level splitting is a homomorphism. */
  lemma SplitHomomorphism(a: string, delimiter: char, b: string)
    requires Complete(a) && IsPlain(delimiter) && !IsBracket(delimiter)
    ensures Split(Blank(a + [delimiter] + b), delimiter)
            == Split(Blank(a), delimiter) + Shift(Split(Blank(b), delimiter), |a| + 1)
  {
    hide Blank, Tail, SplitFrom, DepthsAt, IsPlain, EndMode;
    BlankAroundPlain(Code, a, delimiter, b);
    CodeTail(a);
    CodeTail(a + [delimiter] + b);
    assert Blank(a + [delimiter] + b) == Blank(a) + [Some(delimiter)] + Blank(b);
    SplitBefore(Blank(a), Blank(b), delimiter, 0, 0);
  }

  lemma MaskSplits(mask: Mask, k: nat)
    requires k < |mask|
    ensures mask == mask[..k] + mask[k..] && mask == mask[..k] + [mask[k]] + mask[k + 1..]
  {
  }

  lemma DepthsOfTake(mask: Mask, k: nat, p: nat)
    requires p <= k < |mask|
    ensures DepthsAt(mask[..k], p) == DepthsAt(mask, p)
  {
    MaskSplits(mask, k);
    DepthsOfPrefix(mask[..k], mask[k..], p);
  }

  lemma CutMask(text: string, delimiter: char, k: nat)
    requires Cut(Blank(text), delimiter, k)
    ensures Complete(text[..k])
    ensures Blank(text) == Blank(text[..k]) + [Some(delimiter)] + Blank(text[k + 1..])
    ensures Blank(text[..k]) == Blank(text)[..k]
  {
    CutAround(text, k);
    MaskSplits(Blank(text), k);
    DepthsOfTake(Blank(text), k, k);
  }

  /** Cutting at any one top-level delimiter splits the two sides independently. */
  lemma SplitAround(text: string, delimiter: char, k: nat)
    requires Cut(Blank(text), delimiter, k)
    ensures Complete(text[..k])
    ensures Split(Blank(text), delimiter)
            == Split(Blank(text[..k]), delimiter) + Shift(Split(Blank(text[k + 1..]), delimiter), k + 1)
  {
    CutMask(text, delimiter, k);
    SplitBefore(Blank(text[..k]), Blank(text[k + 1..]), delimiter, 0, 0);
  }

  lemma {:induction false} NoCutNoSplit(mask: Mask, delimiter: char, start: nat, k: nat)
    requires start <= k <= |mask| && forall p :: k <= p < |mask| ==> !Cut(mask, delimiter, p)
    ensures SplitFrom(mask, delimiter, start, k) == [(start, |mask|)]
    decreases |mask| - k
  {
    if k < |mask| {
      NoCutNoSplit(mask, delimiter, start, k + 1);
    }
  }

  lemma FirstPieceUncut(text: string, delimiter: char, k: nat)
    requires Split(Blank(text), delimiter)[0].1 == k && |Split(Blank(text), delimiter)| > 1
    ensures Cut(Blank(text), delimiter, k)
    ensures Split(Blank(text[..k]), delimiter) == [(0, k)]
  {
    var mask := Blank(text);
    var ranges := Split(mask, delimiter);
    SplitAtEveryCut(mask, delimiter, 0, 0);
    assert ranges[0 + 1].0 == k + 1;
    assert EndsAt(ranges, k);
    CutMask(text, delimiter, k);
    forall p | 0 <= p < k
      ensures !Cut(Blank(text[..k]), delimiter, p)
    {
      LaterEnds(ranges, p);
      DepthsOfTake(mask, k, p);
      assert mask[p] == mask[..k][p];
    }
    NoCutNoSplit(Blank(text[..k]), delimiter, 0, 0);
  }

  lemma ShiftedAt(first: Range, rest: seq<Range>, distance: nat, i: nat)
    requires 0 < i < |[first] + Shift(rest, distance)|
    ensures i - 1 < |rest|
    ensures ([first] + Shift(rest, distance))[i] == (rest[i - 1].0 + distance, rest[i - 1].1 + distance)
  {
  }

  lemma LaterRange(text: string, delimiter: char, k: nat, i: nat)
    requires Cut(Blank(text), delimiter, k) && Split(Blank(text[..k]), delimiter) == [(0, k)]
    requires 0 < i < |Split(Blank(text), delimiter)|
    ensures var inner := Split(Blank(text[k + 1..]), delimiter);
            i - 1 < |inner| && Split(Blank(text), delimiter)[i] == (inner[i - 1].0 + k + 1, inner[i - 1].1 + k + 1)
  {
    hide Split, Blank, DepthsAt, Shift, Complete;
    SplitAround(text, delimiter, k);
    ShiftedAt((0, k), Split(Blank(text[k + 1..]), delimiter), k + 1, i);
  }

  /** The slice of `text` at `range` has no top-level delimiter of its own. */
  ghost predicate Whole(text: string, delimiter: char, range: Range) {
    range.0 <= range.1 <= |text|
    && Split(Blank(text[range.0..range.1]), delimiter) == [(0, range.1 - range.0)]
  }

  lemma WholeInSuffix(text: string, delimiter: char, k: nat, inner: Range)
    requires k <= |text| && Whole(text[k..], delimiter, inner)
    ensures Whole(text, delimiter, (inner.0 + k, inner.1 + k))
  {
    hide Blank, Split;
    var piece := text[k..][inner.0..inner.1];
    assert text[inner.0 + k..inner.1 + k] == piece;
  }

  lemma FirstIsWhole(text: string, delimiter: char)
    ensures Whole(text, delimiter, Split(Blank(text), delimiter)[0])
  {
    var ranges := Split(Blank(text), delimiter);
    SplitAtEveryCut(Blank(text), delimiter, 0, 0);
    if |ranges| == 1 {
      assert text[0..|text|] == text;
    } else {
      var k := ranges[0].1;
      FirstPieceUncut(text, delimiter, k);
      assert text[0..k] == text[..k];
    }
  }

  /** Splitting a piece again yields the piece. */
  lemma {:induction false} PieceIsWhole(text: string, delimiter: char, i: nat)
    requires i < |Split(Blank(text), delimiter)|
    ensures Whole(text, delimiter, Split(Blank(text), delimiter)[i])
    decreases |text|
  {
    hide Whole, Blank, DepthsAt, Cut;
    if i == 0 {
      FirstIsWhole(text, delimiter);
    } else {
      var k := Split(Blank(text), delimiter)[0].1;
      FirstPieceUncut(text, delimiter, k);
      LaterRange(text, delimiter, k, i);
      PieceIsWhole(text[k + 1..], delimiter, i - 1);
      WholeInSuffix(text, delimiter, k + 1, Split(Blank(text[k + 1..]), delimiter)[i - 1]);
    }
  }

  // ---- what a scan passes over ----

  /** Characters `k` up to `later` all lie in strings or comments. */
  ghost predicate HiddenRun(mask: Mask, k: nat, later: nat) {
    k <= later <= |mask| && forall j :: k <= j < later ==> mask[j] == None
  }

  lemma {:induction false} NothingMoves(mask: Mask, k: nat, later: nat)
    requires HiddenRun(mask, k, later)
    ensures DepthsAt(mask, later) == DepthsAt(mask, k) && Net(mask, Angle, later) == Net(mask, Angle, k)
    decreases later
  {
    if k < later {
      NothingMoves(mask, k, later - 1);
    }
  }

  lemma {:induction false} NothingHit(hit: nat -> bool, k: nat, later: nat, n: nat)
    requires k <= later <= n && forall j :: k <= j < later ==> !hit(j)
    ensures Least(hit, k, n) == Least(hit, later, n)
    decreases later - k
  {
    if k < later {
      NothingHit(hit, k + 1, later, n);
    }
  }

  lemma CutHere(mask: Mask, delimiter: char, start: nat, k: nat)
    requires start <= k < |mask| && mask[k].Some?
    ensures Cut(mask, delimiter, k)
            <==> !IsBracket(mask[k].value) && mask[k].value == delimiter && DepthsAt(mask, k) == Flat
    ensures SplitFrom(mask, delimiter, start, k)
            == if Cut(mask, delimiter, k) then [(start, k)] + SplitFrom(mask, delimiter, k + 1, k + 1)
               else SplitFrom(mask, delimiter, start, k + 1)
  {
  }

  lemma {:induction false} NothingCut(mask: Mask, delimiter: char, start: nat, k: nat, later: nat)
    requires start <= k && HiddenRun(mask, k, later)
    ensures SplitFrom(mask, delimiter, start, k) == SplitFrom(mask, delimiter, start, later)
    decreases later - k
  {
    if k < later {
      NothingCut(mask, delimiter, start, k + 1, later);
    }
  }

  lemma SplitDone(mask: Mask, delimiter: char, start: nat)
    requires start <= |mask|
    ensures SplitFrom(mask, delimiter, start, |mask|) == [(start, |mask|)]
  {
  }

  lemma RangesAssoc(x: seq<Range>, y: seq<Range>, z: seq<Range>)
    ensures x + (y + z) == (x + y) + z && [] + z == z
  {
  }
}
