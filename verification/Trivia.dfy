/** String and comment lexing shared by the Rust scanner (`SourceScanner`) and its TypeScript twin
    (`createScanner`).  Everything here is stated on the characters that are still to be read, so
    that restarting a scanner on a slice is the same thing as continuing it. */
module Trivia {
  import opened Options

  /** A text with every character of a string or comment replaced by `None`. */
  type Mask = seq<Option<char>>

  // ---- the scanner, one call at a time ----

  datatype Mode = Code | Line | Block | Quoted(quote: char, escaped: bool)

  predicate IsQuote(c: char) {
    c == '"' || c == '\'' || c == '`'
  }

  predicate IsNewline(c: char) {
    c == '\n' || c == '\r'
  }

  predicate Starts(s: string, first: char, second: char) {
    |s| >= 2 && s[0] == first && s[1] == second
  }

  /** One `skip`: the new mode and how many characters were passed over; 0 means "a code character". */
  function Skip(mode: Mode, s: string): (r: (Mode, nat))
    requires s != []
    ensures r.1 <= |s| && r.1 <= 2
    ensures r.1 == 0 ==> mode == Code && r.0 == Code
  {
    match mode
    case Line => (if IsNewline(s[0]) then Code else Line, 1)
    case Block => if Starts(s, '*', '/') then (Code, 2) else (Block, 1)
    case Quoted(quote, escaped) =>
      if escaped then (Quoted(quote, false), 1)
      else if s[0] == '\\' then (Quoted(quote, true), 1)
      else if s[0] == quote then (Code, 1)
      else (mode, 1)
    case Code =>
      if Starts(s, '/', '/') then (Line, 2)
      else if Starts(s, '/', '*') then (Block, 2)
      else if IsQuote(s[0]) then (Quoted(s[0], false), 1)
      else (Code, 0)
  }

  function Hidden(n: nat): (m: Mask)
    ensures |m| == n && forall j :: 0 <= j < n ==> m[j] == None
  {
    seq(n, _ => None)
  }

  /** `Skip` for a loop that steps over a code character by itself: the next mode, the characters
      consumed, and what they look like in the mask. */
  function Advance(mode: Mode, s: string): (r: (Mode, nat, Mask))
    requires s != []
    ensures 1 <= r.1 <= |s| && |r.2| == r.1
  {
    var (next, n) := Skip(mode, s);
    if n == 0 then (Code, 1, [Some(s[0])]) else (next, n, Hidden(n))
  }

  /** The mode a scanner is in after the whole of `s`. */
  function EndMode(mode: Mode, s: string): Mode
    decreases |s|
  {
    if s == [] then mode else EndMode(Advance(mode, s).0, s[Advance(mode, s).1..])
  }

  // ---- the specification: whole tokens, not modes ----

  /** Characters up to and including the end of the line. */
  function LineLength(s: string): (n: nat)
    ensures n <= |s|
  {
    if s == [] then 0 else if IsNewline(s[0]) then 1 else 1 + LineLength(s[1..])
  }

  /** Characters up to and including the next comment terminator. */
  function BlockLength(s: string): (n: nat)
    ensures n <= |s|
  {
    if s == [] then 0 else if Starts(s, '*', '/') then 2 else 1 + BlockLength(s[1..])
  }

  /** Characters up to and including the closing quote; a backslash hides the character behind it. */
  function StringLength(s: string, quote: char): (n: nat)
    ensures n <= |s|
  {
    if |s| <= 1 then |s|
    else if s[0] == '\\' then 2 + StringLength(s[2..], quote)
    else if s[0] == quote then 1
    else 1 + StringLength(s[1..], quote)
  }

  /** Length of the string or comment that begins `s`, or 0 when `s` begins with code. */
  function TokenLength(s: string): (n: nat)
    requires s != []
    ensures n <= |s|
  {
    if Starts(s, '/', '/') then 2 + LineLength(s[2..])
    else if Starts(s, '/', '*') then 2 + BlockLength(s[2..])
    else if IsQuote(s[0]) then 1 + StringLength(s[1..], s[0])
    else 0
  }

  /** The first pass of the two-pass reading: blank every string and comment. */
  function Blank(s: string): (m: Mask)
    ensures |m| == |s|
    decreases |s|
  {
    if s == [] then []
    else
      var n := TokenLength(s);
      if n == 0 then [Some(s[0])] + Blank(s[1..]) else Hidden(n) + Blank(s[n..])
  }

  // ---- the scanner computes the specification ----

  /** How much of `s` belongs to the token a scanner in `mode` is inside of. */
  function Remaining(mode: Mode, s: string): (n: nat)
    ensures n <= |s|
  {
    match mode
    case Code => 0
    case Line => LineLength(s)
    case Block => BlockLength(s)
    case Quoted(quote, escaped) =>
      if escaped && s != [] then 1 + StringLength(s[1..], quote) else StringLength(s, quote)
  }

  /** The mask of `s` when a scanner in `mode` is about to read it. */
  function Tail(mode: Mode, s: string): (m: Mask)
    ensures |m| == |s|
  {
    var n := Remaining(mode, s);
    Hidden(n) + Blank(s[n..])
  }

  predicate GoodMode(mode: Mode) {
    mode.Quoted? ==> IsQuote(mode.quote)
  }

  /** The part of `s` a scanner in `mode` reads as one token, counted from the next character. */
  function TokenRest(mode: Mode, s: string): (n: nat)
    requires s != []
    ensures n <= |s|
  {
    if mode == Code then TokenLength(s) else Remaining(mode, s)
  }

  lemma TokenPeels(mode: Mode, s: string)
    requires s != [] && GoodMode(mode)
    ensures var (next, n) := Skip(mode, s);
            GoodMode(next) && TokenRest(mode, s) == n + Remaining(next, s[n..])
  {
    match mode
    case Quoted(quote, escaped) =>
      if !escaped && s[0] == '\\' && |s| >= 2 {
        assert s[1..][1..] == s[2..];
      }
    case Code => assert s[0..] == s;
    case _ =>
  }

  lemma TailIsToken(mode: Mode, s: string)
    requires s != []
    ensures Tail(mode, s) == if TokenRest(mode, s) == 0 then [Some(s[0])] + Blank(s[1..])
                             else Hidden(TokenRest(mode, s)) + Blank(s[TokenRest(mode, s)..])
  {
    if mode == Code || TokenRest(mode, s) == 0 {
      assert s[0..] == s && Tail(mode, s) == Blank(s);
    }
  }

  lemma TailIs(mode: Mode, s: string)
    ensures Tail(mode, s) == Hidden(Remaining(mode, s)) + Blank(s[Remaining(mode, s)..])
  {
  }

  lemma HiddenSum(m: nat, n: nat, rest: Mask)
    ensures Hidden(m + n) + rest == Hidden(m) + (Hidden(n) + rest)
  {
  }

  lemma CodeTail(s: string)
    ensures Tail(Code, s) == Blank(s)
  {
    assert s[0..] == s;
    assert Hidden(0) + Blank(s) == Blank(s);
  }

  lemma BlankOfCode(s: string)
    requires s != [] && Skip(Code, s).1 == 0
    ensures Blank(s) == [Some(s[0])] + Blank(s[1..])
  {
  }

  lemma SkipPeelsToken(mode: Mode, s: string)
    requires s != [] && GoodMode(mode) && Skip(mode, s).1 != 0
    ensures Tail(mode, s) == Hidden(Skip(mode, s).1) + Tail(Skip(mode, s).0, s[Skip(mode, s).1..])
  {
    hide Blank, Tail, Skip, TokenRest, Remaining, Hidden;
    var (next, n) := Skip(mode, s);
    TokenPeels(mode, s);
    TailIsToken(mode, s);
    var rest := s[n..];
    var m := Remaining(next, rest);
    TailIs(next, rest);
    assert s[n + m..] == rest[m..];
    HiddenSum(n, m, Blank(rest[m..]));
  }

  /** One call of the scanner peels exactly the characters it skips off the mask. */
  lemma SkipPeels(mode: Mode, s: string)
    requires s != [] && GoodMode(mode)
    ensures GoodMode(Skip(mode, s).0)
    ensures var (next, n) := Skip(mode, s);
            Tail(mode, s) == if n == 0 then [Some(s[0])] + Tail(Code, s[1..]) else Hidden(n) + Tail(next, s[n..])
  {
    hide Blank, Tail, Hidden, Remaining;
    if Skip(mode, s).1 == 0 {
      CodeTail(s);
      CodeTail(s[1..]);
      BlankOfCode(s);
    } else {
      SkipPeelsToken(mode, s);
    }
  }

  lemma AdvancePeels(mode: Mode, s: string)
    requires s != [] && GoodMode(mode)
    ensures var (next, step, peeled) := Advance(mode, s);
            GoodMode(next) && Tail(mode, s) == peeled + Tail(next, s[step..])
  {
    SkipPeels(mode, s);
  }

  /** A scanner in `mode` before character `k` of `text` agrees with `mask` on what is still to come. */
  ghost predicate Tracks(mask: Mask, mode: Mode, text: string, k: nat) {
    |mask| == |text| && k <= |text| && GoodMode(mode) && Tail(mode, text[k..]) == mask[k..]
  }

  /** What a fresh scanner makes of `text` when it is started at character `base`. */
  function MaskFrom(text: string, base: nat): (mask: Mask)
    requires base <= |text|
    ensures |mask| == |text|
  {
    Hidden(base) + Blank(text[base..])
  }

  lemma TracksAtStart(text: string, base: nat)
    requires base <= |text|
    ensures Tracks(MaskFrom(text, base), Code, text, base)
    ensures base == 0 ==> MaskFrom(text, base) == Blank(text)
  {
    assert base == 0 ==> text[base..] == text;
    CodeTail(text[base..]);
  }

  lemma MaskDrop(x: Mask, y: Mask, whole: Mask, k: nat)
    requires k <= |whole| && whole[k..] == x + y
    ensures k + |x| <= |whole| && whole[k + |x|..] == y
    ensures forall j :: 0 <= j < |x| ==> whole[k + j] == x[j]
  {
    assert whole[k..][|x|..] == whole[k + |x|..];
    forall j | 0 <= j < |x|
      ensures whole[k + j] == x[j]
    {
      assert whole[k + j] == whole[k..][j];
    }
  }

  lemma TracksAdvance(mask: Mask, mode: Mode, text: string, k: nat)
    requires Tracks(mask, mode, text, k) && k < |text|
    ensures var (next, step, peeled) := Advance(mode, text[k..]);
            Tracks(mask, next, text, k + step) && forall j :: 0 <= j < step ==> mask[k + j] == peeled[j]
  {
    hide Tail, Blank, Skip;
    var s := text[k..];
    var (next, step, peeled) := Advance(mode, s);
    AdvancePeels(mode, s);
    var rest := text[k + step..];
    assert s[step..] == rest;
    var tail := Tail(next, rest);
    MaskDrop(peeled, tail, mask, k);
  }

  lemma TracksLength(mask: Mask, mode: Mode, text: string, k: nat)
    requires Tracks(mask, mode, text, k)
    ensures |mask| == |text| && k <= |text|
  {
  }

  lemma AdvanceIsSkip(mode: Mode, s: string)
    requires s != []
    ensures var (next, n) := Skip(mode, s);
            Advance(mode, s) == if n == 0 then (Code, 1, [Some(s[0])]) else (next, n, Hidden(n))
  {
    hide Skip;
  }

  lemma MaskedRun(mask: Mask, peeled: Mask, k: nat, n: nat)
    requires peeled == Hidden(n) && k + n <= |mask| && forall j :: 0 <= j < n ==> mask[k + j] == peeled[j]
    ensures forall j :: k <= j < k + n ==> mask[j] == None
  {
    forall j | k <= j < k + n
      ensures mask[j] == None
    {
      assert mask[k + (j - k)] == peeled[j - k];
    }
  }

  /** The step every scan loop takes. */
  lemma TracksStep(mask: Mask, mode: Mode, text: string, k: nat)
    requires Tracks(mask, mode, text, k) && k < |text|
    ensures var (next, n) := Skip(mode, text[k..]);
            if n == 0 then mask[k] == Some(text[k]) && Tracks(mask, Code, text, k + 1)
            else k + n <= |text| && Tracks(mask, next, text, k + n) && forall j :: k <= j < k + n ==> mask[j] == None
  {
    hide Tail, Blank, Skip, Tracks, Advance;
    TracksLength(mask, mode, text, k);
    TracksAdvance(mask, mode, text, k);
    AdvanceIsSkip(mode, text[k..]);
    var (next, n) := Skip(mode, text[k..]);
    var peeled := Advance(mode, text[k..]).2;
    if n == 0 {
      assert mask[k + 0] == peeled[0] && text[k..][0] == text[k];
    } else {
      MaskedRun(mask, peeled, k, n);
    }
  }

  // ---- concatenation ----

  lemma MaskAssoc(x: Mask, y: Mask, z: Mask)
    ensures (x + y) + z == x + (y + z)
  {
  }

  /** Two characters that a scanner in `mode` reads together. */
  predicate Pairs(mode: Mode, x: char, y: char) {
    (mode == Code && x == '/' && (y == '/' || y == '*')) || (mode == Block && x == '*' && y == '/')
  }

  /** The mode in which the last character of `a` is read by itself, if it is. */
  function LastAlone(mode: Mode, a: string): Option<Mode>
    requires a != []
    decreases |a|
  {
    var (next, step, _) := Advance(mode, a);
    if |a| == 1 then Some(mode) else if step == |a| then None else LastAlone(next, a[step..])
  }

  /** The last character of `a` and the first of `b` are read together. */
  predicate Joins(mode: Mode, a: string, b: string) {
    a != [] && b != [] && LastAlone(mode, a).Some? && Pairs(LastAlone(mode, a).value, a[|a| - 1], b[0])
  }

  lemma AdvanceLooksNoFurther(mode: Mode, a: string, b: string)
    requires a != [] && !(|a| == 1 && b != [] && Pairs(mode, a[0], b[0]))
    ensures Advance(mode, a + b) == Advance(mode, a)
    ensures var step := Advance(mode, a).1; (a + b)[step..] == a[step..] + b
  {
    var whole := a + b;
    assert whole[0] == a[0] && (|a| >= 2 ==> whole[1] == a[1]) && (|a| == 1 && b != [] ==> whole[1] == b[0]);
  }

  lemma JoinsLater(mode: Mode, a: string, b: string)
    requires a != [] && b != [] && |a| > 1
    ensures var (next, step, _) := Advance(mode, a); Joins(mode, a, b) <==> Joins(next, a[step..], b)
  {
  }

  lemma LastIsAlone(mode: Mode, a: string)
    requires |a| == 1
    ensures LastAlone(mode, a) == Some(mode)
  {
  }

  lemma NothingIsBlank(mode: Mode, rest: Mask)
    ensures Tail(mode, []) + rest == rest
  {
  }

  /** Blanking a text piece by piece, the second with the mode the first ends in, is blanking the whole,
      unless the pieces were cut between two characters that are read together. */
  lemma {:induction false} BlankConcat(mode: Mode, a: string, b: string)
    requires GoodMode(mode) && !Joins(mode, a, b)
    ensures Tail(mode, a + b) == Tail(mode, a) + Tail(EndMode(mode, a), b)
    ensures EndMode(mode, a + b) == EndMode(EndMode(mode, a), b) && GoodMode(EndMode(mode, a))
    decreases |a|
  {
    hide Tail, Skip, LastAlone;
    if a == [] {
      assert a + b == b;
      NothingIsBlank(mode, Tail(mode, b));
    } else {
      var (next, step, peeled) := Advance(mode, a);
      if b != [] {
        if |a| == 1 {
          LastIsAlone(mode, a);
        } else {
          JoinsLater(mode, a, b);
        }
      }
      AdvanceLooksNoFurther(mode, a, b);
      AdvancePeels(mode, a);
      AdvancePeels(mode, a + b);
      BlankConcat(next, a[step..], b);
      MaskAssoc(peeled, Tail(next, a[step..]), Tail(EndMode(mode, a), b));
    }
  }

  lemma OpenerHides(a: string, b: string)
    requires |a| == 1 && b != [] && Pairs(Code, a[0], b[0])
    ensures Tail(Code, a + b)[0] == None && Tail(Code, a)[0] == Some(a[0])
  {
    var whole := a + b;
    assert whole[0] == a[0] && whole[1] == b[0];
    AdvancePeels(Code, whole);
    AdvancePeels(Code, a);
  }

  lemma MaskAt(x: Mask, y: Mask, k: nat)
    requires k < |x| + |y|
    ensures (x + y)[k] == if k < |x| then x[k] else y[k - |x|]
  {
  }

  /** Cutting an opener in two shows its first half as code, which the whole text hides. */
  lemma {:induction false} CutOpenerShows(mode: Mode, a: string, b: string)
    requires GoodMode(mode) && Joins(mode, a, b) && LastAlone(mode, a) == Some(Code)
    ensures Tail(mode, a + b)[|a| - 1] == None && Tail(mode, a)[|a| - 1] == Some(a[|a| - 1])
    decreases |a|
  {
    hide Tail, Skip;
    AdvancePeels(mode, a);
    AdvancePeels(mode, a + b);
    if |a| == 1 {
      OpenerHides(a, b);
    } else {
      var (next, step, peeled) := Advance(mode, a);
      AdvanceLooksNoFurther(mode, a, b);
      CutOpenerShows(next, a[step..], b);
      MaskAt(peeled, Tail(next, a[step..]), |a| - 1);
      MaskAt(peeled, Tail(next, a[step..] + b), |a| - 1);
    }
  }

  /** A character that neither opens trivia nor completes a two-character opener or terminator. */
  predicate IsPlain(c: char) {
    c != '/' && c != '*' && !IsQuote(c)
  }

  lemma PlainStart(c: char, b: string)
    requires IsPlain(c)
    ensures Tail(Code, [c] + b) == [Some(c)] + Blank(b)
    ensures Tail(Code, []) == []
  {
    CodeTail([c] + b);
    CodeTail([]);
    assert ([c] + b)[1..] == b;
  }

  /** A plain character after code separates two texts. */
  lemma BlankAroundPlain(mode: Mode, a: string, c: char, b: string)
    requires GoodMode(mode) && IsPlain(c) && EndMode(mode, a) == Code
    ensures Tail(mode, a + [c] + b) == Tail(mode, a) + ([Some(c)] + Blank(b))
  {
    hide Tail, LastAlone, EndMode;
    assert a + [c] + b == a + ([c] + b);
    BlankConcat(mode, a, [c] + b);
    PlainStart(c, b);
  }

  /** An advance over several characters, or over a first one, shows no later character. */
  lemma HiddenShows(mode: Mode, s: string)
    requires s != []
    ensures var peeled := Advance(mode, s).2; forall k :: 0 < k < |peeled| ==> peeled[k] == None
  {
    hide Skip;
  }

  lemma StepEndsBefore(mode: Mode, s: string, k: nat)
    requires GoodMode(mode) && 0 < k < |s| && Tail(mode, s)[k].Some?
    ensures var (next, step, _) := Advance(mode, s); step <= k && Tail(next, s[step..])[k - step].Some?
  {
    hide Tail, Skip;
    AdvancePeels(mode, s);
    var (next, step, peeled) := Advance(mode, s);
    MaskAt(peeled, Tail(next, s[step..]), k);
    HiddenShows(mode, s);
  }

  lemma TakeThenDrop(s: string, k: nat, step: nat)
    requires step <= k <= |s|
    ensures s[..k][step..] == s[step..][..k - step]
  {
  }

  lemma AdvanceOnPrefix(mode: Mode, s: string, k: nat)
    requires s != [] && Advance(mode, s).1 <= k <= |s|
    ensures Advance(mode, s[..k]) == Advance(mode, s)
    ensures var step := Advance(mode, s).1; s[..k][step..] == s[step..][..k - step]
  {
    assert s[..k][0] == s[0] && (k >= 2 ==> s[..k][1] == s[1]);
    TakeThenDrop(s, k, Advance(mode, s).1);
  }

  lemma CutMasks(x: Mask, y: Mask, k: nat)
    requires |x| <= k <= |x| + |y|
    ensures (x + y)[..k] == x + y[..k - |x|] && (x + y)[k..] == y[k - |x|..]
  {
  }

  /** A code character cuts a text into two that can be read on their own. */
  lemma {:induction false} CutAtCode(mode: Mode, s: string, k: nat)
    requires GoodMode(mode) && k < |s| && Tail(mode, s)[k].Some?
    ensures EndMode(mode, s[..k]) == Code
    ensures Tail(mode, s[..k]) == Tail(mode, s)[..k]
    ensures Tail(mode, s)[k..] == Blank(s[k..])
    decreases |s|
  {
    hide Tail, Blank, Skip;
    AdvancePeels(mode, s);
    var (next, step, peeled) := Advance(mode, s);
    if k == 0 {
      MaskAt(peeled, Tail(next, s[step..]), 0);
      CodeTail(s);
      CodeTail([]);
      assert s[..0] == [] && s[0..] == s;
    } else {
      StepEndsBefore(mode, s, k);
      AdvanceOnPrefix(mode, s, k);
      CutAtCode(next, s[step..], k - step);
      AdvancePeels(mode, s[..k]);
      CutMasks(peeled, Tail(next, s[step..]), k);
      assert s[step..][k - step..] == s[k..];
    }
  }

  /** `CutAtCode` for a whole text, with the character at the cut taken out. */
  lemma CutAround(text: string, k: nat)
    requires k < |text| && Blank(text)[k].Some?
    ensures EndMode(Code, text[..k]) == Code && Blank(text[..k]) == Blank(text)[..k]
    ensures Blank(text)[k] == Some(text[k])
    ensures Blank(text[k..]) == Blank(text)[k..] && Blank(text[k + 1..]) == Blank(text)[k + 1..]
  {
    CodeTail(text);
    CodeTail(text[..k]);
    CutAtCode(Code, text, k);
    assert Blank(text)[k] == Blank(text[k..])[0];
    assert text[k..][1..] == text[k + 1..];
    assert Blank(text)[k + 1..] == Blank(text)[k..][1..];
  }
}
