/** The TypeScript twin of the scanner (`createScanner`) and the search for classes with an
    `implements` clause in checker.ts.  Indices are string indices. */
module ClassScan {
  import opened Options
  import opened Trivia
  import opened TopLevel

  class Scanner {
    var quote: Option<char>
    var escaped: bool
    var inLineComment: bool
    var inBlockComment: bool

    ghost predicate Valid()
      reads this
    {
      && !(inLineComment && inBlockComment)
      && (quote.Some? ==> !inLineComment && !inBlockComment && IsQuote(quote.value))
      && (escaped ==> quote.Some?)
    }

    ghost function Mode(): Mode
      reads this
    {
      if inLineComment then Line
      else if inBlockComment then Block
      else if quote.Some? then Quoted(quote.value, escaped)
      else Code
    }

    /** The scanner is about to read character `index` of `text` and agrees with `mask` from there on. */
    ghost predicate At(mask: Mask, text: string, index: nat)
      reads this
    {
      Valid() && index <= |text| == |mask| && Tracks(mask, Mode(), text, index)
    }

    /** A fresh scanner, about to be used from character `base` on. */
    constructor (ghost text: string, ghost base: nat)
      requires base <= |text|
      ensures At(MaskFrom(text, base), text, base)
      ensures base == 0 ==> MaskFrom(text, base) == Blank(text)
    {
      quote, escaped, inLineComment, inBlockComment := None, false, false, false;
      TracksAtStart(text, base);
    }

    /** `skip`: passes over (part of) a string or comment, or stays on a code character. */
    method Skip(ghost mask: Mask, text: string, index: nat) returns (next: nat)
      requires At(mask, text, index) && index < |text|
      modifies this
      ensures index <= next <= |text| == |mask|
      ensures next > index ==> At(mask, text, next) && HiddenRun(mask, index, next)
      ensures next == index ==> mask[index] == Some(text[index]) && At(mask, text, index + 1)
    {
      hide Blank, Tail, Trivia.Skip, Tracks;
      TracksStep(mask, Mode(), text, index);
      next := Lex(text, index);
    }

    /** The branches of `skip`, against the mode-by-mode function. */
    method Lex(text: string, index: nat) returns (next: nat)
      requires Valid() && index < |text|
      modifies this
      ensures Valid()
      ensures var (mode, n) := Trivia.Skip(old(Mode()), text[index..]); Mode() == mode && next == index + n
    {
      ghost var s := text[index..];
      var ch := text[index];
      var following := if index + 1 < |text| then Some(text[index + 1]) else None;
      assert ch == s[0] && (following.Some? ==> |s| >= 2 && following.value == s[1]) && (|s| >= 2 ==> following.Some?);
      if inLineComment {
        if ch == '\n' || ch == '\r' {
          inLineComment := false;
        }
        return index + 1;
      }
      if inBlockComment {
        if ch == '*' && following == Some('/') {
          inBlockComment := false;
          return index + 2;
        }
        return index + 1;
      }
      if quote.Some? {
        if escaped {
          escaped := false;
        } else if ch == '\\' {
          escaped := true;
        } else if ch == quote.value {
          quote := None;
        }
        return index + 1;
      }
      if ch == '/' && following == Some('/') {
        inLineComment := true;
        return index + 2;
      }
      if ch == '/' && following == Some('*') {
        inBlockComment := true;
        return index + 2;
      }
      if ch == '"' || ch == '\'' || ch == '`' {
        quote := Some(ch);
        return index + 1;
      }
      return index;
    }
  }

  // ---- keywords ----

  predicate IsIdentifierStart(c: char) {
    'A' <= c <= 'Z' || 'a' <= c <= 'z' || c == '_' || c == '$'
  }

  predicate IsIdentifierPart(c: char) {
    IsIdentifierStart(c) || '0' <= c <= '9'
  }

  predicate MatchesKeyword(text: string, keyword: string, index: nat) {
    && index + |keyword| <= |text| && text[index..index + |keyword|] == keyword
    && (index > 0 ==> !IsIdentifierPart(text[index - 1]))
    && (index + |keyword| < |text| ==> !IsIdentifierPart(text[index + |keyword|]))
  }

  function KeywordHit(mask: Mask, text: string, keyword: string): nat -> bool {
    (k: nat) => k < |mask| && mask[k].Some? && MatchesKeyword(text, keyword, k)
  }

  /** An index, with -1 for "not found". */
  function ToIndex(found: Option<nat>): int {
    match found
    case Some(k) => k
    case None => -1
  }

  lemma KeywordHidden(mask: Mask, text: string, keyword: string, k: nat, later: nat)
    requires HiddenRun(mask, k, later)
    ensures Least(KeywordHit(mask, text, keyword), k, |mask|) == Least(KeywordHit(mask, text, keyword), later, |mask|)
  {
    NothingHit(KeywordHit(mask, text, keyword), k, later, |mask|);
  }

  lemma KeywordHere(mask: Mask, text: string, keyword: string, k: nat)
    requires k < |mask| && mask[k].Some?
    ensures var hit := KeywordHit(mask, text, keyword);
            Least(hit, k, |mask|) == if MatchesKeyword(text, keyword, k) then Some(k) else Least(hit, k + 1, |mask|)
  {
  }

  lemma NoMore(hit: nat -> bool, n: nat)
    ensures Least(hit, n, n) == None
  {
  }

  method FindKeywordOutsideTrivia(text: string, keyword: string) returns (found: int)
    ensures found == ToIndex(Least(KeywordHit(Blank(text), text, keyword), 0, |text|))
  {
    hide Blank, MaskFrom, Least, KeywordHit, MatchesKeyword, Scanner.At, HiddenRun;
    var scanner := new Scanner(text, 0);
    ghost var mask := Blank(text);
    ghost var hit := KeywordHit(mask, text, keyword);
    var index: nat := 0;
    while index < |text|
      invariant index <= |text| && scanner.At(mask, text, index)
      invariant Least(hit, 0, |text|) == Least(hit, index, |text|)
    {
      var nextIndex := scanner.Skip(mask, text, index);
      if nextIndex > index {
        KeywordHidden(mask, text, keyword, index, nextIndex);
        index := nextIndex;
        continue;
      }
      KeywordHere(mask, text, keyword, index);
      if MatchesKeyword(text, keyword, index) {
        return index;
      }
      index := index + 1;
    }
    NoMore(hit, |text|);
    found := -1;
  }

  // ---- the class body ----

  lemma BraceHidden(mask: Mask, k: nat, later: nat)
    requires HiddenRun(mask, k, later)
    ensures DepthsAt(mask, later) == DepthsAt(mask, k)
    ensures Least(TopLevelBrace(mask), k, |mask|) == Least(TopLevelBrace(mask), later, |mask|)
  {
    NothingHit(TopLevelBrace(mask), k, later, |mask|);
    NothingMoves(mask, k, later);
  }

  lemma BraceHere(mask: Mask, k: nat)
    requires k < |mask| && mask[k].Some?
    ensures Least(TopLevelBrace(mask), k, |mask|)
            == if mask[k].value == '{' && DepthsAt(mask, k) == Flat then Some(k)
               else Least(TopLevelBrace(mask), k + 1, |mask|)
    ensures DepthsAt(mask, k + 1) == Bump(DepthsAt(mask, k), mask[k].value)
  {
  }

  lemma FlatBefore(text: string, base: nat)
    requires base <= |text|
    ensures DepthsAt(MaskFrom(text, base), base) == Flat
  {
    assert HiddenRun(MaskFrom(text, base), 0, base);
    NothingMoves(MaskFrom(text, base), 0, base);
  }

  /** The first `{` outside trivia that no bracket opened since `start` encloses. */
  method FindClassBodyOpen(text: string, start: nat) returns (found: int)
    ensures found == if start <= |text| then ToIndex(Least(TopLevelBrace(MaskFrom(text, start)), start, |text|)) else -1
  {
    hide Blank, MaskFrom, Least, TopLevelBrace, DepthsAt, Bump, Scanner.At, HiddenRun;
    if start > |text| {
      return -1;
    }
    var scanner := new Scanner(text, start);
    ghost var mask := MaskFrom(text, start);
    ghost var hit := TopLevelBrace(mask);
    var depths := Flat;
    var index: nat := start;
    FlatBefore(text, start);
    while index < |text|
      invariant index <= |text| && scanner.At(mask, text, index)
      invariant depths == DepthsAt(mask, index)
      invariant Least(hit, start, |text|) == Least(hit, index, |text|)
    {
      var nextIndex := scanner.Skip(mask, text, index);
      if nextIndex > index {
        BraceHidden(mask, index, nextIndex);
        index := nextIndex;
        continue;
      }
      BraceHere(mask, index);
      var ch := text[index];
      if ch == '{' && depths == Flat {
        return index;
      }
      depths := Bump(depths, ch);
      index := index + 1;
    }
    NoMore(hit, |text|);
    found := -1;
  }

  // ---- splitting ----

  lemma FlatAtStart(mask: Mask)
    ensures DepthsAt(mask, 0) == Flat
  {
  }

  method SplitTopLevelRanges(text: string, delimiter: char) returns (ranges: seq<Range>)
    ensures ranges == Split(Blank(text), delimiter)
  {
    hide Blank, MaskFrom, DepthsAt, Scanner.At, HiddenRun, Bump, IsBracket, Cut, SplitFrom;
    ranges := [];
    var scanner := new Scanner(text, 0);
    ghost var mask := Blank(text);
    var start: nat, index: nat := 0, 0;
    var depths := Flat;
    FlatAtStart(mask);
    RangesAssoc([], [], SplitFrom(mask, delimiter, 0, 0));
    while index < |text|
      invariant start <= index <= |text| && scanner.At(mask, text, index)
      invariant depths == DepthsAt(mask, index)
      invariant Split(mask, delimiter) == ranges + SplitFrom(mask, delimiter, start, index)
    {
      var nextIndex := scanner.Skip(mask, text, index);
      if nextIndex > index {
        NothingMoves(mask, index, nextIndex);
        NothingCut(mask, delimiter, start, index, nextIndex);
        index := nextIndex;
        continue;
      }
      BraceHere(mask, index);
      CutHere(mask, delimiter, start, index);
      var ch := text[index];
      if !IsBracket(ch) && ch == delimiter && depths == Flat {
        RangesAssoc(ranges, [(start, index)], SplitFrom(mask, delimiter, index + 1, index + 1));
        ranges := ranges + [(start, index)];
        start := index + 1;
      }
      depths := Bump(depths, ch);
      index := index + 1;
    }
    SplitDone(mask, delimiter, start);
    ranges := ranges + [(start, |text|)];
  }
}
