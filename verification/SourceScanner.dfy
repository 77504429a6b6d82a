/** `SourceScanner` of api_client.rs and the scans built on it.  Indices are byte offsets into a
    UTF-8 text; the ghost character index beside each of them is what the contracts speak of. */
module SourceScanner {
  import opened Options
  import opened Trivia
  import opened TopLevel
  import opened Utf

  class Scanner {
    var quote: Option<char>
    var escaped: bool
    var inLineComment: bool
    var inBlockComment: bool

    /** At most one of the three kinds of token is open. */
    ghost predicate Valid()
      reads this
    {
      && !(inLineComment && inBlockComment)
      && (quote.Some? ==> !inLineComment && !inBlockComment && IsQuote(quote.value))
      && (escaped ==> quote.Some?)
    }

    ghost function Mode(): Mode
      reads this
    {
      if inLineComment then Line
      else if inBlockComment then Block
      else if quote.Some? then Quoted(quote.value, escaped)
      else Code
    }

    /** The scanner is about to read character `k` of `text` and agrees with `mask` from there on. */
    ghost predicate At(mask: Mask, text: string, index: nat, k: nat)
      reads this
    {
      Valid() && k <= |text| == |mask| && index == ByteOf(text, k) && Tracks(mask, Mode(), text, k)
    }

    /** A fresh scanner, about to be used from character `base` on. */
    constructor (ghost text: string, ghost base: nat)
      requires base <= |text|
      ensures At(MaskFrom(text, base), text, ByteOf(text, base), base)
      ensures base == 0 ==> ByteOf(text, base) == 0 && MaskFrom(text, base) == Blank(text)
    {
      quote, escaped, inLineComment, inBlockComment := None, false, false, false;
      TracksAtStart(text, base);
    }

    /** `skip`: passes over (part of) a string or comment, or stays on a code character. */
    method Skip(ghost mask: Mask, text: string, index: nat, ghost k: nat) returns (next: nat, ghost later: nat)
      requires At(mask, text, index, k) && index < Length(Utf8, text)
      modifies this
      ensures k < |text| == |mask| && next >= index && (next > index <==> later > k)
      ensures next > index ==> later <= |text| && next == ByteOf(text, later) && At(mask, text, next, later)
                               && HiddenRun(mask, k, later)
      ensures next == index ==> later == k && CharAt(text, index) == Some(text[k]) && mask[k] == Some(text[k])
                                && index + Width(Utf8, text[k]) == ByteOf(text, k + 1)
                                && At(mask, text, index + Width(Utf8, text[k]), k + 1)
    {
      hide Blank, Tail, Trivia.Skip, Tracks, CharAt, Offset, IndexFrom;
      CharAtBoundary(text, k);
      TracksStep(mask, Mode(), text, k);
      later := k + Trivia.Skip(Mode(), text[k..]).1;
      next := Lex(text, index, k);
    }

    /** The branches of `skip`, against the mode-by-mode function. */
    method Lex(text: string, index: nat, ghost k: nat) returns (next: nat)
      requires Valid() && k < |text| && index == ByteOf(text, k)
      modifies this
      ensures Valid()
      ensures var (mode, n) := Trivia.Skip(old(Mode()), text[k..]);
              Mode() == mode && next == ByteOf(text, k + n) && (next > index <==> n > 0) && next >= index
    {
      CharAtBoundary(text, k);
      CharAtBoundary(text, k + 1);
      ghost var s := text[k..];
      var current := CharAt(text, index);
      var ch := current.value;
      var following := CharAt(text, index + Width(Utf8, ch));
      assert ch == s[0] && (following.Some? ==> |s| >= 2 && following.value == s[1]) && (|s| >= 2 ==> following.Some?);
      if inLineComment {
        if ch == '\n' || ch == '\r' {
          inLineComment := false;
        }
        return index + Width(Utf8, ch);
      }
      if inBlockComment {
        if ch == '*' && following == Some('/') {
          inBlockComment := false;
          return index + 2;
        }
        return index + Width(Utf8, ch);
      }
      if quote.Some? {
        if escaped {
          escaped := false;
        } else if ch == '\\' {
          escaped := true;
        } else if ch == quote.value {
          quote := None;
        }
        return index + Width(Utf8, ch);
      }
      if ch == '/' && following == Some('/') {
        inLineComment := true;
        return index + 2;
      }
      if ch == '/' && following == Some('*') {
        inBlockComment := true;
        return index + 2;
      }
      if ch == '"' || ch == '\'' || ch == '`' {
        quote := Some(ch);
        return index + Width(Utf8, ch);
      }
      return index;
    }
  }
}
