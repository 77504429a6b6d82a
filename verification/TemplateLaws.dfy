/** What every placeholder of a replacement template stands for (the table of section 22.1.3.19.1 of
    ECMA-262, without named groups), and that nothing else in a template is touched. */
module TemplateLaws {
  import opened Options
  import opened PatternMatcher

  lemma ExpandKey(key: string, rest: string, str: string, match_: Match)
    requires End(match_) <= |str| && |key| >= 2
    requires PlaceholderLength(key + rest) == |key| == PlaceholderLength(key)
    ensures Expand(key + rest, str, match_)
            == ReplacementForPlaceholder(key, str, match_) + Expand(rest, str, match_)
  {
    hide PlaceholderLength, ReplacementForPlaceholder;
    assert (key + rest)[..|key|] == key && (key + rest)[|key|..] == rest;
  }

  /** `$$` is a dollar sign, `$&` the match, and the two quotes what stands before and behind it. */
  lemma MarksExpand(rest: string, str: string, match_: Match)
    requires End(match_) <= |str|
    ensures Expand("$$" + rest, str, match_) == "$" + Expand(rest, str, match_)
    ensures Expand("$&" + rest, str, match_) == match_.text + Expand(rest, str, match_)
    ensures Expand("$`" + rest, str, match_) == str[..match_.index] + Expand(rest, str, match_)
    ensures Expand("$'" + rest, str, match_) == str[match_.index + |match_.text|..] + Expand(rest, str, match_)
  {
    hide Expand;
    ExpandKey("$$", rest, str, match_);
    ExpandKey("$&", rest, str, match_);
    ExpandKey("$`", rest, str, match_);
    ExpandKey("$'", rest, str, match_);
  }

  /** The text of capture `n`, counted from one, if there is one and it took part. */
  function Capture(match_: Match, n: nat): Option<string> {
    if 1 <= n <= |match_.captures| then match_.captures[n - 1] else None
  }

  /** One digit, not followed by another: that capture, or the placeholder itself. */
  lemma DigitExpands(n: nat, rest: string, str: string, match_: Match)
    requires End(match_) <= |str| && 1 <= n <= 9 && (rest == "" || !('0' <= rest[0] <= '9'))
    ensures var key := ['$', '0' + n as char];
            Expand(key + rest, str, match_)
            == (if Capture(match_, n).Some? then Capture(match_, n).value else key) + Expand(rest, str, match_)
  {
    hide Expand;
    var key := ['$', '0' + n as char];
    var template := key + rest;
    assert template[0] == '$' && template[1] == key[1] && (|template| > 2 ==> template[2] == rest[0]);
    assert DigitValue(key[1]) == n;
    ExpandKey(key, rest, str, match_);
  }

  /** Two digits, whatever follows: that capture, or the placeholder itself, even where there is a
      capture with the first digit alone. */
  lemma DigitsExpand(n: nat, m: nat, rest: string, str: string, match_: Match)
    requires End(match_) <= |str| && 1 <= n <= 9 && m <= 9
    ensures var key := ['$', '0' + n as char, '0' + m as char];
            Expand(key + rest, str, match_)
            == (if Capture(match_, 10 * n + m).Some? then Capture(match_, 10 * n + m).value else key)
               + Expand(rest, str, match_)
  {
    hide Expand;
    var key := ['$', '0' + n as char, '0' + m as char];
    var template := key + rest;
    assert template[0] == '$' && template[1] == key[1] && template[2] == key[2];
    assert DigitValue(key[1]) == n && DigitValue(key[2]) == m;
    ExpandKey(key, rest, str, match_);
  }

  /** A dollar sign that begins no placeholder, and every other character, stands for itself. */
  lemma OthersStay(c: char, rest: string, str: string, match_: Match)
    requires End(match_) <= |str|
    requires c == '$' ==> rest == "" || (rest[0] != '$' && rest[0] != '&' && rest[0] != '`' && rest[0] != '\''
                                         && !('1' <= rest[0] <= '9'))
    ensures Expand([c] + rest, str, match_) == [c] + Expand(rest, str, match_)
    ensures Expand("", str, match_) == ""
  {
    var template := [c] + rest;
    assert template[0] == c && template[1..] == rest && (|template| > 1 ==> template[1] == rest[0]);
    assert PlaceholderLength(template) == 0;
  }
}
