/** The `PatternMatcher` of ast_utils.ts: all matches of a global pattern but the escaped ones, and
    replacement of what they match. */
module PatternMatcher {
  import opened Options

  /** A match: where it starts, what it matched, and its captures, some of which took no part. */
  datatype Match = Match(index: nat, text: string, captures: seq<Option<string>>)

  function End(match_: Match): nat {
    match_.index + |match_.text|
  }

  /** A regular expression with the `g` flag: `exec(str, lastIndex)`. */
  datatype Pattern = Pattern(exec: (string, nat) -> Option<Match>)

  predicate MatchesAt(match_: Match, str: string, from: nat) {
    from <= match_.index && match_.text != "" && End(match_) <= |str| && str[match_.index..End(match_)] == match_.text
  }

  /** Matches are not empty, and lie in the string at or after `lastIndex`. */
  ghost predicate Global(pattern: Pattern) {
    forall str, from: nat :: pattern.exec(str, from).Some? ==> MatchesAt(pattern.exec(str, from).value, str, from)
  }

  // ---- escaped matches ----

  /** How many backslashes stand right before `index`. */
  function Backslashes(str: string, index: nat): nat
    requires index <= |str|
  {
    if index > 0 && str[index - 1] == '\\' then 1 + Backslashes(str, index - 1) else 0
  }

  /** It is the length of the run of backslashes that ends right before `index`. */
  lemma {:induction false} BackslashesAre(str: string, index: nat)
    requires index <= |str|
    ensures var n := Backslashes(str, index);
            && n <= index && (forall k :: index - n <= k < index ==> str[k] == '\\')
            && (n < index ==> str[index - n - 1] != '\\')
  {
    if index > 0 && str[index - 1] == '\\' {
      BackslashesAre(str, index - 1);
    }
  }

  method IsEscaped(str: string, index: nat) returns (escaped: bool)
    requires index <= |str|
    ensures escaped <==> Backslashes(str, index) % 2 == 1
  {
    escaped := false;
    var cursor: nat := index;
    while cursor > 0 && str[cursor - 1] == '\\'
      invariant cursor <= index
      invariant escaped == ((Backslashes(str, index) - Backslashes(str, cursor)) % 2 == 1)
      invariant Backslashes(str, cursor) <= Backslashes(str, index)
    {
      escaped := !escaped;
      cursor := cursor - 1;
    }
  }

  // ---- all matches ----

  /** Every match of the pattern, each search starting where the last match ended. */
  function Raw(pattern: Pattern, str: string, from: nat): seq<Match>
    requires Global(pattern) && from <= |str|
    decreases |str| - from
  {
    match pattern.exec(str, from)
    case None => []
    case Some(found) => [found] + Raw(pattern, str, End(found))
  }

  /** A search from the end of match `i` finds match `i + 1`, or nothing behind the last. */
  ghost predicate NoneBetween(pattern: Pattern, str: string, matches: seq<Match>, i: nat)
    requires i < |matches|
  {
    pattern.exec(str, End(matches[i])) == if i + 1 < |matches| then Some(matches[i + 1]) else None
  }

  /** No match is passed over. */
  lemma {:induction false} RawIsComplete(pattern: Pattern, str: string, from: nat)
    requires Global(pattern) && from <= |str|
    ensures var raw := Raw(pattern, str, from);
            && pattern.exec(str, from) == (if raw == [] then None else Some(raw[0]))
            && forall i :: 0 <= i < |raw| ==> NoneBetween(pattern, str, raw, i)
    decreases |str| - from
  {
    var next := pattern.exec(str, from);
    if next.Some? {
      RawIsComplete(pattern, str, End(next.value));
      var raw, rest := Raw(pattern, str, from), Raw(pattern, str, End(next.value));
      assert raw == [next.value] + rest;
      forall i | 0 <= i < |raw|
        ensures NoneBetween(pattern, str, raw, i)
      {
        if i > 0 {
          assert NoneBetween(pattern, str, rest, i - 1);
        }
      }
    }
  }

  predicate Kept(escaped: bool, str: string, match_: Match) {
    match_.index <= |str| && (escaped || Backslashes(str, match_.index) % 2 == 0)
  }

  function Unescaped(escaped: bool, str: string, matches: seq<Match>): seq<Match> {
    if matches == [] then []
    else (if Kept(escaped, str, matches[0]) then [matches[0]] else []) + Unescaped(escaped, str, matches[1..])
  }

  /** In order, apart from each other, not empty and inside the string. */
  ghost predicate Disjoint(matches: seq<Match>, str: string, from: nat) {
    && (forall i :: 0 <= i < |matches| ==> MatchesAt(matches[i], str, from))
    && (forall i, j :: 0 <= i < j < |matches| ==> End(matches[i]) <= matches[j].index)
  }

  lemma {:induction false} RawIsDisjoint(pattern: Pattern, str: string, from: nat)
    requires Global(pattern) && from <= |str|
    ensures Disjoint(Raw(pattern, str, from), str, from)
    decreases |str| - from
  {
    var next := pattern.exec(str, from);
    if next.Some? {
      RawIsDisjoint(pattern, str, End(next.value));
    }
  }

  /** Matches taken from the rest come after the first. */
  lemma KeptBefore(matches: seq<Match>, kept: seq<Match>, str: string, from: nat)
    requires matches != [] && Disjoint(matches, str, from) && Disjoint(kept, str, from)
    requires forall m :: m in kept ==> m in matches[1..]
    ensures Disjoint([matches[0]] + kept, str, from)
  {
    forall k | 0 <= k < |kept|
      ensures End(matches[0]) <= kept[k].index
    {
      assert kept[k] in kept;
      var i :| 0 <= i < |matches[1..]| && matches[1..][i] == kept[k];
      assert matches[i + 1] == kept[k];
    }
  }

  /** Dropping escaped matches keeps the rest in order: what remains is exactly the matches with an even
      number of backslashes before them, or all of them for a matcher that takes escaped ones. */
  lemma {:induction false} UnescapedAre(escaped: bool, str: string, from: nat, matches: seq<Match>)
    requires Disjoint(matches, str, from)
    ensures var kept := Unescaped(escaped, str, matches);
            && Disjoint(kept, str, from)
            && forall m :: m in kept <==> m in matches && (escaped || Backslashes(str, m.index) % 2 == 0)
  {
    if matches != [] {
      var rest := matches[1..];
      UnescapedAre(escaped, str, from, rest);
      KeptBefore(matches, Unescaped(escaped, str, rest), str, from);
      assert matches == [matches[0]] + rest;
    }
  }

  // ---- replacement ----

  lemma DisjointRest(matches: seq<Match>, str: string, from: nat)
    requires matches != [] && Disjoint(matches, str, from)
    ensures End(matches[0]) <= |str| && Disjoint(matches[1..], str, End(matches[0]))
  {
  }

  /** The string with every match replaced by its text, from `from` on. */
  function Assemble(str: string, from: nat, matches: seq<Match>, texts: seq<string>): string
    requires |texts| == |matches| && from <= |str| && Disjoint(matches, str, from)
    decreases |matches|
  {
    if matches == [] then str[from..]
    else
      DisjointRest(matches, str, from);
      str[from..matches[0].index] + texts[0] + Assemble(str, End(matches[0]), matches[1..], texts[1..])
  }

  function Texts(matches: seq<Match>): (texts: seq<string>)
    ensures |texts| == |matches| && forall i :: 0 <= i < |matches| ==> texts[i] == matches[i].text
  {
    seq(|matches|, i requires 0 <= i < |matches| => matches[i].text)
  }

  /** Replacing every match by itself changes nothing. */
  lemma {:induction false} IdentityReplacement(str: string, from: nat, matches: seq<Match>)
    requires from <= |str| && Disjoint(matches, str, from)
    ensures Assemble(str, from, matches, Texts(matches)) == str[from..]
    decreases |matches|
  {
    if matches != [] {
      DisjointRest(matches, str, from);
      var first := matches[0];
      assert Texts(matches)[1..] == Texts(matches[1..]);
      IdentityReplacement(str, End(first), matches[1..]);
      assert str[from..] == str[from..first.index] + str[first.index..End(first)] + str[End(first)..];
    }
  }

  /** How much longer the result is up to position `at`. */
  function Shift(matches: seq<Match>, texts: seq<string>, at: nat): int
    requires |texts| == |matches|
  {
    if matches == [] then 0
    else (if End(matches[0]) <= at then |texts[0]| - |matches[0].text| else 0) + Shift(matches[1..], texts[1..], at)
  }

  predicate Unmatched(matches: seq<Match>, at: nat) {
    forall i :: 0 <= i < |matches| ==> !(matches[i].index <= at < End(matches[i]))
  }

  lemma {:induction false} NoShiftBefore(matches: seq<Match>, texts: seq<string>, str: string, from: nat, at: nat)
    requires |texts| == |matches| && Disjoint(matches, str, from) && (matches == [] || at < End(matches[0]))
    ensures Shift(matches, texts, at) == 0
  {
    if matches != [] {
      DisjointRest(matches, str, from);
      NoShiftBefore(matches[1..], texts[1..], str, End(matches[0]), at);
    }
  }

  lemma InTail(prefix: string, tail: string, k: nat)
    requires k < |tail|
    ensures (prefix + tail)[|prefix| + k] == tail[k]
  {
  }

  lemma FirstPiece(str: string, from: nat, matches: seq<Match>, texts: seq<string>, at: nat)
    requires |texts| == |matches| && matches != [] && from <= at < |str| && Disjoint(matches, str, from)
             && Unmatched(matches, at)
    ensures End(matches[0]) <= |str| && Disjoint(matches[1..], str, End(matches[0])) && from <= matches[0].index
    ensures Assemble(str, from, matches, texts)
            == str[from..matches[0].index] + texts[0] + Assemble(str, End(matches[0]), matches[1..], texts[1..])
    ensures at < matches[0].index ==>
              at < End(matches[0]) && at - from < |Assemble(str, from, matches, texts)|
              && Assemble(str, from, matches, texts)[at - from] == str[at]
    ensures at >= matches[0].index ==>
              End(matches[0]) <= at && Unmatched(matches[1..], at)
              && Shift(matches, texts, at) == |texts[0]| - |matches[0].text| + Shift(matches[1..], texts[1..], at)
  {
    DisjointRest(matches, str, from);
  }

  /** Every unmatched character is kept, and in order: it moves by the shift of the matches before it. */
  lemma {:induction false} UnmatchedStays(str: string, from: nat, matches: seq<Match>, texts: seq<string>, at: nat)
    requires |texts| == |matches| && from <= at < |str| && Disjoint(matches, str, from) && Unmatched(matches, at)
    ensures var result := Assemble(str, from, matches, texts);
            0 <= at - from + Shift(matches, texts, at) < |result|
            && result[at - from + Shift(matches, texts, at)] == str[at]
    decreases |matches|
  {
    if matches != [] {
      hide Disjoint, Assemble, Shift, Unmatched;
      DisjointRest(matches, str, from);
      FirstPiece(str, from, matches, texts, at);
      var first := matches[0];
      if at < first.index {
        NoShiftBefore(matches, texts, str, from, at);
      } else {
        UnmatchedStays(str, End(first), matches[1..], texts[1..], at);
        InTail(str[from..first.index] + texts[0], Assemble(str, End(first), matches[1..], texts[1..]),
               at - End(first) + Shift(matches[1..], texts[1..], at));
      }
    }
  }

  lemma ReplacedPiece(str: string, from: nat, matches: seq<Match>, texts: seq<string>, i: nat)
    requires |texts| == |matches| && from <= |str| && Disjoint(matches, str, from) && i < |matches|
    ensures End(matches[0]) <= |str| && Disjoint(matches[1..], str, End(matches[0]))
            && from <= matches[0].index < End(matches[0])
    ensures var result := Assemble(str, from, matches, texts);
            && result
               == str[from..matches[0].index] + texts[0] + Assemble(str, End(matches[0]), matches[1..], texts[1..])
            && matches[0].index - from + |texts[0]| <= |result|
            && result[matches[0].index - from..matches[0].index - from + |texts[0]|] == texts[0]
    ensures i > 0 ==> Shift(matches, texts, matches[i].index)
                      == |texts[0]| - |matches[0].text| + Shift(matches[1..], texts[1..], matches[i].index)
  {
    DisjointRest(matches, str, from);
  }

  lemma SliceOfTail(prefix: string, tail: string, start: nat, length: nat)
    requires start + length <= |tail|
    ensures (prefix + tail)[|prefix| + start..|prefix| + start + length] == tail[start..start + length]
  {
  }

  /** Where a match stood its replacement stands. */
  lemma {:induction false} MatchIsReplaced(str: string, from: nat, matches: seq<Match>, texts: seq<string>, i: nat)
    requires |texts| == |matches| && from <= |str| && Disjoint(matches, str, from) && i < |matches|
    ensures var result := Assemble(str, from, matches, texts);
            var start := matches[i].index - from + Shift(matches, texts, matches[i].index);
            0 <= start <= start + |texts[i]| <= |result| && result[start..start + |texts[i]|] == texts[i]
    decreases |matches|
  {
    hide Disjoint, Assemble, Shift;
    var first := matches[0];
    ReplacedPiece(str, from, matches, texts, i);
    var prefix, tail := str[from..first.index] + texts[0], Assemble(str, End(first), matches[1..], texts[1..]);
    if i == 0 {
      NoShiftBefore(matches, texts, str, from, first.index);
    } else {
      MatchIsReplaced(str, End(first), matches[1..], texts[1..], i - 1);
      var inner := matches[i].index - End(first) + Shift(matches[1..], texts[1..], matches[i].index);
      SliceOfTail(prefix, tail, inner, |texts[i]|);
    }
  }

  // ---- replacement templates ----

  predicate IsDigit(c: char) {
    '0' <= c <= '9'
  }

  function DigitValue(c: char): nat
    requires IsDigit(c)
  {
    c as int - '0' as int
  }

  /** The length of the placeholder that begins `template`, zero if none does. */
  function PlaceholderLength(template: string): (n: nat)
    ensures n <= |template| && n <= 3
  {
    if |template| < 2 || template[0] != '$' then 0
    else if template[1] in {'$', '&', '`', '\''} then 2
    else if IsDigit(template[1]) && template[1] != '0' then if |template| > 2 && IsDigit(template[2]) then 3 else 2
    else 0
  }

  /** `replacementForPlaceholder`: a capture that is missing or took no part leaves the placeholder. */
  function ReplacementForPlaceholder(key: string, str: string, match_: Match): string
    requires 2 <= |key| == PlaceholderLength(key) && End(match_) <= |str|
  {
    if key[1] == '$' then "$"
    else if key[1] == '&' then match_.text
    else if key[1] == '`' then str[..match_.index]
    else if key[1] == '\'' then str[End(match_)..]
    else
      var index := if |key| == 2 then DigitValue(key[1]) else 10 * DigitValue(key[1]) + DigitValue(key[2]);
      if index <= |match_.captures| && match_.captures[index - 1].Some? then match_.captures[index - 1].value else key
  }

  lemma PlaceholderPrefix(template: string)
    ensures var n := PlaceholderLength(template); n > 0 ==> n >= 2 && PlaceholderLength(template[..n]) == n
  {
  }

  /** The template with its placeholders filled in. */
  function Expand(template: string, str: string, match_: Match): string
    requires End(match_) <= |str|
    decreases |template|
  {
    if template == "" then ""
    else
      var n := PlaceholderLength(template);
      PlaceholderPrefix(template);
      if n == 0 then [template[0]] + Expand(template[1..], str, match_)
      else ReplacementForPlaceholder(template[..n], str, match_) + Expand(template[n..], str, match_)
  }

  /** A template without a dollar sign stands for itself. */
  lemma {:induction false} ExpandPlain(template: string, str: string, match_: Match)
    requires End(match_) <= |str| && '$' !in template
    ensures Expand(template, str, match_) == template
    decreases |template|
  {
    if template != "" {
      assert template[0] in template && template == [template[0]] + template[1..];
      ExpandPlain(template[1..], str, match_);
    }
  }

  lemma ExpandWhole(str: string, match_: Match)
    requires End(match_) <= |str|
    ensures Expand("$&", str, match_) == match_.text
  {
    assert "$&"[..2] == "$&" && "$&"[2..] == "";
  }

  // ---- the matcher ----

  /** The replacer that expands a template. */
  function Template(template: string, str: string): Match -> string {
    (m: Match) => if End(m) <= |str| then Expand(template, str, m) else ""
  }

  function Applied(matches: seq<Match>, replacer: Match -> string): (texts: seq<string>)
    ensures |texts| == |matches| && forall i :: 0 <= i < |matches| ==> texts[i] == replacer(matches[i])
  {
    seq(|matches|, i requires 0 <= i < |matches| => replacer(matches[i]))
  }

  /** `chunks.join("")`. */
  function Join(chunks: seq<string>): string {
    if chunks == [] then "" else Join(chunks[..|chunks| - 1]) + chunks[|chunks| - 1]
  }

  lemma JoinPush(chunks: seq<string>, chunk: string)
    ensures Join(chunks + [chunk]) == Join(chunks) + chunk
  {
    assert (chunks + [chunk])[..|chunks|] == chunks;
  }

  lemma NoChunks(text: string)
    ensures Join([]) + text == text
  {
  }

  lemma LastChunk(str: string, index: nat, matches: seq<Match>, replacer: Match -> string)
    requires matches == [] && index <= |str| && Disjoint(matches, str, index)
    ensures Assemble(str, index, matches, Applied(matches, replacer)) == str[index..]
  {
  }

  lemma Regroup(matches: seq<Match>, found: Match, rest: seq<Match>)
    ensures matches + ([found] + rest) == (matches + [found]) + rest && matches + ([] + rest) == matches + rest
  {
  }

  lemma ReplaceStep(str: string, index: nat, matches: seq<Match>, replacer: Match -> string, chunks: seq<string>)
    requires matches != [] && index <= |str| && Disjoint(matches, str, index)
    ensures End(matches[0]) <= |str| && Disjoint(matches[1..], str, End(matches[0])) && index <= matches[0].index
    ensures Join(chunks) + Assemble(str, index, matches, Applied(matches, replacer))
            == Join(chunks + [str[index..matches[0].index]] + [replacer(matches[0])])
               + Assemble(str, End(matches[0]), matches[1..], Applied(matches[1..], replacer))
  {
    DisjointRest(matches, str, index);
    var before, text := str[index..matches[0].index], replacer(matches[0]);
    JoinPush(chunks, before);
    JoinPush(chunks + [before], text);
    assert Applied(matches, replacer)[1..] == Applied(matches[1..], replacer);
  }

  lemma FoundIsGlobal(pattern: Pattern, str: string, from: nat)
    requires Global(pattern)
    ensures pattern.exec(str, from).Some? ==> MatchesAt(pattern.exec(str, from).value, str, from)
  {
  }

  lemma RawStep(pattern: Pattern, escaped: bool, str: string, from: nat)
    requires Global(pattern) && from <= |str| && pattern.exec(str, from).Some?
    ensures var found := pattern.exec(str, from).value;
            && MatchesAt(found, str, from)
            && Unescaped(escaped, str, Raw(pattern, str, from))
               == (if Kept(escaped, str, found) then [found] else [])
               + Unescaped(escaped, str, Raw(pattern, str, End(found)))
  {
    var found := pattern.exec(str, from).value;
    assert Raw(pattern, str, from)[1..] == Raw(pattern, str, End(found));
  }

  lemma RawEnds(pattern: Pattern, escaped: bool, str: string, from: nat)
    requires Global(pattern) && from <= |str| && pattern.exec(str, from).None?
    ensures Unescaped(escaped, str, Raw(pattern, str, from)) == []
  {
  }

  class Matcher {
    const pattern: Pattern
    const escaped: bool
    /** The position the regular expression object keeps between its searches. */
    var lastIndex: nat

    constructor (pattern: Pattern, escaped: bool)
      ensures this.pattern == pattern && this.escaped == escaped
    {
      this.pattern, this.escaped, lastIndex := pattern, escaped, 0;
    }

    /** `pattern.exec(str)`, with the position it leaves behind. */
    method Exec(str: string) returns (found: Option<Match>)
      modifies this`lastIndex
      ensures found == pattern.exec(str, old(lastIndex))
      ensures lastIndex == if found.Some? then End(found.value) else 0
    {
      found := pattern.exec(str, lastIndex);
      lastIndex := if found.Some? then End(found.value) else 0;
    }

    /** `execAll`, as a whole: `disturbed[k]` is where whoever consumes match `k` leaves the shared
        position, by using the same matcher for something else.  It makes no difference. */
    method ExecAll(str: string, disturbed: seq<nat>) returns (matches: seq<Match>)
      requires Global(pattern)
      modifies this`lastIndex
      ensures matches == Unescaped(escaped, str, Raw(pattern, str, 0)) && Disjoint(matches, str, 0)
    {
      hide Global, Raw, Unescaped, Backslashes, Disjoint;
      matches := [];
      lastIndex := 0;
      ghost var from: nat := 0;
      FoundIsGlobal(pattern, str, 0);
      var next := Exec(str);
      while next.Some?
        invariant from <= |str| && next == pattern.exec(str, from)
        invariant next.Some? ==> lastIndex == End(next.value) && MatchesAt(next.value, str, from)
        invariant matches + Unescaped(escaped, str, Raw(pattern, str, from))
                  == Unescaped(escaped, str, Raw(pattern, str, 0))
        decreases |str| - from
      {
        var found := next.value;
        var isEscaped := IsEscaped(str, found.index);
        RawStep(pattern, escaped, str, from);
        Regroup(matches, found, Unescaped(escaped, str, Raw(pattern, str, End(found))));
        if escaped || !isEscaped {
          var restored := lastIndex;
          if |matches| < |disturbed| {
            lastIndex := disturbed[|matches|];
          }
          matches := matches + [found];
          lastIndex := restored;
        }
        from := lastIndex;
        FoundIsGlobal(pattern, str, from);
        next := Exec(str);
      }
      RawIsDisjoint(pattern, str, 0);
      UnescapedAre(escaped, str, 0, Raw(pattern, str, 0));
      RawEnds(pattern, escaped, str, from);
    }

    /** `replacePatternWithString` and `replacePatternWithFunction`; the replacer gives each match its text. */
    method Replace(str: string, replacer: Match -> string) returns (result: string)
      requires Global(pattern)
      modifies this`lastIndex
      ensures Disjoint(Unescaped(escaped, str, Raw(pattern, str, 0)), str, 0)
      ensures var matches := Unescaped(escaped, str, Raw(pattern, str, 0));
              result == Assemble(str, 0, matches, Applied(matches, replacer))
      ensures (forall m: Match :: replacer(m) == m.text) ==> result == str
    {
      hide Global, Raw, Unescaped, Assemble, Join, Applied, Disjoint;
      var matches := ExecAll(str, []);
      var chunks: seq<string> := [];
      var index: nat := 0;
      NoChunks(Assemble(str, 0, matches, Applied(matches, replacer)));
      assert matches[0..] == matches;
      for i := 0 to |matches|
        invariant index <= |str| && Disjoint(matches[i..], str, index)
        invariant Join(chunks) + Assemble(str, index, matches[i..], Applied(matches[i..], replacer))
                  == Assemble(str, 0, matches, Applied(matches, replacer))
      {
        DisjointRest(matches[i..], str, index);
        ReplaceStep(str, index, matches[i..], replacer, chunks);
        assert matches[i..][1..] == matches[i + 1..];
        chunks := chunks + [str[index..matches[i].index]];
        chunks := chunks + [replacer(matches[i])];
        index := End(matches[i]);
      }
      JoinPush(chunks, str[index..]);
      LastChunk(str, index, matches[|matches|..], replacer);
      chunks := chunks + [str[index..]];
      result := Join(chunks);
      if forall m: Match :: replacer(m) == m.text {
        assert Applied(matches, replacer) == Texts(matches);
        IdentityReplacement(str, 0, matches);
        assert str[0..] == str;
      }
    }

    /** A template as replacer; `"$&"` changes nothing. */
    method ReplaceWithString(str: string, template: string) returns (result: string)
      requires Global(pattern)
      modifies this`lastIndex
      ensures Disjoint(Unescaped(escaped, str, Raw(pattern, str, 0)), str, 0)
      ensures var matches := Unescaped(escaped, str, Raw(pattern, str, 0));
              result == Assemble(str, 0, matches, Applied(matches, Template(template, str)))
      ensures template == "$&" ==> result == str
    {
      hide Global, Assemble, Expand;
      result := Replace(str, Template(template, str));
      ghost var matches := Unescaped(escaped, str, Raw(pattern, str, 0));
      if template == "$&" {
        forall i | 0 <= i < |matches|
          ensures Template(template, str)(matches[i]) == matches[i].text
        {
          ExpandWhole(str, matches[i]);
        }
        assert Applied(matches, Template(template, str)) == Texts(matches);
        IdentityReplacement(str, 0, matches);
      }
    }
  }
}
