/** What the search for class declarations takes for a keyword and for a class that implements something,
    said in the characters around it. */
module ClassLaws {
  import opened Options
  import opened Trivia
  import opened TopLevel
  import opened ScanLaws
  import opened ClassScan
  import opened ClassDeclarations

  /** A character of a name: a letter or a digit of ASCII, an underscore or a dollar sign. */
  ghost predicate InName(c: char) {
    || 'a' <= c <= 'z'
    || 'A' <= c <= 'Z'
    || '0' <= c <= '9'
    || c == '_' || c == '$'
  }

  /** The text is `before`, the word and `after`, and no character of a name touches the word. */
  ghost predicate Apart(text: string, before: string, word: string, after: string) {
    && text == before + word + after
    && (before != "" ==> !InName(before[|before| - 1]))
    && (after != "" ==> !InName(after[0]))
  }

  /** `word` stands at `k` of the text, shown from its first character on, with no character of a name on
      either side. */
  ghost predicate WholeWord(text: string, word: string, k: nat) {
    && k < |text| && Blank(text)[k].Some?
    && exists before: string, after: string :: |before| == k && Apart(text, before, word, after)
  }

  lemma NamesAreIdentifiers()
    ensures forall c: char :: InName(c) <==> IsIdentifierPart(c)
  {
  }

  lemma Parts(text: string, word: string, k: nat)
    requires k + |word| <= |text| && text[k..k + |word|] == word
    ensures text == text[..k] + word + text[k + |word|..]
  {
  }

  lemma MatchIsWord(text: string, word: string, k: nat)
    requires k < |text| && Blank(text)[k].Some? && MatchesKeyword(text, word, k)
    ensures WholeWord(text, word, k)
  {
    hide Blank, InName, IsIdentifierPart;
    NamesAreIdentifiers();
    Parts(text, word, k);
    var before, after := text[..k], text[k + |word|..];
    assert before != "" ==> before[|before| - 1] == text[k - 1];
    assert after != "" ==> after[0] == text[k + |word|];
    assert Apart(text, before, word, after);
  }

  lemma Around(text: string, before: string, word: string, after: string)
    requires text == before + word + after
    ensures |before| + |word| <= |text| && text[|before|..|before| + |word|] == word
    ensures before != "" ==> text[|before| - 1] == before[|before| - 1]
    ensures |before| + |word| < |text| <==> after != ""
    ensures after != "" ==> text[|before| + |word|] == after[0]
  {
  }

  lemma WordIsMatch(text: string, word: string, k: nat)
    requires WholeWord(text, word, k)
    ensures k < |text| && Blank(text)[k].Some? && MatchesKeyword(text, word, k)
  {
    hide Blank, InName, IsIdentifierPart;
    NamesAreIdentifiers();
    var before: string, after: string :| |before| == k && Apart(text, before, word, after);
    Around(text, before, word, after);
  }

  lemma HitExactly(text: string, word: string, k: nat)
    ensures KeywordHit(Blank(text), text, word)(k) <==> WholeWord(text, word, k)
  {
    hide Blank, MatchesKeyword, WholeWord;
    if KeywordHit(Blank(text), text, word)(k) {
      MatchIsWord(text, word, k);
    }
    if WholeWord(text, word, k) {
      WordIsMatch(text, word, k);
    }
  }

  lemma WordsAreInside(text: string, word: string)
    ensures forall k: nat :: WholeWord(text, word, k) ==> k < |text|
  {
  }

  /** The keyword found is the first whole word outside strings and comments, and -1 says there is none. */
  lemma FoundExactly(text: string, word: string, found: int)
    ensures found == ToIndex(Least(KeywordHit(Blank(text), text, word), 0, |text|))
            <==> if found == -1 then forall k: nat :: !WholeWord(text, word, k)
                 else found >= 0 && WholeWord(text, word, found)
                      && forall k: nat :: k < found ==> !WholeWord(text, word, k)
  {
    hide Blank, KeywordHit, WholeWord;
    var hit := KeywordHit(Blank(text), text, word);
    LeastIsFirst(hit, 0, |text|);
    forall k: nat
      ensures hit(k) <==> WholeWord(text, word, k)
    {
      HitExactly(text, word, k);
    }
    WordsAreInside(text, word);
  }

  /** The declarations looked at are those behind every whole word `class`, in order. */
  lemma ClassesExactly(text: string)
    ensures forall k: nat :: k in ClassKeywords(text) <==> WholeWord(text, "class", k)
    ensures forall i, j :: 0 <= i < j < |ClassKeywords(text)| ==> ClassKeywords(text)[i] < ClassKeywords(text)[j]
  {
    hide Blank, KeywordHit, WholeWord, All;
    AllIsComplete(KeywordHit(Blank(text), text, CLASS), 0, |text|);
    WordsAreInside(text, "class");
    forall k: nat
      ensures KeywordHit(Blank(text), text, CLASS)(k) <==> WholeWord(text, "class", k)
    {
      HitExactly(text, "class", k);
    }
  }

  /** The body opens at `body`, at the first brace at top level; or there is none. */
  ghost predicate BodyOpens(rest: string, body: nat) {
    var mask := Blank(rest);
    && body <= |rest|
    && (body < |rest| ==> mask[body] == Some('{') && AtTopLevel(mask, body))
    && forall k :: 0 <= k < body ==> !(mask[k] == Some('{') && AtTopLevel(mask, k))
  }

  lemma HeaderExactly(rest: string, body: nat)
    requires BodyOpens(rest, body)
    ensures Header(rest) == rest[..body]
  {
    hide Blank, AtTopLevel, TopLevelBrace;
    var hit := TopLevelBrace(Blank(rest));
    LeastIsFirst(hit, 0, |rest|);
    forall k: nat | k < |rest|
      ensures hit(k) <==> Blank(rest)[k] == Some('{') && AtTopLevel(Blank(rest), k)
    {
      NeedlesExactly(Blank(rest), [], k);
    }
    assert rest[..|rest|] == rest;
  }

  /** A class implements something exactly when the whole word `implements` stands before its body. */
  lemma ImplementsExactly(rest: string, body: nat)
    requires BodyOpens(rest, body)
    ensures HasImplements(rest) <==> exists k: nat :: WholeWord(rest[..body], "implements", k)
  {
    hide Blank, KeywordHit, WholeWord, BodyOpens, Header;
    HeaderExactly(rest, body);
    var header := Header(rest);
    LeastIsFirst(KeywordHit(Blank(header), header, IMPLEMENTS), 0, |header|);
    WordsAreInside(header, "implements");
    forall k: nat
      ensures KeywordHit(Blank(header), header, IMPLEMENTS)(k) <==> WholeWord(header, "implements", k)
    {
      HitExactly(header, "implements", k);
    }
  }

  /** Every class has such a point. */
  lemma BodyExists(rest: string)
    ensures exists body :: BodyOpens(rest, body)
  {
    hide Blank, AtTopLevel, TopLevelBrace;
    var hit := TopLevelBrace(Blank(rest));
    LeastIsFirst(hit, 0, |rest|);
    forall k: nat | k < |rest|
      ensures hit(k) <==> Blank(rest)[k] == Some('{') && AtTopLevel(Blank(rest), k)
    {
      NeedlesExactly(Blank(rest), [], k);
    }
    match Least(hit, 0, |rest|)
    case Some(k) => assert BodyOpens(rest, k);
    case None => assert BodyOpens(rest, |rest|);
  }

  // ---- the whole result ----

  /** The class behind the keyword at `k` is called `name`. */
  ghost predicate Declares(text: string, capture: string -> Option<string>, k: nat, name: string) {
    WholeWord(text, "class", k) && k + 5 <= |text| && capture(text[k + 5..]) == Some(name)
  }

  /** The text behind a class keyword implements something before its body. */
  ghost predicate Implements(rest: string) {
    exists body: nat, k: nat :: BodyOpens(rest, body) && WholeWord(rest[..body], "implements", k)
  }

  lemma BodiesAreInside(rest: string)
    ensures forall body: nat :: BodyOpens(rest, body) ==> body <= |rest|
  {
  }

  lemma ImplementsIs(rest: string)
    ensures HasImplements(rest) <==> Implements(rest)
  {
    hide BodyOpens, WholeWord, HasImplements;
    BodyExists(rest);
    BodiesAreInside(rest);
    var body :| BodyOpens(rest, body);
    ImplementsExactly(rest, body);
    if body': nat, k: nat :| BodyOpens(rest, body') && WholeWord(rest[..body'], "implements", k) {
      ImplementsExactly(rest, body');
    }
  }

  lemma {:induction false} RangesAre(text: string, capture: string -> Option<string>, keywords: seq<nat>, name: string,
                                     range: (nat, nat))
    ensures range in Implementing(text, capture, keywords, name)
            <==> range.1 == |text| && range.0 in keywords && capture(AfterKeyword(text, range.0)) == Some(name)
                 && HasImplements(AfterKeyword(text, range.0))
    decreases |keywords|
  {
    hide HasImplements, AfterKeyword;
    if keywords != [] {
      var last := |keywords| - 1;
      RangesAre(text, capture, keywords[..last], name, range);
      assert keywords == keywords[..last] + [keywords[last]];
    }
  }

  lemma {:induction false} RangesIncrease(text: string, capture: string -> Option<string>, keywords: seq<nat>,
                                          name: string)
    requires forall i, j :: 0 <= i < j < |keywords| ==> keywords[i] < keywords[j]
    ensures var ranges := Implementing(text, capture, keywords, name);
            forall i, j :: 0 <= i < j < |ranges| ==> ranges[i].0 < ranges[j].0
    decreases |keywords|
  {
    hide HasImplements, AfterKeyword;
    if keywords != [] {
      var last := |keywords| - 1;
      RangesIncrease(text, capture, keywords[..last], name);
      var before := Implementing(text, capture, keywords[..last], name);
      forall i | 0 <= i < |before|
        ensures before[i].0 < keywords[last]
      {
        RangesAre(text, capture, keywords[..last], name, before[i]);
        assert before[i] in before;
        var k :| 0 <= k < last && keywords[..last][k] == before[i].0;
        assert keywords[k] == before[i].0;
      }
    }
  }

  ghost predicate Captured(text: string, capture: string -> Option<string>, k: nat, name: string) {
    capture(AfterKeyword(text, k)) == Some(name)
  }

  lemma CountStep(text: string, capture: string -> Option<string>, keywords: seq<nat>, name: string)
    requires keywords != []
    ensures var last := |keywords| - 1;
            Declarations(text, capture, keywords, name)
            == Declarations(text, capture, keywords[..last], name)
               + if Captured(text, capture, keywords[last], name) then 1 else 0
  {
    hide AfterKeyword;
  }

  lemma {:induction false} CountsOne(text: string, capture: string -> Option<string>, keywords: seq<nat>, name: string)
    ensures Declarations(text, capture, keywords, name) >= 1
            <==> exists i :: 0 <= i < |keywords| && Captured(text, capture, keywords[i], name)
    decreases |keywords|
  {
    hide Captured;
    if keywords != [] {
      CountStep(text, capture, keywords, name);
      CountsOne(text, capture, keywords[..|keywords| - 1], name);
      assert keywords == keywords[..|keywords| - 1] + [keywords[|keywords| - 1]];
    }
  }

  lemma {:induction false} CountIs(text: string, capture: string -> Option<string>, keywords: seq<nat>, name: string)
    ensures Declarations(text, capture, keywords, name) >= 2
            <==> exists i, j :: 0 <= i < j < |keywords| && Captured(text, capture, keywords[i], name)
                   && Captured(text, capture, keywords[j], name)
    decreases |keywords|
  {
    hide Captured;
    if keywords != [] {
      var last := |keywords| - 1;
      var rest := keywords[..last];
      CountStep(text, capture, keywords, name);
      CountsOne(text, capture, rest, name);
      CountIs(text, capture, rest, name);
      hide Declarations;
      assert forall i :: 0 <= i < last ==> rest[i] == keywords[i];
      if i, j :| 0 <= i < j < |keywords| && Captured(text, capture, keywords[i], name)
                 && Captured(text, capture, keywords[j], name) {
        assert Captured(text, capture, rest[i], name);
        assert j < last ==> Captured(text, capture, rest[j], name);
      }
    }
  }

  lemma WordFits(text: string, word: string, k: nat)
    ensures WholeWord(text, word, k) ==> k + |word| <= |text|
  {
  }

  lemma DeclaresIs(text: string, capture: string -> Option<string>, k: nat, name: string)
    ensures Declares(text, capture, k, name)
            <==> k in ClassKeywords(text) && Captured(text, capture, k, name)
    ensures k in ClassKeywords(text) ==> k + 5 <= |text| && AfterKeyword(text, k) == text[k + 5..]
  {
    hide WholeWord, ClassKeywords;
    ClassesExactly(text);
    WordFits(text, "class", k);
  }

  lemma TwoDeclare(text: string, capture: string -> Option<string>, name: string, j: nat, k: nat)
    requires j < k && Declares(text, capture, j, name) && Declares(text, capture, k, name)
    ensures Declarations(text, capture, ClassKeywords(text), name) >= 2
  {
    hide ClassKeywords, Declarations, Declares, Captured, WholeWord;
    var keywords := ClassKeywords(text);
    ClassesExactly(text);
    DeclaresIs(text, capture, j, name);
    DeclaresIs(text, capture, k, name);
    var x :| 0 <= x < |keywords| && keywords[x] == j;
    var y :| 0 <= y < |keywords| && keywords[y] == k;
    assert x < y && Captured(text, capture, keywords[x], name) && Captured(text, capture, keywords[y], name);
    CountIs(text, capture, keywords, name);
  }

  lemma DeclaringTwo(text: string, capture: string -> Option<string>, name: string) returns (j: nat, k: nat)
    requires Declarations(text, capture, ClassKeywords(text), name) >= 2
    ensures j < k && Declares(text, capture, j, name) && Declares(text, capture, k, name)
  {
    hide ClassKeywords, Declarations, Declares, Captured, WholeWord;
    var keywords := ClassKeywords(text);
    ClassesExactly(text);
    CountIs(text, capture, keywords, name);
    var x, y :| 0 <= x < y < |keywords| && Captured(text, capture, keywords[x], name)
                && Captured(text, capture, keywords[y], name);
    j, k := keywords[x], keywords[y];
    DeclaresIs(text, capture, j, name);
    DeclaresIs(text, capture, k, name);
  }

  /** What is collected under a name: one range for every class of that name that implements something,
      from its keyword to the end of the text, in order; and a name is ambiguous when two classes have it. */
  lemma CollectedExactly(text: string, capture: string -> Option<string>, name: string)
    ensures var ranges := Implementing(text, capture, ClassKeywords(text), name);
            && (forall k: nat, end: nat :: (k, end) in ranges
                  <==> end == |text| && Declares(text, capture, k, name) && Implements(text[k + 5..]))
            && (forall i, j :: 0 <= i < j < |ranges| ==> ranges[i].0 < ranges[j].0)
    ensures Declarations(text, capture, ClassKeywords(text), name) >= 2
            <==> exists j: nat, k: nat :: j < k && Declares(text, capture, j, name) && Declares(text, capture, k, name)
  {
    hide ClassKeywords, HasImplements, AfterKeyword, Implementing, Declarations, Implements, WholeWord;
    var keywords := ClassKeywords(text);
    ClassesExactly(text);
    RangesIncrease(text, capture, keywords, name);
    forall k: nat, end: nat
      ensures (k, end) in Implementing(text, capture, keywords, name)
              <==> end == |text| && Declares(text, capture, k, name) && Implements(text[k + 5..])
    {
      RangesAre(text, capture, keywords, name, (k, end));
      DeclaresIs(text, capture, k, name);
      ImplementsIs(AfterKeyword(text, k));
    }
    if Declarations(text, capture, keywords, name) >= 2 {
      var j, k := DeclaringTwo(text, capture, name);
    }
    if j: nat, k: nat :| j < k && Declares(text, capture, j, name) && Declares(text, capture, k, name) {
      TwoDeclare(text, capture, name, j, k);
    }
  }
}
