/** `collectImplementingClassDeclarations` of checker.ts: a scan that restarts on a fresh slice after
    every `class` keyword, against one uninterrupted scan. */
module ClassDeclarations {
  import opened Options
  import opened Trivia
  import opened TopLevel
  import opened ClassScan

  const CLASS := "class"
  const IMPLEMENTS := "implements"

  /** All positions from `k` on with a property, in order. */
  function All(hit: nat -> bool, k: nat, n: nat): seq<nat>
    decreases n - k
  {
    if k >= n then [] else (if hit(k) then [k] else []) + All(hit, k + 1, n)
  }

  lemma {:induction false} AllIsComplete(hit: nat -> bool, k: nat, n: nat)
    ensures forall p: nat :: p in All(hit, k, n) <==> k <= p < n && hit(p)
    ensures forall i, j :: 0 <= i < j < |All(hit, k, n)| ==> All(hit, k, n)[i] < All(hit, k, n)[j]
    decreases n - k
  {
    if k < n {
      AllIsComplete(hit, k + 1, n);
      var rest := All(hit, k + 1, n);
      assert forall i :: 0 <= i < |rest| ==> rest[i] in rest;
    }
  }

  /** The `class` keywords one scan of the whole text finds outside strings and comments. */
  function ClassKeywords(text: string): seq<nat> {
    All(KeywordHit(Blank(text), text, CLASS), 0, |text|)
  }

  /** What follows the keyword at `k`. */
  function AfterKeyword(text: string, k: nat): string {
    if k + |CLASS| <= |text| then text[k + |CLASS|..] else []
  }

  /** The class header: up to the body's opening brace, or to the end of the text. */
  function Header(rest: string): string {
    match Least(TopLevelBrace(Blank(rest)), 0, |rest|)
    case Some(body) => if body <= |rest| then rest[..body] else rest
    case None => rest
  }

  predicate HasImplements(rest: string) {
    var header := Header(rest);
    Least(KeywordHit(Blank(header), header, IMPLEMENTS), 0, |header|).Some?
  }

  /** `capture` stands for the regular expression that reads the declared name. */
  function Declarations(text: string, capture: string -> Option<string>, keywords: seq<nat>, name: string): nat {
    if keywords == [] then 0
    else
      var last := keywords[|keywords| - 1];
      Declarations(text, capture, keywords[..|keywords| - 1], name)
      + if capture(AfterKeyword(text, last)) == Some(name) then 1 else 0
  }

  /** The ranges, in source order, of the classes called `name` whose header implements something. */
  function Implementing(text: string, capture: string -> Option<string>, keywords: seq<nat>,
                        name: string): seq<(nat, nat)> {
    if keywords == [] then []
    else
      var last := keywords[|keywords| - 1];
      var rest := AfterKeyword(text, last);
      Implementing(text, capture, keywords[..|keywords| - 1], name)
      + if capture(rest) == Some(name) && HasImplements(rest) then [(last, |text|)] else []
  }

  // ---- restarting ----

  predicate Letters(s: string) {
    forall i :: 0 <= i < |s| ==> s[i] != '/' && !IsQuote(s[i])
  }

  lemma {:induction false} CodeRun(text: string, k: nat, n: nat)
    requires k + n <= |text| && Tracks(Blank(text), Code, text, k) && Letters(text[k..k + n])
    ensures Tracks(Blank(text), Code, text, k + n)
    ensures forall j :: k <= j < k + n ==> Blank(text)[j] == Some(text[j])
    decreases n
  {
    hide Blank, Tail;
    if n > 0 {
      var run := text[k..k + n];
      assert run[0] == text[k] && run[1..] == text[k + 1..k + n];
      assert Trivia.Skip(Code, text[k..]).1 == 0;
      TracksStep(Blank(text), Code, text, k);
      CodeRun(text, k + 1, n - 1);
    }
  }

  lemma ClassIsLetters()
    ensures Letters(CLASS)
  {
  }

  lemma TracksAtKeyword(text: string, k: nat)
    requires k < |text| && Blank(text)[k].Some?
    ensures Tracks(Blank(text), Code, text, k)
  {
    hide Blank, Tail;
    CutAround(text, k);
    CodeTail(text[k..]);
  }

  lemma RestartTail(text: string, k: nat)
    requires Tracks(Blank(text), Code, text, k)
    ensures Blank(text[k..]) == Blank(text)[k..]
  {
    hide Blank, Tail;
    CodeTail(text[k..]);
  }

  /** Behind a keyword the scanner is in code, so a fresh one agrees with the uninterrupted scan. */
  lemma CodeAfterKeyword(text: string, k: nat)
    requires k < |text| && Blank(text)[k].Some? && MatchesKeyword(text, CLASS, k)
    ensures Blank(text[k + |CLASS|..]) == Blank(text)[k + |CLASS|..]
  {
    hide Blank, Tracks;
    TracksAtKeyword(text, k);
    ClassIsLetters();
    CodeRun(text, k, |CLASS|);
    RestartTail(text, k + |CLASS|);
  }

  /** The point a slice is taken at: in code, and not in the middle of an identifier. */
  ghost predicate FreshStart(text: string, offset: nat) {
    offset <= |text| && Blank(text[offset..]) == Blank(text)[offset..]
    && (0 < offset < |text| ==> !IsIdentifierPart(text[offset]))
  }

  lemma MatchInSlice(text: string, offset: nat, k: nat)
    requires FreshStart(text, offset) && k < |text| - offset
    ensures MatchesKeyword(text[offset..], CLASS, k) <==> MatchesKeyword(text, CLASS, offset + k)
  {
    hide Blank;
    var slice := text[offset..];
    if k + |CLASS| <= |slice| {
      assert slice[k..k + |CLASS|] == text[offset + k..offset + k + |CLASS|];
      assert slice[k..k + |CLASS|][0] == slice[k] && CLASS[0] == 'c';
    }
  }

  lemma HitIs(mask: Mask, text: string, k: nat)
    requires k < |mask|
    ensures KeywordHit(mask, text, CLASS)(k) <==> mask[k].Some? && MatchesKeyword(text, CLASS, k)
  {
    hide MatchesKeyword;
  }

  lemma MaskInSlice(text: string, offset: nat, k: nat)
    requires FreshStart(text, offset) && k < |text| - offset
    ensures Blank(text[offset..])[k] == Blank(text)[offset + k]
  {
    hide Blank;
    assert Blank(text)[offset..][k] == Blank(text)[offset + k];
  }

  lemma HitInSlice(text: string, offset: nat, k: nat)
    requires FreshStart(text, offset) && k < |text| - offset
    ensures KeywordHit(Blank(text[offset..]), text[offset..], CLASS)(k)
            <==> KeywordHit(Blank(text), text, CLASS)(offset + k)
  {
    hide Blank, MatchesKeyword, FreshStart, KeywordHit;
    MatchInSlice(text, offset, k);
    MaskInSlice(text, offset, k);
    HitIs(Blank(text[offset..]), text[offset..], k);
    HitIs(Blank(text), text, offset + k);
  }

  /** Searching a shifted copy: its first hit is the next one of the original. */
  lemma {:induction false} NextShifted(inner: nat -> bool, hit: nat -> bool, offset: nat, k: nat, n: nat)
    requires k <= n && forall j :: k <= j < n ==> (inner(j) <==> hit(offset + j))
    ensures match Least(inner, k, n)
            case Some(found) =>
              k <= found < n && hit(offset + found)
              && All(hit, offset + k, offset + n) == [offset + found] + All(hit, offset + found + 1, offset + n)
            case None => All(hit, offset + k, offset + n) == []
    decreases n - k
  {
    if k < n && !inner(k) {
      NextShifted(inner, hit, offset, k + 1, n);
      assert [] + All(hit, offset + k + 1, offset + n) == All(hit, offset + k + 1, offset + n);
    }
  }

  lemma StartIsInside(text: string, offset: nat)
    requires FreshStart(text, offset)
    ensures offset <= |text|
  {
  }

  lemma HitsInSlice(text: string, offset: nat)
    requires FreshStart(text, offset) && offset <= |text|
    ensures forall j :: 0 <= j < |text| - offset ==>
              (KeywordHit(Blank(text[offset..]), text[offset..], CLASS)(j)
               <==> KeywordHit(Blank(text), text, CLASS)(offset + j))
  {
    hide Blank, KeywordHit, FreshStart;
    forall j | 0 <= j < |text| - offset
      ensures KeywordHit(Blank(text[offset..]), text[offset..], CLASS)(j)
              <==> KeywordHit(Blank(text), text, CLASS)(offset + j)
    {
      HitInSlice(text, offset, j);
    }
  }

  /** The first keyword of the slice is the next keyword of the text. */
  lemma NextInSlice(text: string, offset: nat)
    requires FreshStart(text, offset)
    ensures var slice := text[offset..];
            var hit := KeywordHit(Blank(text), text, CLASS);
            match Least(KeywordHit(Blank(slice), slice, CLASS), 0, |slice|)
            case Some(found) =>
              found < |slice| && hit(offset + found)
              && All(hit, offset, |text|) == [offset + found] + All(hit, offset + found + 1, |text|)
            case None => All(hit, offset, |text|) == []
  {
    hide Blank, KeywordHit, Least, All, FreshStart;
    StartIsInside(text, offset);
    var slice := text[offset..];
    HitsInSlice(text, offset);
    NextShifted(KeywordHit(Blank(slice), slice, CLASS), KeywordHit(Blank(text), text, CLASS), offset, 0, |slice|);
  }

  lemma NoHitInside(text: string, k: nat, later: nat)
    requires MatchesKeyword(text, CLASS, k) && k < later < k + |CLASS|
    ensures !MatchesKeyword(text, CLASS, later)
  {
    assert text[k..k + |CLASS|][later - k] == text[later];
    if later + |CLASS| <= |text| {
      assert text[later..later + |CLASS|][0] == text[later];
    }
  }

  lemma {:induction false} NoneBetween(hit: nat -> bool, k: nat, later: nat, n: nat)
    requires k <= later && forall j :: k <= j < later ==> !hit(j)
    ensures All(hit, k, n) == All(hit, later, n)
    decreases later - k
  {
    if k < later {
      NoneBetween(hit, k + 1, later, n);
    }
  }

  /** After a keyword the search goes on behind it: nothing is missed in between. */
  lemma StepPastKeyword(text: string, k: nat)
    requires KeywordHit(Blank(text), text, CLASS)(k)
    ensures var hit := KeywordHit(Blank(text), text, CLASS);
            All(hit, k + 1, |text|) == All(hit, k + |CLASS|, |text|)
    ensures FreshStart(text, k + |CLASS|)
  {
    hide Blank;
    var hit := KeywordHit(Blank(text), text, CLASS);
    forall j | k + 1 <= j < k + |CLASS|
      ensures !hit(j)
    {
      NoHitInside(text, k, j);
    }
    NoneBetween(hit, k + 1, k + |CLASS|, |text|);
    CodeAfterKeyword(text, k);
  }

  /** The whole result, name by name. */
  ghost predicate Collected(text: string, capture: string -> Option<string>, keywords: seq<nat>,
                            byName: map<string, seq<(nat, nat)>>, declared: set<string>, ambiguous: set<string>) {
    forall name ::
      (name in byName <==> Implementing(text, capture, keywords, name) != [])
      && (name in byName ==> byName[name] == Implementing(text, capture, keywords, name))
      && (name in declared <==> Declarations(text, capture, keywords, name) >= 1)
      && (name in ambiguous <==> Declarations(text, capture, keywords, name) >= 2)
  }

  lemma Appended(text: string, capture: string -> Option<string>, keywords: seq<nat>, k: nat, name: string)
    ensures var rest := AfterKeyword(text, k);
            Declarations(text, capture, keywords + [k], name)
            == Declarations(text, capture, keywords, name) + (if capture(rest) == Some(name) then 1 else 0)
            && Implementing(text, capture, keywords + [k], name)
               == Implementing(text, capture, keywords, name)
                  + (if capture(rest) == Some(name) && HasImplements(rest) then [(k, |text|)] else [])
  {
    hide HasImplements;
    assert (keywords + [k])[..|keywords|] == keywords;
  }

  lemma MaskFromStart(text: string)
    ensures MaskFrom(text, 0) == Blank(text)
  {
    TracksAtStart(text, 0);
  }

  lemma HeaderIs(rest: string, bodyOpen: int)
    requires bodyOpen == ToIndex(Least(TopLevelBrace(Blank(rest)), 0, |rest|))
    ensures bodyOpen <= |rest| && Header(rest) == rest[..if bodyOpen >= 0 then bodyOpen else |rest|]
  {
    hide Blank, TopLevelBrace;
    LeastIsFirst(TopLevelBrace(Blank(rest)), 0, |rest|);
    assert rest[..|rest|] == rest;
  }

  method HeaderImplements(rest: string) returns (implements: bool)
    ensures implements == HasImplements(rest)
  {
    hide Blank, Least, TopLevelBrace, KeywordHit;
    var bodyOpen := FindClassBodyOpen(rest, 0);
    MaskFromStart(rest);
    HeaderIs(rest, bodyOpen);
    var header := rest[..if bodyOpen >= 0 then bodyOpen else |rest|];
    var found := FindKeywordOutsideTrivia(header, IMPLEMENTS);
    implements := found >= 0;
  }

  /** The results after one more class keyword. */
  lemma Recorded(text: string, capture: string -> Option<string>, keywords: seq<nat>, k: nat,
                 byName: map<string, seq<(nat, nat)>>, declared: set<string>, ambiguous: set<string>,
                 byName': map<string, seq<(nat, nat)>>, declared': set<string>, ambiguous': set<string>)
    requires k + |CLASS| <= |text| && Collected(text, capture, keywords, byName, declared, ambiguous)
    requires var rest := text[k + |CLASS|..];
             match capture(rest)
             case None => byName' == byName && declared' == declared && ambiguous' == ambiguous
             case Some(name) =>
               && declared' == declared + {name}
               && ambiguous' == (if name in declared then ambiguous + {name} else ambiguous)
               && byName' == if HasImplements(rest)
                             then byName[name := if name in byName then byName[name] + [(k, |text|)] else [(k, |text|)]]
                             else byName
    ensures Collected(text, capture, keywords + [k], byName', declared', ambiguous')
  {
    hide HasImplements, Declarations, Implementing;
    forall name
      ensures Declarations(text, capture, keywords + [k], name)
              == Declarations(text, capture, keywords, name)
                 + (if capture(text[k + |CLASS|..]) == Some(name) then 1 else 0)
      ensures Implementing(text, capture, keywords + [k], name)
              == Implementing(text, capture, keywords, name)
                 + (if capture(text[k + |CLASS|..]) == Some(name) && HasImplements(text[k + |CLASS|..])
                    then [(k, |text|)] else [])
    {
      Appended(text, capture, keywords, k, name);
    }
  }

  /** Records one more class keyword. */
  method Record(text: string, capture: string -> Option<string>, ghost keywords: seq<nat>, k: nat,
                byName: map<string, seq<(nat, nat)>>, declared: set<string>, ambiguous: set<string>)
    returns (byName': map<string, seq<(nat, nat)>>, declared': set<string>, ambiguous': set<string>)
    requires k + |CLASS| <= |text| && Collected(text, capture, keywords, byName, declared, ambiguous)
    ensures Collected(text, capture, keywords + [k], byName', declared', ambiguous')
  {
    hide HasImplements, Collected;
    byName', declared', ambiguous' := byName, declared, ambiguous;
    var rest := text[k + |CLASS|..];
    var captured := capture(rest);
    if captured.Some? {
      var name := captured.value;
      if name in declared {
        ambiguous' := ambiguous + {name};
      }
      declared' := declared + {name};
      var implements := HeaderImplements(rest);
      if implements {
        var range := (k, |text|);
        if name in byName {
          byName' := byName[name := byName[name] + [range]];
        } else {
          byName' := byName[name := [range]];
        }
      }
    }
    Recorded(text, capture, keywords, k, byName, declared, ambiguous, byName', declared', ambiguous');
  }

  lemma KeywordFits(text: string, k: nat)
    requires KeywordHit(Blank(text), text, CLASS)(k)
    ensures k + |CLASS| <= |text|
  {
  }

  lemma NothingCollected(text: string, capture: string -> Option<string>)
    ensures Collected(text, capture, [], map[], {}, {})
  {
  }

  lemma StartIsFresh(text: string)
    ensures FreshStart(text, 0)
  {
    hide Blank;
    assert text[0..] == text && Blank(text)[0..] == Blank(text);
  }

  lemma Nothing(text: string, capture: string -> Option<string>)
    ensures Collected(text, capture, [], map[], {}, {}) && FreshStart(text, 0)
    ensures ClassKeywords(text) == [] + All(KeywordHit(Blank(text), text, CLASS), 0, |text|)
  {
    hide Blank, KeywordHit, All, Collected, FreshStart;
    NothingCollected(text, capture);
    StartIsFresh(text);
  }

  lemma NothingLeft(hit: nat -> bool, k: nat, n: nat)
    requires k >= n
    ensures All(hit, k, n) == []
  {
  }

  lemma EndOfList(seen: seq<nat>)
    ensures seen + [] == seen
  {
  }

  lemma Regroup(seen: seq<nat>, k: nat, rest: seq<nat>)
    ensures seen + ([k] + rest) == (seen + [k]) + rest
  {
  }

  lemma Unfold(text: string, capture: string -> Option<string>, byName: map<string, seq<(nat, nat)>>,
               declared: set<string>, ambiguous: set<string>)
    requires Collected(text, capture, ClassKeywords(text), byName, declared, ambiguous)
    ensures var keywords := ClassKeywords(text);
            forall name ::
              (name in byName <==> Implementing(text, capture, keywords, name) != [])
              && (name in byName ==> byName[name] == Implementing(text, capture, keywords, name))
              && (name in ambiguous <==> Declarations(text, capture, keywords, name) >= 2)
  {
  }

  method CollectImplementingClassDeclarations(sourceText: string, capture: string -> Option<string>)
    returns (byName: map<string, seq<(nat, nat)>>, ambiguousNames: set<string>)
    ensures var keywords := ClassKeywords(sourceText);
            forall name ::
              (name in byName <==> Implementing(sourceText, capture, keywords, name) != [])
              && (name in byName ==> byName[name] == Implementing(sourceText, capture, keywords, name))
              && (name in ambiguousNames <==> Declarations(sourceText, capture, keywords, name) >= 2)
  {
    hide Blank, Least, All, KeywordHit, FreshStart, Collected;
    byName, ambiguousNames := map[], {};
    var declaredNames: set<string> := {};
    var offset: nat := 0;
    ghost var hit := KeywordHit(Blank(sourceText), sourceText, CLASS);
    ghost var seen: seq<nat> := [];
    Nothing(sourceText, capture);
    while offset < |sourceText|
      invariant FreshStart(sourceText, offset) && offset <= |sourceText|
      invariant ClassKeywords(sourceText) == seen + All(hit, offset, |sourceText|)
      invariant Collected(sourceText, capture, seen, byName, declaredNames, ambiguousNames)
    {
      var classOffset := FindKeywordOutsideTrivia(sourceText[offset..], CLASS);
      NextInSlice(sourceText, offset);
      if classOffset < 0 {
        EndOfList(seen);
        Unfold(sourceText, capture, byName, declaredNames, ambiguousNames);
        return;
      }
      var k := offset + classOffset;
      StepPastKeyword(sourceText, k);
      KeywordFits(sourceText, k);
      Regroup(seen, k, All(hit, k + 1, |sourceText|));
      byName, declaredNames, ambiguousNames :=
        Record(sourceText, capture, seen, k, byName, declaredNames, ambiguousNames);
      seen := seen + [k];
      offset := k + |CLASS|;
    }
    NothingLeft(hit, offset, |sourceText|);
    EndOfList(seen);
    Unfold(sourceText, capture, byName, declaredNames, ambiguousNames);
  }
}
