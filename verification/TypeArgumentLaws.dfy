/** Where the type arguments of a source range lie and where each begins, said without the searches that
    find them. */
module TypeArgumentLaws {
  import opened Options
  import opened Trivia
  import opened TopLevel
  import opened Utf
  import opened ScanLaws
  import opened TypeArguments

  /** A colon or an equals sign shows at `k`, outside all brackets. */
  ghost predicate Separates(slice: string, k: nat) {
    k < |slice| && (Blank(slice)[k] == Some(':') || Blank(slice)[k] == Some('=')) && AtTopLevel(Blank(slice), k)
  }

  /** The type starts behind the first separator, or at the start when there is none. */
  ghost predicate TypeBegins(slice: string, start: nat) {
    if start == 0 then forall k: nat :: !Separates(slice, k)
    else Separates(slice, start - 1) && forall k: nat :: k < start - 1 ==> !Separates(slice, k)
  }

  /** An opening angle shows at `k` of the type, inside no parenthesis, bracket or brace. */
  ghost predicate Opens(type_: string, k: nat) {
    k < |type_| && Blank(type_)[k] == Some('<')
    && !Unclosed(Blank(type_), '(', ')', k) && !Unclosed(Blank(type_), '[', ']', k)
    && !Unclosed(Blank(type_), '{', '}', k)
  }

  /** The angles counted from `open` on balance at `k`. */
  ghost predicate Balances(slice: string, open: nat, k: nat)
    requires open <= |slice|
  {
    var mask := MaskFrom(slice, open);
    open <= k < |slice| && mask[k] == Some('>') && NoneOwed(mask, k)
    && Shown(mask, '<', 0, k + 1) == Shown(mask, '>', 0, k + 1)
  }

  lemma NeedleIsSeparator(slice: string, k: nat)
    ensures TopLevelNeedle(Blank(slice), [':', '='])(k) <==> Separates(slice, k)
  {
    hide Blank, AtTopLevel, TopLevelNeedle;
    var needles := [':', '='];
    NeedlesExactly(Blank(slice), needles, k);
    assert needles[0] == ':' && needles[1] == '=';
  }

  lemma SeparatesInside(slice: string)
    ensures forall k: nat :: Separates(slice, k) ==> k < |slice|
  {
  }

  lemma OneTypeStart(slice: string, x: nat, y: nat)
    requires TypeBegins(slice, x) && TypeBegins(slice, y)
    ensures x == y
  {
    hide Separates;
  }

  lemma TypeStartExactly(slice: string, start: nat)
    ensures TypeBegins(slice, start) <==> start == TypeStart(slice)
  {
    hide Blank, Separates, TopLevelNeedle;
    var hit := TopLevelNeedle(Blank(slice), [':', '=']);
    LeastIsFirst(hit, 0, |slice|);
    forall k: nat
      ensures hit(k) <==> Separates(slice, k)
    {
      NeedleIsSeparator(slice, k);
    }
    SeparatesInside(slice);
    if TypeBegins(slice, start) && TypeBegins(slice, TypeStart(slice)) {
      OneTypeStart(slice, start, TypeStart(slice));
    }
  }

  lemma AngleIsOpener(type_: string, k: nat)
    ensures TopLevelAngle(Blank(type_))(k) <==> Opens(type_, k)
  {
    hide Blank, Unclosed, TopLevelAngle;
    NeedlesExactly(Blank(type_), [], k);
  }

  lemma BalanceIsClosing(slice: string, open: nat, k: nat)
    requires open <= k && open <= |slice|
    ensures AngleBalance(MaskFrom(slice, open))(k) <==> Balances(slice, open, k)
  {
    hide MaskFrom, AngleBalance, NoneOwed, Shown;
    BalanceExactly(MaskFrom(slice, open), k);
  }

  lemma FirstIsLeast(hit: nat -> bool, from: nat, n: nat, k: nat)
    ensures Least(hit, from, n) == Some(k) <==> from <= k < n && hit(k) && forall j :: from <= j < k ==> !hit(j)
  {
    LeastIsFirst(hit, from, n);
  }

  lemma OpeningExactly(slice: string, open: nat)
    ensures var start := TypeStart(slice);
            Opening(slice) == Some(open)
            <==> start <= open < |slice| && Opens(slice[start..], open - start)
                 && forall k: nat :: k < open - start ==> !Opens(slice[start..], k)
  {
    hide Blank, Opens, TopLevelAngle, TypeStart, Least;
    var start := TypeStart(slice);
    var type_ := slice[start..];
    OpeningIsAngle(slice);
    AngleInTypeIs(slice);
    forall k: nat
      ensures TopLevelAngle(Blank(type_))(k) <==> Opens(type_, k)
    {
      AngleIsOpener(type_, k);
    }
    if open >= start {
      FirstIsLeast(TopLevelAngle(Blank(type_)), 0, |type_|, open - start);
    }
  }

  lemma ClosingExactly(slice: string, open: nat, close: nat)
    requires open <= |slice|
    ensures Closing(slice, open) == Some(close)
            <==> open <= close < |slice| && Balances(slice, open, close)
                 && forall k: nat :: open <= k < close ==> !Balances(slice, open, k)
  {
    hide MaskFrom, AngleBalance, Balances, Least;
    ClosingIs(slice, open);
    FirstIsLeast(AngleBalance(MaskFrom(slice, open)), open, |slice|, close);
    forall k: nat | open <= k
      ensures AngleBalance(MaskFrom(slice, open))(k) <==> Balances(slice, open, k)
    {
      BalanceIsClosing(slice, open, k);
    }
  }

  lemma BalancesInside(slice: string)
    ensures forall open: nat, k: nat :: open <= |slice| && Balances(slice, open, k) ==> open <= k < |slice|
  {
  }

  /** The arguments stand between the first angle of the type and the place where it balances first. */
  lemma SpanExactly(slice: string, open: nat, close: nat)
    ensures ArgumentSpan(slice) == Some((open, close))
            <==> exists start: nat ::
              && TypeBegins(slice, start)
              && start <= open < |slice| && Opens(slice[start..], open - start)
              && (forall k: nat :: k < open - start ==> !Opens(slice[start..], k))
              && Balances(slice, open, close)
              && (forall k: nat :: open <= k < close ==> !Balances(slice, open, k))
  {
    hide Opens, Balances, TypeBegins, TypeStart, Opening, Closing;
    OpeningExactly(slice, open);
    SpanIsNested(slice);
    forall start: nat
      ensures TypeBegins(slice, start) <==> start == TypeStart(slice)
    {
      TypeStartExactly(slice, start);
    }
    if open < |slice| {
      ClosingExactly(slice, open, close);
    }
    BalancesInside(slice);
  }
}
