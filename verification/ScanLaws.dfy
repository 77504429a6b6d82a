/** The second pass in counts: a place is top-level when no stretch that ends there shows more openers
    than closers of a kind, and a bracket is never a place to cut or a needle. */
module ScanLaws {
  import opened Options
  import opened Trivia
  import opened TopLevel

  /** How often `c` shows between `from` and `upto`. */
  function Shown(mask: Mask, c: char, from: nat, upto: nat): nat
    requires from <= upto <= |mask|
    decreases upto
  {
    if from == upto then 0
    else Shown(mask, c, from, upto - 1) + if mask[upto - 1] == Some(c) then 1 else 0
  }

  /** Some stretch that ends at `k` shows more openers than closers. */
  ghost predicate Unclosed(mask: Mask, opener: char, closer: char, k: nat)
    requires k <= |mask|
  {
    exists j :: 0 <= j <= k && Shown(mask, opener, j, k) > Shown(mask, closer, j, k)
  }

  lemma {:induction false} NetIsCount(mask: Mask, bracket: Bracket, opener: char, closer: char, j: nat, k: nat)
    requires j <= k <= |mask| && opener == Opener(bracket) && closer == Closer(bracket)
    ensures Net(mask, bracket, k) - Net(mask, bracket, j) == Shown(mask, opener, j, k) - Shown(mask, closer, j, k)
    decreases k
  {
    if j < k {
      NetIsCount(mask, bracket, opener, closer, j, k - 1);
    }
  }

  lemma DepthIsUnclosed(mask: Mask, bracket: Bracket, opener: char, closer: char, k: nat)
    requires k <= |mask| && opener == Opener(bracket) && closer == Closer(bracket)
    ensures DepthsAt(mask, k).Get(bracket) > 0 <==> Unclosed(mask, opener, closer, k)
  {
    hide Net, DepthsAt, Opener, Closer, Shown;
    DepthIsUnclosedOpeners(mask, bracket, k);
    forall j | 0 <= j <= k
      ensures Net(mask, bracket, k) - Net(mask, bracket, j) == Shown(mask, opener, j, k) - Shown(mask, closer, j, k)
    {
      NetIsCount(mask, bracket, opener, closer, j, k);
    }
    var depth := DepthsAt(mask, k).Get(bracket);
    if depth > 0 {
      var j :| 0 <= j <= k && Net(mask, bracket, k) - Net(mask, bracket, j) == depth;
      assert Shown(mask, opener, j, k) > Shown(mask, closer, j, k);
    }
  }

  /** No angle, parenthesis, bracket or brace is open at `k`. */
  ghost predicate AtTopLevel(mask: Mask, k: nat)
    requires k <= |mask|
  {
    && !Unclosed(mask, '<', '>', k) && !Unclosed(mask, '(', ')', k)
    && !Unclosed(mask, '[', ']', k) && !Unclosed(mask, '{', '}', k)
  }

  lemma FlatIsTopLevel(mask: Mask, k: nat)
    requires k <= |mask|
    ensures DepthsAt(mask, k) == Flat <==> AtTopLevel(mask, k)
    ensures DepthsAt(mask, k).(angle := 0) == Flat
            <==> !Unclosed(mask, '(', ')', k) && !Unclosed(mask, '[', ']', k) && !Unclosed(mask, '{', '}', k)
    ensures DepthsAt(mask, k).(paren := 0) == Flat
            <==> !Unclosed(mask, '<', '>', k) && !Unclosed(mask, '[', ']', k) && !Unclosed(mask, '{', '}', k)
  {
    hide DepthsAt, Unclosed;
    DepthIsUnclosed(mask, Angle, '<', '>', k);
    DepthIsUnclosed(mask, Paren, '(', ')', k);
    DepthIsUnclosed(mask, Square, '[', ']', k);
    DepthIsUnclosed(mask, Brace, '{', '}', k);
  }

  /** A text is cut at `k` exactly when the delimiter shows there at top level and is no bracket. */
  lemma CutExactly(mask: Mask, delimiter: char, k: nat)
    ensures Cut(mask, delimiter, k)
            <==> k < |mask| && mask[k] == Some(delimiter) && AtTopLevel(mask, k)
                 && delimiter !in {'<', '>', '(', ')', '[', ']', '{', '}'}
  {
    hide DepthsAt, AtTopLevel;
    if k < |mask| {
      FlatIsTopLevel(mask, k);
    }
  }

  /** What the searches for the first place of a kind look for. */
  lemma NeedlesExactly(mask: Mask, needles: seq<char>, k: nat)
    ensures TopLevelNeedle(mask, needles)(k)
            <==> k < |mask| && AtTopLevel(mask, k)
                 && exists i :: 0 <= i < |needles| && mask[k] == Some(needles[i])
                      && needles[i] !in {'<', '>', '(', ')', '[', ']', '{', '}'}
    ensures TopLevelAngle(mask)(k)
            <==> k < |mask| && mask[k] == Some('<')
                 && !Unclosed(mask, '(', ')', k) && !Unclosed(mask, '[', ']', k) && !Unclosed(mask, '{', '}', k)
    ensures TopLevelParen(mask)(k)
            <==> k < |mask| && mask[k] == Some('(')
                 && !Unclosed(mask, '<', '>', k) && !Unclosed(mask, '[', ']', k) && !Unclosed(mask, '{', '}', k)
    ensures TopLevelBrace(mask)(k) <==> k < |mask| && mask[k] == Some('{') && AtTopLevel(mask, k)
  {
    hide DepthsAt, AtTopLevel, Unclosed;
    if k < |mask| {
      FlatIsTopLevel(mask, k);
    }
  }

  lemma NetStarts(mask: Mask)
    ensures Net(mask, Angle, 0) == 0
  {
  }

  /** No stretch from the start to `k` or before shows more closing angles than opening ones. */
  ghost predicate NoneOwed(mask: Mask, k: nat)
    requires k <= |mask|
  {
    forall j :: 0 <= j <= k ==> Shown(mask, '<', 0, j) >= Shown(mask, '>', 0, j)
  }

  lemma CountFromStart(mask: Mask, k: nat)
    requires k <= |mask|
    ensures Net(mask, Angle, k) == Shown(mask, '<', 0, k) - Shown(mask, '>', 0, k)
  {
    NetIsCount(mask, Angle, '<', '>', 0, k);
  }

  /** The angle brackets balance at `k`: as many closers as openers have shown, and never more closers. */
  lemma BalanceExactly(mask: Mask, k: nat)
    ensures AngleBalance(mask)(k)
            <==> k < |mask| && mask[k] == Some('>') && NoneOwed(mask, k)
                 && Shown(mask, '<', 0, k + 1) == Shown(mask, '>', 0, k + 1)
  {
    hide Shown;
    if k < |mask| {
      CountFromStart(mask, k + 1);
      if NoneOwed(mask, k) {
        forall j | 0 <= j <= k
          ensures Net(mask, Angle, j) >= 0
        {
          CountFromStart(mask, j);
        }
      }
      if AngleBalance(mask)(k) {
        forall j | 0 <= j <= k
          ensures Shown(mask, '<', 0, j) >= Shown(mask, '>', 0, j)
        {
          CountFromStart(mask, j);
        }
      }
    }
  }
}
