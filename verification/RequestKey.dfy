/** The key `planCheckerBatch` deduplicates direct requests by: the method, a zero character and the
    JSON text of the parameters.  Sharing a request is sound because the key determines them. */
module RequestKey {
  import opened Options

  /** A parameter value; parameters that are `undefined` are dropped before the key is built. */
  datatype Scalar = Text(text: string) | Number(number: int)

  type Fields = seq<(string, Scalar)>

  /** `omitUndefinedProperties`. */
  function OmitUndefined(entries: seq<(string, Option<Scalar>)>): Fields {
    if entries == [] then []
    else if entries[0].1.None? then OmitUndefined(entries[1..])
    else [(entries[0].0, entries[0].1.value)] + OmitUndefined(entries[1..])
  }

  // ---- JSON.stringify on these values (section 25.5.2 of ECMA-262) ----

  function HexDigit(n: nat): char
    requires n < 16
  {
    "0123456789abcdef"[n]
  }

  function Escape(c: char): (s: string)
    ensures s != []
  {
    if c == '\"' then "\\\""
    else if c == '\\' then "\\\\"
    else if c as int == 8 then "\\b"
    else if c == '\t' then "\\t"
    else if c == '\n' then "\\n"
    else if c as int == 12 then "\\f"
    else if c == '\r' then "\\r"
    else if c as int < 0x20 then "\\u00" + [HexDigit(c as int / 16), HexDigit(c as int % 16)]
    else [c]
  }

  function EscapeAll(s: string): string {
    if s == [] then [] else Escape(s[0]) + EscapeAll(s[1..])
  }

  function Quote(s: string): string {
    "\"" + EscapeAll(s) + "\""
  }

  predicate IsDigit(c: char) {
    '0' <= c <= '9'
  }

  function Digits(n: nat): (s: string)
    ensures s != [] && forall i :: 0 <= i < |s| ==> IsDigit(s[i])
  {
    var last := ['0' + (n % 10) as char];
    if n < 10 then last else Digits(n / 10) + last
  }

  function Decimal(n: int): string {
    if n < 0 then "-" + Digits(-n) else Digits(n)
  }

  function Print(value: Scalar): string {
    match value
    case Text(s) => Quote(s)
    case Number(n) => Decimal(n)
  }

  function Member(field: (string, Scalar)): string {
    Quote(field.0) + ":" + Print(field.1)
  }

  function Members(fields: Fields): string {
    if fields == [] then "}"
    else "," + Member(fields[0]) + Members(fields[1..])
  }

  function Stringify(fields: Fields): string {
    if fields == [] then "{}" else "{" + Member(fields[0]) + Members(fields[1..])
  }

  function Key(method_: string, fields: Fields): string {
    method_ + "\0" + Stringify(fields)
  }

  // ---- the text determines the value ----

  function HexValue(c: char): (n: nat)
    ensures n < 16
  {
    if '0' <= c <= '9' then c as int - '0' as int else if 'a' <= c <= 'f' then c as int - 'a' as int + 10 else 0
  }

  /** The character whose escape begins `s`, reading it back. */
  function Unescaped(s: string): (char, nat)
    requires s != []
  {
    if s[0] != '\\' || |s| < 2 then (s[0], 1)
    else if s[1] == 'b' then (8 as char, 2)
    else if s[1] == 't' then ('\t', 2)
    else if s[1] == 'n' then ('\n', 2)
    else if s[1] == 'f' then (12 as char, 2)
    else if s[1] == 'r' then ('\r', 2)
    else if s[1] == 'u' && |s| >= 6 then ((16 * HexValue(s[4]) + HexValue(s[5])) as char, 6)
    else (s[1], 2)
  }

  /** Characters written with four hexadecimal digits. */
  predicate IsControl(c: char) {
    (c as int) < 0x20 && c as int != 8 && c != '\t' && c != '\n' && c as int != 12 && c != '\r'
  }

  lemma HexReadsBack(n: nat)
    requires n < 16
    ensures HexValue(HexDigit(n)) == n
  {
  }

  lemma ControlReadsBack(c: char, rest: string)
    requires IsControl(c)
    ensures Unescaped(Escape(c) + rest) == (c, |Escape(c)|)
  {
    hide HexDigit, HexValue;
    HexReadsBack(c as int / 16);
    HexReadsBack(c as int % 16);
    var s := Escape(c) + rest;
    assert Escape(c) == "\\u00" + [HexDigit(c as int / 16), HexDigit(c as int % 16)];
    assert s[0] == '\\' && s[1] == 'u' && s[4] == HexDigit(c as int / 16) && s[5] == HexDigit(c as int % 16);
  }

  lemma EscapeReadsBack(c: char, rest: string)
    ensures Unescaped(Escape(c) + rest) == (c, |Escape(c)|)
    ensures Escape(c)[0] != '\"'
  {
    var s := Escape(c) + rest;
    assert forall i :: 0 <= i < |Escape(c)| ==> s[i] == Escape(c)[i];
    if IsControl(c) {
      ControlReadsBack(c, rest);
    }
  }

  lemma SamePrefix(x: string, a: string, y: string, b: string)
    requires x + a == y + b && |x| == |y|
    ensures x == y && a == b
  {
    assert x == (x + a)[..|x|] && y == (y + b)[..|y|];
    assert a == (x + a)[|x|..] && b == (y + b)[|y|..];
  }

  lemma Assoc(x: string, y: string, z: string)
    ensures (x + y) + z == x + (y + z)
  {
  }

  /** The first character tells whether the quoted text goes on. */
  lemma EscapesBegin(s: string, a: string)
    ensures var text := EscapeAll(s) + ("\"" + a);
            if s == [] then text == "\"" + a
            else text == Escape(s[0]) + (EscapeAll(s[1..]) + ("\"" + a)) && Unescaped(text) == (s[0], |Escape(s[0])|)
    ensures (EscapeAll(s) + ("\"" + a))[0] == '\"' <==> s == []
  {
    if s != [] {
      var rest := EscapeAll(s[1..]) + ("\"" + a);
      Assoc(Escape(s[0]), EscapeAll(s[1..]), "\"" + a);
      EscapeReadsBack(s[0], rest);
      assert (Escape(s[0]) + rest)[0] == Escape(s[0])[0];
    }
  }

  lemma {:induction false} EscapesDetermine(s: string, a: string, t: string, b: string)
    requires EscapeAll(s) + ("\"" + a) == EscapeAll(t) + ("\"" + b)
    ensures s == t && a == b
    decreases |s|
  {
    hide Escape, EscapeAll, Unescaped;
    EscapesBegin(s, a);
    EscapesBegin(t, b);
    if s == [] {
      SamePrefix("\"", a, "\"", b);
    } else {
      SamePrefix(Escape(s[0]), EscapeAll(s[1..]) + ("\"" + a), Escape(t[0]), EscapeAll(t[1..]) + ("\"" + b));
      EscapesDetermine(s[1..], a, t[1..], b);
    }
  }

  lemma QuoteIs(s: string, a: string)
    ensures Quote(s) + a == "\"" + (EscapeAll(s) + ("\"" + a))
  {
    hide EscapeAll;
    Assoc("\"" + EscapeAll(s), "\"", a);
    Assoc("\"", EscapeAll(s), "\"" + a);
  }

  lemma QuoteDetermines(s: string, a: string, t: string, b: string)
    requires Quote(s) + a == Quote(t) + b
    ensures s == t && a == b
  {
    hide EscapeAll, Quote;
    QuoteIs(s, a);
    QuoteIs(t, b);
    SamePrefix("\"", EscapeAll(s) + ("\"" + a), "\"", EscapeAll(t) + ("\"" + b));
    EscapesDetermine(s, a, t, b);
  }

  function Value(digits: string): int {
    if digits == [] then 0
    else 10 * Value(digits[..|digits| - 1]) + (digits[|digits| - 1] as int - '0' as int)
  }

  lemma {:induction false} DigitsReadBack(n: nat)
    ensures Value(Digits(n)) == n
  {
    var last := ['0' + (n % 10) as char];
    assert last[0] as int - '0' as int == n % 10;
    if n >= 10 {
      DigitsReadBack(n / 10);
      assert Digits(n)[..|Digits(n)| - 1] == Digits(n / 10);
    } else {
      assert Digits(n)[..0] == [];
    }
  }

  /** Text that cannot be mistaken for more digits. */
  predicate Stops(s: string) {
    s == [] || !IsDigit(s[0])
  }

  lemma NoLonger(x: string, a: string, y: string, b: string)
    requires x + a == y + b && Stops(a)
    requires forall i :: 0 <= i < |y| ==> IsDigit(y[i])
    ensures |y| <= |x|
  {
    assert a != [] ==> (x + a)[|x|] == a[0];
    assert forall i :: 0 <= i < |y| ==> (y + b)[i] == y[i];
  }

  lemma DigitsDetermine(m: nat, a: string, n: nat, b: string)
    requires Digits(m) + a == Digits(n) + b && Stops(a) && Stops(b)
    ensures m == n && a == b
  {
    NoLonger(Digits(m), a, Digits(n), b);
    NoLonger(Digits(n), b, Digits(m), a);
    SamePrefix(Digits(m), a, Digits(n), b);
    DigitsReadBack(m);
    DigitsReadBack(n);
  }

  lemma DecimalBegins(n: int, a: string)
    ensures Decimal(n) != []
    ensures (Decimal(n) + a)[0] == '-' <==> n < 0
    ensures (Decimal(n) + a)[0] != '\"'
    ensures Decimal(n) + a == if n < 0 then "-" + (Digits(-n) + a) else Digits(n) + a
  {
    assert (Decimal(n) + a)[0] == Decimal(n)[0];
    if n < 0 {
      Assoc("-", Digits(-n), a);
    }
  }

  lemma DecimalDetermines(m: int, a: string, n: int, b: string)
    requires Decimal(m) + a == Decimal(n) + b && Stops(a) && Stops(b)
    ensures m == n && a == b
  {
    DecimalBegins(m, a);
    DecimalBegins(n, b);
    if m < 0 {
      SamePrefix("-", Digits(-m) + a, "-", Digits(-n) + b);
      DigitsDetermine(-m, a, -n, b);
    } else {
      DigitsDetermine(m, a, n, b);
    }
  }

  lemma PrintBegins(v: Scalar, a: string)
    ensures Print(v) != [] && ((Print(v) + a)[0] == '\"' <==> v.Text?)
  {
    assert (Print(v) + a)[0] == Print(v)[0];
    if v.Number? {
      DecimalBegins(v.number, a);
    }
  }

  lemma PrintDetermines(v: Scalar, a: string, w: Scalar, b: string)
    requires Print(v) + a == Print(w) + b && Stops(a) && Stops(b)
    ensures v == w && a == b
  {
    PrintBegins(v, a);
    PrintBegins(w, b);
    if v.Text? {
      QuoteDetermines(v.text, a, w.text, b);
    } else {
      DecimalDetermines(v.number, a, w.number, b);
    }
  }

  lemma MemberIs(f: (string, Scalar), a: string)
    ensures Member(f) + a == Quote(f.0) + (":" + (Print(f.1) + a))
    ensures Member(f)[0] == '\"'
  {
    hide EscapeAll, Print;
    Assoc(Quote(f.0) + ":", Print(f.1), a);
    Assoc(Quote(f.0), ":", Print(f.1) + a);
  }

  lemma MemberDetermines(f: (string, Scalar), a: string, g: (string, Scalar), b: string)
    requires Member(f) + a == Member(g) + b && Stops(a) && Stops(b)
    ensures f == g && a == b
  {
    hide Member, Quote, Print;
    MemberIs(f, a);
    MemberIs(g, b);
    QuoteDetermines(f.0, ":" + (Print(f.1) + a), g.0, ":" + (Print(g.1) + b));
    SamePrefix(":", Print(f.1) + a, ":", Print(g.1) + b);
    PrintDetermines(f.1, a, g.1, b);
  }

  lemma MembersBegin(x: Fields)
    ensures Members(x) != [] && Stops(Members(x)) && (Members(x)[0] == ',' <==> x != [])
    ensures x != [] ==> Members(x) == "," + (Member(x[0]) + Members(x[1..]))
  {
    if x != [] {
      Assoc(",", Member(x[0]), Members(x[1..]));
    }
  }

  lemma FirstMemberDetermines(x: Fields, y: Fields)
    requires x != [] && y != [] && Member(x[0]) + Members(x[1..]) == Member(y[0]) + Members(y[1..])
    ensures x[0] == y[0] && Members(x[1..]) == Members(y[1..])
  {
    hide Member, Members;
    MembersBegin(x[1..]);
    MembersBegin(y[1..]);
    MemberDetermines(x[0], Members(x[1..]), y[0], Members(y[1..]));
  }

  lemma {:induction false} MembersDetermine(x: Fields, y: Fields)
    requires Members(x) == Members(y)
    ensures x == y
    decreases |x|
  {
    hide Member, Members;
    MembersBegin(x);
    MembersBegin(y);
    if x != [] {
      SamePrefix(",", Member(x[0]) + Members(x[1..]), ",", Member(y[0]) + Members(y[1..]));
      FirstMemberDetermines(x, y);
      MembersDetermine(x[1..], y[1..]);
    }
  }

  lemma StringifyBegins(x: Fields)
    ensures |Stringify(x)| >= 2 && (Stringify(x)[1] == '\"' <==> x != [])
    ensures x != [] ==> Stringify(x) == "{" + (Member(x[0]) + Members(x[1..]))
  {
    hide Member, Members;
    if x != [] {
      Assoc("{", Member(x[0]), Members(x[1..]));
      MemberIs(x[0], []);
      assert Stringify(x)[1] == (Member(x[0]) + Members(x[1..]))[0] == Member(x[0])[0];
    }
  }

  lemma StringifyDetermines(x: Fields, y: Fields)
    requires Stringify(x) == Stringify(y)
    ensures x == y
  {
    hide Member, Members, Stringify;
    StringifyBegins(x);
    StringifyBegins(y);
    if x != [] {
      SamePrefix("{", Member(x[0]) + Members(x[1..]), "{", Member(y[0]) + Members(y[1..]));
      FirstMemberDetermines(x, y);
      MembersDetermine(x[1..], y[1..]);
    }
  }

  lemma ZeroEndsMethod(m: string, a: string, n: string, b: string)
    requires m + ("\0" + a) == n + ("\0" + b) && '\0' !in n
    ensures |m| >= |n|
  {
    assert (m + ("\0" + a))[|m|] == '\0';
    assert forall i :: 0 <= i < |n| ==> (n + ("\0" + b))[i] == n[i] && n[i] in n;
  }

  lemma MethodDetermines(m: string, a: string, n: string, b: string)
    requires m + ("\0" + a) == n + ("\0" + b) && '\0' !in m && '\0' !in n
    ensures m == n && a == b
  {
    ZeroEndsMethod(m, a, n, b);
    ZeroEndsMethod(n, b, m, a);
    SamePrefix(m, "\0" + a, n, "\0" + b);
    SamePrefix("\0", a, "\0", b);
  }

  /** Two direct requests share a key exactly when they are the same request. */
  lemma KeyDeterminesRequest(m: string, x: Fields, n: string, y: Fields)
    requires '\0' !in m && '\0' !in n
    ensures Key(m, x) == Key(n, y) <==> m == n && x == y
  {
    if Key(m, x) == Key(n, y) {
      Assoc(m, "\0", Stringify(x));
      Assoc(n, "\0", Stringify(y));
      MethodDetermines(m, Stringify(x), n, Stringify(y));
      StringifyDetermines(x, y);
    }
  }
}
