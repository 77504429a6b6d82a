/** What the first pass hides and what it shows, character by character: the three kinds of string, the
    two kinds of comment, and everything else. */
module TriviaLaws {
  import opened Options
  import opened Trivia

  /** What may stand between two quotes: any character but the quote and a backslash, and a backslash
      with any character behind it. */
  ghost predicate StringBody(body: string, quote: char) {
    if |body| == 0 then true
    else if body[0] == '\\' then |body| >= 2 && StringBody(body[2..], quote)
    else body[0] != quote && StringBody(body[1..], quote)
  }

  ghost predicate OneLine(body: string) {
    forall i :: 0 <= i < |body| ==> body[i] != '\n' && body[i] != '\r'
  }

  /** The two characters that end a block comment do not stand at `i`. */
  ghost predicate NoTerminator(s: string, i: nat) {
    i + 1 < |s| ==> !(s[i] == '*' && s[i + 1] == '/')
  }

  // ---- strings ----

  lemma {:induction false} ClosedLength(body: string, quote: char, rest: string)
    requires quote != '\\' && StringBody(body, quote)
    ensures StringLength(body + [quote] + rest, quote) == |body| + 1
    decreases |body|
  {
    var s := body + [quote] + rest;
    if |body| == 0 {
      assert s[0] == quote;
    } else if body[0] == '\\' {
      assert s[0] == '\\' && s[2..] == body[2..] + [quote] + rest;
      ClosedLength(body[2..], quote, rest);
    } else {
      assert s[0] == body[0] && s[1..] == body[1..] + [quote] + rest;
      ClosedLength(body[1..], quote, rest);
    }
  }

  lemma {:induction false} OpenLength(body: string, quote: char, end: string)
    requires StringBody(body, quote) && (end == "" || end == "\\")
    ensures StringLength(body + end, quote) == |body + end|
    decreases |body|
  {
    var s := body + end;
    if |s| > 1 {
      if body[0] == '\\' {
        assert s[0] == '\\' && s[2..] == body[2..] + end;
        OpenLength(body[2..], quote, end);
      } else {
        assert s[0] == body[0] && s[1..] == body[1..] + end;
        OpenLength(body[1..], quote, end);
      }
    }
  }

  lemma AllIsHidden(s: string)
    requires s != "" && TokenLength(s) == |s|
    ensures Blank(s) == Hidden(|s|)
  {
    hide TokenLength;
    assert s[|s|..] == [];
    assert Hidden(|s|) + [] == Hidden(|s|);
  }

  lemma QuoteBegins(quote: char, tail: string)
    requires quote == '"' || quote == '\'' || quote == '`'
    ensures TokenLength([quote] + tail) == 1 + StringLength(tail, quote)
  {
    hide StringLength;
    var s := [quote] + tail;
    assert s[0] == quote && s[1..] == tail;
  }

  /** A string, from quote to quote, is hidden, and the text goes on behind it. */
  lemma StringIsHidden(quote: char, body: string, rest: string)
    requires quote == '"' || quote == '\'' || quote == '`'
    requires StringBody(body, quote)
    ensures Blank([quote] + body + [quote] + rest) == Hidden(|body| + 2) + Blank(rest)
  {
    hide StringLength, StringBody;
    hide TokenLength;
    var s := [quote] + body + [quote] + rest;
    assert s == [quote] + (body + [quote] + rest);
    ClosedLength(body, quote, rest);
    QuoteBegins(quote, body + [quote] + rest);
    assert s[|body| + 2..] == rest;
  }

  lemma UnclosedIsHidden(quote: char, tail: string)
    requires quote == '"' || quote == '\'' || quote == '`'
    requires StringLength(tail, quote) == |tail|
    ensures Blank([quote] + tail) == Hidden(|tail| + 1)
  {
    hide StringLength, TokenLength, Blank;
    QuoteBegins(quote, tail);
    AllIsHidden([quote] + tail);
  }

  /** A string that is never closed is hidden to the end. */
  lemma OpenStringIsHidden(quote: char, body: string, end: string)
    requires quote == '"' || quote == '\'' || quote == '`'
    requires StringBody(body, quote) && (end == "" || end == "\\")
    ensures Blank([quote] + (body + end)) == Hidden(|body + end| + 1)
  {
    hide StringLength, StringBody, Blank, Hidden;
    OpenLength(body, quote, end);
    UnclosedIsHidden(quote, body + end);
  }

  // ---- comments ----

  lemma {:induction false} ClosedLine(body: string, end: char, rest: string)
    requires OneLine(body) && (end == '\n' || end == '\r')
    ensures LineLength(body + [end] + rest) == |body| + 1
    decreases |body|
  {
    var s := body + [end] + rest;
    if |body| > 0 {
      assert s[0] == body[0] && s[1..] == body[1..] + [end] + rest;
      ClosedLine(body[1..], end, rest);
    }
  }

  lemma {:induction false} OpenLine(body: string)
    requires OneLine(body)
    ensures LineLength(body) == |body|
    decreases |body|
  {
    if |body| > 0 {
      OpenLine(body[1..]);
    }
  }

  /** A line comment is hidden with the end of its line, or to the end of the text. */
  lemma LineIsHidden(body: string, end: char, rest: string)
    requires OneLine(body) && (end == '\n' || end == '\r')
    ensures Blank("//" + body + [end] + rest) == Hidden(|body| + 3) + Blank(rest)
    ensures Blank("//" + body) == Hidden(|body| + 2)
  {
    hide LineLength, OneLine;
    var s := "//" + body + [end] + rest;
    assert s[0] == '/' && s[1] == '/' && s[2..] == body + [end] + rest;
    ClosedLine(body, end, rest);
    assert TokenLength(s) == |body| + 3;
    assert s[|body| + 3..] == rest;
    var open := "//" + body;
    assert open[0] == '/' && open[1] == '/' && open[2..] == body;
    OpenLine(body);
    AllIsHidden(open);
  }

  lemma {:induction false} ClosedBlock(body: string, rest: string)
    requires forall i: nat :: i < |body| ==> NoTerminator(body + "*/", i)
    ensures BlockLength(body + "*/" + rest) == |body| + 2
    decreases |body|
  {
    var s := body + "*/" + rest;
    if |body| == 0 {
      assert s[0] == '*' && s[1] == '/';
    } else {
      var inner := body + "*/";
      assert NoTerminator(inner, 0) && s[0] == inner[0] && s[1] == inner[1];
      assert s[1..] == body[1..] + "*/" + rest;
      forall i: nat | i < |body[1..]|
        ensures NoTerminator(body[1..] + "*/", i)
      {
        assert NoTerminator(inner, i + 1);
        assert body[1..] + "*/" == inner[1..];
      }
      ClosedBlock(body[1..], rest);
    }
  }

  lemma {:induction false} OpenBlock(body: string)
    requires forall i: nat :: i < |body| ==> NoTerminator(body, i)
    ensures BlockLength(body) == |body|
    decreases |body|
  {
    if |body| > 0 {
      assert NoTerminator(body, 0);
      forall i: nat | i < |body[1..]|
        ensures NoTerminator(body[1..], i)
      {
        assert NoTerminator(body, i + 1);
      }
      OpenBlock(body[1..]);
    }
  }

  /** A block comment is hidden up to and including the first terminator. */
  lemma BlockIsHidden(body: string, rest: string)
    requires forall i: nat :: i < |body| ==> NoTerminator(body + "*/", i)
    ensures Blank("/*" + body + "*/" + rest) == Hidden(|body| + 4) + Blank(rest)
  {
    hide BlockLength, NoTerminator;
    var s := "/*" + body + "*/" + rest;
    assert s[0] == '/' && s[1] == '*' && s[2..] == body + "*/" + rest;
    ClosedBlock(body, rest);
    assert TokenLength(s) == |body| + 4;
    assert s[|body| + 4..] == rest;
  }

  lemma OpenBlockIsHidden(body: string)
    requires forall i: nat :: i < |body| ==> NoTerminator(body, i)
    ensures Blank("/*" + body) == Hidden(|body| + 2)
  {
    hide BlockLength, NoTerminator;
    var s := "/*" + body;
    assert s[0] == '/' && s[1] == '*' && s[2..] == body;
    OpenBlock(body);
    AllIsHidden(s);
  }

  // ---- code ----

  /** Every other character shows. */
  lemma CodeShows(c: char, rest: string)
    requires c != '"' && c != '\'' && c != '`'
    requires c == '/' ==> rest == "" || (rest[0] != '/' && rest[0] != '*')
    ensures Blank([c] + rest) == [Some(c)] + Blank(rest)
  {
    var s := [c] + rest;
    assert s[0] == c && s[1..] == rest;
  }

  // ---- there is nothing else ----

  /** The ways a text can begin. */
  datatype Start =
    | ShownFirst
    | ClosedString(body: string, rest: string)
    | UnclosedString(body: string, end: string)
    | EndedLine(body: string, newline: char, rest: string)
    | LastLine(body: string)
    | ClosedComment(body: string, rest: string)
    | UnclosedComment(body: string)

  ghost predicate Begins(s: string, start: Start) {
    s != ""
    && match start
       case ShownFirst =>
         s[0] != '"' && s[0] != '\'' && s[0] != '`'
         && (s[0] == '/' ==> |s| == 1 || (s[1] != '/' && s[1] != '*'))
       case ClosedString(body, rest) =>
         (s[0] == '"' || s[0] == '\'' || s[0] == '`') && StringBody(body, s[0]) && s == [s[0]] + body + [s[0]] + rest
       case UnclosedString(body, end) =>
         (s[0] == '"' || s[0] == '\'' || s[0] == '`') && StringBody(body, s[0])
         && (end == "" || end == "\\") && s == [s[0]] + (body + end)
       case EndedLine(body, newline, rest) =>
         OneLine(body) && (newline == '\n' || newline == '\r') && s == "//" + body + [newline] + rest
       case LastLine(body) => OneLine(body) && s == "//" + body
       case ClosedComment(body, rest) =>
         (forall i: nat :: i < |body| ==> NoTerminator(body + "*/", i)) && s == "/*" + body + "*/" + rest
       case UnclosedComment(body) => (forall i: nat :: i < |body| ==> NoTerminator(body, i)) && s == "/*" + body
  }

  lemma {:induction false} StringDivides(s: string, quote: char) returns (body: string, end: string)
    requires quote != '\\'
    ensures StringBody(body, quote)
    ensures s == body + end && (end == "" || end == "\\" || end[0] == quote)
    decreases |s|
  {
    if s == "" || s[0] == quote || s == "\\" {
      body, end := "", s;
    } else if s[0] == '\\' {
      var rest;
      rest, end := StringDivides(s[2..], quote);
      body := s[..2] + rest;
      assert body[2..] == rest && s == s[..2] + s[2..];
    } else {
      var rest;
      rest, end := StringDivides(s[1..], quote);
      body := [s[0]] + rest;
      assert body[1..] == rest && s == [s[0]] + s[1..];
    }
  }

  lemma {:induction false} LineDivides(s: string) returns (body: string, end: string)
    ensures OneLine(body) && s == body + end && (end == "" || end[0] == '\n' || end[0] == '\r')
    decreases |s|
  {
    if s == "" || s[0] == '\n' || s[0] == '\r' {
      body, end := "", s;
    } else {
      var rest;
      rest, end := LineDivides(s[1..]);
      body := [s[0]] + rest;
      assert s == [s[0]] + s[1..];
    }
  }

  lemma {:induction false} BlockDivides(s: string) returns (body: string, end: string)
    ensures s == body + end && (end == "" || (|end| >= 2 && end[0] == '*' && end[1] == '/'))
    ensures forall i: nat :: i < |body| ==> NoTerminator(s, i)
    decreases |s|
  {
    if s == "" || !NoTerminator(s, 0) {
      body, end := "", s;
    } else {
      var rest;
      rest, end := BlockDivides(s[1..]);
      body := [s[0]] + rest;
      assert s == [s[0]] + s[1..];
      forall i: nat | i < |body|
        ensures NoTerminator(s, i)
      {
        if i > 0 {
          assert NoTerminator(s[1..], i - 1);
        }
      }
    }
  }

  lemma StringBegins(s: string) returns (start: Start)
    requires s != "" && (s[0] == '"' || s[0] == '\'' || s[0] == '`')
    ensures Begins(s, start)
  {
    hide StringBody;
    var body, end := StringDivides(s[1..], s[0]);
    assert s == [s[0]] + s[1..];
    if end == "" || end == "\\" {
      start := UnclosedString(body, end);
    } else {
      start := ClosedString(body, end[1..]);
      assert end == [end[0]] + end[1..];
      assert s == [s[0]] + body + [s[0]] + end[1..];
    }
  }

  lemma LineBegins(s: string) returns (start: Start)
    requires |s| >= 2 && s[0] == '/' && s[1] == '/'
    ensures Begins(s, start)
  {
    var body, end := LineDivides(s[2..]);
    assert s == "//" + s[2..];
    if end == "" {
      start := LastLine(body);
      assert s == "//" + body;
    } else {
      start := EndedLine(body, end[0], end[1..]);
      assert end == [end[0]] + end[1..];
      assert s == "//" + body + [end[0]] + end[1..];
    }
  }

  lemma TerminatorInPrefix(s: string, x: string, y: string, i: nat)
    requires s == x + y && NoTerminator(s, i)
    ensures NoTerminator(x, i)
  {
  }

  lemma BlockBegins(s: string) returns (start: Start)
    requires |s| >= 2 && s[0] == '/' && s[1] == '*'
    ensures Begins(s, start)
  {
    hide NoTerminator;
    var body, end := BlockDivides(s[2..]);
    assert s == "/*" + s[2..];
    if end == "" {
      start := UnclosedComment(body);
      assert s[2..] == body;
    } else {
      start := ClosedComment(body, end[2..]);
      assert end == "*/" + end[2..];
      assert s == "/*" + body + "*/" + end[2..];
      forall i: nat | i < |body|
        ensures NoTerminator(body + "*/", i)
      {
        TerminatorInPrefix(s[2..], body + "*/", end[2..], i);
      }
    }
  }

  /** Every text begins in one of these ways, so the laws above say what all of it looks like. */
  lemma TextBegins(s: string)
    requires s != ""
    ensures exists start :: Begins(s, start)
  {
    hide StringBody, NoTerminator, OneLine;
    if s[0] == '"' || s[0] == '\'' || s[0] == '`' {
      var start := StringBegins(s);
    } else if |s| >= 2 && s[0] == '/' && s[1] == '/' {
      var start := LineBegins(s);
    } else if |s| >= 2 && s[0] == '/' && s[1] == '*' {
      var start := BlockBegins(s);
    } else {
      assert Begins(s, ShownFirst);
    }
  }
}
