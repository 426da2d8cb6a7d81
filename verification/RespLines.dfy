/** The texts on a RESP line, said apart from their parsers: which texts Python's `int` takes for
    which number, how an inline command splits into words, and which requests and replies are
    refused (`imustore/resp.py`). */
module RespLines {
  import opened Prelude
  import opened Bytes
  import opened Resp
  import opened RespGrammar

  // ----- which texts are integers -----

  predicate Blank(b: byte) {
    || b as int == ' ' as int || b as int == '\t' as int || b as int == '\n' as int || b as int == '\r' as int
    || b == 0x0B || b == 0x0C
  }

  predicate AllBlank(s: bytes) {
    forall i :: 0 <= i < |s| ==> Blank(s[i])
  }

  predicate Digit(b: byte) {
    '0' as int <= b as int <= '9' as int
  }

  predicate Underscore(b: byte) {
    b as int == '_' as int
  }

  // Digits, and underscores that each stand between two digits.
  predicate Grouped(s: bytes) {
    s != [] && forall i :: 0 <= i < |s| ==> GroupedAt(s, i)
  }

  predicate GroupedAt(s: bytes, i: nat)
    requires i < |s|
  {
    Digit(s[i]) || (Underscore(s[i]) && 0 < i < |s| - 1 && Digit(s[i - 1]) && Digit(s[i + 1]))
  }

  lemma GroupedEnds(s: bytes)
    requires Grouped(s)
    ensures Digit(s[0]) && Digit(s[|s| - 1])
  {
    assert GroupedAt(s, 0) && GroupedAt(s, |s| - 1);
  }

  function Digits(s: bytes): (d: bytes)
    ensures AllDigits(d)
  {
    if s == [] then []
    else
      var front, last := Digits(s[..|s| - 1]), s[|s| - 1];
      if Digit(last) then
        assert forall b :: b in front + [last] ==> b in front || b == last;
        front + [last]
      else front
  }

  // An optional sign, and grouped digits.
  predicate SignedGroups(s: bytes, n: int) {
    || (n >= 0 && Grouped(s) && Value(Digits(s)) == n)
    || (n >= 0 && s != [] && s[0] as int == '+' as int && Grouped(s[1..]) && Value(Digits(s[1..])) == n)
    || (n <= 0 && s != [] && s[0] as int == '-' as int && Grouped(s[1..]) && Value(Digits(s[1..])) == -n)
  }

  predicate Around(text: bytes, pre: bytes, body: bytes, post: bytes) {
    AllBlank(pre) && AllBlank(post) && text == pre + body + post
  }

  ghost predicate IntegerText(text: bytes, n: int) {
    exists pre, body, post :: Around(text, pre, body, post) && SignedGroups(body, n)
  }

  lemma GroupedFront(s: bytes)
    requires |s| > 1 && Digit(s[|s| - 1])
    ensures var front := s[..|s| - 1];
            var rest := if Underscore(front[|front| - 1]) then front[..|front| - 1] else front;
            && (Grouped(s) <==> Grouped(rest)) && |rest| < |s|
            && Digits(s) == Digits(rest) + [s[|s| - 1]]
  {
    var front := s[..|s| - 1];
    var rest := if Underscore(front[|front| - 1]) then front[..|front| - 1] else front;
    assert forall i :: 0 <= i < |rest| ==> rest[i] == s[i];
    if Grouped(rest) {
      GroupedEnds(rest);
      forall i | 0 <= i < |s| ensures GroupedAt(s, i) {
        assert i < |rest| ==> GroupedAt(rest, i);
      }
    }
    if Grouped(s) {
      assert GroupedAt(s, |s| - 2);
      forall i | 0 <= i < |rest| ensures GroupedAt(rest, i) {
        assert GroupedAt(s, i);
      }
    }
    assert Digits(s) == Digits(front) + [s[|s| - 1]];
  }

  lemma NotGrouped(s: bytes)
    requires s == [] || !Digit(s[|s| - 1])
    ensures !Grouped(s)
  {
    if Grouped(s) {
      GroupedEnds(s);
    }
  }

  lemma OneDigit(d: byte)
    requires Digit(d)
    ensures Grouped([d]) && Digits([d]) == [d] && Value([d]) == d as int - '0' as int
  {
    assert [d][..0] == [] && Value([d][1..]) == 0;
  }

  lemma {:induction false} ParseNatIff(s: bytes)
    ensures ParseNat(s).Some? <==> Grouped(s)
    ensures Grouped(s) ==> ParseNat(s) == Some(Value(Digits(s)))
    decreases |s|
  {
    hide Grouped, Digits, Value;
    if s == [] || !Digit(s[|s| - 1]) {
      NotGrouped(s);
    } else {
      var front, d := s[..|s| - 1], s[|s| - 1];
      if front == [] {
        assert s == [d];
        OneDigit(d);
      } else {
        GroupedFront(s);
        var rest := if Underscore(front[|front| - 1]) then front[..|front| - 1] else front;
        ParseNatIff(rest);
        ValueSnoc(Digits(rest), d);
      }
    }
  }

  lemma BlankBefore(s: bytes, pre: bytes, body: bytes, post: bytes)
    requires s != [] && Blank(s[0]) && Around(s[1..], pre, body, post)
    ensures Around(s, [s[0]] + pre, body, post)
  {
    assert s == [s[0]] + s[1..];
    assert [s[0]] + (pre + body + post) == [s[0]] + pre + body + post;
  }

  lemma BlankAfter(s: bytes, pre: bytes, body: bytes, post: bytes)
    requires s != [] && Blank(s[|s| - 1]) && Around(s[..|s| - 1], pre, body, post)
    ensures Around(s, pre, body, post + [s[|s| - 1]])
  {
    assert s == s[..|s| - 1] + [s[|s| - 1]];
  }

  lemma {:induction false} StripAround(s: bytes) returns (pre: bytes, post: bytes)
    ensures Around(s, pre, Strip(s), post)
    ensures var t := Strip(s); t != [] ==> !Blank(t[0]) && !Blank(t[|t| - 1])
    decreases |s|
  {
    if s == [] {
      pre, post := [], [];
    } else if IsSpace(s[0]) {
      pre, post := StripAround(s[1..]);
      BlankBefore(s, pre, Strip(s[1..]), post);
      pre := [s[0]] + pre;
    } else if IsSpace(s[|s| - 1]) {
      pre, post := StripAround(s[..|s| - 1]);
      BlankAfter(s, pre, Strip(s[..|s| - 1]), post);
      post := post + [s[|s| - 1]];
    } else {
      pre, post := [], [];
    }
  }

  lemma {:induction false} StripIs(s: bytes, pre: bytes, body: bytes, post: bytes)
    requires Around(s, pre, body, post) && body != [] && !Blank(body[0]) && !Blank(body[|body| - 1])
    ensures Strip(s) == body
    decreases |s|
  {
    if pre != [] {
      assert s[0] == pre[0] && s[1..] == pre[1..] + body + post;
      StripIs(s[1..], pre[1..], body, post);
    } else if post != [] {
      assert s[0] == body[0] && s[|s| - 1] == post[|post| - 1];
      assert s[..|s| - 1] == pre + body + post[..|post| - 1];
      StripIs(s[..|s| - 1], pre, body, post[..|post| - 1]);
    } else {
      assert s == body;
    }
  }

  lemma SignedEnds(s: bytes, n: int)
    requires SignedGroups(s, n)
    ensures s != [] && !Blank(s[0]) && !Blank(s[|s| - 1])
  {
    if Grouped(s) {
      GroupedEnds(s);
    } else {
      GroupedEnds(s[1..]);
    }
  }

  lemma StrippedParses(s: bytes, n: int)
    requires s != [] && Strip(s) == s
    ensures ParseInt(s) == Some(n) <==> SignedGroups(s, n)
  {
    hide Grouped, Digits, Value, ParseNat;
    ParseNatIff(s);
    ParseNatIff(s[1..]);
    if Grouped(s) {
      GroupedEnds(s);
    }
  }

  /** A text is parsed as an integer exactly when it is one: blanks around an optional sign and
      digits with single underscores between them, worth their decimal value. */
  lemma ParseIntIff(text: bytes, n: int)
    ensures ParseInt(text) == Some(n) <==> IntegerText(text, n)
  {
    hide SignedGroups;
    var s := Strip(text);
    var pre, post := StripAround(text);
    if s != [] {
      StripIs(s, [], s, []);
      StrippedParses(s, n);
      assert ParseInt(text) == ParseInt(s);
    }
    if IntegerText(text, n) {
      var p, body, q :| Around(text, p, body, q) && SignedGroups(body, n);
      SignedEnds(body, n);
      StripIs(text, p, body, q);
    }
  }

  // ----- how a line splits into words -----

  predicate IsWord(w: bytes) {
    w != [] && forall i :: 0 <= i < |w| ==> !Blank(w[i])
  }

  // After `gap` blanks comes the word `w`, and then the line ends or another blank follows.
  predicate WordAt(w: bytes, line: bytes, gap: nat) {
    && IsWord(w) && gap + |w| <= |line|
    && AllBlank(line[..gap]) && line[gap..gap + |w|] == w
    && (gap + |w| < |line| ==> Blank(line[gap + |w|]))
  }

  // The line is the words `ws`, in order, with blanks between and around them.
  ghost predicate Spaced(ws: seq<bytes>, line: bytes)
    decreases |ws|
  {
    if ws == [] then AllBlank(line)
    else exists gap: nat :: WordAt(ws[0], line, gap) && Spaced(ws[1..], line[gap + |ws[0]|..])
  }

  lemma {:induction false} WordLengthIs(w: bytes, line: bytes)
    requires |w| <= |line| && line[..|w|] == w && (forall i :: 0 <= i < |w| ==> !Blank(w[i]))
    requires |w| < |line| ==> Blank(line[|w|])
    ensures WordLength(line) == |w|
  {
    if w != [] {
      assert line[0] == w[0];
      assert line[1..][..|w[1..]|] == w[1..] by {
        assert line[..|w|][1..] == line[1..|w|];
      }
      WordLengthIs(w[1..], line[1..]);
    }
  }

  lemma {:induction false} BlankHasNoWords(line: bytes)
    requires AllBlank(line)
    ensures Words(line) == []
  {
    if line != [] {
      BlankHasNoWords(line[1..]);
    }
  }

  lemma SkipGap(line: bytes, gap: nat)
    requires gap <= |line| && AllBlank(line[..gap])
    ensures Words(line) == Words(line[gap..])
    decreases gap
  {
    if gap == 0 {
      assert line[0..] == line;
    } else {
      assert line[0] == line[..gap][0];
      assert line[1..][..gap - 1] == line[..gap][1..];
      SkipGap(line[1..], gap - 1);
      assert line[1..][gap - 1..] == line[gap..];
    }
  }

  lemma FirstWord(w: bytes, line: bytes, gap: nat)
    requires WordAt(w, line, gap)
    ensures Words(line) == [w] + Words(line[gap + |w|..])
  {
    var l := line[gap..];
    SkipGap(line, gap);
    assert l[..|w|] == w && l[0] == w[0];
    WordLengthIs(w, l);
    assert l[|w|..] == line[gap + |w|..];
  }

  lemma {:induction false} SpacedSplits(ws: seq<bytes>, line: bytes)
    requires Spaced(ws, line)
    ensures Words(line) == ws
    decreases |ws|
  {
    if ws == [] {
      BlankHasNoWords(line);
    } else {
      hide Words, WordAt;
      var gap: nat :| WordAt(ws[0], line, gap) && Spaced(ws[1..], line[gap + |ws[0]|..]);
      FirstWord(ws[0], line, gap);
      SpacedSplits(ws[1..], line[gap + |ws[0]|..]);
      assert ws == [ws[0]] + ws[1..];
    }
  }

  lemma {:induction false} SplitIsSpaced(line: bytes)
    ensures Spaced(Words(line), line)
    decreases |line|
  {
    if line == [] {
    } else if IsSpace(line[0]) {
      SplitIsSpaced(line[1..]);
      BlankFirst(Words(line), line);
    } else {
      var n := WordLength(line);
      var w := line[..n];
      WordEnds(line);
      assert forall i :: 0 <= i < |w| ==> w[i] in w;
      assert line[..0] == [] && line[0..0 + n] == w;
      SplitIsSpaced(line[n..]);
      assert Words(line)[1..] == Words(line[n..]);
      assert WordAt(w, line, 0);
    }
  }

  lemma WordLater(w: bytes, line: bytes, gap: nat)
    requires line != [] && Blank(line[0]) && WordAt(w, line[1..], gap)
    ensures WordAt(w, line, gap + 1) && line[1..][gap + |w|..] == line[gap + 1 + |w|..]
  {
    var l, blanks := line[1..], line[..gap + 1];
    assert line[gap + 1..gap + 1 + |w|] == l[gap..gap + |w|];
    forall i | 0 <= i < |blanks| ensures Blank(blanks[i]) {
      assert i > 0 ==> blanks[i] == l[..gap][i - 1];
    }
  }

  lemma BlankFirst(ws: seq<bytes>, line: bytes)
    requires line != [] && Blank(line[0]) && Spaced(ws, line[1..])
    ensures Spaced(ws, line)
  {
    if ws != [] {
      hide WordAt, Blank;
      var gap: nat :| WordAt(ws[0], line[1..], gap) && Spaced(ws[1..], line[1..][gap + |ws[0]|..]);
      WordLater(ws[0], line, gap);
    }
  }

  lemma {:induction false} WordEnds(line: bytes)
    ensures WordLength(line) < |line| ==> Blank(line[WordLength(line)])
  {
    if line != [] && !IsSpace(line[0]) {
      WordEnds(line[1..]);
    }
  }

  /** A line splits into exactly the words it is made of. */
  lemma WordsIff(ws: seq<bytes>, line: bytes)
    ensures Words(line) == ws <==> Spaced(ws, line)
  {
    SplitIsSpaced(line);
    if Spaced(ws, line) {
      SpacedSplits(ws, line);
    }
  }

  // The words with one space between each two.
  function Join(ws: seq<bytes>): bytes {
    if |ws| == 0 then [] else if |ws| == 1 then ws[0] else ws[0] + Ascii(" ") + Join(ws[1..])
  }

  // Words joined by spaces split into themselves.
  lemma {:induction false} JoinSplits(ws: seq<bytes>)
    requires forall i :: 0 <= i < |ws| ==> IsWord(ws[i])
    ensures Words(Join(ws)) == ws
  {
    JoinIsSpaced(ws);
    SpacedSplits(ws, Join(ws));
  }

  lemma {:induction false} JoinIsSpaced(ws: seq<bytes>)
    requires forall i :: 0 <= i < |ws| ==> IsWord(ws[i])
    ensures Spaced(ws, Join(ws))
    decreases |ws|
  {
    if ws != [] {
      var w, line := ws[0], Join(ws);
      assert line[0..0 + |w|] == w && line[..0] == [];
      if |ws| == 1 {
        assert line[|w|..] == [];
      } else {
        JoinIsSpaced(ws[1..]);
        var rest := line[|w|..];
        assert rest == Ascii(" ") + Join(ws[1..]);
        assert rest[1..] == Join(ws[1..]);
        BlankFirst(ws[1..], rest);
      }
      assert WordAt(w, line, 0);
    }
  }

  // ----- inline commands, and what is refused -----

  lemma OneLine(line: bytes, rest: bytes)
    requires NoCrlf(line)
    ensures Line(line + Ascii("\r\n") + rest) == Some((line, rest))
  {
    Characters();
    LineReadsBack(line, rest);
  }

  predicate StartsWith(s: bytes, c: char) {
    s != [] && s[0] as int == c as int
  }

  /** A line that does not begin like an array is a command of its words. */
  lemma InlineIsRead(ws: seq<bytes>, line: bytes, rest: bytes)
    requires line != [] && !StartsWith(line, '*') && NoCrlf(line) && Spaced(ws, line)
    ensures ReadCommand(line + Ascii("\r\n") + rest) == (Ok(ws), rest)
  {
    hide Line, Words, Spaced, NoCrlf, Ascii;
    OneLine(line, rest);
    SpacedSplits(ws, line);
  }

  lemma BlankLineIsSkipped(s: bytes)
    ensures ReadCommand(Ascii("\r\n") + s) == ReadCommand(s)
  {
    hide Line, Ascii;
    OneLine([], s);
    assert [] + Ascii("\r\n") + s == Ascii("\r\n") + s;
  }

  // A count that is no integer is a protocol error; one that is not positive asks for nothing.
  lemma CountMatters(text: bytes, rest: bytes)
    requires NoCrlf(text)
    ensures (forall n :: !IntegerText(text, n)) ==>
              ReadCommand(Ascii("*") + text + Ascii("\r\n") + rest) == (BadProtocol, rest)
    ensures forall n :: IntegerText(text, n) && n <= 0 ==>
              ReadCommand(Ascii("*") + text + Ascii("\r\n") + rest) == (Ok([]), rest)
  {
    hide Line, NoCrlf, ParseInt, IntegerText, Ascii, ManyBulks;
    Characters();
    TextLine(STAR, text, rest);
    forall n ensures ParseInt(text) == Some(n) <==> IntegerText(text, n) {
      ParseIntIff(text, n);
    }
  }

  // An argument must be a bulk string, of a length that is an integer and not negative.
  lemma ArgumentMustBeBulk(digits: bytes, n: nat, header: bytes, rest: bytes)
    requires Numeral(digits, n) && n > 0 && NoCrlf(header)
    ensures var s := Ascii("*") + digits + Ascii("\r\n") + (header + Ascii("\r\n") + rest);
            && (!StartsWith(header, '$') ==> ReadCommand(s) == (BadProtocol, rest))
            && (StartsWith(header, '$') && (forall k: nat :: !IntegerText(header[1..], k)) ==>
                  ReadCommand(s) == (BadValue, rest))
  {
    hide Line, NoCrlf, ParseInt, IntegerText, Ascii, Numeral, Signed;
    Characters();
    var tail := header + Ascii("\r\n") + rest;
    NumeralIsSigned(digits, n);
    NumberedLine(STAR, digits, n, tail);
    OneLine(header, rest);
    if StartsWith(header, '$') && (forall k: nat :: !IntegerText(header[1..], k)) {
      var length := ParseInt(header[1..]);
      if length.Some? {
        ParseIntIff(header[1..], length.value);
      }
    }
  }

  // A reply must begin with one of the five kinds, and its number must be an integer.
  lemma ReplyMustBeKnown(utf8: Utf8, line: bytes, rest: bytes)
    requires NoCrlf(line)
    ensures var s := line + Ascii("\r\n") + rest;
            var numbered := StartsWith(line, ':') || StartsWith(line, '$') || StartsWith(line, '*');
            && (!StartsWith(line, '+') && !StartsWith(line, '-') && !numbered ==>
                  ReadReply(utf8, s) == (BadProtocol, rest))
            && (numbered && (forall n :: !IntegerText(line[1..], n)) ==> ReadReply(utf8, s) == (BadValue, rest))
            && (StartsWith(line, '$') && (exists n :: n < -1 && IntegerText(line[1..], n)) ==>
                  ReadReply(utf8, s) == (BadValue, rest))
  {
    hide Line, NoCrlf, ParseInt, IntegerText, Ascii;
    OneLine(line, rest);
    if line != [] {
      forall n ensures ParseInt(line[1..]) == Some(n) <==> IntegerText(line[1..], n) {
        ParseIntIff(line[1..], n);
      }
    }
  }
}
