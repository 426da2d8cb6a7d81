/** RESP2 said apart from the printers and readers of `Resp`: a reply or a command and its bytes,
    written with the protocol's own characters, and numbers by place value. What is printed has
    this form, and whatever has this form is read as what it stands for. */
module RespGrammar {
  import opened Prelude
  import opened Bytes
  import opened Resp

  // ----- characters and numerals -----

  predicate IsAscii(s: string) {
    forall c :: c in s ==> (c as int) < 128
  }

  function Ascii(s: string): bytes
    requires IsAscii(s)
  {
    seq(|s|, i requires 0 <= i < |s| => assert s[i] in s; (s[i] as int) as byte)
  }

  function Pow10(n: nat): nat {
    if n == 0 then 1 else 10 * Pow10(n - 1)
  }

  predicate AllDigits(s: bytes) {
    forall b :: b in s ==> '0' as int <= b as int <= '9' as int
  }

  // What decimal digits are worth, each by its place.
  function Value(s: bytes): nat
    requires AllDigits(s)
  {
    if s == [] then 0
    else
      assert s[0] in s && forall b :: b in s[1..] ==> b in s;
      (s[0] as int - '0' as int) * Pow10(|s| - 1) + Value(s[1..])
  }

  predicate Numeral(s: bytes, n: nat) {
    s != [] && AllDigits(s) && Value(s) == n
  }

  // An optional sign and a numeral.
  predicate Signed(s: bytes, n: int) {
    || (n >= 0 && Numeral(s, n))
    || (n >= 0 && s != [] && s[0] as int == '+' as int && Numeral(s[1..], n))
    || (n <= 0 && s != [] && s[0] as int == '-' as int && Numeral(s[1..], -n))
  }

  lemma {:induction false} ValueSnoc(s: bytes, d: byte)
    requires AllDigits(s + [d])
    ensures AllDigits(s) && AllDigits([d])
    ensures Value(s + [d]) == 10 * Value(s) + (d as int - '0' as int)
  {
    assert d in s + [d];
    forall b | b in s ensures b in s + [d] {}
    if s == [] {
      assert s + [d] == [d];
      assert Value([d][1..]) == 0;
    } else {
      assert (s + [d])[1..] == s[1..] + [d];
      forall b | b in s[1..] + [d] ensures b in s + [d] {}
      ValueSnoc(s[1..], d);
      Carry(s[0] as int - '0' as int, Pow10(|s| - 1));
    }
  }

  lemma Carry(d: int, p: nat)
    ensures d * (10 * p) == 10 * (d * p)
  {
  }

  // A number is printed as its numeral, without a leading zero.
  lemma {:induction false} PrintNatIsNumeral(n: nat)
    ensures Numeral(PrintNat(n), n)
    ensures |PrintNat(n)| > 1 ==> PrintNat(n)[0] as int != '0' as int
  {
    if n < 10 {
      assert Value(PrintNat(n)[1..]) == 0;
    } else {
      PrintNatIsNumeral(n / 10);
      ValueSnoc(PrintNat(n / 10), ZERO + (n % 10) as byte);
      if |PrintNat(n / 10)| == 1 {
        assert PrintNat(n / 10)[1..] == [];
      }
    }
  }

  lemma PrintIntIsSigned(n: int)
    ensures Signed(PrintInt(n), n)
  {
    PrintNatIsNumeral(if n < 0 then -n else n);
    if n < 0 {
      assert PrintInt(n)[1..] == PrintNat(-n);
    }
  }

  lemma {:induction false} NumeralParses(s: bytes, n: nat)
    requires Numeral(s, n)
    ensures ParseNat(s) == Some(n)
  {
    var front, d := s[..|s| - 1], s[|s| - 1];
    assert s == front + [d];
    ValueSnoc(front, d);
    assert d in s;
    if front == [] {
      assert Value(front) == 0;
    } else {
      assert front[|front| - 1] in front;
      NumeralParses(front, Value(front));
    }
  }

  lemma SignedParses(s: bytes, n: int)
    requires Signed(s, n)
    ensures ParseInt(s) == Some(n) && NoCrlf(s)
  {
    SignedIsPlain(s, n);
    StripNothing(s);
    if n >= 0 && Numeral(s, n) {
      NumeralParses(s, n);
      assert s[0] in s;
    } else {
      NumeralParses(s[1..], if n >= 0 then n else -n);
    }
  }

  lemma SignedIsPlain(s: bytes, n: int)
    requires Signed(s, n)
    ensures s != [] && (forall b :: b in s ==> !IsSpace(b)) && NoCrlf(s)
  {
    forall b | b in s ensures !IsSpace(b) {
      assert b == s[0] || b in s[1..];
    }
    forall i | 0 <= i < |s| ensures s[i] != CR {
      assert s[i] in s;
    }
  }

  // ----- replies -----

  function Concat(parts: seq<bytes>): bytes {
    if parts == [] then [] else parts[0] + Concat(parts[1..])
  }

  predicate IsBulk(data: bytes, digits: bytes, s: bytes) {
    Numeral(digits, |data|) && s == Ascii("$") + digits + Ascii("\r\n") + data + Ascii("\r\n")
  }

  ghost predicate BulkForm(data: bytes, s: bytes) {
    exists digits :: IsBulk(data, digits, s)
  }

  // An array header and the parts that follow it.
  predicate IsArray(parts: seq<bytes>, digits: bytes, s: bytes) {
    Numeral(digits, |parts|) && s == Ascii("*") + digits + Ascii("\r\n") + Concat(parts)
  }

  // `s` is a RESP2 form of the reply: one clause a kind.
  ghost predicate IsReply(r: Reply, s: bytes) {
    match r
    case Nil => s == Ascii("$-1\r\n")
    case Simple(text) => s == Ascii("+") + text + Ascii("\r\n")
    case Error(text) => s == Ascii("-") + text + Ascii("\r\n")
    case Int(n) => exists digits :: Signed(digits, n) && s == Ascii(":") + digits + Ascii("\r\n")
    case Bulk(data) => BulkForm(data, s)
    case Array(items) =>
      exists digits, parts :: IsArray(parts, digits, s) && |parts| == |items|
        && forall i :: 0 <= i < |items| ==> IsReply(items[i], parts[i])
  }

  // `s` is a RESP2 form of the command: an array of bulk strings.
  ghost predicate IsCommand(args: seq<bytes>, s: bytes) {
    exists digits, parts :: IsArray(parts, digits, s) && |parts| == |args|
      && forall i :: 0 <= i < |args| ==> BulkForm(args[i], parts[i])
  }

  lemma Characters()
    ensures Ascii("\r\n") == CRLF && Ascii("$") == [DOLLAR] && Ascii("+") == [PLUS] && Ascii("-") == [MINUS]
    ensures Ascii(":") == [COLON] && Ascii("*") == [STAR] && Ascii("$-1\r\n") == [DOLLAR] + PrintInt(-1) + CRLF
  {
    assert PrintInt(-1) == [MINUS, ZERO + 1];
  }

  lemma BulkHasForm(data: bytes)
    ensures IsBulk(data, PrintNat(|data|), EncodeBulk(data))
  {
    hide Numeral, PrintNat, Ascii;
    Characters();
    PrintNatIsNumeral(|data|);
    Regroup([DOLLAR] + PrintNat(|data|) + CRLF, data, CRLF);
  }

  lemma Regroup(a: bytes, b: bytes, c: bytes)
    ensures a + (b + c) == a + b + c
  {
  }

  function Encoded(items: seq<Reply>): (parts: seq<bytes>)
    ensures |parts| == |items| && forall i :: 0 <= i < |items| ==> parts[i] == Encode(items[i])
  {
    seq(|items|, i requires 0 <= i < |items| => Encode(items[i]))
  }

  lemma {:induction false} EncodeItemsJoins(items: seq<Reply>)
    ensures EncodeItems(items) == Concat(Encoded(items))
  {
    hide Encode;
    if items != [] {
      EncodeItemsJoins(items[1..]);
      assert Encoded(items)[1..] == Encoded(items[1..]);
    }
  }

  /** Every reply is printed in its RESP2 form. */
  lemma {:induction false} EncodeHasForm(r: Reply)
    ensures IsReply(r, Encode(r))
    decreases r
  {
    Characters();
    hide Numeral, Signed, PrintNat, PrintInt, Ascii, IsBulk, EncodeBulk;
    match r {
      case Int(n) => PrintIntIsSigned(n);
      case Bulk(data) => BulkHasForm(data);
      case Array(items) =>
        PrintNatIsNumeral(|items|);
        EncodeItemsJoins(items);
        forall i | 0 <= i < |items| ensures IsReply(items[i], Encoded(items)[i]) {
          EncodeHasForm(items[i]);
        }
        assert IsArray(Encoded(items), PrintNat(|items|), Encode(r));
      case _ =>
    }
  }

  function Bulks(args: seq<bytes>): (parts: seq<bytes>)
    ensures |parts| == |args| && forall i :: 0 <= i < |args| ==> parts[i] == EncodeBulk(args[i])
  {
    seq(|args|, i requires 0 <= i < |args| => EncodeBulk(args[i]))
  }

  lemma {:induction false} EncodeBulksJoins(args: seq<bytes>)
    ensures EncodeBulks(args) == Concat(Bulks(args))
  {
    hide EncodeBulk;
    if args != [] {
      EncodeBulksJoins(args[1..]);
      assert Bulks(args)[1..] == Bulks(args[1..]);
    }
  }

  /** Every command is printed in its RESP2 form. */
  lemma EncodeCommandHasForm(args: seq<bytes>)
    ensures IsCommand(args, EncodeCommand(args))
  {
    hide Numeral, PrintNat, Ascii, IsBulk, EncodeBulk;
    Characters();
    PrintNatIsNumeral(|args|);
    EncodeBulksJoins(args);
    forall i | 0 <= i < |args| ensures BulkForm(args[i], Bulks(args)[i]) {
      BulkHasForm(args[i]);
    }
    assert IsArray(Bulks(args), PrintNat(|args|), EncodeCommand(args));
  }

  // ----- reading what has the form -----

  // A kind, a number, and what comes after.
  lemma NumberedLine(kind: byte, digits: bytes, n: int, rest: bytes)
    requires Signed(digits, n) && kind != CR
    ensures Line([kind] + digits + CRLF + rest) == Some(([kind] + digits, rest))
    ensures ([kind] + digits)[1..] == digits && ParseInt(digits) == Some(n)
  {
    hide Signed, ParseInt, Line;
    SignedParses(digits, n);
    TextLine(kind, digits, rest);
  }

  lemma NumeralIsSigned(digits: bytes, n: nat)
    requires Numeral(digits, n)
    ensures Signed(digits, n)
  {
  }

  lemma BulkIsRead(data: bytes, digits: bytes, s: bytes, rest: bytes)
    requires IsBulk(data, digits, s)
    ensures Line(s + rest) == Some(([DOLLAR] + digits, data + CRLF + rest))
    ensures ([DOLLAR] + digits)[1..] == digits && ParseInt(digits) == Some(|data|)
    ensures Sized(|data|, data + CRLF + rest) == (Ok(data), rest)
    ensures OneBulk(s + rest) == (Ok(data), rest)
  {
    hide Numeral, Signed, Line, ParseInt, Sized, Ascii;
    Characters();
    NumeralIsSigned(digits, |data|);
    NumberedLine(DOLLAR, digits, |data|, data + CRLF + rest);
    assert s + rest == [DOLLAR] + digits + CRLF + (data + CRLF + rest);
    SizedReadsBack(data, rest);
  }

  lemma {:induction false} BulksAreRead(args: seq<bytes>, parts: seq<bytes>, rest: bytes)
    requires |parts| == |args| && forall i :: 0 <= i < |args| ==> BulkForm(args[i], parts[i])
    ensures ManyBulks(|args|, Concat(parts) + rest) == (Ok(args), rest)
  {
    hide IsBulk, OneBulk, Line, ParseInt, Sized;
    if args == [] {
      assert Concat(parts) + rest == rest;
    } else {
      var ds :| IsBulk(args[0], ds, parts[0]);
      var tail := Concat(parts[1..]) + rest;
      assert Concat(parts) + rest == parts[0] + tail;
      BulkIsRead(args[0], ds, parts[0], tail);
      forall i | 0 <= i < |args[1..]| ensures BulkForm(args[1..][i], parts[1..][i]) {
        assert args[1..][i] == args[i + 1] && parts[1..][i] == parts[i + 1];
      }
      BulksAreRead(args[1..], parts[1..], rest);
      assert args == [args[0]] + args[1..];
    }
  }

  /** Whatever bytes have the form of a command are read as that command, and no further. */
  lemma CommandIsRead(args: seq<bytes>, s: bytes, rest: bytes)
    requires IsCommand(args, s)
    ensures ReadCommand(s + rest) == (Ok(args), rest)
  {
    hide IsArray, BulkForm, Line, ParseInt, ManyBulks;
    var digits, parts :| IsArray(parts, digits, s) && |parts| == |args|
      && forall i :: 0 <= i < |args| ==> BulkForm(args[i], parts[i]);
    ArrayHeader(parts, digits, s, rest);
    BulksAreRead(args, parts, rest);
    if args == [] {
      assert Concat(parts) + rest == rest;
    }
  }

  lemma ArrayHeader(parts: seq<bytes>, digits: bytes, s: bytes, rest: bytes)
    requires IsArray(parts, digits, s)
    ensures Line(s + rest) == Some(([STAR] + digits, Concat(parts) + rest))
    ensures ([STAR] + digits)[1..] == digits && ParseInt(digits) == Some(|parts|)
  {
    hide Numeral, Signed, Line, ParseInt, Ascii, Concat;
    Characters();
    NumeralIsSigned(digits, |parts|);
    NumberedLine(STAR, digits, |parts|, Concat(parts) + rest);
    Regroup([STAR] + digits + CRLF, Concat(parts), rest);
  }

  /** Whatever bytes have the form of a reply whose texts and payloads are UTF-8 and whose simple
      strings and errors hold no CRLF are read as that reply, and no further. */
  lemma {:induction false} ReplyIsRead(utf8: Utf8, r: Reply, s: bytes, rest: bytes)
    requires IsReply(r, s) && Clean(utf8, r)
    ensures ReadReply(utf8, s + rest) == (Ok(r), rest)
    decreases r, 0
  {
    hide IsArray, IsBulk, Signed, Line, ParseInt, PrintInt, Sized, NoCrlf, Ascii, Concat;
    Characters();
    match r {
      case Nil => NumberLine(DOLLAR, -1, rest);
      case Simple(text) => TextLine(PLUS, text, rest);
      case Error(text) => TextLine(MINUS, text, rest);
      case Int(n) =>
        var digits :| Signed(digits, n) && s == Ascii(":") + digits + Ascii("\r\n");
        NumberedLine(COLON, digits, n, rest);
      case Bulk(data) =>
        var digits :| IsBulk(data, digits, s);
        BulkIsRead(data, digits, s, rest);
      case Array(items) =>
        var digits, parts :| IsArray(parts, digits, s) && |parts| == |items|
          && forall i :: 0 <= i < |items| ==> IsReply(items[i], parts[i]);
        ArrayHeader(parts, digits, s, rest);
        RepliesAreRead(utf8, items, parts, rest);
    }
  }

  lemma {:induction false} RepliesAreRead(utf8: Utf8, items: seq<Reply>, parts: seq<bytes>, rest: bytes)
    requires |parts| == |items|
    requires forall i :: 0 <= i < |items| ==> IsReply(items[i], parts[i]) && Clean(utf8, items[i])
    ensures ReadReplies(utf8, |items|, Concat(parts) + rest) == (Ok(items), rest)
    decreases items, 1
  {
    hide ReadReply, IsReply, Clean;
    if items == [] {
      assert Concat(parts) + rest == rest;
    } else {
      var tail := Concat(parts[1..]) + rest;
      assert Concat(parts) + rest == parts[0] + tail;
      ReplyIsRead(utf8, items[0], parts[0], tail);
      forall i | 0 <= i < |items[1..]| ensures IsReply(items[1..][i], parts[1..][i]) && Clean(utf8, items[1..][i]) {
        assert items[1..][i] == items[i + 1] && parts[1..][i] == parts[i + 1];
      }
      RepliesAreRead(utf8, items[1..], parts[1..], rest);
      assert items == [items[0]] + items[1..];
    }
  }
}
