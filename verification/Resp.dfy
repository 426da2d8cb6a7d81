/** The wire format (`imustore/resp.py`), RESP2 of the Redis serialization protocol specification:
    printers for replies and commands, and readers as functions from the bytes at hand to a result
    and the bytes left over. */
module Resp {
  import opened Prelude
  import opened Bytes

  const CR: byte := 13
  const LF: byte := 10
  const CRLF: bytes := [13, 10]
  const PLUS: byte := 43
  const MINUS: byte := 45
  const COLON: byte := 58
  const DOLLAR: byte := 36
  const STAR: byte := 42
  const ZERO: byte := 48
  const UNDERSCORE: byte := 95

  // ----- integers -----

  predicate IsDigit(b: byte) {
    48 <= b <= 57
  }

  predicate IsSpace(b: byte) {
    b == 32 || 9 <= b <= 13
  }

  function PrintNat(n: nat): (s: bytes)
    ensures s != [] && forall b :: b in s ==> IsDigit(b)
  {
    if n < 10 then [ZERO + n as byte] else PrintNat(n / 10) + [ZERO + (n % 10) as byte]
  }

  function PrintInt(n: int): bytes {
    if n < 0 then [MINUS] + PrintNat(-n) else PrintNat(n)
  }

  // Digits, with single underscores allowed between them, as `int` reads them.
  function ParseNat(s: bytes): Option<nat> {
    if s == [] || !IsDigit(s[|s| - 1]) then None
    else
      var front, d := s[..|s| - 1], (s[|s| - 1] - ZERO) as nat;
      if front == [] then Some(d)
      else
        var q := ParseNat(if front[|front| - 1] == UNDERSCORE then front[..|front| - 1] else front);
        if q.None? then None else Some(10 * q.value + d)
  }

  function Strip(s: bytes): bytes {
    if s == [] then s
    else if IsSpace(s[0]) then Strip(s[1..])
    else if IsSpace(s[|s| - 1]) then Strip(s[..|s| - 1])
    else s
  }

  // None is ValueError.
  function ParseInt(text: bytes): Option<int> {
    var s := Strip(text);
    if s == [] then None
    else if s[0] == MINUS || s[0] == PLUS then
      var n := ParseNat(s[1..]);
      if n.None? then None
      else
        var v: int := n.value;
        Some(if s[0] == MINUS then -v else v)
    else
      var n := ParseNat(s);
      if n.None? then None else Some(n.value)
  }

  // ----- printing -----

  datatype Reply =
    | Nil | Simple(text: bytes) | Error(text: bytes) | Int(value: int) | Bulk(data: bytes) | Array(items: seq<Reply>)

  function EncodeBulk(data: bytes): bytes {
    [DOLLAR] + PrintNat(|data|) + CRLF + (data + CRLF)
  }

  function Encode(r: Reply): bytes {
    match r
    case Nil => [DOLLAR] + PrintInt(-1) + CRLF
    case Simple(text) => [PLUS] + text + CRLF
    case Error(text) => [MINUS] + text + CRLF
    case Int(n) => [COLON] + PrintInt(n) + CRLF
    case Bulk(data) => EncodeBulk(data)
    case Array(items) => [STAR] + PrintNat(|items|) + CRLF + EncodeItems(items)
  }

  function EncodeItems(items: seq<Reply>): bytes {
    if items == [] then [] else Encode(items[0]) + EncodeItems(items[1..])
  }

  function EncodeBulks(args: seq<bytes>): bytes {
    if args == [] then [] else EncodeBulk(args[0]) + EncodeBulks(args[1..])
  }

  function EncodeCommand(args: seq<bytes>): bytes {
    [STAR] + PrintNat(|args|) + CRLF + EncodeBulks(args)
  }

  // ----- reading from a stream -----

  // Where the first CRLF starts, or the length if there is none.
  function FindCrlf(s: bytes): (i: nat)
    ensures i <= |s|
    ensures i < |s| ==> i + 1 < |s| && s[i] == CR && s[i + 1] == LF
  {
    if |s| < 2 then |s|
    else if s[0] == CR && s[1] == LF then 0
    else 1 + FindCrlf(s[1..])
  }

  // `readuntil(CRLF)` without the CRLF, and the rest; None is IncompleteReadError.
  function Line(s: bytes): (r: Option<(bytes, bytes)>)
    ensures r.Some? ==> |r.value.1| < |s|
  {
    var i := FindCrlf(s);
    if i == |s| then None else Some((s[..i], s[i + 2..]))
  }

  datatype Result<T> = Ok(value: T) | Eof | BadProtocol | BadValue

  // Which bytes decode as UTF-8 text. Nothing else of the encoding matters to the format.
  type Utf8 = bytes -> bool

  // A length, that many bytes and two more; a negative length is ValueError.
  function Sized(length: int, s: bytes): (r: (Result<bytes>, bytes))
    ensures |r.1| <= |s|
  {
    if length < 0 then (BadValue, s)
    else if length + 2 > |s| then (Eof, [])
    else (Ok(s[..length]), s[length + 2..])
  }

  function OneBulk(s: bytes): (r: (Result<bytes>, bytes))
    ensures |r.1| <= |s|
  {
    var line := Line(s);
    if line.None? then (Eof, [])
    else
      var (header, rest) := line.value;
      if header == [] || header[0] != DOLLAR then (BadProtocol, rest)
      else
        var length := ParseInt(header[1..]);
        if length.None? then (BadValue, rest) else Sized(length.value, rest)
  }

  function ManyBulks(count: nat, s: bytes): (r: (Result<seq<bytes>>, bytes))
    ensures |r.1| <= |s|
  {
    if count == 0 then (Ok([]), s)
    else
      var (first, rest) := OneBulk(s);
      match first
      case Ok(data) =>
        var (more, after) := ManyBulks(count - 1, rest);
        (if more.Ok? then Ok([data] + more.value) else more, after)
      case Eof => (Eof, rest)
      case BadProtocol => (BadProtocol, rest)
      case BadValue => (BadValue, rest)
  }

  // The words of an inline command.
  function Words(line: bytes): (ws: seq<bytes>)
    ensures forall w :: w in ws ==> w != [] && forall b :: b in w ==> !IsSpace(b)
    decreases |line|
  {
    if line == [] then []
    else if IsSpace(line[0]) then Words(line[1..])
    else
      var n := WordLength(line);
      [line[..n]] + Words(line[n..])
  }

  function WordLength(line: bytes): (n: nat)
    ensures n <= |line| && (forall b :: b in line[..n] ==> !IsSpace(b))
    ensures line != [] && !IsSpace(line[0]) ==> n > 0
  {
    if line == [] || IsSpace(line[0]) then 0
    else
      var n := WordLength(line[1..]);
      assert line[..n + 1] == [line[0]] + line[1..][..n];
      n + 1
  }

  // One request. Blank lines are skipped, a line not starting with `*` is an inline command, and a
  // count that is not positive gives no arguments.
  function ReadCommand(s: bytes): (r: (Result<seq<bytes>>, bytes))
    ensures r.0.Ok? ==> |r.1| < |s|
    decreases |s|
  {
    var line := Line(s);
    if line.None? then (Eof, [])
    else
      var (head, rest) := line.value;
      if head == [] then ReadCommand(rest)
      else if head[0] != STAR then (Ok(Words(head)), rest)
      else
        var count := ParseInt(head[1..]);
        if count.None? then (BadProtocol, rest)
        else if count.value <= 0 then (Ok([]), rest)
        else ManyBulks(count.value, rest)
  }

  // A payload or a text that is not UTF-8 is a UnicodeDecodeError, which is a ValueError.
  function ReadReply(utf8: Utf8, s: bytes): (r: (Result<Reply>, bytes))
    ensures |r.1| <= |s| && (r.0.Ok? ==> |r.1| < |s|)
    decreases |s|, 0
  {
    var line := Line(s);
    if line.None? then (Eof, [])
    else
      var (text, rest) := line.value;
      if text == [] then (BadProtocol, rest)
      else if text[0] in {PLUS, MINUS} && !utf8(text[1..]) then (BadValue, rest)
      else if text[0] == PLUS then (Ok(Simple(text[1..])), rest)
      else if text[0] == MINUS then (Ok(Error(text[1..])), rest)
      else if text[0] !in {COLON, DOLLAR, STAR} then (BadProtocol, rest)
      else
        var n := ParseInt(text[1..]);
        if n.None? then (BadValue, rest)
        else if text[0] == COLON then (Ok(Int(n.value)), rest)
        else if n.value == -1 then (Ok(Nil), rest)
        else if text[0] == DOLLAR then
          var (data, after) := Sized(n.value, rest);
          (match data
           case Ok(d) => (if utf8(d) then Ok(Bulk(d)) else BadValue)
           case Eof => Eof
           case BadProtocol => BadProtocol
           case BadValue => BadValue, after)
        else
          var (items, after) := ReadReplies(utf8, Max(n.value, 0), rest);
          (match items
           case Ok(d) => Ok(Array(d))
           case Eof => Eof
           case BadProtocol => BadProtocol
           case BadValue => BadValue, after)
  }

  function ReadReplies(utf8: Utf8, count: nat, s: bytes): (r: (Result<seq<Reply>>, bytes))
    ensures |r.1| <= |s|
    decreases |s|, 1, count
  {
    if count == 0 then (Ok([]), s)
    else
      var (first, rest) := ReadReply(utf8, s);
      match first
      case Ok(reply) =>
        var (more, after) := ReadReplies(utf8, count - 1, rest);
        (if more.Ok? then Ok([reply] + more.value) else more, after)
      case Eof => (Eof, rest)
      case BadProtocol => (BadProtocol, rest)
      case BadValue => (BadValue, rest)
  }

  // ----- integers read back -----

  lemma {:induction false} PrintNatParses(n: nat)
    ensures ParseNat(PrintNat(n)) == Some(n)
  {
    if n >= 10 {
      PrintNatParses(n / 10);
      var s := PrintNat(n);
      assert s[..|s| - 1] == PrintNat(n / 10);
      assert PrintNat(n / 10)[|PrintNat(n / 10)| - 1] in PrintNat(n / 10);
    }
  }

  lemma {:induction false} StripNothing(s: bytes)
    requires s != [] && forall b :: b in s ==> !IsSpace(b)
    ensures Strip(s) == s
  {
    assert s[0] in s && s[|s| - 1] in s;
  }

  lemma {:induction false} PrintIntParses(n: int)
    ensures ParseInt(PrintInt(n)) == Some(n)
  {
    var s := PrintInt(n);
    PrintNatParses(if n < 0 then -n else n);
    StripNothing(s);
    assert n >= 0 ==> s[0] in PrintNat(n);
    assert n < 0 ==> s[1..] == PrintNat(-n);
  }

  // ----- lines read back -----

  predicate NoCrlf(s: bytes) {
    forall i :: 0 <= i < |s| - 1 ==> !(s[i] == CR && s[i + 1] == LF)
  }

  lemma {:induction false} FindAfter(s: bytes, rest: bytes)
    requires NoCrlf(s)
    ensures FindCrlf(s + CRLF + rest) == |s|
  {
    var t := s + CRLF + rest;
    if s != [] {
      assert t[1..] == s[1..] + CRLF + rest;
      FindAfter(s[1..], rest);
      assert |s| > 1 ==> t[1] == s[1];
    }
  }

  // A line comes back whole exactly when it has no CRLF in it.
  lemma {:induction false} LineReadsBack(s: bytes, rest: bytes)
    ensures Line(s + CRLF + rest) == Some((s, rest)) <==> NoCrlf(s)
  {
    var t := s + CRLF + rest;
    if NoCrlf(s) {
      FindAfter(s, rest);
      assert t[..|s|] == s && t[|s| + 2..] == rest;
    }
    if !NoCrlf(s) {
      var i :| 0 <= i < |s| - 1 && s[i] == CR && s[i + 1] == LF;
      FindBefore(t, i);
    }
  }

  lemma {:induction false} FindBefore(t: bytes, i: nat)
    requires i + 1 < |t| && t[i] == CR && t[i + 1] == LF
    ensures FindCrlf(t) <= i
  {
    if i > 0 && !(t[0] == CR && t[1] == LF) { FindBefore(t[1..], i - 1); }
  }

  // The line of a number: a kind, then digits.
  lemma {:induction false} NumberLine(kind: byte, n: int, rest: bytes)
    requires kind != CR
    ensures Line([kind] + PrintInt(n) + CRLF + rest) == Some(([kind] + PrintInt(n), rest))
    ensures ([kind] + PrintInt(n))[1..] == PrintInt(n) && ParseInt(PrintInt(n)) == Some(n)
  {
    var s := [kind] + PrintInt(n);
    forall b | b in PrintInt(n) ensures b != CR {
      assert n >= 0 ==> b in PrintNat(n);
    }
    forall i | 0 <= i < |s| ensures s[i] != CR {
      assert i > 0 ==> s[i] in PrintInt(n);
    }
    LineReadsBack(s, rest);
    PrintIntParses(n);
  }

  // ----- commands -----

  lemma {:induction false} SizedReadsBack(data: bytes, rest: bytes)
    ensures Sized(|data|, data + CRLF + rest) == (Ok(data), rest)
  {
    var t := data + CRLF + rest;
    assert t[..|data|] == data && t[|data| + 2..] == rest;
  }

  lemma {:induction false} BulkLine(data: bytes, rest: bytes)
    ensures Line(EncodeBulk(data) + rest) == Some(([DOLLAR] + PrintInt(|data|), data + CRLF + rest))
    ensures ([DOLLAR] + PrintInt(|data|))[1..] == PrintInt(|data|) && ParseInt(PrintInt(|data|)) == Some(|data|)
  {
    assert EncodeBulk(data) + rest == [DOLLAR] + PrintInt(|data|) + CRLF + (data + CRLF + rest);
    NumberLine(DOLLAR, |data|, data + CRLF + rest);
  }

  lemma {:induction false} BulkReadsBack(data: bytes, rest: bytes)
    ensures OneBulk(EncodeBulk(data) + rest) == (Ok(data), rest)
  {
    hide Line, ParseInt, PrintInt, EncodeBulk, Sized;
    BulkLine(data, rest);
    SizedReadsBack(data, rest);
  }

  lemma {:induction false} BulksReadBack(args: seq<bytes>, rest: bytes)
    ensures ManyBulks(|args|, EncodeBulks(args) + rest) == (Ok(args), rest)
  {
    hide OneBulk, EncodeBulk;
    if args == [] {
      assert EncodeBulks(args) + rest == rest;
    } else {
      var tail := EncodeBulks(args[1..]) + rest;
      assert EncodeBulks(args) + rest == EncodeBulk(args[0]) + tail;
      BulkReadsBack(args[0], tail);
      BulksReadBack(args[1..], rest);
      assert args == [args[0]] + args[1..];
    }
  }

  // A command comes back with its own bytes consumed and no others, whatever its arguments hold.
  lemma {:induction false} CommandReadsBack(args: seq<bytes>, rest: bytes)
    ensures ReadCommand(EncodeCommand(args) + rest) == (Ok(args), rest)
  {
    var tail := EncodeBulks(args) + rest;
    assert EncodeCommand(args) + rest == [STAR] + PrintInt(|args|) + CRLF + tail;
    NumberLine(STAR, |args|, tail);
    BulksReadBack(args, rest);
    if args == [] { assert tail == rest; }
  }

  function EncodeCommands(commands: seq<seq<bytes>>): bytes {
    if commands == [] then [] else EncodeCommand(commands[0]) + EncodeCommands(commands[1..])
  }

  // Read requests until the stream ends or goes wrong.
  function ReadAll(s: bytes): seq<seq<bytes>>
    decreases |s|
  {
    var (r, rest) := ReadCommand(s);
    if r.Ok? then [r.value] + ReadAll(rest) else []
  }

  lemma {:induction false} NothingToRead()
    ensures ReadCommand([]) == (Eof, [])
  {
  }

  /** Any pipeline of commands is read as those commands and nothing after them. */
  lemma {:induction false} PipelineReadsBack(commands: seq<seq<bytes>>)
    ensures ReadAll(EncodeCommands(commands)) == commands
  {
    NothingToRead();
    hide ReadCommand, EncodeCommand;
    if commands != [] {
      CommandReadsBack(commands[0], EncodeCommands(commands[1..]));
      PipelineReadsBack(commands[1..]);
      assert commands == [commands[0]] + commands[1..];
    }
  }

  // ----- a stream cut short -----

  // No line ends before the CRLF has arrived.
  lemma {:induction false} CutLine(s: bytes, n: nat)
    requires NoCrlf(s) && n < |s| + 2
    ensures Line((s + CRLF)[..n]).None?
  {
    var t := (s + CRLF)[..n];
    forall i | 0 <= i < |t| - 1 ensures !(t[i] == CR && t[i + 1] == LF) {
      assert t[i + 1] == if i + 1 < |s| then s[i + 1] else CR;
    }
  }

  lemma NumberIsPlain(kind: byte, n: nat)
    requires kind != CR
    ensures NoCrlf([kind] + PrintNat(n))
  {
    var s := [kind] + PrintNat(n);
    forall i | 0 <= i < |s| ensures s[i] != CR {
      assert i > 0 ==> s[i] in PrintNat(n);
    }
  }

  // The line of a number and what follows it, cut: the line is missing, or it is read and the rest
  // is what is cut.
  lemma CutNumber(kind: byte, k: nat, rest: bytes, n: nat)
    requires kind != CR && n <= |[kind] + PrintNat(k) + CRLF + rest|
    ensures var head := [kind] + PrintNat(k);
            var l := Line((head + CRLF + rest)[..n]);
            if n < |head| + 2 then l.None? else l == Some((head, rest[..n - |head| - 2]))
    ensures ([kind] + PrintNat(k))[1..] == PrintNat(k) && ParseInt(PrintNat(k)) == Some(k)
  {
    hide Line, NoCrlf, ParseInt, PrintNat;
    var head := [kind] + PrintNat(k);
    NumberIsPlain(kind, k);
    NoSign(k);
    PrintIntParses(k);
    if n < |head| + 2 {
      assert (head + CRLF + rest)[..n] == (head + CRLF)[..n];
      CutLine(head, n);
    } else {
      assert (head + CRLF + rest)[..n] == head + CRLF + rest[..n - |head| - 2];
      LineReadsBack(head, rest[..n - |head| - 2]);
    }
  }

  lemma CutBulk(data: bytes, n: nat)
    requires n < |EncodeBulk(data)|
    ensures OneBulk(EncodeBulk(data)[..n]).0 == Eof
  {
    hide Line, ParseInt, PrintNat;
    CutNumber(DOLLAR, |data|, data + CRLF, n);
    assert EncodeBulk(data) == [DOLLAR] + PrintNat(|data|) + CRLF + (data + CRLF);
  }

  lemma {:induction false} CutBulks(args: seq<bytes>, n: nat)
    requires n < |EncodeBulks(args)|
    ensures ManyBulks(|args|, EncodeBulks(args)[..n]).0 == Eof
  {
    hide OneBulk, EncodeBulk;
    var first, more := EncodeBulk(args[0]), EncodeBulks(args[1..]);
    if n < |first| {
      assert EncodeBulks(args)[..n] == first[..n];
      CutBulk(args[0], n);
    } else {
      assert EncodeBulks(args)[..n] == first + more[..n - |first|];
      BulkReadsBack(args[0], more[..n - |first|]);
      CutBulks(args[1..], n - |first|);
    }
  }

  // A command that has not arrived in full is not read, whatever it holds.
  lemma CutCommand(args: seq<bytes>, n: nat)
    requires n < |EncodeCommand(args)|
    ensures ReadCommand(EncodeCommand(args)[..n]).0 == Eof
  {
    hide Line, ParseInt, PrintNat, ManyBulks;
    var head := [STAR] + PrintNat(|args|);
    CutNumber(STAR, |args|, EncodeBulks(args), n);
    if n >= |head| + 2 {
      CutBulks(args, n - |head| - 2);
    }
  }

  // How many of the commands lie wholly in the first `n` bytes.
  function Whole(commands: seq<seq<bytes>>, n: nat): (k: nat)
    ensures k <= |commands|
  {
    if commands == [] || n < |EncodeCommand(commands[0])| then 0
    else 1 + Whole(commands[1..], n - |EncodeCommand(commands[0])|)
  }

  // They are the most commands whose bytes fit.
  lemma {:induction false} WholeIsMost(commands: seq<seq<bytes>>, n: nat, k: nat)
    requires k <= |commands|
    ensures |EncodeCommands(commands[..k])| <= n <==> k <= Whole(commands, n)
  {
    hide EncodeCommand;
    if k > 0 {
      assert commands[..k][1..] == commands[1..][..k - 1];
      if n >= |EncodeCommand(commands[0])| {
        WholeIsMost(commands[1..], n - |EncodeCommand(commands[0])|, k - 1);
      }
    }
  }

  /** A pipeline cut anywhere is read as the commands that arrived in full, and nothing of the one
      that did not. */
  lemma {:induction false} CutPipeline(commands: seq<seq<bytes>>, n: nat)
    requires n <= |EncodeCommands(commands)|
    ensures ReadAll(EncodeCommands(commands)[..n]) == commands[..Whole(commands, n)]
  {
    NothingToRead();
    hide ReadCommand, EncodeCommand;
    if commands == [] {
      assert EncodeCommands(commands)[..n] == [];
    } else {
      var first, more := EncodeCommand(commands[0]), EncodeCommands(commands[1..]);
      if n < |first| {
        assert EncodeCommands(commands)[..n] == first[..n];
        CutCommand(commands[0], n);
      } else {
        assert EncodeCommands(commands)[..n] == first + more[..n - |first|];
        CommandReadsBack(commands[0], more[..n - |first|]);
        CutPipeline(commands[1..], n - |first|);
        var k := Whole(commands[1..], n - |first|);
        assert commands[..k + 1] == [commands[0]] + commands[1..][..k];
      }
    }
  }

  // ----- replies -----

  // Texts and payloads are UTF-8, and simple strings and errors have no CRLF of their own.
  predicate Clean(utf8: Utf8, r: Reply) {
    match r
    case Simple(text) => NoCrlf(text) && utf8(text)
    case Error(text) => NoCrlf(text) && utf8(text)
    case Bulk(data) => utf8(data)
    case Array(items) => forall i :: 0 <= i < |items| ==> Clean(utf8, items[i])
    case _ => true
  }

  lemma {:induction false} NoSign(n: nat)
    ensures PrintInt(n) == PrintNat(n)
  {
  }

  lemma {:induction false} ArrayLine(items: seq<Reply>, rest: bytes)
    ensures Line(Encode(Array(items)) + rest) == Some(([STAR] + PrintInt(|items|), EncodeItems(items) + rest))
    ensures ([STAR] + PrintInt(|items|))[1..] == PrintInt(|items|) && ParseInt(PrintInt(|items|)) == Some(|items|)
  {
    hide EncodeItems, Line, ParseInt, PrintInt, PrintNat;
    var tail := EncodeItems(items) + rest;
    NumberLine(STAR, |items|, tail);
    NoSign(|items|);
    assert Encode(Array(items)) + rest == [STAR] + PrintInt(|items|) + CRLF + tail;
  }

  lemma {:induction false} ReplyReadsBack(utf8: Utf8, r: Reply, rest: bytes)
    requires Clean(utf8, r)
    ensures ReadReply(utf8, Encode(r) + rest) == (Ok(r), rest)
    decreases r, 0
  {
    hide Line, ParseInt, PrintInt, PrintNat, EncodeBulk, Sized, NoCrlf;
    match r {
      case Nil => NumberLine(DOLLAR, -1, rest);
      case Int(n) => NumberLine(COLON, n, rest);
      case Simple(text) => TextLine(PLUS, text, rest);
      case Error(text) => TextLine(MINUS, text, rest);
      case Bulk(data) =>
        BulkLine(data, rest);
        SizedReadsBack(data, rest);
      case Array(items) =>
        ArrayLine(items, rest);
        RepliesReadBack(utf8, items, rest);
    }
  }

  lemma {:induction false} RepliesReadBack(utf8: Utf8, items: seq<Reply>, rest: bytes)
    requires forall i :: 0 <= i < |items| ==> Clean(utf8, items[i])
    ensures ReadReplies(utf8, |items|, EncodeItems(items) + rest) == (Ok(items), rest)
    decreases items, 1
  {
    hide ReadReply, Encode;
    if items == [] {
      assert EncodeItems(items) + rest == rest;
    } else {
      var tail := EncodeItems(items[1..]) + rest;
      assert EncodeItems(items) + rest == Encode(items[0]) + tail;
      ReplyReadsBack(utf8, items[0], tail);
      RepliesReadBack(utf8, items[1..], rest);
      assert items == [items[0]] + items[1..];
    }
  }

  lemma {:induction false} TextLine(kind: byte, text: bytes, rest: bytes)
    requires kind != CR
    ensures Line([kind] + text + CRLF + rest) == Some(([kind] + text, rest)) <==> NoCrlf(text)
    ensures ([kind] + text)[1..] == text
  {
    LineReadsBack([kind] + text, rest);
    var s := [kind] + text;
    if NoCrlf(s) {
      forall i | 0 <= i < |text| - 1 ensures !(text[i] == CR && text[i + 1] == LF) {
        assert s[i + 1] == text[i] && s[i + 2] == text[i + 1];
      }
    }
  }

  // ----- and only those -----

  lemma {:induction false} UncleanChanges(utf8: Utf8, r: Reply, rest: bytes)
    requires !Clean(utf8, r)
    ensures ReadReply(utf8, Encode(r) + rest).0 != Ok(r)
    decreases r, 0
  {
    hide Line, ParseInt, PrintInt, PrintNat, EncodeBulk, Sized, NoCrlf;
    match r {
      case Simple(text) =>
        if NoCrlf(text) { TextLine(PLUS, text, rest); } else { UncleanText(PLUS, text, rest); }
      case Error(text) =>
        if NoCrlf(text) { TextLine(MINUS, text, rest); } else { UncleanText(MINUS, text, rest); }
      case Bulk(data) =>
        BulkLine(data, rest);
        SizedReadsBack(data, rest);
      case Array(items) =>
        ArrayLine(items, rest);
        UncleanItems(utf8, items, rest);
    }
  }

  lemma {:induction false} UncleanText(kind: byte, text: bytes, rest: bytes)
    requires kind != CR && !NoCrlf(text)
    ensures var l := Line([kind] + text + CRLF + rest);
            l.Some? && 1 <= |l.value.0| < |[kind] + text| && l.value.0[0] == kind
  {
    var t := [kind] + text + CRLF + rest;
    var i :| 0 <= i < |text| - 1 && text[i] == CR && text[i + 1] == LF;
    assert t[i + 1] == CR && t[i + 2] == LF;
    FindBefore(t, i + 1);
  }

  lemma {:induction false} UncleanItems(utf8: Utf8, items: seq<Reply>, rest: bytes)
    requires exists i :: 0 <= i < |items| && !Clean(utf8, items[i])
    ensures ReadReplies(utf8, |items|, EncodeItems(items) + rest).0 != Ok(items)
    decreases items, 1
  {
    hide ReadReply, Encode;
    var tail := EncodeItems(items[1..]) + rest;
    assert EncodeItems(items) + rest == Encode(items[0]) + tail;
    assert items == [items[0]] + items[1..];
    if Clean(utf8, items[0]) {
      var i :| 0 <= i < |items| && !Clean(utf8, items[i]);
      assert items[1..][i - 1] == items[i];
      ReplyReadsBack(utf8, items[0], tail);
      UncleanItems(utf8, items[1..], rest);
    } else {
      UncleanChanges(utf8, items[0], tail);
    }
  }

  /** A reply, nested however deeply, survives printing and reading exactly when its texts and
      payloads are UTF-8 and none of its simple strings and errors has a CRLF in it. */
  lemma {:induction false} ReplyRoundTripIff(utf8: Utf8, r: Reply, rest: bytes)
    ensures ReadReply(utf8, Encode(r) + rest) == (Ok(r), rest) <==> Clean(utf8, r)
  {
    if Clean(utf8, r) { ReplyReadsBack(utf8, r, rest); } else { UncleanChanges(utf8, r, rest); }
  }
}
