/** Reading requests and replies from a stream step by step (`imustore/resp.py`), proved to follow
    the functions of `Resp`. */
module RespStream {
  import opened Prelude
  import opened Bytes
  import opened Resp

  // All the bytes that will ever arrive; running out is IncompleteReadError and empties it.
  class Stream {
    var rest: bytes

    constructor (all: bytes)
      ensures rest == all
    {
      rest := all;
    }

    // A line without its CRLF.
    method ReadLine() returns (line: Option<bytes>)
      modifies this
      ensures line.None? ==> Line(old(rest)).None? && rest == []
      ensures line.Some? ==> Line(old(rest)) == Some((line.value, rest)) && |rest| < |old(rest)|
    {
      var i := FindCrlf(rest);
      if i == |rest| {
        rest := [];
        return None;
      }
      line := Some(rest[..i]);
      rest := rest[i + 2..];
    }

    method ReadExactly(n: int) returns (data: Result<bytes>)
      modifies this
      ensures data == if n < 0 then BadValue else if n > |old(rest)| then Eof else Ok(old(rest)[..n])
      ensures rest == if n < 0 then old(rest) else if n > |old(rest)| then [] else old(rest)[n..]
    {
      if n < 0 {
        return BadValue;
      }
      if n > |rest| {
        rest := [];
        return Eof;
      }
      data := Ok(rest[..n]);
      rest := rest[n..];
    }

    // A payload of known length and its CRLF.
    method ReadSized(n: int) returns (r: Result<bytes>)
      modifies this
      ensures (r, rest) == Sized(n, old(rest))
    {
      r := ReadExactly(n);
      if r.Ok? {
        var crlf := ReadExactly(2);
        if !crlf.Ok? {
          return Eof;
        }
        assert old(rest)[n..][2..] == old(rest)[n + 2..];
      }
    }

    method ReadBulk() returns (r: Result<bytes>)
      modifies this
      ensures (r, rest) == OneBulk(old(rest))
    {
      var header := ReadLine();
      if header.None? {
        return Eof;
      }
      if header.value == [] || header.value[0] != DOLLAR {
        return BadProtocol;
      }
      var length := ParseInt(header.value[1..]);
      if length.None? {
        return BadValue;
      }
      r := ReadSized(length.value);
    }

    method ReadCommand() returns (r: Result<seq<bytes>>)
      modifies this
      ensures (r, rest) == Resp.ReadCommand(old(rest))
    {
      hide ManyBulks, Line, ParseInt, Words;
      var line := ReadLine();
      while line.Some? && line.value == []
        invariant line.None? ==> Resp.ReadCommand(old(rest)) == (Eof, rest)
        invariant line.Some? ==> Resp.ReadCommand(old(rest)) == AfterHead(line.value, rest)
        decreases |rest|, line.Some?
      {
        line := ReadLine();
      }
      if line.None? {
        return Eof;
      }
      var head := line.value;
      if head[0] != STAR {
        return Ok(Words(head));
      }
      var count := ParseInt(head[1..]);
      if count.None? {
        return BadProtocol;
      }
      if count.value <= 0 {
        return Ok([]);
      }
      r := ReadArguments(count.value);
    }

    method ReadArguments(count: nat) returns (r: Result<seq<bytes>>)
      modifies this
      ensures (r, rest) == ManyBulks(count, old(rest))
    {
      hide OneBulk;
      var args := [];
      AfterNothing(ManyBulks(count, rest));
      for i := 0 to count
        invariant ManyBulks(count, old(rest)) == After(args, ManyBulks(count - i, rest))
      {
        var data := ReadBulk();
        match data {
          case Ok(d) =>
            AfterSnoc(args, d, ManyBulks(count - i - 1, rest));
            args := args + [d];
          case Eof => return Eof;
          case BadProtocol => return BadProtocol;
          case BadValue => return BadValue;
        }
      }
      assert args + [] == args;
      r := Ok(args);
    }

    method ReadReply(utf8: Utf8) returns (r: Result<Reply>)
      modifies this
      ensures (r, rest) == Resp.ReadReply(utf8, old(rest))
      decreases |rest|, 0
    {
      hide Line, ParseInt, Sized;
      var line := ReadLine();
      if line.None? {
        return Eof;
      }
      var text := line.value;
      if text == [] {
        return BadProtocol;
      }
      if text[0] in {PLUS, MINUS} && !utf8(text[1..]) {
        return BadValue;
      }
      if text[0] == PLUS {
        return Ok(Simple(text[1..]));
      }
      if text[0] == MINUS {
        return Ok(Error(text[1..]));
      }
      if text[0] !in {COLON, DOLLAR, STAR} {
        return BadProtocol;
      }
      var n := ParseInt(text[1..]);
      if n.None? {
        return BadValue;
      }
      if text[0] == COLON {
        return Ok(Int(n.value));
      }
      if n.value == -1 {
        return Ok(Nil);
      }
      if text[0] == DOLLAR {
        var data := ReadSized(n.value);
        match data {
          case Ok(d) =>
            if !utf8(d) {
              return BadValue;
            }
            return Ok(Bulk(d));
          case Eof => return Eof;
          case BadProtocol => return BadProtocol;
          case BadValue => return BadValue;
        }
      }
      var items := ReadReplies(utf8, Max(n.value, 0));
      match items {
        case Ok(d) => return Ok(Array(d));
        case Eof => return Eof;
        case BadProtocol => return BadProtocol;
        case BadValue => return BadValue;
      }
    }

    method ReadReplies(utf8: Utf8, count: nat) returns (r: Result<seq<Reply>>)
      modifies this
      ensures (r, rest) == Resp.ReadReplies(utf8, count, old(rest))
      decreases |rest|, 1
    {
      hide Resp.ReadReply;
      var items := [];
      AfterNothing(Resp.ReadReplies(utf8, count, rest));
      for i := 0 to count
        invariant |rest| <= |old(rest)|
        invariant Resp.ReadReplies(utf8, count, old(rest)) == After(items, Resp.ReadReplies(utf8, count - i, rest))
      {
        var reply := ReadReply(utf8);
        match reply {
          case Ok(d) =>
            AfterSnoc(items, d, Resp.ReadReplies(utf8, count - i - 1, rest));
            items := items + [d];
          case Eof => return Eof;
          case BadProtocol => return BadProtocol;
          case BadValue => return BadValue;
        }
      }
      assert items + [] == items;
      r := Ok(items);
    }
  }

  // The rest of `Resp.ReadCommand` once a line has been read.
  function AfterHead(head: bytes, rest: bytes): (Result<seq<bytes>>, bytes) {
    if head == [] then Resp.ReadCommand(rest)
    else if head[0] != STAR then (Ok(Words(head)), rest)
    else
      var count := ParseInt(head[1..]);
      if count.None? then (BadProtocol, rest)
      else if count.value <= 0 then (Ok([]), rest)
      else ManyBulks(count.value, rest)
  }

  function After<T>(done: seq<T>, r: (Result<seq<T>>, bytes)): (Result<seq<T>>, bytes) {
    (if r.0.Ok? then Ok(done + r.0.value) else r.0, r.1)
  }

  lemma AfterNothing<T>(r: (Result<seq<T>>, bytes))
    ensures After([], r) == r
  {
    if r.0.Ok? {
      assert [] + r.0.value == r.0.value;
    }
  }

  lemma AfterSnoc<T>(done: seq<T>, x: T, r: (Result<seq<T>>, bytes))
    ensures After(done, After([x], r)) == After(done + [x], r)
  {
    if r.0.Ok? {
      assert done + ([x] + r.0.value) == done + [x] + r.0.value;
    }
  }

  // The parts of a request, joined.
  method EncodeCommand(args: seq<bytes>) returns (request: bytes)
    ensures request == Resp.EncodeCommand(args)
  {
    hide EncodeBulk;
    var head := [STAR] + PrintNat(|args|) + CRLF;
    request := head;
    assert args[0..] == args;
    for i := 0 to |args|
      invariant request + EncodeBulks(args[i..]) == Resp.EncodeCommand(args)
    {
      assert args[i..][1..] == args[i + 1..];
      request := request + EncodeBulk(args[i]);
    }
    assert args[|args|..] == [];
  }
}
