// Newline-delimited stratum framing: crates/stratum/src/codec.rs.  The JSON
// reader is a parameter; a message is whatever it makes of one line.

module Codec {
  import opened Common
  import Split

  const MAX_LINE_LENGTH := 64 * 1024
  const NEWLINE: Byte := 10

  type Json<!Msg> = Bytes -> Option<Msg>

  datatype Decoded<Msg> =
    | Nothing                // Ok(None)
    | Frame(message: Msg)    // Ok(Some(message))
    | BadJson(line: Bytes)   // Err(Json)
    | LineTooLong            // Err(LineTooLong)

  // The position of the first newline, or the length if there is none.
  function FirstNewline(b: Bytes): nat {
    Split.IndexOf(b, NEWLINE)
  }

  function Decode<Msg>(json: Json<Msg>, src: Bytes): (Decoded<Msg>, Bytes) {
    var pos := FirstNewline(src);
    if pos < |src| then
      var line, rest := src[..pos], src[pos + 1..];
      if line == [] then (Nothing, rest)
      else
        match json(line)
        case None => (BadJson(line), rest)
        case Some(message) => (Frame(message), rest)
    else if |src| > MAX_LINE_LENGTH then (LineTooLong, src)
    else (Nothing, src)
  }

  // The receive buffer.
  class BytesMut {
    var bytes: Bytes

    constructor (bytes: Bytes)
      ensures this.bytes == bytes
    {
      this.bytes := bytes;
    }

    method Extend(more: Bytes)
      modifies this
      ensures bytes == old(bytes) + more
    {
      bytes := bytes + more;
    }

    method SplitTo(at: nat) returns (front: Bytes)
      requires at <= |bytes|
      modifies this
      ensures front == old(bytes)[..at] && bytes == old(bytes)[at..]
    {
      front, bytes := bytes[..at], bytes[at..];
    }
  }

  method DecodeBuffer<Msg>(json: Json<Msg>, src: BytesMut) returns (r: Decoded<Msg>)
    modifies src
    ensures (r, src.bytes) == Decode(json, old(src.bytes))
  {
    var pos := 0;
    while pos < |src.bytes| && src.bytes[pos] != NEWLINE
      invariant pos <= |src.bytes| && NEWLINE !in src.bytes[..pos]
      invariant src.bytes == old(src.bytes)
    {
      pos := pos + 1;
    }
    ghost var whole := src.bytes;
    Split.IndexUnique(whole, NEWLINE, pos);
    if pos < |src.bytes| {
      var line := src.SplitTo(pos + 1);
      assert line[..|line| - 1] == whole[..pos];
      line := line[..|line| - 1];
      if line == [] {
        return Nothing;
      }
      var message := json(line);
      if message.None? {
        return BadJson(line);
      }
      return Frame(message.value);
    } else if |src.bytes| > MAX_LINE_LENGTH {
      return LineTooLong;
    } else {
      return Nothing;
    }
  }

  method Encode(item: Bytes, dst: BytesMut)
    modifies dst
    ensures dst.bytes == old(dst.bytes) + Encoded([item])
  {
    dst.Extend(item);
    dst.Extend([NEWLINE]);
    assert Encoded([item]) == item + [NEWLINE] + Encoded([]);
  }

  function Encoded(items: seq<Bytes>): Bytes {
    if items == [] then [] else items[0] + [NEWLINE] + Encoded(items[1..])
  }

  // ----- what one call answers

  // Without a newline the call waits for more bytes, or fails past 64 KiB, and
  // takes nothing out of the buffer.
  lemma UnfinishedLine<Msg>(json: Json<Msg>, src: Bytes)
    requires 0x0A !in src
    ensures Decode(json, src) == (if |src| > 65536 then LineTooLong else Nothing, src)
  {
    assert src[..|src|] == src;
    Split.IndexUnique(src, NEWLINE, |src|);
  }

  // A complete line is taken out, however long it is, and answered with the
  // message it reads as; a blank one with nothing.
  lemma CompleteLine<Msg>(json: Json<Msg>, line: Bytes, rest: Bytes)
    requires 0x0A !in line
    ensures Decode(json, line + [0x0A] + rest) ==
      (if line == [] then Nothing
       else match json(line) case None => BadJson(line) case Some(message) => Frame(message),
       rest)
  {
    var src := line + [0x0A] + rest;
    assert src[..|line|] == line && src[|line| + 1..] == rest;
    Split.IndexUnique(src, NEWLINE, |line|);
  }

  lemma EncodedLine(item: Bytes)
    ensures Encoded([item]) == item + [0x0A]
  {
    assert Encoded([item]) == item + [NEWLINE] + Encoded([]);
  }

  // ----- the frames in a byte stream

  predicate HasLine(b: Bytes) {
    Split.HasLine(b, NEWLINE)
  }

  // The first complete line, unless it is blank, and what follows it.
  function FirstLine(b: Bytes): seq<Bytes>
    requires HasLine(b)
  {
    if FirstNewline(b) == 0 then [] else [b[..FirstNewline(b)]]
  }

  function AfterLine(b: Bytes): Bytes
    requires HasLine(b)
  {
    Split.After(b, NEWLINE)
  }

  // The nonblank complete lines of a buffer, in order.
  function Lines(b: Bytes): seq<Bytes>
    decreases |b|
  {
    if HasLine(b) then FirstLine(b) + Lines(AfterLine(b)) else []
  }

  // The bytes after the last newline.
  function Partial(b: Bytes): Bytes {
    Split.Partial(b, NEWLINE)
  }

  // Bytes that arrive later only extend the unfinished last line.
  lemma {:induction false} LinesOfConcat(a: Bytes, b: Bytes)
    ensures Lines(a + b) == Lines(a) + Lines(Partial(a) + b)
    ensures Partial(a + b) == Partial(Partial(a) + b)
    decreases |a|
  {
    if HasLine(a) {
      Split.HeadOfConcat(a, b, NEWLINE);
      LinesOfConcat(AfterLine(a), b);
      Associative(FirstLine(a), Lines(AfterLine(a)), Lines(Partial(a) + b));
    } else {
      Associative([], [], Lines(a + b));
    }
    Split.PartialOfConcat(a, b, NEWLINE);
  }

  lemma Associative(a: seq<Bytes>, b: seq<Bytes>, c: seq<Bytes>)
    ensures a + (b + c) == a + b + c && [] + c == c
  {
  }

  // ----- arrivals and decode calls in any order

  datatype Op = Arrive(bytes: Bytes) | Poll

  // The connection: the buffer, the messages handed out, and everything received.
  datatype Conn<Msg> = Conn(buffer: Bytes, out: seq<Msg>, received: Bytes, failed: bool)

  function Start<Msg>(): Conn<Msg> { Conn([], [], [], false) }

  function Act<Msg>(json: Json<Msg>, c: Conn<Msg>, op: Op): Conn<Msg> {
    if c.failed then c
    else
      match op
      case Arrive(bytes) => c.(buffer := c.buffer + bytes, received := c.received + bytes)
      case Poll =>
        match Decode(json, c.buffer)
        case (Nothing, rest) => c.(buffer := rest)
        case (Frame(message), rest) => c.(buffer := rest, out := c.out + [message])
        case (BadJson(_), rest) => c.(buffer := rest, failed := true)
        case (LineTooLong, rest) => c.(buffer := rest, failed := true)
  }

  function Run<Msg>(json: Json<Msg>, c: Conn<Msg>, ops: seq<Op>): Conn<Msg>
    decreases ops
  {
    if ops == [] then c else Run(json, Act(json, c, ops[0]), ops[1..])
  }

  // Each line parses to the message at its place.
  ghost predicate Parsed<Msg>(json: Json<Msg>, lines: seq<Bytes>, messages: seq<Msg>) {
    |lines| == |messages| && forall i | 0 <= i < |lines| :: json(lines[i]) == Some(messages[i])
  }

  // Messages handed out, then the complete lines still buffered, are the
  // complete lines received; the unfinished line is still in the buffer.
  ghost predicate Conserves<Msg>(json: Json<Msg>, c: Conn<Msg>) {
    !c.failed ==>
      && |c.out| <= |Lines(c.received)|
      && Parsed(json, Lines(c.received)[..|c.out|], c.out)
      && Lines(c.buffer) == Lines(c.received)[|c.out|..]
      && Partial(c.buffer) == Partial(c.received)
  }

  lemma Longer(a: seq<Bytes>, b: seq<Bytes>, n: nat)
    requires n <= |a|
    ensures (a + b)[..n] == a[..n] && (a + b)[n..] == a[n..] + b
  {
  }

  lemma Next(all: seq<Bytes>, n: nat, line: Bytes, rest: seq<Bytes>)
    requires n <= |all| && all[n..] == [line] + rest
    ensures n < |all| && all[n] == line && all[n + 1..] == rest && all[..n + 1] == all[..n] + [line]
  {
    assert all[n] == all[n..][0] && all[n + 1..] == all[n..][1..];
  }

  lemma ActConserves<Msg>(json: Json<Msg>, c: Conn<Msg>, op: Op)
    requires Conserves(json, c)
    ensures Conserves(json, Act(json, c, op))
  {
    if !c.failed {
      match op {
        case Arrive(bytes) =>
          LinesOfConcat(c.buffer, bytes);
          LinesOfConcat(c.received, bytes);
          Longer(Lines(c.received), Lines(Partial(c.received) + bytes), |c.out|);
        case Poll =>
          PollConserves(json, c);
      }
    }
  }

  lemma PollConserves<Msg>(json: Json<Msg>, c: Conn<Msg>)
    requires Conserves(json, c) && !c.failed
    ensures Conserves(json, Act(json, c, Poll))
  {
    if HasLine(c.buffer) {
      var line := c.buffer[..FirstNewline(c.buffer)];
      if FirstNewline(c.buffer) == 0 {
        assert Act(json, c, Poll) == c.(buffer := AfterLine(c.buffer));
        BlankConserves(json, c);
      } else if json(line).Some? {
        assert |line| > 0;
        assert Act(json, c, Poll) == c.(buffer := AfterLine(c.buffer), out := c.out + [json(line).value]);
        FrameConserves(json, c, line, json(line).value);
      } else {
        assert |line| > 0;
        assert Act(json, c, Poll).failed;
      }
    }
  }

  lemma BlankConserves<Msg>(json: Json<Msg>, c: Conn<Msg>)
    requires Conserves(json, c) && !c.failed && HasLine(c.buffer) && FirstNewline(c.buffer) == 0
    ensures Conserves(json, c.(buffer := AfterLine(c.buffer)))
  {
    Associative([], [], Lines(AfterLine(c.buffer)));
  }

  lemma FrameConserves<Msg>(json: Json<Msg>, c: Conn<Msg>, line: Bytes, message: Msg)
    requires Conserves(json, c) && !c.failed && HasLine(c.buffer)
    requires FirstLine(c.buffer) == [line] && json(line) == Some(message)
    ensures Conserves(json, c.(buffer := AfterLine(c.buffer), out := c.out + [message]))
  {
    Next(Lines(c.received), |c.out|, line, Lines(AfterLine(c.buffer)));
  }

  // Framing conservation, for any chunking of the bytes and any placing of the
  // decode calls, up to the first error.
  lemma {:induction false} RunConserves<Msg>(json: Json<Msg>, c: Conn<Msg>, ops: seq<Op>)
    requires Conserves(json, c)
    ensures Conserves(json, Run(json, c, ops))
    decreases ops
  {
    if ops != [] {
      ActConserves(json, c, ops[0]);
      RunConserves(json, Act(json, c, ops[0]), ops[1..]);
    }
  }

  function Chunk(op: Op): Bytes {
    match op
    case Arrive(b) => b
    case Poll => []
  }

  // Everything that arrives during a run.
  function Arrived(ops: seq<Op>): Bytes {
    if ops == [] then [] else Chunk(ops[0]) + Arrived(ops[1..])
  }

  lemma {:induction false} ReceivedIsArrived<Msg>(json: Json<Msg>, c: Conn<Msg>, ops: seq<Op>)
    requires !Run(json, c, ops).failed
    ensures Run(json, c, ops).received == c.received + Arrived(ops)
    decreases ops
  {
    if ops != [] {
      var d := Act(json, c, ops[0]);
      if d.failed { FailedStays(json, d, ops[1..]); }
      ReceivedIsArrived(json, d, ops[1..]);
      assert d.received == c.received + Chunk(ops[0]);
      assert c.received + Chunk(ops[0]) + Arrived(ops[1..]) == c.received + Arrived(ops);
    }
  }

  lemma {:induction false} FailedStays<Msg>(json: Json<Msg>, c: Conn<Msg>, ops: seq<Op>)
    requires c.failed
    ensures Run(json, c, ops) == c
    decreases ops
  {
    if ops != [] { FailedStays(json, c, ops[1..]); }
  }

  // ----- encoding and decoding are inverse

  ghost predicate Framable(item: Bytes) {
    item != [] && NEWLINE !in item
  }

  lemma EncodedStartsWith(items: seq<Bytes>)
    requires items != [] && Framable(items[0])
    ensures var b := Encoded(items);
      HasLine(b) && FirstLine(b) == [items[0]] && AfterLine(b) == Encoded(items[1..])
  {
    var b, pos := Encoded(items), |items[0]|;
    assert b[..pos] == items[0] && b[pos] == NEWLINE && b[pos + 1..] == Encoded(items[1..]);
    Split.IndexUnique(b, NEWLINE, pos);
  }

  lemma {:induction false} LinesOfEncoded(items: seq<Bytes>)
    requires forall i | 0 <= i < |items| :: Framable(items[i])
    ensures Lines(Encoded(items)) == items && Partial(Encoded(items)) == []
  {
    if items != [] {
      EncodedStartsWith(items);
      LinesOfEncoded(items[1..]);
      assert items == [items[0]] + items[1..];
    }
  }

  // Whatever chunks the encoded items arrive in and whenever the decoder is
  // called, what it has handed out so far is a prefix of the items, in order,
  // and the rest are still buffered as complete lines.
  lemma EncodedItemsComeBack<Msg>(json: Json<Msg>, items: seq<Bytes>, ops: seq<Op>)
    requires forall i | 0 <= i < |items| :: Framable(items[i])
    requires Arrived(ops) == Encoded(items) && !Run(json, Start(), ops).failed
    ensures var c := Run(json, Start(), ops);
      |c.out| <= |items| && Parsed(json, items[..|c.out|], c.out) && Lines(c.buffer) == items[|c.out|..]
  {
    RunConserves(json, Start(), ops);
    ReceivedIsArrived(json, Start(), ops);
    LinesOfEncoded(items);
    assert Start<Msg>().received + Arrived(ops) == Arrived(ops);
  }

  // Items the reader accepts, none longer than the limit, never cause an error.
  ghost predicate Acceptable<Msg>(json: Json<Msg>, items: seq<Bytes>) {
    forall i | 0 <= i < |items| :: Framable(items[i]) && |items[i]| <= MAX_LINE_LENGTH && json(items[i]).Some?
  }

  // A prefix of the encoding splits into whole items and a piece of the next one.
  lemma PrefixOfEncoded<Msg>(json: Json<Msg>, items: seq<Bytes>, received: Bytes, rest: Bytes)
    requires Acceptable(json, items) && received + rest == Encoded(items)
    ensures Lines(received) <= items && |Partial(received)| <= MAX_LINE_LENGTH
  {
    LinesOfConcat(received, rest);
    LinesOfEncoded(items);
    Split.PartialHasNone(received, NEWLINE);
    var piece := Partial(received);
    var tail := piece + rest;
    if piece != [] {
      assert HasLine(tail);
      Split.SeparatorComesLater(piece, rest, NEWLINE);
      var pos := FirstNewline(tail);
      assert FirstLine(tail)[0] == tail[..pos];
      assert items[|Lines(received)|] == Lines(tail)[0] == tail[..pos];
    }
  }

  lemma {:induction false} NeverFails<Msg>(json: Json<Msg>, items: seq<Bytes>, c: Conn<Msg>, ops: seq<Op>, rest: Bytes)
    requires Acceptable(json, items) && Conserves(json, c) && !c.failed
    requires c.received + Arrived(ops) + rest == Encoded(items)
    ensures !Run(json, c, ops).failed
    decreases ops
  {
    if ops != [] {
      ActConserves(json, c, ops[0]);
      var d, more := Act(json, c, ops[0]), Arrived(ops[1..]);
      Regroup(c.received, Chunk(ops[0]), more, rest);
      if ops[0] == Poll {
        PrefixOfEncoded(json, items, c.received, more + rest);
        PollAccepts(json, items, c);
      }
      NeverFails(json, items, d, ops[1..], rest);
    }
  }

  lemma Regroup(a: Bytes, b: Bytes, c: Bytes, d: Bytes)
    ensures a + (b + c) + d == a + b + c + d
    ensures b == [] ==> a + b == a && a + b + c + d == a + (c + d)
  {
  }

  lemma PollAccepts<Msg>(json: Json<Msg>, items: seq<Bytes>, c: Conn<Msg>)
    requires Acceptable(json, items) && Conserves(json, c) && !c.failed
    requires Lines(c.received) <= items && |Partial(c.received)| <= MAX_LINE_LENGTH
    ensures !Act(json, c, Poll).failed && Act(json, c, Poll).received == c.received
  {
    if HasLine(c.buffer) && FirstNewline(c.buffer) > 0 {
      var line := c.buffer[..FirstNewline(c.buffer)];
      assert line == Lines(c.buffer)[0] == items[|c.out|];
      assert |line| > 0;
    }
  }

  // Encoding then decoding is the identity on acceptable items: in any chunking
  // and with any decode calls there is no error, the messages handed out are
  // those of the first items in order, and the rest are still buffered whole.
  lemma RoundTrip<Msg>(json: Json<Msg>, items: seq<Bytes>, ops: seq<Op>)
    requires Acceptable(json, items) && Arrived(ops) == Encoded(items)
    ensures var c := Run(json, Start(), ops);
      !c.failed && |c.out| <= |items| && Parsed(json, items[..|c.out|], c.out) && Lines(c.buffer) == items[|c.out|..]
  {
    FreshNeverFails(json, items, ops);
    EncodedItemsComeBack(json, items, ops);
  }

  lemma FreshNeverFails<Msg>(json: Json<Msg>, items: seq<Bytes>, ops: seq<Op>)
    requires Acceptable(json, items) && Arrived(ops) == Encoded(items)
    ensures !Run(json, Start(), ops).failed
  {
    NothingAround(Arrived(ops));
    NeverFails(json, items, Start(), ops, []);
  }

  lemma NothingAround(b: Bytes)
    ensures [] + b + [] == b
  {
  }

  // A poll reports nothing while a complete nonblank line is buffered exactly
  // when the buffer starts with a blank line.
  lemma BlankLineDelays<Msg>(json: Json<Msg>, src: Bytes)
    requires Lines(src) != []
    ensures Decode(json, src).0 == Nothing <==> src[0] == NEWLINE
    ensures Decode(json, src).0 == Nothing ==> Lines(Decode(json, src).1) == Lines(src)
  {
    assert src != [];
    assert [] + Lines(src[1..]) == Lines(src[1..]);
  }

  function Newlines(b: Bytes): nat
    decreases |b|
  {
    if HasLine(b) then 1 + Newlines(AfterLine(b)) else 0
  }

  // One poll for every buffered newline hands out every buffered line, in order.
  lemma {:induction false} DrainsInOrder<Msg>(json: Json<Msg>, c: Conn<Msg>, polls: nat)
    requires !c.failed && polls == Newlines(c.buffer)
    requires forall i | 0 <= i < |Lines(c.buffer)| :: json(Lines(c.buffer)[i]).Some?
    ensures var d := Run(json, c, Polls(polls));
      && !d.failed && d.buffer == Partial(c.buffer)
      && |d.out| == |c.out| + |Lines(c.buffer)| && d.out[..|c.out|] == c.out
      && Parsed(json, Lines(c.buffer), d.out[|c.out|..])
    decreases polls
  {
    if polls > 0 {
      var lines, rest := Lines(c.buffer), AfterLine(c.buffer);
      assert lines == FirstLine(c.buffer) + Lines(rest);
      var d := Act(json, c, Poll);
      if FirstNewline(c.buffer) > 0 { assert lines[0] == c.buffer[..FirstNewline(c.buffer)]; }
      assert !d.failed && d.buffer == rest;
      forall i | 0 <= i < |Lines(rest)| ensures json(Lines(rest)[i]).Some? {
        assert Lines(rest)[i] == lines[i + |FirstLine(c.buffer)|];
      }
      DrainsInOrder(json, d, polls - 1);
      assert Polls(polls)[0] == Poll && Polls(polls)[1..] == Polls(polls - 1);
      Handed(json, c.out, FirstLine(c.buffer), d.out, Lines(rest), Run(json, d, Polls(polls - 1)).out);
    }
  }

  function Polls(n: nat): seq<Op> {
    seq(n, i requires 0 <= i < n => Poll)
  }

  lemma Handed<Msg>(json: Json<Msg>, before: seq<Msg>, first: seq<Bytes>, mid: seq<Msg>,
                    more: seq<Bytes>, after: seq<Msg>)
    requires |mid| == |before| + |first| && mid[..|before|] == before && Parsed(json, first, mid[|before|..])
    requires |after| == |mid| + |more| && after[..|mid|] == mid && Parsed(json, more, after[|mid|..])
    ensures after[..|before|] == before && Parsed(json, first + more, after[|before|..])
  {
    assert after[|before|..] == mid[|before|..] + after[|mid|..];
  }
}
