/**
 What a response means to the client, byte by byte. The HTTP parser is any automaton over
 bytes: it knows which bytes are body data, when the headers and the message end, and where it
 cuts the body into fragments.
 */
module HttpBody {
  import opened Common

  // Idle: no byte of the message yet but blank lines, which the parser passes over
  datatype Stage = Idle | Headers | Body | Over | Failed
  {
    predicate InHead() { Idle? || Headers? }
  }

  // A state of the parser: where it is in the grammar, and a count
  datatype Spot = Spot(phase: nat, left: nat)

  // next: the state after a byte; data: the byte is body data; cut: the parser hands over the
  // body fragment that ends with this byte, even if more body follows in the same buffer;
  // close: the state after the peer has closed the connection
  datatype Parser = Parser(start: Spot,
                           next: (Spot, Byte) -> Spot,
                           stage: Spot -> Stage,
                           data: (Spot, Byte) -> bool,
                           cut: (Spot, Byte) -> bool,
                           close: Spot -> Spot)

  // Body data comes only after the headers, and the headers come once. Closing is nothing to a
  // parser that has not begun, ends a message whose body runs until the connection closes, and
  // is an error for every other.
  ghost predicate Sane(p: Parser) {
    && p.stage(p.start).Idle?
    && (forall s: Spot, b: Byte :: p.data(s, b) ==> p.stage(s).Body?)
    && (forall s: Spot, b: Byte :: p.stage(p.next(s, b)).Idle? ==> p.stage(s).Idle?)
    && (forall s: Spot, b: Byte :: p.stage(s).Body? ==> !p.stage(p.next(s, b)).Headers?)
    && (forall s: Spot :: p.stage(s).Idle? ==> p.close(s) == s)
    && (forall s: Spot :: p.stage(s).Headers? ==> p.stage(p.close(s)).Failed?)
    && (forall s: Spot :: p.stage(s).Body? ==> p.stage(p.close(s)).Over? || p.stage(p.close(s)).Failed?)
  }

  function After(p: Parser, s: Spot, w: Bytes): Spot
    decreases |w|
  {
    if w == [] then s else After(p, p.next(s, w[0]), w[1..])
  }

  // The de-framed body carried by `w`
  function BodyOf(p: Parser, s: Spot, w: Bytes): (r: Bytes)
    ensures |r| <= |w|
    decreases |w|
  {
    if w == [] then []
    else (if p.data(s, w[0]) then [w[0]] else []) + BodyOf(p, p.next(s, w[0]), w[1..])
  }

  predicate Fails(p: Parser, s: Spot, w: Bytes)
    decreases |w|
  {
    w != [] && (p.stage(p.next(s, w[0])).Failed? || Fails(p, p.next(s, w[0]), w[1..]))
  }

  // Nothing follows the end of the message: the server answers one request at a time.
  predicate Single(p: Parser, s: Spot, w: Bytes)
    decreases |w|
  {
    w == [] || (!p.stage(s).Over? && Single(p, p.next(s, w[0]), w[1..]))
  }

  // `w` ends the message that is in progress in `s`, by its framing or by the close after it.
  predicate Whole(p: Parser, s: Spot, w: Bytes) {
    && !Fails(p, s, w)
    && (p.stage(After(p, s, w)).Over? || p.stage(p.close(After(p, s, w))).Over?)
  }

  // `w` brings nothing of an answer: the peer closes, and the parser has not begun.
  predicate Silent(p: Parser, s: Spot, w: Bytes) {
    !Fails(p, s, w) && p.stage(After(p, s, w)).Idle?
  }

  // All readings of a wire can be cut in two at any place.
  lemma {:induction false} ReadInTwo(p: Parser, s: Spot, a: Bytes, b: Bytes)
    ensures After(p, s, a + b) == After(p, After(p, s, a), b)
    ensures BodyOf(p, s, a + b) == BodyOf(p, s, a) + BodyOf(p, After(p, s, a), b)
    ensures Fails(p, s, a + b) <==> Fails(p, s, a) || Fails(p, After(p, s, a), b)
    ensures Single(p, s, a + b) <==> Single(p, s, a) && Single(p, After(p, s, a), b)
    decreases |a|
  {
    if a == [] {
      assert a + b == b;
    } else {
      assert (a + b)[1..] == a[1..] + b;
      ReadInTwo(p, p.next(s, a[0]), a[1..], b);
    }
  }

  // What a read of `a` leaves to be read, if it is free of errors
  lemma {:induction false} ReadPart(p: Parser, s: Spot, a: Bytes, b: Bytes)
    requires Single(p, s, a + b)
    ensures Single(p, s, a)
    ensures Fails(p, s, a) ==> !Whole(p, s, a + b)
    ensures !Fails(p, s, a) ==>
      var t := After(p, s, a);
      && Single(p, t, b) && (Whole(p, s, a + b) <==> Whole(p, t, b))
      && BodyOf(p, s, a + b) == BodyOf(p, s, a) + BodyOf(p, t, b)
  {
    ReadInTwo(p, s, a, b);
  }

  lemma {:induction false} NotFailed(p: Parser, s: Spot, w: Bytes)
    requires !p.stage(s).Failed? && !Fails(p, s, w)
    ensures !p.stage(After(p, s, w)).Failed?
    decreases |w|
  {
    if w != [] {
      NotFailed(p, p.next(s, w[0]), w[1..]);
    }
  }

  // No body data has been read while the headers are still being read.
  lemma {:induction false} HeadersFirst(p: Parser, s: Spot, w: Bytes)
    requires Sane(p) && Single(p, s, w) && !Fails(p, s, w) && !p.stage(s).Failed?
    requires p.stage(After(p, s, w)).InHead()
    ensures p.stage(s).InHead() && BodyOf(p, s, w) == []
    decreases |w|
  {
    if w != [] {
      HeadersFirst(p, p.next(s, w[0]), w[1..]);
    }
  }

  // A message that has begun stays begun.
  lemma {:induction false} StaysBegun(p: Parser, s: Spot, w: Bytes)
    requires Sane(p) && !p.stage(s).Idle?
    ensures !p.stage(After(p, s, w)).Idle?
    decreases |w|
  {
    if w != [] {
      StaysBegun(p, p.next(s, w[0]), w[1..]);
    }
  }

  // A silent wire is no message.
  lemma {:induction false} SilentIsIdle(p: Parser, s: Spot, w: Bytes)
    requires Sane(p) && Silent(p, s, w)
    ensures p.stage(s).Idle? && !Whole(p, s, w)
  {
    if !p.stage(s).Idle? {
      StaysBegun(p, s, w);
    }
  }

  // What a read of `a` leaves is silent if the wire was.
  lemma {:induction false} SilentPart(p: Parser, s: Spot, a: Bytes, b: Bytes)
    requires Sane(p)
    ensures Silent(p, s, a + b) <==> !Fails(p, s, a) && Silent(p, After(p, s, a), b)
  {
    ReadInTwo(p, s, a, b);
  }

  // What a client sees of a read of `a` from a wire `a + b`
  lemma {:induction false} ReadLeaves(p: Parser, s: Spot, a: Bytes, b: Bytes)
    requires Sane(p) && Single(p, s, a + b) && !p.stage(s).Failed?
    ensures Single(p, s, a)
    ensures Fails(p, s, a) ==> !Whole(p, s, a + b) && !Silent(p, s, a + b)
    ensures !Fails(p, s, a) ==>
      var t := After(p, s, a);
      && Single(p, t, b) && (Whole(p, s, a + b) <==> Whole(p, t, b)) && (Silent(p, s, a + b) <==> Silent(p, t, b))
      && BodyOf(p, s, a + b) == BodyOf(p, s, a) + BodyOf(p, t, b)
      && (p.stage(t).InHead() ==> p.stage(s).InHead() && BodyOf(p, s, a) == [])
  {
    ReadPart(p, s, a, b);
    SilentPart(p, s, a, b);
    if !Fails(p, s, a) && p.stage(After(p, s, a)).InHead() {
      HeadersFirst(p, s, a);
    }
  }

  // An ended message leaves nothing to read.
  lemma OverIsLast(p: Parser, s: Spot, w: Bytes)
    requires Single(p, s, w) && p.stage(s).Over?
    ensures w == [] && Whole(p, s, w) && BodyOf(p, s, w) == []
  {
  }

  // In the headers and in the body, a wire that has run out is whole only through its close.
  lemma RanOut(p: Parser, s: Spot)
    ensures Whole(p, s, []) <==> p.stage(s).Over? || p.stage(p.close(s)).Over?
    ensures BodyOf(p, s, []) == []
  {
  }
}

/** http_response_recv and its callees, which de-frame the body inside the buffer just read. */
module HttpClient {
  import opened Common
  import opened HttpBody

  const CONNECTION_DONE := 3
  const REQ_NEW := 4
  const REQ_HDR_SENT := 5
  const RESP_STARTED := 6
  const HDR_RECEIVED := 7
  const BDY_RECEIVED := 8
  const HTTPC_BUF_SIZE := 50
  const FLUSH_BUF_SIZE := 50
  const EAGAIN := 11
  // The result of a call that never returns
  const HUNG := -2

  // What a read meets: up to this many bytes, a timeout, or a broken connection. Reads beyond
  // the list take all there is room for.
  datatype Arrival = Ready(n: nat) | TimedOut | Broken

  // The connection state the callbacks keep, against the parser's own
  predicate Agrees(state: int, stage: Stage) {
    && (stage.InHead() ==> state < HDR_RECEIVED)
    && (stage.Body? ==> state == HDR_RECEIVED)
    && (stage.Over? ==> state == BDY_RECEIVED)
  }

  // No timeout and no broken connection lies ahead.
  predicate AllReady(arrivals: seq<Arrival>) {
    forall a :: a in arrivals ==> a.Ready?
  }

  predicate Unbroken(arrivals: seq<Arrival>) {
    forall a :: a in arrivals ==> !a.Broken?
  }

  function Later(arrivals: seq<Arrival>): seq<Arrival> {
    if arrivals == [] then [] else arrivals[1..]
  }

  // What the next read of a wire returns, into a buffer of `room` bytes: at least one byte, or
  // none once the peer has closed, or an error that takes nothing
  function NextRead(w: Bytes, arrivals: seq<Arrival>, room: nat): (n: int)
    ensures n <= |w| && n <= room
    ensures n == 0 && room > 0 ==> w == []
  {
    var all := if room < |w| then room else |w|;
    if arrivals == [] then all
    else match arrivals[0]
      case TimedOut => -EAGAIN
      case Broken => -1
      case Ready(k) => if 0 < k < all then k else all
  }

  // The parser after a read of `n` bytes
  function NextSpot(p: Parser, s: Spot, w: Bytes, n: nat): Spot
    requires n <= |w|
  {
    if n == 0 then p.close(s) else After(p, s, w[..n])
  }

  // What http_response_read_and_parse returns
  function ReadStatus(p: Parser, s: Spot, w: Bytes, arrivals: seq<Arrival>, room: nat): int {
    var n := NextRead(w, arrivals, room);
    if n < 0 then n
    else if n == 0 then (if p.stage(p.close(s)).Failed? then -1 else 0)
    else if Fails(p, s, w[..n]) then -1
    else 0
  }

  // What the loop over the headers comes to: they are read (0), a read fails, or the loop goes
  // on for ever
  function HeadOutcome(p: Parser, s: Spot, w: Bytes, arrivals: seq<Arrival>, room: nat): int
    requires room > 0
    decreases |w|, |arrivals|
  {
    var n := NextRead(w, arrivals, room);
    var status := ReadStatus(p, s, w, arrivals, room);
    if status != 0 then status
    else if !p.stage(NextSpot(p, s, w, n)).InHead() then 0
    else if n == 0 && arrivals == [] then HUNG
    else HeadOutcome(p, NextSpot(p, s, w, n), w[n..], Later(arrivals), room)
  }

  // The loop never ends exactly if the peer closes before the first byte of its answer, and
  // neither a timeout nor an error comes before that.
  lemma {:induction false} HungIff(p: Parser, s: Spot, w: Bytes, arrivals: seq<Arrival>, room: nat)
    requires Sane(p) && p.stage(s).InHead() && room > 0
    ensures HeadOutcome(p, s, w, arrivals, room) == HUNG <==> Silent(p, s, w) && AllReady(arrivals)
    ensures HeadOutcome(p, s, w, arrivals, room) == 0 ==> !Silent(p, s, w)
    ensures HeadOutcome(p, s, w, arrivals, room) == -1 ==> !Silent(p, s, w) || !Unbroken(arrivals)
    decreases |w|, |arrivals|
  {
    var n := NextRead(w, arrivals, room);
    if n >= 0 {
      var t := NextSpot(p, s, w, n);
      SilentPart(p, s, w[..n], w[n..]);
      assert w == w[..n] + w[n..];
      assert arrivals == [] || arrivals == [arrivals[0]] + Later(arrivals);
      if ReadStatus(p, s, w, arrivals, room) == 0 {
        if !p.stage(t).InHead() {
          if Silent(p, t, w[n..]) {
            SilentIsIdle(p, t, w[n..]);
          }
        } else if n != 0 || arrivals != [] {
          HungIff(p, t, w[n..], Later(arrivals), room);
        }
      }
    }
  }

  // If the peer closes in the middle of the headers, the loop ends with an error.
  lemma {:induction false} TruncatedHead(p: Parser, s: Spot, w: Bytes, arrivals: seq<Arrival>, room: nat)
    requires Sane(p) && p.stage(s).InHead() && room > 0 && AllReady(arrivals)
    requires Single(p, s, w) && !Fails(p, s, w) && p.stage(After(p, s, w)).Headers?
    ensures HeadOutcome(p, s, w, arrivals, room) == -1
    decreases |w|, |arrivals|
  {
    var n := NextRead(w, arrivals, room);
    if n > 0 {
      var t := NextSpot(p, s, w, n);
      assert w == w[..n] + w[n..];
      ReadInTwo(p, s, w[..n], w[n..]);
      NotFailed(p, s, w[..n]);
      HeadersFirst(p, t, w[n..]);
      assert arrivals == [] || arrivals == [arrivals[0]] + Later(arrivals);
      TruncatedHead(p, t, w[n..], Later(arrivals), room);
    }
  }

  // `b` after the first `i` bytes from `from` on have been copied down to `at`
  function Moved(b: Bytes, at: nat, from: nat, i: nat): (r: Bytes)
    requires at <= from && from + i <= |b|
    ensures |r| == |b|
  {
    b[..at] + b[from..from + i] + b[at + i..]
  }

  lemma {:induction false} MoveOne(b: Bytes, at: nat, from: nat, i: nat)
    requires at <= from && from + i < |b|
    ensures Moved(b, at, from, i)[from + i] == b[from + i]
    ensures Moved(b, at, from, i)[at + i := b[from + i]] == Moved(b, at, from, i + 1)
  {
  }

  lemma {:induction false} MovedParts(b: Bytes, at: nat, from: nat, i: nat)
    requires at <= from && from + i <= |b|
    ensures Moved(b, at, from, i)[..at + i] == b[..at] + b[from..from + i]
    ensures Moved(b, at, from, i)[from + i..] == b[from + i..]
  {
  }

  // memcpy from `from` down to `at` in the same buffer, byte by byte: what it reads has not been
  // overwritten yet.
  method MoveDown(buf: array<Byte>, at: nat, from: nat, len: nat)
    requires at <= from && from + len <= buf.Length
    modifies buf
    ensures buf[..] == Moved(old(buf[..]), at, from, len)
  {
    var i := 0;
    while i < len
      invariant 0 <= i <= len
      invariant buf[..] == Moved(old(buf[..]), at, from, i)
    {
      MoveOne(old(buf[..]), at, from, i);
      ghost var now := buf[..];
      assert buf[from + i] == now[from + i];
      buf[at + i] := buf[from + i];
      assert buf[..] == now[at + i := now[from + i]];
      i := i + 1;
    }
  }

  // memcpy between two buffers
  method CopyOut(dst: array<Byte>, src: array<Byte>, from: nat, len: nat)
    requires dst != src && len <= dst.Length && from + len <= src.Length
    modifies dst
    ensures dst[..len] == src[from..from + len]
  {
    forall i | 0 <= i < len {
      dst[i] := src[from + i];
    }
  }

  lemma {:induction false} Regroup(a: Bytes, b: Bytes, c: Bytes)
    ensures a + b + c == a + (b + c)
  {
  }

  // A buffer that agrees with `data` from `mark` on agrees with it on the fragment from there
  // to `end` and from `end` on, and only what lies from `end` on matters for the latter.
  lemma {:induction false} SameFragment(b: Bytes, data: Bytes, mark: nat, end: nat)
    requires mark <= end <= |data| <= |b|
    ensures b[mark..|data|] == data[mark..] ==> b[mark..end] == data[mark..end]
    ensures b[mark..|data|] == data[mark..] ==> b[end..|data|] == data[end..]
    ensures b[end..][..|data| - end] == b[end..|data|]
  {
    if b[mark..|data|] == data[mark..] {
      assert b[mark..end] == b[mark..|data|][..end - mark];
      assert data[mark..end] == data[mark..][..end - mark];
      assert b[end..|data|] == b[mark..|data|][end - mark..];
      assert data[end..] == data[mark..][end - mark..];
    }
  }

  class Conn {
    const parser: Parser
    var pstate: Spot
    var state: int
    var wire: Bytes
    var arrivals: seq<Arrival>
    var outBuf: array?<Byte>
    var outBufLen: nat
    var outBufIndex: nat
    var overflow: array?<Byte>
    var overflowLen: nat
    var overflowIndex: nat

    constructor (parser: Parser, wire: Bytes, arrivals: seq<Arrival>)
      requires Sane(parser) && Single(parser, parser.start, wire)
      ensures Valid() && overflow == null
      ensures this.parser == parser && this.wire == wire && pstate == parser.start && state == REQ_NEW
      ensures this.arrivals == arrivals
    {
      this.parser := parser;
      this.pstate := parser.start;
      this.state := REQ_NEW;
      this.wire := wire;
      this.arrivals := arrivals;
      this.outBuf := null;
      this.outBufLen, this.outBufIndex := 0, 0;
      this.overflow := null;
      this.overflowLen, this.overflowIndex := 0, 0;
    }

    // What holds between calls
    ghost predicate Valid()
      reads this
    {
      && Sane(parser)
      && Parsing()
      && (state <= REQ_NEW ==> pstate == parser.start)
      && (state < RESP_STARTED ==> overflow == null && overflowLen == 0 && overflowIndex == 0)
      && (overflow != null ==> overflowIndex <= overflowLen <= overflow.Length)
      && (overflow != null && overflowIndex < overflowLen ==> state >= HDR_RECEIVED)
    }

    // A kept overflow buffer holds undelivered body. A header fetch that times out leaves one
    // behind that does not.
    predicate Prompt()
      reads this
    {
      overflow != null ==> overflowIndex < overflowLen
    }

    predicate Reliable()
      reads `arrivals
    {
      Unbroken(arrivals)
    }

    ghost predicate Parsing()
      reads `pstate, `wire, `state
    {
      && !parser.stage(pstate).Failed?
      && Agrees(state, parser.stage(pstate))
      && Single(parser, pstate, wire)
    }

    ghost predicate Quiet()
      reads `pstate, `wire
    {
      Silent(parser, pstate, wire)
    }

    // The peer has closed before the first byte of its answer, and nothing else comes: a read
    // finds no byte, has no error and changes nothing.
    predicate Hung()
      reads `pstate, `wire, `arrivals
    {
      wire == [] && arrivals == [] && parser.stage(pstate).Idle?
    }

    // The body the caller has not got yet
    ghost function Remaining(): Bytes
      reads this, overflow
    {
      if overflow != null && overflowIndex < overflowLen <= overflow.Length
      then overflow[overflowIndex..overflowLen] + BodyOf(parser, pstate, wire)
      else BodyOf(parser, pstate, wire)
    }

    ghost predicate Complete()
      reads `pstate, `wire
    {
      Whole(parser, pstate, wire)
    }

    // esp_tls_conn_read
    method ConnRead(buf: array<Byte>) returns (n: int)
      requires buf.Length > 0
      modifies buf, `wire, `arrivals
      ensures arrivals == Later(old(arrivals))
      ensures n == NextRead(old(wire), old(arrivals), buf.Length)
      ensures n < 0 ==> wire == old(wire)
      ensures n >= 0 ==> buf[..n] == old(wire)[..n] && wire == old(wire)[n..]
    {
      n := if buf.Length < |wire| then buf.Length else |wire|;
      if arrivals != [] {
        var a := arrivals[0];
        arrivals := arrivals[1..];
        match a
        case TimedOut => return -EAGAIN;
        case Broken => return -1;
        case Ready(k) =>
          if 0 < k < n {
            n := k;
          }
      }
      forall i | 0 <= i < n {
        buf[i] := wire[i];
      }
      wire := wire[n..];
    }

    // http_get_body: the fragment buf[from..from + len] of the buffer being parsed
    method GetBody(buf: array<Byte>, from: nat, len: nat) returns (rc: int)
      requires from + len <= buf.Length
      requires outBuf != null ==> outBuf == buf && outBufIndex <= from
      modifies buf, `outBufIndex
      ensures outBuf == null ==> rc == 0 && buf[..] == old(buf[..]) && outBufIndex == old(outBufIndex)
      ensures outBuf != null ==> (rc == 0 <==> old(outBufIndex) + len <= outBufLen)
      ensures outBuf != null && rc == 0 ==>
        && outBufIndex == old(outBufIndex) + len
        && buf[..outBufIndex] == old(buf[..outBufIndex] + buf[from..from + len])
      ensures buf[from + len..] == old(buf[from + len..])
    {
      if outBuf == null {
        return 0;
      }
      if len + outBufIndex > outBufLen {
        return -1;
      }
      MovedParts(buf[..], outBufIndex, from, len);
      ghost var moved := Moved(buf[..], outBufIndex, from, len);
      MoveDown(buf, outBufIndex, from, len);
      assert buf[..outBufIndex + len] == moved[..outBufIndex + len];
      assert buf[from + len..] == moved[from + len..];
      outBufIndex := outBufIndex + len;
      return 0;
    }

    // One byte through the parser, with http_hdr_complete and http_message_complete
    method Advance(ch: Byte)
      requires Sane(parser) && Agrees(state, parser.stage(pstate))
      requires !parser.stage(pstate).Over? && !parser.stage(pstate).Failed?
      modifies `pstate, `state
      ensures pstate == parser.next(old(pstate), ch)
      ensures Agrees(state, parser.stage(pstate)) && state >= old(state)
    {
      var was := parser.stage(pstate);
      pstate := parser.next(pstate, ch);
      var now := parser.stage(pstate);
      if was.InHead() && (now.Body? || now.Over?) {
        state := HDR_RECEIVED;
      }
      if now.Over? {
        state := BDY_RECEIVED;
      }
    }

    // The body in `data`, read from `s0`, is what has been handed over, then the fragment
    // data[mark..end] not yet handed over, then what is read from state `s` at `q` on. What has
    // been handed over lies below the fragment, so nothing from `mark` on has been overwritten.
    ghost predicate Gathered(buf: array<Byte>, s0: Spot, data: Bytes, mark: nat, end: nat, s: Spot, q: nat)
      reads `outBuf, `outBufLen, `outBufIndex, buf
    {
      && mark <= end <= q <= |data| <= buf.Length
      && buf[mark..|data|] == data[mark..]
      && (outBuf != null ==>
        && outBuf == buf && outBufIndex <= mark && |data| <= outBufLen
        && BodyOf(parser, s0, data) == buf[..outBufIndex] + data[mark..end] + BodyOf(parser, s, data[q..]))
    }

    // The parser has read `data` from `s0` up to `p` without an error.
    ghost predicate Tracks(s0: Spot, data: Bytes, p: nat)
      requires p <= |data|
      reads `pstate, `state
    {
      && Single(parser, pstate, data[p..])
      && After(parser, s0, data) == After(parser, pstate, data[p..])
      && Fails(parser, s0, data) == Fails(parser, pstate, data[p..])
      && Agrees(state, parser.stage(pstate))
      && !parser.stage(pstate).Failed?
    }

    lemma {:induction false} GatherByte(buf: array<Byte>, s0: Spot, data: Bytes, mark: nat, p: nat, s: Spot)
      requires p < |data| && Gathered(buf, s0, data, mark, p, s, p)
      ensures buf[p] == data[p]
      ensures Gathered(buf, s0, data, mark, if parser.data(s, data[p]) then p + 1 else p,
                       parser.next(s, data[p]), p + 1)
    {
      assert buf[p] == buf[mark..|data|][p - mark] == data[mark..][p - mark];
      assert data[p..][0] == data[p] && data[p..][1..] == data[p + 1..];
      assert data[mark..p + 1] == data[mark..p] + [data[p]];
      if outBuf != null {
        var tail := BodyOf(parser, parser.next(s, data[p]), data[p + 1..]);
        assert buf[..outBufIndex] + data[mark..p] + ([data[p]] + tail)
            == buf[..outBufIndex] + (data[mark..p] + [data[p]]) + tail;
      }
    }

    // http_get_body never finds the buffer full here: the branch that "shouldn't happen".
    method HandOver(buf: array<Byte>, ghost s0: Spot, ghost data: Bytes, mark: nat, end: nat,
                    ghost s: Spot, ghost q: nat) returns (rc: int)
      requires Gathered(buf, s0, data, mark, end, s, q)
      modifies buf, `outBufIndex
      ensures rc == 0
      ensures Gathered(buf, s0, data, end, end, s, q)
      ensures outBuf == null ==> outBufIndex == old(outBufIndex)
    {
      SameFragment(buf[..], data, mark, end);
      rc := GetBody(buf, mark, end - mark);
      SameFragment(buf[..], data, end, end);
    }

    lemma {:induction false} TrackByte(s0: Spot, data: Bytes, p: nat)
      requires p < |data| && Tracks(s0, data, p)
      ensures !parser.stage(pstate).Over?
      ensures var s := parser.next(pstate, data[p]);
        && Single(parser, s, data[p + 1..])
        && After(parser, s0, data) == After(parser, s, data[p + 1..])
        && (Fails(parser, s0, data) <==> parser.stage(s).Failed? || Fails(parser, s, data[p + 1..]))
    {
      assert data[p..][0] == data[p] && data[p..][1..] == data[p + 1..];
    }

    // Over a byte that is no body data
    lemma {:induction false} Skip(buf: array<Byte>, s0: Spot, data: Bytes, p: nat, s: Spot)
      requires p < |data| && Gathered(buf, s0, data, p, p, s, p + 1)
      ensures Gathered(buf, s0, data, p + 1, p + 1, s, p + 1)
    {
      assert buf[p + 1..|data|] == buf[p..|data|][1..];
      assert data[p + 1..] == data[p..][1..];
      assert data[p..p] == data[p + 1..p + 1];
    }

    // The parser at byte `p`, with the fragment buf[mark..p] not handed over yet
    method ParseByte(buf: array<Byte>, ghost s0: Spot, ghost data: Bytes, mark: nat, p: nat)
      returns (ok: bool, newMark: nat)
      requires Sane(parser) && p < |data|
      requires Gathered(buf, s0, data, mark, p, pstate, p) && Tracks(s0, data, p)
      modifies buf, `pstate, `state, `outBufIndex
      ensures ok ==> Gathered(buf, s0, data, newMark, p + 1, pstate, p + 1) && Tracks(s0, data, p + 1)
      ensures !ok ==> Fails(parser, s0, data)
      ensures state >= old(state)
      ensures outBuf == null ==> outBufIndex == old(outBufIndex)
    {
      GatherByte(buf, s0, data, mark, p, pstate);
      TrackByte(s0, data, p);
      newMark := mark;
      var ch := buf[p];
      var next := parser.next(pstate, ch);
      var isData := parser.data(pstate, ch);
      if !isData || parser.cut(pstate, ch) || parser.stage(next).Over? {
        var end := if isData then p + 1 else p;
        var rc := HandOver(buf, s0, data, mark, end, next, p + 1);
        if rc != 0 {
          return false, newMark;
        }
        if !isData {
          Skip(buf, s0, data, p, next);
        }
        newMark := p + 1;
      }
      Advance(ch);
      ok := !parser.stage(pstate).Failed?;
    }

    lemma {:induction false} AllParsed(buf: array<Byte>, s0: Spot, data: Bytes)
      requires Gathered(buf, s0, data, |data|, |data|, pstate, |data|) && Tracks(s0, data, |data|)
      ensures pstate == After(parser, s0, data) && !Fails(parser, s0, data)
      ensures outBuf != null ==> outBufIndex <= |data| && buf[..outBufIndex] == BodyOf(parser, s0, data)
    {
      assert data[|data|..] == data[|data|..|data|] == [];
    }

    // All bytes of buf[..n] but for the fragment that is pending at the end
    method ParseBytes(buf: array<Byte>, ghost s0: Spot, ghost data: Bytes, n: nat) returns (p: nat, mark: nat)
      requires Sane(parser) && n <= buf.Length && data == buf[..n] && s0 == pstate
      requires Single(parser, pstate, data)
      requires Agrees(state, parser.stage(pstate)) && !parser.stage(pstate).Failed?
      requires outBuf != null ==> outBuf == buf && outBufIndex == 0 && n <= outBufLen
      modifies buf, `pstate, `state, `outBufIndex
      ensures p <= n && (p < n ==> Fails(parser, s0, data))
      ensures p == n ==> Gathered(buf, s0, data, mark, n, pstate, n) && Tracks(s0, data, n)
      ensures p == n ==> state >= old(state)
      ensures outBuf == null ==> outBufIndex == old(outBufIndex)
    {
      assert data[0..] == data;
      mark, p := 0, 0;
      while p < n
        invariant 0 <= mark <= p <= n
        invariant Gathered(buf, s0, data, mark, p, pstate, p)
        invariant Tracks(s0, data, p) && state >= old(state)
        invariant outBuf == null ==> outBufIndex == old(outBufIndex)
      {
        var ok;
        ok, mark := ParseByte(buf, s0, data, mark, p);
        if !ok {
          return;
        }
        p := p + 1;
      }
    }

    // http_parser_execute over buf[..n]: the number of bytes parsed, `n` unless it failed
    method Execute(buf: array<Byte>, n: nat) returns (parsed: int)
      requires Sane(parser) && 0 < n <= buf.Length
      requires Agrees(state, parser.stage(pstate)) && !parser.stage(pstate).Failed?
      requires Single(parser, pstate, buf[..n])
      requires outBuf != null ==> outBuf == buf && outBufIndex == 0 && n <= outBufLen
      modifies buf, `pstate, `state, `outBufIndex
      ensures parsed == n <==> !Fails(parser, old(pstate), old(buf[..n]))
      ensures parsed == n ==>
        && pstate == After(parser, old(pstate), old(buf[..n]))
        && Agrees(state, parser.stage(pstate)) && !parser.stage(pstate).Failed? && state >= old(state)
      ensures parsed == n && outBuf != null ==>
        && outBufIndex <= n
        && buf[..outBufIndex] == BodyOf(parser, old(pstate), old(buf[..n]))
      ensures outBuf == null ==> outBufIndex == old(outBufIndex)
    {
      ghost var data := buf[..n];
      ghost var s0 := pstate;
      var p, mark := ParseBytes(buf, s0, data, n);
      if p != n {
        return p;
      }
      var rc := HandOver(buf, s0, data, mark, n, pstate, n);
      if rc != 0 {
        return mark;
      }
      AllParsed(buf, s0, data);
      parsed := n;
    }

    // http_parser_execute with no bytes: the peer has closed
    method ExecuteAtClose() returns (parsed: int)
      requires Sane(parser) && Parsing() && !parser.stage(pstate).Over?
      modifies `pstate, `state
      ensures parsed == 0 <==> parser.stage(old(pstate)).Idle? || parser.stage(pstate).Over?
      ensures pstate == parser.close(old(pstate))
      ensures parsed == 0 ==>
        && Agrees(state, parser.stage(pstate))
        && state == if parser.stage(old(pstate)).Idle? then old(state) else BDY_RECEIVED
    {
      pstate := parser.close(pstate);
      if parser.stage(pstate).Failed? {
        return 1;
      }
      if parser.stage(pstate).Over? {
        state := BDY_RECEIVED;
      }
      parsed := 0;
    }

    // One read and its parsing. With `discard` the body goes nowhere; otherwise it is left in
    // the first outBufIndex bytes of the buffer it was read into. A timeout changes nothing, and
    // a close before the first byte of the answer is no error.
    method ReadAndParse(buf: array<Byte>, discard: bool) returns (status: int)
      requires Sane(parser) && Parsing() && !parser.stage(pstate).Over?
      requires buf.Length > 0
      modifies buf, `wire, `arrivals, `pstate, `state, `outBuf, `outBufLen, `outBufIndex
      ensures status == ReadStatus(parser, old(pstate), old(wire), old(arrivals), buf.Length)
      ensures arrivals == Later(old(arrivals))
      ensures status == 0 ==>
        var n := NextRead(old(wire), old(arrivals), buf.Length);
        && wire == old(wire)[n..] && pstate == NextSpot(parser, old(pstate), old(wire), n)
        && Parsing() && state >= old(state)
        && (n == 0 ==> parser.stage(pstate).Over? || (pstate == old(pstate) && state == old(state)))
      ensures status == 0 ==>
        && Complete() == old(Complete())
        && Quiet() == old(Quiet())
        && outBufIndex <= buf.Length
        && (parser.stage(pstate).InHead() ==> old(parser.stage(pstate)).InHead())
        && (discard || parser.stage(pstate).InHead() ==> outBufIndex == 0)
        && (!discard ==> BodyOf(parser, old(pstate), old(wire)) == buf[..outBufIndex] + BodyOf(parser, pstate, wire))
      ensures status == -EAGAIN ==>
        && pstate == old(pstate) && state == old(state) && wire == old(wire)
        && old(arrivals) != [] && old(arrivals)[0].TimedOut?
      ensures status != -1 ==> Reliable() == old(Reliable())
      ensures status == -1 ==> (!old(Complete()) && !old(Quiet())) || !old(Reliable())
    {
      if discard {
        outBuf, outBufLen, outBufIndex := null, 0, 0;
      } else {
        outBuf, outBufLen, outBufIndex := buf, buf.Length, 0;
      }
      ghost var s0, w0 := pstate, wire;
      var n := ConnRead(buf);
      if n < 0 {
        return n;
      }
      var parsed;
      if n == 0 {
        RanOut(parser, s0);
        parsed := ExecuteAtClose();
        RanOut(parser, pstate);
      } else {
        ghost var data := buf[..n];
        assert w0 == data + wire;
        ReadLeaves(parser, s0, data, wire);
        parsed := Execute(buf, n);
      }
      if parsed != n {
        return -1;
      }
      return 0;
    }

    // Once hung, every read returns 0 and leaves the connection hung: the loops around it, which
    // wait for a later state, go on for ever.
    method ReadOn(buf: array<Byte>, discard: bool, rounds: nat)
      requires Sane(parser) && Parsing() && Hung() && buf.Length > 0
      modifies buf, `wire, `arrivals, `pstate, `state, `outBuf, `outBufLen, `outBufIndex
      ensures Parsing() && Hung() && pstate == old(pstate) && state == old(state) < HDR_RECEIVED
    {
      for i := 0 to rounds
        invariant Parsing() && Hung() && pstate == old(pstate) && state == old(state)
      {
        var status := ReadAndParse(buf, discard);
        assert status == 0;
      }
    }

    // header_parser: HUNG stands for a loop that does not end.
    method HeaderLoop(buf: array<Byte>) returns (status: int)
      requires Sane(parser) && Parsing() && parser.stage(pstate).InHead()
      requires buf.Length > 0
      modifies buf, `wire, `arrivals, `pstate, `state, `outBuf, `outBufLen, `outBufIndex
      ensures status == HeadOutcome(parser, old(pstate), old(wire), old(arrivals), buf.Length)
      ensures status == 0 || status == -1 || status == -EAGAIN || status == HUNG
      ensures |arrivals| <= |old(arrivals)|
      ensures status != -1 ==>
        && Parsing() && Complete() == old(Complete()) && Quiet() == old(Quiet())
        && Reliable() == old(Reliable())
      ensures status == 0 ==>
        && state >= HDR_RECEIVED
        && outBufIndex <= buf.Length
        && BodyOf(parser, old(pstate), old(wire)) == buf[..outBufIndex] + BodyOf(parser, pstate, wire)
      ensures status == -EAGAIN || status == HUNG ==>
        && old(state) <= state < HDR_RECEIVED
        && BodyOf(parser, old(pstate), old(wire)) == BodyOf(parser, pstate, wire)
      ensures status == -EAGAIN ==> |arrivals| < |old(arrivals)|
      ensures status == HUNG ==> Hung()
      ensures status == -1 ==> (!old(Complete()) && !old(Quiet())) || !old(Reliable())
    {
      ghost var body := BodyOf(parser, pstate, wire);
      ghost var outcome := HeadOutcome(parser, pstate, wire, arrivals, buf.Length);
      while state < HDR_RECEIVED
        invariant Parsing() && Complete() == old(Complete()) && Quiet() == old(Quiet())
        invariant Reliable() == old(Reliable())
        invariant |arrivals| <= |old(arrivals)|
        invariant outcome == if state < HDR_RECEIVED then HeadOutcome(parser, pstate, wire, arrivals, buf.Length) else 0
        invariant state < HDR_RECEIVED ==> BodyOf(parser, pstate, wire) == body && state >= old(state)
        invariant state >= HDR_RECEIVED ==>
          outBufIndex <= buf.Length && body == buf[..outBufIndex] + BodyOf(parser, pstate, wire)
        decreases |wire|, BDY_RECEIVED - state, |arrivals|
      {
        if Hung() {
          return HUNG;
        }
        status := ReadAndParse(buf, false);
        if status < 0 {
          return;
        }
      }
      status := 0;
    }

    // http_header_fetch: body data read along with the headers is kept for http_response_recv.
    method HeaderFetch() returns (rc: int)
      requires Valid()
      modifies this
      ensures rc == if old(state) >= RESP_STARTED then 0
        else HeadOutcome(parser, old(pstate), old(wire), old(arrivals), HTTPC_BUF_SIZE)
      ensures rc == 0 || rc == -1 || rc == -EAGAIN || rc == HUNG
      ensures rc != -1 ==>
        && Valid() && Complete() == old(Complete()) && Quiet() == old(Quiet())
        && Reliable() == old(Reliable())
        && Remaining() == old(Remaining())
        && (overflow == null || overflow == old(overflow) || fresh(overflow))
      ensures rc == 0 ==> (old(Prompt()) ==> Prompt())
      ensures rc == -EAGAIN ==> !Prompt()
      ensures rc == HUNG ==> Hung()
      ensures rc == -1 ==> (!old(Complete()) && !old(Quiet())) || !old(Reliable())
    {
      if state < RESP_STARTED {
        state := RESP_STARTED;
        overflow := new Byte[HTTPC_BUF_SIZE];
        var status := HeaderLoop(overflow);
        if status < 0 {
          return status;
        }
        if outBufIndex != 0 {
          overflowLen := outBufIndex;
          overflowIndex := 0;
        } else {
          overflow := null;
        }
      }
      return 0;
    }

    // What the overflow buffer still holds
    ghost function Kept(): Bytes
      requires overflow != null ==> overflowIndex <= overflowLen <= overflow.Length
      reads this, overflow
    {
      if overflow == null then [] else overflow[overflowIndex..overflowLen]
    }

    method TakeKept(buf: array<Byte>) returns (copyLen: nat)
      requires overflow != null && overflowIndex <= overflowLen <= overflow.Length
      requires buf.Length > 0 && buf != overflow
      modifies `overflow, `overflowIndex, buf
      ensures overflow == null || overflow == old(overflow)
      ensures overflow != null ==> overflowIndex < overflowLen <= overflow.Length
      ensures copyLen <= buf.Length && (copyLen == 0 <==> old(overflowIndex) == overflowLen)
      ensures copyLen == 0 ==> overflow == null
      ensures old(Kept()) == buf[..copyLen] + Kept()
    {
      var totalLen := overflowLen - overflowIndex;
      copyLen := if buf.Length <= totalLen then buf.Length else totalLen;
      CopyOut(buf, overflow, overflowIndex, copyLen);
      if copyLen == totalLen {
        overflow := null;
      } else {
        overflowIndex := overflowIndex + copyLen;
      }
    }

    // The undelivered part of the overflow buffer, or as much of it as `buf` takes: nothing, if
    // the buffer is one that a timeout has left behind
    method RecvOverflow(buf: array<Byte>) returns (copyLen: nat)
      requires Valid() && overflow != null && buf.Length > 0 && buf != overflow && state >= HDR_RECEIVED
      modifies `overflow, `overflowIndex, buf
      ensures Valid() && Prompt()
      ensures copyLen <= buf.Length
      ensures copyLen == 0 <==> !old(Prompt())
      ensures copyLen == 0 ==> overflow == null
      ensures old(Remaining()) == buf[..copyLen] + Remaining()
      ensures overflow == null || overflow == old(overflow)
    {
      KeptFirst();
      copyLen := TakeKept(buf);
      KeptFirst();
      Regroup(buf[..copyLen], Kept(), BodyOf(parser, pstate, wire));
    }

    lemma {:induction false} KeptFirst()
      requires overflow != null ==> overflowIndex <= overflowLen <= overflow.Length
      ensures Remaining() == Kept() + BodyOf(parser, pstate, wire)
    {
      var rest := BodyOf(parser, pstate, wire);
      if overflow == null || overflowIndex == overflowLen {
        assert Kept() == [];
        assert [] + rest == rest;
      }
    }

    // The first part of http_response_recv: the headers, if they have not been read yet, and the
    // body data that came with them
    method RecvHeaders(buf: array<Byte>) returns (rc: int)
      requires Valid() && buf.Length > 0 && buf != overflow
      modifies buf, `wire, `arrivals, `pstate, `state, `outBuf, `outBufLen, `outBufIndex
      ensures -1 <= rc <= buf.Length || rc == -EAGAIN || rc == HUNG
      ensures old(state) < HDR_RECEIVED ==>
        var outcome := HeadOutcome(parser, old(pstate), old(wire), old(arrivals), buf.Length);
        if outcome == 0 then rc >= 0 else rc == outcome
      ensures rc == HUNG <==> old(Quiet()) && AllReady(old(arrivals))
      ensures rc >= 0 ==> !old(Quiet())
      ensures rc != -1 ==>
        && Valid() && Complete() == old(Complete()) && Quiet() == old(Quiet())
        && Reliable() == old(Reliable())
      ensures rc >= 0 ==> state >= HDR_RECEIVED && old(Remaining()) == buf[..rc] + Remaining()
      ensures old(state) >= HDR_RECEIVED ==> rc == 0
      ensures rc == -EAGAIN || rc == HUNG ==> Remaining() == old(Remaining())
      ensures rc == -EAGAIN ==> |arrivals| < |old(arrivals)|
      ensures rc == HUNG ==> Hung()
      ensures rc == -1 ==> (!old(Complete()) && !old(Quiet())) || !old(Reliable())
      ensures |arrivals| <= |old(arrivals)|
    {
      if state < RESP_STARTED {
        state := RESP_STARTED;
      }
      if state < HDR_RECEIVED {
        HungIff(parser, pstate, wire, arrivals, buf.Length);
        rc := HeaderLoop(buf);
        if rc < 0 {
          return;
        }
        return outBufIndex;
      }
      NotQuiet();
      return 0;
    }

    // Past the headers, a wire is no longer silent.
    lemma {:induction false} NotQuiet()
      requires Valid() && state >= HDR_RECEIVED
      ensures !Quiet()
    {
      if Quiet() {
        SilentIsIdle(parser, pstate, wire);
      }
    }

    // http_response_recv. A timeout loses nothing. A result of 0 comes too early in one case:
    // when a header fetch has timed out before. It does not return if the peer closes before the
    // first byte of its answer.
    method Recv(buf: array<Byte>) returns (rc: int)
      requires Valid() && buf.Length > 0 && buf != overflow
      modifies this, buf
      ensures rc > 0 ==>
        && rc <= buf.Length
        && old(Remaining()) == buf[..rc] + Remaining()
      ensures rc == 0 ==> overflow == null
      ensures rc == 0 && old(Prompt()) ==> old(Remaining()) == [] && old(Complete()) && state == BDY_RECEIVED
      ensures rc == 0 && !old(Prompt()) ==> Remaining() == old(Remaining()) && Prompt()
      ensures !old(Prompt()) && old(state) >= HDR_RECEIVED ==> rc == 0
      ensures !old(Prompt()) && (rc > 0 || rc == -EAGAIN) ==> !Prompt() && (rc > 0 ==> state >= HDR_RECEIVED)
      ensures rc == -EAGAIN ==> Remaining() == old(Remaining()) && |arrivals| < |old(arrivals)|
      ensures rc == HUNG <==> old(Quiet()) && AllReady(old(arrivals))
      ensures rc >= 0 ==> !old(Quiet())
      ensures rc == HUNG ==> Hung() && Remaining() == old(Remaining())
      ensures rc != -1 ==>
        && Valid() && Complete() == old(Complete()) && Quiet() == old(Quiet())
        && Reliable() == old(Reliable())
        && (overflow == null || overflow == old(overflow))
        && (old(Prompt()) ==> Prompt())
      ensures rc < 0 ==> rc == -1 || rc == -EAGAIN || rc == HUNG
      ensures rc == -1 ==> (!old(Complete()) && !old(Quiet())) || !old(Reliable())
      ensures |arrivals| <= |old(arrivals)|
    {
      rc := RecvHeaders(buf);
      if rc != 0 {
        return;
      }
      if overflow != null {
        rc := RecvOverflow(buf);
        return;
      }
      rc := RecvBody(buf);
    }

    // The last part of http_response_recv: read until there is body data or the message is over
    method RecvBody(buf: array<Byte>) returns (rc: int)
      requires Valid() && state >= HDR_RECEIVED && overflow == null && buf.Length > 0
      modifies this, buf
      ensures rc > 0 ==>
        && rc <= buf.Length
        && old(Remaining()) == buf[..rc] + Remaining()
      ensures rc == 0 ==> old(Remaining()) == [] && old(Complete()) && state == BDY_RECEIVED
      ensures rc == -EAGAIN ==> Remaining() == old(Remaining()) && |arrivals| < |old(arrivals)|
      ensures rc != -1 ==>
        && Valid() && Complete() == old(Complete()) && overflow == null && !Quiet()
        && Reliable() == old(Reliable())
      ensures rc < 0 ==> rc == -1 || rc == -EAGAIN
      ensures rc == -1 ==> !old(Complete()) || !old(Reliable())
      ensures |arrivals| <= |old(arrivals)|
    {
      ghost var body := BodyOf(parser, pstate, wire);
      NotQuiet();
      while true
        invariant Valid() && Complete() == old(Complete()) && overflow == null && !Quiet()
        invariant Reliable() == old(Reliable())
        invariant |arrivals| <= |old(arrivals)|
        invariant state >= HDR_RECEIVED
        invariant body == BodyOf(parser, pstate, wire)
        decreases |wire|, BDY_RECEIVED - state
      {
        if state < BDY_RECEIVED {
          var status := ReadAndParse(buf, false);
          if status < 0 {
            return status;
          }
          if outBufIndex != 0 {
            return outBufIndex;
          }
        } else {
          break;
        }
      }
      OverIsLast(parser, pstate, wire);
      rc := 0;
    }

    // The left-over data of the last request, flushed before a new one, however many reads time
    // out on the way: HUNG stands for a loop that does not end.
    method Flush() returns (status: int)
      requires Sane(parser) && Parsing()
      modifies `wire, `arrivals, `pstate, `state, `outBuf, `outBufLen, `outBufIndex
      ensures status == 0 || status == -1 || status == HUNG
      ensures status == HUNG <==> old(Quiet()) && old(Reliable())
      ensures status == HUNG ==> Hung()
      ensures status == 0 ==> Parsing() && state >= BDY_RECEIVED && wire == [] && old(Complete())
      ensures status == -1 ==> !old(Complete()) || !old(Reliable())
    {
      var buf := new Byte[FLUSH_BUF_SIZE];
      while state < BDY_RECEIVED
        invariant Parsing() && Complete() == old(Complete()) && Quiet() == old(Quiet())
        invariant Reliable() == old(Reliable())
        decreases |wire|, BDY_RECEIVED - state, |arrivals|
      {
        if Hung() {
          return HUNG;
        }
        status := ReadAndParse(buf, true);
        if status == -EAGAIN {
          continue;
        }
        if status < 0 {
          return;
        }
      }
      OverIsLast(parser, pstate, wire);
      status := 0;
    }

    // http_request_new. An overflow buffer that is still held is leaked: a client that has not
    // received to the end leaves one behind, or one whose header fetch has timed out.
    method RequestNew() returns (rc: int, leaked: bool)
      requires Valid()
      modifies this
      ensures rc == 0 || rc == -1 || rc == HUNG
      ensures leaked <==> rc == 0 && old(overflow) != null
      ensures rc == HUNG <==> old(state) > REQ_NEW && old(Quiet()) && old(Reliable())
      ensures rc == HUNG ==> Hung()
      ensures rc == 0 ==> Valid() && state == REQ_NEW && pstate == parser.start && overflow == null
      ensures rc == 0 && old(state) > REQ_NEW ==> wire == [] && Remaining() == []
      ensures rc == -1 ==> old(state) < CONNECTION_DONE || !old(Complete()) || !old(Reliable())
    {
      if state < CONNECTION_DONE {
        return -1, false;
      }
      if state > REQ_NEW {
        var status := Flush();
        if status < 0 {
          return status, false;
        }
      }
      leaked := overflow != null;
      outBuf, outBufLen, outBufIndex := null, 0, 0;
      overflow, overflowLen, overflowIndex := null, 0, 0;
      state := REQ_NEW;
      pstate := parser.start;
      return 0, leaked;
    }

    // http_request_send and the server's answer to it: what the next calls return is the body
    // of this answer alone.
    method RequestSend(response: Bytes, arrivals: seq<Arrival>)
      requires Valid() && state == REQ_NEW && pstate == parser.start && wire == []
      requires Single(parser, parser.start, response)
      modifies this
      ensures Valid() && Prompt() && Remaining() == BodyOf(parser, parser.start, response)
      ensures Complete() <==> Whole(parser, parser.start, response)
    {
      state := REQ_HDR_SENT;
      wire := response;
      this.arrivals := arrivals;
    }

    // A call of a client with a new buffer, made again after each timeout
    method ReceiveOne(size: nat) returns (piece: Bytes, rc: int)
      requires Valid() && size > 0
      modifies this
      ensures -1 <= rc <= size || rc == HUNG
      ensures |piece| == (if rc > 0 then rc else 0)
      ensures rc == HUNG <==> old(Quiet()) && old(Reliable())
      ensures rc >= 0 ==>
        && Valid() && Complete() == old(Complete()) && Quiet() == old(Quiet())
        && Reliable() == old(Reliable())
        && old(Remaining()) == piece + Remaining()
        && (overflow == null || overflow == old(overflow))
        && (old(Prompt()) ==> Prompt())
      ensures rc == 0 ==> overflow == null
      ensures rc == 0 && old(Prompt()) ==> Remaining() == [] && old(Complete())
      ensures !old(Prompt()) && old(state) >= HDR_RECEIVED ==> rc == 0
      ensures !old(Prompt()) && rc > 0 ==> !Prompt() && state >= HDR_RECEIVED
      ensures rc == -1 ==> !old(Complete()) || !old(Reliable())
    {
      var buf := new Byte[size];
      while true
        invariant Valid() && Complete() == old(Complete()) && Quiet() == old(Quiet())
        invariant Reliable() == old(Reliable())
        invariant overflow == null || overflow == old(overflow)
        invariant Prompt() == old(Prompt()) && Remaining() == old(Remaining())
        invariant !old(Prompt()) && old(state) >= HDR_RECEIVED ==> state >= HDR_RECEIVED
        decreases |arrivals|
      {
        rc := Recv(buf);
        if rc != -EAGAIN {
          piece := if rc > 0 then buf[..rc] else [];
          return;
        }
      }
    }

    // A client that receives with buffers of any sizes until it is told to stop. Sizes beyond
    // the list are HTTPC_BUF_SIZE.
    method Drain(sizes: seq<nat>) returns (body: Bytes, rc: int)
      requires Valid()
      requires forall i :: 0 <= i < |sizes| ==> sizes[i] > 0
      modifies this
      ensures rc == 0 || rc == -1 || rc == HUNG
      ensures rc == HUNG <==> old(Quiet()) && old(Reliable())
      ensures rc == 0 ==> body <= old(Remaining()) && overflow == null
      ensures rc == 0 && old(Prompt()) ==> old(Complete()) && body == old(Remaining())
      ensures rc == 0 && !old(Prompt()) ==>
        |body| <= if old(state) >= HDR_RECEIVED then 0 else if sizes == [] then HTTPC_BUF_SIZE else sizes[0]
      ensures rc == -1 ==> !old(Complete()) || !old(Reliable())
      decreases |Remaining()|
    {
      body, rc := ReceiveOne(if sizes == [] then HTTPC_BUF_SIZE else sizes[0]);
      if rc > 0 {
        var piece := body;
        body, rc := Drain(if sizes == [] then [] else sizes[1..]);
        body := piece + body;
      }
    }

    // A client that fetches the headers first or not, and then receives. What it gets is all of
    // the body, unless its fetch has timed out: then it is at most one buffer of it.
    method ReceiveAll(fetch: bool, sizes: seq<nat>) returns (body: Bytes, rc: int, fetched: int)
      requires Valid() && Prompt()
      requires forall i :: 0 <= i < |sizes| ==> sizes[i] > 0
      modifies this
      ensures rc == 0 || rc == -1 || rc == HUNG
      ensures fetched == if !fetch || old(state) >= RESP_STARTED then 0
        else HeadOutcome(parser, old(pstate), old(wire), old(arrivals), HTTPC_BUF_SIZE)
      ensures rc == HUNG <==> old(Quiet()) && old(Reliable())
      ensures rc == 0 ==> body <= old(Remaining()) && overflow == null
      ensures rc == 0 && fetched == 0 ==> old(Complete()) && body == old(Remaining())
      ensures rc == 0 && fetched != 0 ==> |body| <= if sizes == [] then HTTPC_BUF_SIZE else sizes[0]
      ensures rc == -1 ==> !old(Complete()) || !old(Reliable())
      ensures old(Complete()) && old(Reliable()) ==> rc == 0
      ensures rc == 0 && |old(Remaining())| > (if sizes == [] then HTTPC_BUF_SIZE else sizes[0]) ==>
        (body == old(Remaining()) <==> fetched == 0)
    {
      if Quiet() {
        SilentIsIdle(parser, pstate, wire);
      }
      fetched := 0;
      if fetch {
        fetched := HeaderFetch();
        if fetched == -1 || fetched == HUNG {
          return [], fetched, fetched;
        }
      }
      body, rc := Drain(sizes);
    }
  }

  // The empty response: whatever the parser and the buffers, the client waits for ever.
  method ReceiveNothing(parser: Parser, fetch: bool, sizes: seq<nat>) returns (rc: int)
    requires Sane(parser)
    requires forall i :: 0 <= i < |sizes| ==> sizes[i] > 0
    ensures rc == HUNG
  {
    var conn := new Conn(parser, [], []);
    var body, fetched;
    body, rc, fetched := conn.ReceiveAll(fetch, sizes);
  }
}
