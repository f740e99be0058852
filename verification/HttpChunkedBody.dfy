/**
 The two halves of the HTTP component together: a response whose body is what
 http_send_chunk and http_send_last_chunk write, received by http_response_recv.
 */
module HttpChunkedBody {
  import opened Common
  import opened HttpBody
  import opened HttpChunk
  import HttpClient

  // ---- A parser for such responses: headers up to the first empty line, then chunks ----

  // The phases; with SIZE_MORE and SIZE_LF comes the chunk size read, with DATA the bytes to come.
  const START: nat := 0
  const IN_LINE: nat := 1
  const LINE_START: nat := 2
  const SIZE_FIRST: nat := 3
  const SIZE_MORE: nat := 4
  const SIZE_LF: nat := 5
  const DATA: nat := 6
  const DATA_CR: nat := 7
  const DATA_LF: nat := 8
  const END_CR: nat := 9
  const END_LF: nat := 10
  const ALL_READ: nat := 11
  const BAD: nat := 12

  function At(p: nat): Spot {
    Spot(p, 0)
  }

  function Expect(b: Byte, wanted: Byte, next: Spot): Spot {
    if b == wanted then next else At(BAD)
  }

  function Step(s: Spot, b: Byte): Spot {
    match s.phase
    case 0 => if b == CR || b == LF then s else At(IN_LINE)
    case 1 => At(if b == LF then LINE_START else IN_LINE)
    case 2 => At(if b == LF then SIZE_FIRST else if b == CR then LINE_START else IN_LINE)
    case 3 => if IsHex(b) then Spot(SIZE_MORE, HexValue(b)) else At(BAD)
    case 4 => if IsHex(b) then Spot(SIZE_MORE, s.left * 16 + HexValue(b)) else Expect(b, CR, Spot(SIZE_LF, s.left))
    case 5 => Expect(b, LF, if s.left == 0 then At(END_CR) else Spot(DATA, s.left))
    case 6 => if s.left > 1 then Spot(DATA, s.left - 1) else At(DATA_CR)
    case 7 => Expect(b, CR, At(DATA_LF))
    case 8 => Expect(b, LF, At(SIZE_FIRST))
    case 9 => Expect(b, CR, At(END_LF))
    case 10 => Expect(b, LF, At(ALL_READ))
    case _ => At(BAD)
  }

  function StageAt(s: Spot): Stage {
    if s.phase == START then Idle
    else if s.phase <= LINE_START then Headers
    else if s.phase < ALL_READ then Body
    else if s.phase == ALL_READ then Over
    else Failed
  }

  function ChunkParser(): Parser {
    Parser(At(START), Step, StageAt, (s: Spot, b: Byte) => s.phase == DATA,
           (s: Spot, b: Byte) => false, (s: Spot) => if s.phase == START then s else At(BAD))
  }

  lemma {:induction false} ChunkParserIsSane()
    ensures Sane(ChunkParser())
  {
    var p := ChunkParser();
    forall s: Spot, b: Byte
      ensures p.stage(p.next(s, b)).Idle? ==> p.stage(s).Idle?
      ensures p.stage(s).Body? ==> !p.stage(p.next(s, b)).Headers?
    {
      NeverBack(s, b);
    }
  }

  lemma {:induction false} NeverBack(s: Spot, b: Byte)
    ensures StageAt(Step(s, b)).Idle? ==> StageAt(s).Idle?
    ensures StageAt(s).Body? ==> !StageAt(Step(s, b)).Headers?
  {
  }

  // ---- What it reads ----

  // Reading `w` leads from `s` to `t`, yields `body`, and neither fails nor goes past the end.
  predicate Reads(s: Spot, w: Bytes, t: Spot, body: Bytes) {
    var p := ChunkParser();
    After(p, s, w) == t && BodyOf(p, s, w) == body && !Fails(p, s, w) && Single(p, s, w)
  }

  lemma {:induction false} Then(s: Spot, a: Bytes, t: Spot, x: Bytes, b: Bytes, u: Spot, y: Bytes)
    requires Reads(s, a, t, x) && Reads(t, b, u, y)
    ensures Reads(s, a + b, u, x + y)
  {
    ReadInTwo(ChunkParser(), s, a, b);
  }

  lemma {:induction false} One(s: Spot, b: Byte, t: Spot)
    requires Step(s, b) == t && !StageAt(s).Over? && !StageAt(t).Failed?
    ensures Reads(s, [b], t, if s.phase == DATA then [b] else [])
  {
    var p := ChunkParser();
    assert [b][1..] == [];
    assert After(p, s, [b]) == After(p, t, []);
    assert BodyOf(p, t, []) == [];
  }

  lemma {:induction false} ReadsHex(n: nat)
    ensures Reads(At(SIZE_FIRST), Hex(n), Spot(SIZE_MORE, n), [])
    decreases n
  {
    var d := HexDigit(n % 16);
    assert IsHex(d) && HexValue(d) == n % 16;
    if n < 16 {
      One(At(SIZE_FIRST), d, Spot(SIZE_MORE, n));
    } else {
      ReadsHex(n / 16);
      One(Spot(SIZE_MORE, n / 16), d, Spot(SIZE_MORE, n));
      Then(At(SIZE_FIRST), Hex(n / 16), Spot(SIZE_MORE, n / 16), [], [d], Spot(SIZE_MORE, n), []);
    }
  }

  lemma {:induction false} ReadsCrLf(s: Spot, t: Spot, u: Spot)
    requires Step(s, CR) == t && !StageAt(s).Over? && s.phase != DATA && !StageAt(t).Failed?
    requires Step(t, LF) == u && !StageAt(t).Over? && t.phase != DATA && !StageAt(u).Failed?
    ensures Reads(s, CrLf(), u, [])
  {
    One(s, CR, t);
    One(t, LF, u);
    Then(s, [CR], t, [], [LF], u, []);
  }

  lemma {:induction false} ReadsSizeLine(n: nat)
    requires n < WORD
    ensures Reads(At(SIZE_FIRST), SizeLine(n), if n == 0 then At(END_CR) else Spot(DATA, n), [])
  {
    var u := if n == 0 then At(END_CR) else Spot(DATA, n);
    ReadsHex(n);
    ReadsCrLf(Spot(SIZE_MORE, n), Spot(SIZE_LF, n), u);
    Then(At(SIZE_FIRST), Hex(n), Spot(SIZE_MORE, n), [], CrLf(), u, []);
    assert n % WORD == n;
  }

  lemma {:induction false} ReadsData(data: Bytes)
    requires data != []
    ensures Reads(Spot(DATA, |data|), data, At(DATA_CR), data)
    decreases |data|
  {
    var s := Spot(DATA, |data|);
    if |data| == 1 {
      One(s, data[0], At(DATA_CR));
      assert data == [data[0]];
    } else {
      var t := Spot(DATA, |data| - 1);
      One(s, data[0], t);
      ReadsData(data[1..]);
      Then(s, [data[0]], t, [data[0]], data[1..], At(DATA_CR), data[1..]);
      assert data == [data[0]] + data[1..];
    }
  }

  lemma {:induction false} ReadsChunk(data: Bytes)
    requires 0 < |data| < WORD
    ensures Reads(At(SIZE_FIRST), Chunk(data), At(SIZE_FIRST), data)
  {
    ReadsSizeLine(|data|);
    ReadsData(data);
    ReadsCrLf(At(DATA_CR), At(DATA_LF), At(SIZE_FIRST));
    Then(At(SIZE_FIRST), SizeLine(|data|), Spot(DATA, |data|), [], data, At(DATA_CR), data);
    assert [] + data == data && data + [] == data;
    Then(At(SIZE_FIRST), SizeLine(|data|) + data, At(DATA_CR), data, CrLf(), At(SIZE_FIRST), []);
  }

  lemma {:induction false} ReadsLastChunk()
    ensures Reads(At(SIZE_FIRST), LastChunk(), At(ALL_READ), [])
  {
    ReadsSizeLine(0);
    assert Hex(0) == [48];
    ReadsCrLf(At(END_CR), At(END_LF), At(ALL_READ));
    Then(At(SIZE_FIRST), SizeLine(0), At(END_CR), [], CrLf(), At(ALL_READ), []);
  }

  lemma {:induction false} ReadsPieces(pieces: seq<Bytes>)
    requires Sendable(pieces) && forall i :: 0 <= i < |pieces| ==> pieces[i] != []
    ensures Reads(At(SIZE_FIRST), Encode(pieces), At(ALL_READ), Concat(pieces))
    decreases |pieces|
  {
    if pieces == [] {
      ReadsLastChunk();
    } else {
      assert 0 < |pieces[0]| < WORD;
      ReadsChunk(pieces[0]);
      ReadsPieces(pieces[1..]);
      Then(At(SIZE_FIRST), Chunk(pieces[0]), At(SIZE_FIRST), pieces[0],
           Encode(pieces[1..]), At(ALL_READ), Concat(pieces[1..]));
    }
  }

  // ---- Header sections (section 3 of RFC 7230) ----

  predicate IsLine(line: Bytes) {
    line != [] && CR !in line && LF !in line
  }

  // The start line and the header fields, each ended by CRLF
  function Lines(lines: seq<Bytes>): Bytes {
    if lines == [] then [] else lines[0] + CrLf() + Lines(lines[1..])
  }

  function Head(lines: seq<Bytes>): Bytes {
    Lines(lines) + CrLf()
  }

  predicate IsHead(lines: seq<Bytes>) {
    lines != [] && forall i :: 0 <= i < |lines| ==> IsLine(lines[i])
  }

  lemma {:induction false} ReadsLine(s: Spot, line: Bytes)
    requires IsLine(line) && (s == At(START) || s == At(IN_LINE) || s == At(LINE_START))
    ensures Reads(s, line, At(IN_LINE), [])
    decreases |line|
  {
    assert line[0] in line;
    One(s, line[0], At(IN_LINE));
    if |line| == 1 {
      assert line == [line[0]];
    } else {
      assert forall b :: b in line[1..] ==> b in line;
      ReadsLine(At(IN_LINE), line[1..]);
      Then(s, [line[0]], At(IN_LINE), [], line[1..], At(IN_LINE), []);
      assert line == [line[0]] + line[1..];
    }
  }

  lemma {:induction false} ReadsLines(s: Spot, lines: seq<Bytes>)
    requires forall i :: 0 <= i < |lines| ==> IsLine(lines[i])
    requires s == At(LINE_START) || (s == At(START) && lines != [])
    ensures Reads(s, Lines(lines), At(LINE_START), [])
    decreases |lines|
  {
    if lines == [] {
      assert Lines(lines) == [];
    } else {
      var line := lines[0];
      ReadsLine(s, line);
      ReadsCrLf(At(IN_LINE), At(IN_LINE), At(LINE_START));
      Then(s, line, At(IN_LINE), [], CrLf(), At(LINE_START), []);
      ReadsLines(At(LINE_START), lines[1..]);
      Then(s, line + CrLf(), At(LINE_START), [], Lines(lines[1..]), At(LINE_START), []);
    }
  }

  lemma {:induction false} ReadsHead(lines: seq<Bytes>)
    requires IsHead(lines)
    ensures Reads(At(START), Head(lines), At(SIZE_FIRST), [])
  {
    ReadsLines(At(START), lines);
    ReadsCrLf(At(LINE_START), At(LINE_START), At(SIZE_FIRST));
    Then(At(START), Lines(lines), At(LINE_START), [], CrLf(), At(SIZE_FIRST), []);
  }

  // ---- Encoder and client ----

  // A response made of any header section and the encoding of any non-empty pieces is complete,
  // and its body is the concatenation of the pieces.
  lemma {:induction false} EncodedIsWhole(lines: seq<Bytes>, pieces: seq<Bytes>)
    requires IsHead(lines) && Sendable(pieces) && forall i :: 0 <= i < |pieces| ==> pieces[i] != []
    ensures var p := ChunkParser();
      var wire := Head(lines) + Encode(pieces);
      && Single(p, p.start, wire) && Whole(p, p.start, wire)
      && BodyOf(p, p.start, wire) == Concat(pieces)
  {
    ReadsHead(lines);
    ReadsPieces(pieces);
    Then(At(START), Head(lines), At(SIZE_FIRST), [], Encode(pieces), At(ALL_READ), Concat(pieces));
    assert [] + Concat(pieces) == Concat(pieces);
  }

  // From the encoder to the application: whatever the header lines, the pieces sent, the splits
  // into reads, the timeouts and the buffer sizes, the client gets exactly the pieces' bytes.
  method Transfer(lines: seq<Bytes>, pieces: seq<Bytes>, arrivals: seq<HttpClient.Arrival>, sizes: seq<nat>)
    returns (body: Bytes)
    requires IsHead(lines) && Sendable(pieces) && forall i :: 0 <= i < |pieces| ==> pieces[i] != []
    requires forall a :: a in arrivals ==> !a.Broken?
    requires forall i :: 0 <= i < |sizes| ==> sizes[i] > 0
    ensures body == Concat(pieces)
  {
    ChunkParserIsSane();
    EncodedIsWhole(lines, pieces);
    var conn := new HttpClient.Conn(ChunkParser(), Head(lines) + Encode(pieces), arrivals);
    var rc, fetched;
    body, rc, fetched := conn.ReceiveAll(false, sizes);
  }

  // The same response to a client that fetches the headers first, and whose first read times
  // out: for any body that does not fit its buffer, the client is told that the response has
  // ended after no more than one buffer of it.
  method EndsEarly(lines: seq<Bytes>, pieces: seq<Bytes>, size: nat) returns (body: Bytes, rc: int, fetched: int)
    requires IsHead(lines) && Sendable(pieces) && forall i :: 0 <= i < |pieces| ==> pieces[i] != []
    requires 0 < size < |Concat(pieces)|
    ensures fetched == -HttpClient.EAGAIN && rc == 0 && body < Concat(pieces) && |body| <= size
  {
    ChunkParserIsSane();
    EncodedIsWhole(lines, pieces);
    var conn := new HttpClient.Conn(ChunkParser(), Head(lines) + Encode(pieces), [HttpClient.TimedOut]);
    body, rc, fetched := conn.ReceiveAll(true, [size]);
  }
}
