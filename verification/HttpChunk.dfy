/**
 Chunked transfer coding (section 4.1 of RFC 7230): the encoder of
 `components/httpc/httpc.c` and a decoder written from the grammar.
 */
module HttpChunk {
  import opened Common
  import opened Transport

  const CR: Byte := 13
  const LF: Byte := 10
  const SEMICOLON: Byte := 59
  const WORD: nat := 0x1_0000_0000
  const LINE_BUF: nat := 12      // sizeof(start_chunk)

  function CrLf(): Bytes {
    [CR, LF]
  }

  // ---- Encoder ----

  function HexDigit(d: nat): Byte
    requires d < 16
  {
    if d < 10 then 48 + d else 87 + d
  }

  // What "%x" prints
  function Hex(n: nat): (s: Bytes)
    ensures s != []
  {
    if n < 16 then [HexDigit(n)] else Hex(n / 16) + [HexDigit(n % 16)]
  }

  function SizeLine(length: nat): Bytes {
    Hex(length % WORD) + CrLf()
  }

  function Chunk(data: Bytes): Bytes {
    SizeLine(|data|) + data + CrLf()
  }

  function LastChunk(): Bytes {
    [48] + CrLf() + CrLf()
  }

  // http_send_chunk
  function SendChunk(l: Link, data: Bytes): Written {
    var line := SizeLine(|data|);
    if |line| >= LINE_BUF then Written(l, -1)
    else
      var a := Write(l, line);
      if a.ret < 0 then Written(a.link, -1)
      else
        var b := Write(a.link, data);
        if b.ret < 0 then Written(b.link, -1)
        else
          var c := Write(b.link, CrLf());
          Written(c.link, if c.ret < 0 then -1 else 0)
  }

  // http_send_last_chunk
  function SendLast(l: Link): Written {
    var w := Write(l, LastChunk());
    Written(w.link, if w.ret < 0 then -1 else 0)
  }

  // ---- Decoder, from the grammar ----

  predicate IsHex(b: Byte) {
    48 <= b <= 57 || 65 <= b <= 70 || 97 <= b <= 102
  }

  function HexValue(b: Byte): nat
    requires IsHex(b)
  {
    if b <= 57 then b - 48 else if b <= 70 then b - 55 else b - 87
  }

  datatype Sized = Sized(size: nat, rest: Bytes)

  function ReadHex(s: Bytes, size: nat): Sized
    decreases |s|
  {
    if s != [] && IsHex(s[0]) then ReadHex(s[1..], size * 16 + HexValue(s[0])) else Sized(size, s)
  }

  // What follows the next CRLF
  function AfterLine(s: Bytes): (r: Option<Bytes>)
    ensures r.Some? ==> |r.value| < |s|
    decreases |s|
  {
    if |s| < 2 then None
    else if s[..2] == CrLf() then Some(s[2..])
    else AfterLine(s[1..])
  }

  // chunk-size [ chunk-ext ] CRLF
  function ReadSize(s: Bytes): (r: Option<Sized>)
    ensures r.Some? ==> |r.value.rest| < |s|
  {
    if s == [] || !IsHex(s[0]) then None
    else
      var d := ReadHex(s, 0);
      ReadHexShorter(s, 0);
      if d.rest != [] && (d.rest[0] == CR || d.rest[0] == SEMICOLON) then
        match AfterLine(d.rest)
        case None => None
        case Some(rest) => if d.rest[0] == CR && |rest| + 2 != |d.rest| then None else Some(Sized(d.size, rest))
      else None
  }

  lemma {:induction false} ReadHexShorter(s: Bytes, size: nat)
    ensures |ReadHex(s, size).rest| <= |s|
    decreases |s|
  {
    if s != [] && IsHex(s[0]) {
      ReadHexShorter(s[1..], size * 16 + HexValue(s[0]));
    }
  }

  // trailer-part CRLF
  function SkipTrailer(s: Bytes): Option<Bytes>
    decreases |s|
  {
    match AfterLine(s)
    case None => None
    case Some(rest) => if |rest| + 2 == |s| then Some(rest) else SkipTrailer(rest)
  }

  datatype Decoded = Decoded(body: Bytes, rest: Bytes)

  // chunked-body = *chunk last-chunk trailer-part CRLF, and what comes after it
  function Decode(s: Bytes): Option<Decoded>
    decreases |s|
  {
    match ReadSize(s)
    case None => None
    case Some(Sized(size, rest)) =>
      if size == 0 then
        match SkipTrailer(rest)
        case None => None
        case Some(after) => Some(Decoded([], after))
      else if |rest| < size + 2 || rest[size..size + 2] != CrLf() then None
      else
        match Decode(rest[size + 2..])
        case None => None
        case Some(d) => Some(Decoded(rest[..size] + d.body, d.rest))
  }

  // ---- Round trip ----

  lemma {:induction false} HexLength(n: nat, k: nat)
    requires k > 0 && n < Pow16(k)
    ensures |Hex(n)| <= k
    decreases k
  {
    if n >= 16 {
      assert Pow16(k) == 16 * Pow16(k - 1);
      HexLength(n / 16, k - 1);
    }
  }

  function Pow16(k: nat): nat {
    if k == 0 then 1 else 16 * Pow16(k - 1)
  }

  /** The size line always fits its buffer. */
  lemma {:induction false} SizeLineFits(length: nat)
    ensures |SizeLine(length)| <= 10 < LINE_BUF
  {
    assert Pow16(8) == WORD by {
      assert Pow16(4) == 65536;
      assert Pow16(8) == 16 * (16 * (16 * (16 * Pow16(4))));
    }
    HexLength(length % WORD, 8);
  }

  lemma {:induction false} ReadHexOfHex(n: nat, t: Bytes)
    ensures ReadHex(Hex(n) + t, 0) == ReadHex(t, n)
    ensures IsHex(Hex(n)[0])
    decreases n
  {
    var d := HexDigit(n % 16);
    if n < 16 {
      ReadDigit(0, n, t);
    } else {
      ReadHexOfHex(n / 16, [d] + t);
      assert Hex(n) + t == Hex(n / 16) + ([d] + t);
      ReadDigit(n / 16, n % 16, t);
    }
  }

  lemma {:induction false} ReadDigit(n: nat, digit: nat, t: Bytes)
    requires digit < 16
    ensures IsHex(HexDigit(digit)) && ReadHex([HexDigit(digit)] + t, n) == ReadHex(t, n * 16 + digit)
  {
    var s := [HexDigit(digit)] + t;
    assert HexValue(HexDigit(digit)) == digit;
    assert s[0] == HexDigit(digit) && s[1..] == t;
  }

  lemma {:induction false} ReadSizeLine(n: nat, t: Bytes)
    requires n < WORD
    ensures ReadSize(SizeLine(n) + t) == Some(Sized(n, t))
  {
    var s := CrLf() + t;
    assert SizeLine(n) + t == Hex(n) + s;
    ReadHexOfHex(n, s);
    assert (Hex(n) + s)[0] == Hex(n)[0];
    assert ReadHex(s, n) == Sized(n, s);
    assert s[..2] == CrLf() && s[2..] == t;
  }

  /** The digits are those of "%x": the letters are in lower case. */
  lemma {:induction false} HexIsLower(n: nat, i: nat)
    requires i < |Hex(n)|
    ensures 48 <= Hex(n)[i] <= 57 || 97 <= Hex(n)[i] <= 102
    decreases n
  {
    if n >= 16 && i < |Hex(n / 16)| {
      HexIsLower(n / 16, i);
    }
  }

  // The bytes of a whole transfer
  function Encode(pieces: seq<Bytes>): Bytes {
    if pieces == [] then LastChunk() else Chunk(pieces[0]) + Encode(pieces[1..])
  }

  function Concat(pieces: seq<Bytes>): Bytes {
    if pieces == [] then [] else pieces[0] + Concat(pieces[1..])
  }

  // Number of the first empty piece, the length of the list when there is none
  function FirstEmpty(pieces: seq<Bytes>): (k: nat)
    ensures k <= |pieces|
    ensures forall i :: 0 <= i < k ==> pieces[i] != []
    ensures k < |pieces| ==> pieces[k] == []
  {
    if pieces == [] || pieces[0] == [] then 0 else 1 + FirstEmpty(pieces[1..])
  }

  predicate Sendable(pieces: seq<Bytes>) {
    forall i :: 0 <= i < |pieces| ==> |pieces[i]| < WORD
  }

  lemma {:induction false} DecodeLast(tail: Bytes)
    ensures Decode(LastChunk() + tail) == Some(Decoded([], tail))
  {
    assert SizeLine(0) == [48] + CrLf();
    assert LastChunk() + tail == SizeLine(0) + (CrLf() + tail);
    ReadSizeLine(0, CrLf() + tail);
    assert (CrLf() + tail)[..2] == CrLf() && (CrLf() + tail)[2..] == tail;
  }

  lemma {:induction false} DecodeChunk(data: Bytes, tail: Bytes)
    requires 0 < |data| < WORD
    ensures Decode(Chunk(data) + tail) ==
            match Decode(tail) case None => None case Some(d) => Some(Decoded(data + d.body, d.rest))
  {
    var rest := data + CrLf() + tail;
    assert Chunk(data) + tail == SizeLine(|data|) + rest;
    ReadSizeLine(|data|, rest);
    assert rest[..|data|] == data && rest[|data|..|data| + 2] == CrLf() && rest[|data| + 2..] == tail;
  }

  lemma {:induction false} EncodeCons(pieces: seq<Bytes>, k: nat, tail: Bytes, body: Bytes)
    requires 0 < k <= |pieces|
    ensures Encode(pieces) + tail == Chunk(pieces[0]) + (Encode(pieces[1..]) + tail)
    ensures pieces[1..][k - 1..] == pieces[k..]
    ensures pieces[0] + (Concat(pieces[1..][..k - 1]) + body) == Concat(pieces[..k]) + body
  {
    assert pieces[1..][..k - 1] == pieces[..k][1..];
  }

  lemma {:induction false} DecodePieces(pieces: seq<Bytes>, k: nat, tail: Bytes, d: Decoded)
    requires Sendable(pieces) && k <= |pieces| && forall i :: 0 <= i < k ==> pieces[i] != []
    requires Decode(Encode(pieces[k..]) + tail) == Some(d)
    ensures Decode(Encode(pieces) + tail) == Some(Decoded(Concat(pieces[..k]) + d.body, d.rest))
    decreases k
  {
    if k == 0 {
      assert pieces[0..] == pieces;
      assert Concat(pieces[..0]) + d.body == d.body;
    } else {
      var rest := pieces[1..];
      EncodeCons(pieces, k, tail, d.body);
      DecodePieces(rest, k - 1, tail, d);
      DecodeChunk(pieces[0], Encode(rest) + tail);
    }
  }

  /** The decoder recovers the pieces before the first empty one, which ends the body on the wire. */
  lemma {:induction false} DecodeEncode(pieces: seq<Bytes>, tail: Bytes)
    requires Sendable(pieces)
    ensures var k := FirstEmpty(pieces);
            Decode(Encode(pieces) + tail) ==
            Some(Decoded(Concat(pieces[..k]), (if k == |pieces| then [] else Encode(pieces[k + 1..])) + tail))
  {
    var k := FirstEmpty(pieces);
    if k == |pieces| {
      DecodeLast(tail);
      assert pieces[k..] == [] && [] + tail == tail;
      DecodePieces(pieces, k, tail, Decoded([], tail));
    } else {
      var after := Encode(pieces[k + 1..]) + tail;
      assert Chunk([]) == LastChunk();
      assert pieces[k..][0] == [] && pieces[k..][1..] == pieces[k + 1..];
      assert Encode(pieces[k..]) + tail == LastChunk() + after;
      DecodeLast(after);
      DecodePieces(pieces, k, tail, Decoded([], after));
    }
    assert Concat(pieces[..k]) + [] == Concat(pieces[..k]);
  }

  lemma {:induction false} DecodeWhole(pieces: seq<Bytes>)
    requires Sendable(pieces) && forall i :: 0 <= i < |pieces| ==> pieces[i] != []
    ensures Decode(Encode(pieces)) == Some(Decoded(Concat(pieces), []))
  {
    DecodeEncode(pieces, []);
    assert Encode(pieces) + [] == Encode(pieces);
    assert pieces[..|pieces|] == pieces;
    var none: Bytes := [];
    assert none + none == none;
  }

  /** The whole body comes back if and only if nothing but empty pieces follows an empty piece. */
  lemma {:induction false} RoundTripIff(pieces: seq<Bytes>, tail: Bytes)
    requires Sendable(pieces)
    ensures Decode(Encode(pieces) + tail).Some?
    ensures Decode(Encode(pieces) + tail).value.body == Concat(pieces) <==> Concat(pieces[FirstEmpty(pieces)..]) == []
  {
    DecodeEncode(pieces, tail);
    ConcatSplit(pieces, FirstEmpty(pieces));
  }

  lemma {:induction false} ConcatSplit(pieces: seq<Bytes>, k: nat)
    requires k <= |pieces|
    ensures Concat(pieces) == Concat(pieces[..k]) + Concat(pieces[k..])
    decreases k
  {
    if k > 0 {
      ConcatSplit(pieces[1..], k - 1);
      assert pieces[..k][1..] == pieces[1..][..k - 1] && pieces[1..][k - 1..] == pieces[k..];
    } else {
      assert pieces[0..] == pieces;
    }
  }

  // ---- The calls ----

  /** A chunk that is reported as sent is on the wire if and only if each of its three writes was complete. */
  lemma {:induction false} ChunkSentIff(l: Link, data: Bytes)
    requires SendChunk(l, data).ret == 0
    ensures var a := Write(l, SizeLine(|data|));
            var b := Write(a.link, data);
            var c := Write(b.link, CrLf());
            SendChunk(l, data).link.wire == l.wire + Chunk(data)
            <==> a.ret == |SizeLine(|data|)| && b.ret == |data| && c.ret == |CrLf()|
  {
    SizeLineFits(|data|);
    var line := SizeLine(|data|);
    var a := Write(l, line);
    var b := Write(a.link, data);
    var c := Write(b.link, CrLf());
    assert SendChunk(l, data).link.wire == l.wire + (line[..a.ret] + data[..b.ret] + CrLf()[..c.ret]);
    if a.ret == |line| && b.ret == |data| && c.ret == 2 {
      assert line[..a.ret] == line && data[..b.ret] == data && CrLf()[..c.ret] == CrLf();
      assert l.wire + (line + data + CrLf()) == l.wire + Chunk(data);
    } else {
      assert |SendChunk(l, data).link.wire| == |l.wire| + a.ret + b.ret + c.ret;
    }
  }

  // http_send_chunk for each piece, then http_send_last_chunk
  function SendAll(l: Link, pieces: seq<Bytes>): Written
    decreases |pieces|
  {
    if pieces == [] then SendLast(l)
    else
      var w := SendChunk(l, pieces[0]);
      if w.ret < 0 then w else SendAll(w.link, pieces[1..])
  }

  lemma {:induction false} SendChunkWhole(l: Link, data: Bytes)
    requires l.script == []
    ensures SendChunk(l, data) == Written(Link(l.wire + Chunk(data), []), 0)
  {
    SizeLineFits(|data|);
    ChunkSentIff(l, data);
  }

  lemma {:induction false} SendAllEncodes(l: Link, pieces: seq<Bytes>)
    requires l.script == []
    ensures SendAll(l, pieces) == Written(Link(l.wire + Encode(pieces), []), 0)
    decreases |pieces|
  {
    if pieces == [] {
      assert LastChunk()[..5] == LastChunk();
    } else {
      SendChunkWhole(l, pieces[0]);
      SendAllEncodes(Link(l.wire + Chunk(pieces[0]), []), pieces[1..]);
      assert l.wire + Chunk(pieces[0]) + Encode(pieces[1..]) == l.wire + (Chunk(pieces[0]) + Encode(pieces[1..]));
    }
  }

  /** When the connection takes every write whole, the other side decodes exactly what was sent. */
  lemma {:induction false} SentIsDecoded(l: Link, pieces: seq<Bytes>)
    requires l.script == [] && Sendable(pieces)
    requires forall i :: 0 <= i < |pieces| ==> pieces[i] != []
    ensures SendAll(l, pieces) == Written(Link(l.wire + Encode(pieces), []), 0)
    ensures Decode(Encode(pieces)) == Some(Decoded(Concat(pieces), []))
  {
    SendAllEncodes(l, pieces);
    DecodeWhole(pieces);
  }

  // ---- What a call returns and leaves on the wire, for any results of its writes ----

  // None of the first n writes fails.
  predicate NoneFails(script: seq<int>, n: nat) {
    forall i :: 0 <= i < n && i < |script| ==> script[i] >= 0
  }

  // What is left of the script after n writes one after the other, of which a failing one is the last
  function Left(script: seq<int>, n: nat): seq<int>
    decreases n
  {
    if n == 0 || script == [] then script
    else if script[0] < 0 then script[1..]
    else Left(script[1..], n - 1)
  }

  // The writes made are those up to the first that fails, if one does, or all of them.
  lemma {:induction false} LeftAfter(script: seq<int>, n: nat)
    ensures var made := if NoneFails(script, n) then Min(n, |script|) else |script| - |Left(script, n)|;
      && 0 <= made <= |script| && Left(script, n) == script[made..]
      && (!NoneFails(script, n) ==> made > 0 && script[made - 1] < 0 && NoneFails(script, made - 1))
    decreases n
  {
    if n > 0 && script != [] && script[0] >= 0 {
      NoneFailsCons(script, n);
      LeftAfter(script[1..], n - 1);
      var made := |script| - |Left(script, n)|;
      assert script[1..][made - 1..] == script[made..];
      if !NoneFails(script, n) {
        NoneFailsCons(script, made - 1);
      }
    }
  }

  function Min(a: nat, b: nat): nat {
    if a <= b then a else b
  }

  lemma {:induction false} NoneFailsCons(script: seq<int>, n: nat)
    requires script != [] && n > 0
    ensures NoneFails(script, n) <==> script[0] >= 0 && NoneFails(script[1..], n - 1)
  {
    if script[0] >= 0 && NoneFails(script[1..], n - 1) {
      forall i | 0 <= i < n && i < |script|
        ensures script[i] >= 0
      {
        if i > 0 {
          assert script[1..][i - 1] == script[i];
        }
      }
    }
    if NoneFails(script, n) {
      assert forall i :: 0 <= i < |script| - 1 ==> script[1..][i] == script[i + 1];
    }
  }

  // The bytes that such writes of the buffers put on the wire: of each as many as are taken
  function OnWire(script: seq<int>, buffers: seq<Bytes>): Bytes
    decreases |buffers|
  {
    if buffers == [] then []
    else if script == [] || script[0] > |buffers[0]| then buffers[0] + OnWire(Left(script, 1), buffers[1..])
    else if script[0] < 0 then []
    else buffers[0][..script[0]] + OnWire(script[1..], buffers[1..])
  }

  // `w` is what writing the buffers one after the other amounts to, whatever the connection takes of
  // each: 0 if and only if no write fails, -1 otherwise, with no write after the one that fails.
  predicate Amounts(l: Link, buffers: seq<Bytes>, w: Written) {
    && w.ret == (if NoneFails(l.script, |buffers|) then 0 else -1)
    && w.link == Link(l.wire + OnWire(l.script, buffers), Left(l.script, |buffers|))
  }

  lemma {:induction false} OneWrite(l: Link, buffers: seq<Bytes>)
    requires buffers != []
    ensures var w := Write(l, buffers[0]);
      && w.link.script == Left(l.script, 1)
      && (w.ret < 0 <==> !NoneFails(l.script, 1))
      && (w.ret < 0 ==> w.link.wire == l.wire + OnWire(l.script, buffers))
      && (w.ret >= 0 ==> w.link.wire + OnWire(w.link.script, buffers[1..]) == l.wire + OnWire(l.script, buffers))
  {
    var w := Write(l, buffers[0]);
    if w.ret >= 0 {
      var part := if w.ret > 0 then buffers[0][..w.ret] else [];
      assert part == buffers[0][..w.ret] && buffers[0][..|buffers[0]|] == buffers[0];
      assert OnWire(l.script, buffers) == part + OnWire(w.link.script, buffers[1..]);
    }
  }

  lemma {:induction false} LeftTwice(script: seq<int>, m: nat, n: nat)
    ensures NoneFails(script, m + n) <==> NoneFails(script, m) && NoneFails(Left(script, m), n)
    ensures Left(script, m + n) == if NoneFails(script, m) then Left(Left(script, m), n) else Left(script, m)
    decreases m
  {
    if m > 0 && script != [] {
      NoneFailsCons(script, m + n);
      NoneFailsCons(script, m);
      if script[0] >= 0 {
        LeftTwice(script[1..], m - 1, n);
      }
    }
  }

  // The buffers that one chunk is written from
  function ChunkBuffers(data: Bytes): seq<Bytes> {
    [SizeLine(|data|), data, CrLf()]
  }

  /** A call returns 0 if and only if none of its three writes fails, and -1 otherwise. */
  lemma {:induction false} ChunkResult(l: Link, data: Bytes)
    ensures Amounts(l, ChunkBuffers(data), SendChunk(l, data))
  {
    SizeLineFits(|data|);
    var bs := ChunkBuffers(data);
    OneWrite(l, bs);
    LeftTwice(l.script, 1, 2);
    var a := Write(l, bs[0]);
    if a.ret >= 0 {
      assert bs[1..] == [data, CrLf()];
      RestOfChunk(a.link, data);
    }
  }

  lemma {:induction false} RestOfChunk(l: Link, data: Bytes)
    ensures var b := Write(l, data);
      var c := Write(b.link, CrLf());
      && (NoneFails(l.script, 2) <==> b.ret >= 0 && c.ret >= 0)
      && (if b.ret < 0 then b.link else c.link) == Link(l.wire + OnWire(l.script, [data, CrLf()]), Left(l.script, 2))
  {
    var b := Write(l, data);
    OneWrite(l, [data, CrLf()]);
    LeftTwice(l.script, 1, 1);
    assert [data, CrLf()][1..] == [CrLf()];
    OneWrite(b.link, [CrLf()]);
    assert [CrLf()][1..] == [];
  }

  /** The same of the call that ends the body, with its one write. */
  lemma {:induction false} LastResult(l: Link)
    ensures Amounts(l, [LastChunk()], SendLast(l))
  {
    OneWrite(l, [LastChunk()]);
    assert [LastChunk()][1..] == [];
  }

  // The buffers of a whole transfer
  function AllBuffers(pieces: seq<Bytes>): (bs: seq<Bytes>)
    ensures |bs| == 3 * |pieces| + 1
  {
    if pieces == [] then [LastChunk()] else ChunkBuffers(pieces[0]) + AllBuffers(pieces[1..])
  }

  lemma {:induction false} OnWireSplit(script: seq<int>, a: seq<Bytes>, b: seq<Bytes>)
    ensures OnWire(script, a + b) ==
            OnWire(script, a) + if NoneFails(script, |a|) then OnWire(Left(script, |a|), b) else []
    decreases |a|
  {
    if a == [] {
      assert a + b == b;
    } else {
      assert (a + b)[1..] == a[1..] + b && (a + b)[0] == a[0];
      LeftTwice(script, 1, |a| - 1);
      OnWireSplit(Left(script, 1), a[1..], b);
    }
  }

  // Writing more buffers if none of the first has failed
  lemma {:induction false} AmountsThen(l: Link, a: seq<Bytes>, b: seq<Bytes>, v: Written, w: Written)
    requires Amounts(l, a, v) && (v.ret == 0 ==> Amounts(v.link, b, w))
    ensures Amounts(l, a + b, if v.ret < 0 then v else w)
  {
    OnWireSplit(l.script, a, b);
    LeftTwice(l.script, |a|, |b|);
    if v.ret == 0 {
      Regroup(l.wire, OnWire(l.script, a), OnWire(v.link.script, b));
    } else {
      assert OnWire(l.script, a) + [] == OnWire(l.script, a);
    }
  }

  /**
   A transfer piece by piece returns 0 if and only if none of its writes, three for each piece and
   one for the end, fails; and -1 otherwise, after no further write.
   */
  lemma {:induction false} AllResult(l: Link, pieces: seq<Bytes>)
    ensures Amounts(l, AllBuffers(pieces), SendAll(l, pieces))
    decreases |pieces|
  {
    if pieces == [] {
      LastResult(l);
    } else {
      ChunkResult(l, pieces[0]);
      var w := SendChunk(l, pieces[0]);
      if w.ret == 0 {
        AllResult(w.link, pieces[1..]);
        AmountsThen(l, ChunkBuffers(pieces[0]), AllBuffers(pieces[1..]), w, SendAll(w.link, pieces[1..]));
      } else {
        AmountsThen(l, ChunkBuffers(pieces[0]), AllBuffers(pieces[1..]), w, w);
      }
    }
  }

  lemma {:induction false} Regroup(a: Bytes, b: Bytes, c: Bytes)
    ensures a + b + c == a + (b + c)
  {
  }

  class ChunkSender {
    const tls: Tls

    constructor (tls: Tls)
      ensures this.tls == tls
    {
      this.tls := tls;
    }

    method HttpSendChunk(data: Bytes) returns (ret: int)
      modifies tls
      ensures Written(tls.link, ret) == SendChunk(old(tls.link), data)
    {
      var startChunk := Hex(|data| % WORD) + CrLf();
      if |startChunk| <= 0 || |startChunk| >= LINE_BUF {
        return -1;
      }
      var r := tls.ConnWrite(startChunk);
      if r < 0 {
        return -1;
      }
      r := tls.ConnWrite(data);
      if r < 0 {
        return -1;
      }
      r := tls.ConnWrite(CrLf());
      if r < 0 {
        return -1;
      }
      return 0;
    }

    method HttpSendLastChunk() returns (ret: int)
      modifies tls
      ensures Written(tls.link, ret) == SendLast(old(tls.link))
    {
      var r := tls.ConnWrite(LastChunk());
      if r < 0 {
        return -1;
      }
      return 0;
    }
  }
}
