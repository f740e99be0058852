/** What creation, rewiring, events and destruction keep of the pipeline's wiring. */
module PipeRuns {
  import opened Common
  import opened PipeSpec

  // The ring buffer the stream or codec of a block writes to, and the one it reads from
  function Writes(e: Env, b: Block): Option<nat> {
    match b.btype
    case StreamBlock =>
      if b.cfg in e.streams && e.streams[b.cfg].io.RbWrite? then Some(e.streams[b.cfg].io.rb) else None
    case CodecBlock =>
      if b.cfg in e.codecs && e.codecs[b.cfg].output.RbWrite? then Some(e.codecs[b.cfg].output.rb) else None
    case CustomBlock => None
  }

  function Reads(e: Env, b: Block): Option<nat> {
    match b.btype
    case StreamBlock =>
      if b.cfg in e.streams && e.streams[b.cfg].io.RbRead? then Some(e.streams[b.cfg].io.rb) else None
    case CodecBlock =>
      if b.cfg in e.codecs && e.codecs[b.cfg].input.RbRead? then Some(e.codecs[b.cfg].input.rb) else None
    case CustomBlock => None
  }

  // Block `w` owns `r` and is its only writer, and the block after it is its only reader.
  predicate JoinedAt(p: Pipe, r: nat, w: nat) {
    && w + 1 < |p.blocks| && p.blocks[w].rb == r
    && (forall j :: 0 <= j < |p.blocks| ==> (Writes(p.env, p.blocks[j]) == Some(r) <==> j == w))
    && (forall j :: 0 <= j < |p.blocks| ==> (Reads(p.env, p.blocks[j]) == Some(r) <==> j == w + 1))
  }

  ghost predicate Joined(p: Pipe, r: nat) {
    r in p.env.rbs && exists w :: JoinedAt(p, r, w)
  }

  // Every ring buffer that any endpoint refers to exists, with one writer and one reader.
  ghost predicate Sound(p: Pipe) {
    forall j :: 0 <= j < |p.blocks| ==>
      && (Writes(p.env, p.blocks[j]).Some? ==> Joined(p, Writes(p.env, p.blocks[j]).value))
      && (Reads(p.env, p.blocks[j]).Some? ==> Joined(p, Reads(p.env, p.blocks[j]).value))
  }

  predicate EnvOk(e: Env) {
    && NULL !in e.rbs && NULL < e.next
    && (forall r :: r in e.rbs ==> r < e.next)
  }

  predicate LiveStream(e: Env, id: nat, kind: StreamKind, io: Io) {
    id in e.streams && e.streams[id] == Stream(kind, io, true)
  }

  function Last(p: Pipe): Block
    requires |p.blocks| >= 2
  {
    p.blocks[|p.blocks| - 1]
  }

  predicate Shape(p: Pipe) {
    && p.cnt == |p.blocks| && 2 <= |p.blocks| <= 3
    && !p.blocks[0].btype.CodecBlock?
    && (|p.blocks| == 3 ==> p.blocks[1].btype.CodecBlock?)
    && Last(p).btype.StreamBlock? && Last(p).rb == NULL
  }

  predicate InputOk(p: Pipe)
    requires Shape(p)
  {
    var b := p.blocks[0];
    if b.btype.StreamBlock?
    then b.cfg != Last(p).cfg && b.rb in p.env.rbs && LiveStream(p.env, b.cfg, Reader, RbWrite(b.rb))
    else b.rb == NULL || b.rb in p.env.rbs
  }

  // The codec reads the ring of the input stream, or the user's callback.
  predicate CodecOk(p: Pipe)
    requires Shape(p) && |p.blocks| == 3
  {
    var a, b := p.blocks[0], p.blocks[1];
    && b.rb in p.env.rbs && a.rb != b.rb
    && b.cfg in p.env.codecs
    && var c := p.env.codecs[b.cfg];
    && c.live && c.output == RbWrite(b.rb)
    && (if a.btype.StreamBlock? then c.input == RbRead(a.rb) else c.input.User?)
  }

  predicate OutputOk(p: Pipe)
    requires Shape(p)
  {
    LiveStream(p.env, Last(p).cfg, Writer, RbRead(p.blocks[|p.blocks| - 2].rb))
  }

  // The wiring in full
  predicate Fit(p: Pipe) {
    && EnvOk(p.env) && Shape(p) && InputOk(p) && OutputOk(p)
    && (if |p.blocks| == 3 then CodecOk(p) else p.blocks[0].btype.StreamBlock?)
  }

  lemma {:induction false} FitIsSound(p: Pipe)
    requires Fit(p)
    ensures Sound(p)
  {
    if |p.blocks| == 3 {
      assert JoinedAt(p, p.blocks[1].rb, 1);
      if p.blocks[0].btype.StreamBlock? {
        assert JoinedAt(p, p.blocks[0].rb, 0);
      }
    } else {
      assert JoinedAt(p, p.blocks[0].rb, 0);
    }
  }

  lemma {:induction false} CodecIsAt(p: Pipe)
    requires Shape(p)
    ensures CodecAt(p.blocks) == if |p.blocks| == 3 then 1 else 2
  {
    if |p.blocks| == 3 {
      assert p.blocks[1..][0] == p.blocks[1];
    } else {
      assert p.blocks[1..][0] == Last(p);
    }
  }

  // A new input stream: a reader that is not in use, or the one already plugged in
  predicate NewStream(p: Pipe, id: nat) {
    && id in p.env.streams && p.env.streams[id].kind.Reader?
    && (!p.env.streams[id].live || (p.blocks != [] && p.blocks[0].btype.StreamBlock? && p.blocks[0].cfg == id))
  }

  predicate NewCodec(p: Pipe, id: nat) {
    id in p.env.codecs ==> !p.env.codecs[id].live || (|p.blocks| == 3 && p.blocks[1].cfg == id)
  }

  lemma {:induction false} ReplaceStreamKeepsFit(p: Pipe, id: nat, initOk: bool)
    requires Fit(p) && NewStream(p, id) && p.blocks[0].btype.StreamBlock?
    ensures var o := ReplaceStream(p, 0, id, initOk);
      && Fit(o.pipe) && |o.pipe.blocks| == |p.blocks|
      && (o.err.ESP_OK? <==> initOk || id == p.blocks[0].cfg)
      && (o.err.ESP_OK? ==> o.pipe.blocks[0].cfg == id && o.pipe.blocks[0].rb == p.blocks[0].rb)
      && (!o.err.ESP_OK? ==> o.pipe == p)
      && (id != p.blocks[0].cfg && initOk ==> !o.pipe.env.streams[p.blocks[0].cfg].live)
  {
    CodecIsAt(p);
  }

  lemma {:induction false} PlugStreamKeepsFit(p: Pipe, id: nat, rbOk: bool, initOk: bool)
    requires Fit(p) && NewStream(p, id) && p.blocks[0].btype.CustomBlock?
    ensures var o := PlugStream(p, id, rbOk, initOk);
      && Fit(o.pipe) && |o.pipe.blocks| == 3
      && !o.err.ESP_OK?
      && (rbOk && initOk <==> o.pipe.blocks[0].btype.StreamBlock?)
      && (rbOk && initOk ==>
        && o.pipe.blocks[0].cfg == id
        && o.pipe.env.rbs[o.pipe.blocks[0].rb] == p.blocks[0].rbSize
        && o.pipe.env.codecs[p.blocks[1].cfg].input == RbRead(o.pipe.blocks[0].rb))
  {
    CodecIsAt(p);
    var o := PlugStream(p, id, rbOk, initOk);
    if rbOk && initOk {
      var b := p.blocks[0];
      var rb := p.env.next;
      var q := WithBlock(p, 0, b.(rb := rb), RbInit(p.env, b.rbSize));
      var s := WithBlock(q, 0, Block(StreamBlock, id, rb, b.rbSize), StreamInit(q.env, id, RbWrite(rb)));
      assert s.blocks[1..] == p.blocks[1..];
      CodecIsAt(s);
    }
  }

  lemma {:induction false} SetInputStreamKeepsFit(p: Pipe, id: nat, rbOk: bool, initOk: bool)
    requires Fit(p) && NewStream(p, id)
    ensures var o := SetInputStream(p, id, rbOk, initOk); Fit(o.pipe) && |o.pipe.blocks| == |p.blocks|
  {
    if Idle(p) {
      if p.blocks[0].btype.StreamBlock? {
        ReplaceStreamKeepsFit(p, id, initOk);
      } else {
        PlugStreamKeepsFit(p, id, rbOk, initOk);
      }
    }
  }

  lemma {:induction false} SetCodecKeepsFit(p: Pipe, id: nat, initOk: bool)
    requires Fit(p) && NewCodec(p, id)
    ensures CodecAt(p.blocks) < |p.blocks| <==> |p.blocks| == 3
    ensures |p.blocks| == 3 ==> p.blocks[CodecAt(p.blocks)].cfg in p.env.codecs
    ensures var o := SetCodec(p, id, initOk);
      && Fit(o.pipe) && |o.pipe.blocks| == |p.blocks|
      && (o.err.ESP_OK? <==> Idle(p) && |p.blocks| == 3 && (initOk || id == p.blocks[1].cfg))
      && (o.err.ESP_OK? ==> o.pipe.blocks[1].cfg == id)
      && (!o.err.ESP_OK? ==> o.pipe == p)
  {
    CodecIsAt(p);
  }

  lemma {:induction false} SetInputCbKeepsFit(p: Pipe, fn: nat)
    requires Fit(p) && |p.blocks| == 3
    ensures var o := SetInputCb(p, fn);
      && Fit(o.pipe) && |o.pipe.blocks| == 3
      && (o.err.ESP_OK? <==> Idle(p))
      && (o.err.ESP_OK? ==> o.pipe.blocks[0].btype.CustomBlock? && o.pipe.env.codecs[p.blocks[1].cfg].input == User(fn))
  {
    CodecIsAt(p);
    CodecIsAt(Unplug(p));
  }

  // The output stream of a pipeline without a codec is left reading a ring buffer that is gone.
  lemma {:induction false} SetInputCbSoundIff(p: Pipe, fn: nat)
    requires Fit(p) && Idle(p)
    ensures Sound(SetInputCb(p, fn).pipe) <==> |p.blocks| == 3
    ensures SetInputCb(p, fn).err.ESP_OK?
  {
    CodecIsAt(p);
    if |p.blocks| == 3 {
      SetInputCbKeepsFit(p, fn);
      FitIsSound(SetInputCb(p, fn).pipe);
    } else {
      var q := Unplug(p);
      CodecIsAt(q);
      var rb := p.blocks[0].rb;
      assert q.blocks[1] == Last(p);
      assert Reads(q.env, q.blocks[1]) == Some(rb);
      assert rb !in q.env.rbs;
      assert !Joined(q, rb);
    }
  }

  // ----------------------------------------------------------------------------- ring buffers

  function RbsOf(blocks: seq<Block>): set<nat> {
    if blocks == [] then {}
    else (if blocks[0].rb != NULL then {blocks[0].rb} else {}) + RbsOf(blocks[1..])
  }

  lemma {:induction false} RbsOfThree(blocks: seq<Block>)
    requires 2 <= |blocks| <= 3
    ensures RbsOf(blocks) ==
      (if blocks[0].rb != NULL then {blocks[0].rb} else {})
      + (if blocks[1].rb != NULL then {blocks[1].rb} else {})
      + (if |blocks| == 3 && blocks[2].rb != NULL then {blocks[2].rb} else {})
  {
    assert blocks[1..][0] == blocks[1];
    assert RbsOf(blocks[1..][1..]) == if |blocks| == 3 && blocks[2].rb != NULL then {blocks[2].rb} else {} by {
      if |blocks| == 3 {
        assert blocks[1..][1..] == [blocks[2]];
        assert [blocks[2]][1..] == [];
      } else {
        assert blocks[1..][1..] == [];
      }
    }
  }

  // Besides `others`, the ring buffers in existence are those the pipeline will free.
  predicate NoLeak(p: Pipe, others: set<nat>) {
    p.env.rbs.Keys == others + RbsOf(p.blocks)
  }

  // Plugging a stream in leaks a ring buffer exactly if an earlier attempt left one behind.
  lemma {:induction false} PlugStreamLeaksIff(p: Pipe, others: set<nat>, id: nat, rbOk: bool, initOk: bool)
    requires Fit(p) && NewStream(p, id) && p.blocks[0].btype.CustomBlock?
    requires NoLeak(p, others) && others !! RbsOf(p.blocks)
    ensures NoLeak(PlugStream(p, id, rbOk, initOk).pipe, others) <==> p.blocks[0].rb == NULL
    ensures var q := PlugStream(p, id, rbOk, false).pipe;
      q.blocks[0].btype.CustomBlock? && (q.blocks[0].rb != NULL <==> rbOk)
  {
    var q := PlugStream(p, id, rbOk, initOk).pipe;
    PlugStreamKeepsFit(p, id, rbOk, initOk);
    RbsOfThree(p.blocks);
    RbsOfThree(q.blocks);
    PlugRings(p, id, rbOk, initOk);
    var a, b := p.blocks[0].rb, p.blocks[1].rb;
    if a != NULL {
      assert a in RbsOf(p.blocks);
      assert a in q.env.rbs.Keys;
      assert a !in others + RbsOf(q.blocks);
    }
  }

  lemma {:induction false} PlugRings(p: Pipe, id: nat, rbOk: bool, initOk: bool)
    requires Fit(p) && NewStream(p, id) && p.blocks[0].btype.CustomBlock?
    ensures var q := PlugStream(p, id, rbOk, initOk).pipe;
      && |q.blocks| == 3 && q.blocks[1].rb == p.blocks[1].rb && q.blocks[2].rb == NULL
      && q.blocks[0].rb == (if rbOk then p.env.next else NULL)
      && q.env.rbs.Keys == p.env.rbs.Keys + (if rbOk then {p.env.next} else {})
  {
    CodecIsAt(p);
    if rbOk && initOk {
      var b := p.blocks[0];
      var rb := p.env.next;
      var q := WithBlock(p, 0, b.(rb := rb), RbInit(p.env, b.rbSize));
      CodecIsAt(WithBlock(q, 0, Block(StreamBlock, id, rb, b.rbSize), StreamInit(q.env, id, RbWrite(rb))));
    }
  }

  // The other calls leak nothing.
  lemma {:induction false} InputCbLeaksNothing(p: Pipe, others: set<nat>, fn: nat)
    requires Fit(p) && NoLeak(p, others) && others !! RbsOf(p.blocks)
    ensures var q := SetInputCb(p, fn).pipe; NoLeak(q, others) && others !! RbsOf(q.blocks)
  {
    CodecIsAt(p);
    CodecIsAt(Unplug(p));
    RbsOfThree(p.blocks);
    RbsOfThree(Unplug(p).blocks);
    assert p.blocks[0].btype.StreamBlock? ==> p.blocks[0].rb in RbsOf(p.blocks);
  }

  lemma {:induction false} SwapStreamLeaksNothing(p: Pipe, others: set<nat>, id: nat, initOk: bool)
    requires Fit(p) && NoLeak(p, others) && p.blocks[0].btype.StreamBlock? && NewStream(p, id)
    ensures var q := ReplaceStream(p, 0, id, initOk).pipe; NoLeak(q, others) && RbsOf(q.blocks) == RbsOf(p.blocks)
  {
    RbsOfThree(p.blocks);
    RbsOfThree(ReplaceStream(p, 0, id, initOk).pipe.blocks);
  }

  lemma {:induction false} SwapCodecLeaksNothing(p: Pipe, others: set<nat>, id: nat, initOk: bool)
    requires Fit(p) && NoLeak(p, others) && |p.blocks| == 3 && NewCodec(p, id)
    ensures var q := ReplaceCodec(p, 1, id, initOk).pipe; NoLeak(q, others) && RbsOf(q.blocks) == RbsOf(p.blocks)
  {
    RbsOfThree(p.blocks);
    RbsOfThree(ReplaceCodec(p, 1, id, initOk).pipe.blocks);
  }

  // Destruction frees the ring buffers of the blocks and no others.
  lemma {:induction false} DestroyFreesRings(e: Env, blocks: seq<Block>)
    ensures DestroyBlocks(e, blocks).rbs.Keys == e.rbs.Keys - RbsOf(blocks)
    decreases |blocks|
  {
    if blocks != [] {
      DestroyFreesRings(DestroyBlock(e, blocks[0]), blocks[1..]);
    }
  }

  predicate Dead(e: Env, b: Block) {
    && (b.btype.StreamBlock? && b.cfg in e.streams ==> !e.streams[b.cfg].live)
    && (b.btype.CodecBlock? && b.cfg in e.codecs ==> !e.codecs[b.cfg].live)
  }

  lemma {:induction false} DeadStays(e: Env, b: Block, c: Block)
    requires Dead(e, b)
    ensures Dead(DestroyBlock(e, c), b)
  {
  }

  lemma {:induction false} DeadStaysAll(e: Env, b: Block, blocks: seq<Block>)
    requires Dead(e, b)
    ensures Dead(DestroyBlocks(e, blocks), b)
    decreases |blocks|
  {
    if blocks != [] {
      DeadStays(e, b, blocks[0]);
      DeadStaysAll(DestroyBlock(e, blocks[0]), b, blocks[1..]);
    }
  }

  lemma {:induction false} DestroyKillsAll(e: Env, blocks: seq<Block>)
    ensures forall b :: b in blocks ==> Dead(DestroyBlocks(e, blocks), b)
    decreases |blocks|
  {
    if blocks != [] {
      var f := DestroyBlock(e, blocks[0]);
      DestroyKillsAll(f, blocks[1..]);
      DeadStaysAll(f, blocks[0], blocks[1..]);
    }
  }

  // A pipeline that has not leaked is gone without a trace.
  lemma {:induction false} DestroyIsComplete(p: Pipe, others: set<nat>)
    requires NoLeak(p, others) && others !! RbsOf(p.blocks)
    ensures DestroyBlocks(p.env, p.blocks).rbs.Keys == others
    ensures forall b :: b in p.blocks ==> Dead(DestroyBlocks(p.env, p.blocks), b)
  {
    DestroyFreesRings(p.env, p.blocks);
    DestroyKillsAll(p.env, p.blocks);
  }

  // ------------------------------------------------------- freed ring buffers still referred to

  predicate Live(e: Env, b: Block) {
    match b.btype
    case StreamBlock => b.cfg in e.streams && e.streams[b.cfg].live
    case CodecBlock => b.cfg in e.codecs && e.codecs[b.cfg].live
    case CustomBlock => false
  }

  // The stream or codec of the block is live, and refers to a ring buffer that has been freed.
  predicate Dangles(e: Env, b: Block) {
    && Live(e, b)
    && ((Writes(e, b).Some? && Writes(e, b).value !in e.rbs) || (Reads(e, b).Some? && Reads(e, b).value !in e.rbs))
  }

  // Destruction, with the first `i` blocks gone
  function Gone(p: Pipe, i: nat): Env
    requires i <= |p.blocks|
  {
    DestroyBlocks(p.env, p.blocks[..i])
  }

  // The same, with the ring buffer of the next block freed
  function HalfGone(p: Pipe, i: nat): Env
    requires i < |p.blocks|
  {
    if p.blocks[i].rb != NULL then RbCleanup(Gone(p, i), p.blocks[i].rb) else Gone(p, i)
  }

  lemma {:induction false} GoneOn(p: Pipe, i: nat)
    requires i < |p.blocks|
    ensures Gone(p, 0) == p.env
    ensures Gone(p, i + 1) == DestroyBlock(Gone(p, i), p.blocks[i])
  {
    assert p.blocks[..i + 1] == p.blocks[..i] + [p.blocks[i]];
    DestroySnoc(p.env, p.blocks[..i], p.blocks[i]);
  }

  lemma {:induction false} DestroySnoc(e: Env, blocks: seq<Block>, b: Block)
    ensures DestroyBlocks(e, blocks + [b]) == DestroyBlock(DestroyBlocks(e, blocks), b)
    decreases |blocks|
  {
    if blocks == [] {
      assert blocks + [b] == [b] && [b][1..] == [];
    } else {
      assert (blocks + [b])[1..] == blocks[1..] + [b];
      DestroySnoc(DestroyBlock(e, blocks[0]), blocks[1..], b);
    }
  }

  // Something writes the ring buffer of block `i`.
  predicate Fills(p: Pipe, i: int) {
    0 <= i < |p.blocks| && Writes(p.env, p.blocks[i]).Some?
  }

  // A ring buffer is freed before the stream or codec that writes it is destroyed, and the one
  // that reads it keeps referring to it until its own turn comes. So whenever block `i` fills a
  // ring buffer, two live endpoints refer to freed memory at first, and one after that.
  lemma {:induction false} DestroyDangles(p: Pipe, i: nat, j: nat)
    requires Fit(p) && i < |p.blocks| && j < |p.blocks|
    ensures Dangles(HalfGone(p, i), p.blocks[j]) <==>
      (j == i && (Fills(p, i) || Fills(p, i - 1))) || (j == i + 1 && Fills(p, i))
    ensures Dangles(Gone(p, i + 1), p.blocks[j]) <==> j == i + 1 && Fills(p, i)
  {
    HalfGoneDangles(p, i, j);
    GoneDangles(p, i, j);
  }

  lemma {:induction false} AllGoneOn(p: Pipe, i: nat)
    requires i < |p.blocks| <= 3
    ensures Gone(p, 0) == p.env
    ensures forall k :: 0 <= k <= i ==> Gone(p, k + 1) == DestroyBlock(Gone(p, k), p.blocks[k])
  {
    forall k | 0 <= k <= i ensures Gone(p, k + 1) == DestroyBlock(Gone(p, k), p.blocks[k]) {
      GoneOn(p, k);
    }
  }

  lemma {:induction false} HalfGoneDangles(p: Pipe, i: nat, j: nat)
    requires Fit(p) && i < |p.blocks| && j < |p.blocks|
    ensures Dangles(HalfGone(p, i), p.blocks[j]) <==>
      (j == i && (Fills(p, i) || Fills(p, i - 1))) || (j == i + 1 && Fills(p, i))
  {
    AllGoneOn(p, i);
    if i == 1 {
      assert Gone(p, 1) == DestroyBlock(p.env, p.blocks[0]);
    } else if i == 2 {
      assert Gone(p, 2) == DestroyBlock(DestroyBlock(p.env, p.blocks[0]), p.blocks[1]);
    }
  }

  lemma {:induction false} GoneDangles(p: Pipe, i: nat, j: nat)
    requires Fit(p) && i < |p.blocks| && j < |p.blocks|
    ensures Dangles(Gone(p, i + 1), p.blocks[j]) <==> j == i + 1 && Fills(p, i)
  {
    AllGoneOn(p, i);
    if i == 0 {
      assert Gone(p, 1) == DestroyBlock(p.env, p.blocks[0]);
    } else if i == 1 {
      assert Gone(p, 2) == DestroyBlock(DestroyBlock(p.env, p.blocks[0]), p.blocks[1]);
    }
  }

  // Setting an input callback frees the ring buffer of the input stream, which is destroyed by
  // then; the block after it refers to the freed ring until the codec gets its new input, and
  // for ever if there is no codec.
  lemma {:induction false} UnplugDangles(p: Pipe, fn: nat, j: nat)
    requires Fit(p) && p.blocks[0].btype.StreamBlock? && j < |p.blocks|
    ensures Dangles(Unplug(p).env, Unplug(p).blocks[j]) <==> j == 1
    ensures var q := FeedCodec(Unplug(p), User(fn));
      |q.blocks| == |p.blocks| && (Dangles(q.env, q.blocks[j]) <==> j == 1 && |p.blocks| == 2)
  {
    CodecIsAt(p);
    CodecIsAt(Unplug(p));
  }

  // --------------------------------------------------------------------------------- creation

  // What the callers of the creation functions hand over: streams that are not in use, a reader
  // for the input and a writer for the output
  predicate PartsOk(e: Env, a: Parts) {
    && EnvOk(e) && PartsExist(e, a)
    && (a.istream != NULL ==> e.streams[a.istream].kind.Reader? && !e.streams[a.istream].live)
    && (a.codec != NULL && a.codec in e.codecs ==> !e.codecs[a.codec].live)
    && e.streams[a.ostream].kind.Writer? && !e.streams[a.ostream].live
  }

  // A creation that succeeds is wired in full exactly if there is an input stream or a codec:
  // otherwise the output stream reads from no ring buffer at all.
  lemma {:induction false} CreateSoundIff(e: Env, a: Parts, l: Luck)
    requires PartsOk(e, a) && Create(e, a, l).ok
    ensures var p := Create(e, a, l).pipe;
      && (Sound(p) <==> a.istream != NULL || a.codec != NULL)
      && (Fit(p) <==> a.istream != NULL || a.codec != NULL)
      && |p.blocks| == (if a.codec != NULL then 3 else 2)
      && p.state.Inited? && p.notes == []
  {
    var p := Create(e, a, l).pipe;
    if a.istream != NULL || a.codec != NULL {
      CreateFits(e, a, l);
      FitIsSound(p);
    } else {
      assert Reads(p.env, p.blocks[1]) == Some(NULL);
      assert !Joined(p, NULL);
    }
  }

  lemma {:induction false} CreateFits(e: Env, a: Parts, l: Luck)
    requires PartsOk(e, a) && Create(e, a, l).ok
    requires a.istream != NULL || a.codec != NULL
    ensures Fit(Create(e, a, l).pipe)
    ensures |Create(e, a, l).pipe.blocks| == if a.codec != NULL then 3 else 2
  {
  }

  predicate Tidy(p: Pipe, others: set<nat>) {
    NoLeak(p, others) && others !! RbsOf(p.blocks) && EnvOk(p.env)
  }

  // The newest ring buffer belongs to nobody.
  predicate LostOne(p: Pipe, others: set<nat>) {
    && EnvOk(p.env)
    && var r := p.env.next - 1;
    && r !in others && r !in RbsOf(p.blocks)
    && p.env.rbs.Keys == others + RbsOf(p.blocks) + {r}
    && others !! RbsOf(p.blocks)
  }

  lemma {:induction false} RbsSnoc(blocks: seq<Block>, b: Block)
    ensures RbsOf(blocks + [b]) == RbsOf(blocks) + (if b.rb != NULL then {b.rb} else {})
    decreases |blocks|
  {
    if blocks == [] {
      assert blocks + [b] == [b];
      assert [b][1..] == [];
    } else {
      assert (blocks + [b])[1..] == blocks[1..] + [b];
      RbsSnoc(blocks[1..], b);
    }
  }

  lemma {:induction false} AddInputRings(p: Pipe, others: set<nat>, a: Parts, l: Luck)
    requires Tidy(p, others) && p.blocks == [] && PartsExist(p.env, a)
    ensures var s := AddInput(p, a.istream, a.rb1Size, a.fn, l.rb1, l.istream);
      if a.istream != NULL && l.rb1 && !l.istream then !s.ok && LostOne(s.pipe, others)
      else Tidy(s.pipe, others) && (s.ok <==> a.istream == NULL || l.rb1)
  {
    RbsSnoc([], Block(CustomBlock, NULL, NULL, a.rb1Size));
    RbsSnoc([], Block(StreamBlock, a.istream, p.env.next, a.rb1Size));
  }

  lemma {:induction false} AddCodecRings(p: Pipe, others: set<nat>, a: Parts, input: Io, l: Luck)
    requires Tidy(p, others)
    ensures var s := AddCodec(p, a.codec, a.rb2Size, input, l.rb2, l.codec);
      if a.codec != NULL && l.rb2 && !l.codec then !s.ok && LostOne(s.pipe, others)
      else Tidy(s.pipe, others) && (s.ok <==> a.codec == NULL || l.rb2)
  {
    RbsSnoc(p.blocks, Block(CodecBlock, a.codec, p.env.next, a.rb2Size));
  }

  lemma {:induction false} AddOutputRings(p: Pipe, others: set<nat>, a: Parts, io: Io, l: Luck)
    requires Tidy(p, others) && a.ostream in p.env.streams
    ensures Tidy(AddOutput(p, a.ostream, io, l.ostream).pipe, others)
  {
    RbsSnoc(p.blocks, Block(StreamBlock, a.ostream, NULL, 0));
  }

  // The initialisation of the input stream fails, or the pipeline gets to the codec and its
  // initialisation fails.
  predicate StrandsRing(a: Parts, l: Luck) {
    || (a.istream != NULL && l.rb1 && !l.istream)
    || ((a.istream != NULL ==> l.rb1 && l.istream) && a.codec != NULL && l.rb2 && !l.codec)
  }

  lemma {:induction false} AssembleRings(e: Env, a: Parts, l: Luck)
    requires PartsOk(e, a)
    ensures var s := Assemble(e, a, l);
      if StrandsRing(a, l) then !s.ok && LostOne(s.pipe, e.rbs.Keys) else Tidy(s.pipe, e.rbs.Keys)
  {
    AddInputRings(Alloc(e), e.rbs.Keys, a, l);
    var s1 := AddInput(Alloc(e), a.istream, a.rb1Size, a.fn, l.rb1, l.istream);
    if s1.ok {
      AddCodecRings(s1.pipe, e.rbs.Keys, a, s1.io, l);
      var s2 := AddCodec(s1.pipe, a.codec, a.rb2Size, s1.io, l.rb2, l.codec);
      if s2.ok {
        AddOutputRings(s2.pipe, e.rbs.Keys, a, s2.io, l);
      }
    }
  }

  // A creation, whether it succeeds or fails, leaks a ring buffer exactly if the stream or codec
  // that was to fill it cannot be initialised.
  lemma {:induction false} CreateLeaksIff(e: Env, a: Parts, l: Luck)
    requires PartsOk(e, a)
    ensures NoLeak(Create(e, a, l).pipe, e.rbs.Keys) <==> !StrandsRing(a, l)
    ensures !Create(e, a, l).ok ==> forall b :: b in Assemble(e, a, l).pipe.blocks ==> Dead(Create(e, a, l).pipe.env, b)
  {
    var s := Assemble(e, a, l);
    AssembleRings(e, a, l);
    DestroyFreesRings(s.pipe.env, s.pipe.blocks);
    DestroyKillsAll(s.pipe.env, s.pipe.blocks);
    if StrandsRing(a, l) {
      var r := s.pipe.env.next - 1;
      assert r in Create(e, a, l).pipe.env.rbs.Keys;
    }
  }

  // ----------------------------------------------------------------------------------- runs

  datatype Op =
    | SetStream(id: nat, rbOk: bool, initOk: bool)
    | ChangeCodec(id: nat, initOk: bool)
    | SetCb(fn: nat)
    | Lock(ev: Event)
    | Notify

  predicate MayCall(p: Pipe, op: Op) {
    match op
    case SetStream(id, _, _) => Fit(p) && NewStream(p, id)
    case ChangeCodec(id, _) => Fit(p) && NewCodec(p, id)
    case SetCb(_) => Fit(p)
    case Lock(_) => true
    case Notify => true
  }

  function Apply(p: Pipe, op: Op): Pipe
    requires MayCall(p, op)
  {
    match op
    case SetStream(id, rbOk, initOk) => SetInputStream(p, id, rbOk, initOk).pipe
    case ChangeCodec(id, initOk) =>
      SetCodecKeepsFit(p, id, initOk);
      SetCodec(p, id, initOk).pipe
    case SetCb(fn) => SetInputCb(p, fn).pipe
    case Lock(ev) => Locked(p, ev)
    case Notify => Notified(p)
  }

  predicate SameWiring(p: Pipe, q: Pipe) {
    q.blocks == p.blocks && q.env == p.env && q.cnt == p.cnt
  }

  lemma {:induction false} EventKeepsFit(p: Pipe, ev: Event)
    requires Fit(p)
    ensures Fit(Locked(p, ev)) && SameWiring(p, Locked(p, ev))
    ensures Fit(Notified(p)) && SameWiring(p, Notified(p))
  {
  }

  lemma {:induction false} StepKeepsFit(p: Pipe, op: Op)
    requires Fit(p) && MayCall(p, op)
    requires op.SetCb? ==> |p.blocks| == 3
    ensures Fit(Apply(p, op)) && |Apply(p, op).blocks| == |p.blocks|
  {
    match op
    case SetStream(id, rbOk, initOk) => SetInputStreamKeepsFit(p, id, rbOk, initOk);
    case ChangeCodec(id, initOk) => SetCodecKeepsFit(p, id, initOk);
    case SetCb(fn) => SetInputCbKeepsFit(p, fn);
    case Lock(ev) => EventKeepsFit(p, ev);
    case Notify => EventKeepsFit(p, Other);
  }

  predicate CanRun(p: Pipe, run: seq<Op>)
    decreases |run|
  {
    run == [] || (MayCall(p, run[0]) && CanRun(Apply(p, run[0]), run[1..]))
  }

  function Final(p: Pipe, run: seq<Op>): Pipe
    requires CanRun(p, run)
    decreases |run|
  {
    if run == [] then p else Final(Apply(p, run[0]), run[1..])
  }

  // Every sequence of rewiring calls, successful or not, mixed with events, keeps a pipeline
  // with a codec wired in full; one without a codec keeps its wiring as long as no input
  // callback is set.
  lemma {:induction false} EveryRun(p: Pipe, run: seq<Op>)
    requires Fit(p) && CanRun(p, run)
    requires |p.blocks| == 3 || forall op :: op in run ==> !op.SetCb?
    ensures var q := Final(p, run);
      && Fit(q) && Sound(q)
      && |q.blocks| == |p.blocks| && q.cnt == p.cnt
    decreases |run|
  {
    if run == [] {
      FitIsSound(p);
    } else {
      StepKeepsFit(p, run[0]);
      EveryRun(Apply(p, run[0]), run[1..]);
    }
  }

  // No attempt to plug in a stream fails half-way.
  predicate PlugsWhole(run: seq<Op>) {
    forall op :: op in run && op.SetStream? && op.rbOk ==> op.initOk
  }

  // Nothing is left behind: an input callback has no ring buffer.
  predicate Clean(p: Pipe, others: set<nat>) {
    Fit(p) && Tidy(p, others) && (p.blocks[0].btype.CustomBlock? ==> p.blocks[0].rb == NULL)
  }

  lemma {:induction false} PlugKeepsClean(p: Pipe, others: set<nat>, id: nat, rbOk: bool, initOk: bool)
    requires Clean(p, others) && NewStream(p, id) && p.blocks[0].btype.CustomBlock? && (rbOk ==> initOk)
    requires forall r :: r in others ==> r < p.env.next
    ensures Clean(PlugStream(p, id, rbOk, initOk).pipe, others)
  {
    PlugStreamKeepsFit(p, id, rbOk, initOk);
    PlugStreamLeaksIff(p, others, id, rbOk, initOk);
    PlugRings(p, id, rbOk, initOk);
    RbsOfThree(p.blocks);
    RbsOfThree(PlugStream(p, id, rbOk, initOk).pipe.blocks);
  }

  lemma {:induction false} OthersKeepClean(p: Pipe, others: set<nat>, op: Op)
    requires Clean(p, others) && MayCall(p, op) && |p.blocks| == 3
    requires op.SetStream? ==> p.blocks[0].btype.StreamBlock?
    ensures Clean(Apply(p, op), others)
  {
    StepKeepsFit(p, op);
    CodecIsAt(p);
    match op
    case SetStream(id, rbOk, initOk) => SwapStreamLeaksNothing(p, others, id, initOk);
    case ChangeCodec(id, initOk) => SwapCodecLeaksNothing(p, others, id, initOk);
    case SetCb(fn) =>
      InputCbLeaksNothing(p, others, fn);
      CodecIsAt(Unplug(p));
    case Lock(ev) => EventKeepsFit(p, ev);
    case Notify => EventKeepsFit(p, Other);
  }

  lemma {:induction false} RunKeepsClean(p: Pipe, others: set<nat>, run: seq<Op>)
    requires Clean(p, others) && CanRun(p, run) && PlugsWhole(run) && |p.blocks| == 3
    requires forall r :: r in others ==> r < p.env.next
    ensures Clean(Final(p, run), others)
    decreases |run|
  {
    if run != [] {
      var op := run[0];
      StepKeepsFit(p, op);
      if op.SetStream? && p.blocks[0].btype.CustomBlock? {
        if Idle(p) {
          PlugKeepsClean(p, others, op.id, op.rbOk, op.initOk);
        }
      } else {
        OthersKeepClean(p, others, op);
      }
      RunKeepsClean(Apply(p, op), others, run[1..]);
    }
  }

  // From creation through any rewiring to destruction: every ring buffer that was made is freed,
  // every one that was not is left alone, and the streams and codecs last plugged in are dead.
  lemma {:induction false} LifeCycle(e: Env, a: Parts, l: Luck, run: seq<Op>)
    requires PartsOk(e, a) && a.codec != NULL && Create(e, a, l).ok
    requires CanRun(Create(e, a, l).pipe, run) && PlugsWhole(run)
    ensures var q := Final(Create(e, a, l).pipe, run);
      var d := DestroyBlocks(q.env, q.blocks);
      && d.rbs.Keys == e.rbs.Keys
      && (forall b :: b in q.blocks ==> Dead(d, b))
  {
    var p := Create(e, a, l).pipe;
    CreateFits(e, a, l);
    AssembleRings(e, a, l);
    assert p.blocks[0].btype.CustomBlock? ==> p.blocks[0].rb == NULL;
    RunKeepsClean(p, e.rbs.Keys, run);
    DestroyIsComplete(Final(p, run), e.rbs.Keys);
  }

  predicate Busy(p: Pipe, run: seq<Op>)
    requires CanRun(p, run)
    decreases |run|
  {
    run == [] || (!Idle(p) && Busy(Apply(p, run[0]), run[1..]))
  }

  // While the pipeline is neither in its initial state nor stopped, no call changes its wiring.
  lemma {:induction false} BusyRunKeepsWiring(p: Pipe, run: seq<Op>)
    requires CanRun(p, run) && Busy(p, run)
    ensures SameWiring(p, Final(p, run))
    decreases |run|
  {
    if run != [] {
      BusyRunKeepsWiring(Apply(p, run[0]), run[1..]);
    }
  }

  // ------------------------------------------------------------------------------- commands

  predicate OnLive(e: Env, a: Action) {
    match a
    case ResetRb(rb) => rb in e.rbs
    case StartStream(id) => id in e.streams && e.streams[id].live
    case StartCodec(id) => id in e.codecs && e.codecs[id].live
    case StopStream(id) => id in e.streams && e.streams[id].live
    case StopCodec(id) => id in e.codecs && e.codecs[id].live
    case PauseStream(id) => id in e.streams && e.streams[id].live
    case ResumeStream(id) => id in e.streams && e.streams[id].live
  }

  lemma {:induction false} StartIsAll(blocks: seq<Block>)
    ensures forall b, a :: b in blocks && a in StartBlock(b) ==> a in StartActions(blocks)
    decreases |blocks|
  {
    if blocks != [] {
      StartIsAll(blocks[1..]);
    }
  }

  lemma {:induction false} StartIsOnly(blocks: seq<Block>, a: Action)
    requires a in StartActions(blocks)
    ensures exists b :: b in blocks && a in StartBlock(b)
    decreases |blocks|
  {
    if a in StartBlock(blocks[0]) {
      assert blocks[0] in blocks;
    } else {
      StartIsOnly(blocks[1..], a);
      var b :| b in blocks[1..] && a in StartBlock(b);
      assert b in blocks;
    }
  }

  // A start resets every ring buffer and leaves no stream or codec out.
  predicate StartsBlock(actions: seq<Action>, b: Block) {
    && (b.btype.StreamBlock? ==> StartStream(b.cfg) in actions)
    && (b.btype.CodecBlock? ==> StartCodec(b.cfg) in actions)
    && (b.rb != NULL ==> ResetRb(b.rb) in actions)
  }

  lemma {:induction false} StartCovers(blocks: seq<Block>)
    ensures forall b :: b in blocks ==> StartsBlock(StartActions(blocks), b)
  {
    StartIsAll(blocks);
    forall b | b in blocks ensures StartsBlock(StartActions(blocks), b) {
      assert b.btype.StreamBlock? ==> StartStream(b.cfg) in StartBlock(b);
      assert b.btype.CodecBlock? ==> StartCodec(b.cfg) in StartBlock(b);
      assert b.rb != NULL ==> ResetRb(b.rb) in StartBlock(b);
    }
  }

  lemma {:induction false} StartTouchesLive(p: Pipe)
    requires Fit(p)
    ensures forall a :: a in StartActions(p.blocks) ==> OnLive(p.env, a)
    ensures StartActions(p.blocks) != []
  {
    forall a | a in StartActions(p.blocks) ensures OnLive(p.env, a) {
      StartIsOnly(p.blocks, a);
      var b :| b in p.blocks && a in StartBlock(b);
      assert b == p.blocks[0] || b == p.blocks[1] || b == Last(p);
    }
    StartCovers(p.blocks);
    assert Last(p) in p.blocks;
    assert StartStream(Last(p).cfg) in StartActions(p.blocks);
  }

  // A stop goes to the stream or codec nearest the source.
  lemma {:induction false} StopTouchesLive(p: Pipe)
    requires Fit(p)
    ensures StopActions(p.blocks) ==
      if p.blocks[0].btype.StreamBlock? then [StopStream(p.blocks[0].cfg)] else [StopCodec(p.blocks[1].cfg)]
    ensures OnLive(p.env, StopActions(p.blocks)[0])
  {
    assert p.blocks[1..][0] == p.blocks[1];
  }

  // Every command of a pipeline wired in full touches only what exists. A pause and a resume go to the output stream.
  lemma {:induction false} CommandsTouchLive(p: Pipe, next: PipeState)
    requires Fit(p)
    ensures var c := Command(p, next);
      && (forall a :: a in c.actions ==> OnLive(p.env, a))
      && (c.err.ESP_OK? <==> c.actions != [])
      && (Idle(p) && next.Started? ==> forall b :: b in p.blocks ==> StartsBlock(c.actions, b))
      && (p.state.Started? && next.Paused? ==> c.actions == [PauseStream(Last(p).cfg)])
      && (p.state.Paused? && next.Resumed? ==> c.actions == [ResumeStream(Last(p).cfg)])
      && (p.state.Started? && next.Stopped? ==> c.actions == StopActions(p.blocks))
  {
    StartTouchesLive(p);
    StartCovers(p.blocks);
    StopTouchesLive(p);
  }
}
