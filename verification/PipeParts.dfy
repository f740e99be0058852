/** Which streams and codecs are live, and how large the ring buffers are, over whole runs. */
module PipeParts {
  import opened PipeSpec
  import opened PipeRuns

  predicate HasStream(p: Pipe, id: nat) {
    exists i :: 0 <= i < |p.blocks| && p.blocks[i].btype.StreamBlock? && p.blocks[i].cfg == id
  }

  predicate HasCodec(p: Pipe, id: nat) {
    exists i :: 0 <= i < |p.blocks| && p.blocks[i].btype.CodecBlock? && p.blocks[i].cfg == id
  }

  predicate LiveIn(e: Env, stream: bool, id: nat) {
    if stream then id in e.streams && e.streams[id].live else id in e.codecs && e.codecs[id].live
  }

  predicate Has(p: Pipe, stream: bool, id: nat) {
    if stream then HasStream(p, id) else HasCodec(p, id)
  }

  // The pipeline owns the live streams and codecs that were not live in `e`: they are those of its blocks.
  ghost predicate OwnsLive(p: Pipe, e: Env) {
    && (forall stream, id :: LiveIn(p.env, stream, id) <==> LiveIn(e, stream, id) || Has(p, stream, id))
    && (forall stream, id :: !(LiveIn(e, stream, id) && Has(p, stream, id)))
  }

  // The streams and codecs of a pipeline by name
  lemma {:induction false} PartsOf(p: Pipe, id: nat)
    requires Shape(p)
    ensures HasStream(p, id) <==> (p.blocks[0].btype.StreamBlock? && p.blocks[0].cfg == id) || Last(p).cfg == id
    ensures HasCodec(p, id) <==> |p.blocks| == 3 && p.blocks[1].cfg == id
  {
    assert Last(p) == p.blocks[|p.blocks| - 1];
  }

  lemma {:induction false} SwapStreamOwns(p: Pipe, e: Env, id: nat, initOk: bool)
    requires Fit(p) && NewStream(p, id) && p.blocks[0].btype.StreamBlock? && OwnsLive(p, e)
    ensures OwnsLive(ReplaceStream(p, 0, id, initOk).pipe, e)
  {
    var q := ReplaceStream(p, 0, id, initOk).pipe;
    ReplaceStreamKeepsFit(p, id, initOk);
    forall stream: bool, x: nat
      ensures LiveIn(q.env, stream, x) <==> LiveIn(e, stream, x) || Has(q, stream, x)
      ensures !(LiveIn(e, stream, x) && Has(q, stream, x))
    {
      PartsOf(p, x);
      PartsOf(q, x);
      PartsOf(p, id);
      assert LiveIn(p.env, stream, x) <==> LiveIn(e, stream, x) || Has(p, stream, x);
      assert LiveIn(p.env, true, id) <==> LiveIn(e, true, id) || Has(p, true, id);
      assert !(LiveIn(e, stream, x) && Has(p, stream, x));
    }
  }

  lemma {:induction false} PlugOwns(p: Pipe, e: Env, id: nat, rbOk: bool, initOk: bool)
    requires Fit(p) && NewStream(p, id) && p.blocks[0].btype.CustomBlock? && OwnsLive(p, e)
    ensures OwnsLive(PlugStream(p, id, rbOk, initOk).pipe, e)
  {
    var q := PlugStream(p, id, rbOk, initOk).pipe;
    PlugStreamKeepsFit(p, id, rbOk, initOk);
    PlugLives(p, id, rbOk, initOk);
    forall stream: bool, x: nat
      ensures LiveIn(q.env, stream, x) <==> LiveIn(e, stream, x) || Has(q, stream, x)
      ensures !(LiveIn(e, stream, x) && Has(q, stream, x))
    {
      PartsOf(p, x);
      PartsOf(q, x);
      PartsOf(p, id);
      assert LiveIn(p.env, stream, x) <==> LiveIn(e, stream, x) || Has(p, stream, x);
      assert LiveIn(p.env, true, id) <==> LiveIn(e, true, id) || Has(p, true, id);
      assert !(LiveIn(e, stream, x) && Has(p, stream, x));
    }
  }

  // Plugging a stream in makes it live, if it succeeds, and changes no other.
  lemma {:induction false} PlugLives(p: Pipe, id: nat, rbOk: bool, initOk: bool)
    requires Fit(p) && NewStream(p, id) && p.blocks[0].btype.CustomBlock?
    ensures var q := PlugStream(p, id, rbOk, initOk).pipe;
      && (forall stream, x :: LiveIn(q.env, stream, x) <==> LiveIn(p.env, stream, x) || (rbOk && initOk && stream && x == id))
      && |q.blocks| == 3 && q.blocks[1..] == p.blocks[1..]
      && (q.blocks[0].btype.StreamBlock? <==> rbOk && initOk) && (rbOk && initOk ==> q.blocks[0].cfg == id)
  {
    CodecIsAt(p);
    if rbOk && initOk {
      var b := p.blocks[0];
      var rb := p.env.next;
      var q := WithBlock(p, 0, b.(rb := rb), RbInit(p.env, b.rbSize));
      var s := WithBlock(q, 0, Block(StreamBlock, id, rb, b.rbSize), StreamInit(q.env, id, RbWrite(rb)));
      CodecIsAt(s);
    }
  }

  lemma {:induction false} SwapCodecOwns(p: Pipe, e: Env, id: nat, initOk: bool)
    requires Fit(p) && NewCodec(p, id) && |p.blocks| == 3 && OwnsLive(p, e)
    ensures OwnsLive(ReplaceCodec(p, 1, id, initOk).pipe, e)
  {
    var q := ReplaceCodec(p, 1, id, initOk).pipe;
    forall stream: bool, x: nat
      ensures LiveIn(q.env, stream, x) <==> LiveIn(e, stream, x) || Has(q, stream, x)
      ensures !(LiveIn(e, stream, x) && Has(q, stream, x))
    {
      PartsOf(p, x);
      PartsOf(q, x);
      PartsOf(p, id);
      assert LiveIn(p.env, stream, x) <==> LiveIn(e, stream, x) || Has(p, stream, x);
      assert LiveIn(p.env, false, id) <==> LiveIn(e, false, id) || Has(p, false, id);
      assert !(LiveIn(e, stream, x) && Has(p, stream, x));
    }
  }

  lemma {:induction false} InputCbOwns(p: Pipe, e: Env, fn: nat)
    requires Fit(p) && |p.blocks| == 3 && OwnsLive(p, e)
    ensures OwnsLive(SetInputCb(p, fn).pipe, e)
  {
    var q := SetInputCb(p, fn).pipe;
    SetInputCbKeepsFit(p, fn);
    CodecIsAt(p);
    CodecIsAt(Unplug(p));
    forall stream: bool, x: nat
      ensures LiveIn(q.env, stream, x) <==> LiveIn(e, stream, x) || Has(q, stream, x)
      ensures !(LiveIn(e, stream, x) && Has(q, stream, x))
    {
      PartsOf(p, x);
      PartsOf(q, x);
      assert LiveIn(p.env, stream, x) <==> LiveIn(e, stream, x) || Has(p, stream, x);
      assert !(LiveIn(e, stream, x) && Has(p, stream, x));
    }
  }

  lemma {:induction false} StepOwns(p: Pipe, e: Env, op: Op)
    requires Fit(p) && MayCall(p, op) && (op.SetCb? ==> |p.blocks| == 3) && OwnsLive(p, e)
    ensures OwnsLive(Apply(p, op), e)
  {
    match op
    case SetStream(id, rbOk, initOk) =>
      if Idle(p) {
        if p.blocks[0].btype.StreamBlock? {
          SwapStreamOwns(p, e, id, initOk);
        } else {
          PlugOwns(p, e, id, rbOk, initOk);
        }
      }
    case ChangeCodec(id, initOk) =>
      SetCodecKeepsFit(p, id, initOk);
      CodecIsAt(p);
      if Idle(p) && |p.blocks| == 3 {
        SwapCodecOwns(p, e, id, initOk);
      }
    case SetCb(fn) => InputCbOwns(p, e, fn);
    case Lock(ev) => SameOwns(p, Locked(p, ev), e);
    case Notify => SameOwns(p, Notified(p), e);
  }

  lemma {:induction false} SameOwns(p: Pipe, q: Pipe, e: Env)
    requires SameWiring(p, q) && OwnsLive(p, e)
    ensures OwnsLive(q, e)
  {
    forall stream: bool, x: nat
      ensures LiveIn(q.env, stream, x) <==> LiveIn(e, stream, x) || Has(q, stream, x)
      ensures !(LiveIn(e, stream, x) && Has(q, stream, x))
    {
      assert Has(p, stream, x) <==> Has(q, stream, x);
      assert LiveIn(p.env, stream, x) <==> LiveIn(e, stream, x) || Has(p, stream, x);
      assert !(LiveIn(e, stream, x) && Has(p, stream, x));
    }
  }

  // No input callback is set on a pipeline without a codec.
  predicate KeepsInput(p: Pipe, run: seq<Op>) {
    |p.blocks| == 3 || forall op :: op in run ==> !op.SetCb?
  }

  lemma {:induction false} RunOwns(p: Pipe, e: Env, run: seq<Op>)
    requires Fit(p) && CanRun(p, run) && KeepsInput(p, run) && OwnsLive(p, e)
    ensures OwnsLive(Final(p, run), e)
    decreases |run|
  {
    if run != [] {
      StepOwns(p, e, run[0]);
      StepKeepsFit(p, run[0]);
      RunOwns(Apply(p, run[0]), e, run[1..]);
    }
  }

  lemma {:induction false} CreateOwns(e: Env, a: Parts, l: Luck)
    requires PartsOk(e, a) && Create(e, a, l).ok && (a.istream != NULL || a.codec != NULL)
    ensures OwnsLive(Create(e, a, l).pipe, e)
  {
    var q := Create(e, a, l).pipe;
    CreateFits(e, a, l);
    forall stream: bool, x: nat
      ensures LiveIn(q.env, stream, x) <==> LiveIn(e, stream, x) || Has(q, stream, x)
      ensures !(LiveIn(e, stream, x) && Has(q, stream, x))
    {
      PartsOf(q, x);
    }
  }

  // Destroying the blocks ends the life of their streams and codecs, and of no others.
  lemma {:induction false} DestroyEnds(e: Env, blocks: seq<Block>, stream: bool, id: nat)
    ensures LiveIn(DestroyBlocks(e, blocks), stream, id) <==>
      LiveIn(e, stream, id)
      && forall b :: b in blocks && b.cfg == id ==> !(if stream then b.btype.StreamBlock? else b.btype.CodecBlock?)
    decreases |blocks|
  {
    if blocks != [] {
      DestroyEnds(DestroyBlock(e, blocks[0]), blocks[1..], stream, id);
      assert forall b :: b in blocks <==> b == blocks[0] || b in blocks[1..];
    }
  }

  /**
   From its creation on, through any rewiring and any events, the streams and codecs that the
   pipeline has made live are exactly those of its blocks: one that is replaced or unplugged is
   destroyed. Its destruction leaves live what was live before it was created, and nothing else.
   */
  lemma {:induction false} PartsLife(e: Env, a: Parts, l: Luck, run: seq<Op>)
    requires PartsOk(e, a) && Create(e, a, l).ok && (a.istream != NULL || a.codec != NULL)
    requires CanRun(Create(e, a, l).pipe, run) && KeepsInput(Create(e, a, l).pipe, run)
    ensures var q := Final(Create(e, a, l).pipe, run);
      && OwnsLive(q, e)
      && (forall stream, id :: LiveIn(DestroyBlocks(q.env, q.blocks), stream, id) <==> LiveIn(e, stream, id))
  {
    var p := Create(e, a, l).pipe;
    CreateFits(e, a, l);
    CreateOwns(e, a, l);
    RunOwns(p, e, run);
    var q := Final(p, run);
    forall stream: bool, id: nat
      ensures LiveIn(DestroyBlocks(q.env, q.blocks), stream, id) <==> LiveIn(e, stream, id)
    {
      DestroyEnds(q.env, q.blocks, stream, id);
      assert LiveIn(q.env, stream, id) <==> LiveIn(e, stream, id) || Has(q, stream, id);
      assert !(LiveIn(e, stream, id) && Has(q, stream, id));
    }
  }

  // --------------------------------------------------------------------------- ring buffer sizes

  predicate SizeKept(p: Pipe, i: nat, size: nat) {
    && i < |p.blocks| && p.blocks[i].rbSize == size
    && (p.blocks[i].rb in p.env.rbs ==> p.env.rbs[p.blocks[i].rb] == size)
  }

  // The blocks and the ring buffers before the output stream have the sizes they were created with.
  predicate Sizes(p: Pipe, input: nat, codec: nat) {
    SizeKept(p, 0, input) && (|p.blocks| == 3 ==> SizeKept(p, 1, codec))
  }

  lemma {:induction false} StepKeepsSizes(p: Pipe, op: Op, input: nat, codec: nat)
    requires Fit(p) && MayCall(p, op) && (op.SetCb? ==> |p.blocks| == 3) && Sizes(p, input, codec)
    ensures Sizes(Apply(p, op), input, codec)
  {
    CodecIsAt(p);
    match op
    case SetStream(id, rbOk, initOk) =>
      if Idle(p) && p.blocks[0].btype.CustomBlock? {
        PlugSizes(p, id, rbOk, initOk, input, codec);
      }
    case ChangeCodec(id, initOk) => SetCodecKeepsFit(p, id, initOk);
    case SetCb(fn) => CodecIsAt(Unplug(p));
    case Lock(ev) =>
    case Notify =>
  }

  lemma {:induction false} PlugSizes(p: Pipe, id: nat, rbOk: bool, initOk: bool, input: nat, codec: nat)
    requires Fit(p) && NewStream(p, id) && p.blocks[0].btype.CustomBlock? && Sizes(p, input, codec)
    ensures Sizes(PlugStream(p, id, rbOk, initOk).pipe, input, codec)
  {
    CodecIsAt(p);
    if rbOk && initOk {
      var b := p.blocks[0];
      var rb := p.env.next;
      var q := WithBlock(p, 0, b.(rb := rb), RbInit(p.env, b.rbSize));
      CodecIsAt(WithBlock(q, 0, Block(StreamBlock, id, rb, b.rbSize), StreamInit(q.env, id, RbWrite(rb))));
    }
  }

  /** Every ring buffer that is made for a block, at its creation or later, has the size configured for it. */
  lemma {:induction false} SizesStay(e: Env, a: Parts, l: Luck, run: seq<Op>)
    requires PartsOk(e, a) && Create(e, a, l).ok && (a.istream != NULL || a.codec != NULL)
    requires CanRun(Create(e, a, l).pipe, run) && KeepsInput(Create(e, a, l).pipe, run)
    ensures Sizes(Final(Create(e, a, l).pipe, run), a.rb1Size, a.rb2Size)
  {
    CreateFits(e, a, l);
    RunKeepsSizes(Create(e, a, l).pipe, run, a.rb1Size, a.rb2Size);
  }

  lemma {:induction false} RunKeepsSizes(p: Pipe, run: seq<Op>, input: nat, codec: nat)
    requires Fit(p) && CanRun(p, run) && KeepsInput(p, run) && Sizes(p, input, codec)
    ensures Sizes(Final(p, run), input, codec)
    decreases |run|
  {
    if run != [] {
      StepKeepsSizes(p, run[0], input, codec);
      StepKeepsFit(p, run[0]);
      RunKeepsSizes(Apply(p, run[0]), run[1..], input, codec);
    }
  }

  // ------------------------------------------------------------------------------ order of a start

  // `a` comes before `b`, and both come.
  predicate Precedes(actions: seq<Action>, a: Action, b: Action) {
    exists i, j :: 0 <= i < j < |actions| && actions[i] == a && actions[j] == b
  }

  function Starter(b: Block): Action
    requires !b.btype.CustomBlock?
  {
    if b.btype.StreamBlock? then StartStream(b.cfg) else StartCodec(b.cfg)
  }

  /** A start resets the ring buffer of a block before it starts what writes to it, and starts the blocks from the source on. */
  lemma {:induction false} StartsInOrder(blocks: seq<Block>, i: nat, j: nat)
    requires i < |blocks| && j < |blocks| && !blocks[i].btype.CustomBlock? && !blocks[j].btype.CustomBlock?
    ensures blocks[i].rb != NULL ==> Precedes(StartActions(blocks), ResetRb(blocks[i].rb), Starter(blocks[i]))
    ensures i < j ==> Precedes(StartActions(blocks), Starter(blocks[i]), Starter(blocks[j]))
    decreases |blocks|
  {
    var head, tail := StartBlock(blocks[0]), StartActions(blocks[1..]);
    assert StartActions(blocks) == head + tail;
    if i == 0 {
      if blocks[0].rb != NULL {
        assert (head + tail)[0] == ResetRb(blocks[0].rb) && (head + tail)[1] == Starter(blocks[0]);
      }
      if j > 0 {
        StartCovers(blocks[1..]);
        assert blocks[1..][j - 1] == blocks[j];
        assert StartsBlock(tail, blocks[j]);
        var k :| 0 <= k < |tail| && tail[k] == Starter(blocks[j]);
        assert (head + tail)[|head| - 1] == Starter(blocks[0]) && (head + tail)[|head| + k] == Starter(blocks[j]);
      }
    } else {
      StartsInOrder(blocks[1..], i - 1, if i < j then j - 1 else i - 1);
      if blocks[i].rb != NULL {
        Later(head, tail, ResetRb(blocks[i].rb), Starter(blocks[i]));
      }
      if i < j {
        Later(head, tail, Starter(blocks[i]), Starter(blocks[j]));
      }
    }
  }

  lemma {:induction false} Later(head: seq<Action>, tail: seq<Action>, a: Action, b: Action)
    requires Precedes(tail, a, b)
    ensures Precedes(head + tail, a, b)
  {
    var i, j :| 0 <= i < j < |tail| && tail[i] == a && tail[j] == b;
    assert (head + tail)[|head| + i] == a && (head + tail)[|head| + j] == b;
  }
}
