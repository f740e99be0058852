/**
 The audio pipeline as values: its list of blocks, the streams, codecs and ring buffers they
 refer to, and its state. Streams, codecs and ring buffers are known by number; NULL is 0.
 */
module PipeSpec {
  const NULL: nat := 0

  // An input or output function with its argument: the user's own, or one end of a ring buffer
  datatype Io = User(fn: nat) | RbRead(rb: nat) | RbWrite(rb: nat)

  datatype StreamKind = Reader | Writer

  // io: the stream_output of a reader, the stream_input of a writer
  datatype Stream = Stream(kind: StreamKind, io: Io, live: bool)

  datatype Codec = Codec(input: Io, output: Io, live: bool)

  datatype BlockType = StreamBlock | CodecBlock | CustomBlock

  datatype Block = Block(btype: BlockType, cfg: nat, rb: nat, rbSize: nat)

  // rbs: the ring buffers in existence, with their sizes; next: the next number
  datatype Env = Env(streams: map<nat, Stream>, codecs: map<nat, Codec>, rbs: map<nat, nat>, next: nat)

  datatype PipeState = Inited | Started | Stopped | Paused | Resumed

  // notes: the states reported to the application, in order
  datatype Pipe = Pipe(state: PipeState, oldState: PipeState, cnt: int, blocks: seq<Block>, env: Env,
                       notes: seq<PipeState>)

  datatype Err = ESP_OK | ESP_FAIL | ESP_ERR_INVALID_STATE | ESP_ERR_NO_MEM

  datatype Outcome = Outcome(pipe: Pipe, err: Err)

  // ------------------------------------------------------------ streams, codecs, ring buffers

  function RbInit(e: Env, size: nat): Env {
    e.(rbs := e.rbs[e.next := size], next := e.next + 1)
  }

  function RbCleanup(e: Env, rb: nat): Env {
    e.(rbs := e.rbs - {rb})
  }

  function StreamInit(e: Env, id: nat, io: Io): Env
    requires id in e.streams
  {
    e.(streams := e.streams[id := e.streams[id].(io := io, live := true)])
  }

  function StreamDestroy(e: Env, id: nat): Env {
    if id in e.streams then e.(streams := e.streams[id := e.streams[id].(live := false)]) else e
  }

  function CodecInit(e: Env, id: nat, input: Io, output: Io): Env {
    e.(codecs := e.codecs[id := Codec(input, output, true)])
  }

  function CodecDestroy(e: Env, id: nat): Env {
    if id in e.codecs then e.(codecs := e.codecs[id := e.codecs[id].(live := false)]) else e
  }

  function ModifyInputCb(e: Env, id: nat, input: Io): Env {
    if id in e.codecs then e.(codecs := e.codecs[id := e.codecs[id].(input := input)]) else e
  }

  // ------------------------------------------------------------------------------- rewiring

  predicate Idle(p: Pipe) {
    p.state.Inited? || p.state.Stopped?
  }

  // The position of the first codec block, or the number of blocks
  function CodecAt(blocks: seq<Block>): (i: nat)
    ensures i <= |blocks|
    ensures i < |blocks| ==> blocks[i].btype.CodecBlock?
    ensures forall j :: 0 <= j < i ==> !blocks[j].btype.CodecBlock?
  {
    if blocks == [] || blocks[0].btype.CodecBlock? then 0 else 1 + CodecAt(blocks[1..])
  }

  function WithBlock(p: Pipe, i: nat, b: Block, e: Env): Pipe
    requires i < |p.blocks|
  {
    p.(blocks := p.blocks[i := b], env := e)
  }

  function ReplaceStream(p: Pipe, i: nat, id: nat, initOk: bool): Outcome
    requires i < |p.blocks| && p.blocks[i].cfg in p.env.streams && id in p.env.streams
  {
    var b := p.blocks[i];
    if b.cfg == id then Outcome(p, ESP_OK)
    else if !initOk then Outcome(p, ESP_FAIL)
    else
      var e := StreamInit(p.env, id, p.env.streams[b.cfg].io);
      Outcome(WithBlock(p, i, b.(cfg := id), StreamDestroy(e, b.cfg)), ESP_OK)
  }

  function ReplaceCodec(p: Pipe, i: nat, id: nat, initOk: bool): Outcome
    requires i < |p.blocks| && p.blocks[i].cfg in p.env.codecs
  {
    var b := p.blocks[i];
    var was := p.env.codecs[b.cfg];
    if b.cfg == id then Outcome(p, ESP_OK)
    else if !initOk then Outcome(p, ESP_FAIL)
    else
      var e := CodecInit(p.env, id, was.input, was.output);
      Outcome(WithBlock(p, i, b.(cfg := id), CodecDestroy(e, b.cfg)), ESP_OK)
  }

  // The codec, if there is one, takes its input from `io`.
  function FeedCodec(p: Pipe, io: Io): Pipe {
    var i := CodecAt(p.blocks);
    if i < |p.blocks| then p.(env := ModifyInputCb(p.env, p.blocks[i].cfg, io)) else p
  }

  // From an input callback to a stream
  function PlugStream(p: Pipe, id: nat, rbOk: bool, initOk: bool): Outcome
    requires p.blocks != [] && id in p.env.streams
  {
    var b := p.blocks[0];
    if !rbOk then Outcome(WithBlock(p, 0, b.(rb := NULL), p.env), ESP_ERR_NO_MEM)
    else
      var rb := p.env.next;
      var q := WithBlock(p, 0, b.(rb := rb), RbInit(p.env, b.rbSize));
      if !initOk then Outcome(q, ESP_FAIL)
      else
        var e := StreamInit(q.env, id, RbWrite(rb));
        Outcome(FeedCodec(WithBlock(q, 0, Block(StreamBlock, id, rb, b.rbSize), e), RbRead(rb)), ESP_FAIL)
  }

  function SetInputStream(p: Pipe, id: nat, rbOk: bool, initOk: bool): Outcome
    requires p.blocks != [] && id in p.env.streams
    requires p.blocks[0].btype.StreamBlock? ==> p.blocks[0].cfg in p.env.streams
  {
    if !Idle(p) then Outcome(p, ESP_ERR_INVALID_STATE)
    else if p.blocks[0].btype.StreamBlock? then ReplaceStream(p, 0, id, initOk)
    else PlugStream(p, id, rbOk, initOk)
  }

  function SetCodec(p: Pipe, id: nat, initOk: bool): Outcome
    requires CodecAt(p.blocks) < |p.blocks| ==> p.blocks[CodecAt(p.blocks)].cfg in p.env.codecs
  {
    if !Idle(p) then Outcome(p, ESP_ERR_INVALID_STATE)
    else
      var i := CodecAt(p.blocks);
      if i < |p.blocks| then ReplaceCodec(p, i, id, initOk) else Outcome(p, ESP_FAIL)
  }

  function Unplug(p: Pipe): Pipe
    requires p.blocks != []
  {
    var b := p.blocks[0];
    if b.btype.StreamBlock?
    then WithBlock(p, 0, Block(CustomBlock, NULL, NULL, b.rbSize), RbCleanup(StreamDestroy(p.env, b.cfg), b.rb))
    else p
  }

  function SetInputCb(p: Pipe, fn: nat): Outcome
    requires p.blocks != []
  {
    if !Idle(p) then Outcome(p, ESP_ERR_INVALID_STATE)
    else Outcome(FeedCodec(Unplug(p), User(fn)), ESP_OK)
  }

  // ----------------------------------------------------------------- creation and destruction

  function DestroyBlock(e: Env, b: Block): Env {
    var f := if b.rb != NULL then RbCleanup(e, b.rb) else e;
    match b.btype
    case StreamBlock => StreamDestroy(f, b.cfg)
    case CodecBlock => CodecDestroy(f, b.cfg)
    case CustomBlock => f
  }

  function DestroyBlocks(e: Env, blocks: seq<Block>): Env
    decreases |blocks|
  {
    if blocks == [] then e else DestroyBlocks(DestroyBlock(e, blocks[0]), blocks[1..])
  }

  function InsertBlock(p: Pipe, b: Block, e: Env, head: bool): Pipe {
    p.(blocks := if head then [b] + p.blocks else p.blocks + [b], cnt := p.cnt + 1, env := e)
  }

  // One stage of the creation: `io` is what the next stage takes its input from.
  datatype Stage = Stage(pipe: Pipe, ok: bool, io: Io)

  // istream is NULL for an input callback `fn`.
  function AddInput(p: Pipe, istream: nat, size: nat, fn: nat, rbOk: bool, initOk: bool): Stage
    requires istream != NULL ==> istream in p.env.streams
  {
    if istream == NULL then
      Stage(InsertBlock(p, Block(CustomBlock, NULL, NULL, size), p.env, true), true, User(fn))
    else if !rbOk then Stage(p, false, User(fn))
    else
      var rb := p.env.next;
      var e := RbInit(p.env, size);
      if !initOk then Stage(p.(env := e), false, User(fn))
      else
        var f := StreamInit(e, istream, RbWrite(rb));
        Stage(InsertBlock(p, Block(StreamBlock, istream, rb, size), f, true), true, RbRead(rb))
  }

  // Without a codec the output stream reads rb1, which an input callback does not have.
  function AddCodec(p: Pipe, codec: nat, size: nat, input: Io, rbOk: bool, initOk: bool): Stage {
    if codec == NULL then Stage(p, true, if input.RbRead? then input else RbRead(NULL))
    else if !rbOk then Stage(p, false, input)
    else
      var rb := p.env.next;
      var e := RbInit(p.env, size);
      if !initOk then Stage(p.(env := e), false, input)
      else
        var f := CodecInit(e, codec, input, RbWrite(rb));
        Stage(InsertBlock(p, Block(CodecBlock, codec, rb, size), f, false), true, RbRead(rb))
  }

  function AddOutput(p: Pipe, ostream: nat, io: Io, initOk: bool): Stage
    requires ostream in p.env.streams
  {
    if !initOk then Stage(p, false, io)
    else Stage(InsertBlock(p, Block(StreamBlock, ostream, NULL, 0), StreamInit(p.env, ostream, io), false), true, io)
  }

  // Which of the allocations and initialisations of a creation succeed
  datatype Luck = Luck(rb1: bool, istream: bool, rb2: bool, codec: bool, ostream: bool)

  datatype Parts = Parts(istream: nat, rb1Size: nat, fn: nat, codec: nat, rb2Size: nat, ostream: nat)

  predicate PartsExist(e: Env, a: Parts) {
    && (a.istream != NULL ==> a.istream in e.streams)
    && a.ostream in e.streams
  }

  function Alloc(e: Env): Pipe {
    Pipe(Inited, Inited, 0, [], e, [])
  }

  // The pipeline as far as it gets
  function Assemble(e: Env, a: Parts, l: Luck): Stage
    requires PartsExist(e, a)
  {
    var s1 := AddInput(Alloc(e), a.istream, a.rb1Size, a.fn, l.rb1, l.istream);
    if !s1.ok then s1
    else
      var s2 := AddCodec(s1.pipe, a.codec, a.rb2Size, s1.io, l.rb2, l.codec);
      if !s2.ok then s2 else AddOutput(s2.pipe, a.ostream, s2.io, l.ostream)
  }

  // A creation that fails destroys what it has assembled; only its environment is left.
  function Create(e: Env, a: Parts, l: Luck): Stage
    requires PartsExist(e, a)
  {
    var s := Assemble(e, a, l);
    if s.ok then s else s.(pipe := Alloc(DestroyBlocks(s.pipe.env, s.pipe.blocks)))
  }

  // -------------------------------------------------------------------------- commands, events

  datatype Action =
    | ResetRb(rb: nat) | StartStream(id: nat) | StartCodec(id: nat)
    | StopStream(id: nat) | StopCodec(id: nat) | PauseStream(id: nat) | ResumeStream(id: nat)

  function StartBlock(b: Block): seq<Action> {
    (if b.rb != NULL then [ResetRb(b.rb)] else []) +
    (match b.btype
     case StreamBlock => [StartStream(b.cfg)]
     case CodecBlock => [StartCodec(b.cfg)]
     case CustomBlock => [])
  }

  function StartActions(blocks: seq<Block>): seq<Action> {
    if blocks == [] then [] else StartBlock(blocks[0]) + StartActions(blocks[1..])
  }

  // Only the first stream or codec is stopped; the end of data stops the others.
  function StopActions(blocks: seq<Block>): seq<Action> {
    if blocks == [] then []
    else match blocks[0].btype
      case StreamBlock => [StopStream(blocks[0].cfg)]
      case CodecBlock => [StopCodec(blocks[0].cfg)]
      case CustomBlock => StopActions(blocks[1..])
  }

  function PauseActions(blocks: seq<Block>): seq<Action> {
    if blocks == [] then [] else [PauseStream(blocks[|blocks| - 1].cfg)]
  }

  function ResumeActions(blocks: seq<Block>): seq<Action> {
    if blocks == [] then [] else [ResumeStream(blocks[|blocks| - 1].cfg)]
  }

  datatype Commanded = Commanded(actions: seq<Action>, err: Err)

  // audio_state_machine: a command acts on the blocks, and the state follows with the events.
  function Command(p: Pipe, next: PipeState): Commanded {
    match p.state
    case Inited => if next.Started? then Commanded(StartActions(p.blocks), ESP_OK) else Commanded([], ESP_FAIL)
    case Stopped => if next.Started? then Commanded(StartActions(p.blocks), ESP_OK) else Commanded([], ESP_FAIL)
    case Started => CommandRunning(p, next)
    case Resumed => CommandRunning(p, next)
    case Paused => if next.Resumed? then Commanded(ResumeActions(p.blocks), ESP_OK) else Commanded([], ESP_FAIL)
  }

  function CommandRunning(p: Pipe, next: PipeState): Commanded {
    if next.Paused? then Commanded(PauseActions(p.blocks), ESP_OK)
    else if next.Stopped? then Commanded(StopActions(p.blocks), ESP_OK)
    else Commanded([], ESP_FAIL)
  }

  datatype Event =
    | StreamStarted | StreamStopped | StreamPaused
    | CodecStarted | CodecStopped | CodecPaused
    | Other

  // The state an event asks for
  function Target(state: PipeState, ev: Event): PipeState {
    match ev
    case StreamStarted => Started
    case CodecStarted => Started
    case StreamStopped => Stopped
    case CodecStopped => Stopped
    case StreamPaused => Paused
    case CodecPaused => Paused
    case Other => state
  }

  // audio_pipe_event_cb, in the task that has the event to report: what it does under the lock
  function Locked(p: Pipe, ev: Event): Pipe {
    p.(oldState := p.state, state := Target(p.state, ev))
  }

  // The application is told the state, which is read once more for that.
  function Notified(p: Pipe): Pipe {
    p.(notes := p.notes + [p.state])
  }

  // What it does after the lock is released, if no other task comes in between
  function Reported(p: Pipe): Pipe {
    if p.oldState != p.state then Notified(p) else p
  }
}
