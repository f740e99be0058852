/** The pipeline as the source has it: an object whose state and block list are updated in place. */
module PipeDriver {
  import opened PipeSpec

  class AudioPipe {
    var state: PipeState
    var oldState: PipeState
    var cnt: int
    var blocks: seq<Block>
    var env: Env
    var notes: seq<PipeState>

    ghost function Model(): Pipe
      reads this
    {
      Pipe(state, oldState, cnt, blocks, env, notes)
    }

    // audio_pipe_alloc
    constructor (env: Env)
      ensures Model() == Alloc(env)
    {
      this.state, this.oldState := Inited, Inited;
      this.cnt := 0;
      this.blocks := [];
      this.env := env;
      this.notes := [];
    }

    // _create_insert_block
    method CreateInsertBlock(cfg: nat, btype: BlockType, rb: nat, rbSize: nat, head: bool)
      modifies `blocks, `cnt
      ensures Model() == InsertBlock(old(Model()), Block(btype, cfg, rb, rbSize), env, head)
    {
      var b := Block(btype, cfg, rb, rbSize);
      if head {
        blocks := [b] + blocks;
      } else {
        blocks := blocks + [b];
      }
      cnt := cnt + 1;
    }

    // get_codec_block: the number of blocks if there is no codec
    method GetCodecBlock() returns (i: nat)
      ensures i == CodecAt(blocks)
    {
      i := 0;
      assert blocks[0..] == blocks;
      while i < |blocks|
        invariant 0 <= i <= |blocks|
        invariant CodecAt(blocks) == i + CodecAt(blocks[i..])
      {
        if blocks[i].btype.CodecBlock? {
          break;
        }
        assert blocks[i..][1..] == blocks[i + 1..];
        i := i + 1;
      }
    }

    // audio_pipe_replace_stream
    method ReplaceStreamAt(i: nat, id: nat, initOk: bool) returns (err: Err)
      requires i < |blocks| && blocks[i].cfg in env.streams && id in env.streams
      modifies `blocks, `env
      ensures Outcome(Model(), err) == ReplaceStream(old(Model()), i, id, initOk)
    {
      var oldStream := blocks[i].cfg;
      if oldStream == id {
        return ESP_OK;
      }
      var streamIo := env.streams[oldStream].io;
      if !initOk {
        return ESP_FAIL;
      }
      env := StreamInit(env, id, streamIo);
      env := StreamDestroy(env, oldStream);
      blocks := blocks[i := blocks[i].(cfg := id)];
      return ESP_OK;
    }

    // audio_pipe_replace_codec
    method ReplaceCodecAt(i: nat, id: nat, initOk: bool) returns (err: Err)
      requires i < |blocks| && blocks[i].cfg in env.codecs
      modifies `blocks, `env
      ensures Outcome(Model(), err) == ReplaceCodec(old(Model()), i, id, initOk)
    {
      var oldCodec := blocks[i].cfg;
      if oldCodec == id {
        return ESP_OK;
      }
      if !initOk {
        return ESP_FAIL;
      }
      env := CodecInit(env, id, env.codecs[oldCodec].input, env.codecs[oldCodec].output);
      env := CodecDestroy(env, oldCodec);
      blocks := blocks[i := blocks[i].(cfg := id)];
      return ESP_OK;
    }

    method FeedCodecFrom(io: Io)
      modifies `env
      ensures Model() == FeedCodec(old(Model()), io)
    {
      var i := GetCodecBlock();
      if i < |blocks| {
        env := ModifyInputCb(env, blocks[i].cfg, io);
      }
    }

    // audio_pipe_set_input_stream
    method SetInput(id: nat, rbOk: bool, initOk: bool) returns (err: Err)
      requires blocks != [] && id in env.streams
      requires blocks[0].btype.StreamBlock? ==> blocks[0].cfg in env.streams
      modifies `blocks, `env
      ensures Outcome(Model(), err) == SetInputStream(old(Model()), id, rbOk, initOk)
    {
      if !state.Inited? && !state.Stopped? {
        return ESP_ERR_INVALID_STATE;
      }
      err := ESP_FAIL;
      if blocks[0].btype.StreamBlock? {
        err := ReplaceStreamAt(0, id, initOk);
        return;
      }
      var rb := NULL;
      if rbOk {
        rb := env.next;
        env := RbInit(env, blocks[0].rbSize);
      }
      blocks := blocks[0 := blocks[0].(rb := rb)];
      if !rbOk {
        return ESP_ERR_NO_MEM;
      }
      if !initOk {
        return ESP_FAIL;
      }
      env := StreamInit(env, id, RbWrite(rb));
      blocks := blocks[0 := blocks[0].(cfg := id, btype := StreamBlock)];
      FeedCodecFrom(RbRead(rb));
    }

    // audio_pipe_set_codec
    method ChangeCodec(id: nat, initOk: bool) returns (err: Err)
      requires CodecAt(blocks) < |blocks| ==> blocks[CodecAt(blocks)].cfg in env.codecs
      modifies `blocks, `env
      ensures Outcome(Model(), err) == SetCodec(old(Model()), id, initOk)
    {
      if !state.Inited? && !state.Stopped? {
        return ESP_ERR_INVALID_STATE;
      }
      err := ESP_FAIL;
      var i := GetCodecBlock();
      if i < |blocks| {
        err := ReplaceCodecAt(i, id, initOk);
      }
    }

    // audio_pipe_set_input_cb
    method SetCallback(fn: nat) returns (err: Err)
      requires blocks != []
      modifies `blocks, `env
      ensures Outcome(Model(), err) == SetInputCb(old(Model()), fn)
    {
      if !state.Inited? && !state.Stopped? {
        return ESP_ERR_INVALID_STATE;
      }
      if blocks[0].btype.StreamBlock? {
        env := StreamDestroy(env, blocks[0].cfg);
        env := RbCleanup(env, blocks[0].rb);
        blocks := blocks[0 := blocks[0].(cfg := NULL, rb := NULL, btype := CustomBlock)];
      }
      FeedCodecFrom(User(fn));
      return ESP_OK;
    }

    // audio_pipe_destroy
    method Destroy()
      modifies `env
      ensures env == DestroyBlocks(old(env), blocks)
    {
      var i := 0;
      assert blocks[0..] == blocks;
      while i < |blocks|
        invariant 0 <= i <= |blocks|
        invariant DestroyBlocks(old(env), blocks) == DestroyBlocks(env, blocks[i..])
      {
        var b := blocks[i];
        assert blocks[i..][0] == b && blocks[i..][1..] == blocks[i + 1..];
        if b.rb != NULL {
          env := RbCleanup(env, b.rb);
        }
        if b.btype.StreamBlock? {
          env := StreamDestroy(env, b.cfg);
        } else if b.btype.CodecBlock? {
          env := CodecDestroy(env, b.cfg);
        }
        i := i + 1;
      }
    }

    // _audio_pipe_create, up to its label err
    method Build(a: Parts, l: Luck) returns (ok: bool)
      requires PartsExist(env, a) && Model() == Alloc(env)
      modifies this
      ensures ok == Assemble(old(env), a, l).ok && Model() == Assemble(old(env), a, l).pipe
    {
      var rb1, rb2 := NULL, NULL;
      var codecInput, streamIo: Io;
      if a.istream != NULL {
        if !l.rb1 {
          return false;
        }
        rb1 := env.next;
        env := RbInit(env, a.rb1Size);
        if !l.istream {
          return false;
        }
        env := StreamInit(env, a.istream, RbWrite(rb1));
        CreateInsertBlock(a.istream, StreamBlock, rb1, a.rb1Size, true);
        codecInput := RbRead(rb1);
      } else {
        codecInput := User(a.fn);
        CreateInsertBlock(NULL, CustomBlock, NULL, a.rb1Size, true);
      }
      if a.codec != NULL {
        if !l.rb2 {
          return false;
        }
        rb2 := env.next;
        env := RbInit(env, a.rb2Size);
        if !l.codec {
          return false;
        }
        env := CodecInit(env, a.codec, codecInput, RbWrite(rb2));
        CreateInsertBlock(a.codec, CodecBlock, rb2, a.rb2Size, false);
        streamIo := RbRead(rb2);
      } else {
        streamIo := RbRead(rb1);
      }
      if !l.ostream {
        return false;
      }
      env := StreamInit(env, a.ostream, streamIo);
      CreateInsertBlock(a.ostream, StreamBlock, NULL, 0, false);
      return true;
    }

    // _audio_pipe_start
    method Start() returns (actions: seq<Action>)
      ensures actions == StartActions(blocks)
    {
      actions := [];
      var i := 0;
      assert blocks[0..] == blocks;
      while i < |blocks|
        invariant 0 <= i <= |blocks|
        invariant StartActions(blocks) == actions + StartActions(blocks[i..])
      {
        var b := blocks[i];
        assert blocks[i..][0] == b && blocks[i..][1..] == blocks[i + 1..];
        ghost var rest := StartActions(blocks[i + 1..]);
        assert actions + (StartBlock(b) + rest) == (actions + StartBlock(b)) + rest;
        ghost var before := actions;
        if b.rb != NULL {
          actions := actions + [ResetRb(b.rb)];
        }
        if b.btype.StreamBlock? {
          actions := actions + [StartStream(b.cfg)];
        } else if b.btype.CodecBlock? {
          actions := actions + [StartCodec(b.cfg)];
        }
        assert actions == before + StartBlock(b);
        i := i + 1;
      }
    }

    // _audio_pipe_stop
    method Stop() returns (actions: seq<Action>)
      ensures actions == StopActions(blocks)
    {
      var i := 0;
      assert blocks[0..] == blocks;
      while i < |blocks|
        invariant 0 <= i <= |blocks|
        invariant StopActions(blocks) == StopActions(blocks[i..])
      {
        var b := blocks[i];
        assert blocks[i..][0] == b && blocks[i..][1..] == blocks[i + 1..];
        if b.btype.StreamBlock? {
          return [StopStream(b.cfg)];
        } else if b.btype.CodecBlock? {
          return [StopCodec(b.cfg)];
        }
        i := i + 1;
      }
      return [];
    }

    // audio_state_machine
    method StateMachine(next: PipeState) returns (actions: seq<Action>, err: Err)
      ensures Commanded(actions, err) == Command(Model(), next)
    {
      actions, err := [], ESP_OK;
      match state
      case Inited | Stopped =>
        if next.Started? {
          actions := Start();
        } else {
          err := ESP_FAIL;
        }
      case Started | Resumed =>
        if next.Paused? {
          actions := PauseActions(blocks);
        } else if next.Stopped? {
          actions := Stop();
        } else {
          err := ESP_FAIL;
        }
      case Paused =>
        if next.Resumed? {
          actions := ResumeActions(blocks);
        } else {
          err := ESP_FAIL;
        }
    }

    // audio_pipe_event_cb, up to the release of the lock
    method EventLocked(ev: Event)
      modifies `state, `oldState
      ensures Model() == Locked(old(Model()), ev)
    {
      oldState := state;
      match ev {
        case StreamStarted | CodecStarted => state := Started;
        case StreamStopped | CodecStopped => state := Stopped;
        case StreamPaused | CodecPaused => state := Paused;
        case Other =>
      }
    }

    // The rest of audio_pipe_event_cb, without the lock, if no other task comes in between
    method EventReport()
      modifies `notes
      ensures Model() == Reported(old(Model()))
    {
      if oldState != state {
        notes := notes + [state];
      }
    }
  }

  // _audio_pipe_create: NULL, and the environment it leaves behind, if a step fails
  method CreatePipe(env: Env, a: Parts, l: Luck) returns (pipe: AudioPipe?, left: Env)
    requires PartsExist(env, a)
    ensures pipe == null <==> !Create(env, a, l).ok
    ensures pipe != null ==> fresh(pipe) && pipe.Model() == Create(env, a, l).pipe
    ensures left == Create(env, a, l).pipe.env
  {
    pipe := new AudioPipe(env);
    var ok := pipe.Build(a, l);
    if !ok {
      pipe.Destroy();
      left := pipe.env;
      pipe := null;
      return;
    }
    left := pipe.env;
  }
}
