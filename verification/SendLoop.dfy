/** The send callback of the HTTP/2 client (`components/sh2lib/sh2lib.c`): a loop over partial writes. */
module SendLoop {
  import opened Common
  import opened Transport

  const CHUNK: nat := 1000
  const ERR_WOULDBLOCK: int := -504         // NGHTTP2_ERR_WOULDBLOCK
  const ERR_CALLBACK_FAILURE: int := -902   // NGHTTP2_ERR_CALLBACK_FAILURE
  const WANT_READ: int := -0x6900           // MBEDTLS_ERR_SSL_WANT_READ
  const WANT_WRITE: int := -0x6880          // MBEDTLS_ERR_SSL_WANT_WRITE

  predicate Wants(ret: int) {
    ret == WANT_READ || ret == WANT_WRITE
  }

  // callback_send_inner
  function SendInner(l: Link, data: Bytes): Written {
    var w := Write(l, data);
    Written(w.link, if w.ret > 0 then w.ret else if Wants(w.ret) then ERR_WOULDBLOCK else ERR_CALLBACK_FAILURE)
  }

  function NextChunk(data: Bytes, offset: nat): Bytes
    requires offset <= |data|
  {
    data[offset..if |data| - offset > CHUNK then offset + CHUNK else |data|]
  }

  // callback_send, from the moment `offset` bytes are out
  function SendFrom(l: Link, data: Bytes, offset: nat): Written
    requires offset <= |data|
    decreases |data| - offset
  {
    if offset == |data| then Written(l, offset)
    else
      var w := SendInner(l, NextChunk(data, offset));
      if w.ret <= 0 then Written(w.link, if offset == 0 then w.ret else offset)
      else SendFrom(w.link, data, offset + w.ret)
  }

  function Send(l: Link, data: Bytes): Written {
    SendFrom(l, data, 0)
  }

  // One write takes a part of its chunk, or nothing.
  lemma {:induction false} InnerAccounts(l: Link, data: Bytes, offset: nat)
    requires offset < |data|
    ensures var w := SendInner(l, NextChunk(data, offset));
            if w.ret > 0 then offset + w.ret <= |data| && w.link.wire == l.wire + data[offset..offset + w.ret]
            else w.ret < 0 && w.link.wire == l.wire
  {
    var chunk := NextChunk(data, offset);
    var w := SendInner(l, chunk);
    if w.ret > 0 {
      assert chunk[..w.ret] == data[offset..offset + w.ret];
    } else {
      assert l.wire + [] == l.wire;
    }
  }

  lemma {:induction false} InOrder(wire: Bytes, data: Bytes, a: nat, b: nat, c: nat)
    requires a <= b <= c <= |data|
    ensures wire + data[a..b] + data[b..c] == wire + data[a..c]
  {
    assert data[a..b] + data[b..c] == data[a..c];
  }

  lemma {:induction false} SendFromAccounts(l: Link, data: Bytes, offset: nat)
    requires offset <= |data|
    ensures var r := SendFrom(l, data, offset);
            if r.ret < 0 then offset == 0 && r.link.wire == l.wire
            else offset <= r.ret <= |data| && r.link.wire == l.wire + data[offset..r.ret]
    decreases |data| - offset
  {
    if offset < |data| {
      InnerAccounts(l, data, offset);
      var w := SendInner(l, NextChunk(data, offset));
      if w.ret > 0 {
        SendFromAccounts(w.link, data, offset + w.ret);
        InOrder(l.wire, data, offset, offset + w.ret, SendFrom(w.link, data, offset + w.ret).ret);
      }
    }
  }

  /**
   A result r >= 0 means that exactly the first r bytes went out, in order; an error means that
   none did, which is the case if and only if the first write of a non-empty buffer failed.
   */
  lemma {:induction false} SendAccounts(l: Link, data: Bytes)
    ensures var r := Send(l, data);
            if r.ret >= 0 then r.ret <= |data| && r.link.wire == l.wire + data[..r.ret] else r.link.wire == l.wire
    ensures Send(l, data).ret == 0 <==> data == []
    ensures var first := Write(l, NextChunk(data, 0)).ret;
            && (Send(l, data).ret < 0 <==> data != [] && first <= 0)
            && (Send(l, data).ret == ERR_WOULDBLOCK <==> data != [] && Wants(first))
  {
    SendFromAccounts(l, data, 0);
    if data != [] {
      var w := SendInner(l, NextChunk(data, 0));
      if w.ret > 0 {
        SendFromAccounts(w.link, data, w.ret);
      }
    }
  }

  // ---- Which writes a call makes ----

  // What the next write of `size` bytes takes
  function Taken(script: seq<int>, size: nat): int {
    if script == [] || script[0] > size then size else script[0]
  }

  function Rest(script: seq<int>): seq<int> {
    if script == [] then [] else script[1..]
  }

  // How much of `left` bytes is handed to one write
  function Piece(left: nat): nat {
    if left > 1000 then 1000 else left
  }

  // What write number `i` takes, and how many of `left` bytes are left before it, if each before
  // it takes something
  function TakenBy(script: seq<int>, left: nat, i: nat): int
    decreases i
  {
    var n := Taken(script, Piece(left));
    if i == 0 then n else if n <= 0 then 0 else TakenBy(Rest(script), left - n, i - 1)
  }

  function LeftBefore(script: seq<int>, left: nat, i: nat): nat
    decreases i
  {
    var n := Taken(script, Piece(left));
    if i == 0 || n <= 0 then left else LeftBefore(Rest(script), left - n, i - 1)
  }

  // The first `m` writes take something, and there was something left for each.
  predicate Goes(script: seq<int>, left: nat, m: nat) {
    forall i :: 0 <= i < m ==> TakenBy(script, left, i) > 0 && LeftBefore(script, left, i) > 0
  }

  // All is out, or the next write takes nothing.
  predicate StopsAt(script: seq<int>, left: nat, m: nat) {
    LeftBefore(script, left, m) == 0 || TakenBy(script, left, m) <= 0
  }

  lemma {:induction false} GoesOneMore(script: seq<int>, left: nat, m: nat)
    requires left > 0 && Taken(script, Piece(left)) > 0
    requires Goes(Rest(script), left - Taken(script, Piece(left)), m)
    ensures Goes(script, left, m + 1)
  {
    var n := Taken(script, Piece(left));
    forall i | 0 <= i < m + 1
      ensures TakenBy(script, left, i) > 0 && LeftBefore(script, left, i) > 0
    {
      if i > 0 {
        assert TakenBy(Rest(script), left - n, i - 1) > 0;
      }
    }
  }

  lemma {:induction false} SendFromExact(l: Link, data: Bytes, offset: nat) returns (m: nat)
    requires offset <= |data|
    ensures var left, r := |data| - offset, SendFrom(l, data, offset);
      && Goes(l.script, left, m) && StopsAt(l.script, left, m)
      && (m > 0 || offset > 0 || left == 0 ==> r.ret == |data| - LeftBefore(l.script, left, m))
    decreases |data| - offset
  {
    m := 0;
    if offset < |data| {
      var w := SendInner(l, NextChunk(data, offset));
      if w.ret > 0 {
        m := SendFromExact(w.link, data, offset + w.ret);
        GoesOneMore(l.script, |data| - offset, m);
        m := m + 1;
      }
    }
  }

  /**
   A call writes pieces of up to 1000 bytes, each from where the one before it has ended, until all
   is out or a write takes nothing, and returns how much is out. If the first write takes nothing,
   it returns -504 if the connection wants to read (-0x6900) or to write (-0x6880), and -902 else.
   */
  lemma {:induction false} SendExact(l: Link, data: Bytes) returns (m: nat)
    ensures var left, r := |data|, Send(l, data).ret;
      && Goes(l.script, left, m) && StopsAt(l.script, left, m)
      && if m > 0 || left == 0 then r == left - LeftBefore(l.script, left, m)
         else
           var n := TakenBy(l.script, left, 0);
           r == if n == -0x6900 || n == -0x6880 then -504 else -902
  {
    m := SendFromExact(l, data, 0);
  }

  // ---- The session calls again with the rest until all is out or the callback fails ----

  datatype Progress = Progress(link: Link, done: nat, failed: bool)

  function Call(p: Progress, data: Bytes): Progress
    requires p.done <= |data|
  {
    if p.failed || p.done == |data| then p
    else
      var r := Send(p.link, data[p.done..]);
      if r.ret > 0 && p.done + r.ret <= |data| then Progress(r.link, p.done + r.ret, false)
      else Progress(r.link, p.done, r.ret != ERR_WOULDBLOCK)
  }

  function Calls(p: Progress, data: Bytes, k: nat): Progress
    requires p.done <= |data|
    decreases k
  {
    if k == 0 then p else Calls(Call(p, data), data, k - 1)
  }

  lemma {:induction false} CallAccounts(p: Progress, data: Bytes)
    requires p.done <= |data|
    ensures var q := Call(p, data);
            p.done <= q.done && q.link.wire == p.link.wire + data[p.done..q.done]
  {
    if !p.failed && p.done < |data| {
      var rest := data[p.done..];
      SendAccounts(p.link, rest);
      var r := Send(p.link, rest);
      if r.ret > 0 {
        assert rest[..r.ret] == data[p.done..p.done + r.ret];
      }
    }
  }

  /** Over any number of calls, each resuming where the last one stopped, every byte goes out once and in order. */
  lemma {:induction false} CallsAccount(p: Progress, data: Bytes, k: nat)
    requires p.done <= |data|
    ensures var q := Calls(p, data, k);
            p.done <= q.done <= |data| && q.link.wire == p.link.wire + data[p.done..q.done]
    decreases k
  {
    if k > 0 {
      var m := Call(p, data);
      CallAccounts(p, data);
      CallsAccount(m, data, k - 1);
      InOrder(p.link.wire, data, p.done, m.done, Calls(m, data, k - 1).done);
    }
  }

  // The script has partial writes and writes that would block, but no failure.
  predicate NeverFails(script: seq<int>) {
    forall i :: 0 <= i < |script| ==> script[i] > 0 || Wants(script[i])
  }

  lemma {:induction false} SendUsesScript(l: Link, data: Bytes, offset: nat)
    requires offset < |data| && NeverFails(l.script)
    ensures var r := SendFrom(l, data, offset);
            && NeverFails(r.link.script)
            && (r.ret > 0 || r.ret == ERR_WOULDBLOCK)
            && |r.link.script| <= |l.script|
            && (r.ret == |data| || |r.link.script| < |l.script|)
    decreases |data| - offset
  {
    var w := SendInner(l, NextChunk(data, offset));
    if w.ret > 0 && offset + w.ret < |data| {
      SendUsesScript(w.link, data, offset + w.ret);
    }
  }

  /** Unless a write fails for good, one call more than there are disturbed writes gets everything out. */
  lemma {:induction false} CallsComplete(p: Progress, data: Bytes, k: nat)
    requires p.done <= |data| && !p.failed && NeverFails(p.link.script) && k > |p.link.script|
    ensures Calls(p, data, k).done == |data|
    decreases k
  {
    if p.done == |data| {
      CallsAccount(p, data, k);
    } else {
      SendUsesScript(p.link, data[p.done..], 0);
      CallAccounts(p, data);
      SendAccounts(p.link, data[p.done..]);
      var q := Call(p, data);
      if q.done == |data| {
        CallsAccount(q, data, k - 1);
      } else {
        CallsComplete(q, data, k - 1);
      }
    }
  }

  class Sh2Handle {
    const tls: Tls

    constructor (tls: Tls)
      ensures this.tls == tls
    {
      this.tls := tls;
    }

    method CallbackSendInner(data: Bytes) returns (rv: int)
      modifies tls
      ensures Written(tls.link, rv) == SendInner(old(tls.link), data)
    {
      rv := tls.ConnWrite(data);
      if rv <= 0 {
        if rv == WANT_WRITE || rv == WANT_READ {
          rv := ERR_WOULDBLOCK;
        } else {
          rv := ERR_CALLBACK_FAILURE;
        }
      }
    }

    method CallbackSend(data: Bytes) returns (rv: int)
      modifies tls
      ensures Written(tls.link, rv) == Send(old(tls.link), data)
    {
      rv := 0;
      var copyOffset := 0;
      var pendingData := |data|;
      while copyOffset != |data|
        invariant 0 <= copyOffset <= |data| && rv == copyOffset && pendingData == |data| - copyOffset
        invariant SendFrom(tls.link, data, copyOffset) == Send(old(tls.link), data)
        decreases pendingData
      {
        var chunkLen := if pendingData > CHUNK then CHUNK else pendingData;
        InnerAccounts(tls.link, data, copyOffset);
        assert data[copyOffset..copyOffset + chunkLen] == NextChunk(data, copyOffset);
        var subrv := CallbackSendInner(data[copyOffset..copyOffset + chunkLen]);
        if subrv <= 0 {
          if copyOffset == 0 {
            rv := subrv;
          }
          break;
        }
        copyOffset := copyOffset + subrv;
        pendingData := pendingData - subrv;
        rv := rv + subrv;
      }
    }
  }
}
