/** Types shared by the component models. */
module Common {
  datatype Option<+T> = None | Some(value: T) {
    function GetOr(default: T): T {
      if this.None? then default else value
    }
  }

  type Byte = b: int | 0 <= b < 256

  type Bytes = seq<Byte>
}

/**
 The connection below HTTP and HTTP/2: `wire` is what has gone out, `script` holds what the
 write calls to come return. A positive result is the count of bytes taken. Calls beyond the
 script take all they are given.
 */
module Transport {
  import opened Common

  datatype Link = Link(wire: Bytes, script: seq<int>)

  datatype Written = Written(link: Link, ret: int)

  // esp_tls_conn_write; it never takes more than it is given
  function Write(l: Link, data: Bytes): (w: Written)
    ensures w.ret <= |data|
    ensures w.link.wire == l.wire + (if w.ret > 0 then data[..w.ret] else [])
  {
    var ret := if l.script == [] || l.script[0] > |data| then |data| else l.script[0];
    Written(Link(l.wire + (if ret > 0 then data[..ret] else []), if l.script == [] then [] else l.script[1..]), ret)
  }

  class Tls {
    var link: Link

    constructor (link: Link)
      ensures this.link == link
    {
      this.link := link;
    }

    method ConnWrite(data: Bytes) returns (ret: int)
      modifies this
      ensures Written(link, ret) == Write(old(link), data)
    {
      var w := Write(link, data);
      link := w.link;
      return w.ret;
    }
  }
}
