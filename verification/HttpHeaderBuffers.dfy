/** The header callbacks in the form the source has: C strings in buffers updated in place. */
module HttpHeaderBuffers {
  import opened Common
  import opened HttpHeaders

  predicate NoNul(s: string) {
    forall i :: 0 <= i < |s| ==> s[i] != NUL
  }

  // The buffer holds `s` and its terminator.
  predicate CString(a: seq<char>, s: string) {
    |s| < |a| && a[..|s|] == s && a[|s|] == NUL && NoNul(s)
  }

  lemma {:induction false} CStringChars(a: seq<char>, s: string)
    requires CString(a, s)
    ensures forall i :: 0 <= i < |s| ==> a[i] == s[i] != NUL
  {
    assert forall i :: 0 <= i < |s| ==> a[i] == a[..|s|][i];
  }

  method StrLen(a: array<char>, ghost s: string) returns (n: nat)
    requires CString(a[..], s)
    ensures n == |s|
  {
    n := 0;
    CStringChars(a[..], s);
    while a[n] != NUL
      invariant n <= |s|
      decreases |s| - n
    {
      n := n + 1;
    }
  }

  method ReadString(a: array<char>, ghost s: string) returns (r: string)
    requires CString(a[..], s)
    ensures r == s
  {
    var n := StrLen(a, s);
    r := a[..n];
  }

  // strncpy or strncat of all of `p`, with the terminator after it
  method CopyAt(a: array<char>, at: nat, p: string)
    requires at + |p| < a.Length && NoNul(p)
    requires NoNul(a[..at])
    modifies a
    ensures CString(a[..], old(a[..at]) + p)
  {
    var i := 0;
    while i < |p|
      invariant 0 <= i <= |p|
      invariant a[..at] == old(a[..at])
      invariant a[at..at + i] == p[..i]
    {
      a[at + i] := p[i];
      i := i + 1;
    }
    a[at + |p|] := NUL;
    assert a[..at + |p|] == old(a[..at]) + p;
  }

  method Realloc(a: array<char>, size: nat) returns (b: array<char>)
    requires a.Length <= size
    ensures fresh(b) && b.Length == size && b[..a.Length] == a[..]
  {
    b := new char[size];
    forall i | 0 <= i < a.Length {
      b[i] := a[i];
    }
  }

  class HeaderParser {
    const max: nat
    const hdrBuf: array<char>
    const valBuf: array<char>
    const contentType: array<char>
    var lastWasHdr: bool
    var uri: array?<char>
    var bufSize: nat
    var log: seq<Pair>
    ghost var name: string
    ghost var val: string
    ghost var uriText: string
    ghost var ctype: string

    ghost function Model(): Headers
      reads this
    {
      Headers(max, lastWasHdr, name, val, if uri == null then None else Some(Location(uriText, bufSize)), ctype, log)
    }

    ghost predicate Valid()
      reads this, hdrBuf, valBuf, contentType, uri
    {
      && Bounded(Model()) && ValueExpected(Model())
      && hdrBuf != valBuf && hdrBuf != contentType && valBuf != contentType
      && hdrBuf.Length == valBuf.Length == contentType.Length == max
      && CString(hdrBuf[..], name) && CString(valBuf[..], val) && CString(contentType[..], ctype)
      && (uri != null ==>
            && uri != hdrBuf && uri != valBuf && uri != contentType
            && uri.Length == bufSize && CString(uri[..], uriText))
    }

    constructor (max: nat)
      requires max >= 2
      ensures Valid() && Model() == FreshHeaders(max)
    {
      this.max := max;
      hdrBuf := new char[max](_ => NUL);
      valBuf := new char[max](_ => NUL);
      contentType := new char[max](_ => NUL);
      lastWasHdr, uri, bufSize, log := false, null, 0, [];
      name, val, uriText, ctype := "", "", "", "";
    }

    method ProcessHdrValuePair()
      requires Valid()
      modifies this`log, this`ctype, contentType
      ensures Valid() && Model() == ProcessPair(old(Model()))
    {
      CStringChars(hdrBuf[..], name);
      if hdrBuf[0] == NUL {
        return;
      }
      var n := ReadString(hdrBuf, name);
      var v := ReadString(valBuf, val);
      log := log + [Pair(n, v)];
      if IsContentType(n) {
        CopyAt(contentType, 0, v);
        ctype := v;
        assert [] + v == v;
      }
    }

    method GetHdrField(p: string)
      requires Valid() && NoNul(p)
      modifies this, hdrBuf, contentType
      ensures Valid() && Model() == OnField(old(Model()), p)
    {
      if !lastWasHdr {
        ProcessHdrValuePair();
        var len := |p|;
        if len >= max {
          len := max - 2;
        }
        CopyAt(hdrBuf, 0, p[..len]);
        name := p[..len];
        assert [] + name == name;
      } else {
        var used := StrLen(hdrBuf, name);
        var spaceLeft := max - used - 1;
        var copyLen := if |p| > spaceLeft then spaceLeft else |p|;
        CopyAt(hdrBuf, used, p[..copyLen]);
        name := name + p[..copyLen];
      }
      lastWasHdr := true;
    }

    method GetHdrValue(p: string)
      requires Valid() && NoNul(p)
      modifies this, valBuf, uri
      ensures Valid() && Model() == OnValue(old(Model()), p)
      ensures uri != old(uri) ==> fresh(uri)
    {
      var n := ReadString(hdrBuf, name);
      if lastWasHdr {
        if IsLocation(n) {
          StartLocation(p);
        } else {
          StartValue(p);
        }
      } else {
        if IsLocation(n) {
          ExtendLocation(p);
        } else {
          ExtendValue(p);
        }
      }
      lastWasHdr := false;
    }

    method StartValue(p: string)
      requires Valid() && NoNul(p)
      modifies this`val, valBuf
      ensures Valid() && Model() == old(Model()).(val := Clip(p, max))
    {
      var len := |p|;
      if len >= max {
        len := max - 2;
      }
      CopyAt(valBuf, 0, p[..len]);
      val := p[..len];
      assert [] + val == val;
    }

    method ExtendValue(p: string)
      requires Valid() && NoNul(p)
      modifies this`val, valBuf
      ensures Valid() && Model() == old(Model()).(val := Append(old(val), p, max))
    {
      var used := StrLen(valBuf, val);
      var spaceLeft := max - used - 1;
      var copyLen := if |p| > spaceLeft then spaceLeft else |p|;
      CopyAt(valBuf, used, p[..copyLen]);
      val := val + p[..copyLen];
    }

    // The location buffer is allocated for the first fragment.
    method StartLocation(p: string)
      requires Valid() && NoNul(p)
      modifies this`uri, this`bufSize, this`uriText
      ensures Valid() && Model() == old(Model()).(location := Some(NewLocation(p)))
      ensures fresh(uri)
    {
      uri := new char[REDIRECT_BUF_INITIAL_SIZE + |p|];
      bufSize := REDIRECT_BUF_INITIAL_SIZE + |p|;
      CopyAt(uri, 0, p);
      uriText := p;
      assert [] + p == p;
    }

    // It grows when a further fragment does not fit.
    method ExtendLocation(p: string)
      requires Valid() && NoNul(p) && uri != null
      modifies this`uri, this`bufSize, this`uriText, uri
      ensures Valid() && Model() == old(Model()).(location := Some(GrowLocation(old(Model()).location.value, p)))
      ensures uri != old(uri) ==> fresh(uri)
    {
      var used := StrLen(uri, uriText);
      var spaceLeft := bufSize - used - 1;
      if |p| > spaceLeft {
        bufSize := if spaceLeft + bufSize > |p| then 2 * bufSize else bufSize + 2 * |p|;
        uri := Realloc(uri, bufSize);
      }
      ghost var text := old(uri[..])[..used];
      assert uri[..used] == text;
      CopyAt(uri, used, p);
      uriText := text + p;
    }

    method HdrComplete()
      requires Valid()
      modifies this`log, this`ctype, contentType
      ensures Valid() && Model() == ProcessPair(old(Model()))
    {
      ProcessHdrValuePair();
    }
  }
}
