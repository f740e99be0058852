/**
 Reassembly of response headers from fragments (`components/httpc/httpc.c`). The parser calls
 back with pieces of names and values; names and values are kept in buffers of `max` bytes
 (MAX_HDR_VAL_LEN), a redirect location in a buffer that grows.
 */
module HttpHeaders {
  import opened Common

  const NUL: char := 0 as char
  const REDIRECT_BUF_INITIAL_SIZE: nat := 512

  function Lower(c: char): char {
    if 'A' <= c <= 'Z' then (c as int + 32) as char else c
  }

  // strcasecmp(a, b) == 0
  predicate SameIgnoringCase(a: string, b: string) {
    |a| == |b| && forall i :: 0 <= i < |a| ==> Lower(a[i]) == Lower(b[i])
  }

  predicate IsLocation(name: string) {
    SameIgnoringCase(name, "location")
  }

  predicate IsContentType(name: string) {
    SameIgnoringCase(name, "Content-Type")
  }

  datatype Pair = Pair(name: string, value: string)

  datatype Location = Location(uri: string, bufSize: nat)

  datatype Headers = Headers(
    max: nat,
    lastWasHdr: bool,
    name: string,                 // hdr_buf
    val: string,                  // val_buf
    location: Option<Location>,
    contentType: string,          // response_content_type
    log: seq<Pair>)               // calls of the user's header callback

  function FreshHeaders(max: nat): Headers {
    Headers(max, false, "", "", None, "", [])
  }

  // The first fragment of a name or a value
  function Clip(s: string, max: nat): string
    requires max >= 2
  {
    if |s| >= max then s[..max - 2] else s
  }

  // A further fragment
  function Append(buf: string, s: string, max: nat): string
    requires |buf| < max
  {
    buf + s[..if |s| > max - |buf| - 1 then max - |buf| - 1 else |s|]
  }

  // process_hdr_value_pair
  function ProcessPair(h: Headers): Headers {
    if h.name == "" then h
    else h.(log := h.log + [Pair(h.name, h.val)],
            contentType := if IsContentType(h.name) then h.val else h.contentType)
  }

  predicate Bounded(h: Headers) {
    && h.max >= 2 && |h.name| < h.max && |h.val| < h.max && |h.contentType| < h.max
    && (h.location.Some? ==> LocationOk(h.location.value))
  }

  // The text and its terminator fit, and the buffer stays within a constant factor of the text.
  predicate LocationOk(l: Location) {
    |l.uri| < l.bufSize <= REDIRECT_BUF_INITIAL_SIZE + 3 * |l.uri|
  }

  // http_get_hdr_field
  function OnField(h: Headers, s: string): (r: Headers)
    requires Bounded(h)
    ensures Bounded(r) && r.max == h.max
  {
    if h.lastWasHdr then h.(name := Append(h.name, s, h.max))
    else ProcessPair(h).(name := Clip(s, h.max), lastWasHdr := true)
  }

  function NewLocation(s: string): Location {
    Location(s, REDIRECT_BUF_INITIAL_SIZE + |s|)
  }

  function GrowLocation(l: Location, s: string): (r: Location)
    requires LocationOk(l)
    ensures LocationOk(r) && r.uri == l.uri + s
  {
    var left := l.bufSize - |l.uri| - 1;
    var size := if |s| <= left then l.bufSize
                else if left + l.bufSize > |s| then 2 * l.bufSize
                else l.bufSize + 2 * |s|;
    Location(l.uri + s, size)
  }

  // A value comes after a name, so a location header being continued has its buffer.
  predicate ValueExpected(h: Headers) {
    !h.lastWasHdr && IsLocation(h.name) ==> h.location.Some?
  }

  // http_get_hdr_value
  function OnValue(h: Headers, s: string): (r: Headers)
    requires Bounded(h) && ValueExpected(h)
    ensures Bounded(r) && r.max == h.max && ValueExpected(r)
  {
    if IsLocation(h.name) then
      h.(location := Some(if h.lastWasHdr then NewLocation(s) else GrowLocation(h.location.value, s)),
         lastWasHdr := false)
    else if h.lastWasHdr then h.(val := Clip(s, h.max), lastWasHdr := false)
    else h.(val := Append(h.val, s, h.max))
  }

  // ---- Fragments of one name or value ----

  function Join(fragments: seq<string>): string {
    if fragments == [] then "" else fragments[0] + Join(fragments[1..])
  }

  function AppendAll(buf: string, fragments: seq<string>, max: nat): (r: string)
    requires |buf| < max
    ensures |r| < max
    decreases |fragments|
  {
    if fragments == [] then buf else AppendAll(Append(buf, fragments[0], max), fragments[1..], max)
  }

  function Store(fragments: seq<string>, max: nat): (r: string)
    requires fragments != [] && max >= 2
    ensures |r| < max
  {
    AppendAll(Clip(fragments[0], max), fragments[1..], max)
  }

  lemma {:induction false} AppendAllIff(buf: string, fragments: seq<string>, max: nat)
    requires |buf| < max
    ensures |buf| + |Join(fragments)| < max ==> AppendAll(buf, fragments, max) == buf + Join(fragments)
    decreases |fragments|
  {
    if fragments != [] {
      var next := Append(buf, fragments[0], max);
      AppendAllIff(next, fragments[1..], max);
      if |buf| + |Join(fragments)| < max {
        assert next == buf + fragments[0];
        assert buf + fragments[0] + Join(fragments[1..]) == buf + Join(fragments);
      }
    } else {
      assert buf + "" == buf;
    }
  }

  /** What is stored is the whole text, however it is split, if and only if it is shorter than the buffer. */
  lemma {:induction false} StoreIff(fragments: seq<string>, max: nat)
    requires fragments != [] && max >= 2
    ensures Store(fragments, max) == Join(fragments) <==> |Join(fragments)| < max
  {
    if |Join(fragments)| < max {
      AppendAllIff(fragments[0], fragments[1..], max);
    }
  }

  function Cut(s: string, n: nat): string {
    if |s| > n then s[..n] else s
  }

  lemma {:induction false} AppendAllCuts(buf: string, fragments: seq<string>, max: nat)
    requires |buf| < max
    ensures AppendAll(buf, fragments, max) == buf + Cut(Join(fragments), max - 1 - |buf|)
    decreases |fragments|
  {
    if fragments == [] {
      assert buf + "" == buf;
    } else {
      var next, rest := Append(buf, fragments[0], max), Join(fragments[1..]);
      AppendAllCuts(next, fragments[1..], max);
      if |fragments[0]| > max - 1 - |buf| {
        assert Cut(rest, 0) == "";
        assert Cut(fragments[0] + rest, max - 1 - |buf|) == fragments[0][..max - 1 - |buf|];
      } else {
        assert next == buf + fragments[0];
        assert Cut(fragments[0] + rest, max - 1 - |buf|) == fragments[0] + Cut(rest, max - 1 - |next|);
      }
    }
  }

  /**
   What is stored of a text that is too long: its first max - 1 characters, unless the first
   fragment alone is too long. Then it is the first max - 2 of that, and one of what follows it.
   */
  lemma {:induction false} StoreCuts(fragments: seq<string>, max: nat)
    requires fragments != [] && max >= 2
    ensures |fragments[0]| < max ==> Store(fragments, max) == Cut(Join(fragments), max - 1)
    ensures |fragments[0]| >= max ==>
      Store(fragments, max) == fragments[0][..max - 2] + Cut(Join(fragments[1..]), 1)
  {
    var first, rest := fragments[0], Join(fragments[1..]);
    AppendAllCuts(Clip(first, max), fragments[1..], max);
    if |first| < max {
      assert Cut(first + rest, max - 1) == first + Cut(rest, max - 1 - |first|);
    }
  }

  /** A location's buffer is replaced only when the text does not fit, and then by one twice as large at least. */
  lemma {:induction false} LocationDoubles(l: Location, s: string)
    requires LocationOk(l)
    ensures GrowLocation(l, s).bufSize == l.bufSize <==> |l.uri| + |s| < l.bufSize
    ensures |l.uri| + |s| >= l.bufSize ==> GrowLocation(l, s).bufSize >= 2 * l.bufSize
    ensures GrowLocation(NewLocation(l.uri), s).bufSize == NewLocation(l.uri).bufSize <==> |s| < 512
  {
  }

  // A letter in upper or lower case
  predicate EitherCase(c: char, lower: char) {
    c == lower || ('A' <= c <= 'Z' && c as int + 32 == lower as int)
  }

  /** The two names the client looks for are recognised in upper and lower case, and nothing else is. */
  lemma {:induction false} NamesInEitherCase(name: string)
    ensures IsLocation(name) <==> |name| == 8 && forall i :: 0 <= i < 8 ==> EitherCase(name[i], "location"[i])
    ensures IsContentType(name) <==> |name| == 12 && forall i :: 0 <= i < 12 ==> EitherCase(name[i], "content-type"[i])
  {
    forall i | 0 <= i < 12 && i < |name|
      ensures Lower(name[i]) == Lower("Content-Type"[i]) <==> EitherCase(name[i], "content-type"[i])
    {
    }
  }

  // ---- A whole header block ----

  // The fragments the parser reports for one header
  datatype Header = Header(name: seq<string>, value: seq<string>)

  predicate IsHeader(d: Header) {
    d.name != [] && d.value != [] && Join(d.name) != ""
  }

  // Names fit the buffer, and so do the values kept in one.
  predicate Fits(d: Header, max: nat) {
    |Join(d.name)| < max && (|Join(d.value)| < max || IsLocation(Join(d.name)))
  }

  function OnFields(h: Headers, fragments: seq<string>): (r: Headers)
    requires Bounded(h)
    ensures Bounded(r) && r.max == h.max
    decreases |fragments|
  {
    if fragments == [] then h else OnFields(OnField(h, fragments[0]), fragments[1..])
  }

  function OnValues(h: Headers, fragments: seq<string>): (r: Headers)
    requires Bounded(h) && ValueExpected(h)
    ensures Bounded(r) && r.max == h.max && ValueExpected(r)
    decreases |fragments|
  {
    if fragments == [] then h else OnValues(OnValue(h, fragments[0]), fragments[1..])
  }

  lemma {:induction false} ContinueFields(h: Headers, fragments: seq<string>)
    requires Bounded(h) && h.lastWasHdr
    ensures OnFields(h, fragments) == h.(name := AppendAll(h.name, fragments, h.max))
    decreases |fragments|
  {
    if fragments != [] {
      ContinueFields(OnField(h, fragments[0]), fragments[1..]);
    }
  }

  lemma {:induction false} FieldsStore(h: Headers, fragments: seq<string>)
    requires Bounded(h) && !h.lastWasHdr && fragments != []
    ensures OnFields(h, fragments) == ProcessPair(h).(name := Store(fragments, h.max), lastWasHdr := true)
  {
    ContinueFields(OnField(h, fragments[0]), fragments[1..]);
  }

  lemma {:induction false} ContinueValues(h: Headers, fragments: seq<string>)
    requires Bounded(h) && !h.lastWasHdr && !IsLocation(h.name)
    ensures OnValues(h, fragments) == h.(val := AppendAll(h.val, fragments, h.max))
    decreases |fragments|
  {
    if fragments != [] {
      ContinueValues(OnValue(h, fragments[0]), fragments[1..]);
    }
  }

  lemma {:induction false} ValuesStore(h: Headers, fragments: seq<string>)
    requires Bounded(h) && h.lastWasHdr && fragments != [] && !IsLocation(h.name)
    ensures OnValues(h, fragments) == h.(val := Store(fragments, h.max), lastWasHdr := false)
  {
    ContinueValues(OnValue(h, fragments[0]), fragments[1..]);
  }

  lemma {:induction false} ContinueLocation(h: Headers, fragments: seq<string>)
    requires Bounded(h) && !h.lastWasHdr && IsLocation(h.name) && h.location.Some?
    ensures var r := OnValues(h, fragments);
            && r == h.(location := r.location)
            && r.location.Some? && r.location.value.uri == h.location.value.uri + Join(fragments)
    decreases |fragments|
  {
    if fragments != [] {
      var next := OnValue(h, fragments[0]);
      ContinueLocation(next, fragments[1..]);
      assert h.location.value.uri + fragments[0] + Join(fragments[1..]) == h.location.value.uri + Join(fragments);
    } else {
      assert h.location.value.uri + "" == h.location.value.uri;
    }
  }

  /** A location is stored whole, whatever its length and however it is split, in a buffer it fits. */
  lemma {:induction false} LocationStored(h: Headers, fragments: seq<string>)
    requires Bounded(h) && h.lastWasHdr && fragments != [] && IsLocation(h.name)
    ensures var r := OnValues(h, fragments);
            && r == h.(location := r.location, lastWasHdr := false)
            && r.location.Some? && r.location.value.uri == Join(fragments)
            && LocationOk(r.location.value)
  {
    ContinueLocation(OnValue(h, fragments[0]), fragments[1..]);
  }

  function OnHeader(h: Headers, d: Header): (r: Headers)
    requires Bounded(h) && ValueExpected(h) && d.value != [] && d.name != []
    ensures Bounded(r) && r.max == h.max && ValueExpected(r)
  {
    var f := OnFields(h, d.name);
    OnFieldsEnd(h, d.name);
    OnValues(f, d.value)
  }

  lemma {:induction false} OnFieldsEnd(h: Headers, fragments: seq<string>)
    requires Bounded(h) && fragments != []
    ensures OnFields(h, fragments).lastWasHdr
  {
    ContinueFields(OnField(h, fragments[0]), fragments[1..]);
  }

  function OnHeaders(h: Headers, ds: seq<Header>): (r: Headers)
    requires Bounded(h) && ValueExpected(h) && forall i :: 0 <= i < |ds| ==> IsHeader(ds[i])
    ensures Bounded(r) && r.max == h.max
    decreases |ds|
  {
    if ds == [] then h else assert IsHeader(ds[0]); OnHeaders(OnHeader(h, ds[0]), ds[1..])
  }

  // The callbacks of a block: each header once and in order. A location header is reported with
  // the value of the header before it, its own being kept apart.
  function Expected(ds: seq<Header>, stale: string): seq<Pair> {
    if ds == [] then []
    else
      var v := if IsLocation(Join(ds[0].name)) then stale else Join(ds[0].value);
      [Pair(Join(ds[0].name), v)] + Expected(ds[1..], v)
  }

  function LastLocation(ds: seq<Header>, before: Option<string>): Option<string> {
    if ds == [] then before
    else LastLocation(ds[1..], if IsLocation(Join(ds[0].name)) then Some(Join(ds[0].value)) else before)
  }

  function LastContentType(ds: seq<Header>, stale: string, before: string): string {
    if ds == [] then before
    else
      var v := if IsLocation(Join(ds[0].name)) then stale else Join(ds[0].value);
      LastContentType(ds[1..], v, if IsContentType(Join(ds[0].name)) then v else before)
  }

  function Uri(l: Option<Location>): Option<string> {
    if l.Some? then Some(l.value.uri) else None
  }

  lemma {:induction false} OneHeader(h: Headers, d: Header)
    requires Bounded(h) && ValueExpected(h) && !h.lastWasHdr && IsHeader(d) && Fits(d, h.max)
    ensures var r := OnHeader(h, d);
            && !r.lastWasHdr && r.name == Join(d.name)
            && r.val == (if IsLocation(Join(d.name)) then h.val else Join(d.value))
            && Uri(r.location) == (if IsLocation(Join(d.name)) then Some(Join(d.value)) else Uri(h.location))
            && r.log == ProcessPair(h).log && r.contentType == ProcessPair(h).contentType
  {
    FieldsStore(h, d.name);
    StoreIff(d.name, h.max);
    var f := OnFields(h, d.name);
    if IsLocation(f.name) {
      LocationStored(f, d.value);
    } else {
      ValuesStore(f, d.value);
      StoreIff(d.value, h.max);
    }
  }

  lemma {:induction false} LogJoins(log: seq<Pair>, p: Pair, rest: seq<Pair>)
    ensures log + [p] + rest == log + ([p] + rest)
  {
  }

  lemma {:induction false} HeadersReported(h: Headers, ds: seq<Header>)
    requires Bounded(h) && ValueExpected(h) && !h.lastWasHdr
    requires forall i :: 0 <= i < |ds| ==> IsHeader(ds[i]) && Fits(ds[i], h.max)
    ensures var r := ProcessPair(OnHeaders(h, ds));
            && r.log == ProcessPair(h).log + Expected(ds, h.val)
            && Uri(r.location) == LastLocation(ds, Uri(h.location))
            && r.contentType == LastContentType(ds, h.val, ProcessPair(h).contentType)
    decreases |ds|
  {
    if ds != [] {
      OneHeader(h, ds[0]);
      var next := OnHeader(h, ds[0]);
      HeadersReported(next, ds[1..]);
      LogJoins(ProcessPair(h).log, Pair(next.name, next.val), Expected(ds[1..], next.val));
    } else {
      assert ProcessPair(h).log + [] == ProcessPair(h).log;
    }
  }

  /**
   Reassembly does not depend on fragmentation: over a whole block, ended by http_hdr_complete, the
   callback gets every header once and in order, and the location is the last location value.
   */
  lemma {:induction false} BlockReported(max: nat, ds: seq<Header>)
    requires max >= 2 && forall i :: 0 <= i < |ds| ==> IsHeader(ds[i]) && Fits(ds[i], max)
    ensures var r := ProcessPair(OnHeaders(FreshHeaders(max), ds));
            && r.log == Expected(ds, "")
            && Uri(r.location) == LastLocation(ds, None)
            && r.contentType == LastContentType(ds, "", "")
            && Bounded(r)
  {
    HeadersReported(FreshHeaders(max), ds);
    assert [] + Expected(ds, "") == Expected(ds, "");
  }

  lemma {:induction false} ExpectedOf(ds: seq<Header>, stale: string, k: nat)
    requires k < |ds|
    ensures |Expected(ds, stale)| == |ds|
    ensures Expected(ds, stale)[k].name == Join(ds[k].name)
    ensures !IsLocation(Join(ds[k].name)) ==> Expected(ds, stale)[k].value == Join(ds[k].value)
    ensures IsLocation(Join(ds[k].name)) ==>
              Expected(ds, stale)[k].value == if k == 0 then stale else Expected(ds, stale)[k - 1].value
    decreases |ds|
  {
    var v := if IsLocation(Join(ds[0].name)) then stale else Join(ds[0].value);
    if |ds| > 1 {
      ExpectedOf(ds[1..], v, if k > 0 then k - 1 else 0);
    }
  }

  lemma {:induction false} NamedAfter(h: Headers, ds: seq<Header>)
    requires Bounded(h) && ValueExpected(h) && !h.lastWasHdr && ds != []
    requires forall i :: 0 <= i < |ds| ==> IsHeader(ds[i]) && Fits(ds[i], h.max)
    ensures var r := OnHeaders(h, ds); r.name != "" && !r.lastWasHdr && ValueExpected(r)
    decreases |ds|
  {
    OneHeader(h, ds[0]);
    var next := OnHeader(h, ds[0]);
    if |ds| > 1 {
      NamedAfter(next, ds[1..]);
    } else {
      assert ds[1..] == [];
    }
  }

  // What has been reported after the headers `ds` and the end of their block, and then the
  // trailers `ts` of a chunked body, which no end of a block follows
  function WithTrailers(max: nat, ds: seq<Header>, ts: seq<Header>): seq<Pair>
    requires max >= 2 && ds != []
    requires forall i :: 0 <= i < |ds| ==> IsHeader(ds[i]) && Fits(ds[i], max)
    requires forall i :: 0 <= i < |ts| ==> IsHeader(ts[i])
  {
    NamedAfter(FreshHeaders(max), ds);
    OnHeaders(ProcessPair(OnHeaders(FreshHeaders(max), ds)), ts).log
  }

  // Headers after a named one that has been reported by the end of a block: it is reported again,
  // and the last of them is not reported yet.
  lemma {:induction false} ReportedAgain(h: Headers, ts: seq<Header>)
    requires Bounded(h) && ValueExpected(h) && !h.lastWasHdr && h.name != "" && ts != []
    requires forall i :: 0 <= i < |ts| ==> IsHeader(ts[i]) && Fits(ts[i], h.max)
    ensures |Expected(ts, h.val)| == |ts|
    ensures OnHeaders(h, ts).log == h.log + [Pair(h.name, h.val)] + Expected(ts, h.val)[..|ts| - 1]
  {
    ExpectedOf(ts, h.val, 0);
    HeadersReported(h, ts);
    NamedAfter(h, ts);
    var r := OnHeaders(h, ts);
    DropLast(r.log, Pair(r.name, r.val), h.log + [Pair(h.name, h.val)], Expected(ts, h.val));
  }

  lemma {:induction false} DropLast(s: seq<Pair>, p: Pair, a: seq<Pair>, b: seq<Pair>)
    requires s + [p] == a + b && b != []
    ensures s == a + b[..|b| - 1] && p == b[|b| - 1]
  {
    assert s == (s + [p])[..|s|] && p == (s + [p])[|s|];
  }

  /** Trailers make the last header be reported a second time, and the last trailer is not reported. */
  lemma {:induction false} TrailersReported(max: nat, ds: seq<Header>, ts: seq<Header>)
    requires max >= 2 && ds != [] && ts != []
    requires forall i :: 0 <= i < |ds| ==> IsHeader(ds[i]) && Fits(ds[i], max)
    requires forall i :: 0 <= i < |ts| ==> IsHeader(ts[i]) && Fits(ts[i], max)
    ensures |Expected(ds, "")| == |ds|
    ensures var last := Expected(ds, "")[|ds| - 1];
      |Expected(ts, last.value)| == |ts| && WithTrailers(max, ds, ts) == Expected(ds, "") + [last] + Expected(ts, last.value)[..|ts| - 1]
  {
    ExpectedOf(ds, "", 0);
    BlockReported(max, ds);
    NamedAfter(FreshHeaders(max), ds);
    var r := OnHeaders(FreshHeaders(max), ds);
    DropLast(r.log, Pair(r.name, r.val), [], Expected(ds, ""));
    ReportedAgain(ProcessPair(r), ts);
  }
}
