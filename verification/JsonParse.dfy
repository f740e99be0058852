/**
 The tokenizer as rounds of its main loop, and the proof that on every JSON text it lays out
 exactly the tokens of the tree.
 */
module JsonParse {
  import opened Common
  import opened JsonTokens
  import opened JsonText

  const NOMEM := -1
  const INVAL := -2
  const PART := -3

  // pos, the tokens allocated so far and toksuper; a token still open has end -1.
  datatype Parser = Parser(pos: nat, toks: seq<Token>, sup: int)

  datatype Turn = Go(p: Parser) | Stop(err: int)

  predicate Linked(toks: seq<Token>) {
    forall j :: 0 <= j < |toks| ==> -1 <= toks[j].parent < j
  }

  predicate Valid(p: Parser) {
    Linked(p.toks) && -1 <= p.sup < |p.toks|
  }

  function Bump(toks: seq<Token>, s: int): (r: seq<Token>)
    requires -1 <= s < |toks|
    ensures |r| == |toks| && (Linked(toks) ==> Linked(r))
  {
    if s == -1 then toks else toks[s := toks[s].(size := toks[s].size + 1)]
  }

  datatype Scan = At(pos: nat) | Bad(err: int)

  // The position of the closing quote
  function StringEnd(js: string, i: nat): (r: Scan)
    requires i <= |js|
    ensures if r.At? then i <= r.pos < |js| else r.err < 0
    decreases |js| - i
  {
    if i == |js| || js[i] == NUL then Bad(PART)
    else if js[i] == '\"' then At(i)
    else if js[i] == '\\' && i + 1 < |js| then
      var k := EscapeEnd(js, i + 1);
      if k.Bad? then k else StringEnd(js, k.pos)
    else StringEnd(js, i + 1)
  }

  // Past the escape whose character after the backslash is at `i`
  function EscapeEnd(js: string, i: nat): (r: Scan)
    requires i < |js|
    ensures if r.At? then i < r.pos <= |js| else r.err < 0
  {
    if IsEscape(js[i]) then At(i + 1)
    else if js[i] == 'u' then HexEnd(js, i + 1, 4)
    else Bad(INVAL)
  }

  // Past up to `n` hexadecimal digits; the text may end before them.
  function HexEnd(js: string, i: nat, n: nat): (r: Scan)
    requires i <= |js|
    ensures if r.At? then i <= r.pos <= |js| else r.err < 0
    decreases n
  {
    if n == 0 || i == |js| || js[i] == NUL then At(i)
    else if IsHexDigit(js[i]) then HexEnd(js, i + 1, n - 1)
    else Bad(INVAL)
  }

  // The position after a primitive, which must be followed by something
  function PrimitiveEnd(js: string, i: nat): (r: Scan)
    requires i <= |js|
    ensures if r.At? then i <= r.pos < |js| && EndsPrimitive(js[r.pos]) else r.err < 0
    decreases |js| - i
  {
    if i == |js| || js[i] == NUL then Bad(PART)
    else if EndsPrimitive(js[i]) then At(i)
    else if !InPrimitive(js[i]) then Bad(INVAL)
    else PrimitiveEnd(js, i + 1)
  }

  function AddToken(p: Parser, cap: nat, kind: Kind, start: nat, end: nat, pos: nat): (t: Turn)
    requires Valid(p)
    ensures if t.Go? then Valid(t.p) && t.p.pos == pos else t.err < 0
  {
    if |p.toks| >= cap then Stop(NOMEM)
    else Go(Parser(pos, Bump(p.toks + [Token(kind, start, end, 0, p.sup)], p.sup), p.sup))
  }

  predicate IsOpen(t: Token) {
    t.start != -1 && t.end == -1
  }

  // From token `i` up the parents to one that is still open
  function FindOpen(toks: seq<Token>, i: nat): (r: Option<nat>)
    requires Linked(toks) && i < |toks|
    ensures r.Some? ==> r.value < |toks| && IsOpen(toks[r.value])
    decreases i
  {
    if IsOpen(toks[i]) then Some(i)
    else if toks[i].parent == -1 then None
    else FindOpen(toks, toks[i].parent)
  }

  function OpenBracket(p: Parser, cap: nat, kind: Kind): (t: Turn)
    requires Valid(p)
    ensures if t.Go? then Valid(t.p) && t.p.pos == p.pos + 1 else t.err < 0
  {
    if |p.toks| >= cap then Stop(NOMEM)
    else
      Go(Parser(p.pos + 1, Bump(p.toks, p.sup) + [Token(kind, p.pos, -1, 0, p.sup)], |p.toks|))
  }

  function CloseBracket(p: Parser, kind: Kind): (t: Turn)
    requires Valid(p)
    ensures if t.Go? then Valid(t.p) && t.p.pos == p.pos + 1 else t.err < 0
  {
    if p.toks == [] then Stop(INVAL)
    else
      match FindOpen(p.toks, |p.toks| - 1)
      case None => Go(p.(pos := p.pos + 1))
      case Some(i) =>
        if p.toks[i].kind != kind then Stop(INVAL)
        else Go(Parser(p.pos + 1, p.toks[i := p.toks[i].(end := p.pos + 1)], p.toks[i].parent))
  }

  function Comma(p: Parser): (t: Turn)
    requires Valid(p)
    ensures t.Go? && Valid(t.p) && t.p.pos == p.pos + 1
  {
    if p.sup != -1 && p.toks[p.sup].kind != Array && p.toks[p.sup].kind != Object
    then Go(p.(pos := p.pos + 1, sup := p.toks[p.sup].parent))
    else Go(p.(pos := p.pos + 1))
  }

  // A primitive must not stand where a key is due, nor be a second value.
  predicate TakesPrimitive(p: Parser)
    requires Valid(p)
  {
    p.sup == -1 || !(p.toks[p.sup].kind == Object || (p.toks[p.sup].kind == String && p.toks[p.sup].size != 0))
  }

  // One round of the main loop
  function Round(js: string, cap: nat, p: Parser): (t: Turn)
    requires Valid(p) && p.pos < |js|
    ensures if t.Go? then Valid(t.p) && p.pos < t.p.pos <= |js| else t.err < 0
  {
    var c := js[p.pos];
    if c == '{' then OpenBracket(p, cap, Object)
    else if c == '[' then OpenBracket(p, cap, Array)
    else if c == '}' then CloseBracket(p, Object)
    else if c == ']' then CloseBracket(p, Array)
    else if c == '\"' then
      (match StringEnd(js, p.pos + 1)
       case Bad(err) => Stop(err)
       case At(end) => AddToken(p, cap, String, p.pos + 1, end, end + 1))
    else if IsSpace(c) then Go(p.(pos := p.pos + 1))
    else if c == ':' then Go(p.(pos := p.pos + 1, sup := |p.toks| - 1))
    else if c == ',' then Comma(p)
    else if StartsPrimitive(c) then
      if !TakesPrimitive(p) then Stop(INVAL)
      else
        match PrimitiveEnd(js, p.pos)
        case Bad(err) => Stop(err)
        case At(end) => AddToken(p, cap, Primitive, p.pos, end, end)
    else Stop(INVAL)
  }

  predicate AllClosed(toks: seq<Token>) {
    forall j :: 0 <= j < |toks| ==> !IsOpen(toks[j])
  }

  // __jsmn_parse with a token array, from a given parser state on
  function Rounds(js: string, cap: nat, p: Parser): (t: Turn)
    requires Valid(p) && p.pos <= |js|
    ensures if t.Go? then Valid(t.p) && AllClosed(t.p.toks) else t.err < 0
    decreases |js| - p.pos
  {
    if p.pos == |js| || js[p.pos] == NUL then
      if AllClosed(p.toks) then Go(p) else Stop(PART)
    else
      match Round(js, cap, p)
      case Stop(err) => Stop(err)
      case Go(q) => Rounds(js, cap, q)
  }

  function Start(): Parser {
    Parser(0, [], -1)
  }

  // ---------------------------------------------------------------------- scanning

  lemma {:induction false} StringEnds(js: string, i: nat, end: nat)
    requires i <= end < |js| && StringBody(js, i, end)
    ensures StringEnd(js, i) == At(end)
    decreases end - i
  {
    if i < end {
      if js[i] == '\\' {
        if js[i + 1] == 'u' {
          assert HexEnd(js, i + 6, 0) == At(i + 6);
          assert HexEnd(js, i + 5, 1) == At(i + 6);
          assert HexEnd(js, i + 4, 2) == At(i + 6);
          assert HexEnd(js, i + 3, 3) == At(i + 6);
          StringEnds(js, i + 6, end);
        } else {
          StringEnds(js, i + 2, end);
        }
      } else {
        StringEnds(js, i + 1, end);
      }
    }
  }

  // A primitive ends at the next separator; one that nothing follows is an error.
  lemma {:induction false} PrimitiveEnds(js: string, i: nat, end: nat)
    requires i <= end <= |js| && forall k :: i <= k < end ==> InPrimitive(js[k])
    ensures end == |js| ==> PrimitiveEnd(js, i) == Bad(PART)
    ensures end < |js| && EndsPrimitive(js[end]) ==> PrimitiveEnd(js, i) == At(end)
    decreases end - i
  {
    if i < end {
      PrimitiveEnds(js, i + 1, end);
    }
  }

  // With room for `need` tokens or more, one round leads from `p` to `q`.
  ghost predicate Leaps(js: string, need: nat, p: Parser, q: Parser) {
    && Valid(p) && p.pos < |js| && js[p.pos] != NUL
    && forall cap: nat :: need <= cap ==> Round(js, cap, p) == Go(q)
  }

  // Rounds lead through the parsers `via`, from the first to the last.
  ghost predicate Trail(js: string, need: nat, p: Parser, q: Parser, via: seq<Parser>) {
    && via != [] && via[0] == p && via[|via| - 1] == q
    && forall i :: 0 < i < |via| ==> Leaps(js, need, via[i - 1], via[i])
  }

  // With that room the parser at `p` comes to `q`.
  ghost predicate Leads(js: string, need: nat, p: Parser, q: Parser) {
    && Valid(p) && Valid(q) && p.pos <= |js| && q.pos <= |js|
    && exists via :: Trail(js, need, p, q, via)
  }

  lemma {:induction false} LeadsOn(js: string, need: nat, p: Parser, q: Parser, r: Parser)
    requires Leads(js, need, p, q) && Leads(js, need, q, r)
    ensures Leads(js, need, p, r)
  {
    var a :| Trail(js, need, p, q, a);
    var b :| Trail(js, need, q, r, b);
    var via := a + b[1..];
    forall i | 0 < i < |via| ensures Leaps(js, need, via[i - 1], via[i]) {
      if i < |a| {
        assert via[i - 1] == a[i - 1] && via[i] == a[i];
      } else {
        assert via[i - 1] == b[i - |a|] && via[i] == b[i - |a| + 1];
      }
    }
    assert via[|via| - 1] == r;
    assert Trail(js, need, p, r, via);
  }

  lemma {:induction false} LeadsNowhere(js: string, need: nat, p: Parser)
    requires Valid(p) && p.pos <= |js|
    ensures Leads(js, need, p, p)
  {
    assert Trail(js, need, p, p, [p]);
  }

  lemma {:induction false} OneRound(js: string, need: nat, p: Parser, q: Parser)
    requires Valid(p) && p.pos < |js| && js[p.pos] != NUL
    requires forall cap: nat :: need <= cap ==> Round(js, cap, p) == Go(q)
    ensures Leads(js, need, p, q)
  {
    assert Round(js, need, p) == Go(q);
    assert Trail(js, need, p, q, [p, q]);
  }

  // So both come to the same end.
  lemma {:induction false} LeadsToEnd(js: string, need: nat, p: Parser, q: Parser, cap: nat)
    requires Leads(js, need, p, q) && need <= cap
    ensures Rounds(js, cap, p) == Rounds(js, cap, q)
  {
    var via :| Trail(js, need, p, q, via);
    TrailToEnd(js, need, p, q, via, cap);
  }

  lemma {:induction false} TrailToEnd(js: string, need: nat, p: Parser, q: Parser, via: seq<Parser>, cap: nat)
    requires Valid(p) && Valid(q) && p.pos <= |js| && q.pos <= |js|
    requires Trail(js, need, p, q, via) && need <= cap
    ensures Rounds(js, cap, p) == Rounds(js, cap, q)
    decreases |via|
  {
    if |via| > 1 {
      var rest := via[1..];
      assert Leaps(js, need, via[0], via[1]);
      assert Round(js, cap, p) == Go(rest[0]);
      forall i | 0 < i < |rest| ensures Leaps(js, need, rest[i - 1], rest[i]) {
        assert Leaps(js, need, via[i], via[i + 1]);
      }
      TrailToEnd(js, need, rest[0], q, rest, cap);
    }
  }

  lemma {:induction false} SpaceRound(js: string, need: nat, p: Parser)
    requires Valid(p) && p.pos < |js| && IsSpace(js[p.pos])
    ensures Leads(js, need, p, p.(pos := p.pos + 1))
  {
    OneRound(js, need, p, p.(pos := p.pos + 1));
  }

  lemma {:induction false} SpacesPass(js: string, need: nat, p: Parser)
    requires Valid(p) && p.pos <= |js|
    ensures Leads(js, need, p, p.(pos := SkipSpace(js, p.pos)))
    decreases |js| - p.pos
  {
    if p.pos < |js| && IsSpace(js[p.pos]) {
      var q := p.(pos := p.pos + 1);
      SpaceRound(js, need, p);
      SpacesPass(js, need, q);
      LeadsOn(js, need, p, q, q.(pos := SkipSpace(js, q.pos)));
    } else {
      LeadsNowhere(js, need, p);
    }
  }

  // ---------------------------------------------------------------------- token sequences

  function Grow(toks: seq<Token>, a: nat, k: nat): seq<Token>
    requires a < |toks|
  {
    toks[a := toks[a].(size := toks[a].size + k)]
  }

  lemma {:induction false} BumpAppend(x: seq<Token>, y: seq<Token>, s: int)
    requires -1 <= s < |x|
    ensures Bump(x + y, s) == Bump(x, s) + y
  {
  }

  lemma {:induction false} GrowAppend(x: seq<Token>, y: seq<Token>, a: nat, k: nat)
    requires a < |x|
    ensures Grow(x + y, a, k) == Grow(x, a, k) + y
    ensures Grow(Bump(x, a), a, k) == Grow(x, a, k + 1)
  {
  }

  // `y` can follow `at` tokens: each of its tokens is closed and has its parent before it, from
  // `low` on.
  predicate Hangs(y: seq<Token>, at: nat, low: int) {
    forall k :: 0 <= k < |y| ==> y[k].end >= 0 && low <= y[k].parent < at + k
  }

  lemma {:induction false} HangsAppend(x: seq<Token>, y: seq<Token>, at: nat, low: int)
    requires Hangs(x, at, low) && Hangs(y, at + |x|, low)
    ensures Hangs(x + y, at, low)
  {
  }

  lemma {:induction false} EncodeHangs(n: Node, at: nat, parent: int)
    requires -1 <= parent < at
    ensures Hangs(Encode(n, at, parent), at, parent)
    decreases n, 1
  {
    var head := [Token(n.kind, n.start, n.end, |n.kids|, parent)];
    EncodeAllHangs(n.kids, at + 1, at);
    HangsAppend(head, EncodeAll(n.kids, at + 1, at), at, parent);
  }

  lemma {:induction false} EncodeAllHangs(kids: seq<Node>, at: nat, parent: int)
    requires -1 <= parent < at
    ensures Hangs(EncodeAll(kids, at, parent), at, parent)
    decreases kids, 0
  {
    if kids != [] {
      EncodeHangs(kids[0], at, parent);
      EncodeAllHangs(kids[1..], at + Count(kids[0]), parent);
      HangsAppend(Encode(kids[0], at, parent), EncodeAll(kids[1..], at + Count(kids[0]), parent), at, parent);
    }
  }

  lemma {:induction false} LinkedAppend(x: seq<Token>, y: seq<Token>, low: int)
    requires Linked(x) && Hangs(y, |x|, low) && -1 <= low
    ensures Linked(x + y)
  {
  }

  // The search from the last token ends at the token that everything after it hangs from.
  lemma {:induction false} FindsOpen(x: seq<Token>, t: Token, y: seq<Token>, i: nat)
    requires Linked(x + [t] + y) && IsOpen(t) && Hangs(y, |x| + 1, |x|) && |x| <= i <= |x| + |y|
    ensures FindOpen(x + [t] + y, i) == Some(|x|)
    decreases i
  {
    var toks := x + [t] + y;
    if i == |x| {
      assert toks[i] == t;
    } else {
      assert toks[i] == y[i - |x| - 1];
      FindsOpen(x, t, y, toks[i].parent);
    }
  }

  // ---------------------------------------------------------------------- values

  // What reading the value `n` comes to
  function Then(p: Parser, n: Node): Parser
    requires Valid(p)
  {
    Parser(Finish(n), Bump(p.toks, p.sup) + Encode(n, |p.toks|, p.sup), p.sup)
  }

  lemma {:induction false} ThenIsValid(p: Parser, n: Node)
    requires Valid(p)
    ensures Valid(Then(p, n))
  {
    EncodeHangs(n, |p.toks|, p.sup);
    LinkedAppend(Bump(p.toks, p.sup), Encode(n, |p.toks|, p.sup), p.sup);
  }

  // A primitive needs a separator after it.
  predicate Followed(js: string, n: Node) {
    n.kind == Primitive ==> Finish(n) < |js| && EndsPrimitive(js[Finish(n)])
  }

  lemma {:induction false} LeafRounds(js: string, need: nat, n: Node, p: Parser)
    requires Valid(p) && p.pos < |js| && Spelled(js, n, p.pos) && |p.toks| < need
    requires n.kind == String || (n.kind == Primitive && TakesPrimitive(p) && Followed(js, n))
    ensures Leads(js, need, p, Then(p, n))
  {
    ThenIsValid(p, n);
    var t := Token(n.kind, n.start, n.end, 0, p.sup);
    assert Encode(n, |p.toks|, p.sup) == [t];
    BumpAppend(p.toks, [t], p.sup);
    if n.kind == String {
      StringEnds(js, n.start, n.end);
    } else {
      PrimitiveEnds(js, n.start, n.end);
    }
    OneRound(js, need, p, Then(p, n));
  }

  lemma {:induction false} ValueRounds(js: string, need: nat, n: Node, p: Parser)
    requires Valid(p) && p.pos < |js| && Spelled(js, n, p.pos) && |p.toks| + Count(n) <= need
    requires TakesPrimitive(p) && Followed(js, n)
    ensures Leads(js, need, p, Then(p, n))
    decreases n, 1
  {
    if n.kind == String || n.kind == Primitive {
      LeafRounds(js, need, n, p);
    } else {
      ContentOf(js, n, p.pos);
      var sup := SuperIn(n, |p.toks|);
      FillRounds(js, need, n, p);
      CloseRounds(js, need, n, p, sup);
      LeadsOn(js, need, p, Filled(p, n, sup), Then(p, n));
    }
  }

  // The text from `from` on begins with the container `n` up to, and without, its closing bracket.
  predicate Content(js: string, n: Node, from: nat) {
    && n.start == from && from + 2 <= n.end <= |js|
    && ((n.kind == Object && js[from] == '{' && Members(js, n.kids, from + 1, n.end - 1))
        || (n.kind == Array && js[from] == '[' && Elements(js, n.kids, from + 1, n.end - 1)))
    && Ends(js, n.kids, n.end - 1, n.kind == Object)
  }

  lemma {:induction false} ContentOf(js: string, n: Node, from: nat)
    requires Spelled(js, n, from) && (n.kind == Array || n.kind == Object)
    ensures Content(js, n, from)
  {
    if n.kind == Object {
      MembersEnd(js, n.kids, from + 1, n.end - 1);
    } else {
      ElementsEnd(js, n.kids, n.end - 1);
    }
  }

  lemma {:induction false} MembersEnd(js: string, kids: seq<Node>, from: nat, to: nat)
    requires to < |js| && Members(js, kids, from, to) && EndsPrimitive(js[to])
    ensures Ends(js, kids, to, true)
    decreases kids
  {
    if |kids| > 1 {
      MembersEnd(js, kids[1..], SkipSpace(js, Finish(kids[0].kids[0])) + 1, to);
    }
  }

  lemma {:induction false} ElementsEnd(js: string, kids: seq<Node>, to: nat)
    requires to < |js| && EndsPrimitive(js[to])
    ensures Ends(js, kids, to, false)
    decreases |kids|
  {
    if |kids| > 1 {
      ElementsEnd(js, kids[1..], to);
    }
  }

  // Toksuper before the closing bracket of `n`, whose token is number `a`
  function SuperIn(n: Node, a: nat): nat {
    if n.kind == Object then LastKey(a + 1, a, n.kids) else a
  }

  lemma {:induction false} FillRounds(js: string, need: nat, n: Node, p: Parser)
    requires Valid(p) && p.pos < |js| && Content(js, n, p.pos) && |p.toks| + Count(n) <= need
    ensures Leads(js, need, p, Filled(p, n, SuperIn(n, |p.toks|)))
    decreases n, 0
  {
    var sup := SuperIn(n, |p.toks|);
    OpenRound(js, need, n, p);
    ContentRounds(js, need, n, Opened(p, n), |p.toks|);
    OpenGrows(p, n, sup);
    LeadsOn(js, need, p, Opened(p, n), Filled(p, n, sup));
  }

  lemma {:induction false} ContentRounds(js: string, need: nat, n: Node, p: Parser, a: nat)
    requires p.pos > 0 && Content(js, n, p.pos - 1) && Valid(p) && p.sup == a && |p.toks| == a + 1
    requires p.toks[a].kind == n.kind && |p.toks| + CountAll(n.kids) <= need
    ensures Leads(js, need, p, Grown(p, a, n.kids, n.end - 1, SuperIn(n, a)))
    decreases n.kids, 4
  {
    if n.kind == Array {
      ElementsRounds(js, need, n.kids, p, a, n.end - 1);
    } else {
      MembersRounds(js, need, n.kids, p, a, n.end - 1);
    }
  }

  // After the members of an object toksuper is the last key.
  lemma {:induction false} FilledAtKey(js: string, n: Node, p: Parser)
    requires Valid(p) && Content(js, n, p.pos) && n.kind == Object && n.kids != []
    ensures AtKey(Filled(p, n, SuperIn(n, |p.toks|)), |p.toks|)
  {
    var a := |p.toks|;
    MembersAreJson(js, n.kids, p.pos + 1, n.end - 1);
    assert forall i :: 0 <= i < |n.kids| ==> IsMember(n.kids[i], |js|);
    LastKeyIsKey(Opened(p, n), a, n.kids, n.end - 1);
    OpenGrows(p, n, SuperIn(n, a));
  }

  function Opened(p: Parser, n: Node): Parser
    requires Valid(p)
  {
    Parser(p.pos + 1, Bump(p.toks, p.sup) + [Token(n.kind, p.pos, -1, 0, p.sup)], |p.toks|)
  }

  lemma {:induction false} OpenRound(js: string, need: nat, n: Node, p: Parser)
    requires Valid(p) && p.pos < |js| && |p.toks| < need
    requires (n.kind == Array && js[p.pos] == '[') || (n.kind == Object && js[p.pos] == '{')
    ensures var q, a := Opened(p, n), |p.toks|;
      Leads(js, need, p, q) && q.toks[a].kind == n.kind && |q.toks| == a + 1
  {
    OneRound(js, need, p, Opened(p, n));
  }

  lemma {:induction false} OpenGrows(p: Parser, n: Node, sup: int)
    requires Valid(p) && n.start == p.pos && n.end > 0
    ensures var q, a := Opened(p, n), |p.toks|;
      Grown(q, a, n.kids, n.end - 1, sup) == Filled(p, n, sup)
  {
    assert Grow(Opened(p, n).toks, |p.toks|, |n.kids|)
        == Bump(p.toks, p.sup) + [Token(n.kind, n.start, -1, |n.kids|, p.sup)];
  }

  // The parser at `pos` after `kids` have been read into the open container `a`
  function Grown(p: Parser, a: nat, kids: seq<Node>, pos: nat, sup: int): Parser
    requires a < |p.toks|
  {
    Parser(pos, Grow(p.toks, a, |kids|) + EncodeAll(kids, |p.toks|, a), sup)
  }

  // The parser before the closing bracket of a container that began at `p`
  function Filled(p: Parser, n: Node, sup: int): Parser
    requires Valid(p) && n.end > 0
  {
    Parser(n.end - 1,
           Bump(p.toks, p.sup) + [Token(n.kind, n.start, -1, |n.kids|, p.sup)]
           + EncodeAll(n.kids, |p.toks| + 1, |p.toks|),
           sup)
  }

  lemma {:induction false} CloseRounds(js: string, need: nat, n: Node, p: Parser, sup: int)
    requires Valid(p) && 0 < n.end <= |js| && Valid(Filled(p, n, sup))
    requires (n.kind == Array && js[n.end - 1] == ']') || (n.kind == Object && js[n.end - 1] == '}')
    ensures Leads(js, need, Filled(p, n, sup), Then(p, n))
  {
    var a := |p.toks|;
    var x, t, y := Bump(p.toks, p.sup), Token(n.kind, n.start, -1, |n.kids|, p.sup), EncodeAll(n.kids, a + 1, a);
    var q := Filled(p, n, sup);
    ThenIsValid(p, n);
    EncodeAllHangs(n.kids, a + 1, a);
    FindsOpen(x, t, y, |q.toks| - 1);
    assert q.toks[a] == t;
    var closed := t.(end := n.end);
    assert q.toks[a := closed] == x + ([closed] + y);
    OneRound(js, need, q, Then(p, n));
  }

  // A primitive does not run on into what stands at `to`.
  predicate Apart(js: string, n: Node, to: nat)
    requires to < |js|
  {
    n.kind == Primitive ==> Finish(n) < to || EndsPrimitive(js[to])
  }

  // Nor does the last of the elements or members
  predicate Ends(js: string, kids: seq<Node>, to: nat, members: bool)
    requires to < |js|
    decreases |kids|
  {
    if kids == [] then true
    else if |kids| > 1 then Ends(js, kids[1..], to, members)
    else if members then kids[0].kids != [] && Apart(js, kids[0].kids[0], to)
    else Apart(js, kids[0], to)
  }

  // In a container, what follows a value's text separates it from the rest.
  lemma {:induction false} SeparatorFollows(js: string, n: Node, to: nat)
    requires Finish(n) <= to < |js|
    requires var d := SkipSpace(js, Finish(n)); (d == to && Apart(js, n, to)) || (d < to && js[d] == ',')
    ensures Followed(js, n)
  {
  }

  // The parser at `pos` after the value or member `n` of the container `a`
  function AfterKid(p: Parser, a: nat, n: Node, pos: nat, sup: int): Parser
    requires a < |p.toks|
  {
    Parser(pos, Bump(p.toks, a) + Encode(n, |p.toks|, a), sup)
  }

  // One element of a container `a`, with the white space around it
  lemma {:induction false} ElementRounds(js: string, need: nat, n: Node, p: Parser, a: nat)
    requires Valid(p) && p.pos <= |js| && p.sup == a && a < |p.toks| && p.toks[a].kind == Array
    requires SkipSpace(js, p.pos) < |js| && Spelled(js, n, SkipSpace(js, p.pos)) && Followed(js, n)
    requires Finish(n) <= |js| && |p.toks| + Count(n) <= need
    ensures Leads(js, need, p, AfterKid(p, a, n, SkipSpace(js, Finish(n)), a))
    decreases n, 2
  {
    var p1 := p.(pos := SkipSpace(js, p.pos));
    var p2 := Then(p1, n);
    SpacesPass(js, need, p);
    ValueRounds(js, need, n, p1);
    LeadsOn(js, need, p, p1, p2);
    SpacesPass(js, need, p2);
    LeadsOn(js, need, p, p2, AfterKid(p, a, n, SkipSpace(js, Finish(n)), a));
  }

  // What is left to read after the first element, and after the first member
  lemma {:induction false} ElementsSplit(js: string, kids: seq<Node>, from: nat, to: nat)
    requires to < |js| && Elements(js, kids, from, to) && kids != [] && Ends(js, kids, to, false)
    ensures var n := kids[0];
      && SkipSpace(js, from) < |js| && Spelled(js, n, SkipSpace(js, from)) && Finish(n) <= to && Followed(js, n)
      && CountAll(kids) == Count(n) + CountAll(kids[1..])
      && var d := SkipSpace(js, Finish(n));
      if |kids| == 1 then d == to else d < to && js[d] == ',' && Elements(js, kids[1..], d + 1, to)
  {
    SeparatorFollows(js, kids[0], to);
  }

  lemma {:induction false} MembersSplit(js: string, kids: seq<Node>, from: nat, to: nat)
    requires to < |js| && Members(js, kids, from, to) && kids != [] && Ends(js, kids, to, true)
    ensures var m := kids[0];
      && SkipSpace(js, from) < |js| && Member(js, m, SkipSpace(js, from))
      && Finish(m.kids[0]) <= to && Followed(js, m.kids[0])
      && CountAll(kids) == Count(m) + CountAll(kids[1..])
      && var d := SkipSpace(js, Finish(m.kids[0]));
      if |kids| == 1 then d == to else d < to && js[d] == ',' && Members(js, kids[1..], d + 1, to)
  {
    SeparatorFollows(js, kids[0].kids[0], to);
  }

  lemma {:induction false} NoneRounds(js: string, need: nat, p: Parser, a: nat, to: nat)
    requires Valid(p) && p.pos <= |js| && a < |p.toks| && SkipSpace(js, p.pos) == to
    ensures Leads(js, need, p, Grown(p, a, [], to, p.sup))
  {
    SpacesPass(js, need, p);
    assert Grow(p.toks, a, 0) + [] == p.toks;
  }

  // The tokens after one element or member more
  lemma {:induction false} KidCounted(p: Parser, a: nat, kids: seq<Node>, pos: nat, sup: int, end: nat, last: int)
    requires a < |p.toks| && kids != []
    ensures var q := AfterKid(p, a, kids[0], pos, sup);
      && |q.toks| == |p.toks| + Count(kids[0]) && q.toks[a].kind == p.toks[a].kind
      && Grown(q, a, kids[1..], end, last) == Grown(p, a, kids, end, last)
      && (|kids| == 1 ==> q == Grown(p, a, kids, pos, sup))
  {
    var y := Encode(kids[0], |p.toks|, a);
    var rest := EncodeAll(kids[1..], |p.toks| + Count(kids[0]), a);
    GrowAppend(Bump(p.toks, a), y, a, |kids| - 1);
    GrowAppend(p.toks, y, a, |kids| - 1);
    assert Grow(p.toks, a, |kids|) + y + rest == Grow(p.toks, a, |kids|) + (y + rest);
    if |kids| == 1 {
      assert rest == [];
      assert y + [] == y;
      assert Bump(p.toks, a) == Grow(p.toks, a, 1);
    }
  }

  // After a comma the parser is back in the container.
  lemma {:induction false} CommaRound(js: string, need: nat, q: Parser, a: nat)
    requires Valid(q) && q.pos < |js| && js[q.pos] == ',' && a < |q.toks|
    requires
      || (q.sup == a && q.toks[a].kind == Array)
      || AtKey(q, a)
    ensures Leads(js, need, q, Parser(q.pos + 1, q.toks, a))
  {
    OneRound(js, need, q, Parser(q.pos + 1, q.toks, a));
  }

  lemma {:induction false} AfterKidKind(p: Parser, a: nat, n: Node, pos: nat)
    requires a < |p.toks|
    ensures var q := AfterKid(p, a, n, pos, a); a < |q.toks| && q.toks[a].kind == p.toks[a].kind
  {
  }

  // An element and the comma after it
  lemma {:induction false} ElementAndComma(js: string, need: nat, n: Node, p: Parser, a: nat, d: nat)
    requires Valid(p) && p.pos <= |js| && p.sup == a && a < |p.toks| && p.toks[a].kind == Array
    requires SkipSpace(js, p.pos) < |js| && Spelled(js, n, SkipSpace(js, p.pos)) && Followed(js, n)
    requires Finish(n) <= |js| && |p.toks| + Count(n) <= need
    requires d == SkipSpace(js, Finish(n)) < |js| && js[d] == ','
    ensures Leads(js, need, p, AfterKid(p, a, n, d + 1, a))
    decreases n, 3
  {
    var q := AfterKid(p, a, n, d, a);
    ElementRounds(js, need, n, p, a);
    AfterKidKind(p, a, n, d);
    CommaRound(js, need, q, a);
    LeadsOn(js, need, p, q, AfterKid(p, a, n, d + 1, a));
  }

  // The first of several elements, and where the others begin
  lemma {:induction false} NextElement(js: string, need: nat, kids: seq<Node>, p: Parser, a: nat, to: nat) returns (pos: nat)
    requires Valid(p) && p.pos <= to < |js| && p.sup == a && a < |p.toks| && p.toks[a].kind == Array && |kids| > 1
    requires Elements(js, kids, p.pos, to) && Ends(js, kids, to, false) && |p.toks| + CountAll(kids) <= need
    ensures pos <= to && Leads(js, need, p, AfterKid(p, a, kids[0], pos, a))
    ensures Elements(js, kids[1..], pos, to) && Ends(js, kids[1..], to, false)
    ensures CountAll(kids) == Count(kids[0]) + CountAll(kids[1..])
    decreases kids, 1
  {
    ElementsSplit(js, kids, p.pos, to);
    var d := SkipSpace(js, Finish(kids[0]));
    ElementAndComma(js, need, kids[0], p, a, d);
    pos := d + 1;
  }

  lemma {:induction false} ElementsRounds(js: string, need: nat, kids: seq<Node>, p: Parser, a: nat, to: nat)
    requires Valid(p) && p.pos <= to < |js| && p.sup == a && a < |p.toks| && p.toks[a].kind == Array
    requires Elements(js, kids, p.pos, to) && Ends(js, kids, to, false) && |p.toks| + CountAll(kids) <= need
    ensures Leads(js, need, p, Grown(p, a, kids, to, a))
    decreases kids, 2
  {
    if kids == [] {
      NoneRounds(js, need, p, a, to);
    } else if |kids| == 1 {
      OnlyElement(js, need, kids, p, a, to);
    } else {
      var pos := NextElement(js, need, kids, p, a, to);
      RestElements(js, need, kids, p, a, pos, to);
      LeadsOn(js, need, p, AfterKid(p, a, kids[0], pos, a), Grown(p, a, kids, to, a));
    }
  }

  lemma {:induction false} OnlyElement(js: string, need: nat, kids: seq<Node>, p: Parser, a: nat, to: nat)
    requires Valid(p) && p.pos <= to < |js| && p.sup == a && a < |p.toks| && p.toks[a].kind == Array
    requires |kids| == 1 && Elements(js, kids, p.pos, to) && Ends(js, kids, to, false) && |p.toks| + CountAll(kids) <= need
    ensures Leads(js, need, p, Grown(p, a, kids, to, a))
    decreases kids, 1
  {
    ElementsSplit(js, kids, p.pos, to);
    ElementRounds(js, need, kids[0], p, a);
    KidCounted(p, a, kids, to, a, to, a);
  }

  lemma {:induction false} RestElements(js: string, need: nat, kids: seq<Node>, p: Parser, a: nat, pos: nat, to: nat)
    requires a < |p.toks| && p.toks[a].kind == Array && kids != [] && pos <= to < |js| && Ends(js, kids[1..], to, false)
    requires Valid(AfterKid(p, a, kids[0], pos, a))
    requires Elements(js, kids[1..], pos, to) && |p.toks| + Count(kids[0]) + CountAll(kids[1..]) <= need
    ensures Leads(js, need, AfterKid(p, a, kids[0], pos, a), Grown(p, a, kids, to, a))
    decreases kids, 0
  {
    KidCounted(p, a, kids, pos, a, to, a);
    ElementsRounds(js, need, kids[1..], AfterKid(p, a, kids[0], pos, a), a, to);
  }

  // The parser after a key `m` of the object `o` and its colon, where the value begins
  function Keyed(p: Parser, m: Node, o: nat, pos: nat): Parser
    requires o < |p.toks|
  {
    Parser(pos, Bump(p.toks, o) + [Token(String, m.start, m.end, 0, o)], |p.toks|)
  }

  // The parser after the string of the key, with toksuper still at the object
  function KeyRead(p: Parser, m: Node, o: nat, pos: nat): Parser
    requires o < |p.toks|
  {
    Keyed(p, m, o, pos).(sup := o)
  }

  lemma {:induction false} KeyString(js: string, need: nat, m: Node, p: Parser, o: nat)
    requires Valid(p) && p.sup == o && o < |p.toks| < need && p.pos < |js| && KeyAndColon(js, m, p.pos)
    ensures Leads(js, need, p, KeyRead(p, m, o, SkipSpace(js, Finish(m))))
  {
    var key := Node(String, m.start, m.end, []);
    var q := KeyRead(p, m, o, Finish(m));
    LeafRounds(js, need, key, p);
    assert Encode(key, |p.toks|, o) == [Token(String, m.start, m.end, 0, o)];
    assert Then(p, key) == q;
    SpacesPass(js, need, q);
    LeadsOn(js, need, p, q, KeyRead(p, m, o, SkipSpace(js, Finish(m))));
  }

  lemma {:induction false} KeyRounds(js: string, need: nat, m: Node, p: Parser, o: nat)
    requires Valid(p) && p.sup == o && o < |p.toks| < need && p.pos < |js| && KeyAndColon(js, m, p.pos)
    ensures Leads(js, need, p, Keyed(p, m, o, ValueAt(js, m)))
  {
    var c := SkipSpace(js, Finish(m));
    var q := KeyRead(p, m, o, c);
    KeyString(js, need, m, p, o);
    ColonRound(js, need, q);
    var r := Keyed(p, m, o, SkipSpace(js, c + 1));
    assert r == Parser(SkipSpace(js, c + 1), q.toks, |q.toks| - 1);
    LeadsOn(js, need, p, q, r);
  }

  lemma {:induction false} ColonRound(js: string, need: nat, p: Parser)
    requires Valid(p) && p.pos < |js| && js[p.pos] == ':'
    ensures Leads(js, need, p, Parser(SkipSpace(js, p.pos + 1), p.toks, |p.toks| - 1))
  {
    var q := Parser(p.pos + 1, p.toks, |p.toks| - 1);
    OneRound(js, need, p, q);
    SpacesPass(js, need, q);
    LeadsOn(js, need, p, q, q.(pos := SkipSpace(js, q.pos)));
  }

  // The superior token is a key of the object `o` that has its value.
  predicate AtKey(p: Parser, o: nat) {
    o < p.sup < |p.toks| && p.toks[p.sup].kind == String && p.toks[p.sup].parent == o && p.toks[p.sup].size != 0
  }

  // Its value makes the key a token of size 1.
  lemma {:induction false} ValueOfKey(p: Parser, m: Node, o: nat, pos: nat)
    requires o < |p.toks| && m.kind == String && |m.kids| == 1 && Valid(Keyed(p, m, o, pos))
    ensures Then(Keyed(p, m, o, pos), m.kids[0]) == AfterKid(p, o, m, Finish(m.kids[0]), |p.toks|)
    ensures Count(m) == 1 + Count(m.kids[0])
    ensures AtKey(AfterKid(p, o, m, pos, |p.toks|), o)
  {
    var v, k := m.kids[0], |p.toks|;
    var t1 := Token(String, m.start, m.end, 1, o);
    assert m.kids[1..] == [];
    assert EncodeAll(m.kids, k + 1, k) == Encode(v, k + 1, k) + [] == Encode(v, k + 1, k);
    assert Bump(Keyed(p, m, o, pos).toks, k) == Bump(p.toks, o) + [t1];
    assert Bump(p.toks, o) + [t1] + Encode(v, k + 1, k) == Bump(p.toks, o) + ([t1] + Encode(v, k + 1, k));
  }

  lemma {:induction false} MemberRounds(js: string, need: nat, m: Node, p: Parser, o: nat)
    requires Valid(p) && p.pos <= |js| && p.sup == o && o < |p.toks|
    requires SkipSpace(js, p.pos) < |js| && Member(js, m, SkipSpace(js, p.pos)) && Followed(js, m.kids[0])
    requires Finish(m.kids[0]) <= |js| && |p.toks| + Count(m) <= need
    ensures var q := AfterKid(p, o, m, SkipSpace(js, Finish(m.kids[0])), |p.toks|);
      Leads(js, need, p, q) && AtKey(q, o)
    decreases m, 2
  {
    var v := m.kids[0];
    var pos := ValueAt(js, m);
    var p1 := p.(pos := SkipSpace(js, p.pos));
    var p2 := Keyed(p1, m, o, pos);
    var p3 := Then(p2, v);
    SpacesPass(js, need, p);
    KeyRounds(js, need, m, p1, o);
    LeadsOn(js, need, p, p1, p2);
    ValueOfKey(p1, m, o, pos);
    ValueRounds(js, need, v, p2);
    LeadsOn(js, need, p, p2, p3);
    SpacesPass(js, need, p3);
    LeadsOn(js, need, p, p3, p3.(pos := SkipSpace(js, Finish(v))));
  }

  // A member and the comma after it
  lemma {:induction false} MemberAndComma(js: string, need: nat, m: Node, p: Parser, o: nat, d: nat)
    requires Valid(p) && p.pos <= |js| && p.sup == o && o < |p.toks|
    requires SkipSpace(js, p.pos) < |js| && Member(js, m, SkipSpace(js, p.pos)) && Followed(js, m.kids[0])
    requires Finish(m.kids[0]) <= |js| && |p.toks| + Count(m) <= need
    requires d == SkipSpace(js, Finish(m.kids[0])) < |js| && js[d] == ','
    ensures Leads(js, need, p, AfterKid(p, o, m, d + 1, o))
    decreases m, 3
  {
    var q, r := AfterKid(p, o, m, d, |p.toks|), AfterKid(p, o, m, d + 1, o);
    assert Leads(js, need, p, q) && AtKey(q, o) by {
      MemberRounds(js, need, m, p, o);
    }
    assert Leads(js, need, q, r) by {
      CommaRound(js, need, q, o);
    }
    LeadsOn(js, need, p, q, r);
  }

  // The first of several members, and where the others begin
  lemma {:induction false} NextMember(js: string, need: nat, kids: seq<Node>, p: Parser, o: nat, to: nat) returns (pos: nat)
    requires Valid(p) && p.pos <= to < |js| && p.sup == o && o < |p.toks| && |kids| > 1
    requires Members(js, kids, p.pos, to) && Ends(js, kids, to, true) && |p.toks| + CountAll(kids) <= need
    ensures pos <= to && Leads(js, need, p, AfterKid(p, o, kids[0], pos, o))
    ensures Members(js, kids[1..], pos, to) && Ends(js, kids[1..], to, true)
    ensures CountAll(kids) == Count(kids[0]) + CountAll(kids[1..])
    decreases kids, 1
  {
    MembersSplit(js, kids, p.pos, to);
    var d := SkipSpace(js, Finish(kids[0].kids[0]));
    MemberAndComma(js, need, kids[0], p, o, d);
    pos := d + 1;
  }

  // Toksuper after the members of `o`: the last key, or the object if there is none. The keys'
  // tokens are those from number `at` on.
  function LastKey(at: nat, o: nat, kids: seq<Node>): nat
    decreases |kids|
  {
    if kids == [] then o else if |kids| == 1 then at else LastKey(at + Count(kids[0]), o, kids[1..])
  }

  lemma {:induction false} LastKeyIsKey(p: Parser, o: nat, kids: seq<Node>, pos: nat)
    requires o < |p.toks| && kids != [] && forall i :: 0 <= i < |kids| ==> kids[i].kind == String && |kids[i].kids| == 1
    ensures AtKey(Grown(p, o, kids, pos, LastKey(|p.toks|, o, kids)), o)
    decreases |kids|
  {
    var k := |p.toks|;
    if |kids| == 1 {
      assert EncodeAll(kids, k, o)[0] == Token(String, kids[0].start, kids[0].end, 1, o);
    } else {
      KidCounted(p, o, kids, pos, o, pos, LastKey(k, o, kids));
      LastKeyIsKey(AfterKid(p, o, kids[0], pos, o), o, kids[1..], pos);
    }
  }

  lemma {:induction false} MembersRounds(js: string, need: nat, kids: seq<Node>, p: Parser, o: nat, to: nat)
    requires Valid(p) && p.pos <= to < |js| && p.sup == o && o < |p.toks|
    requires Members(js, kids, p.pos, to) && Ends(js, kids, to, true) && |p.toks| + CountAll(kids) <= need
    ensures Leads(js, need, p, Grown(p, o, kids, to, LastKey(|p.toks|, o, kids)))
    decreases kids, 3
  {
    if kids == [] {
      NoneRounds(js, need, p, o, to);
    } else if |kids| == 1 {
      OnlyMember(js, need, kids, p, o, to);
    } else {
      var pos := NextMember(js, need, kids, p, o, to);
      RestMembers(js, need, kids, p, o, pos, to);
      LeadsOn(js, need, p, AfterKid(p, o, kids[0], pos, o), Grown(p, o, kids, to, LastKey(|p.toks|, o, kids)));
    }
  }

  lemma {:induction false} OnlyMember(js: string, need: nat, kids: seq<Node>, p: Parser, o: nat, to: nat)
    requires Valid(p) && p.pos <= to < |js| && p.sup == o && o < |p.toks|
    requires Ends(js, kids, to, true) && |kids| == 1 && Members(js, kids, p.pos, to) && |p.toks| + CountAll(kids) <= need
    ensures Leads(js, need, p, Grown(p, o, kids, to, |p.toks|))
    decreases kids, 2
  {
    MembersSplit(js, kids, p.pos, to);
    MemberRounds(js, need, kids[0], p, o);
    KidCounted(p, o, kids, to, |p.toks|, to, |p.toks|);
  }

  lemma {:induction false} RestMembers(js: string, need: nat, kids: seq<Node>, p: Parser, o: nat, pos: nat, to: nat)
    requires o < |p.toks| && |kids| > 1 && pos <= to < |js| && Ends(js, kids[1..], to, true)
    requires Valid(AfterKid(p, o, kids[0], pos, o))
    requires Members(js, kids[1..], pos, to) && |p.toks| + Count(kids[0]) + CountAll(kids[1..]) <= need
    ensures Leads(js, need, AfterKid(p, o, kids[0], pos, o), Grown(p, o, kids, to, LastKey(|p.toks|, o, kids)))
    decreases kids, 0
  {
    KidCounted(p, o, kids, pos, o, to, LastKey(|p.toks|, o, kids));
    MembersRounds(js, need, kids[1..], AfterKid(p, o, kids[0], pos, o), o, to);
  }

  // ---------------------------------------------------------------------- whole texts

  // The root is a number or literal with nothing after it, which the strict build rejects.
  predicate EndsInPrimitive(js: string, n: Node) {
    n.kind == Primitive && Finish(n) == |js|
  }

  lemma {:induction false} TextRounds(js: string, n: Node)
    requires IsText(js, n) && !EndsInPrimitive(js, n)
    ensures Leads(js, Count(n), Start(), Parser(|js|, Encode(n, 0, -1), -1))
  {
    var p := Start().(pos := SkipSpace(js, 0));
    var q := Then(p, n);
    SpacesPass(js, Count(n), Start());
    ValueRounds(js, Count(n), n, p);
    LeadsOn(js, Count(n), Start(), p, q);
    SpacesPass(js, Count(n), q);
    assert [] + Encode(n, 0, -1) == Encode(n, 0, -1);
    LeadsOn(js, Count(n), Start(), q, q.(pos := SkipSpace(js, q.pos)));
  }

  // On every JSON text, with room for its tokens, the parser succeeds exactly if the text does
  // not end in a root primitive, and then its tokens are the encoding of the tree.
  lemma {:induction false} ParsesIff(js: string, n: Node, cap: nat)
    requires IsText(js, n) && Count(n) <= cap
    ensures Rounds(js, cap, Start()).Go? <==> !EndsInPrimitive(js, n)
    ensures !EndsInPrimitive(js, n) ==> Rounds(js, cap, Start()) == Go(Parser(|js|, Encode(n, 0, -1), -1))
  {
    if EndsInPrimitive(js, n) {
      var p := Start().(pos := SkipSpace(js, 0));
      SpacesPass(js, cap, Start());
      LeadsToEnd(js, cap, Start(), p, cap);
      PrimitiveEnds(js, n.start, n.end);
      assert Round(js, cap, p) == Stop(PART);
    } else {
      var q := Parser(|js|, Encode(n, 0, -1), -1);
      TextRounds(js, n);
      LeadsToEnd(js, Count(n), Start(), q, cap);
      EncodeHangs(n, 0, -1);
    }
  }

  // One round without a token array: where it leads and how many tokens it counts
  datatype Tally = On(pos: nat, more: nat) | Off(err: int)

  function CountRound(js: string, pos: nat): (t: Tally)
    requires pos < |js|
    ensures t.On? ==> pos < t.pos <= |js| && t.more <= 1
    ensures t.Off? ==> t.err < 0
  {
    var c := js[pos];
    if c == '{' || c == '[' then On(pos + 1, 1)
    else if c == '}' || c == ']' || IsSpace(c) || c == ':' || c == ',' then On(pos + 1, 0)
    else if c == '\"' then
      (match StringEnd(js, pos + 1)
       case Bad(err) => Off(err)
       case At(end) => On(end + 1, 1))
    else if StartsPrimitive(c) then
      match PrimitiveEnd(js, pos)
      case Bad(err) => Off(err)
      case At(end) => On(end, 1)
    else Off(INVAL)
  }

  // __jsmn_parse without a token array, from `pos` on and with `count` tokens seen: the number
  // of tokens, or an error
  function Counts(js: string, pos: nat, count: nat): int
    requires pos <= |js|
    decreases |js| - pos
  {
    if pos == |js| || js[pos] == NUL then count
    else
      match CountRound(js, pos)
      case Off(err) => err
      case On(next, more) => Counts(js, next, count + more)
  }

  lemma {:induction false} RoundCounts(js: string, cap: nat, p: Parser)
    requires Valid(p) && p.pos < |js| && Round(js, cap, p).Go?
    ensures var q := Round(js, cap, p).p;
      |p.toks| <= |q.toks| && CountRound(js, p.pos) == On(q.pos, |q.toks| - |p.toks|)
  {
  }

  lemma {:induction false} RoundCountsUp(js: string, cap: nat, p: Parser)
    requires Valid(p) && p.pos < |js|
    ensures Round(js, cap, p).Go? ==> |p.toks| <= |Round(js, cap, p).p.toks|
  {
    if Round(js, cap, p).Go? {
      RoundCounts(js, cap, p);
    }
  }

  // The number of tokens of the pass that stores them is the count of the pass before it.
  lemma {:induction false} CountsAgree(js: string, cap: nat, p: Parser)
    requires Valid(p) && p.pos <= |js| && Rounds(js, cap, p).Go?
    ensures Counts(js, p.pos, |p.toks|) == |Rounds(js, cap, p).p.toks|
    decreases |js| - p.pos
  {
    if p.pos < |js| && js[p.pos] != NUL {
      RoundCounts(js, cap, p);
      CountsAgree(js, cap, Round(js, cap, p).p);
    }
  }

  // The counting pass finds the number of tokens of the tree, and fails where storing would.
  lemma {:induction false} CountsIff(js: string, n: Node)
    requires IsText(js, n)
    ensures Counts(js, 0, 0) == if EndsInPrimitive(js, n) then PART else Count(n)
  {
    if EndsInPrimitive(js, n) {
      SpacesCount(js, 0, 0);
      PrimitiveEnds(js, n.start, n.end);
    } else {
      ParsesIff(js, n, Count(n));
      CountsAgree(js, Count(n), Start());
    }
  }

  lemma {:induction false} SpacesCount(js: string, pos: nat, count: nat)
    requires pos <= |js|
    ensures Counts(js, pos, count) == Counts(js, SkipSpace(js, pos), count)
    decreases |js| - pos
  {
    if pos < |js| && IsSpace(js[pos]) {
      SpacesCount(js, pos + 1, count);
    }
  }

  // The text 1 is JSON, and rejected by both passes.
  lemma {:induction false} LoneNumberIsRejected(js: string, cap: nat)
    requires js == "1"
    ensures IsText(js, Node(Primitive, 0, 1, []))
    ensures Counts(js, 0, 0) == PART && Rounds(js, cap, Start()) == Stop(PART)
  {
    var n := Node(Primitive, 0, 1, []);
    assert SkipSpace(js, 0) == 0 && SkipSpace(js, 1) == 1;
    assert PrimitiveBody(js, 0, 1);
    assert Spelled(js, n, 0);
    CountsIff(js, n);
    PrimitiveEnds(js, 0, 1);
    assert Round(js, cap, Start()) == Stop(PART);
  }
}
