/**
 What the tokens of any text look like that the tokenizer accepts, be it JSON or not: a forest
 in preorder. The tokenizer takes more than JSON, such as an object with a key and no value.
 */
module JsonForest {
  import opened JsonTokens
  import opened JsonText
  import opened JsonParse

  // Between a token and its parent there are only descendants of the parent.
  predicate Nested(toks: seq<Token>) {
    forall j, k :: 0 <= k < j < |toks| && toks[j].parent < k ==> toks[j].parent <= toks[k].parent
  }

  // The tokens from `lo` to `hi` whose parent is `i`
  function KidsIn(toks: seq<Token>, i: int, lo: nat, hi: nat): nat
    requires lo <= hi <= |toks|
    decreases hi - lo
  {
    if lo == hi then 0 else KidsIn(toks, i, lo, hi - 1) + (if toks[hi - 1].parent == i then 1 else 0)
  }

  // Each token's size is the number of its children.
  predicate Sized(toks: seq<Token>) {
    forall i :: 0 <= i < |toks| ==> toks[i].size == KidsIn(toks, i, 0, |toks|)
  }

  // The text of a token lies in the first `length` characters; an open one has no end yet.
  predicate Sliced(toks: seq<Token>, length: nat) {
    forall i :: 0 <= i < |toks| ==> 0 <= toks[i].start <= length && (toks[i].end == -1 || toks[i].start <= toks[i].end <= length)
  }

  predicate IsForest(toks: seq<Token>, length: nat) {
    Linked(toks) && Nested(toks) && Sized(toks) && Sliced(toks, length) && AllClosed(toks)
  }

  // ------------------------------------------------------------------------ the tokenizer's rounds

  // `s` is the last token or a token around it, or none.
  predicate Around(toks: seq<Token>, s: int) {
    forall k :: 0 <= k < |toks| && s < k ==> s <= toks[k].parent
  }

  predicate Growing(p: Parser) {
    && Valid(p) && Nested(p.toks) && Sized(p.toks) && Sliced(p.toks, p.pos) && Around(p.toks, p.sup)
  }

  predicate SameParents(s: seq<Token>, t: seq<Token>) {
    |s| == |t| && forall i :: 0 <= i < |s| ==> s[i].parent == t[i].parent
  }

  lemma {:induction false} KidsOfSame(s: seq<Token>, t: seq<Token>, i: int, lo: nat, hi: nat)
    requires lo <= hi <= |s| <= |t| && SameParents(s, t[..|s|])
    ensures KidsIn(s, i, lo, hi) == KidsIn(t, i, lo, hi)
    decreases hi - lo
  {
    if lo < hi {
      KidsOfSame(s, t, i, lo, hi - 1);
      assert t[..|s|][hi - 1] == t[hi - 1];
    }
  }

  lemma {:induction false} NoKids(toks: seq<Token>, i: int, lo: nat, hi: nat)
    requires lo <= hi <= |toks| && forall j :: lo <= j < hi ==> toks[j].parent != i
    ensures KidsIn(toks, i, lo, hi) == 0
    decreases hi - lo
  {
    if lo < hi {
      NoKids(toks, i, lo, hi - 1);
    }
  }

  lemma {:induction false} KidsSplit(toks: seq<Token>, i: int, lo: nat, mid: nat, hi: nat)
    requires lo <= mid <= hi <= |toks|
    ensures KidsIn(toks, i, lo, hi) == KidsIn(toks, i, lo, mid) + KidsIn(toks, i, mid, hi)
    decreases hi - mid
  {
    if mid < hi {
      KidsSplit(toks, i, lo, mid, hi - 1);
    }
  }

  // Going from a token to its parent, from there to the parent's parent, and so on, one stays
  // around the last token.
  lemma {:induction false} ParentIsAround(toks: seq<Token>, s: nat)
    requires Linked(toks) && Nested(toks) && s < |toks| && Around(toks, s)
    ensures Around(toks, toks[s].parent)
  {
    forall k | 0 <= k < |toks| && toks[s].parent < k ensures toks[s].parent <= toks[k].parent {
      assert k < s ==> toks[s].parent <= toks[k].parent;
    }
  }

  lemma {:induction false} OpenIsAround(toks: seq<Token>, i: nat)
    requires Linked(toks) && Nested(toks) && i < |toks| && Around(toks, i)
    ensures FindOpen(toks, i).Some? ==> Around(toks, toks[FindOpen(toks, i).value].parent)
    decreases i
  {
    ParentIsAround(toks, i);
    if !IsOpen(toks[i]) && toks[i].parent != -1 {
      OpenIsAround(toks, toks[i].parent);
    }
  }

  // A new token below `s`, counted there
  function Grow1(toks: seq<Token>, s: int, kind: Kind, start: int, end: int): seq<Token>
    requires -1 <= s < |toks|
  {
    Bump(toks, s) + [Token(kind, start, end, 0, s)]
  }

  lemma {:induction false} Grow1Nests(toks: seq<Token>, s: int, kind: Kind, start: int, end: int)
    requires Linked(toks) && Nested(toks) && Around(toks, s) && -1 <= s < |toks|
    ensures var r := Grow1(toks, s, kind, start, end);
      Linked(r) && Nested(r) && Around(r, s) && Around(r, |toks|)
  {
    var r := Grow1(toks, s, kind, start, end);
    assert forall j :: 0 <= j < |toks| ==> r[j].parent == toks[j].parent;
  }

  lemma {:induction false} Grow1Sizes(toks: seq<Token>, s: int, kind: Kind, start: int, end: int)
    requires Linked(toks) && Sized(toks) && -1 <= s < |toks|
    ensures Sized(Grow1(toks, s, kind, start, end))
  {
    var r := Grow1(toks, s, kind, start, end);
    var n := |toks|;
    assert SameParents(toks, r[..n]);
    forall i | 0 <= i < |r| ensures r[i].size == KidsIn(r, i, 0, |r|) {
      KidsOfSame(toks, r, i, 0, n);
      if i == n {
        NoKids(toks, n, 0, n);
      } else {
        assert toks[i].size == KidsIn(toks, i, 0, n);
      }
    }
  }

  lemma {:induction false} Grow1Fits(toks: seq<Token>, s: int, kind: Kind, start: int, end: int, length: nat)
    requires Linked(toks) && Nested(toks) && Sized(toks) && Sliced(toks, length) && Around(toks, s) && -1 <= s < |toks|
    requires 0 <= start <= length && (end == -1 || start <= end <= length)
    ensures var r := Grow1(toks, s, kind, start, end);
      && Linked(r) && Nested(r) && Sized(r) && Sliced(r, length)
      && Around(r, s) && Around(r, |toks|)
  {
    Grow1Nests(toks, s, kind, start, end);
    Grow1Sizes(toks, s, kind, start, end);
    BumpSlices(toks, s, length);
  }

  lemma {:induction false} BumpSlices(toks: seq<Token>, s: int, length: nat)
    requires Sliced(toks, length) && -1 <= s < |toks|
    ensures Sliced(Bump(toks, s), length)
  {
  }

  // Only the end of a token changes.
  lemma {:induction false} EndKeepsNesting(toks: seq<Token>, i: nat, end: nat, s: int)
    requires Linked(toks) && Nested(toks) && i < |toks| && Around(toks, s)
    ensures var r := toks[i := toks[i].(end := end)]; Linked(r) && Nested(r) && Around(r, s)
  {
    var r := toks[i := toks[i].(end := end)];
    assert SameParents(toks, r);
    assert forall j :: 0 <= j < |r| ==> r[j].parent == toks[j].parent;
  }

  lemma {:induction false} EndKeepsSizes(toks: seq<Token>, i: nat, end: nat)
    requires Sized(toks) && i < |toks|
    ensures Sized(toks[i := toks[i].(end := end)])
  {
    var r := toks[i := toks[i].(end := end)];
    forall k | 0 <= k < |r| ensures r[k].size == KidsIn(r, k, 0, |r|) {
      assert SameParents(toks, r[..|toks|]);
      KidsOfSame(toks, r, k, 0, |toks|);
      assert toks[k].size == KidsIn(toks, k, 0, |toks|);
    }
  }

  lemma {:induction false} EndKeepsSlices(toks: seq<Token>, i: nat, end: nat, length: nat)
    requires Sliced(toks, length) && i < |toks| && toks[i].start <= end <= length
    ensures Sliced(toks[i := toks[i].(end := end)], length)
  {
  }

  lemma {:induction false} SlicedLonger(toks: seq<Token>, a: nat, b: nat)
    requires Sliced(toks, a) && a <= b
    ensures Sliced(toks, b)
  {
  }

  lemma {:induction false} AddTokenGrows(p: Parser, cap: nat, kind: Kind, start: nat, end: nat, pos: nat)
    requires Growing(p) && p.pos <= start <= end <= pos && JsonParse.AddToken(p, cap, kind, start, end, pos).Go?
    ensures Growing(JsonParse.AddToken(p, cap, kind, start, end, pos).p)
  {
    BumpAppend(p.toks, [Token(kind, start, end, 0, p.sup)], p.sup);
    SlicedLonger(p.toks, p.pos, pos);
    Grow1Fits(p.toks, p.sup, kind, start, end, pos);
  }

  lemma {:induction false} OpenGrowing(p: Parser, cap: nat, kind: Kind)
    requires Growing(p) && OpenBracket(p, cap, kind).Go?
    ensures Growing(OpenBracket(p, cap, kind).p)
  {
    SlicedLonger(p.toks, p.pos, p.pos + 1);
    Grow1Fits(p.toks, p.sup, kind, p.pos, -1, p.pos + 1);
  }

  // Token `i` gets its end.
  function Ended(p: Parser, i: nat): Parser
    requires i < |p.toks|
  {
    Parser(p.pos + 1, p.toks[i := p.toks[i].(end := p.pos + 1)], p.toks[i].parent)
  }

  lemma {:induction false} EndedGrows(p: Parser, i: nat)
    requires Growing(p) && i < |p.toks| && Around(p.toks, p.toks[i].parent)
    ensures Growing(Ended(p, i))
  {
    var end := p.pos + 1;
    SlicedLonger(p.toks, p.pos, end);
    EndKeepsNesting(p.toks, i, end, p.toks[i].parent);
    EndKeepsSizes(p.toks, i, end);
    EndKeepsSlices(p.toks, i, end, end);
  }

  lemma {:induction false} CloseGrowing(p: Parser, kind: Kind)
    requires Growing(p) && CloseBracket(p, kind).Go?
    ensures Growing(CloseBracket(p, kind).p)
  {
    var last := |p.toks| - 1;
    match FindOpen(p.toks, last)
    case None => SlicedLonger(p.toks, p.pos, p.pos + 1);
    case Some(i) =>
      OpenIsAround(p.toks, last);
      EndedGrows(p, i);
      assert CloseBracket(p, kind).p == Ended(p, i);
  }

  lemma {:induction false} CommaGrowing(p: Parser)
    requires Growing(p)
    ensures Growing(Comma(p).p)
  {
    SlicedLonger(p.toks, p.pos, p.pos + 1);
    if p.sup != -1 {
      ParentIsAround(p.toks, p.sup);
    }
  }

  lemma {:induction false} RoundGrows(js: string, cap: nat, p: Parser)
    requires Growing(p) && p.pos < |js| && Round(js, cap, p).Go?
    ensures Growing(Round(js, cap, p).p)
  {
    var c := js[p.pos];
    if c == '{' || c == '[' {
      OpenGrowing(p, cap, if c == '{' then Object else Array);
    } else if c == '}' || c == ']' {
      CloseGrowing(p, if c == '}' then Object else Array);
    } else if c == '\"' {
      StringGrows(js, cap, p);
    } else if c == ',' {
      CommaGrowing(p);
    } else if IsSpace(c) || c == ':' {
      SlicedLonger(p.toks, p.pos, p.pos + 1);
    } else {
      PrimitiveGrows(js, cap, p);
    }
  }

  lemma {:induction false} StringRound(js: string, cap: nat, p: Parser) returns (end: nat)
    requires Valid(p) && p.pos < |js| && js[p.pos] == '\"' && Round(js, cap, p).Go?
    ensures p.pos + 1 <= end && Round(js, cap, p) == JsonParse.AddToken(p, cap, String, p.pos + 1, end, end + 1)
  {
    end := StringEnd(js, p.pos + 1).pos;
  }

  lemma {:induction false} PrimitiveRound(js: string, cap: nat, p: Parser) returns (end: nat)
    requires Valid(p) && p.pos < |js| && StartsPrimitive(js[p.pos]) && Round(js, cap, p).Go?
    ensures p.pos <= end && Round(js, cap, p) == JsonParse.AddToken(p, cap, Primitive, p.pos, end, end)
  {
    end := PrimitiveEnd(js, p.pos).pos;
  }

  lemma {:induction false} StringGrows(js: string, cap: nat, p: Parser)
    requires Growing(p) && p.pos < |js| && js[p.pos] == '\"' && Round(js, cap, p).Go?
    ensures Growing(Round(js, cap, p).p)
  {
    var end := StringRound(js, cap, p);
    AddTokenGrows(p, cap, String, p.pos + 1, end, end + 1);
  }

  lemma {:induction false} PrimitiveGrows(js: string, cap: nat, p: Parser)
    requires Growing(p) && p.pos < |js| && Round(js, cap, p).Go? && StartsPrimitive(js[p.pos])
    ensures Growing(Round(js, cap, p).p)
  {
    var end := PrimitiveRound(js, cap, p);
    AddTokenGrows(p, cap, Primitive, p.pos, end, end);
  }

  // Whatever the text: if the tokenizer accepts it, the tokens are a forest in preorder, with
  // sizes that count children and slices inside the text.
  lemma {:induction false} AcceptedIsForest(js: string, cap: nat, p: Parser)
    requires Growing(p) && p.pos <= |js| && Rounds(js, cap, p).Go?
    ensures IsForest(Rounds(js, cap, p).p.toks, |js|)
    decreases |js| - p.pos
  {
    if p.pos < |js| && js[p.pos] != NUL {
      RoundGrows(js, cap, p);
      AcceptedIsForest(js, cap, Round(js, cap, p).p);
    } else {
      SlicedLonger(p.toks, p.pos, |js|);
    }
  }

  // ------------------------------------------------------------------------------ its trees

  // The end of the descendants of token `at`, no further than `hi`
  function EndOf(toks: seq<Token>, at: nat, e: nat, hi: nat): (r: nat)
    requires at < e <= hi <= |toks|
    ensures e <= r <= hi && (r < hi ==> toks[r].parent < at)
    ensures forall k :: e <= k < r ==> toks[k].parent >= at
    decreases hi - e
  {
    if e == hi || toks[e].parent < at then e else EndOf(toks, at, e + 1, hi)
  }

  function NodesIn(toks: seq<Token>, length: nat, lo: nat, hi: nat): seq<Node>
    requires IsForest(toks, length) && lo <= hi <= |toks|
    decreases hi - lo
  {
    if lo == hi then []
    else
      var e := EndOf(toks, lo, lo + 1, hi);
      assert !IsOpen(toks[lo]);
      [Node(toks[lo].kind, toks[lo].start, toks[lo].end, NodesIn(toks, length, lo + 1, e))]
      + NodesIn(toks, length, e, hi)
  }

  // The tree below token `at`
  function TreeAt(toks: seq<Token>, length: nat, at: nat): Node
    requires IsForest(toks, length) && at < |toks|
  {
    assert !IsOpen(toks[at]);
    Node(toks[at].kind, toks[at].start, toks[at].end,
         NodesIn(toks, length, at + 1, EndOf(toks, at, at + 1, |toks|)))
  }

  // The tokens from `lo` to `hi` are whole trees below `parent`.
  predicate WholeTrees(toks: seq<Token>, lo: nat, hi: nat, parent: int) {
    && lo <= hi <= |toks| && -1 <= parent < lo
    && (lo < hi ==> toks[lo].parent == parent)
    && (forall k :: lo <= k < hi ==> parent <= toks[k].parent)
    && (hi == |toks| || toks[hi].parent < lo)
  }

  // The descendants of token `lo` are whole trees below it, and there are as many as its size.
  lemma {:induction false} OwnTrees(toks: seq<Token>, length: nat, lo: nat, hi: nat)
    requires IsForest(toks, length) && lo < hi <= |toks| && (hi == |toks| || toks[hi].parent < lo)
    ensures var e := EndOf(toks, lo, lo + 1, hi);
      && WholeTrees(toks, lo + 1, e, lo) && (e == |toks| || toks[e].parent < lo)
      && toks[lo].size == KidsIn(toks, lo, lo + 1, e)
  {
    OwnSize(toks, lo, EndOf(toks, lo, lo + 1, hi));
  }

  lemma {:induction false} OwnSize(toks: seq<Token>, lo: nat, e: nat)
    requires Linked(toks) && Nested(toks) && Sized(toks) && lo < e <= |toks| && (e == |toks| || toks[e].parent < lo)
    ensures toks[lo].size == KidsIn(toks, lo, lo + 1, e)
  {
    AllKidsBefore(toks, lo, e);
    NoKids(toks, lo, 0, lo + 1);
    NoKids(toks, lo, e, |toks|);
    KidsSplit(toks, lo, 0, lo + 1, e);
    KidsSplit(toks, lo, 0, e, |toks|);
  }

  lemma {:induction false} AllKidsBefore(toks: seq<Token>, lo: nat, e: nat)
    requires Linked(toks) && Nested(toks) && lo < e <= |toks| && (e == |toks| || toks[e].parent < lo)
    ensures forall j :: e <= j < |toks| ==> toks[j].parent != lo
    ensures forall j :: 0 <= j < lo + 1 ==> toks[j].parent != lo
  {
    forall j | e <= j < |toks| ensures toks[j].parent != lo {
      assert e < j && toks[j].parent < e ==> toks[j].parent <= toks[e].parent;
    }
  }

  lemma {:induction false} OtherTrees(toks: seq<Token>, length: nat, lo: nat, hi: nat, parent: int)
    requires IsForest(toks, length) && WholeTrees(toks, lo, hi, parent) && lo < hi
    ensures var e := EndOf(toks, lo, lo + 1, hi);
      WholeTrees(toks, e, hi, parent) && KidsIn(toks, parent, lo, hi) == 1 + KidsIn(toks, parent, e, hi)
  {
    var e := EndOf(toks, lo, lo + 1, hi);
    if e < hi {
      assert toks[e].parent <= toks[lo].parent;
    }
    NoKids(toks, parent, lo + 1, e);
    KidsSplit(toks, parent, lo, lo + 1, e);
    KidsSplit(toks, parent, lo, e, hi);
    assert KidsIn(toks, parent, lo, lo) == 0;
  }

  // The trees are laid out where they come from, and nothing is left out.
  lemma {:induction false} NodesLaid(toks: seq<Token>, length: nat, lo: nat, hi: nat, parent: int)
    requires IsForest(toks, length) && WholeTrees(toks, lo, hi, parent)
    ensures var ns := NodesIn(toks, length, lo, hi);
      && LaidAll(toks, ns, lo, parent) && CountAll(ns) == hi - lo && |ns| == KidsIn(toks, parent, lo, hi)
    decreases hi - lo
  {
    if lo < hi {
      var e := EndOf(toks, lo, lo + 1, hi);
      OwnTrees(toks, length, lo, hi);
      OtherTrees(toks, length, lo, hi, parent);
      NodesLaid(toks, length, lo + 1, e, lo);
      NodesLaid(toks, length, e, hi, parent);
      var first := Node(toks[lo].kind, toks[lo].start, toks[lo].end, NodesIn(toks, length, lo + 1, e));
      LaidCons(toks, first, NodesIn(toks, length, e, hi), lo, e, parent);
    }
  }

  // A tree at `lo` and further ones after it
  lemma {:induction false} LaidCons(toks: seq<Token>, first: Node, rest: seq<Node>, lo: nat, e: nat, parent: int)
    requires lo < |toks| && toks[lo] == Token(first.kind, first.start, first.end, |first.kids|, parent)
    requires LaidAll(toks, first.kids, lo + 1, lo) && CountAll(first.kids) == e - lo - 1
    requires LaidAll(toks, rest, e, parent)
    ensures LaidAll(toks, [first] + rest, lo, parent) && CountAll([first] + rest) == e - lo + CountAll(rest)
  {
    var all := [first] + rest;
    assert all[0] == first && all[1..] == rest;
    assert Count(first) == e - lo && Laid(toks, first, lo, parent);
  }

  // Every token of an accepted text is the root of a tree that is laid out there, inside the array.
  lemma {:induction false} TreeIsLaid(toks: seq<Token>, length: nat, at: nat)
    requires IsForest(toks, length) && at < |toks|
    ensures Laid(toks, TreeAt(toks, length, at), at, toks[at].parent)
    ensures at + Count(TreeAt(toks, length, at)) <= |toks|
  {
    OwnTrees(toks, length, at, |toks|);
    NodesLaid(toks, length, at + 1, EndOf(toks, at, at + 1, |toks|), at);
  }

  // There is no other tree laid out there.
  lemma {:induction false} LaidIsUnique(toks: seq<Token>, m: Node, n: Node, at: nat, parent: int)
    requires Laid(toks, m, at, parent) && Laid(toks, n, at, parent)
    ensures m == n
    decreases m, 1
  {
    LaidAllIsUnique(toks, m.kids, n.kids, at + 1, at);
  }

  lemma {:induction false} LaidAllIsUnique(toks: seq<Token>, ms: seq<Node>, ns: seq<Node>, at: nat, parent: int)
    requires LaidAll(toks, ms, at, parent) && LaidAll(toks, ns, at, parent) && |ms| == |ns|
    ensures ms == ns
    decreases ms, 0
  {
    if ms != [] {
      LaidIsUnique(toks, ms[0], ns[0], at, parent);
      LaidAllIsUnique(toks, ms[1..], ns[1..], at + Count(ms[0]), parent);
      assert ms == [ms[0]] + ms[1..] && ns == [ns[0]] + ns[1..];
    }
  }
}
