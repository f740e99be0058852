/**
 JSON text as the parser library hands it over: a tree (sections 4 and 5 of RFC 8259) laid
 out as a flat array of tokens in preorder. A member of an object is a string token of size 1,
 the key, whose only child is the value. A token's text is the slice [start, end) of the input.
 */
module JsonTokens {
  datatype Kind = Undefined | Object | Array | String | Primitive

  datatype Token = Token(kind: Kind, start: int, end: int, size: int, parent: int)

  datatype Node = Node(kind: Kind, start: nat, end: nat, kids: seq<Node>)

  predicate IsJson(n: Node, length: nat) {
    && n.start <= n.end <= length
    && match n.kind
       case Undefined => false
       case Object => forall i :: 0 <= i < |n.kids| ==> IsMember(n.kids[i], length)
       case Array => forall i :: 0 <= i < |n.kids| ==> IsJson(n.kids[i], length)
       case String => n.kids == []
       case Primitive => n.kids == []
  }

  predicate IsMember(m: Node, length: nat) {
    m.kind == String && m.start <= m.end <= length && |m.kids| == 1 && IsJson(m.kids[0], length)
  }

  // ---- Layout ----

  function Count(n: Node): nat
    decreases n, 1
  {
    1 + CountAll(n.kids)
  }

  function CountAll(kids: seq<Node>): nat
    decreases kids, 0
  {
    if kids == [] then 0 else Count(kids[0]) + CountAll(kids[1..])
  }

  function Encode(n: Node, at: nat, parent: int): (s: seq<Token>)
    ensures |s| == Count(n)
    decreases n, 1
  {
    [Token(n.kind, n.start, n.end, |n.kids|, parent)] + EncodeAll(n.kids, at + 1, at)
  }

  function EncodeAll(kids: seq<Node>, at: nat, parent: int): (s: seq<Token>)
    ensures |s| == CountAll(kids)
    decreases kids, 0
  {
    if kids == [] then []
    else Encode(kids[0], at, parent) + EncodeAll(kids[1..], at + Count(kids[0]), parent)
  }

  // The tokens from `at` on are those of `n`, whose parent token is `parent`.
  predicate Laid(toks: seq<Token>, n: Node, at: nat, parent: int)
    decreases n, 1
  {
    && at < |toks|
    && toks[at] == Token(n.kind, n.start, n.end, |n.kids|, parent)
    && LaidAll(toks, n.kids, at + 1, at)
  }

  predicate LaidAll(toks: seq<Token>, kids: seq<Node>, at: nat, parent: int)
    decreases kids, 0
  {
    kids == [] || (Laid(toks, kids[0], at, parent) && LaidAll(toks, kids[1..], at + Count(kids[0]), parent))
  }

  /** The encoding of a tree lays it out, wherever it is put. */
  lemma {:induction false} EncodeIsLaid(before: seq<Token>, n: Node, parent: int, after: seq<Token>)
    ensures Laid(before + Encode(n, |before|, parent) + after, n, |before|, parent)
    decreases n, 1
  {
    var head := [Token(n.kind, n.start, n.end, |n.kids|, parent)];
    EncodeAllIsLaid(before + head, n.kids, |before|, after);
    assert before + Encode(n, |before|, parent) + after
        == before + head + EncodeAll(n.kids, |before| + 1, |before|) + after;
  }

  lemma {:induction false} EncodeAllIsLaid(before: seq<Token>, kids: seq<Node>, parent: int, after: seq<Token>)
    ensures LaidAll(before + EncodeAll(kids, |before|, parent) + after, kids, |before|, parent)
    decreases kids, 0
  {
    if kids != [] {
      var first := Encode(kids[0], |before|, parent);
      var rest := EncodeAll(kids[1..], |before| + Count(kids[0]), parent);
      EncodeIsLaid(before, kids[0], parent, rest + after);
      EncodeAllIsLaid(before + first, kids[1..], parent, after);
      assert before + EncodeAll(kids, |before|, parent) + after == before + first + (rest + after);
      assert before + EncodeAll(kids, |before|, parent) + after == before + first + rest + after;
    }
  }

  // ---- Positions: a path of child numbers from the root ----

  function KidPos(n: Node, at: nat, i: nat): nat
    requires i <= |n.kids|
  {
    at + 1 + CountAll(n.kids[..i])
  }

  predicate IsPath(n: Node, path: seq<nat>) {
    path == [] || (path[0] < |n.kids| && IsPath(n.kids[path[0]], path[1..]))
  }

  function NodeAt(n: Node, path: seq<nat>): Node
    requires IsPath(n, path)
  {
    if path == [] then n else NodeAt(n.kids[path[0]], path[1..])
  }

  function PosAt(n: Node, at: nat, path: seq<nat>): nat
    requires IsPath(n, path)
  {
    if path == [] then at else PosAt(n.kids[path[0]], KidPos(n, at, path[0]), path[1..])
  }

  lemma {:induction false} CountSnoc(kids: seq<Node>, x: Node)
    ensures CountAll(kids + [x]) == CountAll(kids) + Count(x)
  {
    if kids != [] {
      CountSnoc(kids[1..], x);
      assert (kids + [x])[1..] == kids[1..] + [x];
    } else {
      assert kids + [x] == [x];
    }
  }

  lemma {:induction false} NextKidPos(n: Node, at: nat, i: nat)
    requires i < |n.kids|
    ensures KidPos(n, at, i + 1) == KidPos(n, at, i) + Count(n.kids[i])
  {
    CountSnoc(n.kids[..i], n.kids[i]);
    assert n.kids[..i + 1] == n.kids[..i] + [n.kids[i]];
  }

  lemma {:induction false} LaidFrom(toks: seq<Token>, n: Node, at: nat, parent: int, i: nat)
    requires Laid(toks, n, at, parent) && i <= |n.kids|
    ensures LaidAll(toks, n.kids[i..], KidPos(n, at, i), at)
  {
    if i == 0 {
      assert n.kids[..0] == [] && n.kids[0..] == n.kids;
    } else {
      LaidFrom(toks, n, at, parent, i - 1);
      NextKidPos(n, at, i - 1);
      assert n.kids[i - 1..][1..] == n.kids[i..];
    }
  }

  /** Each child of a laid-out node is laid out at its computed position, with the node as parent. */
  lemma {:induction false} LaidKid(toks: seq<Token>, n: Node, at: nat, parent: int, i: nat)
    requires Laid(toks, n, at, parent) && i < |n.kids|
    ensures Laid(toks, n.kids[i], KidPos(n, at, i), at)
  {
    LaidFrom(toks, n, at, parent, i);
  }

  lemma {:induction false} PathSnoc(n: Node, at: nat, path: seq<nat>, i: nat)
    requires IsPath(n, path)
    ensures IsPath(n, path + [i]) <==> i < |NodeAt(n, path).kids|
    ensures i < |NodeAt(n, path).kids| ==>
              && NodeAt(n, path + [i]) == NodeAt(n, path).kids[i]
              && PosAt(n, at, path + [i]) == KidPos(NodeAt(n, path), PosAt(n, at, path), i)
    decreases path
  {
    if path != [] {
      assert (path + [i])[1..] == path[1..] + [i];
      PathSnoc(n.kids[path[0]], KidPos(n, at, path[0]), path[1..], i);
    } else {
      assert path + [i] == [i];
    }
  }

  lemma {:induction false} PathFront(n: Node, path: seq<nat>)
    requires IsPath(n, path) && path != []
    ensures IsPath(n, path[..|path| - 1])
    decreases path
  {
    if |path| > 1 {
      PathFront(n.kids[path[0]], path[1..]);
      assert path[..|path| - 1][1..] == path[1..][..|path| - 2];
    }
  }

  // The token of the parent, -1 for the root
  function ParentPos(n: Node, path: seq<nat>): int
    requires IsPath(n, path)
  {
    if path == [] then -1 else PathFront(n, path); PosAt(n, 0, path[..|path| - 1])
  }

  lemma {:induction false} LaidAt(toks: seq<Token>, n: Node, path: seq<nat>)
    requires Laid(toks, n, 0, -1) && IsPath(n, path)
    ensures Laid(toks, NodeAt(n, path), PosAt(n, 0, path), ParentPos(n, path))
    decreases |path|
  {
    if path != [] {
      var front, i := path[..|path| - 1], path[|path| - 1];
      PathFront(n, path);
      LaidAt(toks, n, front);
      assert path == front + [i];
      PathSnoc(n, 0, front, i);
      LaidKid(toks, NodeAt(n, front), PosAt(n, 0, front), ParentPos(n, front), i);
    }
  }

  lemma {:induction false} JsonAt(n: Node, length: nat, path: seq<nat>, i: nat)
    requires IsPath(n, path) && IsJson(NodeAt(n, path), length)
    ensures NodeAt(n, path).kind == Array && i < |NodeAt(n, path).kids| ==>
              IsPath(n, path + [i]) && IsJson(NodeAt(n, path + [i]), length)
    ensures NodeAt(n, path).kind == Object && i < |NodeAt(n, path).kids| ==>
              IsPath(n, path + [i, 0]) && IsJson(NodeAt(n, path + [i, 0]), length)
              && |NodeAt(n, path).kids[i].kids| == 1 && NodeAt(n, path + [i, 0]) == NodeAt(n, path).kids[i].kids[0]
  {
    var m := NodeAt(n, path);
    PathSnoc(n, 0, path, i);
    if m.kind == Object && i < |m.kids| {
      assert IsMember(m.kids[i], length);
      PathSnoc(n, 0, path + [i], 0);
      assert path + [i] + [0] == path + [i, 0];
    }
  }
}
