/**
 Lookup and navigation over the tokens (`components/json_parser/json_parser.c`), as
 operations on the tree the tokens lay out.
 */
module JsonNav {
  import opened Common
  import opened JsonTokens

  // strncmp(js + start, str, strlen(str)) == 0, for a string without NUL
  predicate StartsWith(js: string, start: nat, str: string) {
    start + |str| <= |js| && js[start..start + |str|] == str
  }

  // token_matches_str
  predicate TokenMatches(js: string, tok: Token, str: string)
    requires 0 <= tok.start
  {
    StartsWith(js, tok.start, str) && |str| == tok.end - tok.start
  }

  function Text(js: string, n: Node): string
    requires n.start <= n.end <= |js|
  {
    js[n.start..n.end]
  }

  predicate IsKey(js: string, m: Node, key: string) {
    m.start <= m.end <= |js| && Text(js, m) == key
  }

  lemma {:induction false} MatchIsEquality(js: string, n: Node, at: nat, toks: seq<Token>, parent: int, str: string)
    requires Laid(toks, n, at, parent) && n.start <= n.end <= |js|
    ensures TokenMatches(js, toks[at], str) <==> Text(js, n) == str
  {
  }

  // The first member from number `from` on whose key is exactly `key`
  function FindMember(js: string, members: seq<Node>, key: string, from: nat): (r: Option<nat>)
    requires from <= |members|
    ensures r.Some? ==> from <= r.value < |members| && IsKey(js, members[r.value], key)
    ensures forall i :: from <= i < (if r.Some? then r.value else |members|) ==> !IsKey(js, members[i], key)
    decreases |members| - from
  {
    if from == |members| then None
    else if IsKey(js, members[from], key) then Some(from)
    else FindMember(js, members, key, from + 1)
  }

  // json_obj_search followed by the type check of json_obj_get_val_tok, as a child path
  function LookupMember(js: string, n: Node, key: string, kind: Kind): Option<seq<nat>> {
    if n.kind != Object then None
    else
      match FindMember(js, n.kids, key, 0)
      case None => None
      case Some(i) =>
        if |n.kids[i].kids| > 0 && n.kids[i].kids[0].kind == kind then Some([i, 0]) else None
  }

  // json_arr_get_val_tok
  function LookupElement(n: Node, index: nat, kind: Kind): Option<seq<nat>> {
    if n.kind == Array && index < |n.kids| && n.kids[index].kind == kind then Some([index]) else None
  }

  // Member number `i` is the first one with the key.
  predicate IsFirst(js: string, members: seq<Node>, key: string, i: nat) {
    i < |members| && IsKey(js, members[i], key) && forall j :: 0 <= j < i ==> !IsKey(js, members[j], key)
  }

  // The value of the first member with the key, which is number `i`, is of the kind.
  predicate HoldsAt(js: string, n: Node, key: string, kind: Kind, i: nat) {
    && n.kind == Object && IsFirst(js, n.kids, key, i)
    && |n.kids[i].kids| > 0 && n.kids[i].kids[0].kind == kind
  }

  predicate HasMember(js: string, n: Node, key: string, kind: Kind) {
    exists i :: 0 <= i < |n.kids| && HoldsAt(js, n, key, kind, i)
  }

  /** A member is found if and only if the node is an object and the first member with that very key has a value of that kind. */
  lemma {:induction false} LookupMemberIff(js: string, n: Node, key: string, kind: Kind)
    ensures LookupMember(js, n, key, kind).Some? <==> HasMember(js, n, key, kind)
    ensures forall i: nat :: HoldsAt(js, n, key, kind, i) ==> LookupMember(js, n, key, kind) == Some([i, 0])
  {
    var f := FindMember(js, n.kids, key, 0);
    assert forall i: nat :: IsFirst(js, n.kids, key, i) ==> f == Some(i);
    if LookupMember(js, n, key, kind).Some? {
      assert HoldsAt(js, n, key, kind, f.value);
    }
  }

  predicate HasElement(n: Node, index: nat, kind: Kind) {
    n.kind == Array && index < |n.kids| && n.kids[index].kind == kind
  }

  // ---- Cursor moves ----

  datatype Move =
    | EnterMember(key: string, kind: Kind)
    | EnterElement(index: nat, kind: Kind)
    | LeaveToObject      // json_obj_leave_array and json_obj_leave_object
    | LeaveToArray       // json_arr_leave_array and json_arr_leave_object

  predicate IsEnter(m: Move) {
    m.EnterMember? || m.EnterElement?
  }

  // On every path there is a value or the key of a member.
  lemma {:induction false} ValueOrKey(n: Node, length: nat, path: seq<nat>)
    requires IsPath(n, path) && (IsJson(n, length) || IsMember(n, length))
    ensures IsJson(NodeAt(n, path), length) || IsMember(NodeAt(n, path), length)
    decreases |path|
  {
    if path != [] {
      ValueOrKey(n.kids[path[0]], length, path[1..]);
    }
  }

  lemma {:induction false} MemberIsPath(js: string, root: Node, path: seq<nat>, key: string, kind: Kind)
    requires IsPath(root, path) && IsJson(root, |js|)
    requires LookupMember(js, NodeAt(root, path), key, kind).Some?
    ensures IsPath(root, path + LookupMember(js, NodeAt(root, path), key, kind).value)
  {
    ValueOrKey(root, |js|, path);
    JsonAt(root, |js|, path, FindMember(js, NodeAt(root, path).kids, key, 0).value);
  }

  lemma {:induction false} ElementIsPath(js: string, root: Node, path: seq<nat>, index: nat, kind: Kind)
    requires IsPath(root, path) && IsJson(root, |js|)
    requires LookupElement(NodeAt(root, path), index, kind).Some?
    ensures IsPath(root, path + LookupElement(NodeAt(root, path), index, kind).value)
  {
    ValueOrKey(root, |js|, path);
    JsonAt(root, |js|, path, index);
  }

  lemma {:induction false} PrefixIsPath(n: Node, path: seq<nat>, k: nat)
    requires IsPath(n, path) && k <= |path|
    ensures IsPath(n, path[..k])
    decreases |path|
  {
    if k < |path| {
      PathFront(n, path);
      PrefixIsPath(n, path[..|path| - 1], k);
      assert path[..|path| - 1][..k] == path[..k];
    } else {
      assert path[..k] == path;
    }
  }

  // What a call returns and where it leaves the cursor, as a path
  datatype Gone = Gone(ok: bool, path: seq<nat>)

  function Go(js: string, root: Node, path: seq<nat>, m: Move): (r: Gone)
    requires IsPath(root, path) && IsJson(root, |js|)
    ensures IsPath(root, r.path)
  {
    match m
    case EnterMember(key, kind) =>
      (match LookupMember(js, NodeAt(root, path), key, kind)
       case None => Gone(false, path)
       case Some(more) => MemberIsPath(js, root, path, key, kind); Gone(true, path + more))
    case EnterElement(index, kind) =>
      (match LookupElement(NodeAt(root, path), index, kind)
       case None => Gone(false, path)
       case Some(more) => ElementIsPath(js, root, path, index, kind); Gone(true, path + more))
    case LeaveToObject =>
      // a cursor directly below the root fails, but after its first hop
      if |path| < 2 then Gone(false, []) else PrefixIsPath(root, path, |path| - 2); Gone(true, path[..|path| - 2])
    case LeaveToArray =>
      if |path| < 1 then Gone(false, []) else PrefixIsPath(root, path, |path| - 1); Gone(true, path[..|path| - 1])
  }

  /**
   An enter succeeds if and only if the node at the cursor has such a member or element, and then
   leads to its value; if not, the cursor stays. A leave succeeds if and only if there is something
   to go back to, two steps to the object of a member and one to the array of an element.
   */
  lemma {:induction false} GoIff(js: string, root: Node, path: seq<nat>, key: string, index: nat, kind: Kind)
    requires IsPath(root, path) && IsJson(root, |js|)
    ensures var n, r := NodeAt(root, path), Go(js, root, path, EnterMember(key, kind));
      && (r.ok <==> HasMember(js, n, key, kind))
      && (!r.ok ==> r.path == path)
      && (forall i: nat :: HoldsAt(js, n, key, kind, i) ==>
            r.path == path + [i, 0] && NodeAt(root, r.path) == n.kids[i].kids[0])
    ensures var n, r := NodeAt(root, path), Go(js, root, path, EnterElement(index, kind));
      && (r.ok <==> HasElement(n, index, kind))
      && (if r.ok then r.path == path + [index] && NodeAt(root, r.path) == n.kids[index] else r.path == path)
    ensures Go(js, root, path, LeaveToArray) == if path == [] then Gone(false, []) else Gone(true, path[..|path| - 1])
    ensures Go(js, root, path, LeaveToObject) == if |path| < 2 then Gone(false, []) else Gone(true, path[..|path| - 2])
  {
    var n := NodeAt(root, path);
    LookupMemberIff(js, n, key, kind);
    ValueOrKey(root, |js|, path);
    forall i: nat | HoldsAt(js, n, key, kind, i)
      ensures NodeAt(root, Go(js, root, path, EnterMember(key, kind)).path) == n.kids[i].kids[0]
    {
      JsonAt(root, |js|, path, i);
    }
    PathSnoc(root, 0, path, index);
  }

  // ---- Round trips ----

  predicate Succeeds(js: string, root: Node, path: seq<nat>, moves: seq<Move>)
    requires IsPath(root, path) && IsJson(root, |js|)
    decreases |moves|
  {
    moves == [] || (Go(js, root, path, moves[0]).ok && Succeeds(js, root, Go(js, root, path, moves[0]).path, moves[1..]))
  }

  function GoAll(js: string, root: Node, path: seq<nat>, moves: seq<Move>): (r: seq<nat>)
    requires IsPath(root, path) && IsJson(root, |js|)
    ensures IsPath(root, r)
    decreases |moves|
  {
    if moves == [] then path else GoAll(js, root, Go(js, root, path, moves[0]).path, moves[1..])
  }

  // Every leave undoes the last enter not undone yet; `stack` holds the enters made before.
  predicate Bracketed(moves: seq<Move>, stack: seq<Move>)
    decreases |moves|
  {
    if moves == [] then stack == []
    else if IsEnter(moves[0]) then Bracketed(moves[1..], [moves[0]] + stack)
    else stack != [] && moves[0].LeaveToObject? == stack[0].EnterMember? && Bracketed(moves[1..], stack[1..])
  }

  // Path elements added by the enters on the stack: key and value, or one array element
  function Depth(stack: seq<Move>): nat {
    if stack == [] then 0 else (if stack[0].EnterMember? then 2 else 1) + Depth(stack[1..])
  }

  lemma {:induction false} UnwindsStack(js: string, root: Node, path: seq<nat>, moves: seq<Move>, stack: seq<Move>)
    requires IsPath(root, path) && IsJson(root, |js|)
    requires Bracketed(moves, stack) && Depth(stack) <= |path|
    requires Succeeds(js, root, path, moves)
    ensures GoAll(js, root, path, moves) == path[..|path| - Depth(stack)]
    decreases |moves|
  {
    if moves != [] {
      var next := Go(js, root, path, moves[0]).path;
      if IsEnter(moves[0]) {
        assert ([moves[0]] + stack)[1..] == stack;
        UnwindsStack(js, root, next, moves[1..], [moves[0]] + stack);
        assert next[..|path|] == path;
        assert next[..|path| - Depth(stack)] == path[..|path| - Depth(stack)];
      } else {
        UnwindsStack(js, root, next, moves[1..], stack[1..]);
        assert next[..|path| - Depth(stack)] == path[..|path| - Depth(stack)];
      }
    }
  }

  /** Any well-bracketed sequence of successful enters and leaves brings the cursor back to its token. */
  lemma {:induction false} RoundTrip(js: string, root: Node, path: seq<nat>, moves: seq<Move>)
    requires IsPath(root, path) && IsJson(root, |js|)
    requires Bracketed(moves, []) && Succeeds(js, root, path, moves)
    ensures GoAll(js, root, path, moves) == path
  {
    UnwindsStack(js, root, path, moves, []);
  }

  // The enters not undone yet after a move
  function Pending(m: Move, stack: seq<Move>): seq<Move>
    requires IsEnter(m) || stack != []
  {
    if IsEnter(m) then [m] + stack else stack[1..]
  }

  // The move of a well-bracketed sequence goes with the enters made before.
  predicate Matches(m: Move, stack: seq<Move>) {
    IsEnter(m) || (stack != [] && (m.LeaveToObject? <==> stack[0].EnterMember?))
  }

  lemma {:induction false} MoveKeepsDepth(js: string, root: Node, path: seq<nat>, m: Move, stack: seq<Move>)
    requires IsPath(root, path) && IsJson(root, |js|) && Go(js, root, path, m).ok
    requires Matches(m, stack) && Depth(stack) <= |path|
    ensures Depth(Pending(m, stack)) <= |Go(js, root, path, m).path|
  {
    if IsEnter(m) {
      assert Pending(m, stack)[1..] == stack;
    }
  }

  lemma {:induction false} MatchedLeaveIsOk(js: string, root: Node, path: seq<nat>, m: Move, stack: seq<Move>)
    requires IsPath(root, path) && IsJson(root, |js|)
    requires !IsEnter(m) && Matches(m, stack) && Depth(stack) <= |path|
    ensures Go(js, root, path, m).ok
  {
  }

  /** In a well-bracketed sequence a leave never fails. */
  lemma {:induction false} LeavesSucceed(js: string, root: Node, path: seq<nat>, moves: seq<Move>, stack: seq<Move>, k: nat)
    requires IsPath(root, path) && IsJson(root, |js|)
    requires Bracketed(moves, stack) && Depth(stack) <= |path|
    requires k < |moves| && !IsEnter(moves[k]) && Succeeds(js, root, path, moves[..k])
    ensures Go(js, root, GoAll(js, root, path, moves[..k]), moves[k]).ok
    decreases |moves|
  {
    if k == 0 {
      MatchedLeaveIsOk(js, root, path, moves[0], stack);
    } else {
      assert moves[..k][0] == moves[0] && moves[..k][1..] == moves[1..][..k - 1];
      MoveKeepsDepth(js, root, path, moves[0], stack);
      LeavesSucceed(js, root, Go(js, root, path, moves[0]).path, moves[1..], Pending(moves[0], stack), k - 1);
    }
  }
}

/**
 The parser context in the form the source has: a cursor moved by its methods. It is modelled for
 the tokens of any text that the tokenizer accepts; on those of a JSON text the walks are lookups
 in its tree.
 */
module JsonContext {
  import opened Common
  import opened JsonTokens
  import opened JsonNav
  import opened JsonForest

  // json_skip_elem: the last token of the element at `cur`
  method SkipElem(tokens: seq<Token>, cur: nat, ghost n: Node, ghost parent: int) returns (last: nat)
    requires Laid(tokens, n, cur, parent)
    ensures last == cur + Count(n) - 1
    decreases n
  {
    last := cur;
    var cnt := tokens[cur].size;
    ghost var k := 0;
    assert n.kids[..0] == [];
    while cnt != 0
      invariant 0 <= k <= |n.kids| && cnt == |n.kids| - k
      invariant last + 1 == KidPos(n, cur, k)
      decreases cnt
    {
      cnt := cnt - 1;
      last := last + 1;
      LaidKid(tokens, n, cur, parent, k);
      NextKidPos(n, cur, k);
      last := SkipElem(tokens, last, n.kids[k], cur);
      k := k + 1;
    }
    assert n.kids[..k] == n.kids;
  }

  class Context {
    const js: string
    const tokens: seq<Token>
    var cur: nat
    ghost const root: Node
    ghost var path: seq<nat>

    // The tokens are those of a text that has been accepted, and the cursor is at one of them.
    ghost predicate Held()
      reads `cur
    {
      IsForest(tokens, |js|) && cur < |tokens|
    }

    // The text is JSON, and the cursor is at the node of its tree that `path` leads to.
    ghost predicate Valid()
      reads `cur, `path
    {
      && Held() && Laid(tokens, root, 0, -1) && IsJson(root, |js|)
      && IsPath(root, path) && cur == PosAt(root, 0, path)
    }

    ghost function Here(): Node
      reads `path
      requires IsPath(root, path)
    {
      NodeAt(root, path)
    }

    // The tree below the cursor
    ghost function Below(): Node
      requires Held()
      reads `cur
    {
      TreeAt(tokens, |js|, cur)
    }

    lemma {:induction false} BelowIsLaid()
      requires Held()
      ensures Laid(tokens, Below(), cur, tokens[cur].parent) && cur + Count(Below()) <= |tokens|
      ensures forall i :: 0 <= i < |Below().kids| ==> cur < KidPos(Below(), cur, i) < |tokens|
    {
      TreeIsLaid(tokens, |js|, cur);
      forall i | 0 <= i < |Below().kids| ensures cur < KidPos(Below(), cur, i) < |tokens| {
        LaidKid(tokens, Below(), cur, tokens[cur].parent, i);
      }
    }

    lemma {:induction false} HereIsBelow()
      requires Valid()
      ensures Here() == Below() && (IsJson(Here(), |js|) || IsMember(Here(), |js|))
    {
      LaidAt(tokens, root, path);
      ValueOrKey(root, |js|, path);
      BelowIsLaid();
      LaidIsUnique(tokens, Here(), Below(), cur, tokens[cur].parent);
    }

    // json_parse_start, after the parser has laid out the tokens
    constructor (js: string, tokens: seq<Token>, ghost root: Node)
      requires IsForest(tokens, |js|) && tokens != []
      ensures Held() && cur == 0 && path == []
      ensures Laid(tokens, root, 0, -1) && IsJson(root, |js|) ==> Valid()
      ensures this.js == js && this.tokens == tokens && this.root == root
    {
      this.js := js;
      this.tokens := tokens;
      this.root := root;
      cur := 0;
      path := [];
    }

    // The member of the node at the cursor that has the key
    ghost function Found(key: string): (r: Option<nat>)
      requires Held()
      reads `cur
      ensures r.Some? ==> r.value < |Below().kids|
    {
      if Below().kind == Object then FindMember(js, Below().kids, key, 0) else None
    }

    // json_obj_search: the key token of the first matching member
    method ObjSearch(key: string) returns (r: Option<nat>)
      requires Held()
      ensures r == match Found(key)
                   case None => None
                   case Some(i) => Some(KidPos(Below(), cur, i))
      ensures r.Some? ==> cur < r.value < |tokens|
    {
      ghost var n := Below();
      BelowIsLaid();
      var size := tokens[cur].size;
      if size <= 0 || tokens[cur].kind != Object {
        return None;
      }
      var tok := cur;
      ghost var k := 0;
      assert n.kids[..0] == [];
      while size != 0
        invariant 0 <= k <= |n.kids| && size == |n.kids| - k
        invariant tok + 1 == KidPos(n, cur, k)
        invariant FindMember(js, n.kids, key, 0) == FindMember(js, n.kids, key, k)
        decreases size
      {
        size := size - 1;
        tok := tok + 1;
        LaidKid(tokens, n, cur, tokens[cur].parent, k);
        assert !JsonParse.IsOpen(tokens[tok]);
        MatchIsEquality(js, n.kids[k], tok, tokens, cur, key);
        if TokenMatches(js, tokens[tok], key) {
          return Some(tok);
        }
        NextKidPos(n, cur, k);
        tok := SkipElem(tokens, tok, n.kids[k], cur);
        k := k + 1;
      }
      return None;
    }

    // Where the source looks for the value of the member with the key
    ghost function AfterKey(key: string): (r: Option<nat>)
      requires Held()
      reads `cur
      ensures r.Some? ==> cur < r.value <= |tokens|
    {
      BelowIsLaid();
      match Found(key)
      case None => None
      case Some(i) => Some(KidPos(Below(), cur, i) + 1)
    }

    // The key is the last of all tokens: in a JSON text, never.
    ghost predicate EndsAtKey(key: string)
      requires Held()
      reads `cur
    {
      AfterKey(key) == Some(|tokens|)
    }

    lemma {:induction false} MemberHasValue(key: string)
      requires Valid() && Found(key).Some?
      ensures var i := Found(key).value;
        && Here() == Below() && |Here().kids[i].kids| == 1
        && IsPath(root, path + [i, 0]) && AfterKey(key) == Some(PosAt(root, 0, path + [i, 0]))
        && !EndsAtKey(key) && tokens[AfterKey(key).value].kind == Here().kids[i].kids[0].kind
    {
      HereIsBelow();
      var i := Found(key).value;
      JsonAt(root, |js|, path, i);
      assert path + [i] + [0] == path + [i, 0];
      PathSnoc(root, 0, path, i);
      PathSnoc(root, 0, path + [i], 0);
      LaidAt(tokens, root, path + [i, 0]);
      assert Here().kids[i].kids[..0] == [];
    }

    // json_obj_get_val_tok: the token after the key of the first matching member, if it has the
    // type asked for. `inside` is false if the source looks past the last token for it.
    method ObjGetValTok(key: string, kind: Kind) returns (inside: bool, r: Option<nat>)
      requires Held()
      ensures inside <==> !EndsAtKey(key)
      ensures r == if inside && AfterKey(key).Some? && tokens[AfterKey(key).value].kind == kind then AfterKey(key) else None
      ensures Valid() ==> inside
      ensures Valid() ==> (r.Some? <==> LookupMember(js, Here(), key, kind).Some?)
      ensures Valid() && r.Some? ==> var more := LookupMember(js, Here(), key, kind).value;
                                     IsPath(root, path + more) && r.value == PosAt(root, 0, path + more)
    {
      if Valid() {
        HereIsBelow();
        if Found(key).Some? {
          MemberHasValue(key);
        }
      }
      var m := ObjSearch(key);
      if m.None? {
        return true, None;
      }
      var tok := m.value + 1;
      if tok >= |tokens| {
        return false, None;
      }
      if tokens[tok].kind != kind {
        return true, None;
      }
      return true, Some(tok);
    }

    // json_arr_search: exactly the element asked for
    method ArrSearch(index: nat) returns (r: Option<nat>)
      requires Held()
      ensures r.Some? <==> Below().kind == Array && index < |Below().kids|
      ensures r.Some? ==> r.value == KidPos(Below(), cur, index) < |tokens|
      ensures Valid() ==> Here() == Below()
    {
      if Valid() {
        HereIsBelow();
      }
      ghost var n := Below();
      BelowIsLaid();
      if tokens[cur].kind != Array || tokens[cur].size <= 0 {
        return None;
      }
      if index > tokens[cur].size - 1 {
        return None;
      }
      var tok := cur + 1;
      var left := index;
      ghost var k := 0;
      assert n.kids[..0] == [];
      while left != 0
        invariant 0 <= k <= index && left == index - k
        invariant tok == KidPos(n, cur, k)
      {
        left := left - 1;
        LaidKid(tokens, n, cur, tokens[cur].parent, k);
        NextKidPos(n, cur, k);
        tok := SkipElem(tokens, tok, n.kids[k], cur);
        tok := tok + 1;
        k := k + 1;
      }
      return Some(tok);
    }

    // json_arr_get_val_tok
    method ArrGetValTok(index: nat, kind: Kind) returns (r: Option<nat>)
      requires Held()
      ensures r.Some? <==> LookupElement(Below(), index, kind).Some?
      ensures r.Some? ==> r.value == KidPos(Below(), cur, index) < |tokens|
      ensures Valid() ==> Here() == Below()
      ensures Valid() && r.Some? ==> IsPath(root, path + [index]) && r.value == PosAt(root, 0, path + [index])
    {
      var tok := ArrSearch(index);
      if tok.None? {
        return None;
      }
      BelowIsLaid();
      LaidKid(tokens, Below(), cur, tokens[cur].parent, index);
      if Valid() {
        PathSnoc(root, 0, path, index);
      }
      if tokens[tok.value].kind != kind {
        return None;
      }
      return tok;
    }

    // json_obj_get_array and json_obj_get_object; `size` is the element count the former reports
    method ObjEnter(key: string, kind: Kind) returns (inside: bool, ok: bool, size: int)
      requires Held()
      modifies this
      ensures Held() && (inside <==> !old(EndsAtKey(key))) && (ok ==> inside)
      ensures ok <==> inside && old(AfterKey(key)).Some? && tokens[old(AfterKey(key)).value].kind == kind
      ensures ok ==> old(AfterKey(key)) == Some(cur) && tokens[cur].kind == kind
      ensures !ok ==> cur == old(cur) && path == old(path)
      ensures old(Valid()) ==> inside && Valid() && Gone(ok, path) == Go(js, root, old(path), EnterMember(key, kind))
      ensures old(Valid()) ==> (ok <==> LookupMember(js, old(Here()), key, kind).Some?)
      ensures ok ==> size == tokens[cur].size == |Below().kids|
    {
      size := 0;
      var tok;
      inside, tok := ObjGetValTok(key, kind);
      if tok.None? {
        return inside, false, size;
      }
      if Valid() {
        path := path + LookupMember(js, Here(), key, kind).value;
      }
      cur := tok.value;
      BelowIsLaid();
      return inside, true, tokens[cur].size;
    }

    // json_arr_get_array and json_arr_get_object
    method ArrEnter(index: nat, kind: Kind) returns (ok: bool)
      requires Held()
      modifies this
      ensures Held()
      ensures ok <==> HasElement(old(Below()), index, kind)
      ensures ok ==> cur == KidPos(old(Below()), old(cur), index)
      ensures !ok ==> cur == old(cur) && path == old(path)
      ensures old(Valid()) ==> Valid() && Gone(ok, path) == Go(js, root, old(path), EnterElement(index, kind))
      ensures old(Valid()) ==> (ok <==> HasElement(old(Here()), index, kind))
    {
      var tok := ArrGetValTok(index, kind);
      if tok.None? {
        return false;
      }
      if Valid() {
        path := path + [index];
      }
      cur := tok.value;
      return true;
    }

    // json_arr_leave_array and json_arr_leave_object
    method ArrLeave() returns (ok: bool)
      requires Held()
      modifies this
      ensures Held()
      ensures ok <==> tokens[old(cur)].parent >= 0
      ensures cur == if ok then tokens[old(cur)].parent else old(cur)
      ensures old(Valid()) ==> Valid() && Gone(ok, path) == Go(js, root, old(path), LeaveToArray)
    {
      if Valid() {
        LaidAt(tokens, root, path);
      }
      if tokens[cur].parent < 0 {
        return false;
      }
      if Valid() {
        PathFront(root, path);
        path := path[..|path| - 1];
      }
      cur := tokens[cur].parent;
      return true;
    }

    // json_obj_leave_array and json_obj_leave_object: one hop to the key, one to the object
    method ObjLeave() returns (ok: bool)
      requires Held()
      modifies this
      ensures Held()
      ensures var up := tokens[old(cur)].parent;
              && (ok <==> up >= 0 && up < |tokens| && tokens[up].parent >= 0)
              && cur == if up < 0 || up >= |tokens| then old(cur) else if tokens[up].parent < 0 then up else tokens[up].parent
      ensures old(Valid()) ==> Valid() && Gone(ok, path) == Go(js, root, old(path), LeaveToObject)
    {
      ok := ArrLeave();
      if ok {
        ok := ArrLeave();
      }
    }

    // json_obj_get_string: the text of the member's value and a terminator, if they fit in the
    // size that the caller gives for its buffer
    method ObjGetString(key: string, val: array<char>, size: int) returns (inside: bool, ok: bool)
      requires Held() && size <= val.Length
      modifies val
      ensures (inside <==> !EndsAtKey(key)) && (Valid() ==> inside)
      ensures Valid() ==>
              var r := LookupMember(js, Here(), key, String);
              if r.None? then !ok else
                IsPath(root, path + r.value) &&
                var n := NodeAt(root, path + r.value);
                n.start <= n.end <= |js| &&
                Wrote(ok, Text(js, n), size, val[..], old(val[..]))
      ensures if !inside || AfterKey(key).None? || tokens[AfterKey(key).value].kind != String then !ok
              else var tok := tokens[AfterKey(key).value];
                   0 <= tok.start <= tok.end <= |js| && Wrote(ok, js[tok.start..tok.end], size, val[..], old(val[..]))
      ensures !ok ==> val[..] == old(val[..])
    {
      var tok;
      inside, tok := ObjGetValTok(key, String);
      if tok.None? {
        return inside, false;
      }
      if Valid() {
        var p := path + LookupMember(js, Here(), key, String).value;
        LaidAt(tokens, root, p);
      }
      assert !JsonParse.IsOpen(tokens[tok.value]);
      ok := TokToString(tokens[tok.value], val, size);
    }

    // json_tok_to_string
    method TokToString(tok: Token, val: array<char>, size: int) returns (ok: bool)
      requires 0 <= tok.start <= tok.end <= |js| && size <= val.Length
      modifies val
      ensures Wrote(ok, js[tok.start..tok.end], size, val[..], old(val[..]))
      ensures !ok ==> val[..] == old(val[..])
    {
      var length := tok.end - tok.start;
      if length > size - 1 {
        return false;
      }
      forall i | 0 <= i < length {
        val[i] := js[tok.start + i];
      }
      val[length] := 0 as char;
      return true;
    }
  }

  // The text and a terminator are at the front of the buffer, and the rest is as it was, if and
  // only if they fit.
  predicate Wrote(ok: bool, text: string, size: int, val: string, before: string) {
    && ok == (|text| < size)
    && (ok ==> size <= |val| == |before| && val == text + [0 as char] + before[|text| + 1..])
  }
}
