/** The texts that the tokenizer rejects, and with which error. */
module JsonReject {
  import opened JsonTokens
  import opened JsonText
  import opened JsonParse
  import JsonForest

  // ------------------------------------------------------------------ strings and primitives

  // A string that is not ended by `end`, but so far well formed
  predicate Plain(js: string, i: nat, end: nat)
    requires end <= |js|
    decreases end - i
  {
    if i >= end then i == end
    else if js[i] == '\\' then
      i + 1 < end &&
      if js[i + 1] == 'u' then
        && i + 6 <= end
        && IsHexDigit(js[i + 2]) && IsHexDigit(js[i + 3]) && IsHexDigit(js[i + 4]) && IsHexDigit(js[i + 5])
        && Plain(js, i + 6, end)
      else IsEscape(js[i + 1]) && Plain(js, i + 2, end)
    else js[i] != '\"' && js[i] != NUL && Plain(js, i + 1, end)
  }

  // After hexadecimal digits from `i` on there is none at `k`.
  predicate BadDigit(js: string, i: nat, k: nat) {
    i <= k < |js| && !IsHexDigit(js[k]) && js[k] != NUL && forall d :: i <= d < k ==> IsHexDigit(js[d])
  }

  // The next `n` characters are not all hexadecimal digits.
  predicate BadHex(js: string, i: nat, n: nat) {
    exists k :: i <= k < i + n && BadDigit(js, i, k)
  }

  predicate BadEscape(js: string, i: nat) {
    && i + 1 < |js| && js[i] == '\\'
    && if js[i + 1] == 'u' then BadHex(js, i + 2, 4) else !IsEscape(js[i + 1])
  }

  lemma {:induction false} HexEnds(js: string, i: nat, n: nat)
    requires i <= |js| && n <= 4
    ensures HexEnd(js, i, n) == At(i + n) <==> i + n <= |js| && forall d :: i <= d < i + n ==> IsHexDigit(js[d])
    ensures HexEnd(js, i, n).Bad? ==> HexEnd(js, i, n).err == INVAL
    ensures HexEnd(js, i, n).Bad? <==> BadHex(js, i, n)
    ensures HexEnd(js, i, n).At? && HexEnd(js, i, n).pos != i + n ==>
      HexEnd(js, i, n).pos == |js| || js[HexEnd(js, i, n).pos] == NUL
    decreases n
  {
    if n > 0 && i < |js| && js[i] != NUL {
      if IsHexDigit(js[i]) {
        HexEnds(js, i + 1, n - 1);
        if BadHex(js, i + 1, n - 1) {
          var k :| i < k < i + n && BadDigit(js, i + 1, k);
          assert BadDigit(js, i, k);
        }
        if BadHex(js, i, n) {
          var k :| i <= k < i + n && BadDigit(js, i, k);
          assert BadDigit(js, i + 1, k);
        }
      } else {
        assert BadDigit(js, i, i);
      }
    }
  }

  // What the scan makes of an escape that begins at `i`
  lemma {:induction false} EscapeEnds(js: string, i: nat)
    requires i + 1 < |js| && js[i] == '\\'
    ensures EscapeEnd(js, i + 1).Bad? <==> BadEscape(js, i)
    ensures EscapeEnd(js, i + 1).Bad? ==> EscapeEnd(js, i + 1).err == INVAL
  {
    HexEnds(js, i + 2, 4);
  }

  /** The scan of a string ends at a quote if and only if that ends a well-formed string. */
  lemma {:induction false} StringEndIff(js: string, i: nat, end: nat)
    requires i <= end < |js|
    ensures StringEnd(js, i) == At(end) <==> StringBody(js, i, end)
    decreases end - i
  {
    if StringBody(js, i, end) {
      StringEnds(js, i, end);
    } else if i < end && js[i] == '\\' && i + 1 < |js| {
      var k := EscapeEnd(js, i + 1);
      HexEnds(js, i + 2, 4);
      if k.At? && k.pos <= end {
        StringEndIff(js, k.pos, end);
      }
    } else if i < end && js[i] != '\"' {
      StringEndIff(js, i + 1, end);
    }
  }

  /** It fails with INVAL if and only if it comes to a bad escape, and with PART if it comes to the end of the text. */
  lemma {:induction false} StringBadIff(js: string, i: nat)
    requires i <= |js|
    ensures StringEnd(js, i) == Bad(INVAL) <==> exists j :: i <= j < |js| && Plain(js, i, j) && BadEscape(js, j)
    ensures StringEnd(js, i).Bad? ==> StringEnd(js, i).err == INVAL || StringEnd(js, i).err == PART
    decreases |js| - i
  {
    if i < |js| && js[i] != NUL && js[i] != '\"' {
      var next := i + 1;
      if js[i] == '\\' && i + 1 < |js| {
        EscapeEnds(js, i);
        HexEnds(js, i + 2, 4);
        if BadEscape(js, i) {
          assert Plain(js, i, i);
          return;
        }
        next := EscapeEnd(js, i + 1).pos;
      }
      StringBadIff(js, next);
      forall j | next <= j < |js| && Plain(js, next, j) && BadEscape(js, j) ensures Plain(js, i, j) {
      }
      forall j | i <= j < |js| && Plain(js, i, j) && BadEscape(js, j) ensures next <= j && Plain(js, next, j) {
      }
    }
  }

  /** A primitive ends at the first separator if only characters of primitives come before it. */
  lemma {:induction false} PrimitiveEndIff(js: string, i: nat, end: nat)
    requires i <= end < |js|
    ensures PrimitiveEnd(js, i) == At(end)
            <==> EndsPrimitive(js[end]) && forall k :: i <= k < end ==> InPrimitive(js[k])
    decreases end - i
  {
    if i < end && InPrimitive(js[i]) {
      PrimitiveEndIff(js, i + 1, end);
    }
  }

  // A character that no primitive has stands at `k`, after some that are of a primitive.
  predicate BadCharacter(js: string, i: nat, k: nat) {
    && i <= k < |js| && !InPrimitive(js[k]) && !EndsPrimitive(js[k]) && js[k] != NUL
    && forall d :: i <= d < k ==> InPrimitive(js[d])
  }

  ghost predicate HasBadCharacter(js: string, i: nat) {
    exists k :: BadCharacter(js, i, k)
  }

  /** The scan fails with INVAL if and only if it comes to a character that no primitive has, and otherwise with PART. */
  lemma {:induction false} PrimitiveBadIff(js: string, i: nat)
    requires i <= |js|
    ensures PrimitiveEnd(js, i) == Bad(INVAL) <==> HasBadCharacter(js, i)
    ensures PrimitiveEnd(js, i).Bad? ==> PrimitiveEnd(js, i).err == INVAL || PrimitiveEnd(js, i).err == PART
    decreases |js| - i
  {
    if i < |js| && js[i] != NUL && !EndsPrimitive(js[i]) {
      if InPrimitive(js[i]) {
        PrimitiveBadIff(js, i + 1);
        if HasBadCharacter(js, i + 1) {
          var k :| BadCharacter(js, i + 1, k);
          assert BadCharacter(js, i, k);
        }
        if HasBadCharacter(js, i) {
          var k :| BadCharacter(js, i, k);
          assert BadCharacter(js, i + 1, k);
        }
      } else {
        assert BadCharacter(js, i, i);
      }
    }
  }

  // -------------------------------------------------------------- brackets, keys and values

  predicate Stuck(js: string, p: Parser) {
    Valid(p) && p.pos < |js| && js[p.pos] != NUL
  }

  // With room for `need` tokens or more, the parser at `p` comes to one whose round fails with the error.
  ghost predicate Fails(js: string, need: nat, p: Parser, err: int) {
    Valid(p) && p.pos <= |js| && exists q :: FailsAt(js, need, p, err, q)
  }

  ghost predicate FailsAt(js: string, need: nat, p: Parser, err: int, q: Parser) {
    Leads(js, need, p, q) && Stuck(js, q) && forall cap: nat :: Round(js, cap, q) == Stop(err)
  }

  // Then it ends with the error.
  lemma {:induction false} FailsToEnd(js: string, need: nat, p: Parser, err: int, cap: nat)
    requires Fails(js, need, p, err) && need <= cap
    ensures Rounds(js, cap, p) == Stop(err)
  {
    var q :| FailsAt(js, need, p, err, q);
    LeadsToEnd(js, need, p, q, cap);
    assert Round(js, cap, q) == Stop(err);
  }

  lemma {:induction false} LeadsToFailure(js: string, need: nat, p: Parser, q: Parser, err: int)
    requires Leads(js, need, p, q) && Fails(js, need, q, err)
    ensures Fails(js, need, p, err)
  {
    var r :| FailsAt(js, need, q, err, r);
    LeadsOn(js, need, p, q, r);
    assert FailsAt(js, need, p, err, r);
  }

  lemma {:induction false} RoundFails(js: string, need: nat, p: Parser, err: int)
    requires Stuck(js, p)
    requires forall cap: nat :: Round(js, cap, p) == Stop(err)
    ensures Fails(js, need, p, err)
  {
    LeadsNowhere(js, need, p);
    assert FailsAt(js, need, p, err, p);
  }

  // No token begins with the character, and nothing else is made of it.
  predicate Stray(c: char) {
    && c != '{' && c != '[' && c != '}' && c != ']' && c != '\"' && c != ':' && c != ','
    && !IsSpace(c) && !StartsPrimitive(c) && c != NUL
  }

  // What goes wrong after the elements or members that a container begins with
  datatype Fault =
    | WrongBracket                       // the closing bracket of the other kind
    | PrimitiveAsKey                     // a number or literal where a key is due
    | SecondValue                        // a number or literal after the value of a member
    | StrayCharacter
    | InElement(rest: Broken)            // the next element is a broken container
    | InMember(key: Node, rest: Broken)  // the value of the next member is

  // The container `n` as if it ended where the fault comes in its own text or in an inner one
  datatype Broken = Broken(n: Node, fault: Fault)

  predicate CommaOrFirst(js: string, n: Node)
    requires 0 < n.end <= |js|
  {
    n.kids == [] || js[n.end - 1] == ','
  }

  // Where the next element or member begins, after the comma if there is one
  function NextAt(js: string, n: Node): (i: nat)
    requires 0 < n.end <= |js|
    ensures i <= |js|
  {
    if n.kids == [] then n.end - 1 else SkipSpace(js, n.end)
  }

  predicate IsBroken(js: string, b: Broken, from: nat)
    decreases b
  {
    && Content(js, b.n, from)
    && var to, next := b.n.end - 1, NextAt(js, b.n);
    match b.fault
    case WrongBracket => js[to] == if b.n.kind == Object then ']' else '}'
    case PrimitiveAsKey =>
      b.n.kind == Object && CommaOrFirst(js, b.n) && next < |js| && StartsPrimitive(js[next])
    case SecondValue => b.n.kind == Object && b.n.kids != [] && StartsPrimitive(js[to])
    case StrayCharacter => Stray(js[to])
    case InElement(rest) => b.n.kind == Array && CommaOrFirst(js, b.n) && IsBroken(js, rest, next)
    case InMember(key, rest) =>
      && b.n.kind == Object && CommaOrFirst(js, b.n)
      && KeyAndColon(js, key, next) && IsBroken(js, rest, ValueAt(js, key))
  }

  // The tokens that are stored before the fault is come to
  function Tokens(b: Broken): nat
    decreases b
  {
    Count(b.n) + match b.fault
                 case InElement(rest) => Tokens(rest)
                 case InMember(_, rest) => 1 + Tokens(rest)
                 case _ => 0
  }

  lemma {:induction false} FilledState(p: Parser, n: Node, sup: int)
    requires Valid(p) && n.end > 0
    ensures var q, a := Filled(p, n, sup), |p.toks|;
      |q.toks| == a + Count(n) && q.toks[a].kind == n.kind && IsOpen(Token(n.kind, n.start, -1, |n.kids|, p.sup))
  {
  }

  lemma {:induction false} WrongBracketFails(js: string, need: nat, n: Node, p: Parser, sup: int)
    requires Valid(p) && 0 < n.end <= |js| && Valid(Filled(p, n, sup))
    requires (n.kind == Array && js[n.end - 1] == '}') || (n.kind == Object && js[n.end - 1] == ']')
    ensures Fails(js, need, Filled(p, n, sup), INVAL)
  {
    var a := |p.toks|;
    var x, t, y := Bump(p.toks, p.sup), Token(n.kind, n.start, -1, |n.kids|, p.sup), EncodeAll(n.kids, a + 1, a);
    var q := Filled(p, n, sup);
    EncodeAllHangs(n.kids, a + 1, a);
    FindsOpen(x, t, y, |q.toks| - 1);
    assert q.toks[a] == t;
    RoundFails(js, need, q, INVAL);
  }

  lemma {:induction false} PrimitiveFails(js: string, need: nat, p: Parser)
    requires Valid(p) && p.pos < |js| && StartsPrimitive(js[p.pos]) && !TakesPrimitive(p)
    ensures Fails(js, need, p, INVAL)
  {
    RoundFails(js, need, p, INVAL);
  }

  // From the end of the content on to where the next element or member begins
  lemma {:induction false} NextRounds(js: string, need: nat, n: Node, p: Parser, sup: int) returns (r: Parser)
    requires Valid(p) && 0 < n.end <= |js| && CommaOrFirst(js, n)
    requires var q, a := Filled(p, n, sup), |p.toks|;
      && Valid(q) && q.toks[a].kind == n.kind
      && (n.kind == Array || n.kids == [] ==> sup == a)
      && (n.kind == Object && n.kids != [] ==> AtKey(q, a))
      && (n.kind == Array || n.kind == Object)
    ensures r == Parser(NextAt(js, n), Filled(p, n, sup).toks, |p.toks|)
    ensures Leads(js, need, Filled(p, n, sup), r)
  {
    var q, a := Filled(p, n, sup), |p.toks|;
    r := q;
    LeadsNowhere(js, need, q);
    if n.kids != [] {
      r := Parser(n.end, q.toks, a);
      CommaRound(js, need, q, a);
      SpacesPass(js, need, r);
      LeadsOn(js, need, q, r, r.(pos := SkipSpace(js, n.end)));
      r := r.(pos := SkipSpace(js, n.end));
    }
  }

  /** A container that is broken, at any depth, is rejected with INVAL from any state on. */
  lemma {:induction false} BrokenFails(js: string, need: nat, b: Broken, p: Parser)
    requires Valid(p) && p.pos < |js| && IsBroken(js, b, p.pos) && |p.toks| + Tokens(b) <= need
    ensures Fails(js, need, p, INVAL)
    decreases b, 2
  {
    var sup := SuperIn(b.n, |p.toks|);
    FillRounds(js, need, b.n, p);
    if b.n.kind == Object && b.n.kids != [] {
      FilledAtKey(js, b.n, p);
    }
    FaultFails(js, need, b, p, sup);
    LeadsToFailure(js, need, p, Filled(p, b.n, sup), INVAL);
  }

  // From the end of the content on
  lemma {:induction false} FaultFails(js: string, need: nat, b: Broken, p: Parser, sup: int)
    requires Valid(p) && p.pos < |js| && IsBroken(js, b, p.pos) && |p.toks| + Tokens(b) <= need
    requires Valid(Filled(p, b.n, sup))
    requires b.n.kind == Array || b.n.kids == [] ==> sup == |p.toks|
    requires b.n.kind == Object && b.n.kids != [] ==> AtKey(Filled(p, b.n, sup), |p.toks|)
    ensures Fails(js, need, Filled(p, b.n, sup), INVAL)
    decreases b, 1
  {
    FilledState(p, b.n, sup);
    match b.fault
    case WrongBracket => WrongBracketFails(js, need, b.n, p, sup);
    case SecondValue => PrimitiveFails(js, need, Filled(p, b.n, sup));
    case StrayCharacter => StrayFails(js, need, Filled(p, b.n, sup));
    case _ =>
      var r := NextRounds(js, need, b.n, p, sup);
      NextFails(js, need, b, r, |p.toks|);
      LeadsToFailure(js, need, Filled(p, b.n, sup), r, INVAL);
  }

  // From where the next element or member begins
  lemma {:induction false} NextFails(js: string, need: nat, b: Broken, r: Parser, a: nat)
    requires 0 < b.n.end <= |js| && r.pos == NextAt(js, b.n) && IsBroken(js, b, b.n.start)
    requires b.fault.PrimitiveAsKey? || b.fault.InElement? || b.fault.InMember?
    requires Valid(r) && r.sup == a && a < |r.toks| && r.toks[a].kind == b.n.kind
    requires |r.toks| + Tokens(b) <= need + Count(b.n)
    ensures Fails(js, need, r, INVAL)
    decreases b, 0
  {
    match b.fault
    case PrimitiveAsKey => PrimitiveFails(js, need, r);
    case InElement(rest) => BrokenFails(js, need, rest, r);
    case InMember(key, rest) =>
      var v := Keyed(r, key, a, ValueAt(js, key));
      KeyRounds(js, need, key, r, a);
      BrokenFails(js, need, rest, v);
      LeadsToFailure(js, need, r, v, INVAL);
  }

  lemma {:induction false} StrayFails(js: string, need: nat, p: Parser)
    requires Valid(p) && p.pos < |js| && Stray(js[p.pos])
    ensures Fails(js, need, p, INVAL)
  {
    RoundFails(js, need, p, INVAL);
  }

  /** So is a text that begins with such a container. */
  lemma {:induction false} BrokenTextFails(js: string, cap: nat, b: Broken)
    requires IsBroken(js, b, SkipSpace(js, 0)) && Tokens(b) <= cap
    ensures Rounds(js, cap, Start()) == Stop(INVAL)
  {
    var p := Start().(pos := SkipSpace(js, 0));
    SpacesPass(js, cap, Start());
    BrokenFails(js, cap, b, p);
    LeadsToFailure(js, cap, Start(), p, INVAL);
    FailsToEnd(js, cap, Start(), INVAL, cap);
  }

  // ----------------------------------------------------------------------------- texts cut off

  lemma {:induction false} HexCut(js: string, k: nat, i: nat, n: nat)
    requires i <= k <= |js| && HexEnd(js, i, n).At?
    ensures HexEnd(js[..k], i, n) == At(if HexEnd(js, i, n).pos <= k then HexEnd(js, i, n).pos else k)
    decreases n
  {
    if n > 0 && i < k && js[i] != NUL {
      HexCut(js, k, i + 1, n - 1);
    }
  }

  lemma {:induction false} StringCut(js: string, k: nat, i: nat)
    requires i <= k <= |js| && StringEnd(js, i).At?
    ensures StringEnd(js[..k], i) == if StringEnd(js, i).pos < k then StringEnd(js, i) else Bad(PART)
    decreases |js| - i
  {
    if i < k && js[i] != '\"' {
      if js[i] == '\\' && i + 1 < k {
        if js[i + 1] == 'u' {
          HexCut(js, k, i + 2, 4);
        }
        var next := EscapeEnd(js, i + 1).pos;
        if next <= k {
          StringCut(js, k, next);
        }
      } else if js[i] != '\\' {
        StringCut(js, k, i + 1);
      }
    }
  }

  lemma {:induction false} PrimitiveCut(js: string, k: nat, i: nat)
    requires i <= k <= |js| && PrimitiveEnd(js, i).At?
    ensures PrimitiveEnd(js[..k], i) == if PrimitiveEnd(js, i).pos < k then PrimitiveEnd(js, i) else Bad(PART)
    decreases |js| - i
  {
    if i < k && !EndsPrimitive(js[i]) {
      PrimitiveCut(js, k, i + 1);
    }
  }

  // A round in the text cut off at `k` goes where it goes in the whole text, or asks for more.
  lemma {:induction false} RoundCut(js: string, k: nat, cap: nat, p: Parser)
    requires Valid(p) && p.pos < k <= |js| && Round(js, cap, p).Go?
    ensures Round(js[..k], cap, p) == Stop(PART)
            || (Round(js[..k], cap, p) == Round(js, cap, p) && Round(js, cap, p).p.pos <= k)
  {
    if js[p.pos] == '\"' {
      StringCut(js, k, p.pos + 1);
    } else if StartsPrimitive(js[p.pos]) {
      PrimitiveCut(js, k, p.pos);
    }
  }

  /**
   Of a text that is accepted, what comes before any point is accepted or rejected with PART; and
   from where it is accepted the whole text goes on.
   */
  lemma {:induction false} CutAsksForMore(js: string, k: nat, cap: nat, p: Parser)
    requires Valid(p) && p.pos <= k <= |js| && Rounds(js, cap, p).Go?
    ensures var r := Rounds(js[..k], cap, p);
      r == Stop(PART) || (r.Go? && r.p.pos <= k && Rounds(js, cap, r.p) == Rounds(js, cap, p))
    decreases |js| - p.pos
  {
    if p.pos < k && js[p.pos] != NUL {
      RoundCut(js, k, cap, p);
      var q := Round(js, cap, p).p;
      if q.pos <= k {
        CutAsksForMore(js, k, cap, q);
      }
    }
  }

  // The end of a closed token stays as it is, and no token goes.
  lemma {:induction false} EndsStay(js: string, cap: nat, p: Parser, i: nat)
    requires Valid(p) && p.pos <= |js| && Rounds(js, cap, p).Go? && i < |p.toks| && !IsOpen(p.toks[i])
    ensures var toks := Rounds(js, cap, p).p.toks; i < |toks| && toks[i].end == p.toks[i].end
    decreases |js| - p.pos
  {
    if p.pos < |js| && js[p.pos] != NUL {
      EndStays(js, cap, p, i);
      EndsStay(js, cap, Round(js, cap, p).p, i);
    }
  }

  lemma {:induction false} EndStays(js: string, cap: nat, p: Parser, i: nat)
    requires Valid(p) && p.pos < |js| && Round(js, cap, p).Go? && i < |p.toks| && !IsOpen(p.toks[i])
    ensures var toks := Round(js, cap, p).p.toks;
      i < |toks| && toks[i].end == p.toks[i].end && !IsOpen(toks[i])
  {
  }

  lemma {:induction false} SomeToken(js: string, cap: nat, p: Parser)
    requires Valid(p) && p.pos <= |js| && Rounds(js, cap, p).Go?
    ensures |p.toks| <= |Rounds(js, cap, p).p.toks|
    decreases |js| - p.pos
  {
    if p.pos < |js| && js[p.pos] != NUL {
      RoundCounts(js, cap, p);
      SomeToken(js, cap, Round(js, cap, p).p);
    }
  }

  lemma {:induction false} SpaceCut(js: string, k: nat, i: nat)
    requires i <= |js| && SkipSpace(js, i) < k <= |js|
    ensures SkipSpace(js[..k], i) == SkipSpace(js, i)
    decreases |js| - i
  {
    if IsSpace(js[i]) {
      SpaceCut(js, k, i + 1);
    }
  }

  // A string, and a text with nothing before it but space, cut off in the string
  lemma {:induction false} StringRootCut(js: string, k: nat, cap: nat, n: Node)
    requires IsText(js, n) && n.kind == String && SkipSpace(js, 0) < k < Finish(n)
    ensures Rounds(js[..k], cap, Start().(pos := SkipSpace(js, 0))) == Stop(PART)
  {
    StringEnds(js, n.start, n.end);
    StringCut(js, k, n.start);
  }

  /**
   A JSON text that is cut off anywhere within its value, which is not a lone number or literal
   with nothing after it, is rejected, and with the error that asks for more: PART.
   */
  lemma {:induction false} CutIsPart(js: string, k: nat, cap: nat, n: Node)
    requires IsText(js, n) && !EndsInPrimitive(js, n) && Count(n) <= cap
    requires SkipSpace(js, 0) < k < Finish(n)
    ensures Rounds(js[..k], cap, Start()) == Stop(PART)
  {
    var cut, p := js[..k], Start().(pos := SkipSpace(js, 0));
    SpaceCut(js, k, 0);
    SpacesPass(cut, 0, Start());
    LeadsToEnd(cut, 0, Start(), p, cap);
    SpacesPass(js, 0, Start());
    LeadsToEnd(js, 0, Start(), p, cap);
    ParsesIff(js, n, cap);
    if n.kind == String {
      StringRootCut(js, k, cap, n);
    } else {
      CutAsksForMore(js, k, cap, p);
      if Rounds(cut, cap, p).Go? {
        var q := Rounds(cut, cap, p).p;
        FirstToken(cut, cap, p);
        JsonForest.AcceptedIsForest(cut, cap, p);
        EndsStay(js, cap, q, 0);
      }
    }
  }

  lemma {:induction false} FirstToken(js: string, cap: nat, p: Parser)
    requires Valid(p) && p.pos < |js| && Rounds(js, cap, p).Go? && p.toks == []
    requires js[p.pos] == '{' || js[p.pos] == '[' || StartsPrimitive(js[p.pos])
    ensures Rounds(js, cap, p).p.toks != []
  {
    SomeToken(js, cap, Round(js, cap, p).p);
  }

  // ------------------------------------------------------------------- brackets after the end

  lemma {:induction false} BodyGrows(js: string, k: nat, i: nat, end: nat)
    requires i <= end < k <= |js| && StringBody(js[..k], i, end)
    ensures StringBody(js, i, end)
    decreases end - i
  {
    if i < end {
      if js[i] == '\\' {
        BodyGrows(js, k, if js[i + 1] == 'u' then i + 6 else i + 2, end);
      } else {
        BodyGrows(js, k, i + 1, end);
      }
    }
  }

  // A round that goes on goes on in the same way if the text is longer.
  lemma {:induction false} RoundGrows(js: string, k: nat, cap: nat, p: Parser)
    requires Valid(p) && p.pos < k <= |js| && Round(js[..k], cap, p).Go?
    ensures Round(js, cap, p) == Round(js[..k], cap, p)
  {
    var cut := js[..k];
    if js[p.pos] == '\"' {
      var end := StringEnd(cut, p.pos + 1).pos;
      StringEndIff(cut, p.pos + 1, end);
      BodyGrows(js, k, p.pos + 1, end);
      StringEndIff(js, p.pos + 1, end);
    } else if StartsPrimitive(js[p.pos]) {
      var end := PrimitiveEnd(cut, p.pos).pos;
      PrimitiveEndIff(cut, p.pos, end);
      assert forall d :: p.pos <= d < end ==> cut[d] == js[d];
      PrimitiveEndIff(js, p.pos, end);
    }
  }

  lemma {:induction false} AcceptedGoesOn(js: string, k: nat, cap: nat, p: Parser)
    requires Valid(p) && p.pos <= k <= |js| && Rounds(js[..k], cap, p).Go?
    ensures var q := Rounds(js[..k], cap, p).p; q.pos <= k && Rounds(js, cap, q) == Rounds(js, cap, p)
    decreases k - p.pos
  {
    if p.pos < k && js[p.pos] != NUL {
      RoundGrows(js, k, cap, p);
      AcceptedGoesOn(js, k, cap, Round(js, cap, p).p);
    }
  }

  /**
   A closing bracket after a text that is accepted opens nothing to close, and still the text with
   it is accepted, unless there is no token at all.
   */
  lemma {:induction false} BracketAfterEndIff(js: string, c: char, cap: nat)
    requires c == '}' || c == ']'
    requires Rounds(js, cap, Start()).Go? && Rounds(js, cap, Start()).p.pos == |js|
    ensures var q := Rounds(js, cap, Start()).p;
      Rounds(js + [c], cap, Start()) == if q.toks == [] then Stop(INVAL) else Go(q.(pos := |js| + 1))
  {
    var longer, q := js + [c], Rounds(js, cap, Start()).p;
    assert longer[..|js|] == js;
    AcceptedGoesOn(longer, |js|, cap, Start());
    LastBracket(longer, cap, q);
  }

  lemma {:induction false} LastBracket(js: string, cap: nat, p: Parser)
    requires Valid(p) && p.pos + 1 == |js| && AllClosed(p.toks) && (js[p.pos] == '}' || js[p.pos] == ']')
    ensures Rounds(js, cap, p) == if p.toks == [] then Stop(INVAL) else Go(p.(pos := |js|))
  {
    if p.toks != [] {
      assert FindOpen(p.toks, |p.toks| - 1).None?;
    }
  }

  // ------------------------------------------------------------------------- room for the tokens

  lemma {:induction false} RoundRoom(js: string, cap: nat, big: nat, p: Parser)
    requires Valid(p) && p.pos < |js| && |p.toks| <= cap && Round(js, big, p).Go?
    ensures var q := Round(js, big, p).p;
      Round(js, cap, p) == if |q.toks| <= cap then Go(q) else Stop(NOMEM)
  {
  }

  /**
   A text that is accepted with some number of tokens is accepted, with the same ones, whenever
   there is room for them, and otherwise rejected with NOMEM.
   */
  lemma {:induction false} RoomIff(js: string, cap: nat, big: nat, p: Parser)
    requires Valid(p) && p.pos <= |js| && |p.toks| <= cap && Rounds(js, big, p).Go?
    ensures var q := Rounds(js, big, p).p;
      Rounds(js, cap, p) == if |q.toks| <= cap then Go(q) else Stop(NOMEM)
    decreases |js| - p.pos
  {
    if p.pos < |js| && js[p.pos] != NUL {
      RoundRoom(js, cap, big, p);
      var q := Round(js, big, p).p;
      SomeToken(js, big, q);
      if |q.toks| <= cap {
        RoomIff(js, cap, big, q);
      }
    }
  }

  // ----------------------------------------------------------------------------- the other pass

  /**
   With room for one more token the two passes fail at the same places and with the same errors,
   but that only the one which stores looks at what a bracket closes and what a primitive follows.
   */
  lemma {:induction false} RoundsFailAlike(js: string, cap: nat, p: Parser)
    requires Valid(p) && p.pos < |js| && |p.toks| < cap
    ensures var c, r, t := js[p.pos], Round(js, cap, p), CountRound(js, p.pos);
      && (t.Off? ==> r.Stop?)
      && (r.Stop? ==> c == '}' || c == ']' || (StartsPrimitive(c) && !TakesPrimitive(p)) || t == Off(r.err))
  {
  }

  /** A text of space and separators alone is accepted as no token at all. */
  lemma {:induction false} SeparatorsAlone(js: string, cap: nat, pos: nat)
    requires pos <= |js| && forall i :: 0 <= i < |js| ==> IsSpace(js[i]) || js[i] == ',' || js[i] == ':'
    ensures Rounds(js, cap, Parser(pos, [], -1)) == Go(Parser(|js|, [], -1))
    decreases |js| - pos
  {
    if pos < |js| {
      SeparatorsAlone(js, cap, pos + 1);
    }
  }

  /** The classes of characters that the tokenizer tells apart */
  lemma {:induction false} Alphabet(c: char)
    ensures IsSpace(c) <==> c in " \t\r\n"
    ensures IsEscape(c) <==> c in "\"/\\bfrnt"
    ensures IsHexDigit(c) <==> c in "0123456789ABCDEFabcdef"
    ensures StartsPrimitive(c) <==> c in "-0123456789tfn"
    ensures EndsPrimitive(c) <==> c in " \t\r\n,]}"
    ensures InPrimitive(c) <==> 32 <= c as int < 127 && c !in " ,]}"
  {
  }
}
