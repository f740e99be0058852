/** The tokenizer in the form the source has, and json_parse_start over it. */
module JsonStart {
  import opened Common
  import opened JsonTokens
  import opened JsonText
  import opened JsonParse
  import opened JsonForest
  import opened JsonNav
  import JsonContext

  class Jsmn {
    var pos: nat
    var toknext: nat
    var toksuper: int

    ghost function Model(tokens: array<Token>): Parser
      requires toknext <= tokens.Length
      reads this, tokens
    {
      Parser(pos, tokens[..toknext], toksuper)
    }

    // __jsmn_init
    constructor ()
      ensures pos == 0 && toknext == 0 && toksuper == -1
    {
      pos, toknext, toksuper := 0, 0, -1;
    }

    // jsmn_alloc_token, jsmn_fill_token and the parent link
    method AddToken(tokens: array<Token>, kind: Kind, start: int, end: int) returns (ok: bool)
      requires toknext <= tokens.Length
      modifies this`toknext, tokens
      ensures ok == (old(toknext) < tokens.Length)
      ensures !ok ==> toknext == old(toknext) && tokens[..] == old(tokens[..])
      ensures ok ==>
        && toknext == old(toknext) + 1
        && tokens[..toknext] == old(tokens[..toknext]) + [Token(kind, start, end, 0, toksuper)]
    {
      if toknext >= tokens.Length {
        return false;
      }
      tokens[toknext] := Token(kind, start, end, 0, toksuper);
      toknext := toknext + 1;
      ok := true;
    }

    // tokens[toksuper].size++
    method BumpSuper(tokens: array<Token>)
      requires toknext <= tokens.Length && -1 <= toksuper < toknext
      modifies tokens
      ensures tokens[..toknext] == Bump(old(tokens[..toknext]), toksuper)
    {
      if toksuper != -1 {
        tokens[toksuper] := tokens[toksuper].(size := tokens[toksuper].size + 1);
      }
    }

    // The loop of jsmn_parse_primitive
    method ScanPrimitive(js: string) returns (r: int)
      requires pos <= |js|
      modifies this`pos
      ensures match PrimitiveEnd(js, old(pos))
              case Bad(err) => r == err && pos == old(pos)
              case At(end) => r == 0 && pos == end
    {
      var start := pos;
      while pos < |js| && js[pos] != NUL
        invariant start <= pos <= |js|
        invariant PrimitiveEnd(js, start) == PrimitiveEnd(js, pos)
      {
        if EndsPrimitive(js[pos]) {
          return 0;
        }
        if js[pos] < 32 as char || js[pos] >= 127 as char {
          pos := start;
          return INVAL;
        }
        pos := pos + 1;
      }
      pos := start;
      r := PART;
    }

    // The loop over the digits of an escape
    method ScanHex(js: string) returns (r: int)
      requires pos <= |js|
      modifies this`pos
      ensures match HexEnd(js, old(pos), 4)
              case Bad(err) => r == err
              case At(end) => r == 0 && pos == end
    {
      var i := 0;
      while i < 4 && pos < |js| && js[pos] != NUL
        invariant 0 <= i <= 4 && pos <= |js|
        invariant HexEnd(js, old(pos), 4) == HexEnd(js, pos, 4 - i)
      {
        if !IsHexDigit(js[pos]) {
          return INVAL;
        }
        pos := pos + 1;
        i := i + 1;
      }
      r := 0;
    }

    // The character after a backslash and the digits it may have; `pos` is left at the last.
    method ScanEscape(js: string) returns (r: int)
      requires pos < |js|
      modifies this`pos
      ensures match EscapeEnd(js, old(pos))
              case Bad(err) => r == err
              case At(end) => r == 0 && pos == end - 1
    {
      if js[pos] == 'u' {
        pos := pos + 1;
        r := ScanHex(js);
        if r == 0 {
          pos := pos - 1;
        }
        return;
      }
      r := if IsEscape(js[pos]) then 0 else INVAL;
    }

    // The loop of jsmn_parse_string; it leaves `pos` at the closing quote.
    method ScanString(js: string) returns (r: int)
      requires pos < |js|
      modifies this`pos
      ensures match StringEnd(js, old(pos) + 1)
              case Bad(err) => r == err && pos == old(pos)
              case At(end) => r == 0 && pos == end
    {
      var start := pos;
      pos := pos + 1;
      while pos < |js| && js[pos] != NUL
        invariant start < pos <= |js|
        invariant StringEnd(js, start + 1) == StringEnd(js, pos)
        decreases |js| - pos
      {
        var c := js[pos];
        if c == '\"' {
          return 0;
        }
        if c == '\\' && pos + 1 < |js| {
          pos := pos + 1;
          r := ScanEscape(js);
          if r != 0 {
            pos := start;
            return;
          }
        }
        pos := pos + 1;
      }
      pos := start;
      r := PART;
    }

    // jsmn_parse_primitive; it leaves `pos` at the last character.
    method ParsePrimitive(js: string, tokens: array?<Token>) returns (r: int)
      requires pos < |js| && !EndsPrimitive(js[pos])
      requires tokens != null ==> toknext <= tokens.Length
      modifies this`pos, this`toknext, tokens
      ensures match PrimitiveEnd(js, old(pos))
              case Bad(err) => r == err
              case At(end) => Stored(old(pos), end, end - 1, Primitive, tokens, r, old(toknext), old(Text(tokens)))
    {
      var start := pos;
      r := ScanPrimitive(js);
      if r < 0 {
        return;
      }
      if tokens == null {
        pos := pos - 1;
        return 0;
      }
      var ok := AddToken(tokens, Primitive, start, pos);
      if !ok {
        pos := start;
        return NOMEM;
      }
      pos := pos - 1;
      r := 0;
    }

    // The tokens allocated so far
    ghost function Text(tokens: array?<Token>): seq<Token>
      requires tokens != null ==> toknext <= tokens.Length
      reads this, tokens
    {
      if tokens == null then [] else tokens[..toknext]
    }

    // A token start..end has been added, if there was an array and room in it.
    ghost predicate Stored(start: int, end: int, at: int, kind: Kind, tokens: array?<Token>, r: int,
                           was: nat, before: seq<Token>)
      reads this, tokens
    {
      if tokens == null then r == 0 && pos == at && toknext == was
      else if was >= tokens.Length then r == NOMEM
      else
        && r == 0 && pos == at && toknext == was + 1 <= tokens.Length
        && tokens[..toknext] == before + [Token(kind, start, end, 0, toksuper)]
    }

    // jsmn_parse_string; it leaves `pos` at the closing quote.
    method ParseString(js: string, tokens: array?<Token>) returns (r: int)
      requires pos < |js|
      requires tokens != null ==> toknext <= tokens.Length
      modifies this`pos, this`toknext, tokens
      ensures match StringEnd(js, old(pos) + 1)
              case Bad(err) => r == err
              case At(end) => Stored(old(pos) + 1, end, end, String, tokens, r, old(toknext), old(Text(tokens)))
    {
      var start := pos;
      r := ScanString(js);
      if r < 0 || tokens == null {
        return;
      }
      var ok := AddToken(tokens, String, start + 1, pos);
      if !ok {
        pos := start;
        return NOMEM;
      }
      r := 0;
    }

    // What the cases of the main loop leave behind: `pos` is one short of the next round's.
    ghost predicate After(tokens: array<Token>, t: Turn, r: int, was: nat)
      reads this, tokens
    {
      match t
      case Stop(err) => r == err
      case Go(q) =>
        && toknext <= tokens.Length && pos + 1 == q.pos
        && tokens[..toknext] == q.toks && toksuper == q.sup && r == toknext - was
    }

    // The case of an opening bracket
    method Open(tokens: array<Token>, kind: Kind) returns (r: int)
      requires toknext <= tokens.Length && Valid(Model(tokens))
      modifies this`toknext, this`toksuper, tokens
      ensures After(tokens, OpenBracket(old(Model(tokens)), tokens.Length, kind), r, old(toknext))
    {
      var ok := AddToken(tokens, kind, pos, -1);
      if !ok {
        return NOMEM;
      }
      ghost var t := tokens[..toknext - 1];
      ghost var added := tokens[toknext - 1];
      assert tokens[..toknext] == t + [added];
      BumpSuper(tokens);
      BumpAppend(t, [added], toksuper);
      toksuper := toknext - 1;
      r := 1;
    }

    // The case of a closing bracket
    method Close(tokens: array<Token>, kind: Kind) returns (r: int)
      requires toknext <= tokens.Length && Valid(Model(tokens))
      modifies this`toksuper, tokens
      ensures After(tokens, CloseBracket(old(Model(tokens)), kind), r, old(toknext))
    {
      if toknext < 1 {
        return INVAL;
      }
      ghost var toks := tokens[..toknext];
      var i := toknext - 1;
      while true
        invariant 0 <= i < toknext && tokens[..toknext] == toks
        invariant FindOpen(toks, toknext - 1) == FindOpen(toks, i)
        decreases i
      {
        assert tokens[i] == toks[i];
        if tokens[i].start != -1 && tokens[i].end == -1 {
          if tokens[i].kind != kind {
            return INVAL;
          }
          toksuper := tokens[i].parent;
          tokens[i] := tokens[i].(end := pos + 1);
          break;
        }
        if tokens[i].parent == -1 {
          break;
        }
        i := tokens[i].parent;
      }
      r := 0;
    }

    // The count of a token in its superior token
    method BumpStored(tokens: array<Token>, ghost before: seq<Token>)
      requires 0 < toknext <= tokens.Length && -1 <= toksuper < |before| == toknext - 1
      requires before <= tokens[..toknext]
      modifies tokens
      ensures tokens[..toknext] == Bump(before + [old(tokens[toknext - 1])], toksuper)
    {
      assert tokens[..toknext] == before + [tokens[toknext - 1]];
      BumpSuper(tokens);
    }

    // The case of a string
    method StoreString(js: string, tokens: array<Token>) returns (r: int)
      requires pos < |js| && toknext <= tokens.Length && Valid(Model(tokens))
      modifies this`pos, this`toknext, tokens
      ensures match StringEnd(js, old(pos) + 1)
              case Bad(err) => r == err
              case At(end) =>
                After(tokens,
                      JsonParse.AddToken(old(Model(tokens)), tokens.Length, String, old(pos) + 1, end, end + 1),
                      r, old(toknext))
    {
      ghost var before := tokens[..toknext];
      r := ParseString(js, tokens);
      if r == 0 {
        BumpStored(tokens, before);
        r := 1;
      }
    }

    // The case of a primitive, which must not be a key or a second value
    method StorePrimitive(js: string, tokens: array<Token>) returns (r: int)
      requires pos < |js| && toknext <= tokens.Length && Valid(Model(tokens)) && StartsPrimitive(js[pos])
      modifies this`pos, this`toknext, tokens
      ensures
        if !TakesPrimitive(old(Model(tokens))) then r == INVAL
        else match PrimitiveEnd(js, old(pos))
             case Bad(err) => r == err
             case At(end) =>
               After(tokens,
                     JsonParse.AddToken(old(Model(tokens)), tokens.Length, Primitive, old(pos), end, end),
                     r, old(toknext))
    {
      ghost var before := tokens[..toknext];
      if toksuper != -1 {
        var t := tokens[toksuper];
        assert t == before[toksuper];
        if t.kind == Object || (t.kind == String && t.size != 0) {
          return INVAL;
        }
      }
      r := ParsePrimitive(js, tokens);
      if r == 0 {
        BumpStored(tokens, before);
        r := 1;
      }
    }

    // The case of a comma
    method StoreComma(tokens: array<Token>) returns (r: int)
      requires toknext <= tokens.Length && Valid(Model(tokens))
      modifies this`toksuper
      ensures After(tokens, Comma(old(Model(tokens))), r, old(toknext))
    {
      assert toksuper != -1 ==> tokens[toksuper] == tokens[..toknext][toksuper];
      if toksuper != -1 && tokens[toksuper].kind != Array && tokens[toksuper].kind != Object {
        toksuper := tokens[toksuper].parent;
      }
      r := 0;
    }

    // One round of the main loop with a token array: an error, or the number of tokens added
    method Store(js: string, tokens: array<Token>) returns (r: int)
      requires pos < |js| && toknext <= tokens.Length && Valid(Model(tokens))
      modifies this, tokens
      ensures After(tokens, Round(js, tokens.Length, old(Model(tokens))), r, old(toknext))
    {
      var c := js[pos];
      if c == '{' {
        r := Open(tokens, Object);
      } else if c == '[' {
        r := Open(tokens, Array);
      } else if c == '}' {
        r := Close(tokens, Object);
      } else if c == ']' {
        r := Close(tokens, Array);
      } else if c == '\"' {
        r := StoreString(js, tokens);
      } else if IsSpace(c) {
        r := 0;
      } else if c == ':' {
        toksuper := toknext - 1;
        r := 0;
      } else if c == ',' {
        r := StoreComma(tokens);
      } else if StartsPrimitive(c) {
        r := StorePrimitive(js, tokens);
      } else {
        r := INVAL;
      }
    }

    // The same without one
    method Tally(js: string) returns (r: int)
      requires pos < |js|
      modifies this
      ensures match CountRound(js, old(pos))
              case Off(err) => r == err
              case On(next, more) => pos + 1 == next && r == more
    {
      var c := js[pos];
      if c == '{' || c == '[' {
        r := 1;
      } else if c == '\"' {
        r := ParseString(js, null);
        if r == 0 {
          r := 1;
        }
      } else if c == ':' {
        toksuper := toknext - 1;
        r := 0;
      } else if c == '}' || c == ']' || IsSpace(c) || c == ',' {
        r := 0;
      } else if StartsPrimitive(c) {
        r := ParsePrimitive(js, null);
        if r == 0 {
          r := 1;
        }
      } else {
        r := INVAL;
      }
    }

    // __jsmn_parse without a token array
    method CountTokens(js: string) returns (r: int)
      requires pos == 0 && toknext == 0
      modifies this
      ensures r == Counts(js, 0, 0)
    {
      var count := 0;
      while pos < |js| && js[pos] != NUL
        invariant pos <= |js| && 0 <= count
        invariant Counts(js, 0, 0) == Counts(js, pos, count)
        decreases |js| - pos
      {
        r := Tally(js);
        if r < 0 {
          return;
        }
        count := count + r;
        pos := pos + 1;
      }
      r := count;
    }

    // A round and the step to the next
    method Step(js: string, tokens: array<Token>) returns (r: int)
      requires pos < |js| && js[pos] != NUL && toknext <= tokens.Length && Valid(Model(tokens))
      modifies this, tokens
      ensures r < 0 ==> Rounds(js, tokens.Length, old(Model(tokens))) == Stop(r)
      ensures r >= 0 ==>
        && old(pos) < pos <= |js| && toknext == old(toknext) + r <= tokens.Length && Valid(Model(tokens))
        && Rounds(js, tokens.Length, old(Model(tokens))) == Rounds(js, tokens.Length, Model(tokens))
    {
      ghost var p := Model(tokens);
      RoundCountsUp(js, tokens.Length, p);
      r := Store(js, tokens);
      if r >= 0 {
        pos := pos + 1;
      }
    }

    // __jsmn_parse with one
    method Parse(js: string, tokens: array<Token>) returns (r: int)
      requires pos == 0 && toknext == 0 && toksuper == -1
      modifies this, tokens
      ensures match Rounds(js, tokens.Length, Start())
              case Stop(err) => r == err
              case Go(p) => toknext <= tokens.Length && Model(tokens) == p && r == |p.toks|
    {
      var count := 0;
      assert tokens[..0] == [];
      while pos < |js| && js[pos] != NUL
        invariant toknext <= tokens.Length && pos <= |js| && Valid(Model(tokens)) && count == toknext
        invariant Rounds(js, tokens.Length, Start()) == Rounds(js, tokens.Length, Model(tokens))
        decreases |js| - pos
      {
        r := Step(js, tokens);
        if r < 0 {
          return;
        }
        count := count + r;
      }
      var unmatched := SomeOpen(tokens);
      r := if unmatched then PART else count;
    }

    // The last loop of __jsmn_parse: is there an object or array without its end?
    method SomeOpen(tokens: array<Token>) returns (found: bool)
      requires toknext <= tokens.Length
      ensures found <==> !AllClosed(tokens[..toknext])
    {
      var i := toknext - 1;
      while i >= 0
        invariant -1 <= i < toknext
        invariant forall j :: i < j < toknext ==> !IsOpen(tokens[j])
      {
        if tokens[i].start != -1 && tokens[i].end == -1 {
          assert IsOpen(tokens[..toknext][i]);
          return true;
        }
        i := i - 1;
      }
      found := false;
    }
  }

  // json_parse_start: count the tokens, allocate them and parse again. A context on which every
  // walk stays inside the tokens comes of every text, JSON or not, that the tokenizer accepts. It
  // accepts every JSON text whose root is not a primitive at its very end, and the tokens are then
  // those of its tree.
  method ParseStart(js: string, ghost root: Node) returns (jctx: JsonContext.Context?)
    ensures var count := Counts(js, 0, 0);
      && (jctx != null <==> count > 0 && Rounds(js, count, Start()).Go?)
      && (jctx != null ==>
        && fresh(jctx) && jctx.Held() && jctx.cur == 0 && jctx.js == js
        && jctx.tokens == Rounds(js, count, Start()).p.toks)
    ensures IsText(js, root) ==>
      && (jctx == null <==> EndsInPrimitive(js, root))
      && (jctx != null ==>
        jctx.Valid() && jctx.path == [] && jctx.root == root && jctx.tokens == Encode(root, 0, -1))
  {
    if IsText(js, root) {
      CountsIff(js, root);
    }
    var parser := new Jsmn();
    var numTokens := parser.CountTokens(js);
    if numTokens <= 0 {
      return null;
    }
    var tokens := new Token[numTokens](_ => Token(Undefined, 0, 0, 0, 0));
    parser := new Jsmn();
    if IsText(js, root) {
      ParsesIff(js, root, numTokens);
    }
    var ret := parser.Parse(js, tokens);
    if ret <= 0 {
      NonEmpty(js, numTokens);
      return null;
    }
    CountsAgree(js, numTokens, Start());
    AcceptedIsForest(js, numTokens, Start());
    assert tokens[..] == tokens[..numTokens];
    if IsText(js, root) {
      IsTree(js, root);
    }
    jctx := new JsonContext.Context(js, tokens[..], root);
  }

  // The storing pass stores what the counting pass has counted.
  lemma {:induction false} NonEmpty(js: string, count: nat)
    requires Counts(js, 0, 0) == count > 0
    ensures Rounds(js, count, Start()).Go? ==> |Rounds(js, count, Start()).p.toks| > 0
  {
    if Rounds(js, count, Start()).Go? {
      CountsAgree(js, count, Start());
    }
  }

  lemma {:induction false} IsTree(js: string, root: Node)
    requires IsText(js, root)
    ensures Laid(Encode(root, 0, -1), root, 0, -1) && IsJson(root, |js|)
  {
    EncodeIsLaid([], root, -1, []);
    assert [] + Encode(root, 0, -1) + [] == Encode(root, 0, -1);
    SpelledIsJson(js, root, SkipSpace(js, 0));
  }

  // {"a"}, an object with a key and no value: the tokens are the object and the key.
  predicate IsKeyAlone(js: string) {
    |js| == 5 && js[0] == '{' && js[1] == '\"' && js[2] == 'a' && js[3] == '\"' && js[4] == '}'
  }

  predicate KeyAloneTokens(toks: seq<Token>) {
    |toks| == 2 && toks[0] == Token(Object, 0, 5, 1, -1) && toks[1] == Token(String, 2, 3, 0, 0)
  }

  lemma {:induction false} KeyAloneIsAccepted(js: string)
    requires IsKeyAlone(js)
    ensures Rounds(js, 2, Start()).Go? && KeyAloneTokens(Rounds(js, 2, Start()).p.toks)
    ensures Counts(js, 0, 0) == 2
  {
    var p1 := Parser(1, [Token(Object, 0, -1, 0, -1)], 0);
    var p2 := Parser(4, [Token(Object, 0, -1, 1, -1), Token(String, 2, 3, 0, 0)], 0);
    var p3 := Parser(5, [Token(Object, 0, 5, 1, -1), Token(String, 2, 3, 0, 0)], -1);
    assert Round(js, 2, Start()) == Go(p1);
    assert StringEnd(js, 3) == At(3);
    assert Round(js, 2, p1) == Go(p2);
    assert FindOpen(p2.toks, 1) == Some(0);
    assert Round(js, 2, p2) == Go(p3);
    assert Rounds(js, 2, p2) == Go(p3);
    assert Rounds(js, 2, p1) == Rounds(js, 2, p2);
    CountsAgree(js, 2, Start());
  }

  lemma {:induction false} KeyAloneTree(toks: seq<Token>, key: Node)
    requires KeyAloneTokens(toks) && IsForest(toks, 5) && key == Node(String, 2, 3, [])
    ensures TreeAt(toks, 5, 0).kind == Object && TreeAt(toks, 5, 0).kids == [key]
  {
    var kids := [key];
    assert kids[1..] == [] && kids[0] == key;
    assert Laid(toks, key, 1, 0);
    assert LaidAll(toks, kids, 1, 0);
    TreeIsLaid(toks, 5, 0);
    LaidIsUnique(toks, TreeAt(toks, 5, 0), Node(Object, 0, 5, kids), 0, -1);
  }

  // json_parse_start accepts it, and the search for the value of the key looks past the tokens.
  method KeyWithoutValue(js: string, key: string, ghost root: Node) returns (inside: bool)
    requires IsKeyAlone(js) && key == js[2..3]
    ensures !inside
  {
    KeyAloneIsAccepted(js);
    var jctx := ParseStart(js, root);
    ghost var member := Node(String, 2, 3, []);
    KeyAloneTree(jctx.tokens, member);
    assert IsKey(js, member, key);
    assert jctx.Below().kids[..0] == [];
    var tok;
    inside, tok := jctx.ObjGetValTok(key, String);
  }
}
