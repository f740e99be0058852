/**
 JSON text (RFC 8259) and the parser that turns it into tokens
 (`components/json_parser/jsmn/src/jsmn-changed.c`, built with parent links and strict).
 */
module JsonText {
  import opened JsonTokens

  const NUL: char := 0 as char

  predicate IsSpace(c: char) {
    c == '\t' || c == '\r' || c == '\n' || c == ' '
  }

  // The first position from `i` on that holds no white space
  function SkipSpace(js: string, i: nat): (j: nat)
    requires i <= |js|
    ensures i <= j <= |js|
    ensures forall k :: i <= k < j ==> IsSpace(js[k])
    ensures j < |js| ==> !IsSpace(js[j])
    decreases |js| - i
  {
    if i < |js| && IsSpace(js[i]) then SkipSpace(js, i + 1) else i
  }

  predicate IsEscape(c: char) {
    c == '\"' || c == '/' || c == '\\' || c == 'b' || c == 'f' || c == 'r' || c == 'n' || c == 't'
  }

  predicate IsHexDigit(c: char) {
    '0' <= c <= '9' || 'A' <= c <= 'F' || 'a' <= c <= 'f'
  }

  // The characters of a string from `i` on, up to the quote at `end` (section 7)
  predicate StringBody(js: string, i: nat, end: nat)
    requires end < |js|
    decreases end - i
  {
    if i >= end then i == end && js[end] == '\"'
    else if js[i] == '\\' then
      i + 1 < end &&
      if js[i + 1] == 'u' then
        && i + 6 <= end
        && IsHexDigit(js[i + 2]) && IsHexDigit(js[i + 3]) && IsHexDigit(js[i + 4]) && IsHexDigit(js[i + 5])
        && StringBody(js, i + 6, end)
      else IsEscape(js[i + 1]) && StringBody(js, i + 2, end)
    else js[i] != '\"' && js[i] != NUL && StringBody(js, i + 1, end)
  }

  predicate StartsPrimitive(c: char) {
    c == '-' || '0' <= c <= '9' || c == 't' || c == 'f' || c == 'n'
  }

  predicate EndsPrimitive(c: char) {
    IsSpace(c) || c == ',' || c == ']' || c == '}'
  }

  predicate InPrimitive(c: char) {
    !EndsPrimitive(c) && 32 as char <= c < 127 as char
  }

  // Numbers and the three literals are such texts (sections 3 and 6).
  predicate PrimitiveBody(js: string, i: nat, end: nat)
    requires end <= |js|
  {
    i < end && StartsPrimitive(js[i]) && forall k :: i <= k < end ==> InPrimitive(js[k])
  }

  // Where the text of a value begins and ends; a string's token leaves its quotes out.
  function Begin(n: Node): int {
    if n.kind == String then n.start - 1 else n.start
  }

  function Finish(n: Node): nat {
    if n.kind == String then n.end + 1 else n.end
  }

  // js[from..] begins with the text of the value `n`.
  predicate Spelled(js: string, n: Node, from: nat)
    decreases n, 1
  {
    && Begin(n) == from && n.start <= n.end && Finish(n) <= |js|
    && match n.kind
       case Object =>
         from + 2 <= n.end && js[from] == '{' && js[n.end - 1] == '}' && Members(js, n.kids, from + 1, n.end - 1)
       case Array =>
         from + 2 <= n.end && js[from] == '[' && js[n.end - 1] == ']' && Elements(js, n.kids, from + 1, n.end - 1)
       case String => n.kids == [] && js[from] == '\"' && StringBody(js, n.start, n.end)
       case Primitive => n.kids == [] && PrimitiveBody(js, n.start, n.end)
       case Undefined => false
  }

  // js[from..to] holds the members of an object, with commas between them.
  predicate Members(js: string, kids: seq<Node>, from: nat, to: nat)
    requires to < |js|
    decreases kids, 0
  {
    if kids == [] then from <= to && SkipSpace(js, from) == to
    else
      && from <= to && Member(js, kids[0], SkipSpace(js, from))
      && Finish(kids[0].kids[0]) <= to
      && var d := SkipSpace(js, Finish(kids[0].kids[0]));
      if |kids| == 1 then d == to else d < to && js[d] == ',' && OneMore(js, kids[1..], d + 1, to, true)
  }

  // After a comma there is another member or element.
  predicate OneMore(js: string, kids: seq<Node>, from: nat, to: nat, members: bool)
    requires to < |js|
    decreases kids, 1
  {
    kids != [] && if members then Members(js, kids, from, to) else Elements(js, kids, from, to)
  }

  // js[from..] begins with a key and a colon.
  predicate KeyAndColon(js: string, m: Node, from: nat) {
    && m.kind == String && Begin(m) == from && m.start <= m.end && Finish(m) < |js|
    && js[from] == '\"' && StringBody(js, m.start, m.end)
    && var c := SkipSpace(js, Finish(m));
    c < |js| && js[c] == ':'
  }

  // The position of the value after the key and its colon
  function ValueAt(js: string, m: Node): nat
    requires Finish(m) < |js| && SkipSpace(js, Finish(m)) < |js|
  {
    SkipSpace(js, SkipSpace(js, Finish(m)) + 1)
  }

  // js[from..] begins with a key, a colon and a value.
  predicate Member(js: string, m: Node, from: nat)
    decreases m, 2
  {
    KeyAndColon(js, m, from) && |m.kids| == 1 && Spelled(js, m.kids[0], ValueAt(js, m))
  }

  predicate Elements(js: string, kids: seq<Node>, from: nat, to: nat)
    requires to < |js|
    decreases kids, 0
  {
    if kids == [] then from <= to && SkipSpace(js, from) == to
    else
      && from <= to && Spelled(js, kids[0], SkipSpace(js, from))
      && Finish(kids[0]) <= to
      && var d := SkipSpace(js, Finish(kids[0]));
      if |kids| == 1 then d == to else d < to && js[d] == ',' && OneMore(js, kids[1..], d + 1, to, false)
  }

  // The whole text is one value with white space around it.
  predicate IsText(js: string, n: Node) {
    Spelled(js, n, SkipSpace(js, 0)) && SkipSpace(js, Finish(n)) == |js|
  }

  // The tree of a text is one that the navigation works on.
  lemma {:induction false} SpelledIsJson(js: string, n: Node, from: nat)
    requires Spelled(js, n, from)
    ensures IsJson(n, |js|)
    decreases n, 1
  {
    match n.kind
    case Object =>
      MembersAreJson(js, n.kids, from + 1, n.end - 1);
    case Array =>
      ElementsAreJson(js, n.kids, from + 1, n.end - 1);
    case _ =>
  }

  lemma {:induction false} MembersAreJson(js: string, kids: seq<Node>, from: nat, to: nat)
    requires to < |js| && Members(js, kids, from, to)
    ensures forall i :: 0 <= i < |kids| ==> IsMember(kids[i], |js|)
    decreases kids, 0
  {
    if kids != [] {
      var m := kids[0];
      SpelledIsJson(js, m.kids[0], ValueAt(js, m));
      if |kids| > 1 {
        MembersAreJson(js, kids[1..], SkipSpace(js, Finish(m.kids[0])) + 1, to);
      }
    }
  }

  lemma {:induction false} ElementsAreJson(js: string, kids: seq<Node>, from: nat, to: nat)
    requires to < |js| && Elements(js, kids, from, to)
    ensures forall i :: 0 <= i < |kids| ==> IsJson(kids[i], |js|)
    decreases kids, 0
  {
    if kids != [] {
      SpelledIsJson(js, kids[0], SkipSpace(js, from));
      if |kids| > 1 {
        ElementsAreJson(js, kids[1..], SkipSpace(js, Finish(kids[0])) + 1, to);
      }
    }
  }
}
