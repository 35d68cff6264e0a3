/**
 * JSON texts, with white space wherever JSON allows it, and that jsmn turns each of them into exactly the tokens of
 * its values: brackets, strings and primitives at their places, with the number of members, elements and values as
 * their sizes.
 */
module JsonText {
  import opened Jsmn

  // ---- String literals ----

  /** A character as it is, behind a backslash, or as \u with four hex digits. */
  datatype Unit = Raw(c: char) | Escaped(c: char) | Code(digits: string)

  predicate ValidUnit(u: Unit) {
    match u
    case Raw(c) => c != '\"' && c != '\\' && c != '\0'
    case Escaped(c) => Escapable(c)
    case Code(d) => |d| == 4 && forall i :: 0 <= i < 4 ==> Hex(d[i])
  }

  function UnitText(u: Unit): string {
    match u
    case Raw(c) => [c]
    case Escaped(c) => ['\\', c]
    case Code(d) => "\\u" + d
  }

  function UnitsText(us: seq<Unit>): string {
    if us == [] then "" else UnitText(us[0]) + UnitsText(us[1..])
  }

  predicate ValidUnits(us: seq<Unit>) {
    forall i :: 0 <= i < |us| ==> ValidUnit(us[i])
  }

  /** `t` stands at position p. */
  predicate At(js: string, p: nat, t: string) {
    p + |t| <= |js| && js[p..p + |t|] == t
  }

  lemma AtConcat(js: string, p: nat, t: string, u: string)
    requires At(js, p, t + u)
    ensures At(js, p, t) && At(js, p + |t|, u)
  {
    assert js[p..p + |t|] == (t + u)[..|t|];
    assert js[p + |t|..p + |t| + |u|] == (t + u)[|t|..];
  }

  lemma AtChar(js: string, p: nat, t: string, i: nat)
    requires At(js, p, t) && i < |t|
    ensures p + i < |js| && js[p + i] == t[i]
  {
    assert js[p..p + |t|][i] == t[i];
  }

  lemma AtJoin(js: string, p: nat, t: string, u: string)
    requires At(js, p, t) && At(js, p + |t|, u)
    ensures At(js, p, t + u)
  {
    var n := p + |t + u|;
    assert js[p..n] == js[p..p + |t|] + js[p + |t|..n];
  }

  lemma HexDigits(js: string, p: nat, d: string)
    requires At(js, p, d) && |d| == 4 && forall i :: 0 <= i < 4 ==> Hex(d[i])
    ensures HexEnd(js, p, 4) == p + 4
  {
    AtChar(js, p, d, 0);
    AtChar(js, p, d, 1);
    AtChar(js, p, d, 2);
    AtChar(js, p, d, 3);
    assert HexEnd(js, p + 4, 0) == p + 4;
    assert HexEnd(js, p + 3, 1) == p + 4;
    assert HexEnd(js, p + 2, 2) == p + 4;
    assert HexEnd(js, p + 1, 3) == p + 4;
  }

  lemma UnitScans(js: string, p: nat, u: Unit)
    requires At(js, p, UnitText(u)) && ValidUnit(u)
    ensures ScanString(js, p) == ScanString(js, p + |UnitText(u)|)
  {
    AtChar(js, p, UnitText(u), 0);
    if !u.Raw? {
      AtChar(js, p, UnitText(u), 1);
    }
    if u.Code? {
      AtConcat(js, p, "\\u", u.digits);
      HexDigits(js, p + 2, u.digits);
    }
  }

  lemma {:induction false} UnitsScan(js: string, p: nat, us: seq<Unit>)
    requires At(js, p, UnitsText(us)) && ValidUnits(us)
    ensures ScanString(js, p) == ScanString(js, p + |UnitsText(us)|)
    decreases |us|
  {
    hide ScanString, UnitText, ValidUnit, At;
    if us != [] {
      AtConcat(js, p, UnitText(us[0]), UnitsText(us[1..]));
      UnitScans(js, p, us[0]);
      UnitsScan(js, p + |UnitText(us[0])|, us[1..]);
    }
  }

  /** The unit at p, in a literal that is closed further on. */
  lemma FirstUnit(js: string, p: nat) returns (u: Unit)
    requires p <= |js| && ScanString(js, p).Closed? && ScanString(js, p).at != p
    ensures ValidUnit(u) && At(js, p, UnitText(u)) && ScanString(js, p) == ScanString(js, p + |UnitText(u)|)
    ensures p < p + |UnitText(u)| <= ScanString(js, p).at
  {
    if js[p] == '\\' && p + 1 < |js| && js[p + 1] == 'u' {
      u := FirstCode(js, p);
    } else if js[p] == '\\' && p + 1 < |js| {
      u := Escaped(js[p + 1]);
      assert js[p..p + 2] == UnitText(u);
    } else {
      u := Raw(js[p]);
      assert js[p..p + 1] == UnitText(u);
    }
  }

  lemma FirstCode(js: string, p: nat) returns (u: Unit)
    requires p + 1 < |js| && js[p] == '\\' && js[p + 1] == 'u' && ScanString(js, p).Closed?
    ensures ValidUnit(u) && At(js, p, UnitText(u)) && ScanString(js, p) == ScanString(js, p + |UnitText(u)|)
    ensures p < p + |UnitText(u)| <= ScanString(js, p).at
  {
    var e := HexEnd(js, p + 2, 4);
    assert e != -1 && ScanString(js, p) == ScanString(js, e);
    FourDigits(js, p + 2, 4);
    hide ScanString, HexEnd;
    u := Code(js[p + 2..e]);
    assert js[p..e] == UnitText(u);
  }

  lemma {:induction false} FourDigits(js: string, p: nat, n: nat)
    requires p <= |js| && HexEnd(js, p, n) != -1 && !AtEnd(js, HexEnd(js, p, n))
    ensures HexEnd(js, p, n) == p + n && forall i :: p <= i < p + n ==> i < |js| && Hex(js[i])
    decreases n
  {
    if n > 0 {
      FourDigits(js, p + 1, n - 1);
    }
  }

  lemma {:induction false} LiteralUnits(js: string, p: nat) returns (us: seq<Unit>)
    requires p <= |js| && ScanString(js, p).Closed?
    ensures ValidUnits(us) && At(js, p, UnitsText(us)) && p + |UnitsText(us)| == ScanString(js, p).at
    decreases |js| - p
  {
    hide ScanString, UnitText, ValidUnit;
    if ScanString(js, p).at == p {
      us := [];
    } else {
      var u := FirstUnit(js, p);
      var rest := LiteralUnits(js, p + |UnitText(u)|);
      us := [u] + rest;
      assert us[1..] == rest;
      AtJoin(js, p, UnitText(u), UnitsText(rest));
    }
  }

  /** The literal from p to e is a sequence of such characters. */
  ghost predicate Literal(js: string, p: nat, e: nat, us: seq<Unit>) {
    ValidUnits(us) && At(js, p, UnitsText(us)) && e == p + |UnitsText(us)| < |js| && js[e] == '\"'
  }

  /** A string ends at the quote exactly when what is before that quote is a sequence of such characters. */
  lemma ClosingQuote(js: string, p: nat, e: nat)
    requires p <= |js|
    ensures ScanString(js, p) == Closed(e) <==> exists us :: Literal(js, p, e, us)
  {
    if ScanString(js, p) == Closed(e) {
      var us := LiteralUnits(js, p);
      assert Literal(js, p, e, us);
    }
    if us :| Literal(js, p, e, us) {
      UnitsScan(js, p, us);
    }
  }

  // ---- Texts and their tokens ----

  /** JSON values with the white space that stands in their text. */
  datatype Json =
    | Prim(text: string)
    | Str(body: seq<Unit>)
    | Arr(pad: string, items: Items)
    | Obj(pad: string, members: Members)

  datatype Items = NoItems | Item(before: string, v: Json, after: string, rest: Items)

  datatype Members =
    NoMembers | Member(before: string, key: seq<Unit>, mid: string, gap: string, v: Json, after: string, rest: Members)

  function Quoted(us: seq<Unit>): string {
    "\"" + UnitsText(us) + "\""
  }

  function Text(v: Json): string
    decreases v, 0
  {
    match v
    case Prim(text) => text
    case Str(body) => Quoted(body)
    case Arr(pad, items) => "[" + pad + ItemsText(items) + "]"
    case Obj(pad, members) => "{" + pad + MembersText(members) + "}"
  }

  function ItemsText(items: Items): string
    decreases items, 0
  {
    match items
    case NoItems => ""
    case Item(before, v, after, rest) =>
      before + Text(v) + after + ItemsTail(rest)
  }

  function ItemsTail(rest: Items): string
    decreases rest, 1
  {
    if rest == NoItems then "" else "," + ItemsText(rest)
  }

  function MembersText(members: Members): string
    decreases members, 0
  {
    match members
    case NoMembers => ""
    case Member(before, key, mid, gap, v, after, rest) =>
      before + Quoted(key) + mid + ":" + gap + Text(v) + after + MembersTail(rest)
  }

  function MembersTail(rest: Members): string
    decreases rest, 1
  {
    if rest == NoMembers then "" else "," + MembersText(rest)
  }

  predicate AllSpace(pad: string) {
    forall i :: 0 <= i < |pad| ==> pad[i] == ' ' || pad[i] == '\t' || pad[i] == '\r' || pad[i] == '\n'
  }

  /** Numbers, true, false and null among others: printable, without delimiters, and not a string or container. */
  predicate ValidPrim(text: string) {
    && text != "" && text[0] != '\"' && text[0] != '{' && text[0] != '['
    && forall i :: 0 <= i < |text| ==> !Delimiter(text[i]) && !Unprintable(text[i])
  }

  predicate Valid(v: Json) {
    match v
    case Prim(text) => ValidPrim(text)
    case Str(body) => ValidUnits(body)
    case Arr(pad, items) => AllSpace(pad) && ValidItems(items)
    case Obj(pad, members) => AllSpace(pad) && ValidMembers(members)
  }

  predicate ValidItems(items: Items) {
    items.Item? ==> AllSpace(items.before) && Valid(items.v) && AllSpace(items.after) && ValidItems(items.rest)
  }

  predicate ValidMembers(ms: Members) {
    ms.Member? ==>
      && AllSpace(ms.before) && ValidUnits(ms.key) && AllSpace(ms.mid) && AllSpace(ms.gap)
      && Valid(ms.v) && AllSpace(ms.after) && ValidMembers(ms.rest)
  }

  function ItemCount(items: Items): nat {
    if items == NoItems then 0 else 1 + ItemCount(items.rest)
  }

  function MemberCount(ms: Members): nat {
    if ms == NoMembers then 0 else 1 + MemberCount(ms.rest)
  }

  /** The tokens of a value whose text starts at p. */
  function TokensOf(v: Json, p: nat): seq<Token> {
    match v
    case Prim(text) => [Token(Primitive, p, p + |text|, 0)]
    case Str(body) => [Token(String, p + 1, p + 1 + |UnitsText(body)|, 0)]
    case Arr(pad, items) => [Token(Array, p, p + |Text(v)|, ItemCount(items))] + ItemsTokens(items, p + 1 + |pad|)
    case Obj(pad, ms) => [Token(Object, p, p + |Text(v)|, MemberCount(ms))] + MembersTokens(ms, p + 1 + |pad|)
  }

  function ItemsTokens(items: Items, p: nat): seq<Token> {
    match items
    case NoItems => []
    case Item(before, v, after, rest) =>
      var q := p + |before|;
      TokensOf(v, q) + ItemsTokens(rest, q + |Text(v)| + |after| + 1)
  }

  /** A key has its value as its only child. */
  function MembersTokens(ms: Members, p: nat): seq<Token> {
    match ms
    case NoMembers => []
    case Member(before, key, mid, gap, v, after, rest) =>
      var k := p + |before|;
      var q := k + |Quoted(key)| + |mid| + 1 + |gap|;
      [Token(String, k + 1, k + 1 + |UnitsText(key)|, 1)] + TokensOf(v, q) +
      MembersTokens(rest, q + |Text(v)| + |after| + 1)
  }

  // ---- Single steps ----

  lemma CallStep(js: string, st: State, cap: nat, st': State)
    requires !AtEnd(js, st.pos) && Step(js, st, Tokens(cap)).Go? && Step(js, st, Tokens(cap)).st == st'
    ensures Call(js, st, Tokens(cap)) == Call(js, st', Tokens(cap))
  {
    AddedIsFilled(js, st, cap);
    hide Step;
  }

  lemma {:induction false} SpaceStep(js: string, st: State, pad: string, cap: nat)
    requires At(js, st.pos, pad) && AllSpace(pad)
    ensures Call(js, st, Tokens(cap)) == Call(js, st.(pos := st.pos + |pad|), Tokens(cap))
    decreases |pad|
  {
    hide Call;
    if pad != "" {
      AtChar(js, st.pos, pad, 0);
      assert pad == pad[..1] + pad[1..];
      AtConcat(js, st.pos, pad[..1], pad[1..]);
      CallStep(js, st, cap, st.(pos := st.pos + 1));
      SpaceStep(js, st.(pos := st.pos + 1), pad[1..], cap);
    }
  }

  /** A value is followed by a delimiter or the end. */
  predicate Follows(js: string, p: nat) {
    AtEnd(js, p) || Delimiter(js[p])
  }

  lemma {:induction false} PrimitiveScans(js: string, p: nat, e: nat)
    requires p <= e <= |js| && Follows(js, e)
    requires forall i :: p <= i < e ==> !Delimiter(js[i]) && !Unprintable(js[i])
    ensures PrimitiveEnd(js, p) == e
    decreases e - p
  {
    if p < e {
      PrimitiveScans(js, p + 1, e);
    }
  }

  lemma LeafAdds(st: State, cap: nat, typ: Type, start: nat, end: nat, next: nat)
    requires -1 <= st.toksuper < |st.toks| < cap
    ensures AddLeaf(st, Tokens(cap), typ, start, end, next) ==
            Go(State(next, st.toksuper, CountChild(st.toks, st.toksuper) + [Token(typ, start, end, 0)]), 1)
  {
    assert CountChild(st.toks + [Token(typ, start, end, 0)], st.toksuper) ==
           CountChild(st.toks, st.toksuper) + [Token(typ, start, end, 0)];
  }

  lemma PrimStep(js: string, st: State, text: string, cap: nat)
    requires At(js, st.pos, text) && ValidPrim(text) && Follows(js, st.pos + |text|)
    requires -1 <= st.toksuper < |st.toks| < cap
    ensures var toks := CountChild(st.toks, st.toksuper) + [Token(Primitive, st.pos, st.pos + |text|, 0)];
            Call(js, st, Tokens(cap)) == Call(js, State(st.pos + |text|, st.toksuper, toks), Tokens(cap))
  {
    var e := st.pos + |text|;
    forall i | st.pos <= i < e
      ensures !Delimiter(js[i]) && !Unprintable(js[i])
    {
      AtChar(js, st.pos, text, i - st.pos);
    }
    AtChar(js, st.pos, text, 0);
    PrimitiveScans(js, st.pos, e);
    LeafAdds(st, cap, Primitive, st.pos, e, e);
    hide Call, At, PrimitiveEnd, AddLeaf;
    CallStep(js, st, cap, State(e, st.toksuper,
      CountChild(st.toks, st.toksuper) + [Token(Primitive, st.pos, e, 0)]));
  }

  lemma QuoteCloses(js: string, e: nat)
    requires e < |js| && js[e] == '\"'
    ensures ScanString(js, e) == Closed(e)
  {
  }

  lemma StringStep(js: string, st: State, us: seq<Unit>, cap: nat)
    requires At(js, st.pos, Quoted(us)) && ValidUnits(us) && -1 <= st.toksuper < |st.toks| < cap
    ensures var e := st.pos + 1 + |UnitsText(us)|;
            var toks := CountChild(st.toks, st.toksuper) + [Token(String, st.pos + 1, e, 0)];
            Call(js, st, Tokens(cap)) == Call(js, State(e + 1, st.toksuper, toks), Tokens(cap))
  {
    hide Call, At, ScanString, AddLeaf, UnitsText;
    var e := st.pos + 1 + |UnitsText(us)|;
    assert Quoted(us) == "\"" + (UnitsText(us) + "\"");
    AtConcat(js, st.pos, "\"", UnitsText(us) + "\"");
    AtConcat(js, st.pos + 1, UnitsText(us), "\"");
    AtChar(js, st.pos, "\"", 0);
    AtChar(js, e, "\"", 0);
    UnitsScan(js, st.pos + 1, us);
    LeafAdds(st, cap, String, st.pos + 1, e, e + 1);
    QuoteCloses(js, e);
    CallStep(js, st, cap, State(e + 1, st.toksuper,
      CountChild(st.toks, st.toksuper) + [Token(String, st.pos + 1, e, 0)]));
  }

  // ---- Inside a container ----

  predicate AllClosed(toks: seq<Token>) {
    forall i :: 0 <= i < |toks| ==> !toks[i].Open()
  }

  /** The container t is open; `base` came before it and `done` is what it contains so far. */
  function Frame(base: seq<Token>, t: Token, done: seq<Token>): seq<Token> {
    base + [t] + done
  }

  lemma FrameOpen(base: seq<Token>, t: Token, done: seq<Token>)
    requires t.Open() && AllClosed(done)
    ensures var toks := Frame(base, t, done);
            && LastOpen(toks, |toks|) == |base| && LastOpen(toks, |base|) == LastOpen(base, |base|)
            && (t.Container() ==> LastOpenContainer(toks, |toks|) == |base|)
  {
    var toks := Frame(base, t, done);
    assert toks[|base|] == t && forall i :: |base| < i < |toks| ==> toks[i] == done[i - |base| - 1];
    assert forall i :: 0 <= i < |base| ==> toks[i] == base[i];
    var a, b := LastOpen(toks, |base|), LastOpen(base, |base|);
    assert a >= 0 ==> base[a].Open();
    assert b >= 0 ==> toks[b].Open();
  }

  /** A child is counted. */
  function Counted(t: Token): Token {
    t.(size := t.size + 1)
  }

  lemma FrameCounts(base: seq<Token>, t: Token, done: seq<Token>, more: seq<Token>)
    ensures CountChild(Frame(base, t, done), |base|) + more == Frame(base, Counted(t), done + more)
  {
  }

  /** The last token so far, a key, gets its value. */
  lemma KeyCounts(base: seq<Token>, t: Token, done: seq<Token>, key: Token, more: seq<Token>)
    ensures CountChild(Frame(base, t, done + [key]), |base| + 1 + |done|) + more ==
            Frame(base, t, done + ([Counted(key)] + more))
  {
  }

  predicate Closer(t: Token, c: char) {
    (t.typ == Object && c == '}') || (t.typ == Array && c == ']')
  }

  lemma FrameAt(base: seq<Token>, t: Token, done: seq<Token>, t': Token)
    ensures var toks := Frame(base, t, done);
            |toks| == |base| + 1 + |done| && toks[|base|] == t && toks[|base| := t'] == Frame(base, t', done)
  {
  }

  /** The closing bracket, whatever the superior token is. */
  lemma CloseStep(js: string, q: nat, sup: int, base: seq<Token>, t: Token, done: seq<Token>, cap: nat)
    requires q < |js| && Closer(t, js[q]) && t.Open() && AllClosed(done)
    ensures Call(js, State(q, sup, Frame(base, t, done)), Tokens(cap)) ==
            Call(js, State(q + 1, LastOpen(base, |base|), Frame(base, t.(end := q + 1), done)), Tokens(cap))
  {
    hide Call, Frame, LastOpen, AllClosed;
    var toks := Frame(base, t, done);
    FrameOpen(base, t, done);
    FrameAt(base, t, done, t.(end := q + 1));
    assert CloseBracket(js, State(q, sup, toks), Tokens(cap)).Go?;
    CallStep(js, State(q, sup, toks), cap,
      State(q + 1, LastOpen(base, |base|), Frame(base, t.(end := q + 1), done)));
  }

  /** A comma in a container: the container is the superior again, also after a key and its value. */
  lemma CommaStep(js: string, q: nat, sup: int, base: seq<Token>, t: Token, done: seq<Token>, cap: nat)
    requires q < |js| && js[q] == ',' && t.Open() && t.Container() && AllClosed(done)
    requires sup == |base| || (|base| < sup <= |base| + |done| && done[sup - |base| - 1].typ == String)
    ensures Call(js, State(q, sup, Frame(base, t, done)), Tokens(cap)) ==
            Call(js, State(q + 1, |base|, Frame(base, t, done)), Tokens(cap))
  {
    var toks := Frame(base, t, done);
    FrameOpen(base, t, done);
    FrameAt(base, t, done, t);
    assert sup > |base| ==> toks[sup] == done[sup - |base| - 1];
    hide Call, Frame, LastOpenContainer;
    CallStep(js, State(q, sup, toks), cap, State(q + 1, |base|, toks));
  }

  lemma ColonStep(js: string, st: State, cap: nat)
    requires st.pos < |js| && js[st.pos] == ':'
    ensures Call(js, st, Tokens(cap)) == Call(js, State(st.pos + 1, |st.toks| - 1, st.toks), Tokens(cap))
  {
    hide Call;
    CallStep(js, st, cap, State(st.pos + 1, |st.toks| - 1, st.toks));
  }

  lemma OpenStep(js: string, st: State, typ: Type, cap: nat)
    requires st.pos < |js| && js[st.pos] == (if typ == Object then '{' else '[') && (typ == Object || typ == Array)
    requires |st.toks| < cap
    ensures var base := CountChild(st.toks, st.toksuper);
            Call(js, st, Tokens(cap)) ==
            Call(js, State(st.pos + 1, |base|, Frame(base, Token(typ, st.pos, -1, 0), [])), Tokens(cap))
  {
    hide Call;
    var base, t := CountChild(st.toks, st.toksuper), Token(typ, st.pos, -1, 0);
    assert Frame(base, t, []) == base + [t];
    CallStep(js, st, cap, State(st.pos + 1, |base|, Frame(base, t, [])));
  }

  // ---- Values ----

  lemma {:induction false} ClosedTokens(v: Json, p: nat)
    ensures AllClosed(TokensOf(v, p)) && TokensOf(v, p) != []
    decreases v
  {
    match v
    case Prim(text) =>
    case Str(body) =>
    case Arr(pad, items) => ClosedItems(items, p + 1 + |pad|);
    case Obj(pad, ms) => ClosedMembers(ms, p + 1 + |pad|);
  }

  lemma {:induction false} ClosedItems(items: Items, p: nat)
    ensures AllClosed(ItemsTokens(items, p))
    decreases items
  {
    if items.Item? {
      var q := p + |items.before|;
      ClosedTokens(items.v, q);
      ClosedItems(items.rest, q + |Text(items.v)| + |items.after| + 1);
    }
  }

  lemma {:induction false} ClosedMembers(ms: Members, p: nat)
    ensures AllClosed(MembersTokens(ms, p))
    decreases ms
  {
    if ms.Member? {
      var q := p + |ms.before| + |Quoted(ms.key)| + |ms.mid| + 1 + |ms.gap|;
      ClosedTokens(ms.v, q);
      ClosedMembers(ms.rest, q + |Text(ms.v)| + |ms.after| + 1);
    }
  }

  /** The state after a value: it counts as a child of the superior, which a container takes with it. */
  function After(st: State, v: Json): State {
    State(st.pos + |Text(v)|, if v.Prim? || v.Str? then st.toksuper else LastOpen(st.toks, |st.toks|),
          CountChild(st.toks, st.toksuper) + TokensOf(v, st.pos))
  }

  lemma FollowsPad(js: string, p: nat, pad: string)
    requires At(js, p, pad) && AllSpace(pad) && Follows(js, p + |pad|)
    ensures Follows(js, p)
  {
    if pad != "" {
      AtChar(js, p, pad, 0);
    }
  }

  lemma ItemsTextIs(items: Items)
    requires items.Item?
    ensures ItemsText(items) == items.before + Text(items.v) + items.after + ItemsTail(items.rest)
  {
  }

  lemma MembersTextIs(ms: Members)
    requires ms.Member?
    ensures MembersText(ms) ==
            ms.before + Quoted(ms.key) + ms.mid + ":" + ms.gap + Text(ms.v) + ms.after + MembersTail(ms.rest)
  {
  }

  lemma ItemAt(js: string, p: nat, items: Items)
    requires items.Item? && At(js, p, ItemsText(items))
    ensures var p1 := p + |items.before|;
            var p2 := p1 + |Text(items.v)|;
            var p3 := p2 + |items.after|;
            && At(js, p, items.before) && At(js, p1, Text(items.v)) && At(js, p2, items.after)
            && (items.rest == NoItems ==> p + |ItemsText(items)| == p3)
            && (items.rest != NoItems ==> p3 < |js| && js[p3] == ',' && At(js, p3 + 1, ItemsText(items.rest)))
            && (items.rest != NoItems ==> p + |ItemsText(items)| == p3 + 1 + |ItemsText(items.rest)|)
  {
    hide ItemsText, Text, At;
    var tail := ItemsTail(items.rest);
    ItemsTextIs(items);
    AtConcat(js, p, items.before + Text(items.v) + items.after, tail);
    AtConcat(js, p, items.before + Text(items.v), items.after);
    AtConcat(js, p, items.before, Text(items.v));
    if items.rest != NoItems {
      var p3 := p + |items.before| + |Text(items.v)| + |items.after|;
      AtConcat(js, p3, ",", ItemsText(items.rest));
      AtChar(js, p3, ",", 0);
    }
  }

  lemma MemberAt(js: string, p: nat, ms: Members)
    requires ms.Member? && At(js, p, MembersText(ms))
    ensures var p1 := p + |ms.before|;
            var p2 := p1 + |Quoted(ms.key)|;
            var p3 := p2 + |ms.mid|;
            var p4 := p3 + 1 + |ms.gap|;
            var p5 := p4 + |Text(ms.v)|;
            var p6 := p5 + |ms.after|;
            && At(js, p, ms.before) && At(js, p1, Quoted(ms.key)) && At(js, p2, ms.mid)
            && p3 < |js| && js[p3] == ':'
            && At(js, p3 + 1, ms.gap) && At(js, p4, Text(ms.v)) && At(js, p5, ms.after)
            && (ms.rest == NoMembers ==> p + |MembersText(ms)| == p6)
            && (ms.rest != NoMembers ==> p6 < |js| && js[p6] == ',' && At(js, p6 + 1, MembersText(ms.rest)))
            && (ms.rest != NoMembers ==> p + |MembersText(ms)| == p6 + 1 + |MembersText(ms.rest)|)
  {
    hide MembersText, Text, Quoted, At;
    var tail := MembersTail(ms.rest);
    MembersTextIs(ms);
    var a := ms.before + Quoted(ms.key);
    var b := a + ms.mid;
    var c := b + ":";
    var d := c + ms.gap;
    var e := d + Text(ms.v);
    assert MembersText(ms) == e + ms.after + tail;
    AtConcat(js, p, e + ms.after, tail);
    AtConcat(js, p, e, ms.after);
    AtConcat(js, p, d, Text(ms.v));
    AtConcat(js, p, c, ms.gap);
    AtConcat(js, p, b, ":");
    AtChar(js, p + |b|, ":", 0);
    AtConcat(js, p, a, ms.mid);
    AtConcat(js, p, ms.before, Quoted(ms.key));
    if ms.rest != NoMembers {
      AtConcat(js, p + |e| + |ms.after|, ",", MembersText(ms.rest));
      AtChar(js, p + |e| + |ms.after|, ",", 0);
    }
  }

  lemma {:induction false} ItemsParse(js: string, p: nat, base: seq<Token>, t: Token, done: seq<Token>, items: Items,
                                      cap: nat)
    requires At(js, p, ItemsText(items)) && ValidItems(items) && p + |ItemsText(items)| < |js|
    requires Closer(t, js[p + |ItemsText(items)|]) && t.Open() && AllClosed(done)
    requires |base| + 1 + |done| + |ItemsTokens(items, p)| <= cap
    ensures var q := p + |ItemsText(items)|;
            var toks := Frame(base, t.(end := q + 1, size := t.size + ItemCount(items)), done + ItemsTokens(items, p));
            Call(js, State(p, |base|, Frame(base, t, done)), Tokens(cap)) ==
            Call(js, State(q + 1, LastOpen(base, |base|), toks), Tokens(cap))
    decreases items, 1
  {
    hide Call, Frame, LastOpen, AllClosed, At, Text, TokensOf, Follows;
    if items == NoItems {
      assert done + [] == done;
      CloseStep(js, p, |base|, base, t, done, cap);
    } else {
      ItemAt(js, p, items);
      var p1 := p + |items.before|;
      var p2 := p1 + |Text(items.v)|;
      var p3 := p2 + |items.after|;
      var done' := done + TokensOf(items.v, p1);
      ItemStep(js, p, base, t, done, items, cap);
      ClosedMore(done, items.v, p1);
      if items.rest == NoItems {
        CloseStep(js, p3, |base|, base, Counted(t), done', cap);
        assert TokensOf(items.v, p1) + [] == TokensOf(items.v, p1);
      } else {
        CommaStep(js, p3, |base|, base, Counted(t), done', cap);
        ItemsParse(js, p3 + 1, base, Counted(t), done', items.rest, cap);
        assert done' + ItemsTokens(items.rest, p3 + 1) == done + ItemsTokens(items, p);
      }
    }
  }

  lemma ClosedMore(done: seq<Token>, v: Json, p: nat)
    requires AllClosed(done)
    ensures AllClosed(done + TokensOf(v, p))
  {
    ClosedTokens(v, p);
  }

  /** One element with the white space around it. */
  lemma {:induction false} ItemStep(js: string, p: nat, base: seq<Token>, t: Token, done: seq<Token>, items: Items,
                                    cap: nat)
    requires items.Item? && At(js, p, ItemsText(items)) && ValidItems(items) && p + |ItemsText(items)| < |js|
    requires Closer(t, js[p + |ItemsText(items)|]) && t.Open() && AllClosed(done)
    requires |base| + 1 + |done| + |ItemsTokens(items, p)| <= cap
    ensures var p1 := p + |items.before|;
            var p3 := p1 + |Text(items.v)| + |items.after|;
            Call(js, State(p, |base|, Frame(base, t, done)), Tokens(cap)) ==
            Call(js, State(p3, |base|, Frame(base, Counted(t), done + TokensOf(items.v, p1))), Tokens(cap))
    decreases items, 0
  {
    hide Call, Frame, LastOpen, AllClosed, At, Text, TokensOf;
    ItemAt(js, p, items);
    var p1 := p + |items.before|;
    var p2 := p1 + |Text(items.v)|;
    var toks := Frame(base, t, done);
    FollowsPad(js, p2, items.after);
    FrameAt(base, t, done, t);
    FrameOpen(base, t, done);
    FrameCounts(base, t, done, TokensOf(items.v, p1));
    SpaceStep(js, State(p, |base|, toks), items.before, cap);
    ValueParses(js, State(p1, |base|, toks), items.v, cap);
    SpaceStep(js, State(p2, |base|, Frame(base, Counted(t), done + TokensOf(items.v, p1))), items.after, cap);
  }

  lemma {:induction false} ValueParses(js: string, st: State, v: Json, cap: nat)
    requires At(js, st.pos, Text(v)) && Valid(v) && Follows(js, st.pos + |Text(v)|)
    requires -1 <= st.toksuper < |st.toks| && |st.toks| + |TokensOf(v, st.pos)| <= cap
    ensures Call(js, st, Tokens(cap)) == Call(js, After(st, v), Tokens(cap))
    decreases v, 0
  {
    hide Call, At, LastOpen, Follows, CountChild;
    match v
    case Prim(text) => PrimStep(js, st, text, cap);
    case Str(body) => StringStep(js, st, body, cap);
    case Arr(pad, items) => ArrayParses(js, st, pad, items, cap);
    case Obj(pad, ms) => ObjectParses(js, st, pad, ms, cap);
  }

  lemma ContainerAt(js: string, p: nat, open: string, pad: string, body: string, close: string)
    requires |open| == |close| == 1 && At(js, p, open + pad + body + close)
    ensures p < |js| && js[p] == open[0] && At(js, p + 1, pad) && At(js, p + 1 + |pad|, body)
    ensures p + 1 + |pad| + |body| < |js| && js[p + 1 + |pad| + |body|] == close[0]
  {
    AtConcat(js, p, open + pad + body, close);
    AtChar(js, p + 1 + |pad| + |body|, close, 0);
    AtConcat(js, p, open + pad, body);
    AtConcat(js, p, open, pad);
    AtChar(js, p, open, 0);
  }

  lemma SameOpen(toks: seq<Token>, sup: int)
    ensures LastOpen(CountChild(toks, sup), |toks|) == LastOpen(toks, |toks|)
  {
    var toks' := CountChild(toks, sup);
    var a, b := LastOpen(toks', |toks|), LastOpen(toks, |toks|);
    assert a >= 0 ==> toks[a].Open();
    assert b >= 0 ==> toks'[b].Open();
  }

  /** The opening bracket and the white space after it. */
  lemma OpenAndPad(js: string, st: State, typ: Type, pad: string, cap: nat)
    requires st.pos < |js| && js[st.pos] == (if typ == Object then '{' else '[') && (typ == Object || typ == Array)
    requires |st.toks| < cap && At(js, st.pos + 1, pad) && AllSpace(pad)
    ensures var base := CountChild(st.toks, st.toksuper);
            Call(js, st, Tokens(cap)) ==
            Call(js, State(st.pos + 1 + |pad|, |base|, Frame(base, Token(typ, st.pos, -1, 0), [])), Tokens(cap))
  {
    hide Call, Frame, At;
    var base := CountChild(st.toks, st.toksuper);
    OpenStep(js, st, typ, cap);
    SpaceStep(js, State(st.pos + 1, |base|, Frame(base, Token(typ, st.pos, -1, 0), [])), pad, cap);
  }

  lemma {:induction false} ArrayParses(js: string, st: State, pad: string, items: Items, cap: nat)
    requires At(js, st.pos, Text(Arr(pad, items))) && Valid(Arr(pad, items))
    requires -1 <= st.toksuper < |st.toks| && |st.toks| + |TokensOf(Arr(pad, items), st.pos)| <= cap
    ensures Call(js, st, Tokens(cap)) == Call(js, After(st, Arr(pad, items)), Tokens(cap))
    decreases items, 2
  {
    hide Call, Frame, LastOpen, At, ItemsText, ItemsTokens;
    var base, t, p := CountChild(st.toks, st.toksuper), Token(Array, st.pos, -1, 0), st.pos + 1 + |pad|;
    ContainerAt(js, st.pos, "[", pad, ItemsText(items), "]");
    OpenAndPad(js, st, Array, pad, cap);
    ItemsParse(js, p, base, t, [], items, cap);
    SameOpen(st.toks, st.toksuper);
    FrameTokens(base, t.(end := st.pos + |Text(Arr(pad, items))|, size := ItemCount(items)), ItemsTokens(items, p));
  }

  lemma FrameTokens(base: seq<Token>, t: Token, more: seq<Token>)
    ensures Frame(base, t, [] + more) == base + ([t] + more)
  {
  }

  lemma {:induction false} ObjectParses(js: string, st: State, pad: string, ms: Members, cap: nat)
    requires At(js, st.pos, Text(Obj(pad, ms))) && Valid(Obj(pad, ms))
    requires -1 <= st.toksuper < |st.toks| && |st.toks| + |TokensOf(Obj(pad, ms), st.pos)| <= cap
    ensures Call(js, st, Tokens(cap)) == Call(js, After(st, Obj(pad, ms)), Tokens(cap))
    decreases ms, 2
  {
    hide Call, Frame, LastOpen, At, MembersText, MembersTokens;
    var base, t, p := CountChild(st.toks, st.toksuper), Token(Object, st.pos, -1, 0), st.pos + 1 + |pad|;
    ContainerAt(js, st.pos, "{", pad, MembersText(ms), "}");
    OpenAndPad(js, st, Object, pad, cap);
    MembersParse(js, p, base, t, [], ms, cap);
    SameOpen(st.toks, st.toksuper);
    FrameTokens(base, t.(end := st.pos + |Text(Obj(pad, ms))|, size := MemberCount(ms)), MembersTokens(ms, p));
  }

  /** The token of a member's key that starts at k, before and after its value has been counted. */
  function KeyToken(ms: Members, k: nat, size: nat): Token
    requires ms.Member?
  {
    Token(String, k + 1, k + 1 + |UnitsText(ms.key)|, size)
  }

  /** A member's key and value. */
  function MemberTokens(ms: Members, p: nat): seq<Token>
    requires ms.Member?
  {
    [KeyToken(ms, p + |ms.before|, 1)] +
    TokensOf(ms.v, p + |ms.before| + |Quoted(ms.key)| + |ms.mid| + 1 + |ms.gap|)
  }

  function MemberEnd(ms: Members, p: nat): nat
    requires ms.Member?
  {
    p + |ms.before| + |Quoted(ms.key)| + |ms.mid| + 1 + |ms.gap| + |Text(ms.v)| + |ms.after|
  }

  lemma {:induction false} MembersParse(js: string, p: nat, base: seq<Token>, t: Token, done: seq<Token>, ms: Members,
                                        cap: nat)
    requires At(js, p, MembersText(ms)) && ValidMembers(ms) && p + |MembersText(ms)| < |js|
    requires Closer(t, js[p + |MembersText(ms)|]) && t.Open() && AllClosed(done)
    requires |base| + 1 + |done| + |MembersTokens(ms, p)| <= cap
    ensures var q := p + |MembersText(ms)|;
            var toks := Frame(base, t.(end := q + 1, size := t.size + MemberCount(ms)), done + MembersTokens(ms, p));
            Call(js, State(p, |base|, Frame(base, t, done)), Tokens(cap)) ==
            Call(js, State(q + 1, LastOpen(base, |base|), toks), Tokens(cap))
    decreases ms, 1
  {
    hide Call, Frame, LastOpen, AllClosed, At, Text, TokensOf, Quoted, MemberTokens, MembersTokens, MembersText;
    MembersSplit(done, ms, p);
    if ms == NoMembers {
      CloseStep(js, p, |base|, base, t, done, cap);
    } else {
      var e, done' := MemberEnd(ms, p), done + MemberTokens(ms, p);
      MemberAt(js, p, ms);
      var sup := MemberStep(js, p, base, t, done, ms, cap);
      MemberClosed(done, ms, p);
      if ms.rest == NoMembers {
        CloseStep(js, e, sup, base, Counted(t), done', cap);
      } else {
        CommaStep(js, e, sup, base, Counted(t), done', cap);
        MembersParse(js, e + 1, base, Counted(t), done', ms.rest, cap);
      }
    }
  }

  lemma MembersSplit(done: seq<Token>, ms: Members, p: nat)
    ensures ms == NoMembers ==> done + MembersTokens(ms, p) == done && MembersText(ms) == ""
    ensures ms != NoMembers ==>
              var done' := done + MemberTokens(ms, p);
              && done + MembersTokens(ms, p) == done' + MembersTokens(ms.rest, MemberEnd(ms, p) + 1)
              && (ms.rest == NoMembers ==> done + MembersTokens(ms, p) == done')
              && |done| < |done'| && done'[|done|].typ == String
  {
    hide TokensOf, Text, Quoted, UnitsText;
  }

  lemma MemberClosed(done: seq<Token>, ms: Members, p: nat)
    requires AllClosed(done) && ms.Member?
    ensures AllClosed(done + MemberTokens(ms, p))
  {
    ClosedTokens(ms.v, p + |ms.before| + |Quoted(ms.key)| + |ms.mid| + 1 + |ms.gap|);
  }

  /** One member with its white space; the superior is then its key, or the object again. */
  lemma {:induction false} MemberStep(js: string, p: nat, base: seq<Token>, t: Token, done: seq<Token>, ms: Members,
                                      cap: nat) returns (sup: int)
    requires ms.Member? && At(js, p, MembersText(ms)) && ValidMembers(ms) && p + |MembersText(ms)| < |js|
    requires Closer(t, js[p + |MembersText(ms)|]) && t.Open() && AllClosed(done)
    requires |base| + 1 + |done| + |MembersTokens(ms, p)| <= cap
    ensures sup == |base| || sup == |base| + 1 + |done|
    ensures Call(js, State(p, |base|, Frame(base, t, done)), Tokens(cap)) ==
            Call(js, State(MemberEnd(ms, p), sup, Frame(base, Counted(t), done + MemberTokens(ms, p))), Tokens(cap))
    decreases ms, 0
  {
    hide Call, Frame, LastOpen, AllClosed, At, Text, TokensOf, Quoted, UnitsText;
    MemberAt(js, p, ms);
    var k := p + |ms.before|;
    var p2 := k + |Quoted(ms.key)|;
    var p4 := p2 + |ms.mid| + 1 + |ms.gap|;
    var p5 := p4 + |Text(ms.v)|;
    var key, t' := KeyToken(ms, k, 0), Counted(t);
    var toks := Frame(base, t', done + [key]);
    assert |MembersTokens(ms, p)| >= 1 + |TokensOf(ms.v, p4)|;
    KeyStep(js, p, base, t, done, ms, cap);
    ColonAndGap(js, p2 + |ms.mid|, |base|, toks, ms.gap, cap);
    FrameAt(base, t', done + [key], t');
    FollowsPad(js, p5, ms.after);
    ValueParses(js, State(p4, |base| + 1 + |done|, toks), ms.v, cap);
    KeyCounts(base, t', done, key, TokensOf(ms.v, p4));
    AllClosedKey(done, key);
    FrameOpen(base, t', done + [key]);
    sup := After(State(p4, |base| + 1 + |done|, toks), ms.v).toksuper;
    SpaceStep(js, State(p5, sup, Frame(base, t', done + MemberTokens(ms, p))), ms.after, cap);
  }

  lemma AllClosedKey(done: seq<Token>, key: Token)
    requires AllClosed(done) && key.end >= 0
    ensures AllClosed(done + [key])
  {
  }

  lemma ColonAndGap(js: string, q: nat, sup: int, toks: seq<Token>, gap: string, cap: nat)
    requires q < |js| && js[q] == ':' && At(js, q + 1, gap) && AllSpace(gap)
    ensures Call(js, State(q, sup, toks), Tokens(cap)) ==
            Call(js, State(q + 1 + |gap|, |toks| - 1, toks), Tokens(cap))
  {
    hide Call, At;
    ColonStep(js, State(q, sup, toks), cap);
    SpaceStep(js, State(q + 1, |toks| - 1, toks), gap, cap);
  }

  lemma KeyStep(js: string, p: nat, base: seq<Token>, t: Token, done: seq<Token>, ms: Members, cap: nat)
    requires ms.Member? && At(js, p, ms.before) && AllSpace(ms.before) && ValidUnits(ms.key)
    requires At(js, p + |ms.before|, Quoted(ms.key)) && AllSpace(ms.mid)
    requires At(js, p + |ms.before| + |Quoted(ms.key)|, ms.mid) && |base| + 1 + |done| < cap
    ensures var k := p + |ms.before|;
            Call(js, State(p, |base|, Frame(base, t, done)), Tokens(cap)) ==
            Call(js, State(k + |Quoted(ms.key)| + |ms.mid|, |base|,
                           Frame(base, Counted(t), done + [KeyToken(ms, k, 0)])), Tokens(cap))
  {
    hide Call, Frame, At, UnitsText;
    var k := p + |ms.before|;
    var toks, key := Frame(base, t, done), KeyToken(ms, k, 0);
    FrameAt(base, t, done, t);
    FrameCounts(base, t, done, [key]);
    SpaceStep(js, State(p, |base|, toks), ms.before, cap);
    StringStep(js, State(k, |base|, toks), ms.key, cap);
    SpaceStep(js, State(k + |Quoted(ms.key)|, |base|, Frame(base, Counted(t), done + [key])), ms.mid, cap);
  }

  // ---- Whole texts ----

  /**
   * JSON is tokenized: with room for them, a call on the text of a value, with white space around it, returns the
   * number of the value's tokens, and the tokens are exactly those. The null pass returns that number too.
   */
  lemma JsonIsTokenized(v: Json, before: string, after: string, cap: nat)
    requires Valid(v) && AllSpace(before) && AllSpace(after) && |TokensOf(v, |before|)| <= cap
    ensures var js := before + Text(v) + after;
            && Call(js, Start, Tokens(cap)) == (|TokensOf(v, |before|)|, State(|js|, -1, TokensOf(v, |before|)))
            && Call(js, Start, Null).0 == |TokensOf(v, |before|)|
  {
    hide TokensOf, Text, CountChild, Follows, AllClosed, Call, LastOpen, At;
    var js, p := before + Text(v) + after, |before|;
    var q := p + |Text(v)|;
    TextAt(before, Text(v), after);
    SpaceStep(js, Start, before, cap);
    FollowsPad(js, q, after);
    ValueParses(js, State(p, -1, []), v, cap);
    NoSuperior(TokensOf(v, p));
    SpaceStep(js, State(q, -1, TokensOf(v, p)), after, cap);
    ClosedTokens(v, p);
    AllRead(js, TokensOf(v, p), cap);
    NullCounts(js, cap);
  }

  lemma TextAt(before: string, text: string, after: string)
    ensures var js := before + text + after;
            && At(js, 0, before) && At(js, |before|, text) && At(js, |before| + |text|, after)
            && |js| == |before| + |text| + |after| && Follows(js, |js|)
  {
    var js := before + text + after;
    assert At(js, 0, js);
    AtConcat(js, 0, before + text, after);
    AtConcat(js, 0, before, text);
  }

  lemma NoSuperior(toks: seq<Token>)
    ensures CountChild([], -1) + toks == toks && LastOpen([], 0) == -1
  {
  }

  lemma AllRead(js: string, toks: seq<Token>, cap: nat)
    requires AllClosed(toks)
    ensures Call(js, State(|js|, -1, toks), Tokens(cap)) == (|toks|, State(|js|, -1, toks))
  {
  }
}
