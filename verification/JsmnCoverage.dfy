/**
 * That jsmn leaves nothing out: every character it has passed is accounted for by a token or is a separator, and
 * the size of a token is the number of tokens below it.
 */
module JsmnCoverage {
  import opened Jsmn

  // ---- Every character ----

  predicate Separator(c: char) {
    c == '\t' || c == '\r' || c == '\n' || c == ' ' || c == ':' || c == ','
  }

  /** Character i is a bracket of the container t, a quote or inside of the string t, or part of the primitive t. */
  predicate Accounts(t: Token, i: int) {
    match t.typ
    case String => t.start - 1 <= i <= t.end
    case Primitive => t.start <= i < t.end
    case _ => i == t.start || i == t.end - 1
  }

  ghost predicate Covered(js: string, toks: seq<Token>, i: nat)
    requires i < |js|
  {
    Separator(js[i]) || exists k :: 0 <= k < |toks| && Accounts(toks[k], i)
  }

  ghost predicate AllCovered(js: string, toks: seq<Token>, pos: nat) {
    pos <= |js| && forall i :: 0 <= i < pos ==> Covered(js, toks, i)
  }

  /** Tokens may change their size, close, and be added to. */
  ghost predicate Continues(toks: seq<Token>, toks': seq<Token>) {
    && |toks| <= |toks'|
    && forall k :: 0 <= k < |toks| ==>
         && toks'[k].typ == toks[k].typ && toks'[k].start == toks[k].start
         && (toks'[k].end == toks[k].end || (toks[k].end == -1 && toks[k].Container()))
  }

  lemma StaysCovered(js: string, toks: seq<Token>, toks': seq<Token>, pos: nat, pos': nat)
    requires AllCovered(js, toks, pos) && Continues(toks, toks') && pos <= pos' <= |js|
    requires forall i :: pos <= i < pos' ==> Covered(js, toks', i)
    ensures AllCovered(js, toks', pos')
  {
    forall i: nat | i < pos
      ensures Covered(js, toks', i)
    {
      assert Covered(js, toks, i);
      if k :| 0 <= k < |toks| && Accounts(toks[k], i) {
        assert Accounts(toks'[k], i);
      }
    }
  }

  lemma StepContinues(js: string, st: State, cap: nat)
    requires Inv(js, st) && !AtEnd(js, st.pos) && Step(js, st, Tokens(cap)).Go?
    ensures Continues(st.toks, Step(js, st, Tokens(cap)).st.toks)
  {
    var i := LastOpen(st.toks, |st.toks|);
    if i >= 0 {
      assert TokenOk(js, st.toks[i], st.pos);
    }
    hide Inv, ScanString, PrimitiveEnd;
  }

  lemma StepCovers(js: string, st: State, cap: nat)
    requires Inv(js, st) && !AtEnd(js, st.pos) && Step(js, st, Tokens(cap)).Go?
    ensures var st' := Step(js, st, Tokens(cap)).st;
            forall i :: st.pos <= i < st'.pos ==> Covered(js, st'.toks, i)
  {
    var st', c := Step(js, st, Tokens(cap)).st, js[st.pos];
    if c == '}' || c == ']' {
      var k := LastOpen(st.toks, |st.toks|);
      assert TokenOk(js, st.toks[k], st.pos);
      assert Accounts(st'.toks[k], st.pos);
    } else if !Separator(c) {
      var k := |st.toks|;
      assert forall i :: st.pos <= i < st'.pos ==> Accounts(st'.toks[k], i);
    }
  }

  lemma {:induction false} ParseCovers(js: string, st: State, count: nat, cap: nat)
    requires Inv(js, st) && AllCovered(js, st.toks, st.pos)
    ensures var st' := Parse(js, st, count, Tokens(cap)).1; AllCovered(js, st'.toks, st'.pos)
    decreases |js| - st.pos
  {
    hide Inv, Step, AllCovered, Continues, Covered;
    if !AtEnd(js, st.pos) && Step(js, st, Tokens(cap)).Go? {
      var r := Step(js, st, Tokens(cap));
      StepKeepsInv(js, st, Tokens(cap));
      StepContinues(js, st, cap);
      StepCovers(js, st, cap);
      StaysCovered(js, st.toks, r.st.toks, st.pos, r.st.pos);
      ParseCovers(js, r.st, count + r.added, cap);
    }
  }

  /**
   * Coverage. Whatever a call on a fresh parser returns, each character it has passed is white space, a colon or a
   * comma, or belongs to a token; if it succeeds it has passed the whole text.
   */
  lemma NothingSkipped(js: string, cap: nat)
    ensures var (n, st) := Call(js, Start, Tokens(cap));
            && st.pos <= |js| && (n >= 0 ==> AtEnd(js, st.pos))
            && (forall i :: 0 <= i < st.pos ==>
                  Separator(js[i]) || exists k :: 0 <= k < |st.toks| && Accounts(st.toks[k], i))
  {
    ParseCovers(js, Start, 0, cap);
    var (n, st) := Call(js, Start, Tokens(cap));
    if n >= 0 {
      SuccessClosesAll(js, Start, 0, cap);
    }
    forall i | 0 <= i < st.pos
      ensures Separator(js[i]) || exists k :: 0 <= k < |st.toks| && Accounts(st.toks[k], i)
    {
      assert Covered(js, st.toks, i);
    }
  }

  // ---- Sizes ----

  /** The superior of each token that the call will add, as it is when the token is added. */
  function Superiors(js: string, st: State, room: Room): seq<int>
    decreases |js| - st.pos
  {
    if AtEnd(js, st.pos) then []
    else
      match Step(js, st, room)
      case Stop(_) => []
      case Go(st', added) => (if added == 1 then [st.toksuper] else []) + Superiors(js, st', room)
  }

  /** How many of the superiors are k. */
  function Count(sups: seq<int>, k: int): nat {
    multiset(sups)[k]
  }

  ghost predicate Sized(toks: seq<Token>, sups: seq<int>) {
    |sups| == |toks| && forall k :: 0 <= k < |toks| ==> toks[k].size == Count(sups, k)
  }

  ghost predicate Colon(js: string, from: int, to: int) {
    exists i :: 0 <= i < |js| && from <= i < to && js[i] == ':'
  }

  /** a is a container that b starts inside of. */
  predicate Encloses(a: Token, b: Token) {
    a.Container() && a.start < b.start && (a.Open() || b.start < a.end)
  }

  /** p is the innermost container around token k, or a token inside that container with a colon between it and k. */
  ghost predicate SuperiorOk(js: string, toks: seq<Token>, k: nat, p: int)
    requires k < |toks|
  {
    && -1 <= p < k
    && (forall j :: 0 <= j < k && Encloses(toks[j], toks[k]) ==> j <= p)
    && (p == -1 || Encloses(toks[p], toks[k]) || Colon(js, toks[p].end, toks[k].start))
  }

  ghost predicate SuperiorsOk(js: string, toks: seq<Token>, sups: seq<int>) {
    |sups| == |toks| && forall k :: 0 <= k < |toks| ==> SuperiorOk(js, toks, k, sups[k])
  }

  /** `toksuper` is the innermost open token, or a later one with a colon behind it. */
  ghost predicate SuperNow(js: string, st: State) {
    var c := LastOpen(st.toks, |st.toks|);
    st.toksuper == c || (c < st.toksuper < |st.toks| && Colon(js, st.toks[st.toksuper].end, st.pos))
  }

  /** One step keeps all that: the tokens so far and their superiors. */
  ghost predicate SizeInv(js: string, st: State, sups: seq<int>) {
    Sized(st.toks, sups) && SuperiorsOk(js, st.toks, sups) && SuperNow(js, st)
  }

  lemma CountMore(sups: seq<int>, p: int)
    ensures forall k :: Count(sups + [p], k) == Count(sups, k) + if k == p then 1 else 0
  {
  }

  lemma NewIsSized(toks: seq<Token>, sups: seq<int>, p: int, t: Token)
    requires Sized(toks, sups) && -1 <= p < |toks| && t.size == 0
    requires forall i :: 0 <= i < |sups| ==> sups[i] < |toks|
    ensures Sized(CountChild(toks, p) + [t], sups + [p])
  {
    CountMore(sups, p);
    assert |toks| !in sups;
  }

  lemma CountLeaf(toks: seq<Token>, p: int, t: Token)
    requires -1 <= p < |toks|
    ensures CountChild(toks + [t], p) == CountChild(toks, p) + [t]
  {
  }

  lemma SizesKeepSuperiors(js: string, toks: seq<Token>, toks': seq<Token>, sups: seq<int>)
    requires SuperiorsOk(js, toks, sups) && |toks'| == |toks|
    requires forall i :: 0 <= i < |toks| ==> toks'[i] == toks[i].(size := toks'[i].size)
    ensures SuperiorsOk(js, toks', sups)
  {
    forall k | 0 <= k < |toks'|
      ensures SuperiorOk(js, toks', k, sups[k])
    {
      assert SuperiorOk(js, toks, k, sups[k]);
    }
  }

  /** The superior of a token that is about to be added. */
  lemma NewSuperior(js: string, st: State, toks: seq<Token>, t: Token)
    requires Inv(js, st) && SuperNow(js, st) && t.start >= st.pos && |toks| == |st.toks|
    requires forall i :: 0 <= i < |toks| ==> toks[i] == st.toks[i].(size := toks[i].size)
    ensures SuperiorOk(js, toks + [t], |toks|, st.toksuper)
  {
    var p := st.toksuper;
    forall j | 0 <= j < |toks| && Encloses(toks[j], t)
      ensures j <= p
    {
      assert TokenOk(js, st.toks[j], st.pos);
    }
    if p >= 0 {
      assert TokenOk(js, st.toks[p], st.pos);
      if p == LastOpen(st.toks, |st.toks|) {
        assert Encloses(toks[p], t);
      } else {
        ColonFurther(js, st.toks[p].end, st.pos, t.start);
      }
    }
  }

  lemma ColonFurther(js: string, from: int, to: int, to': int)
    requires Colon(js, from, to) && to <= to'
    ensures Colon(js, from, to')
  {
  }

  lemma AddKeepsSuperiors(js: string, st: State, sups: seq<int>, t: Token)
    requires Inv(js, st) && SizeInv(js, st, sups) && t.start >= st.pos
    ensures SuperiorsOk(js, CountChild(st.toks, st.toksuper) + [t], sups + [st.toksuper])
  {
    var toks := CountChild(st.toks, st.toksuper);
    SizesKeepSuperiors(js, st.toks, toks, sups);
    NewSuperior(js, st, toks, t);
    var all, sups' := toks + [t], sups + [st.toksuper];
    forall k | 0 <= k < |toks|
      ensures SuperiorOk(js, all, k, sups'[k])
    {
      assert SuperiorOk(js, toks, k, sups[k]);
    }
  }

  lemma AddKeepsSizes(js: string, st: State, sups: seq<int>, t: Token)
    requires Inv(js, st) && SizeInv(js, st, sups) && t.start >= st.pos && t.size == 0
    ensures var toks := CountChild(st.toks, st.toksuper) + [t];
            Sized(toks, sups + [st.toksuper]) && SuperiorsOk(js, toks, sups + [st.toksuper])
  {
    AddKeepsSuperiors(js, st, sups, t);
    forall i | 0 <= i < |sups|
      ensures sups[i] < |st.toks|
    {
      assert SuperiorOk(js, st.toks, i, sups[i]);
    }
    NewIsSized(st.toks, sups, st.toksuper, t);
  }

  lemma CloseKeepsSuperiors(js: string, st: State, sups: seq<int>, c: nat, end: nat)
    requires Inv(js, st) && SizeInv(js, st, sups) && c == LastOpen(st.toks, |st.toks|) && end > st.pos
    ensures SuperiorsOk(js, st.toks[c := st.toks[c].(end := end)], sups)
  {
    var toks := st.toks[c := st.toks[c].(end := end)];
    assert TokenOk(js, st.toks[c], st.pos);
    forall k | 0 <= k < |toks|
      ensures SuperiorOk(js, toks, k, sups[k])
    {
      assert SuperiorOk(js, st.toks, k, sups[k]) && TokenOk(js, st.toks[k], st.pos);
      assert forall j :: 0 <= j < k ==> NestedOrApart(st.toks[j], st.toks[k]);
      assert forall j :: 0 <= j < k ==> Encloses(toks[j], toks[k]) == Encloses(st.toks[j], st.toks[k]);
    }
  }

  /** The superiors after a step that leads to r. */
  function More(sups: seq<int>, st: State, r: Outcome): seq<int>
    requires r.Go?
  {
    if r.added == 1 then sups + [st.toksuper] else sups
  }

  lemma OpenKeepsSizes(js: string, st: State, sups: seq<int>, cap: nat)
    requires Inv(js, st) && SizeInv(js, st, sups) && st.pos < |js| && OpenBracket(js, st, Tokens(cap)).Go?
    ensures var r := OpenBracket(js, st, Tokens(cap)); SizeInv(js, r.st, More(sups, st, r))
  {
    hide Inv, Sized, SuperiorsOk, SuperNow;
    var r := OpenBracket(js, st, Tokens(cap));
    AddKeepsSizes(js, st, sups, Token(if js[st.pos] == '{' then Object else Array, st.pos, -1, 0));
    LastIsSuper(js, r.st);
  }

  lemma LastIsSuper(js: string, st: State)
    requires st.toks != [] && st.toksuper == |st.toks| - 1
    requires st.toks[st.toksuper].Open() || Colon(js, st.toks[st.toksuper].end, st.pos)
    ensures SuperNow(js, st)
  {
  }

  lemma CloseKeepsSizes(js: string, st: State, sups: seq<int>, cap: nat)
    requires Inv(js, st) && SizeInv(js, st, sups) && st.pos < |js| && CloseBracket(js, st, Tokens(cap)).Go?
    ensures var r := CloseBracket(js, st, Tokens(cap)); SizeInv(js, r.st, More(sups, st, r))
  {
    hide Inv, SuperiorsOk, Sized, SuperNow;
    var c := LastOpen(st.toks, |st.toks|);
    CloseKeepsSuperiors(js, st, sups, c, st.pos + 1);
    CloseKeepsRest(js, st, sups, c, st.pos + 1);
  }

  lemma CloseKeepsRest(js: string, st: State, sups: seq<int>, c: nat, end: nat)
    requires c == LastOpen(st.toks, |st.toks|) && Sized(st.toks, sups)
    ensures var toks := st.toks[c := st.toks[c].(end := end)];
            Sized(toks, sups) && SuperNow(js, State(end, LastOpen(st.toks, c), toks))
  {
    hide Count;
    var toks, b := st.toks[c := st.toks[c].(end := end)], LastOpen(st.toks, c);
    var a := LastOpen(toks, |toks|);
    assert a >= 0 ==> a < c && st.toks[a].Open();
    assert b >= 0 ==> toks[b].Open();
  }

  lemma LeafKeepsSizes(js: string, st: State, sups: seq<int>, cap: nat, typ: Type, start: nat, end: nat, next: nat)
    requires Inv(js, st) && SizeInv(js, st, sups) && start >= st.pos && next >= st.pos
    requires AddLeaf(st, Tokens(cap), typ, start, end, next).Go?
    ensures var r := AddLeaf(st, Tokens(cap), typ, start, end, next); SizeInv(js, r.st, More(sups, st, r))
  {
    var r, t := AddLeaf(st, Tokens(cap), typ, start, end, next), Token(typ, start, end, 0);
    CountLeaf(st.toks, st.toksuper, t);
    AddKeepsSizes(js, st, sups, t);
    StillSuper(js, st, r.st);
    hide Inv, Sized, SuperiorsOk, SuperNow;
  }

  /** The superior stays right when closed tokens are added and the position moves on. */
  lemma StillSuper(js: string, st: State, st': State)
    requires SuperNow(js, st) && st'.toksuper == st.toksuper < |st.toks| <= |st'.toks| && st'.pos >= st.pos
    requires forall i :: 0 <= i < |st.toks| ==> st'.toks[i] == st.toks[i].(size := st'.toks[i].size)
    requires forall i :: |st.toks| <= i < |st'.toks| ==> st'.toks[i].end != -1
    ensures SuperNow(js, st')
  {
    var c, c' := LastOpen(st.toks, |st.toks|), LastOpen(st'.toks, |st'.toks|);
    assert c >= 0 ==> st'.toks[c].Open();
    assert c' >= 0 ==> c' < |st.toks| && st.toks[c'].Open();
  }

  lemma SeparatorKeepsSizes(js: string, st: State, sups: seq<int>, cap: nat)
    requires Inv(js, st) && SizeInv(js, st, sups) && !AtEnd(js, st.pos) && Separator(js[st.pos])
    ensures var r := Step(js, st, Tokens(cap)); r.Go? && SizeInv(js, r.st, More(sups, st, r))
  {
    hide Sized, SuperiorsOk;
    if js[st.pos] == ':' {
      if st.toks != [] {
        assert TokenOk(js, st.toks[|st.toks| - 1], st.pos);
        assert Colon(js, st.toks[|st.toks| - 1].end, st.pos + 1);
      }
    } else {
      var c := LastOpen(st.toks, |st.toks|);
      if c >= 0 {
        assert TokenOk(js, st.toks[c], st.pos);
      }
      assert LastOpenContainer(st.toks, |st.toks|) == c;
    }
  }

  lemma StepKeepsSizes(js: string, st: State, sups: seq<int>, cap: nat)
    requires Inv(js, st) && SizeInv(js, st, sups) && !AtEnd(js, st.pos) && Step(js, st, Tokens(cap)).Go?
    ensures var r := Step(js, st, Tokens(cap)); SizeInv(js, r.st, More(sups, st, r))
  {
    hide Inv, SizeInv, OpenBracket, CloseBracket, AddLeaf, Comma;
    var c := js[st.pos];
    if c == '{' || c == '[' {
      OpenKeepsSizes(js, st, sups, cap);
    } else if c == '}' || c == ']' {
      CloseKeepsSizes(js, st, sups, cap);
    } else if c == '\"' {
      var r := ScanString(js, st.pos + 1);
      LeafKeepsSizes(js, st, sups, cap, String, st.pos + 1, r.at, r.at + 1);
    } else if Separator(c) {
      SeparatorKeepsSizes(js, st, sups, cap);
    } else {
      LeafKeepsSizes(js, st, sups, cap, Primitive, st.pos, PrimitiveEnd(js, st.pos), PrimitiveEnd(js, st.pos));
    }
  }

  lemma {:induction false} ParseKeepsSizes(js: string, st: State, count: nat, sups: seq<int>, cap: nat)
    requires Inv(js, st) && SizeInv(js, st, sups)
    ensures var st' := Parse(js, st, count, Tokens(cap)).1; SizeInv(js, st', sups + Superiors(js, st, Tokens(cap)))
    decreases |js| - st.pos
  {
    hide Inv, SizeInv, Step;
    if !AtEnd(js, st.pos) && Step(js, st, Tokens(cap)).Go? {
      var r := Step(js, st, Tokens(cap));
      StepKeepsInv(js, st, Tokens(cap));
      StepKeepsSizes(js, st, sups, cap);
      ParseKeepsSizes(js, r.st, count + r.added, More(sups, st, r), cap);
      assert sups + Superiors(js, st, Tokens(cap)) == More(sups, st, r) + Superiors(js, r.st, Tokens(cap));
    } else {
      assert sups + [] == sups;
    }
  }

  /**
   * Sizes. Whatever a call on a fresh parser returns, the size of each token is the number of tokens whose superior
   * it is; and the superior of a token is the innermost container around it, or a token inside that container with a
   * colon between the two.
   */
  lemma SizesCountChildren(js: string, cap: nat)
    ensures var st, sups := Call(js, Start, Tokens(cap)).1, Superiors(js, Start, Tokens(cap));
            && |sups| == |st.toks|
            && (forall k :: 0 <= k < |st.toks| ==> st.toks[k].size == Count(sups, k))
            && (forall k :: 0 <= k < |st.toks| ==> SuperiorOk(js, st.toks, k, sups[k]))
  {
    ParseKeepsSizes(js, Start, 0, [], cap);
    assert [] + Superiors(js, Start, Tokens(cap)) == Superiors(js, Start, Tokens(cap));
  }
}
