/**
 * The jsmn tokenizer of jsmn.h (non-strict, no parent links) as a function of the input and the parser
 * state, with what it guarantees about tokens, about resuming after JSMN_ERROR_NOMEM, and about the
 * counting pass with a null token array.
 */
module Jsmn {

  const NOMEM := -1
  const INVAL := -2
  const PART := -3

  datatype Type = Undefined | Object | Array | String | Primitive

  datatype Token = Token(typ: Type, start: int, end: int, size: int)
  {
    /** An object or array whose closing bracket has not been seen. */
    predicate Open() {
      start != -1 && end == -1
    }

    predicate Container() {
      typ == Object || typ == Array
    }
  }

  /** `toks` is `tokens[0..toknext]`. */
  datatype State = State(pos: nat, toksuper: int, toks: seq<Token>)

  const Start := State(0, -1, [])

  /** The token array: null, or with room for `cap` tokens. */
  datatype Room = Null | Tokens(cap: nat)

  // ---- Scanning ----

  predicate AtEnd(js: string, pos: nat) {
    pos >= |js| || js[pos] == '\0'
  }

  predicate Delimiter(c: char) {
    c == ':' || c == '\t' || c == '\r' || c == '\n' || c == ' ' || c == ',' || c == ']' || c == '}'
  }

  predicate Unprintable(c: char) {
    c as int < 32 || c as int >= 127
  }

  /** Where the primitive that `pos` is in ends, or -1 if it has an invalid character. */
  function PrimitiveEnd(js: string, pos: nat): (e: int)
    requires pos <= |js|
    ensures e == -1 || (pos <= e <= |js| && (AtEnd(js, e) || Delimiter(js[e])))
    ensures forall i :: pos <= i < e ==> !Delimiter(js[i]) && !Unprintable(js[i])
    decreases |js| - pos
  {
    if AtEnd(js, pos) || Delimiter(js[pos]) then pos
    else if Unprintable(js[pos]) then -1
    else PrimitiveEnd(js, pos + 1)
  }

  predicate Escapable(c: char) {
    c == '\"' || c == '/' || c == '\\' || c == 'b' || c == 'f' || c == 'r' || c == 'n' || c == 't'
  }

  predicate Hex(c: char) {
    '0' <= c <= '9' || 'A' <= c <= 'F' || 'a' <= c <= 'f'
  }

  /** The position after at most `n` hex digits, or -1 at the first character that is not one. */
  function HexEnd(js: string, pos: nat, n: nat): (e: int)
    requires pos <= |js|
    ensures e == -1 || pos <= e <= |js|
    decreases n
  {
    if n == 0 || AtEnd(js, pos) then pos
    else if !Hex(js[pos]) then -1
    else HexEnd(js, pos + 1, n - 1)
  }

  datatype StringScan = Closed(at: nat) | Bad | Unfinished

  /** Scanning the inside of a string literal from `pos`. */
  function ScanString(js: string, pos: nat): (r: StringScan)
    requires pos <= |js|
    ensures r.Closed? ==> pos <= r.at < |js| && js[r.at] == '\"'
    decreases |js| - pos
  {
    if AtEnd(js, pos) then Unfinished
    else if js[pos] == '\"' then Closed(pos)
    else if js[pos] == '\\' && pos + 1 < |js| then
      if Escapable(js[pos + 1]) then ScanString(js, pos + 2)
      else if js[pos + 1] == 'u' then
        var e := HexEnd(js, pos + 2, 4);
        if e == -1 then Bad else ScanString(js, e)
      else Bad
    else ScanString(js, pos + 1)
  }

  // ---- One character of jsmn_parse ----

  /** The last open token below `n`, or -1. */
  function LastOpen(toks: seq<Token>, n: nat): (i: int)
    requires n <= |toks|
    ensures -1 <= i < n && (i >= 0 ==> toks[i].Open())
    ensures forall j :: i < j < n ==> !toks[j].Open()
  {
    if n == 0 then -1 else if toks[n - 1].Open() then n - 1 else LastOpen(toks, n - 1)
  }

  /** The last open object or array below `n`, or -1. */
  function LastOpenContainer(toks: seq<Token>, n: nat): (i: int)
    requires n <= |toks|
    ensures -1 <= i < n && (i >= 0 ==> toks[i].Open() && toks[i].Container())
    ensures forall j :: i < j < n ==> !(toks[j].Open() && toks[j].Container())
  {
    if n == 0 then -1 else if toks[n - 1].Open() &&
        toks[n - 1].Container() then n - 1 else LastOpenContainer(toks, n - 1)
  }

  /** `tokens[toksuper].size++` if there is a superior token. */
  function CountChild(toks: seq<Token>, toksuper: int): (r: seq<Token>)
    ensures |r| == |toks|
    ensures forall i :: 0 <= i < |toks| ==> r[i] == toks[i].(size := r[i].size)
  {
    if 0 <= toksuper < |toks| then toks[toksuper := toks[toksuper].(size := toks[toksuper].size + 1)] else toks
  }

  /** Either the parser goes on, having counted `added` tokens, or it returns `code`. */
  datatype Outcome = Go(st: State, added: nat) | Stop(code: int)

  function OpenBracket(js: string, st: State, room: Room): Outcome
    requires st.pos < |js|
  {
    if room.Null? then Go(st.(pos := st.pos + 1), 1)
    else if |st.toks| >= room.cap then Stop(NOMEM)
    else
      var typ := if js[st.pos] == '{' then Object else Array;
      Go(State(st.pos + 1, |st.toks|, CountChild(st.toks, st.toksuper) + [Token(typ, st.pos, -1, 0)]), 1)
  }

  function CloseBracket(js: string, st: State, room: Room): Outcome
    requires st.pos < |js|
  {
    if room.Null? then Go(st.(pos := st.pos + 1), 0)
    else
      var typ := if js[st.pos] == '}' then Object else Array;
      var i := LastOpen(st.toks, |st.toks|);
      if i == -1 || st.toks[i].typ != typ then Stop(INVAL)
      else
        Go(State(st.pos + 1, LastOpen(st.toks, i), st.toks[i := st.toks[i].(end := st.pos + 1)]), 0)
  }

  /** A string or primitive token from `start` to `end`; the parser moves to `next`. */
  function AddLeaf(st: State, room: Room, typ: Type, start: nat, end: nat, next: nat): Outcome {
    if room.Null? then Go(st.(pos := next), 1)
    else if |st.toks| >= room.cap then Stop(NOMEM)
    else Go(State(next, st.toksuper, CountChild(st.toks + [Token(typ, start, end, 0)], st.toksuper)), 1)
  }

  function Comma(st: State, room: Room): Outcome {
    var i := LastOpenContainer(st.toks, |st.toks|);
    if room.Tokens? && 0 <= st.toksuper < |st.toks| && !st.toks[st.toksuper].Container() && i >= 0
    then Go(st.(pos := st.pos + 1, toksuper := i), 0)
    else Go(st.(pos := st.pos + 1), 0)
  }

  function Step(js: string, st: State, room: Room): (r: Outcome)
    requires !AtEnd(js, st.pos)
    ensures r.Go? ==> st.pos < r.st.pos <= |js| && r.added <= 1
    ensures r.Stop? ==> r.code < 0
  {
    var c := js[st.pos];
    if c == '{' || c == '[' then OpenBracket(js, st, room)
    else if c == '}' || c == ']' then CloseBracket(js, st, room)
    else if c == '\"' then
      var r := ScanString(js, st.pos + 1);
      if r.Bad? then Stop(INVAL) else if r.Unfinished? then Stop(PART)
      else AddLeaf(st, room, String, st.pos + 1, r.at, r.at + 1)
    else if c == '\t' || c == '\r' || c == '\n' || c == ' ' then Go(st.(pos := st.pos + 1), 0)
    else if c == ':' then Go(st.(pos := st.pos + 1, toksuper := |st.toks| - 1), 0)
    else if c == ',' then Comma(st, room)
    else
      var e := PrimitiveEnd(js, st.pos);
      if e == -1 then Stop(INVAL) else AddLeaf(st, room, Primitive, st.pos, e, e)
  }

  /** What jsmn_parse returns, and the state it leaves: on an error, the state before the offending character. */
  function Parse(js: string, st: State, count: nat, room: Room): (r: (int, State))
    decreases |js| - st.pos
  {
    if AtEnd(js, st.pos) then
      (if room.Tokens? && LastOpen(st.toks, |st.toks|) >= 0 then PART else count, st)
    else
      match Step(js, st, room)
      case Stop(code) => (code, st)
      case Go(st', added) => Parse(js, st', count + added, room)
  }

  /** One call: `count` starts at `toknext`. */
  function Call(js: string, st: State, room: Room): (int, State) {
    Parse(js, st, |st.toks|, room)
  }

  // ---- What tokens look like ----

  predicate OpensWith(js: string, t: Token) {
    0 <= t.start < |js| && js[t.start] == if t.typ == Object then '{' else '['
  }

  /**
   * A token of the input below `pos`: from bracket to bracket, a string up to its closing quote, or a whole run of
   * primitive characters.
   */
  ghost predicate TokenOk(js: string, t: Token, pos: nat) {
    && 0 <= t.start < pos <= |js|
    && match t.typ {
         case Undefined => false
         case String =>
           && t.start <= t.end < pos && t.start > 0 && js[t.start - 1] == '\"' && js[t.end] == '\"'
           && ScanString(js, t.start) == Closed(t.end)
         case Primitive =>
           && t.start < t.end <= pos && (AtEnd(js, t.end) || Delimiter(js[t.end]))
           && (forall i :: t.start <= i < t.end ==> !Delimiter(js[i]) && !Unprintable(js[i]))
         case _ =>
           && OpensWith(js, t)
           && (t.Open() || (t.start + 1 < t.end <= pos && js[t.end - 1] == if t.typ == Object then '}' else ']'))
       }
  }

  /** Of two tokens in order the second starts later, and lies after or inside the first. */
  predicate NestedOrApart(a: Token, b: Token) {
    && a.start < b.start
    && (a.Open() || a.end <= b.start || (!b.Open() && b.end <= a.end))
  }

  ghost predicate Inv(js: string, st: State) {
    && st.pos <= |js|
    && -1 <= st.toksuper < |st.toks|
    && (forall i :: 0 <= i < |st.toks| ==> TokenOk(js, st.toks[i], st.pos))
    && (forall i, j :: 0 <= i < j < |st.toks| ==> NestedOrApart(st.toks[i], st.toks[j]))
  }

  /** Sizes play no part in it, and the position may move on. */
  lemma SizesDoNotMatter(js: string, toks: seq<Token>, toks': seq<Token>, pos: nat, pos': nat)
    requires |toks'| == |toks| && pos <= pos' <= |js|
    requires forall i :: 0 <= i < |toks| ==> toks'[i] == toks[i].(size := toks'[i].size)
    requires forall i :: 0 <= i < |toks| ==> TokenOk(js, toks[i], pos)
    requires forall i, j :: 0 <= i < j < |toks| ==> NestedOrApart(toks[i], toks[j])
    ensures forall i :: 0 <= i < |toks'| ==> TokenOk(js, toks'[i], pos')
    ensures forall i, j :: 0 <= i < j < |toks'| ==> NestedOrApart(toks'[i], toks'[j])
  {
    forall i | 0 <= i < |toks'|
      ensures TokenOk(js, toks'[i], pos')
    {
      assert TokenOk(js, toks[i], pos);
    }
    forall i, j | 0 <= i < j < |toks'|
      ensures NestedOrApart(toks'[i], toks'[j])
    {
      assert NestedOrApart(toks[i], toks[j]);
    }
  }

  /** A new token that starts at or after `pos` is apart from, or inside, all earlier ones. */
  lemma AppendToken(js: string, toks: seq<Token>, t: Token, pos: nat, pos': nat)
    requires pos <= pos' <= |js| && TokenOk(js, t, pos') && t.start >= pos
    requires forall i :: 0 <= i < |toks| ==> TokenOk(js, toks[i], pos)
    requires forall i, j :: 0 <= i < j < |toks| ==> NestedOrApart(toks[i], toks[j])
    ensures forall i :: 0 <= i < |toks| + 1 ==> TokenOk(js, (toks + [t])[i], pos')
    ensures forall i, j :: 0 <= i < j < |toks| + 1 ==> NestedOrApart((toks + [t])[i], (toks + [t])[j])
  {
    SizesDoNotMatter(js, toks, toks, pos, pos');
    forall i | 0 <= i < |toks|
      ensures NestedOrApart(toks[i], t)
    {
      assert TokenOk(js, toks[i], pos);
    }
  }

  lemma OpenKeepsInv(js: string, st: State, room: Room)
    requires Inv(js, st) && !AtEnd(js, st.pos) && (js[st.pos] == '{' || js[st.pos] == '[') &&
             OpenBracket(js, st, room).Go?
    ensures Inv(js, OpenBracket(js, st, room).st)
  {
    if room.Tokens? {
      var toks := CountChild(st.toks, st.toksuper);
      SizesDoNotMatter(js, st.toks, toks, st.pos, st.pos);
      var t := Token(if js[st.pos] == '{' then Object else Array, st.pos, -1, 0);
      AppendToken(js, toks, t, st.pos, st.pos + 1);
    } else {
      SizesDoNotMatter(js, st.toks, st.toks, st.pos, st.pos + 1);
    }
  }

  /** Closing the innermost open token: everything after it is closed and ends before it. */
  lemma CloseKeepsInv(js: string, st: State, room: Room)
    requires Inv(js, st) && !AtEnd(js, st.pos) && (js[st.pos] == '}' || js[st.pos] == ']') &&
             CloseBracket(js, st, room).Go?
    ensures Inv(js, CloseBracket(js, st, room).st)
  {
    hide ScanString, Delimiter, Unprintable;
    SizesDoNotMatter(js, st.toks, st.toks, st.pos, st.pos + 1);
    if room.Tokens? {
      var i := LastOpen(st.toks, |st.toks|);
      var toks := st.toks[i := st.toks[i].(end := st.pos + 1)];
      assert TokenOk(js, st.toks[i], st.pos);
      forall k, l | 0 <= k < l < |toks|
        ensures NestedOrApart(toks[k], toks[l])
      {
        assert NestedOrApart(st.toks[k], st.toks[l]) && TokenOk(js, st.toks[l], st.pos);
      }
    }
  }

  lemma LeafKeepsInv(js: string, st: State, room: Room, typ: Type, start: nat, end: nat, next: nat)
    requires Inv(js, st) && st.pos <= start && st.pos <= next <= |js| && TokenOk(js, Token(typ, start, end, 0), next)
    requires AddLeaf(st, room, typ, start, end, next).Go?
    ensures Inv(js, AddLeaf(st, room, typ, start, end, next).st)
  {
    if room.Tokens? {
      var toks := st.toks + [Token(typ, start, end, 0)];
      AppendToken(js, st.toks, Token(typ, start, end, 0), st.pos, next);
      SizesDoNotMatter(js, toks, CountChild(toks, st.toksuper), next, next);
    } else {
      SizesDoNotMatter(js, st.toks, st.toks, st.pos, next);
    }
  }

  lemma StepKeepsInv(js: string, st: State, room: Room)
    requires Inv(js, st) && !AtEnd(js, st.pos) && Step(js, st, room).Go?
    ensures Inv(js, Step(js, st, room).st)
  {
    hide ScanString, PrimitiveEnd, CountChild;
    var c := js[st.pos];
    if c == '{' || c == '[' {
      OpenKeepsInv(js, st, room);
    } else if c == '}' || c == ']' {
      CloseKeepsInv(js, st, room);
    } else if c == '\"' {
      var r := ScanString(js, st.pos + 1);
      LeafKeepsInv(js, st, room, String, st.pos + 1, r.at, r.at + 1);
    } else if c == '\t' || c == '\r' || c == '\n' || c == ' ' || c == ':' || c == ',' {
      SizesDoNotMatter(js, st.toks, st.toks, st.pos, st.pos + 1);
    } else {
      LeafKeepsInv(js, st, room, Primitive, st.pos, PrimitiveEnd(js, st.pos), PrimitiveEnd(js, st.pos));
    }
  }

  /** In every call, whatever it returns, tokens stay well formed and `toksuper` in range. */
  lemma {:induction false} ParseKeepsInv(js: string, st: State, count: nat, room: Room)
    requires Inv(js, st)
    ensures Inv(js, Parse(js, st, count, room).1)
    decreases |js| - st.pos
  {
    hide Inv, Step;
    if !AtEnd(js, st.pos) && Step(js, st, room).Go? {
      StepKeepsInv(js, st, room);
      ParseKeepsInv(js, Step(js, st, room).st, count + Step(js, st, room).added, room);
    }
  }

  /** Each token counted is a token filled. */
  lemma AddedIsFilled(js: string, st: State, cap: nat)
    requires !AtEnd(js, st.pos) && Step(js, st, Tokens(cap)).Go?
    ensures var r := Step(js, st, Tokens(cap)); |r.st.toks| == |st.toks| + r.added
  {
  }

  /** A successful call leaves no token open and returns the number of tokens. */
  lemma {:induction false} SuccessClosesAll(js: string, st: State, count: nat, cap: nat)
    requires Parse(js, st, count, Tokens(cap)).0 >= 0 && count == |st.toks|
    ensures var (n, st') := Parse(js, st, count, Tokens(cap));
            n == |st'.toks| && AtEnd(js, st'.pos) && LastOpen(st'.toks, |st'.toks|) == -1
    decreases |js| - st.pos
  {
    if !AtEnd(js, st.pos) {
      var r := Step(js, st, Tokens(cap));
      AddedIsFilled(js, st, cap);
      SuccessClosesAll(js, r.st, count + r.added, cap);
    }
  }

  /**
   * Token nesting. When jsmn_parse succeeds on a fresh parser it returns the number of tokens; they are
   * ordered by start, lie inside the input, every two are nested or disjoint, and every object and array
   * runs from its opening to a matching closing bracket.
   */
  lemma TokensNest(js: string, cap: nat)
    requires Call(js, Start, Tokens(cap)).0 >= 0
    ensures var (n, st) := Call(js, Start, Tokens(cap));
            && n == |st.toks| && -1 <= st.toksuper < n && st.pos <= |js|
            && (forall i :: 0 <= i < n ==> TokenOk(js, st.toks[i], st.pos) && !st.toks[i].Open())
            && (forall i, j :: 0 <= i < j < n ==>
                  && st.toks[i].start < st.toks[j].start
                  && (st.toks[i].end <= st.toks[j].start || st.toks[j].end <= st.toks[i].end))
  {
    ParseKeepsInv(js, Start, 0, Tokens(cap));
    SuccessClosesAll(js, Start, 0, cap);
    var st := Call(js, Start, Tokens(cap)).1;
    forall i, j | 0 <= i < j < |st.toks|
      ensures st.toks[i].start < st.toks[j].start
      ensures st.toks[i].end <= st.toks[j].start || st.toks[j].end <= st.toks[i].end
    {
      assert NestedOrApart(st.toks[i], st.toks[j]);
    }
  }

  // ---- Resuming with more room ----

  lemma MoreRoomSameStep(js: string, st: State, cap: nat, cap': nat)
    requires !AtEnd(js, st.pos) && cap <= cap' && Step(js, st, Tokens(cap)) != Stop(NOMEM)
    ensures Step(js, st, Tokens(cap')) == Step(js, st, Tokens(cap))
  {
  }

  lemma {:induction false} ResumeFrom(js: string, st: State, count: nat, cap: nat, cap': nat)
    requires cap <= cap' && Parse(js, st, count, Tokens(cap)).0 == NOMEM
    ensures var st' := Parse(js, st, count, Tokens(cap)).1;
            && |st'.toks| >= |st.toks|
            && Parse(js, st, count, Tokens(cap')) == Parse(js, st', count + (|st'.toks| - |st.toks|), Tokens(cap'))
    decreases |js| - st.pos
  {
    hide Step;
    if !AtEnd(js, st.pos) {
      var r := Step(js, st, Tokens(cap));
      if r.Go? {
        AddedIsFilled(js, st, cap);
        MoreRoomSameStep(js, st, cap, cap');
        ResumeFrom(js, r.st, count + r.added, cap, cap');
      }
    }
  }

  /** After JSMN_ERROR_NOMEM, calling again with a larger array gives what one call with that array would have given. */
  lemma Resume(js: string, st: State, cap: nat, cap': nat)
    requires cap <= cap' && Call(js, st, Tokens(cap)).0 == NOMEM
    ensures Call(js, Call(js, st, Tokens(cap)).1, Tokens(cap')) == Call(js, st, Tokens(cap'))
  {
    ResumeFrom(js, st, |st.toks|, cap, cap');
  }

  // ---- The counting pass ----

  /** With a null array the parser advances in step, and counts a token wherever the other pass needs room for one. */
  lemma NullStep(js: string, st: State, dry: State, cap: nat)
    requires !AtEnd(js, st.pos) && dry.pos == st.pos
    ensures var r, q := Step(js, st, Tokens(cap)), Step(js, dry, Null);
            && (r.Go? ==> q.Go? && q.st.pos == r.st.pos && q.added == r.added)
            && (r == Stop(NOMEM) ==> |st.toks| >= cap && q.Go? && q.added == 1)
  {
  }

  lemma {:induction false} CountGrows(js: string, st: State, count: nat, room: Room)
    requires Parse(js, st, count, room).0 >= 0
    ensures Parse(js, st, count, room).0 >= count
    decreases |js| - st.pos
  {
    hide Step;
    if !AtEnd(js, st.pos) {
      var r := Step(js, st, room);
      CountGrows(js, r.st, count + r.added, room);
    }
  }

  lemma {:induction false} SizingFrom(js: string, st: State, dry: State, cap: nat)
    requires dry.pos == st.pos && 0 <= Parse(js, dry, |st.toks|, Null).0 <= cap
    ensures var n := Parse(js, st, |st.toks|, Tokens(cap)).0;
            n != NOMEM && (n >= 0 ==> n == Parse(js, dry, |st.toks|, Null).0)
    decreases |js| - st.pos
  {
    hide Step;
    if !AtEnd(js, st.pos) {
      var r, q := Step(js, st, Tokens(cap)), Step(js, dry, Null);
      NullStep(js, st, dry, cap);
      if q.Go? {
        CountGrows(js, q.st, |st.toks| + q.added, Null);
      }
      if r.Go? {
        AddedIsFilled(js, st, cap);
        SizingFrom(js, r.st, q.st, cap);
      }
    }
  }

  /**
   * If the pass with a null array returns N, a pass with N tokens never runs out of room, and returns N if it
   * succeeds.
   */
  lemma Sizing(js: string)
    requires Call(js, Start, Null).0 >= 0
    ensures var n := Call(js, Start, Null).0; var r := Call(js, Start, Tokens(n)).0;
            r != NOMEM && (r >= 0 ==> r == n)
  {
    SizingFrom(js, Start, Start, Call(js, Start, Null).0);
  }

  lemma {:induction false} NullCountsFrom(js: string, st: State, dry: State, count: nat, cap: nat)
    requires dry.pos == st.pos && Parse(js, st, count, Tokens(cap)).0 >= 0
    ensures Parse(js, dry, count, Null).0 == Parse(js, st, count, Tokens(cap)).0
    decreases |js| - st.pos
  {
    hide Step;
    if !AtEnd(js, st.pos) {
      var r, q := Step(js, st, Tokens(cap)), Step(js, dry, Null);
      NullStep(js, st, dry, cap);
      NullCountsFrom(js, r.st, q.st, count + r.added, cap);
    }
  }

  /** Conversely, wherever the pass with tokens succeeds the null pass returns the same number. */
  lemma NullCounts(js: string, cap: nat)
    requires Call(js, Start, Tokens(cap)).0 >= 0
    ensures Call(js, Start, Null).0 == Call(js, Start, Tokens(cap)).0
  {
    NullCountsFrom(js, Start, Start, 0, cap);
  }
}
