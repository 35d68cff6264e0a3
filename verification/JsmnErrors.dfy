/**
 * What jsmn's error codes mean: JSMN_ERROR_INVAL that no continuation of the text can be accepted, and
 * JSMN_ERROR_PART that some continuation is.
 */
module JsmnErrors {
  import opened Jsmn

  // ---- Scanning a longer text ----

  lemma {:induction false} PrimitiveExtends(js: string, more: string, p: nat)
    requires p <= |js|
    ensures var e := PrimitiveEnd(js, p);
            e == -1 || !AtEnd(js, e) || (more != "" && Delimiter(more[0])) || e < |js| ==>
              PrimitiveEnd(js + more, p) == e
    decreases |js| - p
  {
    if p < |js| {
      assert (js + more)[p] == js[p];
      if !AtEnd(js, p) && !Delimiter(js[p]) && !Unprintable(js[p]) {
        PrimitiveExtends(js, more, p + 1);
      }
    } else if more != "" {
      assert (js + more)[p] == more[0];
    }
  }

  lemma {:induction false} HexExtends(js: string, more: string, p: nat, n: nat)
    requires p <= |js|
    ensures var e := HexEnd(js, p, n); e == -1 || e < |js| || e == p + n ==> HexEnd(js + more, p, n) == e
    decreases n
  {
    if n > 0 && p < |js| {
      assert (js + more)[p] == js[p];
      if !AtEnd(js, p) && Hex(js[p]) {
        HexExtends(js, more, p + 1, n - 1);
      }
    }
  }

  lemma {:induction false} StringExtends(js: string, more: string, p: nat)
    requires p <= |js| && !ScanString(js, p).Unfinished?
    ensures ScanString(js + more, p) == ScanString(js, p)
    decreases |js| - p
  {
    var all := js + more;
    assert forall i :: 0 <= i < |js| ==> all[i] == js[i];
    if js[p] == '\"' {
    } else if js[p] == '\\' && p + 1 < |js| {
      if Escapable(js[p + 1]) {
        StringExtends(js, more, p + 2);
      } else if js[p + 1] == 'u' {
        HexExtends(js, more, p + 2, 4);
        var e := HexEnd(js, p + 2, 4);
        if e != -1 {
          StringExtends(js, more, e);
        }
      }
    } else {
      StringExtends(js, more, p + 1);
    }
  }

  // ---- One step on a longer text ----

  /** A step that does not reach the end of the text is the same on a longer one; so is any, if a delimiter follows. */
  lemma StepExtends(js: string, more: string, st: State, room: Room)
    requires !AtEnd(js, st.pos)
    ensures var r := Step(js, st, room);
            r == Stop(INVAL) || (r.Go? && (r.st.pos < |js| || (more != "" && Delimiter(more[0])))) ==>
              !AtEnd(js + more, st.pos) && Step(js + more, st, room) == r
  {
    var c, all := js[st.pos], js + more;
    assert all[st.pos] == c;
    if c == '\"' {
      if !ScanString(js, st.pos + 1).Unfinished? {
        StringExtends(js, more, st.pos + 1);
      }
      hide ScanString, PrimitiveEnd;
    } else {
      PrimitiveExtends(js, more, st.pos);
      hide ScanString, PrimitiveEnd;
    }
  }

  // ---- INVAL is final ----

  lemma {:induction false} InvalidStays(js: string, more: string, st: State, count: nat, room: Room)
    requires Parse(js, st, count, room).0 == INVAL
    ensures Parse(js + more, st, count, room).0 == INVAL
    decreases |js| - st.pos
  {
    hide Step;
    if !AtEnd(js, st.pos) {
      StepExtends(js, more, st, room);
      var r := Step(js, st, room);
      if r.Go? {
        InvalidStays(js, more, r.st, count + r.added, room);
      }
    }
  }

  // ---- Room for all tokens ----

  lemma {:induction false} MoreRoom(js: string, st: State, count: nat, cap: nat, cap': nat)
    requires cap <= cap' && Parse(js, st, count, Tokens(cap)).0 != NOMEM
    ensures Parse(js, st, count, Tokens(cap')) == Parse(js, st, count, Tokens(cap))
    decreases |js| - st.pos
  {
    hide Step;
    if !AtEnd(js, st.pos) {
      var r := Step(js, st, Tokens(cap));
      MoreRoomSameStep(js, st, cap, cap');
      if r.Go? {
        MoreRoom(js, r.st, count + r.added, cap, cap');
      }
    }
  }

  // ---- Closing what is open ----

  /** The closing brackets of the open tokens below n, innermost first. */
  function Closers(toks: seq<Token>, n: nat): string
    requires n <= |toks|
  {
    var i := LastOpen(toks, n);
    if i == -1 then "" else [if toks[i].typ == Object then '}' else ']'] + Closers(toks, i)
  }

  /** Two token sequences with the same tokens open. */
  ghost predicate SameOpen(toks: seq<Token>, n: nat, toks': seq<Token>, n': nat) {
    && n <= |toks| && n <= n' <= |toks'|
    && (forall i :: 0 <= i < n ==> toks'[i].typ == toks[i].typ && (toks'[i].Open() <==> toks[i].Open()))
    && (forall i :: n <= i < n' ==> !toks'[i].Open())
  }

  lemma {:induction false} SameClosers(toks: seq<Token>, n: nat, toks': seq<Token>, n': nat)
    requires SameOpen(toks, n, toks', n')
    ensures LastOpen(toks', n') == LastOpen(toks, n) && Closers(toks', n') == Closers(toks, n)
    decreases n
  {
    var i, i' := LastOpen(toks, n), LastOpen(toks', n');
    assert i >= 0 ==> toks'[i].Open();
    assert i' >= 0 ==> i' < n && toks[i'].Open();
    if i >= 0 {
      SameClosers(toks, i, toks', i);
    }
  }

  ghost predicate OnlyContainersOpen(toks: seq<Token>) {
    forall i :: 0 <= i < |toks| && toks[i].Open() ==> toks[i].Container()
  }

  lemma {:induction false} AllClose(js: string, st: State, count: nat, cap: nat)
    requires OnlyContainersOpen(st.toks) && st.pos <= |js| && js[st.pos..] == Closers(st.toks, |st.toks|)
    ensures Parse(js, st, count, Tokens(cap)).0 == count
    decreases |js| - st.pos
  {
    var i := LastOpen(st.toks, |st.toks|);
    if i >= 0 {
      assert js[st.pos] == js[st.pos..][0];
      var toks := st.toks[i := st.toks[i].(end := st.pos + 1)];
      var st' := State(st.pos + 1, LastOpen(st.toks, i), toks);
      assert Step(js, st, Tokens(cap)) == Go(st', 0);
      assert js[st.pos + 1..] == js[st.pos..][1..];
      SameClosers(st.toks, i, toks, |toks|);
      AllClose(js, st', count, cap);
    }
  }

  // ---- Finishing a string ----

  function Noughts(n: nat): string {
    seq(n, _ => '0')
  }

  lemma {:induction false} HexFills(js: string, p: nat, n: nat, t: string)
    requires p <= |js| && '\0' !in js && HexEnd(js, p, n) == |js| < p + n
    requires |t| >= p + n - |js| && forall i :: 0 <= i < p + n - |js| ==> t[i] == '0'
    ensures HexEnd(js + t, p, n) == p + n
    decreases n
  {
    var all := js + t;
    if p < |js| {
      assert all[p] == js[p];
      HexFills(js, p + 1, n - 1, t);
    } else {
      Digits(all, p, n);
    }
  }

  lemma {:induction false} Digits(all: string, p: nat, n: nat)
    requires p + n <= |all| && forall i :: p <= i < p + n ==> all[i] == '0'
    ensures HexEnd(all, p, n) == p + n
    decreases n
  {
    if n > 0 {
      Digits(all, p + 1, n - 1);
    }
  }

  /** Text t finishes the string literal that js breaks off. */
  ghost predicate Finishes(js: string, p: nat, t: string) {
    p <= |js| && t != "" && ScanString(js + t, p) == Closed(|js| + |t| - 1)
  }

  lemma FinishesEarlier(js: string, p: nat, q: nat, t: string)
    requires p <= q <= |js| && ScanString(js + t, p) == ScanString(js + t, q) && Finishes(js, q, t)
    ensures Finishes(js, p, t)
  {
  }

  lemma {:induction false} StringCanFinish(js: string, p: nat) returns (t: string)
    requires p <= |js| && '\0' !in js && ScanString(js, p).Unfinished?
    ensures Finishes(js, p, t)
    decreases |js| - p
  {
    if p == |js| {
      t := "\"";
      assert (js + t)[p] == '\"';
    } else if js[p] == '\\' && p + 1 == |js| {
      t := "\"\"";
      var all := js + t;
      assert all[p] == '\\' && all[p + 1] == '\"' && all[p + 2] == '\"';
    } else if js[p] == '\\' && Escapable(js[p + 1]) {
      t := StringCanFinish(js, p + 2);
      assert (js + t)[p] == js[p] && (js + t)[p + 1] == js[p + 1];
      FinishesEarlier(js, p, p + 2, t);
    } else if js[p] == '\\' {
      t := CodeCanFinish(js, p);
    } else {
      t := StringCanFinish(js, p + 1);
      assert (js + t)[p] == js[p];
      FinishesEarlier(js, p, p + 1, t);
    }
  }

  lemma {:induction false} CodeCanFinish(js: string, p: nat) returns (t: string)
    requires p + 1 < |js| && '\0' !in js && ScanString(js, p).Unfinished? && js[p] == '\\' && js[p + 1] == 'u'
    ensures Finishes(js, p, t)
    decreases |js| - p, 0
  {
    var e := HexEnd(js, p + 2, 4);
    HexReads(js, p + 2, 4);
    if e == p + 6 {
      t := StringCanFinish(js, e);
      HexExtends(js, t, p + 2, 4);
    } else {
      t := Noughts(p + 6 - e) + "\"";
      HexFills(js, p + 2, 4, t);
      e := p + 6;
      assert (js + t)[e] == '\"';
    }
    var all := js + t;
    assert all[p] == js[p] && all[p + 1] == js[p + 1];
    assert ScanString(all, p) == ScanString(all, e);
  }

  lemma {:induction false} HexReads(js: string, p: nat, n: nat)
    requires p <= |js| && '\0' !in js && HexEnd(js, p, n) != -1
    ensures HexEnd(js, p, n) == if p + n <= |js| then p + n else |js|
    decreases n
  {
    if n > 0 && p < |js| {
      HexReads(js, p + 1, n - 1);
    }
  }

  // ---- PART can be completed ----

  /** The parser comes to the same state on the longer text, as the rest of it starts where the text breaks off. */
  lemma {:induction false} ReachesSame(js: string, more: string, st: State, count: nat, room: Room) returns (n: nat)
    requires Parse(js, st, count, room).0 == PART && '\0' !in js
    requires AtEnd(js, Parse(js, st, count, room).1.pos) ==> more != "" && Delimiter(more[0])
    ensures Parse(js + more, st, count, room) == Parse(js + more, Parse(js, st, count, room).1, n, room)
    decreases |js| - st.pos
  {
    hide Step, Delimiter;
    n := count;
    if !AtEnd(js, st.pos) {
      var r := Step(js, st, room);
      if r.Go? {
        StepExtends(js, more, st, room);
        n := ReachesSame(js, more, r.st, count + r.added, room);
      }
    }
  }

  lemma {:induction false} StopsAt(js: string, st: State, count: nat, cap: nat)
    requires Parse(js, st, count, Tokens(cap)).0 == PART && Inv(js, st) && '\0' !in js
    ensures var st' := Parse(js, st, count, Tokens(cap)).1;
            && Inv(js, st') && (AtEnd(js, st'.pos) ==> LastOpen(st'.toks, |st'.toks|) >= 0)
            && (!AtEnd(js, st'.pos) ==> js[st'.pos] == '\"' && ScanString(js, st'.pos + 1).Unfinished?)
    decreases |js| - st.pos
  {
    if !AtEnd(js, st.pos) {
      var r := Step(js, st, Tokens(cap));
      if r.Go? {
        StepKeepsInv(js, st, Tokens(cap));
        hide Inv, Step;
        StopsAt(js, r.st, count + r.added, cap);
      }
    }
  }

  lemma ContainersOpen(js: string, st: State)
    requires Inv(js, st)
    ensures OnlyContainersOpen(st.toks)
  {
    forall i | 0 <= i < |st.toks| && st.toks[i].Open()
      ensures st.toks[i].Container()
    {
      assert TokenOk(js, st.toks[i], st.pos);
    }
  }

  lemma ClosersDelimit(toks: seq<Token>)
    requires LastOpen(toks, |toks|) >= 0
    ensures Closers(toks, |toks|) != "" && Delimiter(Closers(toks, |toks|)[0])
  {
  }

  /** The text breaks off between tokens: the closing brackets complete it. */
  lemma BracketsComplete(js: string, cap: nat) returns (more: string)
    requires '\0' !in js && Call(js, Start, Tokens(cap)).0 == PART && AtEnd(js, Call(js, Start, Tokens(cap)).1.pos)
    ensures Call(js + more, Start, Tokens(cap)).0 >= 0
  {
    var st := Call(js, Start, Tokens(cap)).1;
    StopsAt(js, Start, 0, cap);
    ContainersOpen(js, st);
    hide Inv, Step;
    more := Closers(st.toks, |st.toks|);
    ClosersDelimit(st.toks);
    var n := ReachesSame(js, more, Start, 0, Tokens(cap));
    assert st.pos == |js| && (js + more)[st.pos..] == more;
    AllClose(js + more, st, n, cap);
  }

  /** The text breaks off inside a string: what finishes the string, and then the closing brackets, complete it. */
  lemma StringCompletes(js: string, cap: nat) returns (more: string, cap': nat)
    requires '\0' !in js && Call(js, Start, Tokens(cap)).0 == PART && !AtEnd(js, Call(js, Start, Tokens(cap)).1.pos)
    ensures Call(js + more, Start, Tokens(cap')).0 >= 0
  {
    var st := Call(js, Start, Tokens(cap)).1;
    StopsAt(js, Start, 0, cap);
    ContainersOpen(js, st);
    hide Inv, Step, ScanString, Closers;
    var t := StringCanFinish(js, st.pos + 1);
    more, cap' := t + Closers(st.toks, |st.toks|), cap + |st.toks| + 1;
    MoreRoom(js, Start, 0, cap, cap');
    var n := ReachesSame(js, more, Start, 0, Tokens(cap'));
    StringStep(js, t, st, n, cap');
  }

  lemma StringStep(js: string, t: string, st: State, n: nat, cap: nat)
    requires st.pos < |js| && js[st.pos] == '\"' && Finishes(js, st.pos + 1, t) && |st.toks| < cap
    requires OnlyContainersOpen(st.toks)
    ensures Parse(js + (t + Closers(st.toks, |st.toks|)), st, n, Tokens(cap)).0 >= 0
  {
    var rest, e := Closers(st.toks, |st.toks|), |js| + |t| - 1;
    var all := js + (t + rest);
    assert all == js + t + rest;
    StringExtends(js + t, rest, st.pos + 1);
    assert all[st.pos] == '\"';
    var toks := CountChild(st.toks + [Token(String, st.pos + 1, e, 0)], st.toksuper);
    var st' := State(e + 1, st.toksuper, toks);
    assert Step(all, st, Tokens(cap)) == Go(st', 1);
    SameClosers(st.toks, |st.toks|, toks, |toks|);
    assert all[e + 1..] == rest;
    AllClose(all, st', n + 1, cap);
  }

  /** js can go on in a way that, with some number of tokens, is accepted. */
  ghost predicate Completes(js: string, more: string, cap: nat) {
    Call(js + more, Start, Tokens(cap)).0 >= 0
  }

  lemma InvalidNeverCompletes(js: string, cap: nat, more: string, cap': nat)
    requires Call(js, Start, Tokens(cap)).0 == INVAL
    ensures !Completes(js, more, cap')
  {
    var big := if cap <= cap' then cap' else cap;
    MoreRoom(js, Start, 0, cap, big);
    InvalidStays(js, more, Start, 0, Tokens(big));
    if Completes(js, more, cap') {
      MoreRoom(js + more, Start, 0, cap', big);
    }
  }

  lemma {:induction false} Codes(js: string, st: State, count: nat, cap: nat)
    ensures var r := Parse(js, st, count, Tokens(cap)).0; r >= 0 || r == NOMEM || r == INVAL || r == PART
    decreases |js| - st.pos
  {
    if !AtEnd(js, st.pos) && Step(js, st, Tokens(cap)).Go? {
      var r := Step(js, st, Tokens(cap));
      hide Step;
      Codes(js, r.st, count + r.added, cap);
    }
  }

  /**
   * The error codes, for a text without NULs that a fresh parser has room for: JSMN_ERROR_PART says that it is not
   * accepted but can be completed to one that is, and JSMN_ERROR_INVAL that it cannot.
   */
  lemma ErrorsMean(js: string, cap: nat)
    requires '\0' !in js && Call(js, Start, Tokens(cap)).0 != NOMEM
    ensures var r := Call(js, Start, Tokens(cap)).0;
            && (r == INVAL <==> forall more, cap' :: !Completes(js, more, cap'))
            && (r == PART <==> r < 0 && exists more, cap' :: Completes(js, more, cap'))
  {
    var r := Call(js, Start, Tokens(cap)).0;
    Codes(js, Start, 0, cap);
    if r == INVAL {
      forall more, cap'
        ensures !Completes(js, more, cap')
      {
        InvalidNeverCompletes(js, cap, more, cap');
      }
    } else if r == PART {
      var more, cap' := "", cap;
      if AtEnd(js, Call(js, Start, Tokens(cap)).1.pos) {
        more := BracketsComplete(js, cap);
      } else {
        more, cap' := StringCompletes(js, cap);
      }
      assert Completes(js, more, cap');
    } else {
      assert js + "" == js;
      assert Completes(js, "", cap);
    }
  }
}
