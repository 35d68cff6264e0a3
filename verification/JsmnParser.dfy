/** The code of jsmn.h: a parser object and a token array updated in place, proved to compute Jsmn.Parse. */
module JsmnParser {
  import opened Jsmn

  class Parser {
    var pos: nat
    var toknext: nat
    var toksuper: int

    /** jsmn_init */
    constructor ()
      ensures pos == 0 && toknext == 0 && toksuper == -1
    {
      pos, toknext, toksuper := 0, 0, -1;
    }

    ghost predicate Valid(tokens: array<Token>)
      reads this
    {
      toknext <= tokens.Length && -1 <= toksuper < toknext
    }

    /** The parser and the filled part of the array, as a state of the tokenizer. */
    ghost function View(tokens: array<Token>): State
      requires toknext <= tokens.Length
      reads this, tokens
    {
      State(pos, toksuper, tokens[..toknext])
    }

    /** jsmn_alloc_token and jsmn_fill_token; false if the array is full. */
    method AddToken(tokens: array<Token>, t: Token) returns (ok: bool)
      requires Valid(tokens)
      modifies this`toknext, tokens
      ensures ok <==> old(toknext) < tokens.Length
      ensures Valid(tokens)
      ensures tokens[..toknext] == if ok then old(tokens[..toknext]) + [t] else old(tokens[..toknext])
    {
      if toknext >= tokens.Length {
        return false;
      }
      tokens[toknext] := Token(t.typ, -1, -1, 0);
      tokens[toknext] := t;
      toknext := toknext + 1;
      return true;
    }

    /** `tokens[toksuper].size++` */
    method CountInSuper(tokens: array<Token>)
      requires Valid(tokens)
      modifies tokens
      ensures tokens[..toknext] == CountChild(old(tokens[..toknext]), toksuper)
    {
      if toksuper != -1 {
        tokens[toksuper] := tokens[toksuper].(size := tokens[toksuper].size + 1);
      }
    }

    /** An opening bracket; false is JSMN_ERROR_NOMEM. */
    method Open(js: string, tokens: array<Token>) returns (ok: bool)
      requires Valid(tokens) && pos < |js|
      modifies this, tokens
      ensures Valid(tokens)
      ensures var r := OpenBracket(js, old(View(tokens)), Tokens(tokens.Length));
              && (ok <==> r.Go?)
              && (ok ==> View(tokens) == r.st && r.added == 1)
              && (!ok ==> View(tokens) == old(View(tokens)) && r == Stop(NOMEM))
    {
      var typ := if js[pos] == '{' then Object else Array;
      ok := AddToken(tokens, Token(typ, pos, -1, 0));
      if !ok {
        return;
      }
      CountInSuper(tokens);
      toksuper := toknext - 1;
      pos := pos + 1;
    }

    /** The backward scans for an open token below `n`. */
    method FindOpen(tokens: array<Token>, n: nat) returns (i: int)
      requires n <= toknext <= tokens.Length
      ensures i == LastOpen(tokens[..toknext], n)
    {
      i := n - 1;
      while i >= 0
        invariant -1 <= i < n && forall j :: i < j < n ==> !tokens[j].Open()
      {
        if tokens[i].start != -1 && tokens[i].end == -1 {
          break;
        }
        i := i - 1;
      }
    }

    /** A closing bracket; false is JSMN_ERROR_INVAL. */
    method Close(js: string, tokens: array<Token>) returns (ok: bool)
      requires Valid(tokens) && pos < |js|
      modifies this, tokens
      ensures Valid(tokens)
      ensures var r := CloseBracket(js, old(View(tokens)), Tokens(tokens.Length));
              && (ok <==> r.Go?)
              && (ok ==> View(tokens) == r.st && r.added == 0)
              && (!ok ==> View(tokens) == old(View(tokens)) && r == Stop(INVAL))
    {
      var typ := if js[pos] == '}' then Object else Array;
      var i := FindOpen(tokens, toknext);
      if i == -1 || tokens[i].typ != typ {
        return false;
      }
      ghost var toks := tokens[..toknext];
      tokens[i] := tokens[i].(end := pos + 1);
      assert tokens[..toknext] == toks[i := toks[i].(end := pos + 1)];
      toksuper := FindOpen(tokens, i);
      LastOpenFrame(toks, tokens[..toknext], i);
      pos := pos + 1;
      return true;
    }

    /** A comma: the superior token becomes the innermost open container again. */
    method AtComma(tokens: array<Token>)
      requires Valid(tokens)
      modifies this`pos, this`toksuper
      ensures Valid(tokens) && View(tokens) == Comma(old(View(tokens)), Tokens(tokens.Length)).st
    {
      if toksuper != -1 && tokens[toksuper].typ != Array && tokens[toksuper].typ != Object {
        var i := toknext - 1;
        while i >= 0
          invariant -1 <= i < toknext && toksuper == old(toksuper)
          invariant forall j :: i < j < toknext ==> !(tokens[j].Open() && tokens[j].Container())
        {
          if (tokens[i].typ == Array || tokens[i].typ == Object) && tokens[i].start != -1 && tokens[i].end == -1 {
            toksuper := i;
            break;
          }
          i := i - 1;
        }
      }
      pos := pos + 1;
    }

    /** A string or primitive found between `start` and `end`; false is JSMN_ERROR_NOMEM. */
    method Leaf(tokens: array<Token>, typ: Type, start: nat, end: nat, next: nat) returns (ok: bool)
      requires Valid(tokens)
      modifies this`pos, this`toknext, tokens
      ensures Valid(tokens)
      ensures var r := AddLeaf(old(View(tokens)), Tokens(tokens.Length), typ, start, end, next);
              && (ok <==> r.Go?)
              && (ok ==> View(tokens) == r.st && r.added == 1)
              && (!ok ==> View(tokens) == old(View(tokens)) && r == Stop(NOMEM))
    {
      ok := AddToken(tokens, Token(typ, start, end, 0));
      if ok {
        CountInSuper(tokens);
        pos := next;
      }
    }

    /** One iteration of jsmn_parse's loop on the array: 0 to go on, else the error it returns. */
    method ParseChar(js: string, tokens: array<Token>) returns (code: int, added: nat)
      requires Valid(tokens) && !AtEnd(js, pos)
      modifies this, tokens
      ensures Valid(tokens)
      ensures var r := Step(js, old(View(tokens)), Tokens(tokens.Length));
              if r.Go? then code == 0 && View(tokens) == r.st && added == r.added
              else code == r.code && View(tokens) == old(View(tokens))
    {
      var c, ok := js[pos], true;
      code, added := 0, 0;
      if c == '{' || c == '[' {
        ok := Open(js, tokens);
        code, added := if ok then 0 else NOMEM, 1;
      } else if c == '}' || c == ']' {
        ok := Close(js, tokens);
        code := if ok then 0 else INVAL;
      } else if c == '\"' {
        var scan := ScanQuoted(js, pos + 1);
        if !scan.Closed? {
          return if scan.Bad? then INVAL else PART, 0;
        }
        ok := Leaf(tokens, String, pos + 1, scan.at, scan.at + 1);
        code, added := if ok then 0 else NOMEM, 1;
      } else if c == '\t' || c == '\r' || c == '\n' || c == ' ' {
        pos := pos + 1;
      } else if c == ':' {
        toksuper := toknext - 1;
        pos := pos + 1;
      } else if c == ',' {
        AtComma(tokens);
      } else {
        var e := ScanPrimitive(js, pos);
        if e == -1 {
          return INVAL, 0;
        }
        ok := Leaf(tokens, Primitive, pos, e, e);
        code, added := if ok then 0 else NOMEM, 1;
      }
    }

    /** jsmn_parse with a token array. */
    method Run(js: string, tokens: array<Token>) returns (r: int)
      requires Valid(tokens) && pos <= |js|
      modifies this, tokens
      ensures Valid(tokens) && (r, View(tokens)) == Call(js, old(View(tokens)), Tokens(tokens.Length))
    {
      var count := toknext;
      hide Step;
      while pos < |js| && js[pos] != '\0'
        invariant Valid(tokens) && pos <= |js|
        invariant Parse(js, View(tokens), count, Tokens(tokens.Length)) ==
                    Call(js, old(View(tokens)), Tokens(tokens.Length))
        decreases |js| - pos
      {
        var code, added := ParseChar(js, tokens);
        if code != 0 {
          return code;
        }
        count := count + added;
      }
      var i := FindOpen(tokens, toknext);
      return if i >= 0 then PART else count;
    }

    /** One turn of jsmn_parse's loop with a null array; `filled` stands for the tokens of earlier calls. */
    method NullChar(js: string, ghost filled: seq<Token>) returns (code: int, added: nat)
      requires |filled| == toknext && pos <= |js| && !AtEnd(js, pos)
      modifies this`pos, this`toksuper
      ensures var r := Step(js, State(old(pos), old(toksuper), filled), Null);
              if r.Go? then code == 0 && State(pos, toksuper, filled) == r.st && added == r.added
              else code == r.code && pos == old(pos) && toksuper == old(toksuper)
      ensures pos <= |js| && (code == 0 ==> pos > old(pos))
    {
      code, added := 0, 0;
      var c := js[pos];
      if c == '{' || c == '[' {
        added, pos := 1, pos + 1;
      } else if c == '\"' {
        var scan := ScanQuoted(js, pos + 1);
        if !scan.Closed? {
          return if scan.Bad? then INVAL else PART, 0;
        }
        added, pos := 1, scan.at + 1;
      } else if c == '}' || c == ']' || c == '\t' || c == '\r' || c == '\n' || c == ' ' || c == ',' {
        pos := pos + 1;
      } else if c == ':' {
        toksuper := toknext - 1;
        pos := pos + 1;
      } else {
        var e := ScanPrimitive(js, pos);
        if e == -1 {
          return INVAL, 0;
        }
        added, pos := 1, e;
      }
    }

    /** jsmn_parse with a null array: only `pos` and `toksuper` move. */
    method RunNull(js: string, ghost filled: seq<Token>) returns (r: int)
      requires |filled| == toknext && pos <= |js|
      modifies this`pos, this`toksuper
      ensures (r, State(pos, toksuper, filled)) == Call(js, State(old(pos), old(toksuper), filled), Null)
    {
      var count := toknext;
      hide Step;
      while pos < |js| && js[pos] != '\0'
        invariant pos <= |js|
        invariant Parse(js, State(pos, toksuper, filled), count, Null) ==
                    Call(js, State(old(pos), old(toksuper), filled), Null)
        decreases |js| - pos
      {
        var code, added := NullChar(js, filled);
        if code != 0 {
          return code;
        }
        count := count + added;
      }
      return count;
    }
  }

  lemma {:induction false} LastOpenFrame(toks: seq<Token>, toks': seq<Token>, n: nat)
    requires n <= |toks| == |toks'| && forall i :: 0 <= i < n ==> toks'[i] == toks[i]
    ensures LastOpen(toks', n) == LastOpen(toks, n)
  {
    if n > 0 {
      LastOpenFrame(toks, toks', n - 1);
    }
  }

  // ---- The character loops ----

  /** The loop of jsmn_parse_primitive: the end of the primitive, or -1. */
  method ScanPrimitive(js: string, start: nat) returns (e: int)
    requires start <= |js|
    ensures e == PrimitiveEnd(js, start)
  {
    e := start;
    while e < |js| && js[e] != '\0' && !Delimiter(js[e])
      invariant start <= e <= |js| && PrimitiveEnd(js, start) == PrimitiveEnd(js, e)
    {
      if js[e] as int < 32 || js[e] as int >= 127 {
        return -1;
      }
      e := e + 1;
    }
  }

  /** The \uXXXX loop of jsmn_parse_string. */
  method ScanHex(js: string, start: nat) returns (e: int)
    requires start <= |js|
    ensures e == HexEnd(js, start, 4)
  {
    e := start;
    var i := 0;
    while i < 4 && e < |js| && js[e] != '\0'
      invariant 0 <= i <= 4 && start <= e <= |js| && HexEnd(js, start, 4) == HexEnd(js, e, 4 - i)
    {
      if !Hex(js[e]) {
        return -1;
      }
      e := e + 1;
      i := i + 1;
    }
  }

  /** The loop of jsmn_parse_string after the opening quote. */
  method ScanQuoted(js: string, start: nat) returns (r: StringScan)
    requires start <= |js|
    ensures r == ScanString(js, start)
  {
    var p := start;
    while p < |js| && js[p] != '\0'
      invariant start <= p <= |js| && ScanString(js, start) == ScanString(js, p)
      decreases |js| - p
    {
      if js[p] == '\"' {
        return Closed(p);
      }
      if js[p] == '\\' && p + 1 < |js| {
        if Escapable(js[p + 1]) {
          p := p + 2;
        } else if js[p + 1] == 'u' {
          var e := ScanHex(js, p + 2);
          if e == -1 {
            return Bad;
          }
          p := e;
        } else {
          return Bad;
        }
      } else {
        p := p + 1;
      }
    }
    return Unfinished;
  }
}
