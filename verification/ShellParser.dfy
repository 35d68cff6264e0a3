/**
 * The code of the shell's parser, proved to compute the functions of Shell; that every tree it builds
 * refers to whole words of the input; and that nulterminate turns each of them into a C string.
 */
module ShellParser {
  import opened Shell

  // ---- gettoken and peek ----

  method SkipSpaces(s: string, p: nat) returns (q: nat)
    requires p <= |s|
    ensures q == SkipWhite(s, p)
  {
    q := p;
    while q < |s| && White(s[q])
      invariant p <= q <= |s| && SkipWhite(s, p) == SkipWhite(s, q)
    {
      q := q + 1;
    }
  }

  method Gettoken(s: string, p: nat) returns (t: Token)
    requires p <= |s|
    ensures t == GetToken(s, p)
  {
    var q := SkipSpaces(s, p);
    if q == |s| {
      return Token(Eof, Span(q, q), q);
    }
    var kind, e := Sym(s[q]), q + 1;
    if s[q] == '>' {
      if e < |s| && s[e] == '>' {
        kind, e := Append, e + 1;
      }
    } else if !Symbol(s[q]) {
      kind, e := Word, q;
      while e < |s| && WordChar(s[e])
        invariant q <= e <= |s| && WordEnd(s, q) == WordEnd(s, e)
      {
        e := e + 1;
      }
    }
    var next := SkipSpaces(s, e);
    return Token(kind, Span(q, e), next);
  }

  method PeekFor(s: string, p: nat, toks: string) returns (q: nat, found: bool)
    requires p <= |s|
    ensures q == SkipWhite(s, p) && found == Peek(s, p, toks)
  {
    q := SkipSpaces(s, p);
    found := q < |s| && s[q] in toks;
  }

  /** Skipping white space first changes neither a token nor a look-ahead. */
  lemma SkipTwice(s: string, p: nat)
    requires p <= |s|
    ensures SkipWhite(s, SkipWhite(s, p)) == SkipWhite(s, p) && GetToken(s, SkipWhite(s, p)) == GetToken(s, p)
    ensures forall toks :: Peek(s, SkipWhite(s, p), toks) == Peek(s, p, toks)
  {
  }

  // ---- The grammar ----

  method Parseredirs(s: string, p: nat, before: seq<Redirection>) returns (r: Result<seq<Redirection>>)
    requires p <= |s|
    ensures r == ParseRedirs(s, p, before)
  {
    var at, rs := p, before;
    while true
      invariant p <= at <= |s| && ParseRedirs(s, p, before) == ParseRedirs(s, at, rs)
      decreases |s| - at
    {
      SkipTwice(s, at);
      var q, more := PeekFor(s, at, "<>");
      if !more {
        return Ok(rs, q);
      }
      var op := Gettoken(s, q);
      var file := Gettoken(s, op.next);
      if file.kind != Word {
        return Panic;
      }
      rs := rs + [Redirection(file.span, if op.kind == Sym('<') then ReadOnly else WriteCreate)];
      at := file.next;
    }
  }

  method Parseargs(s: string, p: nat, before: seq<Redirection>) returns (r: Result<Cmd>)
    requires p <= |s|
    ensures r == ParseArgs(s, p, [], before)
  {
    var at, argv, rs := p, [], before;
    while true
      invariant p <= at <= |s| && ParseArgs(s, p, [], before) == ParseArgs(s, at, argv, rs)
      decreases |s| - at
    {
      SkipTwice(s, at);
      var q, done := PeekFor(s, at, "|)&;");
      if done {
        return Ok(Wrap(Exec(argv), rs), q);
      }
      var t := Gettoken(s, q);
      if t.kind == Eof {
        return Ok(Wrap(Exec(argv), rs), q);
      }
      if t.kind != Word || |argv| + 1 >= MAXARGS {
        return Panic;
      }
      var more := Parseredirs(s, t.next, rs);
      if more.Panic? {
        return Panic;
      }
      at, argv, rs := more.pos, argv + [t.span], more.value;
    }
  }

  method Parseexec(s: string, p: nat) returns (r: Result<Cmd>)
    requires p <= |s|
    ensures r == ParseExec(s, p)
    decreases |s| - p, 1
  {
    var q, block := PeekFor(s, p, "(");
    if block {
      r := Parseblock(s, p);
      return;
    }
    var rs := Parseredirs(s, p, []);
    if rs.Panic? {
      return Panic;
    }
    r := Parseargs(s, rs.pos, rs.value);
  }

  method Parseblock(s: string, p: nat) returns (r: Result<Cmd>)
    requires p <= |s| && Peek(s, p, "(")
    ensures r == ParseBlock(s, p)
    decreases |s| - p, 0
  {
    var open := Gettoken(s, p);
    var c := Parseline(s, open.next);
    if c.Panic? {
      return Panic;
    }
    var q, closed := PeekFor(s, c.pos, ")");
    if !closed {
      return Panic;
    }
    SkipTwice(s, c.pos);
    var close := Gettoken(s, q);
    var rs := Parseredirs(s, close.next, []);
    return if rs.Panic? then Panic else Ok(Wrap(c.value, rs.value), rs.pos);
  }

  method Parsepipe(s: string, p: nat) returns (r: Result<Cmd>)
    requires p <= |s|
    ensures r == ParsePipe(s, p)
    decreases |s| - p, 2
  {
    r := Parseexec(s, p);
    if r.Panic? {
      return;
    }
    var q, more := PeekFor(s, r.pos, "|");
    if !more {
      return Ok(r.value, q);
    }
    SkipTwice(s, r.pos);
    var bar := Gettoken(s, q);
    var right := Parsepipe(s, bar.next);
    return if right.Panic? then Panic else Ok(Pipe(r.value, right.value), right.pos);
  }

  method Parseline(s: string, p: nat) returns (r: Result<Cmd>)
    requires p <= |s|
    ensures r == ParseLine(s, p)
    decreases |s| - p, 3
  {
    var l := Parsepipe(s, p);
    if l.Panic? {
      return Panic;
    }
    var at, cmd := l.pos, l.value;
    SkipTwice(s, at);
    var q, amp := PeekFor(s, at, "&");
    while amp
      invariant l.pos <= at <= |s| && q == SkipWhite(s, at) && amp == Peek(s, at, "&")
      invariant ParseBacks(s, l.pos, l.value) == ParseBacks(s, at, cmd)
      decreases |s| - at
    {
      SkipTwice(s, at);
      var t := Gettoken(s, q);
      at, cmd := t.next, Back(cmd);
      q, amp := PeekFor(s, at, "&");
    }
    var q', semi := PeekFor(s, q, ";");
    SkipTwice(s, at);
    if !semi {
      return Ok(cmd, q);
    }
    SkipTwice(s, q);
    var t := Gettoken(s, q');
    var rest := Parseline(s, t.next);
    return if rest.Panic? then Panic else Ok(List(cmd, rest.value), rest.pos);
  }

  // ---- Every command built refers to whole words of the input ----

  ghost predicate FilesIn(s: string, rs: seq<Redirection>) {
    forall i :: 0 <= i < |rs| ==> WordSpan(s, rs[i].file)
  }

  ghost predicate ArgsIn(s: string, argv: seq<Span>) {
    |argv| < MAXARGS && forall i :: 0 <= i < |argv| ==> WordSpan(s, argv[i])
  }

  lemma {:induction false} WrapIn(s: string, cmd: Cmd, rs: seq<Redirection>)
    requires InInput(cmd, s) && FilesIn(s, rs)
    ensures InInput(Wrap(cmd, rs), s)
    decreases |rs|
  {
    if rs != [] {
      WrapIn(s, cmd, rs[..|rs| - 1]);
    }
  }

  lemma {:induction false} RedirsIn(s: string, p: nat, rs: seq<Redirection>)
    requires p <= |s| && FilesIn(s, rs)
    ensures var r := ParseRedirs(s, p, rs); r.Ok? ==> FilesIn(s, r.value)
    decreases |s| - p
  {
    if Peek(s, p, "<>") {
      var op := GetToken(s, p);
      var file := GetToken(s, op.next);
      if file.kind == Word {
        assert WordSpan(s, file.span);
        RedirsIn(s, file.next, rs + [Redirection(file.span, if op.kind == Sym('<') then ReadOnly else WriteCreate)]);
      }
    }
  }

  lemma {:induction false} ArgsLoopIn(s: string, p: nat, argv: seq<Span>, rs: seq<Redirection>)
    requires p <= |s| && ArgsIn(s, argv) && FilesIn(s, rs)
    ensures var r := ParseArgs(s, p, argv, rs); r.Ok? ==> InInput(r.value, s)
    decreases |s| - p
  {
    var t := GetToken(s, p);
    if Peek(s, p, "|)&;") || t.kind == Eof {
      WrapIn(s, Exec(argv), rs);
    } else if t.kind == Word && |argv| + 1 < MAXARGS {
      assert WordSpan(s, t.span);
      RedirsIn(s, t.next, rs);
      var r := ParseRedirs(s, t.next, rs);
      if r.Ok? {
        ArgsLoopIn(s, r.pos, argv + [t.span], r.value);
      }
    }
  }

  lemma {:induction false} BacksIn(s: string, p: nat, cmd: Cmd)
    requires p <= |s| && InInput(cmd, s)
    ensures InInput(ParseBacks(s, p, cmd).value, s)
    decreases |s| - p
  {
    if Peek(s, p, "&") {
      BacksIn(s, GetToken(s, p).next, Back(cmd));
    }
  }

  lemma {:induction false} ExecIn(s: string, p: nat)
    requires p <= |s|
    ensures var r := ParseExec(s, p); r.Ok? ==> InInput(r.value, s)
    decreases |s| - p, 1
  {
    if Peek(s, p, "(") {
      BlockIn(s, p);
    } else {
      RedirsIn(s, p, []);
      var r := ParseRedirs(s, p, []);
      if r.Ok? {
        ArgsLoopIn(s, r.pos, [], r.value);
      }
    }
  }

  lemma {:induction false} BlockIn(s: string, p: nat)
    requires p <= |s| && Peek(s, p, "(")
    ensures var r := ParseBlock(s, p); r.Ok? ==> InInput(r.value, s)
    decreases |s| - p, 0
  {
    LineIn(s, GetToken(s, p).next);
    var c := ParseLine(s, GetToken(s, p).next);
    if c.Ok? && Peek(s, c.pos, ")") {
      var q := GetToken(s, c.pos).next;
      RedirsIn(s, q, []);
      if ParseRedirs(s, q, []).Ok? {
        WrapIn(s, c.value, ParseRedirs(s, q, []).value);
      }
    }
  }

  lemma {:induction false} PipeIn(s: string, p: nat)
    requires p <= |s|
    ensures var r := ParsePipe(s, p); r.Ok? ==> InInput(r.value, s)
    decreases |s| - p, 2
  {
    ExecIn(s, p);
    var l := ParseExec(s, p);
    if l.Ok? && Peek(s, l.pos, "|") {
      PipeIn(s, GetToken(s, l.pos).next);
    }
  }

  lemma {:induction false} LineIn(s: string, p: nat)
    requires p <= |s|
    ensures var r := ParseLine(s, p); r.Ok? ==> InInput(r.value, s)
    decreases |s| - p, 3
  {
    PipeIn(s, p);
    var l := ParsePipe(s, p);
    if l.Ok? {
      BacksIn(s, l.pos, l.value);
      var b := ParseBacks(s, l.pos, l.value);
      if Peek(s, b.pos, ";") {
        LineIn(s, GetToken(s, b.pos).next);
      }
    }
  }

  lemma {:induction false} TextIsValid(cmd: Cmd, s: string)
    requires InInput(cmd, s)
    ensures ValidTree(Text(cmd, s))
  {
    match cmd
    case Exec(argv) =>
    case Redir(c, r) => TextIsValid(c, s);
    case Pipe(l, r) => TextIsValid(l, s); TextIsValid(r, s);
    case List(l, r) => TextIsValid(l, s); TextIsValid(r, s);
    case Back(c) => TextIsValid(c, s);
  }

  /** Printing what was parsed and parsing it again gives the same command, whatever the input was. */
  lemma Canonical(s: string)
    requires ParseCmd(s).Ok?
    ensures InInput(ParseCmd(s).value, s)
    ensures var t := Text(ParseCmd(s).value, s);
            ParseCmd(Print(t)).Ok? && Means(ParseCmd(Print(t)).value, Print(t), t)
  {
    LineIn(s, 0);
    TextIsValid(ParseCmd(s).value, s);
    RoundTrip(Text(ParseCmd(s).value, s));
  }

  // ---- nulterminate ----

  /** Where nulterminate writes. */
  ghost function WordEnds(cmd: Cmd): set<nat> {
    match cmd
    case Exec(argv) => set i | 0 <= i < |argv| :: argv[i].eq
    case Redir(c, r) => WordEnds(c) + {r.file.eq}
    case Pipe(l, r) => WordEnds(l) + WordEnds(r)
    case List(l, r) => WordEnds(l) + WordEnds(r)
    case Back(c) => WordEnds(c)
  }

  ghost function WordsOf(cmd: Cmd): set<Span> {
    match cmd
    case Exec(argv) => set i | 0 <= i < |argv| :: argv[i]
    case Redir(c, r) => WordsOf(c) + {r.file}
    case Pipe(l, r) => WordsOf(l) + WordsOf(r)
    case List(l, r) => WordsOf(l) + WordsOf(r)
    case Back(c) => WordsOf(c)
  }

  /** `buf` is `before` with a NUL at each position in `ends`. */
  ghost predicate Terminated(before: string, buf: string, ends: set<nat>) {
    |buf| == |before| && forall i: nat :: i < |buf| ==> buf[i] == if i in ends then '\0' else before[i]
  }

  lemma TerminatedTwice(a: string, b: string, c: string, e: set<nat>, f: set<nat>)
    requires Terminated(a, b, e) && Terminated(b, c, f)
    ensures Terminated(a, c, e + f)
  {
  }

  /** nulterminate on the buffer holding the line and its final NUL. */
  method NulTerminate(cmd: Cmd, buf: array<char>, ghost s: string)
    requires InInput(cmd, s) && buf.Length == |s| + 1
    modifies buf
    ensures Terminated(old(buf[..]), buf[..], WordEnds(cmd))
    decreases cmd
  {
    ghost var before := buf[..];
    match cmd {
      case Exec(argv) =>
        var i := 0;
        while i < |argv|
          invariant 0 <= i <= |argv|
          invariant forall j: nat :: j < buf.Length ==>
            buf[j] == if exists k :: 0 <= k < i && argv[k].eq == j then '\0' else before[j]
        {
          assert WordSpan(s, argv[i]);
          buf[argv[i].eq] := '\0';
          i := i + 1;
        }
      case Redir(c, r) =>
        NulTerminate(c, buf, s);
        ghost var mid := buf[..];
        buf[r.file.eq] := '\0';
        TerminatedTwice(before, mid, buf[..], WordEnds(c), {r.file.eq});
      case Pipe(l, r) =>
        NulTerminate(l, buf, s);
        ghost var mid := buf[..];
        NulTerminate(r, buf, s);
        TerminatedTwice(before, mid, buf[..], WordEnds(l), WordEnds(r));
      case List(l, r) =>
        NulTerminate(l, buf, s);
        ghost var mid := buf[..];
        NulTerminate(r, buf, s);
        TerminatedTwice(before, mid, buf[..], WordEnds(l), WordEnds(r));
      case Back(c) =>
        NulTerminate(c, buf, s);
    }
  }

  /** The C string at position q: up to the first NUL. */
  ghost predicate CString(buf: string, q: nat, w: string) {
    q + |w| < |buf| && buf[q..q + |w|] == w && '\0' !in w && buf[q + |w|] == '\0'
  }

  lemma {:induction false} EndsAreWordEnds(cmd: Cmd, s: string, e: nat)
    requires InInput(cmd, s) && e in WordEnds(cmd)
    ensures e <= |s| && (e < |s| ==> !WordChar(s[e]))
  {
    match cmd
    case Exec(argv) =>
      var i :| 0 <= i < |argv| && argv[i].eq == e;
      assert WordSpan(s, argv[i]);
    case Redir(c, r) => if e in WordEnds(c) { EndsAreWordEnds(c, s, e); }
    case Pipe(l, r) => if e in WordEnds(l) { EndsAreWordEnds(l, s, e); } else { EndsAreWordEnds(r, s, e); }
    case List(l, r) => if e in WordEnds(l) { EndsAreWordEnds(l, s, e); } else { EndsAreWordEnds(r, s, e); }
    case Back(c) => EndsAreWordEnds(c, s, e);
  }

  lemma {:induction false} WordsAreSpans(cmd: Cmd, s: string, a: Span)
    requires InInput(cmd, s) && a in WordsOf(cmd)
    ensures WordSpan(s, a) && a.eq in WordEnds(cmd)
  {
    match cmd
    case Exec(argv) =>
      var i :| 0 <= i < |argv| && argv[i] == a;
      assert WordSpan(s, argv[i]);
    case Redir(c, r) => if a in WordsOf(c) { WordsAreSpans(c, s, a); }
    case Pipe(l, r) => if a in WordsOf(l) { WordsAreSpans(l, s, a); } else { WordsAreSpans(r, s, a); }
    case List(l, r) => if a in WordsOf(l) { WordsAreSpans(l, s, a); } else { WordsAreSpans(r, s, a); }
    case Back(c) => WordsAreSpans(c, s, a);
  }

  /** After nulterminate every argument and file name is a C string with exactly its characters. */
  lemma WordsBecomeStrings(cmd: Cmd, s: string, buf: string, a: Span)
    requires InInput(cmd, s) && '\0' !in s && a in WordsOf(cmd)
    requires Terminated(s + ['\0'], buf, WordEnds(cmd))
    ensures a.q <= a.eq <= |s| && CString(buf, a.q, s[a.q..a.eq])
  {
    WordsAreSpans(cmd, s, a);
    var w := s[a.q..a.eq];
    forall i: nat | a.q <= i < a.eq
      ensures buf[i] == s[i]
    {
      if i in WordEnds(cmd) {
        EndsAreWordEnds(cmd, s, i);
      }
    }
    assert buf[a.q..a.q + |w|] == w;
  }

  /** parsecmd: the whole line or a panic; on success the buffer's words are terminated. */
  method Parsecmd(buf: array<char>, ghost s: string) returns (r: Result<Cmd>)
    requires buf.Length == |s| + 1 && buf[..] == s + ['\0'] && '\0' !in s
    modifies buf
    ensures r == ParseCmd(s)
    ensures r.Ok? ==> InInput(r.value, s) && forall a | a in WordsOf(r.value) ::
                        a.q <= a.eq <= |s| && CString(buf[..], a.q, s[a.q..a.eq])
    ensures r.Panic? ==> buf[..] == old(buf[..])
  {
    var line := buf[..buf.Length - 1];
    assert line == s;
    r := Parseline(line, 0);
    if r.Panic? {
      return;
    }
    var q := SkipSpaces(line, r.pos);
    if q != |line| {
      return Panic;
    }
    LineIn(s, 0);
    NulTerminate(r.value, buf, s);
    forall a | a in WordsOf(r.value)
      ensures a.q <= a.eq <= |s| && CString(buf[..], a.q, s[a.q..a.eq])
    {
      WordsBecomeStrings(r.value, s, buf[..], a);
    }
  }

  // ---- The append operator ----

  /** The texts agree from position `p` on. */
  predicate SameFrom(s: string, t: string, p: nat) {
    |s| == |t| && p <= |s| && forall i :: p <= i < |s| ==> s[i] == t[i]
  }

  lemma {:induction false} SameSkips(s: string, t: string, p: nat)
    requires SameFrom(s, t, p)
    ensures SkipWhite(s, p) == SkipWhite(t, p) && WordEnd(s, p) == WordEnd(t, p)
    decreases |s| - p
  {
    if p < |s| {
      SameSkips(s, t, p + 1);
    }
  }

  lemma SamePeek(s: string, t: string, p: nat)
    requires SameFrom(s, t, p)
    ensures Peek(s, p, "<>") == Peek(t, p, "<>")
  {
    hide SkipWhite, WordEnd, White;
    SameSkips(s, t, p);
  }

  lemma SameToken(s: string, t: string, p: nat)
    requires SameFrom(s, t, p)
    ensures GetToken(s, p) == GetToken(t, p) && Peek(s, p, "<>") == Peek(t, p, "<>")
  {
    hide SkipWhite, WordEnd, White, Symbol, WordChar, Peek;
    SamePeek(s, t, p);
    SameSkips(s, t, p);
    var q := SkipWhite(s, p);
    if q < |s| {
      SameEnds(s, t, q);
      assert s[q] == t[q] && (q + 1 < |s| ==> s[q + 1] == t[q + 1]);
    }
  }

  lemma SameEnds(s: string, t: string, q: nat)
    requires SameFrom(s, t, q) && q < |s|
    ensures WordEnd(s, q) == WordEnd(t, q) && SkipWhite(s, WordEnd(s, q)) == SkipWhite(t, WordEnd(t, q))
    ensures SkipWhite(s, q + 1) == SkipWhite(t, q + 1) && (q + 2 <= |s| ==> SkipWhite(s, q + 2) == SkipWhite(t, q + 2))
  {
    hide SkipWhite, WordEnd;
    SameSkips(s, t, q);
    SameSkips(s, t, WordEnd(s, q));
    SameSkips(s, t, q + 1);
    if q + 2 <= |s| {
      SameSkips(s, t, q + 2);
    }
  }

  lemma {:induction false} SameRedirs(s: string, t: string, p: nat, rs: seq<Redirection>)
    requires SameFrom(s, t, p)
    ensures ParseRedirs(s, p, rs) == ParseRedirs(t, p, rs)
    decreases |s| - p
  {
    SameToken(s, t, p);
    SameSkips(s, t, p);
    if Peek(s, p, "<>") {
      var op := GetToken(s, p);
      SameToken(s, t, op.next);
      var file := GetToken(s, op.next);
      if file.kind == Word {
        SameRedirs(s, t, file.next,
          rs + [Redirection(file.span, if op.kind == Sym('<') then ReadOnly else WriteCreate)]);
      }
    }
  }

  /** The operator of a redirection: `>>` in one line, `>` behind a space in the other, both ending at p + 2. */
  lemma ArrowTokens(s: string, t: string, p: nat)
    requires SameFrom(s, t, p + 2) && s[p] == '>' && s[p + 1] == '>' && t[p] == ' ' && t[p + 1] == '>'
    requires p + 2 < |s| ==> s[p + 2] != '>'
    ensures Peek(s, p, "<>") && Peek(t, p, "<>")
    ensures GetToken(s, p) == Token(Append, Span(p, p + 2), SkipWhite(s, p + 2))
    ensures GetToken(t, p) == Token(Sym('>'), Span(p + 1, p + 2), SkipWhite(s, p + 2))
  {
    SameSkips(s, t, p + 2);
    assert SkipWhite(s, p) == p;
    assert SkipWhite(t, p) == SkipWhite(t, p + 1) == p + 1;
    hide SkipWhite, WordEnd;
  }

  /** `>>` does what `>` does: the file is opened the same way, with no append. */
  lemma AppendOpensAsWrite(s: string, t: string, p: nat, rs: seq<Redirection>)
    requires SameFrom(s, t, p + 2) && s[p] == '>' && s[p + 1] == '>' && t[p] == ' ' && t[p + 1] == '>'
    requires p + 2 < |s| ==> s[p + 2] != '>'
    ensures ParseRedirs(s, p, rs) == ParseRedirs(t, p, rs)
  {
    hide GetToken, SkipWhite, WordEnd, Peek;
    ArrowTokens(s, t, p);
    var next := SkipWhite(s, p + 2);
    SameToken(s, t, next);
    var file := GetToken(s, next);
    if file.kind == Word {
      SameRedirs(s, t, file.next, rs + [Redirection(file.span, WriteCreate)]);
    }
  }
}
