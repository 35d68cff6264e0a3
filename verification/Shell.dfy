/**
 * The recursive-descent parser of sh.c on a string without NULs. Words are kept as spans of the input,
 * as the C code keeps pointers into it; `Text` reads them off. A panic of the shell is Panic.
 */
module Shell {

  const MAXARGS := 10

  /** argv[i]..eargv[i], or file..efile. */
  datatype Span = Span(q: nat, eq: nat)

  datatype Mode = ReadOnly | WriteCreate     // O_RDONLY on fd 0; O_WRONLY | O_CREATE on fd 1

  datatype Redirection = Redirection(file: Span, mode: Mode)

  datatype Cmd =
    | Exec(argv: seq<Span>)
    | Redir(cmd: Cmd, r: Redirection)
    | Pipe(left: Cmd, right: Cmd)
    | List(left: Cmd, right: Cmd)
    | Back(cmd: Cmd)

  /** A result and the position after it. */
  datatype Result<+T> = Ok(value: T, pos: nat) | Panic

  // ---- Tokens ----

  predicate White(c: char) {
    c == ' ' || c == '\t' || c == '\r' || c == '\n' || c as int == 11
  }

  predicate Symbol(c: char) {
    c == '<' || c == '|' || c == '>' || c == '&' || c == ';' || c == '(' || c == ')'
  }

  predicate WordChar(c: char) {
    !White(c) && !Symbol(c)
  }

  function SkipWhite(s: string, p: nat): (r: nat)
    requires p <= |s|
    ensures p <= r <= |s|
    ensures r < |s| ==> !White(s[r])
    ensures forall i :: p <= i < r ==> White(s[i])
    decreases |s| - p
  {
    if p < |s| && White(s[p]) then SkipWhite(s, p + 1) else p
  }

  function WordEnd(s: string, p: nat): (r: nat)
    requires p <= |s|
    ensures p <= r <= |s|
    ensures r < |s| ==> !WordChar(s[r])
    ensures forall i :: p <= i < r ==> WordChar(s[i])
    decreases |s| - p
  {
    if p < |s| && WordChar(s[p]) then WordEnd(s, p + 1) else p
  }

  datatype Kind = Eof | Word | Append | Sym(c: char)

  datatype Token = Token(kind: Kind, span: Span, next: nat)

  /** gettoken: skip white space, take a token, skip white space. */
  function GetToken(s: string, p: nat): (t: Token)
    requires p <= |s|
    ensures p <= t.span.q <= t.span.eq <= t.next <= |s|
    ensures t.kind != Eof ==> p < t.next
    ensures t.kind == Word ==> t.span.q < t.span.eq && forall i :: t.span.q <= i < t.span.eq ==> WordChar(s[i])
    ensures t.kind == Word && t.span.eq < |s| ==> !WordChar(s[t.span.eq])
  {
    var q := SkipWhite(s, p);
    if q == |s| then Token(Eof, Span(q, q), q)
    else if s[q] == '>' && q + 1 < |s| && s[q + 1] == '>' then Token(Append, Span(q, q + 2), SkipWhite(s, q + 2))
    else if Symbol(s[q]) then Token(Sym(s[q]), Span(q, q + 1), SkipWhite(s, q + 1))
    else Token(Word, Span(q, WordEnd(s, q)), SkipWhite(s, WordEnd(s, q)))
  }

  /** peek: does the next character belong to `toks`? (Its other effect, skipping white space, is SkipWhite.) */
  predicate Peek(s: string, p: nat, toks: string)
    requires p <= |s|
  {
    var q := SkipWhite(s, p);
    q < |s| && s[q] in toks
  }

  // ---- The grammar ----

  /** cmd wrapped in redirections, the first innermost. */
  function Wrap(cmd: Cmd, rs: seq<Redirection>): Cmd {
    if rs == [] then cmd else Redir(Wrap(cmd, rs[..|rs| - 1]), rs[|rs| - 1])
  }

  /** parseredirs, with the redirections already taken in `rs`. */
  function ParseRedirs(s: string, p: nat, rs: seq<Redirection>): (r: Result<seq<Redirection>>)
    requires p <= |s|
    ensures r.Ok? ==> p <= r.pos <= |s| && !Peek(s, r.pos, "<>")
    decreases |s| - p
  {
    if !Peek(s, p, "<>") then Ok(rs, SkipWhite(s, p))
    else
      var op := GetToken(s, p);
      var file := GetToken(s, op.next);
      if file.kind != Word then Panic
      else ParseRedirs(s, file.next,
          rs + [Redirection(file.span, if op.kind == Sym('<') then ReadOnly else WriteCreate)])
  }

  /** The loop of parseexec. */
  function ParseArgs(s: string, p: nat, argv: seq<Span>, rs: seq<Redirection>): (r: Result<Cmd>)
    requires p <= |s|
    ensures r.Ok? ==> p <= r.pos <= |s|
    decreases |s| - p
  {
    var t := GetToken(s, p);
    if Peek(s, p, "|)&;") || t.kind == Eof then Ok(Wrap(Exec(argv), rs), SkipWhite(s, p))
    else if t.kind != Word then Panic
    else if |argv| + 1 >= MAXARGS then Panic
    else
      var r := ParseRedirs(s, t.next, rs);
      if r.Panic? then Panic else ParseArgs(s, r.pos, argv + [t.span], r.value)
  }

  function ParseExec(s: string, p: nat): (r: Result<Cmd>)
    requires p <= |s|
    ensures r.Ok? ==> p <= r.pos <= |s|
    decreases |s| - p, 1
  {
    if Peek(s, p, "(") then ParseBlock(s, p)
    else
      var r := ParseRedirs(s, p, []);
      if r.Panic? then Panic else ParseArgs(s, r.pos, [], r.value)
  }

  function ParseBlock(s: string, p: nat): (r: Result<Cmd>)
    requires p <= |s| && Peek(s, p, "(")
    ensures r.Ok? ==> p <= r.pos <= |s|
    decreases |s| - p, 0
  {
    var c := ParseLine(s, GetToken(s, p).next);
    if c.Panic? || !Peek(s, c.pos, ")") then Panic
    else
      var r := ParseRedirs(s, GetToken(s, c.pos).next, []);
      if r.Panic? then Panic else Ok(Wrap(c.value, r.value), r.pos)
  }

  function ParsePipe(s: string, p: nat): (r: Result<Cmd>)
    requires p <= |s|
    ensures r.Ok? ==> p <= r.pos <= |s|
    decreases |s| - p, 2
  {
    var l := ParseExec(s, p);
    if l.Panic? then Panic
    else if !Peek(s, l.pos, "|") then Ok(l.value, SkipWhite(s, l.pos))
    else
      var r := ParsePipe(s, GetToken(s, l.pos).next);
      if r.Panic? then Panic else Ok(Pipe(l.value, r.value), r.pos)
  }

  /** The loop of parseline over `&`. */
  function ParseBacks(s: string, p: nat, cmd: Cmd): (r: Result<Cmd>)
    requires p <= |s|
    ensures r.Ok? && p <= r.pos <= |s|
    decreases |s| - p
  {
    if Peek(s, p, "&") then ParseBacks(s, GetToken(s, p).next, Back(cmd)) else Ok(cmd, SkipWhite(s, p))
  }

  function ParseLine(s: string, p: nat): (r: Result<Cmd>)
    requires p <= |s|
    ensures r.Ok? ==> p <= r.pos <= |s|
    decreases |s| - p, 3
  {
    var l := ParsePipe(s, p);
    if l.Panic? then Panic
    else
      var b := ParseBacks(s, l.pos, l.value);
      if !Peek(s, b.pos, ";") then b
      else
        var r := ParseLine(s, GetToken(s, b.pos).next);
        if r.Panic? then Panic else Ok(List(b.value, r.value), r.pos)
  }

  /** parsecmd before nulterminate. */
  function ParseCmd(s: string): (r: Result<Cmd>) {
    var r := ParseLine(s, 0);
    if r.Ok? && SkipWhite(s, r.pos) == |s| then r else Panic
  }

  // ---- Trees of words, and printing them ----

  datatype Tree =
    | TExec(args: seq<string>)
    | TRedir(sub: Tree, file: string, mode: Mode)
    | TPipe(left: Tree, right: Tree)
    | TList(left: Tree, right: Tree)
    | TBack(sub: Tree)

  function Words(argv: seq<Span>, s: string): (r: seq<string>)
    requires forall i :: 0 <= i < |argv| ==> argv[i].q <= argv[i].eq <= |s|
    ensures |r| == |argv| && forall i :: 0 <= i < |argv| ==> r[i] == s[argv[i].q..argv[i].eq]
  {
    if argv == [] then []
    else
      var n := |argv| - 1;
      Words(argv[..n], s) + [s[argv[n].q..argv[n].eq]]
  }

  /** A span is a maximal word of the input. */
  ghost predicate WordSpan(s: string, a: Span) {
    && a.q < a.eq <= |s|
    && (forall i :: a.q <= i < a.eq ==> WordChar(s[i]))
    && (a.eq < |s| ==> !WordChar(s[a.eq]))
  }

  ghost predicate InInput(cmd: Cmd, s: string) {
    match cmd
    case Exec(argv) => |argv| < MAXARGS && forall i :: 0 <= i < |argv| ==> WordSpan(s, argv[i])
    case Redir(c, r) => WordSpan(s, r.file) && InInput(c, s)
    case Pipe(l, r) => InInput(l, s) && InInput(r, s)
    case List(l, r) => InInput(l, s) && InInput(r, s)
    case Back(c) => InInput(c, s)
  }

  /** The command with its words read off the input. */
  ghost function Text(cmd: Cmd, s: string): Tree
    requires InInput(cmd, s)
  {
    match cmd
    case Exec(argv) => TExec(Words(argv, s))
    case Redir(c, r) => TRedir(Text(c, s), s[r.file.q..r.file.eq], r.mode)
    case Pipe(l, r) => TPipe(Text(l, s), Text(r, s))
    case List(l, r) => TList(Text(l, s), Text(r, s))
    case Back(c) => TBack(Text(c, s))
  }

  predicate ValidWord(w: string) {
    w != [] && forall i :: 0 <= i < |w| ==> WordChar(w[i])
  }

  predicate ValidTree(t: Tree) {
    match t
    case TExec(args) => |args| < MAXARGS && forall i :: 0 <= i < |args| ==> ValidWord(args[i])
    case TRedir(c, file, _) => ValidWord(file) && ValidTree(c)
    case TPipe(l, r) => ValidTree(l) && ValidTree(r)
    case TList(l, r) => ValidTree(l) && ValidTree(r)
    case TBack(c) => ValidTree(c)
  }

  function PrintWords(args: seq<string>): string {
    if args == [] then "" else args[0] + " " + PrintWords(args[1..])
  }

  function Paren(t: string): string {
    "(" + t + ")"
  }

  /** The tree with every subcommand in parentheses. */
  function Print(t: Tree): string {
    match t
    case TExec(args) => PrintWords(args)
    case TRedir(c, file, mode) => Paren(Print(c)) + (if mode == ReadOnly then "<" else ">") + file + " "
    case TPipe(l, r) => Paren(Print(l)) + "|" + Paren(Print(r))
    case TList(l, r) => Paren(Print(l)) + ";" + Paren(Print(r))
    case TBack(c) => Paren(Print(c)) + "&"
  }

  // ---- Reading at a position ----

  /** `t` stands at position `p` of `s`. */
  predicate At(s: string, p: nat, t: string) {
    p + |t| <= |s| && s[p..p + |t|] == t
  }

  lemma AtConcat(s: string, p: nat, t: string, u: string)
    requires At(s, p, t + u)
    ensures At(s, p, t) && At(s, p + |t|, u)
  {
    assert s[p..p + |t|] == (t + u)[..|t|];
    assert s[p + |t|..p + |t| + |u|] == (t + u)[|t|..];
  }

  lemma AtChar(s: string, p: nat, t: string, i: nat)
    requires At(s, p, t) && i < |t|
    ensures p + i < |s| && s[p + i] == t[i]
  {
    assert s[p..p + |t|][i] == t[i];
  }

  /** A word at `p` followed by something that is not part of it is one token. */
  lemma WordToken(s: string, p: nat, w: string)
    requires At(s, p, w) && ValidWord(w) && (p + |w| < |s| ==> !WordChar(s[p + |w|]))
    ensures var t := GetToken(s, p);
            t.kind == Word && t.span == Span(p, p + |w|) && t.next == SkipWhite(s, p + |w|) && SkipWhite(s, p) == p
  {
    AtChar(s, p, w, 0);
    forall i | p <= i < p + |w|
      ensures WordChar(s[i])
    {
      AtChar(s, p, w, i - p);
    }
    WordEndAt(s, p, p + |w|);
  }

  lemma {:induction false} WordEndAt(s: string, p: nat, e: nat)
    requires p <= e <= |s| && (forall i :: p <= i < e ==> WordChar(s[i])) && (e < |s| ==> !WordChar(s[e]))
    ensures WordEnd(s, p) == e
    decreases e - p
  {
    if p < e {
      WordEndAt(s, p + 1, e);
    }
  }

  // ---- The round trip ----

  /** `cmd` is well formed over `s` and its words make it the tree `t`. */
  ghost predicate Means(cmd: Cmd, s: string, t: Tree) {
    InInput(cmd, s) && Text(cmd, s) == t
  }

  /** Where a printed subcommand ends: at a closing parenthesis or at the end of the input. */
  predicate Ends(s: string, q: nat) {
    q == |s| || (q < |s| && s[q] == ')')
  }

  // What the parsing functions return, as predicates.

  ghost predicate RedirsAre(s: string, p: nat, before: seq<Redirection>, rs: seq<Redirection>, q: nat) {
    p <= |s| && ParseRedirs(s, p, before) == Ok(rs, q)
  }

  ghost predicate ArgsAre(s: string, p: nat, argv: seq<Span>, rs: seq<Redirection>, cmd: Cmd, q: nat) {
    p <= |s| && ParseArgs(s, p, argv, rs) == Ok(cmd, q)
  }

  ghost predicate ExecIs(s: string, p: nat, cmd: Cmd, q: nat) {
    p <= |s| && q <= |s| && ParseExec(s, p) == Ok(cmd, q)
  }

  ghost predicate PipeIs(s: string, p: nat, cmd: Cmd, q: nat) {
    p <= |s| && q <= |s| && ParsePipe(s, p) == Ok(cmd, q)
  }

  ghost predicate LineIs(s: string, p: nat, cmd: Cmd, q: nat) {
    p <= |s| && q <= |s| && ParseLine(s, p) == Ok(cmd, q)
  }

  /** A character after which no token is skipped and none of `<>` follows. */
  predicate Plain(s: string, p: nat) {
    p == |s| || (p < |s| && !White(s[p]) && s[p] != '<' && s[p] != '>')
  }

  lemma NoRedirs(s: string, p: nat, rs: seq<Redirection>)
    requires Plain(s, p)
    ensures RedirsAre(s, p, rs, rs, p) && SkipWhite(s, p) == p
  {
  }

  lemma PrintWordsAt(s: string, p: nat, args: seq<string>)
    requires args != [] && At(s, p, PrintWords(args))
    ensures At(s, p, args[0]) && At(s, p + |args[0]|, " ") && At(s, p + |args[0]| + 1, PrintWords(args[1..]))
    ensures |PrintWords(args)| == |args[0]| + 1 + |PrintWords(args[1..])|
  {
    assert PrintWords(args) == args[0] + " " + PrintWords(args[1..]);
    hide PrintWords;
    AtConcat(s, p, args[0] + " ", PrintWords(args[1..]));
    AtConcat(s, p, args[0], " ");
  }

  /** A printed argument list starts with a word, or is empty. */
  lemma WordsStart(s: string, p: nat, args: seq<string>)
    requires At(s, p, PrintWords(args)) && Ends(s, p + |PrintWords(args)|)
    requires forall i :: 0 <= i < |args| ==> ValidWord(args[i])
    ensures p == |s| || (p < |s| && (WordChar(s[p]) || s[p] == ')'))
    ensures args != [] ==> p < |s| && WordChar(s[p])
    ensures args == [] ==> |PrintWords(args)| == 0
  {
    if args != [] {
      PrintWordsAt(s, p, args);
      AtChar(s, p, args[0], 0);
    }
  }

  /** One argument: parseexec's loop takes the word and goes on. */
  lemma ArgsStep(s: string, p: nat, argv: seq<Span>, rs: seq<Redirection>, w: string, span: Span, next: nat, cmd: Cmd,
                 q: nat)
    requires At(s, p, w) && ValidWord(w) && At(s, p + |w|, " ") && |argv| + 1 < MAXARGS
    requires span == Span(p, p + |w|) && next == p + |w| + 1 && (next == |s| || WordChar(s[next]) || s[next] == ')')
    requires ArgsAre(s, next, argv + [span], rs, cmd, q)
    ensures ArgsAre(s, p, argv, rs, cmd, q)
  {
    AtChar(s, p, w, 0);
    AtChar(s, p + |w|, " ", 0);
    WordToken(s, p, w);
    assert SkipWhite(s, p + |w|) == SkipWhite(s, next) == next;
    NoRedirs(s, next, rs);
    hide ParseRedirs, At, ValidWord;
    assert ParseArgs(s, p, argv, rs) == ParseArgs(s, next, argv + [span], rs);
  }

  lemma ArgsEnd(s: string, p: nat, argv: seq<Span>, rs: seq<Redirection>)
    requires Ends(s, p)
    ensures ArgsAre(s, p, argv, rs, Wrap(Exec(argv), rs), p)
  {
  }

  /** `all` continues `argv` with the spans of the words `args`. */
  ghost predicate SpansOf(s: string, argv: seq<Span>, args: seq<string>, all: seq<Span>) {
    && |all| == |argv| + |args|
    && (forall i :: 0 <= i < |argv| ==> all[i] == argv[i])
    && (forall i :: |argv| <= i < |all| ==> WordSpan(s, all[i]) && s[all[i].q..all[i].eq] == args[i - |argv|])
  }

  lemma SpansNone(s: string, argv: seq<Span>, args: seq<string>)
    requires args == []
    ensures SpansOf(s, argv, args, argv)
  {
  }

  lemma SpansStep(s: string, argv: seq<Span>, args: seq<string>, p: nat, all: seq<Span>)
    requires args != [] && ValidWord(args[0]) && At(s, p, args[0]) && At(s, p + |args[0]|, " ")
    requires SpansOf(s, argv + [Span(p, p + |args[0]|)], args[1..], all)
    ensures SpansOf(s, argv, args, all)
  {
    var span := Span(p, p + |args[0]|);
    assert WordSpan(s, span) by {
      AtChar(s, p + |args[0]|, " ", 0);
      WordToken(s, p, args[0]);
    }
    hide WordSpan, ValidWord;
    assert all[|argv|] == (argv + [span])[|argv|] == span;
    forall i | 0 <= i < |argv|
      ensures all[i] == argv[i]
    {
      assert all[i] == (argv + [span])[i];
    }
  }

  lemma {:induction false} ArgsRoundTrip(args: seq<string>, s: string, p: nat, q: nat, argv: seq<Span>)
    returns (all: seq<Span>)
    requires At(s, p, PrintWords(args)) && q == p + |PrintWords(args)| && Ends(s, q)
    requires |argv| + |args| < MAXARGS && forall i :: 0 <= i < |args| ==> ValidWord(args[i])
    ensures ArgsAre(s, p, argv, [], Exec(all), q) && SpansOf(s, argv, args, all)
    decreases |args|
  {
    hide ArgsAre, SpansOf, At, ValidWord;
    WordsStart(s, p, args);
    if args == [] {
      all := argv;
      ArgsEnd(s, p, argv, []);
      SpansNone(s, argv, args);
    } else {
      var next, span := p + |args[0]| + 1, Span(p, p + |args[0]|);
      PrintWordsAt(s, p, args);
      WordsStart(s, next, args[1..]);
      all := ArgsRoundTrip(args[1..], s, next, q, argv + [span]);
      ArgsStep(s, p, argv, [], args[0], span, next, Exec(all), q);
      SpansStep(s, argv, args, p, all);
    }
  }

  lemma ExecMeans(s: string, args: seq<string>, all: seq<Span>)
    requires |args| < MAXARGS && SpansOf(s, [], args, all)
    ensures Means(Exec(all), s, TExec(args))
  {
    assert Words(all, s) == args;
  }

  lemma ExecStart(s: string, p: nat, cmd: Cmd, q: nat)
    requires Plain(s, p) && (p < |s| ==> s[p] != '(') && ArgsAre(s, p, [], [], cmd, q) && q <= |s|
    ensures ExecIs(s, p, cmd, q)
  {
    NoRedirs(s, p, []);
  }

  lemma ExecRoundTrip(args: seq<string>, s: string, p: nat, q: nat) returns (cmd: Cmd)
    requires At(s, p, PrintWords(args)) && q == p + |PrintWords(args)| && Ends(s, q) && ValidTree(TExec(args))
    ensures ExecIs(s, p, cmd, q) && Means(cmd, s, TExec(args))
  {
    WordsStart(s, p, args);
    var all := ArgsRoundTrip(args, s, p, q, []);
    cmd := Exec(all);
    ExecMeans(s, args, all);
    ExecStart(s, p, cmd, q);
  }

  /** A command on its own up to the end of its surroundings is a pipe and a line. */
  lemma ExecIsPipe(s: string, p: nat, cmd: Cmd, q: nat)
    requires ExecIs(s, p, cmd, q) && (q == |s| || (!White(s[q]) && s[q] != '|'))
    ensures PipeIs(s, p, cmd, q)
  {
    hide ParseExec, ParseBlock, ParseLine, ParseRedirs, ParseArgs;
  }

  lemma PipeIsLine(s: string, p: nat, cmd: Cmd, q: nat)
    requires PipeIs(s, p, cmd, q) && Ends(s, q)
    ensures LineIs(s, p, cmd, q)
  {
    hide ParseExec, ParsePipe, ParseBlock, ParseRedirs, ParseArgs;
  }

  /** The first character of a printed tree is not white. */
  lemma PrintStart(s: string, p: nat, t: Tree)
    requires ValidTree(t) && At(s, p, Print(t)) && Ends(s, p + |Print(t)|)
    ensures SkipWhite(s, p) == p
  {
    if t.TExec? {
      WordsStart(s, p, t.args);
    } else {
      AtChar(s, p, Print(t), 0);
    }
  }

  lemma ParenAt(s: string, p: nat, body: string)
    requires At(s, p, Paren(body))
    ensures At(s, p + 1, body) && p + 1 + |body| < |s| && s[p] == '(' && s[p + 1 + |body|] == ')'
  {
    assert Paren(body) == "(" + (body + ")");
    AtConcat(s, p, "(", body + ")");
    AtConcat(s, p + 1, body, ")");
    AtChar(s, p, "(", 0);
    AtChar(s, p + 1 + |body|, ")", 0);
  }

  /** A line between parentheses is a block, with the redirections that follow it. */
  lemma BlockStep(s: string, p: nat, cmd: Cmd, m: nat, rs: seq<Redirection>, q: nat)
    requires p < m < |s| && s[p] == '(' && s[m] == ')' && SkipWhite(s, p + 1) == p + 1 && LineIs(s, p + 1, cmd, m)
    requires SkipWhite(s, m + 1) == m + 1 && RedirsAre(s, m + 1, [], rs, q) && q <= |s|
    ensures ExecIs(s, p, Wrap(cmd, rs), q)
  {
    hide ParseLine, ParsePipe, ParseRedirs, ParseArgs;
    assert SkipWhite(s, p) == p && SkipWhite(s, m) == m;
    assert GetToken(s, p).next == p + 1 && GetToken(s, m).next == m + 1;
    assert ParseBlock(s, p) == Ok(Wrap(cmd, rs), q);
    assert ParseExec(s, p) == ParseBlock(s, p);
  }

  /** A parenthesised printed tree is a block of that tree. */
  lemma {:induction false} ParenRoundTrip(t: Tree, s: string, p: nat, m: nat, rs: seq<Redirection>, q: nat)
    returns (cmd: Cmd)
    requires ValidTree(t) && At(s, p, Paren(Print(t))) && m == p + |Print(t)| + 2
    requires SkipWhite(s, m) == m && RedirsAre(s, m, [], rs, q) && q <= |s|
    ensures Means(cmd, s, t) && ExecIs(s, p, Wrap(cmd, rs), q)
    decreases t, 1
  {
    hide ExecIs, LineIs, RedirsAre, Means, At, Print, Paren;
    ParenAt(s, p, Print(t));
    PrintStart(s, p + 1, t);
    cmd := LineRoundTrip(t, s, p + 1, m - 1);
    BlockStep(s, p, cmd, m - 1, rs, q);
  }

  /** The same when no redirection follows. */
  lemma {:induction false} PlainParen(t: Tree, s: string, p: nat, m: nat) returns (cmd: Cmd)
    requires ValidTree(t) && At(s, p, Paren(Print(t))) && m == p + |Print(t)| + 2 && Plain(s, m)
    ensures Means(cmd, s, t) && ExecIs(s, p, cmd, m)
    decreases t, 2
  {
    NoRedirs(s, m, []);
    cmd := ParenRoundTrip(t, s, p, m, [], m);
  }

  lemma {:induction false} LineRoundTrip(t: Tree, s: string, p: nat, q: nat) returns (cmd: Cmd)
    requires ValidTree(t) && At(s, p, Print(t)) && q == p + |Print(t)| && Ends(s, q)
    ensures Means(cmd, s, t) && LineIs(s, p, cmd, q)
    decreases t, 0
  {
    match t
    case TExec(args) =>
      cmd := ExecRoundTrip(args, s, p, q);
      ExecIsPipe(s, p, cmd, q);
      PipeIsLine(s, p, cmd, q);
    case TRedir(c, file, mode) =>
      cmd := RedirRoundTrip(c, file, mode, s, p, q);
    case TBack(c) =>
      cmd := BackRoundTrip(c, s, p, q);
    case TPipe(l, r) =>
      cmd := PipeRoundTrip(l, r, s, p, q);
    case TList(l, r) =>
      cmd := ListRoundTrip(l, r, s, p, q);
  }

  lemma {:induction false} BackRoundTrip(c: Tree, s: string, p: nat, q: nat) returns (cmd: Cmd)
    requires ValidTree(c) && At(s, p, Paren(Print(c)) + "&") && q == p + |Print(c)| + 3 && Ends(s, q)
    ensures Means(cmd, s, TBack(c)) && LineIs(s, p, cmd, q)
    decreases c, 3
  {
    AtConcat(s, p, Paren(Print(c)), "&");
    AtChar(s, q - 1, "&", 0);
    var sub := PlainParen(c, s, p, q - 1);
    BackIsLine(s, p, sub, q - 1);
    cmd := Back(sub);
  }

  lemma BackIsLine(s: string, p: nat, cmd: Cmd, m: nat)
    requires ExecIs(s, p, cmd, m) && m < |s| && s[m] == '&' && Ends(s, m + 1)
    ensures LineIs(s, p, Back(cmd), m + 1)
  {
    hide ParseExec, ParsePipe, ParseBlock, ParseRedirs, ParseArgs;
    ExecIsPipe(s, p, cmd, m);
    assert SkipWhite(s, m) == m && SkipWhite(s, m + 1) == m + 1;
    assert GetToken(s, m).next == m + 1;
    assert ParseBacks(s, m + 1, Back(cmd)) == Ok(Back(cmd), m + 1);
  }

  lemma {:induction false} RedirRoundTrip(c: Tree, file: string, mode: Mode, s: string, p: nat, q: nat)
    returns (cmd: Cmd)
    requires ValidTree(c) && ValidWord(file) && q == p + |Print(c)| + 4 + |file| && Ends(s, q)
    requires At(s, p, Paren(Print(c)) + (if mode == ReadOnly then "<" else ">") + file + " ")
    ensures Means(cmd, s, TRedir(c, file, mode)) && LineIs(s, p, cmd, q)
    decreases c, 3
  {
    hide ExecIs, PipeIs, LineIs, RedirsAre, Means, At, Print;
    var m := p + |Print(c)| + 2;
    RedirAt(Paren(Print(c)), file, mode, s, p);
    OneRedir(s, m, file, mode);
    var r := Redirection(Span(m + 1, m + 1 + |file|), mode);
    var sub := ParenRoundTrip(c, s, p, m, [r], q);
    WrapOne(sub, r);
    cmd := Redir(sub, r);
    RedirMeans(sub, r, s, c, file);
    ExecIsPipe(s, p, cmd, q);
    PipeIsLine(s, p, cmd, q);
  }

  lemma RedirMeans(sub: Cmd, r: Redirection, s: string, c: Tree, file: string)
    requires Means(sub, s, c) && WordSpan(s, r.file) && s[r.file.q..r.file.eq] == file
    ensures Means(Redir(sub, r), s, TRedir(c, file, r.mode))
  {
  }

  lemma WrapOne(cmd: Cmd, r: Redirection)
    ensures Wrap(cmd, [r]) == Redir(cmd, r)
  {
    assert [r][..0] == [];
  }

  lemma RedirAt(sub: string, file: string, mode: Mode, s: string, p: nat)
    requires At(s, p, sub + (if mode == ReadOnly then "<" else ">") + file + " ")
    ensures var m := p + |sub|;
            && At(s, p, sub) && m < |s| && s[m] == (if mode == ReadOnly then '<' else '>')
            && At(s, m + 1, file) && At(s, m + 1 + |file|, " ")
  {
    var op := if mode == ReadOnly then "<" else ">";
    var m := p + |sub|;
    assert sub + op + file + " " == sub + (op + (file + " "));
    AtConcat(s, p, sub, op + (file + " "));
    AtConcat(s, m, op, file + " ");
    AtConcat(s, m + 1, file, " ");
    AtChar(s, m, op, 0);
  }

  lemma OneRedir(s: string, m: nat, file: string, mode: Mode)
    requires m < |s| && s[m] == (if mode == ReadOnly then '<' else '>') && ValidWord(file)
    requires At(s, m + 1, file) && At(s, m + 1 + |file|, " ") && Ends(s, m + 2 + |file|)
    ensures SkipWhite(s, m) == m
    ensures RedirsAre(s, m, [], [Redirection(Span(m + 1, m + 1 + |file|), mode)], m + 2 + |file|)
    ensures WordSpan(s, Span(m + 1, m + 1 + |file|)) && s[m + 1..m + 1 + |file|] == file
  {
    AtChar(s, m + 1, file, 0);
    AtChar(s, m + 1 + |file|, " ", 0);
    WordToken(s, m + 1, file);
    var e := m + 2 + |file|;
    assert SkipWhite(s, e - 1) == SkipWhite(s, e) == e;
    hide SkipWhite, WordEnd, ParseRedirs, RedirsAre;
    var r := Redirection(Span(m + 1, m + 1 + |file|), mode);
    NoRedirs(s, e, [r]);
    RedirStep(s, m, mode, r.file, e, [r], e);
  }

  lemma RedirStep(s: string, m: nat, mode: Mode, file: Span, next: nat, rs: seq<Redirection>, q: nat)
    requires m + 1 < |s| && s[m] == (if mode == ReadOnly then '<' else '>') && WordChar(s[m + 1])
    requires GetToken(s, m + 1) == Token(Word, file, next) && RedirsAre(s, next, [Redirection(file, mode)], rs, q)
    ensures SkipWhite(s, m) == m && RedirsAre(s, m, [], rs, q)
  {
    assert SkipWhite(s, m) == m && SkipWhite(s, m + 1) == m + 1;
    assert GetToken(s, m) == Token(Sym(s[m]), Span(m, m + 1), m + 1);
    assert [] + [Redirection(file, mode)] == [Redirection(file, mode)];
  }

  lemma PairAt(pl: string, pr: string, op: string, s: string, p: nat)
    requires |op| == 1 && At(s, p, pl + op + pr)
    ensures var m := p + |pl|; At(s, p, pl) && m < |s| && s[m] == op[0] && At(s, m + 1, pr)
  {
    assert pl + op + pr == pl + (op + pr);
    AtConcat(s, p, pl, op + pr);
    AtConcat(s, p + |pl|, op, pr);
    AtChar(s, p + |pl|, op, 0);
  }

  lemma {:induction false} PipeRoundTrip(l: Tree, r: Tree, s: string, p: nat, q: nat) returns (cmd: Cmd)
    requires ValidTree(l) && ValidTree(r) && At(s, p, Paren(Print(l)) + "|" + Paren(Print(r)))
    requires q == p + |Print(l)| + |Print(r)| + 5 && Ends(s, q)
    ensures Means(cmd, s, TPipe(l, r)) && LineIs(s, p, cmd, q)
    decreases TPipe(l, r), -1
  {
    hide ExecIs, PipeIs, LineIs, At, Print;
    var m := p + |Print(l)| + 2;
    PairAt(Paren(Print(l)), Paren(Print(r)), "|", s, p);
    ParenAt(s, m + 1, Print(r));
    var left := PlainParen(l, s, p, m);
    var right := PlainParen(r, s, m + 1, q);
    PipesJoin(s, p, left, m, right, q);
    cmd := Pipe(left, right);
    PipeIsLine(s, p, cmd, q);
  }

  lemma PipesJoin(s: string, p: nat, left: Cmd, m: nat, right: Cmd, q: nat)
    requires ExecIs(s, p, left, m) && m + 1 < |s| && s[m] == '|' && s[m + 1] == '(' && ExecIs(s, m + 1, right, q) &&
             Ends(s, q)
    ensures PipeIs(s, p, Pipe(left, right), q)
  {
    hide ParseExec, ParseBlock, ParseLine, ParseRedirs, ParseArgs;
    ExecIsPipe(s, m + 1, right, q);
    assert SkipWhite(s, m) == m && SkipWhite(s, m + 1) == m + 1;
    assert GetToken(s, m).next == m + 1;
  }

  lemma {:induction false} ListRoundTrip(l: Tree, r: Tree, s: string, p: nat, q: nat) returns (cmd: Cmd)
    requires ValidTree(l) && ValidTree(r) && At(s, p, Paren(Print(l)) + ";" + Paren(Print(r)))
    requires q == p + |Print(l)| + |Print(r)| + 5 && Ends(s, q)
    ensures Means(cmd, s, TList(l, r)) && LineIs(s, p, cmd, q)
    decreases TList(l, r), -1
  {
    hide ExecIs, PipeIs, LineIs, At, Print;
    var m := p + |Print(l)| + 2;
    PairAt(Paren(Print(l)), Paren(Print(r)), ";", s, p);
    ParenAt(s, m + 1, Print(r));
    var left := PlainParen(l, s, p, m);
    var right := PlainParen(r, s, m + 1, q);
    LinesJoin(s, p, left, m, right, q);
    cmd := List(left, right);
  }

  lemma LinesJoin(s: string, p: nat, left: Cmd, m: nat, right: Cmd, q: nat)
    requires ExecIs(s, p, left, m) && m + 1 < |s| && s[m] == ';' && s[m + 1] == '(' && ExecIs(s, m + 1, right, q) &&
             Ends(s, q)
    ensures LineIs(s, p, List(left, right), q)
  {
    hide ParseExec, ParsePipe, ParseLine, ParseBlock, ParseRedirs, ParseArgs;
    ExecIsPipe(s, p, left, m);
    ExecIsPipe(s, m + 1, right, q);
    PipeIsLine(s, m + 1, right, q);
    LineStep(s, p, left, m, right, q);
  }

  lemma LineStep(s: string, p: nat, left: Cmd, m: nat, right: Cmd, q: nat)
    requires PipeIs(s, p, left, m) && m + 1 < |s| && s[m] == ';' && s[m + 1] == '(' && LineIs(s, m + 1, right, q)
    ensures LineIs(s, p, List(left, right), q)
  {
    hide ParseExec, ParsePipe, ParseBlock, ParseRedirs, ParseArgs;
    assert SkipWhite(s, m) == m && SkipWhite(s, m + 1) == m + 1;
    assert GetToken(s, m).next == m + 1;
    assert ParseBacks(s, m, left) == Ok(left, m);
  }

  /** Parsing the printed form of any valid command tree gives that tree back. */
  lemma RoundTrip(t: Tree)
    requires ValidTree(t)
    ensures ParseCmd(Print(t)).Ok? && Means(ParseCmd(Print(t)).value, Print(t), t)
  {
    var s := Print(t);
    assert s[0..0 + |s|] == s;
    var cmd := LineRoundTrip(t, s, 0, |s|);
  }
}
