/**
 * The command language of sh.c as a grammar over tokens, and that the parser of Shell accepts exactly the lines
 * of that language and builds exactly the command each of them stands for.
 */
module ShellGrammar {
  import opened Shell

  // ---- Tokens ----

  /** A word with its place in the line, or one of `<`, `>`, `>>`, `|`, `&`, `;`, `(` and `)`. */
  datatype Lexeme = W(span: Span) | S(kind: Kind)

  function LexemeOf(t: Token): Lexeme {
    if t.kind == Word then W(t.span) else S(t.kind)
  }

  ghost predicate AllWhite(s: string, p: nat, q: nat) {
    p <= q <= |s| && (forall i :: p <= i < q ==> White(s[i])) && (q < |s| ==> !White(s[q]))
  }

  /**
   * t is the token after position p: behind white space a whole word, the two characters `>>`, or one symbol,
   * which is not the first of those two; the next one may start behind the white space after it.
   */
  ghost predicate IsToken(s: string, p: nat, t: Token) {
    var q, eq := t.span.q, t.span.eq;
    && AllWhite(s, p, q) && q <= eq && AllWhite(s, eq, t.next)
    && match t.kind {
         case Eof => q == eq == |s|
         case Word => WordSpan(s, t.span)
         case Append => s[q..eq] == ">>"
         case Sym(c) => s[q..eq] == [c] && Symbol(c) && !(c == '>' && eq < |s| && s[eq] == '>')
       }
  }

  lemma {:induction false} SkipsWhite(s: string, p: nat, q: nat)
    requires AllWhite(s, p, q)
    ensures SkipWhite(s, p) == q
    decreases q - p
  {
    if p < q {
      SkipsWhite(s, p + 1, q);
    }
  }

  /** gettoken finds that token, and there is no other. */
  lemma TokenIs(s: string, p: nat, t: Token)
    requires p <= |s|
    ensures t == GetToken(s, p) <==> IsToken(s, p, t)
  {
    TokenFound(s, p);
    if IsToken(s, p, t) {
      TokenUnique(s, p, t);
    }
  }

  lemma TokenFound(s: string, p: nat)
    requires p <= |s|
    ensures IsToken(s, p, GetToken(s, p))
  {
    var t := GetToken(s, p);
    if t.kind.Sym? || t.kind == Append {
      assert s[t.span.q..t.span.eq] == if t.kind == Append then ">>" else [s[t.span.q]];
    }
  }

  lemma TokenUnique(s: string, p: nat, t: Token)
    requires p <= |s| && IsToken(s, p, t)
    ensures t == GetToken(s, p)
  {
    var q, eq := t.span.q, t.span.eq;
    SkipsWhite(s, p, q);
    SkipsWhite(s, eq, t.next);
    match t.kind
    case Eof =>
    case Word => WordEndAt(s, q, eq);
    case Append => assert s[q] == s[q..eq][0] && s[q + 1] == s[q..eq][1];
    case Sym(c) => assert s[q] == s[q..eq][0];
  }

  /** All tokens from position p on. */
  function Tokens(s: string, p: nat): seq<Lexeme>
    requires p <= |s|
    decreases |s| - p
  {
    var t := GetToken(s, p);
    if t.kind == Eof then [] else [LexemeOf(t)] + Tokens(s, t.next)
  }

  /** The first character of a symbol. */
  function Head(kind: Kind): char {
    match kind
    case Sym(c) => c
    case Append => '>'
    case _ => ' '
  }

  /** The next token, if there is one, is a symbol that starts with one of `toks`. */
  predicate Next(ts: seq<Lexeme>, toks: string) {
    ts != [] && ts[0].S? && Head(ts[0].kind) in toks
  }

  lemma TokensFirst(s: string, p: nat)
    requires p <= |s|
    ensures var t, ts := GetToken(s, p), Tokens(s, p);
            if t.kind == Eof then ts == [] else ts != [] && ts[0] == LexemeOf(t) && ts[1..] == Tokens(s, t.next)
    ensures Tokens(s, SkipWhite(s, p)) == Tokens(s, p)
    ensures SkipWhite(s, p) == |s| <==> Tokens(s, p) == []
  {
    assert GetToken(s, SkipWhite(s, p)) == GetToken(s, p);
  }

  lemma PeekIsNext(s: string, p: nat, toks: string)
    requires p <= |s| && forall i :: 0 <= i < |toks| ==> Symbol(toks[i])
    ensures Peek(s, p, toks) <==> Next(Tokens(s, p), toks)
  {
    TokensFirst(s, p);
  }

  // ---- The grammar ----

  datatype Arrow = In | Out | Twice

  datatype File = File(arrow: Arrow, name: Span)

  datatype Item = Arg(word: Span) | To(file: File)

  /** Arguments and redirections in any order, or a line in parentheses with redirections after it. */
  datatype Simple = Command(items: seq<Item>) | Group(body: Line, files: seq<File>)

  datatype Pipeline = Only(c: Simple) | Into(c: Simple, rest: Pipeline)

  /** A pipeline with any number of `&` behind it, and after a `;` another line. */
  datatype Line = Last(p: Pipeline, amps: nat) | Then(p: Pipeline, amps: nat, rest: Line)

  function Sign(a: Arrow): Kind {
    match a
    case In => Sym('<')
    case Out => Sym('>')
    case Twice => Append
  }

  function FileTokens(f: File): seq<Lexeme> {
    [S(Sign(f.arrow)), W(f.name)]
  }

  function FilesTokens(fs: seq<File>): seq<Lexeme> {
    if fs == [] then [] else FileTokens(fs[0]) + FilesTokens(fs[1..])
  }

  function ItemTokens(i: Item): seq<Lexeme> {
    match i
    case Arg(w) => [W(w)]
    case To(f) => FileTokens(f)
  }

  function ItemsTokens(items: seq<Item>): seq<Lexeme> {
    if items == [] then [] else ItemTokens(items[0]) + ItemsTokens(items[1..])
  }

  function Amps(n: nat): seq<Lexeme> {
    if n == 0 then [] else [S(Sym('&'))] + Amps(n - 1)
  }

  function SimpleTokens(c: Simple): seq<Lexeme> {
    match c
    case Command(items) => ItemsTokens(items)
    case Group(body, files) => [S(Sym('('))] + LineTokens(body) + [S(Sym(')'))] + FilesTokens(files)
  }

  function PipelineTokens(p: Pipeline): seq<Lexeme> {
    match p
    case Only(c) => SimpleTokens(c)
    case Into(c, rest) => SimpleTokens(c) + [S(Sym('|'))] + PipelineTokens(rest)
  }

  function LineTokens(l: Line): seq<Lexeme> {
    match l
    case Last(p, n) => PipelineTokens(p) + Amps(n)
    case Then(p, n, rest) => PipelineTokens(p) + Amps(n) + [S(Sym(';'))] + LineTokens(rest)
  }

  // ---- What a line stands for ----

  /** `<` reads from the file, `>` and `>>` alike write to it. */
  function FileMeaning(f: File): Redirection {
    Redirection(f.name, if f.arrow == In then ReadOnly else WriteCreate)
  }

  /** The command with its redirections around it, from the first to the last. */
  function Redirected(cmd: Cmd, fs: seq<File>): Cmd
    decreases |fs|
  {
    if fs == [] then cmd else Redirected(Redir(cmd, FileMeaning(fs[0])), fs[1..])
  }

  function Args(items: seq<Item>): seq<Span> {
    if items == [] then [] else (if items[0].Arg? then [items[0].word] else []) + Args(items[1..])
  }

  function Files(items: seq<Item>): seq<File> {
    if items == [] then [] else (if items[0].To? then [items[0].file] else []) + Files(items[1..])
  }

  function InBackground(cmd: Cmd, n: nat): Cmd {
    if n == 0 then cmd else Back(InBackground(cmd, n - 1))
  }

  function SimpleMeaning(c: Simple): Cmd {
    match c
    case Command(items) => Redirected(Exec(Args(items)), Files(items))
    case Group(body, files) => Redirected(LineMeaning(body), files)
  }

  function PipelineMeaning(p: Pipeline): Cmd {
    match p
    case Only(c) => SimpleMeaning(c)
    case Into(c, rest) => Pipe(SimpleMeaning(c), PipelineMeaning(rest))
  }

  function LineMeaning(l: Line): Cmd {
    match l
    case Last(p, n) => InBackground(PipelineMeaning(p), n)
    case Then(p, n, rest) => List(InBackground(PipelineMeaning(p), n), LineMeaning(rest))
  }

  /** No command has MAXARGS arguments. */
  predicate SimpleFits(c: Simple) {
    match c
    case Command(items) => |Args(items)| < MAXARGS
    case Group(body, files) => LineFits(body)
  }

  predicate PipelineFits(p: Pipeline) {
    SimpleFits(p.c) && (p.Into? ==> PipelineFits(p.rest))
  }

  predicate LineFits(l: Line) {
    PipelineFits(l.p) && (l.Then? ==> LineFits(l.rest))
  }

  lemma Assoc<T>(a: seq<T>, b: seq<T>, c: seq<T>)
    ensures a + b + c == a + (b + c)
  {
  }

  // ---- Tokens parsed and tokens left ----

  /** `ts` are the tokens of `parsed` and then those from q on. */
  ghost predicate Splits(ts: seq<Lexeme>, parsed: seq<Lexeme>, s: string, q: nat) {
    q <= |s| && ts == parsed + Tokens(s, q)
  }

  lemma SplitsNone(s: string, p: nat)
    requires p <= |s|
    ensures Splits(Tokens(s, p), [], s, SkipWhite(s, p)) && Splits(Tokens(s, p), [], s, p)
  {
    TokensFirst(s, p);
  }

  lemma SplitsMore(ts: seq<Lexeme>, a: seq<Lexeme>, s: string, m: nat, b: seq<Lexeme>, q: nat)
    requires Splits(ts, a, s, m) && Splits(Tokens(s, m), b, s, q)
    ensures Splits(ts, a + b, s, q)
  {
  }

  // ---- Redirections ----

  function Modes(fs: seq<File>): (rs: seq<Redirection>)
    ensures |rs| == |fs| && forall i :: 0 <= i < |fs| ==> rs[i] == FileMeaning(fs[i])
  {
    if fs == [] then [] else [FileMeaning(fs[0])] + Modes(fs[1..])
  }

  lemma {:induction false} WrapFront(cmd: Cmd, r: Redirection, rs: seq<Redirection>)
    ensures Wrap(cmd, [r] + rs) == Wrap(Redir(cmd, r), rs)
    decreases |rs|
  {
    var all, n := [r] + rs, |rs| - 1;
    if rs == [] {
      assert all[..0] == [];
    } else {
      assert all[..|all| - 1] == [r] + rs[..n];
      WrapFront(cmd, r, rs[..n]);
    }
  }

  lemma {:induction false} WrapIsRedirected(cmd: Cmd, fs: seq<File>)
    ensures Wrap(cmd, Modes(fs)) == Redirected(cmd, fs)
    decreases |fs|
  {
    if fs != [] {
      WrapFront(cmd, FileMeaning(fs[0]), Modes(fs[1..]));
      WrapIsRedirected(Redir(cmd, FileMeaning(fs[0])), fs[1..]);
    }
  }

  /** One redirection that the parser takes. */
  function Took(op: Token, file: Token): File {
    File(if op.kind == Sym('<') then In else if op.kind == Append then Twice else Out, file.span)
  }

  lemma ArrowTaken(s: string, p: nat)
    requires p <= |s| && Peek(s, p, "<>") && GetToken(s, GetToken(s, p).next).kind == Word
    ensures var op := GetToken(s, p); var file := GetToken(s, op.next);
            && Splits(Tokens(s, p), FileTokens(Took(op, file)), s, file.next)
            && FileMeaning(Took(op, file)) ==
               Redirection(file.span, if op.kind == Sym('<') then ReadOnly else WriteCreate)
  {
    hide GetToken, Peek, SkipWhite, Tokens;
    var op := GetToken(s, p);
    PeekIsNext(s, p, "<>");
    TokensFirst(s, p);
    TokensFirst(s, op.next);
    var ts := Tokens(s, p);
    assert ts == [ts[0]] + ts[1..];
  }

  lemma ArrowFound(s: string, p: nat, f: File, ts: seq<Lexeme>)
    requires p <= |s| && Tokens(s, p) == FileTokens(f) + ts
    ensures Peek(s, p, "<>")
    ensures var op := GetToken(s, p); var file := GetToken(s, op.next);
            file.kind == Word && Took(op, file) == f && Tokens(s, file.next) == ts
  {
    hide GetToken, Peek, SkipWhite, Tokens;
    var op := GetToken(s, p);
    TokensFirst(s, p);
    PeekIsNext(s, p, "<>");
    TokensFirst(s, op.next);
    assert Tokens(s, op.next) == [W(f.name)] + ts;
    assert ([W(f.name)] + ts)[1..] == ts;
  }

  lemma FilesFirst(f: File, fs: seq<File>, rs: seq<Redirection>)
    ensures FilesTokens([f] + fs) == FileTokens(f) + FilesTokens(fs)
    ensures rs + Modes([f] + fs) == rs + [FileMeaning(f)] + Modes(fs)
  {
    hide FileTokens, FileMeaning;
    assert ([f] + fs)[1..] == fs;
    Assoc(rs, [FileMeaning(f)], Modes(fs));
  }

  lemma RedirsTakes(s: string, p: nat, rs: seq<Redirection>)
    requires p <= |s| && Peek(s, p, "<>")
    ensures var op := GetToken(s, p); var file := GetToken(s, op.next);
            ParseRedirs(s, p, rs) ==
            if file.kind == Word then ParseRedirs(s, file.next, rs + [FileMeaning(Took(op, file))]) else Panic
  {
    hide GetToken, Peek, SkipWhite, Tokens, Splits;
    if GetToken(s, GetToken(s, p).next).kind == Word {
      ArrowTaken(s, p);
    }
  }

  lemma RedirsStop(s: string, p: nat, rs: seq<Redirection>)
    requires p <= |s| && !Peek(s, p, "<>")
    ensures ParseRedirs(s, p, rs) == Ok(rs, SkipWhite(s, p))
  {
  }

  lemma {:induction false} RedirsSound(s: string, p: nat, rs: seq<Redirection>) returns (fs: seq<File>)
    requires p <= |s| && ParseRedirs(s, p, rs).Ok?
    ensures var r := ParseRedirs(s, p, rs);
            r.value == rs + Modes(fs) && Splits(Tokens(s, p), FilesTokens(fs), s, r.pos)
    decreases |s| - p
  {
    hide GetToken, Peek, SkipWhite, Tokens, Splits, FileTokens, ParseRedirs, Modes, FilesTokens, Took, FileMeaning;
    if !Peek(s, p, "<>") {
      fs := [];
      FilesSplit(fs, rs, []);
      RedirsStop(s, p, rs);
      SplitsNone(s, p);
    } else {
      RedirsTakes(s, p, rs);
      var op := GetToken(s, p);
      var file := GetToken(s, op.next);
      var f := Took(op, file);
      ArrowTaken(s, p);
      var rest := RedirsSound(s, file.next, rs + [FileMeaning(f)]);
      FilesFirst(f, rest, rs);
      fs := [f] + rest;
      SplitsMore(Tokens(s, p), FileTokens(f), s, file.next, FilesTokens(rest), ParseRedirs(s, p, rs).pos);
    }
  }

  lemma RedirsArrow(s: string, p: nat, rs: seq<Redirection>, f: File, ts: seq<Lexeme>)
    requires p <= |s| && Tokens(s, p) == FileTokens(f) + ts
    ensures var next := GetToken(s, GetToken(s, p).next).next;
            ParseRedirs(s, p, rs) == ParseRedirs(s, next, rs + [FileMeaning(f)]) && Tokens(s, next) == ts
  {
    hide GetToken, Peek, SkipWhite, Tokens, FileTokens, ParseRedirs;
    ArrowFound(s, p, f, ts);
    RedirsTakes(s, p, rs);
  }

  lemma RedirsEnd(s: string, p: nat, rs: seq<Redirection>)
    requires p <= |s| && !Next(Tokens(s, p), "<>")
    ensures ParseRedirs(s, p, rs) == Ok(rs, SkipWhite(s, p)) && Tokens(s, SkipWhite(s, p)) == Tokens(s, p)
  {
    hide GetToken, Peek, SkipWhite, Tokens, Next, ParseRedirs;
    PeekIsNext(s, p, "<>");
    RedirsStop(s, p, rs);
    TokensFirst(s, p);
  }

  lemma FilesSplit(fs: seq<File>, rs: seq<Redirection>, ts: seq<Lexeme>)
    ensures fs == [] ==> FilesTokens(fs) == [] && FilesTokens(fs) + ts == ts && rs + Modes(fs) == rs
    ensures fs != [] ==> FilesTokens(fs) + ts == FileTokens(fs[0]) + (FilesTokens(fs[1..]) + ts)
    ensures fs != [] ==> rs + Modes(fs) == rs + [FileMeaning(fs[0])] + Modes(fs[1..])
  {
    hide FileTokens, FileMeaning;
  }

  lemma {:induction false} RedirsComplete(s: string, p: nat, rs: seq<Redirection>, fs: seq<File>, ts: seq<Lexeme>)
    requires p <= |s| && Tokens(s, p) == FilesTokens(fs) + ts && !Next(ts, "<>")
    ensures var r := ParseRedirs(s, p, rs); r.Ok? && r.value == rs + Modes(fs) && Tokens(s, r.pos) == ts
    decreases |fs|
  {
    hide GetToken, ParseRedirs, SkipWhite, Tokens, FileTokens, FilesTokens, Modes, Next, FileMeaning;
    FilesSplit(fs, rs, ts);
    if fs == [] {
      RedirsEnd(s, p, rs);
    } else {
      var f, rest := fs[0], fs[1..];
      RedirsArrow(s, p, rs, f, FilesTokens(rest) + ts);
      RedirsComplete(s, GetToken(s, GetToken(s, p).next).next, rs + [FileMeaning(f)], rest, ts);
    }
  }

  // ---- Arguments and redirections ----

  /** What parseexec does before and after each argument: redirections, then the loop over arguments. */
  function Mixed(s: string, p: nat, argv: seq<Span>, rs: seq<Redirection>): Result<Cmd>
    requires p <= |s|
  {
    var r := ParseRedirs(s, p, rs);
    if r.Panic? then Panic else ParseArgs(s, r.pos, argv, r.value)
  }

  lemma MixedArrow(s: string, p: nat, argv: seq<Span>, rs: seq<Redirection>)
    requires p <= |s| && Peek(s, p, "<>")
    ensures var op := GetToken(s, p); var file := GetToken(s, op.next);
            Mixed(s, p, argv, rs) ==
            if file.kind == Word then Mixed(s, file.next, argv, rs + [FileMeaning(Took(op, file))]) else Panic
  {
    hide ParseArgs, ParseRedirs, GetToken, Peek, SkipWhite;
    RedirsTakes(s, p, rs);
  }

  lemma MixedOther(s: string, p: nat, argv: seq<Span>, rs: seq<Redirection>)
    requires p <= |s| && !Peek(s, p, "<>")
    ensures var t := GetToken(s, p);
            Mixed(s, p, argv, rs) ==
            if Peek(s, p, "|)&;") || t.kind == Eof then Ok(Wrap(Exec(argv), rs), SkipWhite(s, p))
            else if t.kind != Word || |argv| + 1 >= MAXARGS then Panic
            else Mixed(s, t.next, argv + [t.span], rs)
  {
    var q := SkipWhite(s, p);
    assert SkipWhite(s, q) == q && GetToken(s, q) == GetToken(s, p) && Peek(s, q, "|)&;") == Peek(s, p, "|)&;");
    assert ParseRedirs(s, p, rs) == Ok(rs, q);
    hide GetToken, Peek, SkipWhite;
  }

  lemma ItemsFirst(i: Item, items: seq<Item>)
    ensures ItemsTokens([i] + items) == ItemTokens(i) + ItemsTokens(items)
    ensures Args([i] + items) == if i.Arg? then [i.word] + Args(items) else Args(items)
    ensures Files([i] + items) == if i.To? then [i.file] + Files(items) else Files(items)
  {
    assert ([i] + items)[1..] == items && [] + Args(items) == Args(items) && [] + Files(items) == Files(items);
  }

  /** The command that a run of items makes of what came before it. */
  function Built(argv: seq<Span>, rs: seq<Redirection>, items: seq<Item>): Cmd {
    Wrap(Exec(argv + Args(items)), rs + Modes(Files(items)))
  }

  lemma BuiltFirst(argv: seq<Span>, rs: seq<Redirection>, i: Item, items: seq<Item>)
    ensures Built(argv, rs, [i] + items) ==
            match i
            case Arg(w) => Built(argv + [w], rs, items)
            case To(f) => Built(argv, rs + [FileMeaning(f)], items)
  {
    hide Args, Files, Modes, Wrap;
    ItemsFirst(i, items);
    if i.To? {
      FilesFirst(i.file, Files(items), rs);
    } else {
      Assoc(argv, [i.word], Args(items));
    }
  }

  lemma {:induction false} MixedSound(s: string, p: nat, argv: seq<Span>, rs: seq<Redirection>)
    returns (items: seq<Item>)
    requires p <= |s| && Mixed(s, p, argv, rs).Ok? && |argv| < MAXARGS
    ensures var r := Mixed(s, p, argv, rs);
            && r.value == Built(argv, rs, items) && |argv + Args(items)| < MAXARGS
            && Splits(Tokens(s, p), ItemsTokens(items), s, r.pos)
    decreases |s| - p
  {
    hide GetToken, Peek, Built, Mixed, Tokens, SkipWhite, Splits, FileTokens;
    var t, q := GetToken(s, p), Mixed(s, p, argv, rs).pos;
    if Peek(s, p, "<>") {
      MixedArrow(s, p, argv, rs);
      var file := GetToken(s, t.next);
      var f := Took(t, file);
      ArrowTaken(s, p);
      var rest := MixedSound(s, file.next, argv, rs + [FileMeaning(f)]);
      items := [To(f)] + rest;
      ItemsFirst(To(f), rest);
      BuiltFirst(argv, rs, To(f), rest);
      SplitsMore(Tokens(s, p), FileTokens(f), s, file.next, ItemsTokens(rest), q);
    } else {
      MixedOther(s, p, argv, rs);
      if Peek(s, p, "|)&;") || t.kind == Eof {
        items := [];
        BuiltNone(argv, rs);
        SplitsNone(s, p);
      } else {
        WordTaken(s, p);
        var rest := MixedSound(s, t.next, argv + [t.span], rs);
        items := [Arg(t.span)] + rest;
        ItemsFirst(Arg(t.span), rest);
        BuiltFirst(argv, rs, Arg(t.span), rest);
        SplitsMore(Tokens(s, p), [W(t.span)], s, t.next, ItemsTokens(rest), q);
      }
    }
  }

  lemma WordTaken(s: string, p: nat)
    requires p <= |s| && GetToken(s, p).kind == Word
    ensures var t := GetToken(s, p); Splits(Tokens(s, p), [W(t.span)], s, t.next)
  {
    TokensFirst(s, p);
    hide GetToken;
  }

  lemma BuiltNone(argv: seq<Span>, rs: seq<Redirection>)
    ensures Built(argv, rs, []) == Wrap(Exec(argv), rs)
  {
    assert argv + [] == argv && rs + [] == rs;
  }

  /** What may follow the items of a command. */
  predicate EndsItems(ts: seq<Lexeme>) {
    ts == [] || Next(ts, "|)&;")
  }

  lemma WordFound(s: string, p: nat, w: Span, ts: seq<Lexeme>)
    requires p <= |s| && Tokens(s, p) == [W(w)] + ts
    ensures !Peek(s, p, "<>") && !Peek(s, p, "|)&;")
    ensures var t := GetToken(s, p); t.kind == Word && t.span == w && Tokens(s, t.next) == ts
  {
    hide GetToken, Peek, Tokens, SkipWhite;
    TokensFirst(s, p);
    PeekIsNext(s, p, "<>");
    PeekIsNext(s, p, "|)&;");
    assert ([W(w)] + ts)[1..] == ts;
  }

  lemma EndFound(s: string, p: nat, argv: seq<Span>, rs: seq<Redirection>)
    requires p <= |s| && EndsItems(Tokens(s, p))
    ensures Mixed(s, p, argv, rs) == Ok(Built(argv, rs, []), SkipWhite(s, p))
    ensures Tokens(s, SkipWhite(s, p)) == Tokens(s, p)
  {
    hide GetToken, Peek, Tokens, SkipWhite, Mixed;
    TokensFirst(s, p);
    PeekIsNext(s, p, "<>");
    PeekIsNext(s, p, "|)&;");
    MixedOther(s, p, argv, rs);
    BuiltNone(argv, rs);
  }

  lemma ItemsSplit(items: seq<Item>, argv: seq<Span>, ts: seq<Lexeme>)
    ensures items == [] ==> ItemsTokens(items) + ts == ts
    ensures items != [] ==> ItemsTokens(items) + ts == ItemTokens(items[0]) + (ItemsTokens(items[1..]) + ts)
    ensures items != [] && items[0].Arg? ==> argv + Args(items) == argv + [items[0].word] + Args(items[1..])
    ensures items != [] && items[0].To? ==> argv + Args(items) == argv + Args(items[1..])
  {
    if items != [] {
      hide ItemsTokens, ItemTokens, Args, Files;
      var i, rest := items[0], items[1..];
      assert items == [i] + rest;
      ItemsFirst(i, rest);
      Assoc(ItemTokens(i), ItemsTokens(rest), ts);
      if i.Arg? {
        Assoc(argv, [i.word], Args(rest));
      }
    }
  }

  lemma {:induction false} MixedComplete(s: string, p: nat, argv: seq<Span>, rs: seq<Redirection>, items: seq<Item>,
                                         ts: seq<Lexeme>)
    requires p <= |s| && Tokens(s, p) == ItemsTokens(items) + ts && EndsItems(ts) && |argv + Args(items)| < MAXARGS
    ensures var r := Mixed(s, p, argv, rs);
            r.Ok? && r.value == Built(argv, rs, items) && r.pos <= |s| && Tokens(s, r.pos) == ts
    decreases |items|
  {
    hide GetToken, Peek, Built, Mixed, Tokens, SkipWhite, EndsItems, FileTokens, ItemsTokens, Args;
    ItemsSplit(items, argv, ts);
    if items == [] {
      EndFound(s, p, argv, rs);
    } else {
      var i, rest, t := items[0], items[1..], GetToken(s, p);
      assert items == [i] + rest;
      BuiltFirst(argv, rs, i, rest);
      if i.To? {
        ArrowFound(s, p, i.file, ItemsTokens(rest) + ts);
        MixedArrow(s, p, argv, rs);
        MixedComplete(s, GetToken(s, t.next).next, argv, rs + [FileMeaning(i.file)], rest, ts);
      } else {
        WordFound(s, p, i.word, ItemsTokens(rest) + ts);
        MixedOther(s, p, argv, rs);
        MixedComplete(s, t.next, argv + [i.word], rs, rest, ts);
      }
    }
  }

  // ---- Simple commands, pipelines and lines: what is parsed is in the grammar ----

  lemma BuiltMeaning(items: seq<Item>)
    ensures Built([], [], items) == SimpleMeaning(Command(items))
  {
    assert [] + Args(items) == Args(items) && [] + Modes(Files(items)) == Modes(Files(items));
    WrapIsRedirected(Exec(Args(items)), Files(items));
  }

  lemma SymbolTaken(s: string, p: nat, c: char)
    requires p <= |s| && Peek(s, p, [c]) && Symbol(c) && c != '>'
    ensures Splits(Tokens(s, p), [S(Sym(c))], s, GetToken(s, p).next)
  {
    TokensFirst(s, p);
  }

  lemma {:induction false} ExecSound(s: string, p: nat) returns (c: Simple)
    requires p <= |s| && ParseExec(s, p).Ok?
    ensures var r := ParseExec(s, p);
            r.value == SimpleMeaning(c) && SimpleFits(c) && Splits(Tokens(s, p), SimpleTokens(c), s, r.pos)
    decreases |s| - p, 1
  {
    if Peek(s, p, "(") {
      c := BlockSound(s, p);
    } else {
      var items := MixedSound(s, p, [], []);
      c := Command(items);
      BuiltMeaning(items);
    }
  }

  lemma {:induction false} BlockSound(s: string, p: nat) returns (c: Simple)
    requires p <= |s| && Peek(s, p, "(") && ParseBlock(s, p).Ok?
    ensures var r := ParseBlock(s, p);
            r.value == SimpleMeaning(c) && SimpleFits(c) && Splits(Tokens(s, p), SimpleTokens(c), s, r.pos)
    decreases |s| - p, 0
  {
    hide Peek, GetToken, Tokens, Splits, ParseLine, ParseRedirs, SkipWhite, FilesTokens, LineTokens, LineFits, Wrap;
    var open := GetToken(s, p).next;
    var l := ParseLine(s, open);
    var close := GetToken(s, l.pos).next;
    SymbolTaken(s, p, '(');
    var body := LineSound(s, open);
    SplitsMore(Tokens(s, p), [S(Sym('('))], s, open, LineTokens(body), l.pos);
    SymbolTaken(s, l.pos, ')');
    SplitsMore(Tokens(s, p), [S(Sym('('))] + LineTokens(body), s, l.pos, [S(Sym(')'))], close);
    var fs := RedirsSound(s, close, []);
    c := Group(body, fs);
    SplitsMore(Tokens(s, p), [S(Sym('('))] + LineTokens(body) + [S(Sym(')'))], s, close, FilesTokens(fs),
      ParseRedirs(s, close, []).pos);
    assert [] + Modes(fs) == Modes(fs);
    WrapIsRedirected(l.value, fs);
  }

  lemma {:induction false} PipeSound(s: string, p: nat) returns (pl: Pipeline)
    requires p <= |s| && ParsePipe(s, p).Ok?
    ensures var r := ParsePipe(s, p);
            r.value == PipelineMeaning(pl) && PipelineFits(pl) && Splits(Tokens(s, p), PipelineTokens(pl), s, r.pos)
    decreases |s| - p, 2
  {
    hide Peek, GetToken, Tokens, ParseExec, Splits, SkipWhite, SimpleTokens, SimpleFits, SimpleMeaning;
    var c := ExecSound(s, p);
    var q, ts := ParseExec(s, p).pos, SimpleTokens(c);
    if !Peek(s, q, "|") {
      pl := Only(c);
      SplitsNone(s, q);
      SplitsMore(Tokens(s, p), ts, s, q, [], SkipWhite(s, q));
      assert ts + [] == ts;
    } else {
      var bar := GetToken(s, q).next;
      SymbolTaken(s, q, '|');
      SplitsMore(Tokens(s, p), ts, s, q, [S(Sym('|'))], bar);
      var rest := PipeSound(s, bar);
      pl := Into(c, rest);
      SplitsMore(Tokens(s, p), ts + [S(Sym('|'))], s, bar, PipelineTokens(rest), ParsePipe(s, bar).pos);
    }
  }

  lemma {:induction false} BacksSound(s: string, p: nat, cmd: Cmd, n: nat, first: Cmd) returns (m: nat)
    requires p <= |s| && cmd == InBackground(first, n)
    ensures var r := ParseBacks(s, p, cmd);
            r.value == InBackground(first, n + m) && Splits(Tokens(s, p), Amps(m), s, r.pos)
    decreases |s| - p
  {
    hide Peek, GetToken, Tokens, Splits, SkipWhite;
    if Peek(s, p, "&") {
      var next := GetToken(s, p).next;
      SymbolTaken(s, p, '&');
      var more := BacksSound(s, next, Back(cmd), n + 1, first);
      m := more + 1;
      SplitsMore(Tokens(s, p), [S(Sym('&'))], s, next, Amps(more), ParseBacks(s, p, cmd).pos);
    } else {
      m := 0;
      SplitsNone(s, p);
    }
  }

  lemma {:induction false} LineSound(s: string, p: nat) returns (l: Line)
    requires p <= |s| && ParseLine(s, p).Ok?
    ensures var r := ParseLine(s, p);
            r.value == LineMeaning(l) && LineFits(l) && Splits(Tokens(s, p), LineTokens(l), s, r.pos)
    decreases |s| - p, 3
  {
    hide Peek, GetToken, Tokens, ParsePipe, ParseBacks, Splits, SkipWhite, PipelineTokens, PipelineFits,
      PipelineMeaning, Amps;
    var pl := PipeSound(s, p);
    var first := ParsePipe(s, p);
    var n := BacksSound(s, first.pos, first.value, 0, first.value);
    var b, ts := ParseBacks(s, first.pos, first.value), PipelineTokens(pl) + Amps(n);
    SplitsMore(Tokens(s, p), PipelineTokens(pl), s, first.pos, Amps(n), b.pos);
    if !Peek(s, b.pos, ";") {
      l := Last(pl, n);
    } else {
      var next := GetToken(s, b.pos).next;
      SymbolTaken(s, b.pos, ';');
      SplitsMore(Tokens(s, p), ts, s, b.pos, [S(Sym(';'))], next);
      var rest := LineSound(s, next);
      l := Then(pl, n, rest);
      SplitsMore(Tokens(s, p), ts + [S(Sym(';'))], s, next, LineTokens(rest), ParseLine(s, next).pos);
    }
  }

  // ---- And what is in the grammar is parsed ----

  lemma SymbolFound(s: string, p: nat, c: char, ts: seq<Lexeme>)
    requires p <= |s| && Tokens(s, p) == [S(Sym(c))] + ts && Symbol(c)
    ensures Peek(s, p, [c]) && Tokens(s, GetToken(s, p).next) == ts
  {
    hide GetToken, Peek, Tokens, SkipWhite;
    TokensFirst(s, p);
    PeekIsNext(s, p, [c]);
    assert ([S(Sym(c))] + ts)[1..] == ts;
  }

  /** The parsing functions' results, with the tokens left. */
  ghost predicate Leaves(r: Result<Cmd>, cmd: Cmd, s: string, ts: seq<Lexeme>) {
    r.Ok? && r.value == cmd && r.pos <= |s| && Tokens(s, r.pos) == ts
  }

  lemma CommandComplete(s: string, p: nat, items: seq<Item>, ts: seq<Lexeme>)
    requires p <= |s| && Tokens(s, p) == ItemsTokens(items) + ts && EndsItems(ts) && |Args(items)| < MAXARGS
    ensures Leaves(ParseExec(s, p), SimpleMeaning(Command(items)), s, ts)
  {
    hide GetToken, Peek, Tokens, SkipWhite, ParseBlock, ParseArgs, ParseRedirs;
    assert items != [] ==> ItemsTokens(items) == ItemTokens(items[0]) + ItemsTokens(items[1..]);
    PeekIsNext(s, p, "(");
    assert [] + Args(items) == Args(items);
    MixedComplete(s, p, [], [], items, ts);
    BuiltMeaning(items);
  }

  lemma {:induction false} SimpleComplete(s: string, p: nat, c: Simple, ts: seq<Lexeme>)
    requires p <= |s| && Tokens(s, p) == SimpleTokens(c) + ts && EndsItems(ts) && SimpleFits(c)
    ensures Leaves(ParseExec(s, p), SimpleMeaning(c), s, ts)
    decreases c, 0
  {
    hide GetToken, Peek, Tokens, SkipWhite, ParseExec, ParseLine, FilesTokens, ItemsTokens, LineTokens, Args, EndsItems;
    match c
    case Command(items) =>
      CommandComplete(s, p, items, ts);
    case Group(body, files) =>
      assert !Next(ts, "<>") by { EndNotArrow(ts); }
      var close := [S(Sym(')'))] + (FilesTokens(files) + ts);
      GroupTokens(body, files, ts);
      SymbolFound(s, p, '(', LineTokens(body) + close);
      LineComplete(s, GetToken(s, p).next, body, close);
      GroupCloses(s, p, LineMeaning(body), files, ts);
  }

  lemma EndNotArrow(ts: seq<Lexeme>)
    requires EndsItems(ts)
    ensures !Next(ts, "<>")
  {
  }

  lemma GroupTokens(body: Line, files: seq<File>, ts: seq<Lexeme>)
    ensures SimpleTokens(Group(body, files)) + ts ==
            [S(Sym('('))] + (LineTokens(body) + ([S(Sym(')'))] + (FilesTokens(files) + ts)))
  {
  }

  lemma GroupCloses(s: string, p: nat, cmd: Cmd, files: seq<File>, ts: seq<Lexeme>)
    requires p <= |s| && Peek(s, p, "(") && !Next(ts, "<>")
    requires Leaves(ParseLine(s, GetToken(s, p).next), cmd, s, [S(Sym(')'))] + (FilesTokens(files) + ts))
    ensures Leaves(ParseExec(s, p), Redirected(cmd, files), s, ts)
  {
    hide GetToken, Peek, Tokens, SkipWhite, ParseArgs, ParseRedirs, ParseLine;
    var l := ParseLine(s, GetToken(s, p).next);
    SymbolFound(s, l.pos, ')', FilesTokens(files) + ts);
    RedirsComplete(s, GetToken(s, l.pos).next, [], files, ts);
    assert [] + Modes(files) == Modes(files);
    WrapIsRedirected(cmd, files);
  }

  lemma {:induction false} PipelineComplete(s: string, p: nat, pl: Pipeline, ts: seq<Lexeme>)
    requires p <= |s| && Tokens(s, p) == PipelineTokens(pl) + ts && PipelineFits(pl)
    requires EndsItems(ts) && !Next(ts, "|")
    ensures Leaves(ParsePipe(s, p), PipelineMeaning(pl), s, ts)
    decreases pl, 0
  {
    hide GetToken, Peek, Tokens, SkipWhite, ParseExec;
    match pl
    case Only(c) =>
      SimpleComplete(s, p, c, ts);
      PeekIsNext(s, ParseExec(s, p).pos, "|");
      TokensFirst(s, ParseExec(s, p).pos);
    case Into(c, rest) =>
      var after := PipelineTokens(rest) + ts;
      assert Tokens(s, p) == SimpleTokens(c) + ([S(Sym('|'))] + after);
      SimpleComplete(s, p, c, [S(Sym('|'))] + after);
      var q := ParseExec(s, p).pos;
      SymbolFound(s, q, '|', after);
      PipelineComplete(s, GetToken(s, q).next, rest, ts);
  }

  lemma {:induction false} BacksComplete(s: string, p: nat, first: Cmd, n: nat, m: nat, ts: seq<Lexeme>)
    requires p <= |s| && Tokens(s, p) == Amps(m) + ts && !Next(ts, "&")
    ensures Leaves(ParseBacks(s, p, InBackground(first, n)), InBackground(first, n + m), s, ts)
    decreases m
  {
    hide GetToken, Peek, Tokens, SkipWhite;
    if m == 0 {
      assert Amps(m) + ts == ts;
      PeekIsNext(s, p, "&");
      TokensFirst(s, p);
    } else {
      assert Tokens(s, p) == [S(Sym('&'))] + (Amps(m - 1) + ts);
      SymbolFound(s, p, '&', Amps(m - 1) + ts);
      BacksComplete(s, GetToken(s, p).next, first, n + 1, m - 1, ts);
    }
  }

  lemma AmpsFirst(n: nat, ts: seq<Lexeme>)
    requires !Next(ts, "|") && EndsItems(ts)
    ensures EndsItems(Amps(n) + ts) && !Next(Amps(n) + ts, "|")
  {
    if n == 0 {
      assert Amps(n) + ts == ts;
    }
  }

  /** A pipeline and the `&`s after it. */
  lemma {:induction false} FirstComplete(s: string, p: nat, pl: Pipeline, n: nat, ts: seq<Lexeme>)
    requires p <= |s| && Tokens(s, p) == PipelineTokens(pl) + Amps(n) + ts && PipelineFits(pl)
    requires EndsItems(ts) && !Next(ts, "|") && !Next(ts, "&")
    ensures var r := ParsePipe(s, p);
            r.Ok? && Leaves(ParseBacks(s, r.pos, r.value), InBackground(PipelineMeaning(pl), n), s, ts)
    decreases pl, 1
  {
    hide GetToken, Peek, Tokens, SkipWhite, ParsePipe, ParseBacks;
    AmpsFirst(n, ts);
    assert Tokens(s, p) == PipelineTokens(pl) + (Amps(n) + ts);
    PipelineComplete(s, p, pl, Amps(n) + ts);
    BacksComplete(s, ParsePipe(s, p).pos, PipelineMeaning(pl), 0, n, ts);
  }

  lemma {:induction false} LineComplete(s: string, p: nat, l: Line, ts: seq<Lexeme>)
    requires p <= |s| && Tokens(s, p) == LineTokens(l) + ts && LineFits(l) && (ts == [] || Next(ts, ")"))
    ensures Leaves(ParseLine(s, p), LineMeaning(l), s, ts)
    decreases l, 0
  {
    hide GetToken, Peek, Tokens, SkipWhite, ParsePipe, ParseBacks;
    match l
    case Last(pl, n) =>
      FirstComplete(s, p, pl, n, ts);
      var b := ParseBacks(s, ParsePipe(s, p).pos, ParsePipe(s, p).value);
      PeekIsNext(s, b.pos, ";");
    case Then(pl, n, rest) =>
      var after := LineTokens(rest) + ts;
      assert Tokens(s, p) == PipelineTokens(pl) + Amps(n) + ([S(Sym(';'))] + after);
      FirstComplete(s, p, pl, n, [S(Sym(';'))] + after);
      var b := ParseBacks(s, ParsePipe(s, p).pos, ParsePipe(s, p).value);
      SymbolFound(s, b.pos, ';', after);
      LineComplete(s, GetToken(s, b.pos).next, rest, ts);
  }

  /** The line s is l, and stands for cmd. */
  ghost predicate IsLine(s: string, l: Line, cmd: Cmd) {
    LineTokens(l) == Tokens(s, 0) && LineFits(l) && LineMeaning(l) == cmd
  }

  /**
   * The parser is the grammar: it accepts exactly the lines the grammar has a derivation for, and returns exactly
   * what that derivation stands for.
   */
  lemma ParserIsGrammar(s: string, cmd: Cmd)
    ensures ParseCmd(s).Ok? && ParseCmd(s).value == cmd <==> exists l :: IsLine(s, l, cmd)
  {
    hide Tokens, SkipWhite, ParseLine;
    var r := ParseLine(s, 0);
    if ParseCmd(s).Ok? {
      var l := LineSound(s, 0);
      TokensFirst(s, r.pos);
      assert LineTokens(l) + [] == LineTokens(l);
      assert IsLine(s, l, r.value);
    }
    if l :| IsLine(s, l, cmd) {
      assert LineTokens(l) + [] == LineTokens(l);
      LineComplete(s, 0, l, []);
      TokensFirst(s, r.pos);
    }
  }
}
