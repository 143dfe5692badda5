/** The command parser of p2/xv6/user/sh.c: gettoken, peek, the recursive descent from parsecmd
    down, and nulterminate.

    A command is parsed into spans of the line buffer, as the original's pointers are. */
module Shell {

  const MAXARGS := 10

  datatype Span = Span(q: nat, eq: nat)

  /** A parsed command; W is Span after parsing and string in the commands people mean. */
  datatype Cmd<W> =
    | Exec(argv: seq<W>)
    | Redir(cmd: Cmd<W>, file: W, input: bool)
    | Pipe(left: Cmd<W>, right: Cmd<W>)
    | List(left: Cmd<W>, right: Cmd<W>)
    | Back(cmd: Cmd<W>)

  datatype Panic = MissingFile | MissingParenthesis | Syntax | TooManyArgs | Leftovers

  datatype Parsed<T> = Ok(value: T, next: nat) | Failed(why: Panic)

  datatype Redirection<W> = To(file: W, input: bool)

  predicate IsSpace(c: char) {
    c == ' ' || c == '\t' || c == '\r' || c == '\n' || c == 11 as char
  }

  predicate IsSymbol(c: char) {
    c == '<' || c == '|' || c == '>' || c == '&' || c == ';' || c == '(' || c == ')'
  }

  predicate InWord(c: char) {
    !IsSpace(c) && !IsSymbol(c)
  }

  /** A C string without its NUL. */
  ghost predicate IsLine(s: string) {
    forall i: nat {:trigger s[i]} | i < |s| :: s[i] != '\0'
  }

  function At(s: string, p: nat): char {
    if p < |s| then s[p] else '\0'
  }

  // ----- Tokens

  function Skip(s: string, p: nat): (r: nat)
    requires p <= |s|
    ensures p <= r <= |s| && (r < |s| ==> !IsSpace(s[r]))
    decreases |s| - p
  {
    if p < |s| && IsSpace(s[p]) then Skip(s, p + 1) else p
  }

  function WordEnd(s: string, p: nat): (r: nat)
    requires p <= |s|
    ensures p <= r <= |s| && (r < |s| ==> !InWord(s[r]))
    ensures forall i: nat {:trigger s[i]} | p <= i < r :: InWord(s[i])
    decreases |s| - p
  {
    if p < |s| && InWord(s[p]) then WordEnd(s, p + 1) else p
  }

  /** What gettoken finds: the kind, the span of the token, and where the next one starts. */
  datatype Token = Token(kind: char, span: Span, next: nat)

  function KindAt(s: string, p: nat): char {
    var c := At(s, p);
    if c == '\0' || (IsSymbol(c) && c != '>') then c
    else if c == '>' then if At(s, p + 1) == '>' then '+' else '>'
    else 'a'
  }

  function EndAt(s: string, p: nat): (r: nat)
    requires IsLine(s) && p <= |s| && !IsSpace(At(s, p))
    ensures p <= r <= |s| && (p < |s| ==> p < r)
  {
    match KindAt(s, p)
    case '\0' => p
    case '+' => p + 2
    case 'a' => WordEnd(s, p)
    case _ => p + 1
  }

  function TokenAt(s: string, p: nat): (t: Token)
    requires IsLine(s) && p <= |s|
    ensures p <= t.next <= |s| && t.span.eq <= t.next
    ensures t.kind == '\0' <==> t.next == |s| && Skip(s, p) == |s|
    ensures t.kind != '\0' ==> p < t.next && At(s, Skip(s, p)) != '\0'
  {
    var q := Skip(s, p);
    var eq := EndAt(s, q);
    Token(KindAt(s, q), Span(q, eq), Skip(s, eq))
  }

  predicate PeekAt(s: string, p: nat, toks: string)
    requires p <= |s|
  {
    var c := At(s, Skip(s, p));
    c != '\0' && c in toks
  }

  // ----- The grammar, as functions of the line and a position in it

  function Wrap<W>(cmd: Cmd<W>, redirs: seq<Redirection<W>>): Cmd<W> {
    if redirs == [] then cmd
    else Redir(Wrap(cmd, redirs[..|redirs| - 1]), redirs[|redirs| - 1].file, redirs[|redirs| - 1].input)
  }

  function Redirected(cmd: Cmd<Span>, redirs: Parsed<seq<Redirection<Span>>>): Parsed<Cmd<Span>> {
    match redirs
    case Failed(why) => Failed(why)
    case Ok(value, next) => Ok(Wrap(cmd, value), next)
  }

  /** parseredirs, with what has been collected so far. */
  function Redirs(s: string, p: nat, done: seq<Redirection<Span>>): (r: Parsed<seq<Redirection<Span>>>)
    requires IsLine(s) && p <= |s|
    ensures r.Ok? ==> p <= r.next <= |s|
    decreases |s| - p
  {
    if !PeekAt(s, p, "<>") then Ok(done, Skip(s, p))
    else
      var tok := TokenAt(s, p);
      var file := TokenAt(s, tok.next);
      if file.kind != 'a' then Failed(MissingFile)
      else Redirs(s, file.next, done + [To(file.span, tok.kind == '<')])
  }

  /** The words and redirections of a simple command; the loop of parseexec. */
  function Args(s: string, p: nat, argv: seq<Span>, done: seq<Redirection<Span>>): (r: Parsed<Cmd<Span>>)
    requires IsLine(s) && p <= |s|
    ensures r.Ok? ==> p <= r.next <= |s|
    decreases |s| - p
  {
    if PeekAt(s, p, "|)&;") then Ok(Wrap(Exec(argv), done), Skip(s, p))
    else
      var tok := TokenAt(s, p);
      if tok.kind == '\0' then Ok(Wrap(Exec(argv), done), tok.next)
      else if tok.kind != 'a' then Failed(Syntax)
      else if |argv| + 1 >= MAXARGS then Failed(TooManyArgs)
      else
        match Redirs(s, tok.next, done)
        case Failed(why) => Failed(why)
        case Ok(redirs, next) => Args(s, next, argv + [tok.span], redirs)
  }

  function ExecAt(s: string, p: nat): (r: Parsed<Cmd<Span>>)
    requires IsLine(s) && p <= |s|
    ensures r.Ok? ==> p <= r.next <= |s|
    decreases |s| - p, 1
  {
    if PeekAt(s, p, "(") then BlockAt(s, p)
    else
      match Redirs(s, p, [])
      case Failed(why) => Failed(why)
      case Ok(redirs, next) => Args(s, next, [], redirs)
  }

  function BlockAt(s: string, p: nat): (r: Parsed<Cmd<Span>>)
    requires IsLine(s) && p <= |s| && PeekAt(s, p, "(")
    ensures r.Ok? ==> p <= r.next <= |s|
    decreases |s| - p, 0
  {
    match LineAt(s, TokenAt(s, p).next)
    case Failed(why) => Failed(why)
    case Ok(cmd, next) =>
      if !PeekAt(s, next, ")") then Failed(MissingParenthesis)
      else
        Redirected(cmd, Redirs(s, TokenAt(s, next).next, []))
  }

  function PipeAt(s: string, p: nat): (r: Parsed<Cmd<Span>>)
    requires IsLine(s) && p <= |s|
    ensures r.Ok? ==> p <= r.next <= |s|
    decreases |s| - p, 2
  {
    match ExecAt(s, p)
    case Failed(why) => Failed(why)
    case Ok(left, next) =>
      if !PeekAt(s, next, "|") then Ok(left, Skip(s, next))
      else
        match PipeAt(s, TokenAt(s, next).next)
        case Failed(why) => Failed(why)
        case Ok(right, end) => Ok(Pipe(left, right), end)
  }

  /** The loop of parseline over "&". */
  function Backs(s: string, p: nat, cmd: Cmd<Span>): (r: Parsed<Cmd<Span>>)
    requires IsLine(s) && p <= |s|
    ensures r.Ok? && p <= r.next <= |s|
    decreases |s| - p
  {
    if !PeekAt(s, p, "&") then Ok(cmd, Skip(s, p)) else Backs(s, TokenAt(s, p).next, Back(cmd))
  }

  function LineAt(s: string, p: nat): (r: Parsed<Cmd<Span>>)
    requires IsLine(s) && p <= |s|
    ensures r.Ok? ==> p <= r.next <= |s|
    decreases |s| - p, 3
  {
    match PipeAt(s, p)
    case Failed(why) => Failed(why)
    case Ok(pipe, next) =>
      var left := Backs(s, next, pipe);
      if !PeekAt(s, left.next, ";") then Ok(left.value, Skip(s, left.next))
      else
        match LineAt(s, TokenAt(s, left.next).next)
        case Failed(why) => Failed(why)
        case Ok(right, end) => Ok(List(left.value, right), end)
  }

  function WholeLine(s: string): (r: Parsed<Cmd<Span>>)
    requires IsLine(s)
  {
    match LineAt(s, 0)
    case Failed(why) => Failed(why)
    case Ok(cmd, next) => if Skip(s, next) != |s| then Failed(Leftovers) else Ok(cmd, |s|)
  }

  // ----- Skipping spaces first makes no difference

  lemma {:induction false} SkipTwice(s: string, p: nat)
    requires p <= |s|
    ensures Skip(s, Skip(s, p)) == Skip(s, p)
    decreases |s| - p
  {
    if p < |s| && IsSpace(s[p]) { SkipTwice(s, p + 1); }
  }

  lemma SkippedFirst(s: string, p: nat)
    requires IsLine(s) && p <= |s|
    ensures TokenAt(s, Skip(s, p)) == TokenAt(s, p)
    ensures forall toks: string :: PeekAt(s, Skip(s, p), toks) == PeekAt(s, p, toks)
  {
    SkipTwice(s, p);
  }

  lemma SkippedLater(s: string, p: nat, done: seq<Redirection<Span>>, cmd: Cmd<Span>)
    requires IsLine(s) && p <= |s|
    ensures Redirs(s, Skip(s, p), done) == Redirs(s, p, done) && Backs(s, Skip(s, p), cmd) == Backs(s, p, cmd)
    ensures forall argv: seq<Span> :: Args(s, Skip(s, p), argv, done) == Args(s, p, argv, done)
  {
    SkipTwice(s, p);
    SkippedFirst(s, p);
  }

  // ----- The parser

  class Parser {
    const s: string
    var ps: nat

    ghost predicate Valid()
      reads this
    {
      IsLine(s) && ps <= |s|
    }

    constructor (s: string)
      requires IsLine(s)
      ensures Valid() && this.s == s && ps == 0
    {
      this.s, ps := s, 0;
    }

    method SkipSpaces()
      requires Valid()
      modifies this
      ensures Valid() && ps == Skip(s, old(ps))
    {
      while ps < |s| && IsSpace(s[ps])
        invariant Valid() && Skip(s, ps) == Skip(s, old(ps))
      {
        ps := ps + 1;
      }
    }

    /** gettoken */
    method GetToken() returns (kind: char, span: Span)
      requires Valid()
      modifies this
      ensures Valid()
      ensures var t := TokenAt(s, old(ps)); kind == t.kind && span == t.span && ps == t.next
    {
      SkipSpaces();
      var q := ps;
      var c := At(s, ps);
      if c == '\0' {
        kind := c;
      } else if IsSymbol(c) && c != '>' {
        kind := c;
        ps := ps + 1;
      } else if c == '>' {
        kind := c;
        ps := ps + 1;
        if At(s, ps) == '>' {
          kind := '+';
          ps := ps + 1;
        }
      } else {
        kind := 'a';
        while ps < |s| && InWord(s[ps])
          invariant Valid() && q <= ps && WordEnd(s, ps) == WordEnd(s, q)
        {
          ps := ps + 1;
        }
      }
      span := Span(q, ps);
      SkipSpaces();
    }

    /** peek */
    method Peek(toks: string) returns (r: bool)
      requires Valid()
      modifies this
      ensures Valid() && r == PeekAt(s, old(ps), toks) && ps == Skip(s, old(ps))
      ensures TokenAt(s, ps) == TokenAt(s, old(ps))
    {
      SkipTwice(s, ps);
      SkipSpaces();
      r := At(s, ps) != '\0' && At(s, ps) in toks;
    }

    /** parseredirs */
    method Redirections(done: seq<Redirection<Span>>) returns (r: Parsed<seq<Redirection<Span>>>)
      requires Valid()
      modifies this
      ensures Valid() && r == Redirs(s, old(ps), done) && (r.Ok? ==> ps == r.next)
    {
      var redirs := done;
      var more := Peek("<>");
      SkippedLater(s, old(ps), done, Exec([]));
      while more
        invariant Valid() && Redirs(s, ps, redirs) == Redirs(s, old(ps), done) && more == PeekAt(s, ps, "<>")
                  && Skip(s, ps) == ps
        decreases |s| - ps, more
      {
        var tok, _ := GetToken();
        var kind, file := GetToken();
        if kind != 'a' { return Failed(MissingFile); }
        redirs := redirs + [To(file, tok == '<')];
        ghost var p := ps;
        more := Peek("<>");
        SkippedLater(s, p, redirs, Exec([]));
        SkippedFirst(s, p);
        SkipTwice(s, p);
      }
      r := Ok(redirs, ps);
    }

    /** The loop of parseexec. */
    method Arguments(redirs0: seq<Redirection<Span>>) returns (r: Parsed<Cmd<Span>>)
      requires Valid()
      modifies this
      ensures Valid() && r == Args(s, old(ps), [], redirs0) && (r.Ok? ==> ps == r.next)
    {
      var argv, redirs: seq<Redirection<Span>> := [], redirs0;
      while true
        invariant Valid() && Args(s, ps, argv, redirs) == Args(s, old(ps), [], redirs0)
        decreases |s| - ps
      {
        ghost var p := ps;
        var stop := Peek("|)&;");
        if stop { break; }
        var tok, word := GetToken();
        if tok == '\0' { break; }
        if tok != 'a' { return Failed(Syntax); }
        if |argv| + 1 >= MAXARGS { return Failed(TooManyArgs); }
        argv := argv + [word];
        var more := Redirections(redirs);
        if more.Failed? { return Failed(more.why); }
        redirs := more.value;
      }
      r := Ok(Wrap(Exec(argv), redirs), ps);
    }

    method ParseExec() returns (r: Parsed<Cmd<Span>>)
      requires Valid()
      modifies this
      ensures Valid() && r == ExecAt(s, old(ps)) && (r.Ok? ==> ps == r.next)
      decreases |s| - ps, 1
    {
      SkippedFirst(s, ps);
      var block := Peek("(");
      if block {
        r := ParseBlock();
        return;
      }
      SkippedLater(s, old(ps), [], Exec([]));
      var redirs := Redirections([]);
      if redirs.Failed? { return Failed(redirs.why); }
      r := Arguments(redirs.value);
    }

    method ParseBlock() returns (r: Parsed<Cmd<Span>>)
      requires Valid() && PeekAt(s, ps, "(")
      modifies this
      ensures Valid() && r == BlockAt(s, old(ps)) && (r.Ok? ==> ps == r.next)
      decreases |s| - ps, 0
    {
      var _, _ := GetToken();
      var cmd := ParseLine();
      if cmd.Failed? { return cmd; }
      var closed := Peek(")");
      if !closed { return Failed(MissingParenthesis); }
      var _, _ := GetToken();
      var redirs := Redirections([]);
      if redirs.Failed? { return Failed(redirs.why); }
      r := Ok(Wrap(cmd.value, redirs.value), ps);
    }

    method ParsePipe() returns (r: Parsed<Cmd<Span>>)
      requires Valid()
      modifies this
      ensures Valid() && r == PipeAt(s, old(ps)) && (r.Ok? ==> ps == r.next)
      decreases |s| - ps, 2
    {
      var left := ParseExec();
      if left.Failed? { return left; }
      var more := Peek("|");
      if !more { return Ok(left.value, ps); }
      var _, _ := GetToken();
      var right := ParsePipe();
      if right.Failed? { return right; }
      r := Ok(Pipe(left.value, right.value), ps);
    }

    method ParseLine() returns (r: Parsed<Cmd<Span>>)
      requires Valid()
      modifies this
      ensures Valid() && r == LineAt(s, old(ps)) && (r.Ok? ==> ps == r.next)
      decreases |s| - ps, 3
    {
      var pipe := ParsePipe();
      if pipe.Failed? { return pipe; }
      var cmd := pipe.value;
      ghost var p := ps;
      var back := Peek("&");
      SkippedLater(s, p, [], cmd);
      SkippedFirst(s, p);
      while back
        invariant Valid() && ps >= p && Backs(s, ps, cmd) == Backs(s, p, pipe.value) && back == PeekAt(s, ps, "&")
                  && Skip(s, ps) == ps
        decreases |s| - ps, back
      {
        var _, _ := GetToken();
        cmd := Back(cmd);
        ghost var p1 := ps;
        back := Peek("&");
        SkippedLater(s, p1, [], cmd);
        SkippedFirst(s, p1);
        SkipTwice(s, p1);
      }
      var more := Peek(";");
      if !more { return Ok(cmd, ps); }
      var _, _ := GetToken();
      var right := ParseLine();
      if right.Failed? { return right; }
      r := Ok(List(cmd, right.value), ps);
    }

    /** parsecmd, up to nulterminate. */
    method ParseCmd() returns (r: Parsed<Cmd<Span>>)
      requires Valid() && ps == 0
      modifies this
      ensures Valid() && r == WholeLine(s)
    {
      r := ParseLine();
      if r.Failed? { return; }
      var _ := Peek("");
      if ps != |s| { return Failed(Leftovers); }
      r := Ok(r.value, |s|);
    }
  }

  // ----- Where words are

  /** No word of the line goes on across p. */
  ghost predicate Boundary(s: string, p: nat) {
    p <= |s| && (0 < p < |s| ==> !InWord(s[p - 1]) || !InWord(s[p]))
  }

  /** A word of the line, between the characters that delimit it. */
  ghost predicate Good(s: string, w: Span) {
    && w.q < w.eq <= |s| && (w.eq < |s| ==> !InWord(s[w.eq])) && (w.q > 0 ==> !InWord(s[w.q - 1]))
    && forall i: nat {:trigger s[i]} | w.q <= i < w.eq :: InWord(s[i])
  }

  /** Two words are the same or do not overlap. */
  lemma WordsApart(s: string, v: Span, w: Span)
    requires Good(s, v) && Good(s, w)
    ensures v == w || v.eq <= w.q || w.eq <= v.q
  {
  }

  lemma {:induction false} SkipBoundary(s: string, p: nat)
    requires Boundary(s, p)
    ensures Boundary(s, Skip(s, p))
    ensures Skip(s, p) < |s| && InWord(s[Skip(s, p)]) && Skip(s, p) > 0 ==> !InWord(s[Skip(s, p) - 1])
    decreases |s| - p
  {
    if p < |s| && IsSpace(s[p]) { SkipBoundary(s, p + 1); }
  }

  lemma TokenGood(s: string, p: nat)
    requires IsLine(s) && Boundary(s, p)
    ensures Boundary(s, TokenAt(s, p).next)
    ensures TokenAt(s, p).kind == 'a' ==> Good(s, TokenAt(s, p).span)
  {
    var q := Skip(s, p);
    SkipBoundary(s, p);
    var eq := EndAt(s, q);
    assert q < |s| ==> KindAt(s, q) == 'a' ==> InWord(s[q]);
    assert eq < |s| ==> !InWord(s[eq]) || !InWord(s[eq - 1]);
    SkipBoundary(s, eq);
  }

  ghost predicate AllGood(s: string, cmd: Cmd<Span>) {
    match cmd
    case Exec(argv) => forall k: nat {:trigger argv[k]} | k < |argv| :: Good(s, argv[k])
    case Redir(c, file, _) => AllGood(s, c) && Good(s, file)
    case Pipe(l, r) => AllGood(s, l) && AllGood(s, r)
    case List(l, r) => AllGood(s, l) && AllGood(s, r)
    case Back(c) => AllGood(s, c)
  }

  ghost predicate GoodFiles(s: string, redirs: seq<Redirection<Span>>) {
    forall k: nat {:trigger redirs[k]} | k < |redirs| :: Good(s, redirs[k].file)
  }

  lemma {:induction false} WrapGood(s: string, cmd: Cmd<Span>, redirs: seq<Redirection<Span>>)
    requires AllGood(s, cmd) && GoodFiles(s, redirs)
    ensures AllGood(s, Wrap(cmd, redirs))
  {
    if redirs != [] { WrapGood(s, cmd, redirs[..|redirs| - 1]); }
  }

  lemma {:induction false} RedirsGood(s: string, p: nat, done: seq<Redirection<Span>>)
    requires IsLine(s) && Boundary(s, p) && GoodFiles(s, done)
    ensures var r := Redirs(s, p, done); r.Ok? ==> GoodFiles(s, r.value) && Boundary(s, r.next)
    decreases |s| - p
  {
    TokenGood(s, p);
    TokenGood(s, TokenAt(s, p).next);
    SkipBoundary(s, p);
    if PeekAt(s, p, "<>") {
      var tok := TokenAt(s, p);
      var file := TokenAt(s, tok.next);
      if file.kind == 'a' { RedirsGood(s, file.next, done + [To(file.span, tok.kind == '<')]); }
    }
  }

  lemma {:induction false} ArgsGood(s: string, p: nat, argv: seq<Span>, done: seq<Redirection<Span>>)
    requires IsLine(s) && Boundary(s, p) && AllGood(s, Exec(argv)) && GoodFiles(s, done)
    ensures var r := Args(s, p, argv, done); r.Ok? ==> AllGood(s, r.value) && Boundary(s, r.next)
    decreases |s| - p
  {
    TokenGood(s, p);
    SkipBoundary(s, p);
    WrapGood(s, Exec(argv), done);
    var tok := TokenAt(s, p);
    if !PeekAt(s, p, "|)&;") && tok.kind == 'a' && |argv| + 1 < MAXARGS {
      RedirsGood(s, tok.next, done);
      var more := Redirs(s, tok.next, done);
      if more.Ok? { ArgsGood(s, more.next, argv + [tok.span], more.value); }
    }
  }

  lemma {:induction false} BacksGood(s: string, p: nat, cmd: Cmd<Span>)
    requires IsLine(s) && Boundary(s, p) && AllGood(s, cmd)
    ensures AllGood(s, Backs(s, p, cmd).value) && Boundary(s, Backs(s, p, cmd).next)
    decreases |s| - p
  {
    TokenGood(s, p);
    SkipBoundary(s, p);
    if PeekAt(s, p, "&") { BacksGood(s, TokenAt(s, p).next, Back(cmd)); }
  }

  lemma {:induction false} ExecGood(s: string, p: nat)
    requires IsLine(s) && Boundary(s, p)
    ensures var r := ExecAt(s, p); r.Ok? ==> AllGood(s, r.value) && Boundary(s, r.next)
    decreases |s| - p, 1
  {
    if PeekAt(s, p, "(") {
      var body := LineAt(s, TokenAt(s, p).next);
      TokenGood(s, p);
      LineGood(s, TokenAt(s, p).next);
      if body.Ok? && PeekAt(s, body.next, ")") {
        TokenGood(s, body.next);
        RedirsGood(s, TokenAt(s, body.next).next, []);
        var redirs := Redirs(s, TokenAt(s, body.next).next, []);
        if redirs.Ok? { WrapGood(s, body.value, redirs.value); }
      }
    } else {
      RedirsGood(s, p, []);
      var redirs := Redirs(s, p, []);
      if redirs.Ok? { ArgsGood(s, redirs.next, [], redirs.value); }
    }
  }

  lemma {:induction false} PipeGood(s: string, p: nat)
    requires IsLine(s) && Boundary(s, p)
    ensures var r := PipeAt(s, p); r.Ok? ==> AllGood(s, r.value) && Boundary(s, r.next)
    decreases |s| - p, 2
  {
    ExecGood(s, p);
    var left := ExecAt(s, p);
    if left.Ok? {
      SkipBoundary(s, left.next);
      TokenGood(s, left.next);
      if PeekAt(s, left.next, "|") { PipeGood(s, TokenAt(s, left.next).next); }
    }
  }

  lemma {:induction false} LineGood(s: string, p: nat)
    requires IsLine(s) && Boundary(s, p)
    ensures var r := LineAt(s, p); r.Ok? ==> AllGood(s, r.value) && Boundary(s, r.next)
    decreases |s| - p, 3
  {
    PipeGood(s, p);
    var pipe := PipeAt(s, p);
    if pipe.Ok? {
      BacksGood(s, pipe.next, pipe.value);
      var left := Backs(s, pipe.next, pipe.value);
      SkipBoundary(s, left.next);
      TokenGood(s, left.next);
      if PeekAt(s, left.next, ";") { LineGood(s, TokenAt(s, left.next).next); }
    }
  }

  // ----- nulterminate

  /** Where nulterminate stores a NUL. */
  function Ends(cmd: Cmd<Span>): set<nat> {
    match cmd
    case Exec(argv) => set k: nat | k < |argv| :: argv[k].eq
    case Redir(c, file, _) => Ends(c) + {file.eq}
    case Pipe(l, r) => Ends(l) + Ends(r)
    case List(l, r) => Ends(l) + Ends(r)
    case Back(c) => Ends(c)
  }

  ghost predicate Within(cmd: Cmd<Span>, n: nat) {
    forall e: nat {:trigger e in Ends(cmd)} | e in Ends(cmd) :: e < n
  }

  method NulTerminate(cmd: Cmd<Span>, buf: array<char>)
    requires Within(cmd, buf.Length)
    modifies buf
    ensures forall i: nat {:trigger buf[i]} | i < buf.Length :: buf[i] == if i in Ends(cmd) then '\0' else old(buf[i])
  {
    match cmd
    case Exec(argv) =>
      for k := 0 to |argv|
        invariant forall i: nat {:trigger buf[i]} | i < buf.Length ::
                    buf[i] == if exists j: nat :: j < k && argv[j].eq == i then '\0' else old(buf[i])
      {
        assert argv[k].eq in Ends(cmd);
        buf[argv[k].eq] := '\0';
      }
    case Redir(c, file, _) =>
      assert forall e: nat | e in Ends(c) :: e in Ends(cmd);
      assert file.eq in Ends(cmd);
      NulTerminate(c, buf);
      buf[file.eq] := '\0';
    case Pipe(l, r) =>
      assert forall e: nat | e in Ends(l) || e in Ends(r) :: e in Ends(cmd);
      NulTerminate(l, buf);
      NulTerminate(r, buf);
    case List(l, r) =>
      assert forall e: nat | e in Ends(l) || e in Ends(r) :: e in Ends(cmd);
      NulTerminate(l, buf);
      NulTerminate(r, buf);
    case Back(c) =>
      assert forall e: nat | e in Ends(c) :: e in Ends(cmd);
      NulTerminate(c, buf);
  }

  /** The words of a command. */
  function Words(cmd: Cmd<Span>): set<Span> {
    match cmd
    case Exec(argv) => set k: nat | k < |argv| :: argv[k]
    case Redir(c, file, _) => Words(c) + {file}
    case Pipe(l, r) => Words(l) + Words(r)
    case List(l, r) => Words(l) + Words(r)
    case Back(c) => Words(c)
  }

  lemma {:induction false} WordsGood(s: string, cmd: Cmd<Span>)
    requires AllGood(s, cmd)
    ensures forall w: Span {:trigger w in Words(cmd)} | w in Words(cmd) :: Good(s, w) && w.eq in Ends(cmd)
    ensures forall e: nat {:trigger e in Ends(cmd)} | e in Ends(cmd) :: e <= |s| && (e < |s| ==> !InWord(s[e]))
  {
    match cmd
    case Exec(argv) =>
    case Redir(c, file, _) => WordsGood(s, c);
    case Pipe(l, r) => WordsGood(s, l); WordsGood(s, r);
    case List(l, r) => WordsGood(s, l); WordsGood(s, r);
    case Back(c) => WordsGood(s, c);
  }

  lemma AllApart(s: string, cmd: Cmd<Span>)
    requires AllGood(s, cmd)
    ensures forall v: Span, w: Span {:trigger v in Words(cmd), w in Words(cmd)} |
              v in Words(cmd) && w in Words(cmd) :: v == w || v.eq <= w.q || w.eq <= v.q
  {
    WordsGood(s, cmd);
    forall v: Span, w: Span | v in Words(cmd) && w in Words(cmd)
      ensures v == w || v.eq <= w.q || w.eq <= v.q
    {
      WordsApart(s, v, w);
    }
  }

  lemma WordsKept(s: string, t: string, cmd: Cmd<Span>)
    requires AllGood(s, cmd) && |t| == |s| + 1 && IsLine(s)
    requires forall i: nat {:trigger t[i]} | i < |t| :: t[i] == if i in Ends(cmd) || i == |s| then '\0' else s[i]
    ensures forall w: Span {:trigger w in Words(cmd)} | w in Words(cmd) ::
              && w.q < w.eq < |t| && t[w.q..w.eq] == s[w.q..w.eq] && t[w.eq] == '\0'
              && forall i: nat | w.q <= i < w.eq :: s[i] != '\0'
  {
    WordsGood(s, cmd);
    forall w: Span | w in Words(cmd)
      ensures w.q < w.eq < |t| && t[w.q..w.eq] == s[w.q..w.eq] && t[w.eq] == '\0'
    {
      assert forall i: nat | w.q <= i < w.eq :: InWord(s[i]);
    }
  }

  /** parsecmd with the line in a buffer: every word becomes a string of its own, and no byte of
      any word is overwritten. */
  method ParseAndTerminate(buf: array<char>, ghost s: string) returns (r: Parsed<Cmd<Span>>)
    requires IsLine(s) && buf.Length == |s| + 1 && buf[..] == s + ['\0']
    modifies buf
    ensures r == WholeLine(s)
    ensures r.Ok? ==> forall v: Span, w: Span {:trigger v in Words(r.value), w in Words(r.value)} |
                        v in Words(r.value) && w in Words(r.value) :: v == w || v.eq <= w.q || w.eq <= v.q
    ensures r.Ok? ==> forall w: Span {:trigger w in Words(r.value)} | w in Words(r.value) ::
              && w.q < w.eq < buf.Length && buf[w.q..w.eq] == s[w.q..w.eq] && buf[w.eq] == '\0'
              && forall i: nat | w.q <= i < w.eq :: s[i] != '\0'
  {
    assert buf[..|s|] == s;
    var parser := new Parser(buf[..buf.Length - 1]);
    r := parser.ParseCmd();
    LineGood(s, 0);
    if r.Ok? {
      WordsGood(s, r.value);
      AllApart(s, r.value);
      NulTerminate(r.value, buf);
      WordsKept(s, buf[..], r.value);
    }
  }

  // ----- The canonical printing of a command

  function Spaced(words: seq<string>): string {
    if words == [] then ""
    else if |words| == 1 then words[0]
    else words[0] + " " + Spaced(words[1..])
  }

  function Bracket(t: string): string {
    "(" + t + ")"
  }

  /** Every command inside another one in parentheses. */
  function Print(c: Cmd<string>): string {
    match c
    case Exec(words) => Spaced(words)
    case Redir(d, file, input) => Bracket(Print(d)) + ((if input then "<" else ">") + file)
    case Pipe(l, r) => Bracket(Print(l)) + ("|" + Bracket(Print(r)))
    case List(l, r) => Bracket(Print(l)) + (";" + Bracket(Print(r)))
    case Back(d) => Bracket(Print(d)) + "&"
  }

  ghost predicate IsWord(w: string) {
    w != "" && forall i: nat {:trigger w[i]} | i < |w| :: InWord(w[i]) && w[i] != '\0'
  }

  /** Commands the shell can be told: real words, at most nine in one simple command. */
  ghost predicate Sayable(c: Cmd<string>) {
    match c
    case Exec(words) => |words| < MAXARGS && forall k: nat {:trigger words[k]} | k < |words| :: IsWord(words[k])
    case Redir(d, file, _) => Sayable(d) && IsWord(file)
    case Pipe(l, r) => Sayable(l) && Sayable(r)
    case List(l, r) => Sayable(l) && Sayable(r)
    case Back(d) => Sayable(d)
  }

  /** The words of the line that the spans stand for. */
  function Text(s: string, cmd: Cmd<Span>): Cmd<string> {
    match cmd
    case Exec(argv) => Exec(Texts(s, argv))
    case Redir(c, file, input) => Redir(Text(s, c), TextOf(s, file), input)
    case Pipe(l, r) => Pipe(Text(s, l), Text(s, r))
    case List(l, r) => List(Text(s, l), Text(s, r))
    case Back(c) => Back(Text(s, c))
  }

  function TextOf(s: string, w: Span): string {
    if w.q <= w.eq <= |s| then s[w.q..w.eq] else ""
  }

  function Texts(s: string, ws: seq<Span>): (t: seq<string>)
    ensures |t| == |ws|
  {
    if ws == [] then [] else [TextOf(s, ws[0])] + Texts(s, ws[1..])
  }

  /** The text t stands in the line at p. */
  ghost predicate Stands(s: string, p: nat, t: string) {
    p + |t| <= |s| && forall i: nat {:trigger t[i]} | i < |t| :: s[p + i] == t[i]
  }

  lemma StandsParts(s: string, p: nat, a: string, b: string)
    requires Stands(s, p, a + b)
    ensures Stands(s, p, a) && Stands(s, p + |a|, b)
  {
    var t := a + b;
    forall i: nat | i < |a| ensures s[p + i] == a[i] { assert t[i] == a[i]; }
    forall i: nat | i < |b| ensures s[p + |a| + i] == b[i] { assert t[|a| + i] == b[i]; }
  }

  /** What may follow a command inside parentheses or at the end of the line. */
  predicate Closed(s: string, e: nat) {
    e == |s| || (e < |s| && s[e] == ')')
  }

  lemma {:induction false} WordEndIs(s: string, p: nat, e: nat)
    requires p <= e <= |s| && (e < |s| ==> !InWord(s[e]))
    requires forall i: nat {:trigger s[i]} | p <= i < e :: InWord(s[i])
    ensures WordEnd(s, p) == e
    decreases e - p
  {
    if p < e { WordEndIs(s, p + 1, e); }
  }

  /** A word, and where it ends. */
  lemma WordToken(s: string, p: nat, w: string, e: nat)
    requires IsLine(s) && IsWord(w) && Stands(s, p, w) && e == p + |w| && (e < |s| ==> !InWord(s[e]))
    ensures TokenAt(s, p) == Token('a', Span(p, e), Skip(s, e)) && TextOf(s, Span(p, e)) == w
    ensures !PeekAt(s, p, "<>") && !PeekAt(s, p, "|)&;") && !PeekAt(s, p, "(")
  {
    assert w[0] == s[p + 0] && InWord(w[0]);
    forall i: nat | p <= i < e ensures InWord(s[i]) { assert s[p + (i - p)] == w[i - p]; }
    WordEndIs(s, p, e);
    assert Skip(s, p) == p && KindAt(s, p) == 'a';
  }

  /** One word of a simple command, and where the next one starts. */
  lemma ArgStep(s: string, p: nat, w: string, m: nat, next: nat, argv: seq<Span>, done: seq<Redirection<Span>>)
    requires IsLine(s) && IsWord(w) && Stands(s, p, w) && m == p + |w| && (m < |s| ==> !InWord(s[m]))
    requires next == Skip(s, m) && At(s, next) != '<' && At(s, next) != '>' && |argv| + 1 < MAXARGS
    ensures Args(s, p, argv, done) == Args(s, next, argv + [Span(p, m)], done)
    ensures TextOf(s, Span(p, m)) == w
  {
    WordToken(s, p, w, m);
    SkipTwice(s, m);
    assert Redirs(s, next, done) == Ok(done, next);
  }

  lemma NoArgs(s: string, e: nat, argv: seq<Span>, done: seq<Redirection<Span>>)
    requires IsLine(s) && Closed(s, e)
    ensures Args(s, e, argv, done) == Ok(Wrap(Exec(argv), done), e)
  {
  }

  lemma TextsFirst(s: string, w: Span, rest: seq<Span>)
    ensures Texts(s, [w] + rest) == [TextOf(s, w)] + Texts(s, rest)
  {
    assert ([w] + rest)[1..] == rest;
  }

  /** After a word and a space come the others. */
  lemma FirstWord(s: string, p: nat, words: seq<string>, m: nat)
    requires |words| > 1 && Stands(s, p, Spaced(words)) && m == p + |words[0]| && IsWord(words[0]) && IsWord(words[1])
    ensures Stands(s, p, words[0]) && Stands(s, m + 1, Spaced(words[1..]))
    ensures m + 1 < |s| && s[m] == ' ' && Skip(s, m) == m + 1 && InWord(s[m + 1])
  {
    StandsParts(s, p, words[0] + " ", Spaced(words[1..]));
    StandsParts(s, p, words[0], " ");
    assert s[m + 0] == " "[0];
    var t := Spaced(words[1..]);
    assert t[0] == words[1][0];
    assert s[m + 1 + 0] == t[0];
  }

  lemma Regroup<T>(a: seq<T>, x: T, b: seq<T>)
    ensures a + [x] + b == a + ([x] + b)
  {
  }

  /** The loop of parseexec takes the first word, and the others stand where it goes on. */
  lemma WordThenRest(s: string, p: nat, words: seq<string>, argv: seq<Span>, done: seq<Redirection<Span>>, e: nat,
                     m: nat) returns (next: nat)
    requires IsLine(s) && words != [] && Stands(s, p, Spaced(words)) && e == p + |Spaced(words)| && Closed(s, e)
    requires |argv| + |words| < MAXARGS && m == p + |words[0]| && forall k: nat {:trigger words[k]} | k < |words| ::
             IsWord(words[k])
    ensures next <= |s| && Args(s, p, argv, done) == Args(s, next, argv + [Span(p, m)], done)
            && TextOf(s, Span(p, m)) == words[0]
    ensures Stands(s, next, Spaced(words[1..])) && e == next + |Spaced(words[1..])|
  {
    next := if |words| == 1 then m else m + 1;
    if |words| > 1 { FirstWord(s, p, words, m); }
    ArgStep(s, p, words[0], m, next, argv, done);
  }

  /** The loop of parseexec reads the words of a simple command. */
  lemma {:induction false} ArgsRead(s: string, p: nat, words: seq<string>, argv: seq<Span>,
                                    done: seq<Redirection<Span>>, e: nat)
      returns (all: seq<Span>)
    requires IsLine(s) && Stands(s, p, Spaced(words)) && e == p + |Spaced(words)| && Closed(s, e)
    requires |argv| + |words| < MAXARGS && forall k: nat {:trigger words[k]} | k < |words| :: IsWord(words[k])
    ensures Args(s, p, argv, done) == Ok(Wrap(Exec(argv + all), done), e) && Texts(s, all) == words
    decreases |words|
  {
    if words == [] {
      all := [];
      NoArgs(s, e, argv, done);
      assert argv + all == argv;
      return;
    }
    var m := p + |words[0]|;
    var next := WordThenRest(s, p, words, argv, done, e, m);
    var rest := ArgsRead(s, next, words[1..], argv + [Span(p, m)], done, e);
    all := [Span(p, m)] + rest;
    TextsFirst(s, Span(p, m), rest);
    Regroup(argv, Span(p, m), rest);
  }

  // ----- Reading the canonical printing back

  lemma LineOfPipe(s: string, p: nat, e: nat, cmd: Cmd<Span>)
    requires IsLine(s) && p <= |s| && PipeAt(s, p) == Ok(cmd, e) && Closed(s, e)
    ensures LineAt(s, p) == Ok(cmd, e)
  {
    assert Backs(s, e, cmd) == Ok(cmd, e);
  }

  /** A simple command or block, nothing behind it. */
  lemma Finish(s: string, p: nat, e: nat, cmd: Cmd<Span>)
    requires IsLine(s) && p <= |s| && ExecAt(s, p) == Ok(cmd, e) && Closed(s, e)
    ensures PipeAt(s, p) == Ok(cmd, e) && LineAt(s, p) == Ok(cmd, e)
  {
    LineOfPipe(s, p, e, cmd);
  }

  /** A command in parentheses, and then its redirections. */
  lemma BlockRead(s: string, p: nat, e: nat, cmd: Cmd<Span>)
    requires IsLine(s) && p + 1 < e <= |s| && s[p] == '(' && s[e - 1] == ')' && !IsSpace(s[p + 1]) && !IsSpace(At(s, e))
    requires LineAt(s, p + 1) == Ok(cmd, e - 1)
    ensures ExecAt(s, p) == Redirected(cmd, Redirs(s, e, []))
  {
    Parentheses(s, p, e);
  }

  lemma Parentheses(s: string, p: nat, e: nat)
    requires IsLine(s) && p + 1 < e <= |s| && s[p] == '(' && s[e - 1] == ')' && !IsSpace(s[p + 1]) && !IsSpace(At(s, e))
    ensures PeekAt(s, p, "(") && TokenAt(s, p).next == p + 1
    ensures PeekAt(s, e - 1, ")") && TokenAt(s, e - 1).next == e
  {
  }

  lemma NoRedir(s: string, e: nat)
    requires IsLine(s) && e <= |s| && !IsSpace(At(s, e)) && At(s, e) != '<' && At(s, e) != '>'
    ensures Redirs(s, e, []) == Ok([], e)
  {
  }

  /** One redirection, written without spaces. */
  lemma OneRedir(s: string, b: nat, file: string, input: bool, e: nat)
    requires IsLine(s) && b < |s| && s[b] == (if input then '<' else '>') && IsWord(file)
    requires Stands(s, b + 1, file) && e == b + 1 + |file| && Closed(s, e)
    ensures Redirs(s, b, []) == Ok([To(Span(b + 1, e), input)], e) && TextOf(s, Span(b + 1, e)) == file
  {
    WordToken(s, b + 1, file, e);
    assert s[b + 1 + 0] == file[0];
    var tok := TokenAt(s, b);
    assert tok.next == b + 1 && PeekAt(s, b, "<>") && (tok.kind == '<' <==> input);
    assert Skip(s, e) == e;
    assert [] + [To(Span(b + 1, e), input)] == [To(Span(b + 1, e), input)];
    assert Redirs(s, e, [To(Span(b + 1, e), input)]) == Ok([To(Span(b + 1, e), input)], e);
  }

  lemma RedirParts(s: string, p: nat, t: string, sign: string, file: string, b: nat)
    requires Stands(s, p, Bracket(t) + (sign + file)) && b == p + 2 + |t| && |sign| == 1
    ensures b < |s| && s[b] == sign[0] && s[b - 1] == ')' && Stands(s, p + 1, t) && Stands(s, b + 1, file)
  {
    Bracketed(s, p, t, sign + file, b);
    StandsParts(s, b, sign, file);
    assert s[b + 0] == sign[0];
  }

  /** A block with one redirection after it. */
  lemma RedirOf(s: string, p: nat, b: nat, inner: Cmd<Span>, file: string, input: bool, e: nat)
    requires IsLine(s) && p <= |s| && b < |s| && s[b] == (if input then '<' else '>') && IsWord(file)
    requires Stands(s, b + 1, file) && e == b + 1 + |file| && Closed(s, e)
    requires ExecAt(s, p) == Redirected(inner, Redirs(s, b, []))
    ensures LineAt(s, p) == Ok(Redir(inner, Span(b + 1, e), input), e) && TextOf(s, Span(b + 1, e)) == file
  {
    OneRedir(s, b, file, input, e);
    WrapOne(inner, Span(b + 1, e), input);
    Finish(s, p, e, Redir(inner, Span(b + 1, e), input));
  }

  lemma WrapOne(cmd: Cmd<Span>, file: Span, input: bool)
    ensures Wrap(cmd, [To(file, input)]) == Redir(cmd, file, input)
  {
    assert [To(file, input)][..0] == [];
  }

  /** The parts of a printing that puts t in parentheses before the rest. */
  lemma Bracketed(s: string, p: nat, t: string, rest: string, b: nat)
    requires Stands(s, p, Bracket(t) + rest) && b == p + 2 + |t|
    ensures b <= |s| && s[p] == '(' && s[b - 1] == ')' && Stands(s, p + 1, t) && Stands(s, b, rest)
  {
    StandsParts(s, p, Bracket(t), rest);
    StandsParts(s, p, "(" + t, ")");
    StandsParts(s, p, "(", t);
    assert s[p + 0] == "("[0] && s[b - 1 + 0] == ")"[0];
  }

  /** A printing does not begin with a space. */
  lemma NoSpaceFirst(s: string, p: nat, c: Cmd<string>, e: nat)
    requires Sayable(c) && Stands(s, p, Print(c)) && e == p + |Print(c)| && Closed(s, e)
    ensures !IsSpace(At(s, p))
  {
    var t := Print(c);
    if t != "" {
      assert s[p + 0] == t[0];
      match c
      case Exec(words) => assert t[0] == words[0][0];
      case Redir(d, file, input) => assert t[0] == '(';
      case Pipe(l, r) => assert t[0] == '(';
      case List(l, r) => assert t[0] == '(';
      case Back(d) => assert t[0] == '(';
    }
  }

  /** A printed command in parentheses parses as a block; what follows decides about redirections. */
  lemma BlockOf(s: string, p: nat, c: Cmd<string>, rest: string, b: nat, cmd: Cmd<Span>)
    requires IsLine(s) && Sayable(c) && Stands(s, p, Bracket(Print(c)) + rest) && b == p + 2 + |Print(c)|
    requires b - 1 <= |s| && LineAt(s, p + 1) == Ok(cmd, b - 1) && !IsSpace(At(s, b))
    ensures b <= |s| && ExecAt(s, p) == Redirected(cmd, Redirs(s, b, []))
  {
    Bracketed(s, p, Print(c), rest, b);
    NoSpaceFirst(s, p + 1, c, b - 1);
    BlockRead(s, p, b, cmd);
  }

  /** A simple command. */
  lemma ExecRead(s: string, p: nat, words: seq<string>, e: nat) returns (cmd: Cmd<Span>)
    requires IsLine(s) && Sayable(Exec(words)) && Stands(s, p, Spaced(words)) && e == p + |Spaced(words)|
             && Closed(s, e)
    ensures LineAt(s, p) == Ok(cmd, e) && Text(s, cmd) == Exec(words)
  {
    var all := ArgsRead(s, p, words, [], [], e);
    cmd := Exec(all);
    assert [] + all == all;
    NoSpaceFirst(s, p, Exec(words), e);
    if words != [] {
      assert Spaced(words)[0] == words[0][0];
      assert s[p + 0] == Spaced(words)[0];
    }
    NoRedir(s, p);
    assert Wrap(cmd, []) == cmd;
    Finish(s, p, e, cmd);
  }

  lemma PipeOfTwo(s: string, p: nat, b: nat, e: nat, left: Cmd<Span>, right: Cmd<Span>)
    requires IsLine(s) && p <= b < |s| && s[b] == '|' && b + 1 <= e <= |s| && !IsSpace(At(s, b + 1))
    requires ExecAt(s, p) == Ok(left, b) && PipeAt(s, b + 1) == Ok(right, e)
    ensures PipeAt(s, p) == Ok(Pipe(left, right), e)
  {
    assert TokenAt(s, b).next == b + 1 && PeekAt(s, b, "|");
  }

  lemma PipeRead(s: string, p: nat, b: nat, e: nat, left: Cmd<Span>, right: Cmd<Span>)
    requires IsLine(s) && p <= b < |s| && s[b] == '|' && b + 1 <= e <= |s| && !IsSpace(At(s, b + 1)) && Closed(s, e)
    requires ExecAt(s, p) == Ok(left, b) && ExecAt(s, b + 1) == Ok(right, e)
    ensures LineAt(s, p) == Ok(Pipe(left, right), e)
  {
    Finish(s, b + 1, e, right);
    PipeOfTwo(s, p, b, e, left, right);
    LineOfPipe(s, p, e, Pipe(left, right));
  }

  /** A block before ";" is a whole pipe, and nothing goes to the background. */
  lemma NotMore(s: string, p: nat, b: nat, left: Cmd<Span>)
    requires IsLine(s) && p <= b < |s| && s[b] == ';' && ExecAt(s, p) == Ok(left, b)
    ensures PipeAt(s, p) == Ok(left, b) && Backs(s, b, left) == Ok(left, b)
  {
  }

  lemma ListOfTwo(s: string, p: nat, b: nat, e: nat, left: Cmd<Span>, right: Cmd<Span>)
    requires IsLine(s) && p <= b < |s| && s[b] == ';' && b + 1 <= e <= |s| && !IsSpace(At(s, b + 1))
    requires PipeAt(s, p) == Ok(left, b) && Backs(s, b, left) == Ok(left, b) && LineAt(s, b + 1) == Ok(right, e)
    ensures LineAt(s, p) == Ok(List(left, right), e)
  {
    assert TokenAt(s, b).next == b + 1 && PeekAt(s, b, ";");
  }

  lemma ListRead(s: string, p: nat, b: nat, e: nat, left: Cmd<Span>, right: Cmd<Span>)
    requires IsLine(s) && p <= b < |s| && s[b] == ';' && b + 1 <= e <= |s| && !IsSpace(At(s, b + 1)) && Closed(s, e)
    requires ExecAt(s, p) == Ok(left, b) && ExecAt(s, b + 1) == Ok(right, e)
    ensures LineAt(s, p) == Ok(List(left, right), e)
  {
    Finish(s, b + 1, e, right);
    NotMore(s, p, b, left);
    ListOfTwo(s, p, b, e, left, right);
  }

  lemma BackRead(s: string, p: nat, b: nat, cmd: Cmd<Span>)
    requires IsLine(s) && p <= b < |s| && s[b] == '&' && Closed(s, b + 1) && ExecAt(s, p) == Ok(cmd, b)
    ensures LineAt(s, p) == Ok(Back(cmd), b + 1)
  {
    assert PipeAt(s, p) == Ok(cmd, b) && TokenAt(s, b).next == b + 1;
    assert Backs(s, b + 1, Back(cmd)) == Ok(Back(cmd), b + 1);
  }

  /** A block with something other than a redirection behind it. */
  lemma PlainBlock(s: string, p: nat, c: Cmd<string>, rest: string, b: nat, cmd: Cmd<Span>)
    requires IsLine(s) && Sayable(c) && Stands(s, p, Bracket(Print(c)) + rest) && b == p + 2 + |Print(c)|
    requires b - 1 <= |s| && LineAt(s, p + 1) == Ok(cmd, b - 1)
    requires !IsSpace(At(s, b)) && At(s, b) != '<' && At(s, b) != '>'
    ensures b <= |s| && ExecAt(s, p) == Ok(cmd, b)
  {
    BlockOf(s, p, c, rest, b, cmd);
    NoRedir(s, b);
    assert Wrap(cmd, []) == cmd;
  }

  /** The parser reads every printed command back, wherever it stands in a line. */
  lemma {:induction false} LineRead(s: string, p: nat, c: Cmd<string>, e: nat) returns (cmd: Cmd<Span>)
    requires IsLine(s) && Sayable(c) && Stands(s, p, Print(c)) && e == p + |Print(c)| && Closed(s, e)
    ensures LineAt(s, p) == Ok(cmd, e) && Text(s, cmd) == c
    decreases e - p, 1
  {
    match c
    case Exec(words) => cmd := ExecRead(s, p, words, e);
    case Redir(d, file, input) => cmd := RedirCase(s, p, d, file, input, e);
    case Pipe(l, r) =>
      var b := p + 2 + |Print(l)|;
      var left, right := PairCase(s, p, l, '|', r, b, e);
      PipeRead(s, p, b, e, left, right);
      cmd := Pipe(left, right);
    case List(l, r) =>
      var b := p + 2 + |Print(l)|;
      var left, right := PairCase(s, p, l, ';', r, b, e);
      ListRead(s, p, b, e, left, right);
      cmd := List(left, right);
    case Back(d) => cmd := BackCase(s, p, d, e);
  }

  /** A printed command in parentheses, no redirection behind it. */
  lemma {:induction false} BlockCase(s: string, p: nat, c: Cmd<string>, rest: string, b: nat) returns (cmd: Cmd<Span>)
    requires IsLine(s) && Sayable(c) && Stands(s, p, Bracket(Print(c)) + rest) && b == p + 2 + |Print(c)|
    requires !IsSpace(At(s, b)) && At(s, b) != '<' && At(s, b) != '>'
    ensures b <= |s| && ExecAt(s, p) == Ok(cmd, b) && Text(s, cmd) == c
    decreases b - p, 0
  {
    Bracketed(s, p, Print(c), rest, b);
    cmd := LineRead(s, p + 1, c, b - 1);
    PlainBlock(s, p, c, rest, b, cmd);
  }

  lemma {:induction false} RedirCase(s: string, p: nat, d: Cmd<string>, file: string, input: bool, e: nat)
    returns (cmd: Cmd<Span>)
    requires IsLine(s) && Sayable(d) && IsWord(file) && Closed(s, e)
    requires var t := Bracket(Print(d)) + ((if input then "<" else ">") + file); Stands(s, p, t) && e == p + |t|
    ensures LineAt(s, p) == Ok(cmd, e) && Text(s, cmd) == Redir(d, file, input)
    decreases e - p, 0
  {
    var b := p + 2 + |Print(d)|;
    var sign := if input then "<" else ">";
    RedirParts(s, p, Print(d), sign, file, b);
    var inner := LineRead(s, p + 1, d, b - 1);
    BlockOf(s, p, d, sign + file, b, inner);
    cmd := Redir(inner, Span(b + 1, e), input);
    RedirOf(s, p, b, inner, file, input, e);
  }

  /** Where the parts of two commands in parentheses with an operator between them stand. */
  lemma PairParts(s: string, p: nat, l: string, op: char, r: string, b: nat, e: nat)
    requires Stands(s, p, Bracket(l) + ([op] + Bracket(r))) && b == p + 2 + |l| && e == b + 3 + |r|
    requires (op == '|' || op == ';') && Closed(s, e)
    ensures b + 1 < |s| && s[b] == op && s[b + 1] == '(' && Stands(s, b + 1, Bracket(r) + "")
    ensures !IsSpace(At(s, b)) && At(s, b) != '<' && At(s, b) != '>' && !IsSpace(At(s, e)) && At(s, e) != '<'
            && At(s, e) != '>'
  {
    Bracketed(s, p, l, [op] + Bracket(r), b);
    StandsParts(s, b, [op], Bracket(r));
    assert s[b + 0] == [op][0];
    assert s[b + 1 + 0] == Bracket(r)[0];
    assert Bracket(r) + "" == Bracket(r);
  }

  /** Two commands in parentheses with an operator between them. */
  lemma {:induction false} PairCase(s: string, p: nat, l: Cmd<string>, op: char, r: Cmd<string>, b: nat, e: nat)
      returns (left: Cmd<Span>, right: Cmd<Span>)
    requires IsLine(s) && Sayable(l) && Sayable(r) && Closed(s, e) && (op == '|' || op == ';')
    requires Stands(s, p, Bracket(Print(l)) + ([op] + Bracket(Print(r))))
    requires b == p + 2 + |Print(l)| && e == b + 3 + |Print(r)|
    ensures b < e && b + 1 < |s| && s[b] == op && !IsSpace(s[b + 1])
    ensures ExecAt(s, p) == Ok(left, b) && ExecAt(s, b + 1) == Ok(right, e)
    ensures Text(s, left) == l && Text(s, right) == r
    decreases e - p, 0
  {
    var after, rest := b + 1, [op] + Bracket(Print(r));
    PairParts(s, p, Print(l), op, Print(r), b, e);
    right := BlockCase(s, after, r, "", e);
    left := BlockCase(s, p, l, rest, b);
  }

  lemma {:induction false} BackCase(s: string, p: nat, d: Cmd<string>, e: nat) returns (cmd: Cmd<Span>)
    requires IsLine(s) && Sayable(d) && Closed(s, e)
    requires var t := Bracket(Print(d)) + "&"; Stands(s, p, t) && e == p + |t|
    ensures LineAt(s, p) == Ok(cmd, e) && Text(s, cmd) == Back(d)
    decreases e - p, 0
  {
    var b := e - 1;
    Bracketed(s, p, Print(d), "&", b);
    assert s[b + 0] == "&"[0];
    var inner := BlockCase(s, p, d, "&", b);
    BackRead(s, p, b, inner);
    cmd := Back(inner);
  }

  /** Printing a command and parsing the line gives the command back. */
  lemma RoundTrip(c: Cmd<string>)
    requires Sayable(c)
    ensures IsLine(Print(c))
    ensures var r := WholeLine(Print(c)); r.Ok? && Text(Print(c), r.value) == c
  {
    PrintIsLine(c);
    var s := Print(c);
    var cmd := LineRead(s, 0, c, |s|);
  }

  lemma {:induction false} SpacedIsLine(words: seq<string>)
    requires forall k: nat {:trigger words[k]} | k < |words| :: IsWord(words[k])
    ensures IsLine(Spaced(words))
  {
    if |words| > 1 { SpacedIsLine(words[1..]); }
  }

  lemma {:induction false} PrintIsLine(c: Cmd<string>)
    requires Sayable(c)
    ensures IsLine(Print(c))
  {
    match c
    case Exec(words) => SpacedIsLine(words);
    case Redir(d, file, input) => PrintIsLine(d);
    case Pipe(l, r) => PrintIsLine(l); PrintIsLine(r);
    case List(l, r) => PrintIsLine(l); PrintIsLine(r);
    case Back(d) => PrintIsLine(d);
  }
}
