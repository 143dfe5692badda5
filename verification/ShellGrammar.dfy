/** The language of the shell, as a grammar over the tokens of a line, and the proof that the
    parser accepts exactly its sentences and gives each its meaning. */
module ShellGrammar {

  import opened Shell

  // ----- Tokens

  datatype Tok = W(w: Span) | S(c: char)

  ghost function Toks(s: string, p: nat): seq<Tok>
    requires IsLine(s) && p <= |s|
    decreases |s| - p
  {
    var t := TokenAt(s, p);
    if t.kind == '\0' then [] else [if t.kind == 'a' then W(t.span) else S(t.kind)] + Toks(s, t.next)
  }

  /** What the tokens of a line are: from the first character that is no space, the signs of one
      character, ">>", or all word characters up to the next character that is none. */
  lemma TokenText(s: string, p: nat)
    requires IsLine(s) && p <= |s|
    ensures var t := TokenAt(s, p);
            var q, e := t.span.q, t.span.eq;
            && p <= q <= e <= t.next <= |s| && (t.kind == '\0' <==> q == |s|)
            && (forall i: nat | p <= i < q || e <= i < t.next :: IsSpace(s[i]))
            && (q < |s| ==> !IsSpace(s[q])) && (t.next < |s| ==> !IsSpace(s[t.next]))
            && (t.kind == 'a' ==> q < e && (e < |s| ==> !InWord(s[e])) && forall i: nat | q <= i < e :: InWord(s[i]))
            && (t.kind == '+' ==> s[q..e] == ">>")
            && (t.kind == '>' ==> s[q..e] == ">" && (e < |s| ==> s[e] != '>'))
            && (t.kind != '\0' && t.kind != 'a' && t.kind != '+' ==> s[q..e] == [t.kind] && t.kind in "<|>&;()")
  {
    SkipSpaces(s, p);
    SkipSpaces(s, TokenAt(s, p).span.eq);
  }

  lemma {:induction false} SkipSpaces(s: string, p: nat)
    requires p <= |s|
    ensures forall i: nat | p <= i < Skip(s, p) :: IsSpace(s[i])
    decreases |s| - p
  {
    if p < |s| && IsSpace(s[p]) { SkipSpaces(s, p + 1); }
  }

  lemma SkippedToks(s: string, p: nat)
    requires IsLine(s) && p <= |s|
    ensures Toks(s, Skip(s, p)) == Toks(s, p)
  {
    SkippedFirst(s, p);
  }

  predicate IsSign(c: char) {
    c == '<' || c == '>' || c == '+'
  }

  /** The first token is one of the signs c. */
  predicate First(ts: seq<Tok>, c: char) {
    ts != [] && ts[0] == S(c)
  }

  predicate FirstSign(ts: seq<Tok>) {
    ts != [] && ts[0].S? && IsSign(ts[0].c)
  }

  predicate FirstEnd(ts: seq<Tok>) {
    First(ts, '|') || First(ts, ')') || First(ts, '&') || First(ts, ';')
  }

  /** peek looks at the first token. */
  lemma Peeked(s: string, p: nat)
    requires IsLine(s) && p <= |s|
    ensures var ts := Toks(s, p);
            && (PeekAt(s, p, "<>") <==> FirstSign(ts)) && (PeekAt(s, p, "|)&;") <==> FirstEnd(ts))
            && (PeekAt(s, p, "(") <==> First(ts, '(')) && (PeekAt(s, p, ")") <==> First(ts, ')'))
            && (PeekAt(s, p, "|") <==> First(ts, '|')) && (PeekAt(s, p, "&") <==> First(ts, '&'))
            && (PeekAt(s, p, ";") <==> First(ts, ';'))
  {
    TokenText(s, p);
  }

  // ----- The grammar

  datatype Item = Argument(w: Span) | Redirect(sign: char, file: Span)

  datatype Items = NoMore | Then(item: Item, rest: Items)

  /** exec: words and redirections in any order, or a line in parentheses and then redirections. */
  datatype ExecTree = Simple(items: Items) | Block(body: LineTree, after: Items)

  /** pipe: exec, or exec | pipe. */
  datatype PipeTree = One(exec: ExecTree) | Piped(exec: ExecTree, rest: PipeTree)

  /** line: pipe and some &, and perhaps ; and a line. */
  datatype LineTree = Last(pipe: PipeTree, amps: nat) | Listed(pipe: PipeTree, amps: nat, rest: LineTree)

  /** The tokens of a tree, before the tokens that follow. */
  function ItemsToks(items: Items, follow: seq<Tok>): seq<Tok> {
    match items
    case NoMore => follow
    case Then(Argument(w), rest) => [W(w)] + ItemsToks(rest, follow)
    case Then(Redirect(sign, file), rest) => [S(sign), W(file)] + ItemsToks(rest, follow)
  }

  function Amps(n: nat, follow: seq<Tok>): seq<Tok> {
    if n == 0 then follow else [S('&')] + Amps(n - 1, follow)
  }

  function ExecToks(e: ExecTree, follow: seq<Tok>): seq<Tok> {
    match e
    case Simple(items) => ItemsToks(items, follow)
    case Block(body, after) => [S('(')] + LineToks(body, [S(')')] + ItemsToks(after, follow))
  }

  function PipeToks(p: PipeTree, follow: seq<Tok>): seq<Tok> {
    match p
    case One(e) => ExecToks(e, follow)
    case Piped(e, rest) => ExecToks(e, [S('|')] + PipeToks(rest, follow))
  }

  function LineToks(l: LineTree, follow: seq<Tok>): seq<Tok> {
    match l
    case Last(p, n) => PipeToks(p, Amps(n, follow))
    case Listed(p, n, rest) => PipeToks(p, Amps(n, [S(';')] + LineToks(rest, follow)))
  }

  // ----- What sentences mean

  function Arguments(items: Items): seq<Span> {
    match items
    case NoMore => []
    case Then(Argument(w), rest) => [w] + Arguments(rest)
    case Then(Redirect(_, _), rest) => Arguments(rest)
  }

  /** Later redirections go around earlier ones. */
  function Around(cmd: Cmd<Span>, items: Items): Cmd<Span>
    decreases items
  {
    match items
    case NoMore => cmd
    case Then(Argument(_), rest) => Around(cmd, rest)
    case Then(Redirect(sign, file), rest) => Around(Redir(cmd, file, sign == '<'), rest)
  }

  function InBack(cmd: Cmd<Span>, n: nat): Cmd<Span>
    decreases n
  {
    if n == 0 then cmd else InBack(Back(cmd), n - 1)
  }

  function ExecCmd(e: ExecTree): Cmd<Span> {
    match e
    case Simple(items) => Around(Exec(Arguments(items)), items)
    case Block(body, after) => Around(LineCmd(body), after)
  }

  function PipeCmd(p: PipeTree): Cmd<Span> {
    match p
    case One(e) => ExecCmd(e)
    case Piped(e, rest) => Pipe(ExecCmd(e), PipeCmd(rest))
  }

  function LineCmd(l: LineTree): Cmd<Span> {
    match l
    case Last(p, n) => InBack(PipeCmd(p), n)
    case Listed(p, n, rest) => List(InBack(PipeCmd(p), n), LineCmd(rest))
  }

  /** Redirections have one of the three signs. */
  predicate ItemsOk(items: Items) {
    items.Then? ==> (items.item.Redirect? ==> IsSign(items.item.sign)) && ItemsOk(items.rest)
  }

  predicate OnlyRedirects(items: Items) {
    items.Then? ==> items.item.Redirect? && OnlyRedirects(items.rest)
  }

  /** Fewer than MAXARGS words in each simple command, and only redirections after a block. */
  predicate ExecOk(e: ExecTree) {
    match e
    case Simple(items) => ItemsOk(items) && |Arguments(items)| < MAXARGS
    case Block(body, after) => LineOk(body) && ItemsOk(after) && OnlyRedirects(after)
  }

  predicate PipeOk(p: PipeTree) {
    match p
    case One(e) => ExecOk(e)
    case Piped(e, rest) => ExecOk(e) && PipeOk(rest)
  }

  predicate LineOk(l: LineTree) {
    match l
    case Last(p, _) => PipeOk(p)
    case Listed(p, _, rest) => PipeOk(p) && LineOk(rest)
  }

  /** The tokens are a sentence of the grammar with this meaning. */
  ghost predicate Derives(ts: seq<Tok>, cmd: Cmd<Span>) {
    exists l: LineTree :: LineOk(l) && LineToks(l, []) == ts && LineCmd(l) == cmd
  }

  // ----- The parser's redirections, and the grammar's

  /** One more redirection around what has been parsed. */
  lemma WrapLast(cmd: Cmd<Span>, redirs: seq<Redirection<Span>>, r: Redirection<Span>)
    ensures Wrap(cmd, redirs + [r]) == Redir(Wrap(cmd, redirs), r.file, r.input)
  {
    assert (redirs + [r])[..|redirs|] == redirs;
  }

  // ----- What the parser accepts is a sentence

  /** The items that parseredirs reads. */
  lemma {:induction false} RedirsSound(s: string, p: nat, done: seq<Redirection<Span>>, cmd: Cmd<Span>)
    returns (items: Items)
    requires IsLine(s) && p <= |s| && Redirs(s, p, done).Ok?
    ensures var r := Redirs(s, p, done);
            && ItemsOk(items) && OnlyRedirects(items) && Wrap(cmd, r.value) == Around(Wrap(cmd, done), items)
            && Toks(s, p) == ItemsToks(items, Toks(s, r.next))
    decreases |s| - p
  {
    Peeked(s, p);
    if !PeekAt(s, p, "<>") {
      SkippedToks(s, p);
      items := NoMore;
    } else {
      var tok := TokenAt(s, p);
      var file := TokenAt(s, tok.next);
      var r := To(file.span, tok.kind == '<');
      WrapLast(cmd, done, r);
      var rest := RedirsSound(s, file.next, done + [r], cmd);
      items := Then(Redirect(tok.kind, file.span), rest);
    }
  }

  function Joined(a: Items, b: Items): Items {
    match a
    case NoMore => b
    case Then(item, rest) => Then(item, Joined(rest, b))
  }

  lemma {:induction false} JoinedItems(a: Items, b: Items, follow: seq<Tok>, cmd: Cmd<Span>)
    requires OnlyRedirects(a) && ItemsOk(a) && ItemsOk(b)
    ensures ItemsOk(Joined(a, b)) && Arguments(Joined(a, b)) == Arguments(b)
    ensures ItemsToks(Joined(a, b), follow) == ItemsToks(a, ItemsToks(b, follow))
    ensures Around(cmd, Joined(a, b)) == Around(Around(cmd, a), b)
    decreases a
  {
    match a
    case NoMore =>
    case Then(Argument(_), _) =>
    case Then(Redirect(sign, file), rest) => JoinedItems(rest, b, follow, Redir(cmd, file, sign == '<'));
  }

  /** The items that the loop of parseexec reads. */
  lemma {:induction false} ArgsSound(s: string, p: nat, argv: seq<Span>, done: seq<Redirection<Span>>)
    returns (items: Items)
    requires IsLine(s) && p <= |s| && Args(s, p, argv, done).Ok? && |argv| < MAXARGS
    ensures var r := Args(s, p, argv, done);
            && ItemsOk(items) && |argv + Arguments(items)| < MAXARGS
            && r.value == Around(Wrap(Exec(argv + Arguments(items)), done), items)
            && Toks(s, p) == ItemsToks(items, Toks(s, r.next))
    decreases |s| - p
  {
    items := NoMore;
    Peeked(s, p);
    assert argv + [] == argv;
    var tok := TokenAt(s, p);
    if PeekAt(s, p, "|)&;") {
      SkippedToks(s, p);
    } else if tok.kind == 'a' {
      items := WordSound(s, p, argv, done, tok);
    }
  }

  lemma {:induction false} WordSound(s: string, p: nat, argv: seq<Span>, done: seq<Redirection<Span>>, tok: Token)
    returns (items: Items)
    requires IsLine(s) && p <= |s| && Args(s, p, argv, done).Ok? && |argv| < MAXARGS
    requires !PeekAt(s, p, "|)&;") && tok == TokenAt(s, p) && tok.kind == 'a'
    ensures var r := Args(s, p, argv, done);
            && ItemsOk(items) && |argv + Arguments(items)| < MAXARGS
            && r.value == Around(Wrap(Exec(argv + Arguments(items)), done), items)
            && Toks(s, p) == ItemsToks(items, Toks(s, r.next))
    decreases |s| - p, 0
  {
    var more := Redirs(s, tok.next, done);
    var rest := ArgsSound(s, more.next, argv + [tok.span], more.value);
    var end := Args(s, more.next, argv + [tok.span], more.value).next;
    var cmd := Exec(argv + [tok.span] + Arguments(rest));
    var redirs := RedirsSound(s, tok.next, done, cmd);
    JoinedItems(redirs, rest, Toks(s, end), Wrap(cmd, done));
    items := Then(Argument(tok.span), Joined(redirs, rest));
    assert argv + [tok.span] + Arguments(rest) == argv + ([tok.span] + Arguments(rest));
  }

  lemma {:induction false} ExecSound(s: string, p: nat) returns (e: ExecTree)
    requires IsLine(s) && p <= |s| && ExecAt(s, p).Ok?
    ensures var r := ExecAt(s, p); ExecOk(e) && r.value == ExecCmd(e) && Toks(s, p) == ExecToks(e, Toks(s, r.next))
    decreases |s| - p, 1
  {
    Peeked(s, p);
    if PeekAt(s, p, "(") {
      e := BlockSound(s, p);
    } else {
      var redirs := Redirs(s, p, []);
      var rest := ArgsSound(s, redirs.next, [], redirs.value);
      var end := Args(s, redirs.next, [], redirs.value).next;
      assert [] + Arguments(rest) == Arguments(rest);
      var cmd := Exec(Arguments(rest));
      var first := RedirsSound(s, p, [], cmd);
      JoinedItems(first, rest, Toks(s, end), cmd);
      e := Simple(Joined(first, rest));
    }
  }

  lemma {:induction false} BlockSound(s: string, p: nat) returns (e: ExecTree)
    requires IsLine(s) && p <= |s| && PeekAt(s, p, "(") && BlockAt(s, p).Ok?
    ensures var r := BlockAt(s, p); ExecOk(e) && r.value == ExecCmd(e) && Toks(s, p) == ExecToks(e, Toks(s, r.next))
    decreases |s| - p, 0
  {
    Peeked(s, p);
    var open := TokenAt(s, p);
    var body := LineSound(s, open.next);
    var line := LineAt(s, open.next);
    Peeked(s, line.next);
    var close := TokenAt(s, line.next);
    var after := RedirsSound(s, close.next, [], line.value);
    e := Block(body, after);
  }

  lemma {:induction false} PipeSound(s: string, p: nat) returns (t: PipeTree)
    requires IsLine(s) && p <= |s| && PipeAt(s, p).Ok?
    ensures var r := PipeAt(s, p); PipeOk(t) && r.value == PipeCmd(t) && Toks(s, p) == PipeToks(t, Toks(s, r.next))
    decreases |s| - p, 2
  {
    var e := ExecSound(s, p);
    var left := ExecAt(s, p);
    Peeked(s, left.next);
    if PeekAt(s, left.next, "|") {
      var rest := PipeSound(s, TokenAt(s, left.next).next);
      t := Piped(e, rest);
    } else {
      SkippedToks(s, left.next);
      t := One(e);
    }
  }

  lemma {:induction false} BacksSound(s: string, p: nat, cmd: Cmd<Span>) returns (n: nat)
    requires IsLine(s) && p <= |s|
    ensures var r := Backs(s, p, cmd); r.value == InBack(cmd, n) && Toks(s, p) == Amps(n, Toks(s, r.next))
    decreases |s| - p
  {
    Peeked(s, p);
    if PeekAt(s, p, "&") {
      var more := BacksSound(s, TokenAt(s, p).next, Back(cmd));
      n := more + 1;
    } else {
      SkippedToks(s, p);
      n := 0;
    }
  }

  lemma {:induction false} LineSound(s: string, p: nat) returns (l: LineTree)
    requires IsLine(s) && p <= |s| && LineAt(s, p).Ok?
    ensures var r := LineAt(s, p); LineOk(l) && r.value == LineCmd(l) && Toks(s, p) == LineToks(l, Toks(s, r.next))
    decreases |s| - p, 3
  {
    var t := PipeSound(s, p);
    var pipe := PipeAt(s, p);
    var n := BacksSound(s, pipe.next, pipe.value);
    var left := Backs(s, pipe.next, pipe.value);
    Peeked(s, left.next);
    if PeekAt(s, left.next, ";") {
      var rest := LineSound(s, TokenAt(s, left.next).next);
      l := Listed(t, n, rest);
    } else {
      SkippedToks(s, left.next);
      l := Last(t, n);
    }
  }

  // ----- Every sentence is accepted

  /** The first token and those after it. */
  lemma Uncons(s: string, p: nat, tok: Tok, rest: seq<Tok>)
    requires IsLine(s) && p <= |s| && Toks(s, p) == [tok] + rest
    ensures var t := TokenAt(s, p);
            && t.kind != '\0' && p < t.next && Toks(s, t.next) == rest
            && (if tok.S? then t.kind == tok.c != 'a' else t.kind == 'a' && t.span == tok.w)
  {
    assert Toks(s, p)[0] == tok && Toks(s, p)[1..] == rest;
  }

  /** The redirections that items begin with, and the rest. */
  function Leading(items: Items): Items {
    if items.Then? && items.item.Redirect? then Then(items.item, Leading(items.rest)) else NoMore
  }

  function Trailing(items: Items): Items {
    if items.Then? && items.item.Redirect? then Trailing(items.rest) else items
  }

  function Count(items: Items): nat {
    if items.NoMore? then 0 else 1 + Count(items.rest)
  }

  lemma {:induction false} Apart(items: Items)
    requires ItemsOk(items)
    ensures Joined(Leading(items), Trailing(items)) == items && OnlyRedirects(Leading(items)) && ItemsOk(Leading(items))
    ensures ItemsOk(Trailing(items)) && Count(Trailing(items)) <= Count(items)
    ensures Trailing(items).Then? ==> Trailing(items).item.Argument?
  {
    if items.Then? && items.item.Redirect? { Apart(items.rest); }
  }

  lemma {:induction false} RedirsComplete(s: string, p: nat, done: seq<Redirection<Span>>, cmd: Cmd<Span>, items: Items,
                                          follow: seq<Tok>)
    requires IsLine(s) && p <= |s| && ItemsOk(items) && OnlyRedirects(items)
    requires Toks(s, p) == ItemsToks(items, follow) && !FirstSign(follow)
    ensures var r := Redirs(s, p, done);
            r.Ok? && Toks(s, r.next) == follow && Wrap(cmd, r.value) == Around(Wrap(cmd, done), items)
    decreases items
  {
    Peeked(s, p);
    match items
    case NoMore => SkippedToks(s, p);
    case Then(Argument(_), _) =>
    case Then(Redirect(sign, file), rest) =>
      var more := ItemsToks(rest, follow);
      assert Toks(s, p) == [S(sign)] + ([W(file)] + more);
      Uncons(s, p, S(sign), [W(file)] + more);
      var tok := TokenAt(s, p);
      Uncons(s, tok.next, W(file), more);
      var r := To(file, sign == '<');
      WrapLast(cmd, done, r);
      RedirsComplete(s, TokenAt(s, tok.next).next, done + [r], cmd, rest, follow);
  }

  lemma {:induction false} ArgsComplete(s: string, p: nat, argv: seq<Span>, done: seq<Redirection<Span>>, items: Items,
                                        follow: seq<Tok>)
    requires IsLine(s) && p <= |s| && ItemsOk(items) && (items.Then? ==> items.item.Argument?)
    requires |argv + Arguments(items)| < MAXARGS && (follow == [] || FirstEnd(follow))
    requires Toks(s, p) == ItemsToks(items, follow)
    ensures var r := Args(s, p, argv, done);
            && r.Ok? && Toks(s, r.next) == follow
            && r.value == Around(Wrap(Exec(argv + Arguments(items)), done), items)
    decreases Count(items), 1
  {
    Peeked(s, p);
    match items
    case NoMore =>
      assert argv + [] == argv;
      SkippedToks(s, p);
    case Then(Argument(w), rest) =>
      Apart(rest);
      WordComplete(s, p, argv, done, w, Leading(rest), Trailing(rest), follow);
    case _ =>
  }

  lemma {:induction false} WordComplete(s: string, p: nat, argv: seq<Span>, done: seq<Redirection<Span>>, w: Span,
                                        redirs: Items, rest: Items, follow: seq<Tok>)
    requires IsLine(s) && p <= |s| && ItemsOk(redirs) && OnlyRedirects(redirs) && ItemsOk(rest)
    requires (rest.Then? ==> rest.item.Argument?) && (follow == [] || FirstEnd(follow))
    requires |argv + Arguments(Then(Argument(w), Joined(redirs, rest)))| < MAXARGS
    requires Toks(s, p) == ItemsToks(Then(Argument(w), Joined(redirs, rest)), follow)
    ensures var items, r := Then(Argument(w), Joined(redirs, rest)), Args(s, p, argv, done);
            && r.Ok? && Toks(s, r.next) == follow
            && r.value == Around(Wrap(Exec(argv + Arguments(items)), done), items)
    decreases Count(rest) + 1, 0
  {
    var cmd := Exec(argv + [w] + Arguments(rest));
    JoinedItems(redirs, rest, follow, Wrap(cmd, done));
    assert argv + [w] + Arguments(rest) == argv + ([w] + Arguments(rest));
    Peeked(s, p);
    Uncons(s, p, W(w), ItemsToks(redirs, ItemsToks(rest, follow)));
    var tok := TokenAt(s, p);
    RedirsComplete(s, tok.next, done, cmd, redirs, ItemsToks(rest, follow));
    var more := Redirs(s, tok.next, done);
    ArgsComplete(s, more.next, argv + [w], more.value, rest, follow);
  }

  lemma {:induction false} ExecComplete(s: string, p: nat, e: ExecTree, follow: seq<Tok>)
    requires IsLine(s) && p <= |s| && ExecOk(e) && Toks(s, p) == ExecToks(e, follow)
    requires follow == [] || FirstEnd(follow)
    ensures var r := ExecAt(s, p); r.Ok? && Toks(s, r.next) == follow && r.value == ExecCmd(e)
    decreases e
  {
    Peeked(s, p);
    match e
    case Simple(items) =>
      Apart(items);
      SimpleComplete(s, p, Leading(items), Trailing(items), follow);
    case Block(body, after) =>
      var close := [S(')')] + ItemsToks(after, follow);
      Uncons(s, p, S('('), LineToks(body, close));
      LineComplete(s, TokenAt(s, p).next, body, close);
      var line := LineAt(s, TokenAt(s, p).next);
      Peeked(s, line.next);
      Uncons(s, line.next, S(')'), ItemsToks(after, follow));
      RedirsComplete(s, TokenAt(s, line.next).next, [], line.value, after, follow);
  }

  lemma SimpleComplete(s: string, p: nat, redirs: Items, rest: Items, follow: seq<Tok>)
    requires IsLine(s) && p <= |s| && ItemsOk(redirs) && OnlyRedirects(redirs) && ItemsOk(rest)
    requires (rest.Then? ==> rest.item.Argument?) && (follow == [] || FirstEnd(follow))
    requires |Arguments(Joined(redirs, rest))| < MAXARGS && Toks(s, p) == ItemsToks(Joined(redirs, rest), follow)
    ensures var items, r := Joined(redirs, rest), ExecAt(s, p);
            r.Ok? && Toks(s, r.next) == follow && r.value == Around(Exec(Arguments(items)), items)
  {
    var cmd := Exec(Arguments(rest));
    JoinedItems(redirs, rest, follow, cmd);
    Peeked(s, p);
    RedirsComplete(s, p, [], cmd, redirs, ItemsToks(rest, follow));
    var first := Redirs(s, p, []);
    assert [] + Arguments(rest) == Arguments(rest);
    ArgsComplete(s, first.next, [], first.value, rest, follow);
  }

  lemma {:induction false} PipeComplete(s: string, p: nat, t: PipeTree, follow: seq<Tok>)
    requires IsLine(s) && p <= |s| && PipeOk(t) && Toks(s, p) == PipeToks(t, follow)
    requires follow == [] || (FirstEnd(follow) && !First(follow, '|'))
    ensures var r := PipeAt(s, p); r.Ok? && Toks(s, r.next) == follow && r.value == PipeCmd(t)
    decreases t
  {
    match t
    case One(e) =>
      ExecComplete(s, p, e, follow);
      var left := ExecAt(s, p);
      Peeked(s, left.next);
      SkippedToks(s, left.next);
    case Piped(e, rest) =>
      var more := PipeToks(rest, follow);
      ExecComplete(s, p, e, [S('|')] + more);
      var left := ExecAt(s, p);
      Peeked(s, left.next);
      Uncons(s, left.next, S('|'), more);
      PipeComplete(s, TokenAt(s, left.next).next, rest, follow);
  }

  lemma {:induction false} BacksComplete(s: string, p: nat, n: nat, cmd: Cmd<Span>, follow: seq<Tok>)
    requires IsLine(s) && p <= |s| && Toks(s, p) == Amps(n, follow) && !First(follow, '&')
    ensures var r := Backs(s, p, cmd); Toks(s, r.next) == follow && r.value == InBack(cmd, n)
    decreases n
  {
    Peeked(s, p);
    if n == 0 {
      SkippedToks(s, p);
    } else {
      Uncons(s, p, S('&'), Amps(n - 1, follow));
      BacksComplete(s, TokenAt(s, p).next, n - 1, Back(cmd), follow);
    }
  }

  lemma {:induction false} LineComplete(s: string, p: nat, l: LineTree, follow: seq<Tok>)
    requires IsLine(s) && p <= |s| && LineOk(l) && Toks(s, p) == LineToks(l, follow)
    requires follow == [] || First(follow, ')')
    ensures var r := LineAt(s, p); r.Ok? && Toks(s, r.next) == follow && r.value == LineCmd(l)
    decreases l
  {
    var more := if l.Last? then follow else [S(';')] + LineToks(l.rest, follow);
    PipeComplete(s, p, l.pipe, Amps(l.amps, more));
    var pipe := PipeAt(s, p);
    BacksComplete(s, pipe.next, l.amps, pipe.value, more);
    var left := Backs(s, pipe.next, pipe.value);
    Peeked(s, left.next);
    if l.Last? {
      SkippedToks(s, left.next);
    } else {
      Uncons(s, left.next, S(';'), LineToks(l.rest, follow));
      LineComplete(s, TokenAt(s, left.next).next, l.rest, follow);
    }
  }

  /** The parser accepts a line exactly when its tokens are a sentence, and gives it the meaning of
      the sentence. */
  lemma Parses(s: string, cmd: Cmd<Span>)
    requires IsLine(s)
    ensures WholeLine(s) == Ok(cmd, |s|) <==> Derives(Toks(s, 0), cmd)
  {
    if WholeLine(s) == Ok(cmd, |s|) {
      var l := LineSound(s, 0);
      NoToks(s, LineAt(s, 0).next);
      assert Derives(Toks(s, 0), cmd);
    }
    if Derives(Toks(s, 0), cmd) {
      var l: LineTree :| LineOk(l) && LineToks(l, []) == Toks(s, 0) && LineCmd(l) == cmd;
      LineComplete(s, 0, l, []);
      NoToks(s, LineAt(s, 0).next);
    }
  }

  lemma NoToks(s: string, p: nat)
    requires IsLine(s) && p <= |s|
    ensures Toks(s, p) == [] <==> Skip(s, p) == |s|
  {
    TokenText(s, p);
  }

  /** A sentence has one meaning. */
  lemma OneMeaning(s: string, cmd: Cmd<Span>, other: Cmd<Span>)
    requires IsLine(s) && Derives(Toks(s, 0), cmd) && Derives(Toks(s, 0), other)
    ensures cmd == other
  {
    Parses(s, cmd);
    Parses(s, other);
  }
}
