/**
 The shell's command language (sh.c:266-447) on a text: tokens, the recursive-descent grammar
 with its failures, and a printer. Commands name their words by position, as the source does
 with pointers into the input buffer.
 */
module ShellGrammar {
  import opened Basics

  const WHITESPACE: string := " \t\r\n\U{000B}"
  const SYMBOLS: string := "<|>&;()"
  const MAXARGS: nat := 10

  predicate Space(c: char) {
    c in WHITESPACE
  }

  /** May stand in a word. */
  predicate WordChar(c: char) {
    !Space(c) && c !in SYMBOLS
  }

  // --------------------------------------------------------------- tokens

  /** The character at s, the terminating NUL at the end. */
  function CharAt(t: Text, s: nat): char {
    if s < |t| then t[s] else '\0'
  }

  function Skip(t: Text, s: nat): (r: nat)
    requires s <= |t|
    ensures s <= r <= |t| && (r < |t| ==> !Space(t[r])) && forall i :: s <= i < r ==> Space(t[i])
    decreases |t| - s
  {
    if s < |t| && Space(t[s]) then Skip(t, s + 1) else s
  }

  function WordEnd(t: Text, s: nat): (r: nat)
    requires s <= |t|
    ensures s <= r <= |t| && (r < |t| ==> !WordChar(t[r])) && forall i :: s <= i < r ==> WordChar(t[i])
    decreases |t| - s
  {
    if s < |t| && WordChar(t[s]) then WordEnd(t, s + 1) else s
  }

  /** Where a word lies in the text. */
  datatype Span = Span(q: nat, eq: nat)

  /** kind is '\0' at the end, 'a' for a word, '+' for >>, and otherwise the symbol. */
  datatype Token = Token(kind: char, span: Span, next: nat)

  /** What gettoken returns from s, and where it leaves the cursor. */
  function TokenAt(t: Text, s: nat): (r: Token)
    requires s <= |t|
    ensures r.span.q == Skip(t, s) <= r.span.eq <= r.next <= |t|
    ensures r.kind != '\0' ==> s < r.next && r.span.q < r.span.eq
    ensures r.kind == 'a' ==> IsWord(t, r.span)
  {
    var q := Skip(t, s);
    var c := CharAt(t, q);
    var eq := if c == '\0' then q
              else if c == '>' then (if CharAt(t, q + 1) == '>' then q + 2 else q + 1)
              else if c in SYMBOLS then q + 1
              else WordEnd(t, q);
    var kind := if c == '>' && CharAt(t, q + 1) == '>' then '+' else if c == '\0' || c in SYMBOLS then c else 'a';
    Token(kind, Span(q, eq), Skip(t, eq))
  }

  /** A maximal run of word characters. */
  ghost predicate IsWord(t: Text, w: Span) {
    && w.q < w.eq <= |t| && (forall i :: w.q <= i < w.eq ==> WordChar(t[i]))
    && (w.eq < |t| ==> !WordChar(t[w.eq]))
  }

  predicate Peek(t: Text, s: nat, toks: string)
    requires s <= |t|
  {
    Skip(t, s) < |t| && t[Skip(t, s)] in toks
  }

  lemma PeekConsumes(t: Text, s: nat, toks: string)
    requires s <= |t| && Peek(t, s, toks) && forall c :: c in toks ==> c in SYMBOLS
    ensures TokenAt(t, s).kind != '\0' && TokenAt(t, s).kind != 'a'
  {
  }

  // ------------------------------------------------------------- commands

  datatype Mode = Read | Write  // '<' on fd 0; '>' and '>>' on fd 1

  datatype Cmd<T> =
    | Exec(argv: seq<T>)
    | Redir(sub: Cmd<T>, file: T, mode: Mode)
    | Pipe(left: Cmd<T>, right: Cmd<T>)
    | List(left: Cmd<T>, right: Cmd<T>)
    | Back(sub: Cmd<T>)

  datatype Redirection = Redirection(file: Span, mode: Mode)

  datatype Res<T> = Ok(value: T, at: nat) | Fail

  /** Redirections around a command, the first innermost. */
  function Wrap(c: Cmd<Span>, rs: seq<Redirection>): Cmd<Span>
    decreases |rs|
  {
    if rs == [] then c else Wrap(Redir(c, rs[0].file, rs[0].mode), rs[1..])
  }

  ghost predicate AllWords(t: Text, c: Cmd<Span>) {
    match c
    case Exec(argv) => |argv| < MAXARGS && WordList(t, argv)
    case Redir(sub, file, mode) => AllWords(t, sub) && IsWord(t, file)
    case Pipe(left, right) => AllWords(t, left) && AllWords(t, right)
    case List(left, right) => AllWords(t, left) && AllWords(t, right)
    case Back(sub) => AllWords(t, sub)
  }

  ghost predicate WordList(t: Text, ws: seq<Span>) {
    forall i :: 0 <= i < |ws| ==> IsWord(t, ws[i])
  }

  ghost predicate FileWords(t: Text, rs: seq<Redirection>) {
    forall i :: 0 <= i < |rs| ==> IsWord(t, rs[i].file)
  }

  lemma {:induction false} WrapWords(t: Text, c: Cmd<Span>, rs: seq<Redirection>)
    requires AllWords(t, c) && FileWords(t, rs)
    ensures AllWords(t, Wrap(c, rs))
    decreases |rs|
  {
    if rs != [] {
      WrapWords(t, Redir(c, rs[0].file, rs[0].mode), rs[1..]);
    }
  }

  // -------------------------------------------------------------- grammar

  function ParseRedirs(t: Text, s: nat): (r: Res<seq<Redirection>>)
    requires s <= |t|
    ensures r.Ok? ==> s <= r.at <= |t| && FileWords(t, r.value)
    decreases |t| - s
  {
    if Peek(t, s, "<>") then
      PeekConsumes(t, s, "<>");
      var tok := TokenAt(t, s);
      var w := TokenAt(t, tok.next);
      if w.kind != 'a' then Fail
      else
        var rest := ParseRedirs(t, w.next);
        if rest.Fail? then Fail
        else Ok([Redirection(w.span, if tok.kind == '<' then Read else Write)] + rest.value, rest.at)
    else Ok([], Skip(t, s))
  }

  datatype Args = Args(argv: seq<Span>, redirs: seq<Redirection>)

  function PutArg(t: Text, w: Span, rs: seq<Redirection>, a: Args): (r: Args)
    requires IsWord(t, w) && FileWords(t, rs) && FileWords(t, a.redirs) && WordList(t, a.argv)
    ensures FileWords(t, r.redirs) && WordList(t, r.argv) && |r.argv| == |a.argv| + 1
  {
    Args([w] + a.argv, rs + a.redirs)
  }

  /** The words and redirections of an exec command that already has argc words. */
  function ParseArgs(t: Text, s: nat, argc: nat): (r: Res<Args>)
    requires s <= |t| && argc < MAXARGS
    ensures r.Ok? ==> s <= r.at <= |t| && FileWords(t, r.value.redirs)
    ensures r.Ok? ==> argc + |r.value.argv| < MAXARGS && WordList(t, r.value.argv)
    decreases |t| - s
  {
    if Peek(t, s, "|)&;") then Ok(Args([], []), Skip(t, s))
    else
      var tok := TokenAt(t, s);
      if tok.kind == '\0' then Ok(Args([], []), tok.next)
      else if tok.kind != 'a' || argc + 1 >= MAXARGS then Fail
      else
        var rs := ParseRedirs(t, tok.next);
        if rs.Fail? then Fail
        else
          var rest := ParseArgs(t, rs.at, argc + 1);
          if rest.Fail? then Fail
          else Ok(PutArg(t, tok.span, rs.value, rest.value), rest.at)
  }

  function ParseExec(t: Text, s: nat): (r: Res<Cmd<Span>>)
    requires s <= |t|
    ensures r.Ok? ==> s <= r.at <= |t| && AllWords(t, r.value)
    decreases |t| - s, 0
  {
    if Peek(t, s, "(") then
      PeekConsumes(t, s, "(");
      var body := ParseLine(t, TokenAt(t, s).next);
      if body.Fail? || !Peek(t, body.at, ")") then Fail
      else
        var rs := ParseRedirs(t, TokenAt(t, body.at).next);
        if rs.Fail? then Fail
        else
          WrapWords(t, body.value, rs.value);
          Ok(Wrap(body.value, rs.value), rs.at)
    else
      var rs := ParseRedirs(t, s);
      if rs.Fail? then Fail
      else
        var args := ParseArgs(t, rs.at, 0);
        if args.Fail? then Fail
        else
          WrapWords(t, Exec(args.value.argv), rs.value + args.value.redirs);
          Ok(Wrap(Exec(args.value.argv), rs.value + args.value.redirs), args.at)
  }

  function ParsePipe(t: Text, s: nat): (r: Res<Cmd<Span>>)
    requires s <= |t|
    ensures r.Ok? ==> s <= r.at <= |t| && AllWords(t, r.value)
    decreases |t| - s, 1
  {
    var first := ParseExec(t, s);
    if first.Fail? then Fail
    else if Peek(t, first.at, "|") then
      PeekConsumes(t, first.at, "|");
      var rest := ParsePipe(t, TokenAt(t, first.at).next);
      if rest.Fail? then Fail else Ok(Pipe(first.value, rest.value), rest.at)
    else Ok(first.value, Skip(t, first.at))
  }

  /** A command and any number of &. */
  function ParseAmps(t: Text, c: Cmd<Span>, s: nat): (r: Res<Cmd<Span>>)
    requires s <= |t| && AllWords(t, c)
    ensures r.Ok? && s <= r.at <= |t| && AllWords(t, r.value)
    decreases |t| - s
  {
    if Peek(t, s, "&") then
      PeekConsumes(t, s, "&");
      ParseAmps(t, Back(c), TokenAt(t, s).next)
    else Ok(c, Skip(t, s))
  }

  function ParseLine(t: Text, s: nat): (r: Res<Cmd<Span>>)
    requires s <= |t|
    ensures r.Ok? ==> s <= r.at <= |t| && AllWords(t, r.value)
    decreases |t| - s, 2
  {
    var first := ParsePipe(t, s);
    if first.Fail? then Fail
    else
      var c := ParseAmps(t, first.value, first.at);
      if Peek(t, c.at, ";") then
        PeekConsumes(t, c.at, ";");
        var rest := ParseLine(t, TokenAt(t, c.at).next);
        if rest.Fail? then Fail else Ok(List(c.value, rest.value), rest.at)
      else Ok(c.value, Skip(t, c.at))
  }

  /** parsecmd: the whole text is one line. */
  function Parse(t: Text): (r: Res<Cmd<Span>>)
    ensures r.Ok? ==> AllWords(t, r.value) && r.at == |t|
  {
    var r := ParseLine(t, 0);
    if r.Ok? && Skip(t, r.at) == |t| then Ok(r.value, |t|) else Fail
  }

  // ----------------------------------------------------------- the printer

  ghost predicate LegalWord(w: string) {
    w != [] && forall i :: 0 <= i < |w| ==> WordChar(w[i]) && w[i] != '\0'
  }

  ghost predicate Legal(c: Cmd<string>) {
    match c
    case Exec(argv) => |argv| < MAXARGS && forall i :: 0 <= i < |argv| ==> LegalWord(argv[i])
    case Redir(sub, file, mode) => Legal(sub) && LegalWord(file)
    case Pipe(left, right) => Legal(left) && Legal(right)
    case List(left, right) => Legal(left) && Legal(right)
    case Back(sub) => Legal(sub)
  }

  function PrintWords(ws: seq<string>): string {
    if ws == [] then "" else ws[0] + (" " + PrintWords(ws[1..]))
  }

  /** Sub-commands in parentheses, a blank after each word. */
  function Print(c: Cmd<string>): string {
    match c
    case Exec(argv) => PrintWords(argv)
    case Redir(sub, file, mode) => "(" + (Print(sub) + (")" + ((if mode == Read then "<" else ">") + (file + " "))))
    case Pipe(left, right) => "(" + (Print(left) + (")" + ("|" + ("(" + (Print(right) + ")")))))
    case List(left, right) => "(" + (Print(left) + (")" + (";" + ("(" + (Print(right) + ")")))))
    case Back(sub) => "(" + (Print(sub) + (")" + "&"))
  }

  function WordsOf(t: Text, ws: seq<Span>): seq<string> {
    if ws == [] then [] else [WordOf(t, ws[0])] + WordsOf(t, ws[1..])
  }

  function WordOf(t: Text, w: Span): string {
    if w.q <= w.eq <= |t| then t[w.q..w.eq] else ""
  }

  /** The command with its words written out. */
  function Meaning(t: Text, c: Cmd<Span>): Cmd<string> {
    match c
    case Exec(argv) => Exec(WordsOf(t, argv))
    case Redir(sub, file, mode) => Redir(Meaning(t, sub), WordOf(t, file), mode)
    case Pipe(left, right) => Pipe(Meaning(t, left), Meaning(t, right))
    case List(left, right) => List(Meaning(t, left), Meaning(t, right))
    case Back(sub) => Back(Meaning(t, sub))
  }
}
