/** Parsing what the printer prints gives the command back, and every parsed command can be printed. */
module ShellRoundTrip {
  import opened Basics
  import opened ShellGrammar

  /** x stands at position s. */
  predicate At(t: Text, s: nat, x: string) {
    s + |x| <= |t| && t[s..s + |x|] == x
  }

  lemma AtSplit(t: Text, s: nat, x: string, y: string)
    requires At(t, s, x + y)
    ensures At(t, s, x) && At(t, s + |x|, y)
  {
    assert t[s..s + |x + y|] == x + y;
    assert t[s..s + |x|] == (x + y)[..|x|];
    assert t[s + |x|..s + |x| + |y|] == (x + y)[|x|..];
  }

  lemma AtChar(t: Text, s: nat, c: char)
    requires At(t, s, [c])
    ensures s < |t| && t[s] == c
  {
    assert t[s..s + 1][0] == c;
  }

  /** The end of the text, or of a block. */
  predicate Stop(t: Text, s: nat) {
    s == |t| || (s < |t| && t[s] == ')')
  }

  predicate NoSpace(t: Text, s: nat) {
    s == |t| || (s < |t| && !Space(t[s]))
  }

  lemma SymbolToken(t: Text, s: nat, c: char)
    requires At(t, s, [c]) && c in SYMBOLS && NoSpace(t, s + 1) && (c == '>' ==> CharAt(t, s + 1) != '>')
    ensures Skip(t, s) == s && TokenAt(t, s) == Token(c, Span(s, s + 1), s + 1)
  {
    AtChar(t, s, c);
  }

  lemma PeekSymbol(t: Text, s: nat, c: char, toks: string)
    requires At(t, s, [c]) && c in SYMBOLS && c in toks && NoSpace(t, s + 1) && c != '>'
    ensures s < |t| && Peek(t, s, toks) && TokenAt(t, s).next == s + 1
  {
    hide TokenAt, Skip, At;
    AtChar(t, s, c);
    SymbolToken(t, s, c);
  }

  lemma {:induction false} WordEndIs(t: Text, s: nat, e: nat)
    requires s <= e < |t| && (forall i :: s <= i < e ==> WordChar(t[i])) && !WordChar(t[e])
    ensures WordEnd(t, s) == e
    decreases e - s
  {
    if s < e {
      WordEndIs(t, s + 1, e);
    }
  }

  /** A word and the blank after it. */
  lemma WordToken(t: Text, s: nat, w: string)
    requires LegalWord(w) && At(t, s, w) && At(t, s + |w|, " ") && NoSpace(t, s + |w| + 1)
    ensures Skip(t, s) == s && CharAt(t, s) == w[0] && WordChar(w[0])
    ensures TokenAt(t, s) == Token('a', Span(s, s + |w|), s + |w| + 1) && WordOf(t, Span(s, s + |w|)) == w
  {
    AtChar(t, s + |w|, ' ');
    assert forall i :: s <= i < s + |w| ==> t[i] == w[i - s];
    assert t[s] == w[0];
    WordEndIs(t, s, s + |w|);
    assert Skip(t, s + |w|) == Skip(t, s + |w| + 1);
  }

  lemma NoRedirs(t: Text, s: nat)
    requires s <= |t| && NoSpace(t, s) && CharAt(t, s) != '<' && CharAt(t, s) != '>'
    ensures ParseRedirs(t, s) == Ok([], s)
  {
  }

  lemma {:induction false} ArgsPrinted(ws: seq<string>, t: Text, s: nat, argc: nat)
    requires argc + |ws| < MAXARGS && (forall i :: 0 <= i < |ws| ==> LegalWord(ws[i]))
    requires At(t, s, PrintWords(ws)) && Stop(t, s + |PrintWords(ws)|)
    ensures NoSpace(t, s) && (ws == [] || WordChar(CharAt(t, s)))
    ensures var r := ParseArgs(t, s, argc);
            r.Ok? && r.at == s + |PrintWords(ws)| && r.value.redirs == [] && WordsOf(t, r.value.argv) == ws
    decreases |ws|
  {
    hide ParseArgs, ParseRedirs, TokenAt, Skip, At, WordsOf, WordOf;
    if ws == [] {
      ArgsNone(t, s, argc);
    } else {
      var w, rest := ws[0], " " + PrintWords(ws[1..]);
      AtSplit(t, s, w, rest);
      AtSplit(t, s + |w|, " ", PrintWords(ws[1..]));
      var n := s + |w| + 1;
      ArgsPrinted(ws[1..], t, n, argc + 1);
      WordToken(t, s, w);
      NoRedirs(t, n);
      ArgsStep(t, s, argc, Span(s, s + |w|), n);
      WordsCons(t, Span(s, s + |w|), ParseArgs(t, n, argc + 1).value.argv);
      assert ws == [w] + ws[1..];
    }
  }

  lemma ArgsNone(t: Text, s: nat, argc: nat)
    requires argc < MAXARGS && Stop(t, s)
    ensures s <= |t| && NoSpace(t, s) && ParseArgs(t, s, argc) == Ok(Args([], []), s) && WordsOf(t, []) == []
  {
  }

  lemma WordsCons(t: Text, w: Span, ws: seq<Span>)
    ensures WordsOf(t, [w] + ws) == [WordOf(t, w)] + WordsOf(t, ws)
  {
    assert ([w] + ws)[1..] == ws;
  }

  lemma ArgsStep(t: Text, s: nat, argc: nat, w: Span, n: nat)
    requires s <= n <= |t| && argc + 1 < MAXARGS && NoSpace(t, s) && s < |t| && WordChar(t[s]) && TokenAt(t, s) == Token('a', w, n)
    requires ParseRedirs(t, n) == Ok([], n) && ParseArgs(t, n, argc + 1).Ok?
    ensures var r := ParseArgs(t, n, argc + 1);
            ParseArgs(t, s, argc) == Ok(Args([w] + r.value.argv, r.value.redirs), r.at)
  {
    var r := ParseArgs(t, n, argc + 1);
    assert [] + r.value.redirs == r.value.redirs;
  }

  /** Past a command, nothing more to parse. */
  lemma PipeEnds(t: Text, s: nat, e: nat)
    requires s <= |t| && ParseExec(t, s).Ok? && ParseExec(t, s).at == e && NoSpace(t, e) && CharAt(t, e) != '|'
    ensures ParsePipe(t, s) == ParseExec(t, s)
  {
  }

  lemma LineEnds(t: Text, s: nat, e: nat)
    requires s <= |t| && ParsePipe(t, s).Ok? && ParsePipe(t, s).at == e && Stop(t, e)
    ensures ParseLine(t, s) == ParsePipe(t, s)
  {
    var first := ParsePipe(t, s);
    assert ParseAmps(t, first.value, e) == Ok(first.value, e);
  }

  /** An exec command without redirections. */
  lemma PlainExec(t: Text, s: nat)
    requires s <= |t| && !Peek(t, s, "(") && ParseRedirs(t, s) == Ok([], s) && ParseArgs(t, s, 0).Ok? && ParseArgs(t, s, 0).value.redirs == []
    ensures var args := ParseArgs(t, s, 0);
            ParseExec(t, s) == Ok(Exec(args.value.argv), args.at)
  {
    hide Peek, ParseRedirs, ParseArgs, ParseLine, TokenAt, Skip;
    var args := ParseArgs(t, s, 0);
    assert [] + args.value.redirs == [];
  }

  lemma ExecPrinted(argv: seq<string>, t: Text, s: nat)
    requires Legal(Exec(argv)) && At(t, s, PrintWords(argv)) && Stop(t, s + |PrintWords(argv)|)
    ensures var r := ParseLine(t, s);
            r.Ok? && r.at == s + |PrintWords(argv)| && Meaning(t, r.value) == Exec(argv)
  {
    hide ParseExec, ParsePipe, ParseLine, ParseRedirs, ParseArgs, At;
    ArgsPrinted(argv, t, s, 0);
    NoRedirs(t, s);
    var args := ParseArgs(t, s, 0);
    PlainExec(t, s);
    PipeEnds(t, s, args.at);
    LineEnds(t, s, args.at);
  }

  lemma UnfoldBlock(t: Text, s: nat, n: nat, a: nat, m: nat)
    requires s <= n <= a <= m <= |t| && Peek(t, s, "(") && TokenAt(t, s).next == n && ParseLine(t, n).Ok? && ParseLine(t, n).at == a
    requires Peek(t, a, ")") && TokenAt(t, a).next == m && ParseRedirs(t, m).Ok?
    ensures ParseExec(t, s) == Ok(Wrap(ParseLine(t, n).value, ParseRedirs(t, m).value), ParseRedirs(t, m).at)
  {
    hide Peek, ParseRedirs, ParseArgs, ParseLine, TokenAt, Skip, Wrap;
  }

  /** A line in parentheses: what follows may be redirections. */
  lemma BlockPrinted(x: string, t: Text, s: nat)
    requires At(t, s, "(") && At(t, s + 1 + |x|, ")") && NoSpace(t, s + 1) && NoSpace(t, s + |x| + 2)
    requires ParseLine(t, s + 1).Ok? && ParseLine(t, s + 1).at == s + 1 + |x|
    ensures var rs := ParseRedirs(t, s + |x| + 2);
            rs.Ok? ==> ParseExec(t, s) == Ok(Wrap(ParseLine(t, s + 1).value, rs.value), rs.at)
  {
    hide ParseRedirs, ParseExec, ParseLine, TokenAt, Skip, Wrap, At, Peek;
    PeekSymbol(t, s, '(', "(");
    PeekSymbol(t, s + 1 + |x|, ')', ")");
    if ParseRedirs(t, s + |x| + 2).Ok? {
      UnfoldBlock(t, s, s + 1, s + 1 + |x|, s + |x| + 2);
    }
  }

  /** A block that is followed by a symbol other than < and >, or by nothing. */
  lemma BareBlock(x: string, t: Text, s: nat)
    requires At(t, s, "(") && At(t, s + 1 + |x|, ")") && NoSpace(t, s + 1) && NoSpace(t, s + |x| + 2)
    requires ParseLine(t, s + 1).Ok? && ParseLine(t, s + 1).at == s + 1 + |x|
    requires CharAt(t, s + |x| + 2) != '<' && CharAt(t, s + |x| + 2) != '>'
    ensures ParseExec(t, s) == Ok(ParseLine(t, s + 1).value, s + |x| + 2)
  {
    hide ParseRedirs, ParseExec, ParseLine;
    AtChar(t, s + 1 + |x|, ')');
    NoRedirs(t, s + |x| + 2);
    BlockPrinted(x, t, s);
  }

  lemma PipeJoins(t: Text, s: nat, e: nat)
    requires s <= |t| && ParseExec(t, s).Ok? && ParseExec(t, s).at == e && At(t, e, "|") && NoSpace(t, e + 1) && ParsePipe(t, e + 1).Ok?
    ensures ParsePipe(t, s) == Ok(Pipe(ParseExec(t, s).value, ParsePipe(t, e + 1).value), ParsePipe(t, e + 1).at)
  {
    hide ParseExec, TokenAt, Skip, At, Peek;
    PeekSymbol(t, e, '|', "|");
  }

  lemma ListJoins(t: Text, s: nat, e: nat)
    requires s <= |t| && ParsePipe(t, s).Ok? && ParsePipe(t, s).at == e && At(t, e, ";") && NoSpace(t, e + 1) && ParseLine(t, e + 1).Ok?
    ensures ParseLine(t, s) == Ok(List(ParsePipe(t, s).value, ParseLine(t, e + 1).value), ParseLine(t, e + 1).at)
  {
    hide ParsePipe, TokenAt, Skip;
    AtChar(t, e, ';');
    SymbolToken(t, e, ';');
    var v := ParsePipe(t, s).value;
    assert ParseAmps(t, v, e) == Ok(v, e);
  }

  lemma BackEnds(t: Text, s: nat, e: nat)
    requires s <= |t| && ParsePipe(t, s).Ok? && ParsePipe(t, s).at == e && At(t, e, "&") && Stop(t, e + 1)
    ensures ParseLine(t, s) == Ok(Back(ParsePipe(t, s).value), e + 1)
  {
    hide ParsePipe, TokenAt;
    AtChar(t, e, '&');
    SymbolToken(t, e, '&');
    var v := ParsePipe(t, s).value;
    assert ParseAmps(t, Back(v), e + 1) == Ok(Back(v), e + 1);
    assert ParseAmps(t, v, e) == Ok(Back(v), e + 1);
  }

  /** Printed commands do not begin with a blank. */
  lemma PrintStarts(c: Cmd<string>, t: Text, s: nat)
    requires Legal(c) && At(t, s, Print(c)) && Stop(t, s + |Print(c)|)
    ensures NoSpace(t, s)
  {
    match c
    case Exec(argv) =>
      ArgsPrinted(argv, t, s, 0);
    case Redir(sub, file, mode) =>
      assert t[s..s + |Print(c)|][0] == '(';
    case Pipe(left, right) =>
      assert t[s..s + |Print(c)|][0] == '(';
    case List(left, right) =>
      assert t[s..s + |Print(c)|][0] == '(';
    case Back(sub) =>
      assert t[s..s + |Print(c)|][0] == '(';
  }

  /** Taking a printed block apart: "(", the line, ")", and the rest. */
  lemma BlockParts(x: string, y: string, t: Text, s: nat)
    requires At(t, s, "(" + (x + (")" + y)))
    ensures At(t, s, "(") && At(t, s + 1, x) && At(t, s + 1 + |x|, ")") && At(t, s + |x| + 2, y) && Stop(t, s + 1 + |x|)
  {
    AtSplit(t, s, "(", x + (")" + y));
    AtSplit(t, s + 1, x, ")" + y);
    AtSplit(t, s + 1 + |x|, ")", y);
    AtChar(t, s + 1 + |x|, ')');
  }

  lemma OneRedir(t: Text, s: nat, op: char, w: Span, n: nat)
    requires At(t, s, [op]) && (op == '<' || op == '>') && TokenAt(t, s) == Token(op, Span(s, s + 1), s + 1) && Skip(t, s) == s
    requires n <= |t| && TokenAt(t, s + 1) == Token('a', w, n) && ParseRedirs(t, n) == Ok([], n)
    ensures ParseRedirs(t, s) == Ok([Redirection(w, if op == '<' then Read else Write)], n)
  {
    hide TokenAt, Skip;
    AtChar(t, s, op);
    assert Peek(t, s, "<>");
    var r := Redirection(w, if op == '<' then Read else Write);
    assert [r] + [] == [r];
  }

  lemma RedirPrinted(file: string, mode: Mode, t: Text, s: nat)
    requires LegalWord(file) && At(t, s, (if mode == Read then "<" else ">") + (file + " ")) && Stop(t, s + |file| + 2)
    ensures NoSpace(t, s)
    ensures ParseRedirs(t, s) == Ok([Redirection(Span(s + 1, s + 1 + |file|), mode)], s + |file| + 2)
    ensures WordOf(t, Span(s + 1, s + 1 + |file|)) == file
  {
    hide ParseRedirs, TokenAt, Skip, WordOf, At;
    var op := if mode == Read then '<' else '>';
    AtSplit(t, s, [op], file + " ");
    AtSplit(t, s + 1, file, " ");
    AtChar(t, s, op);
    WordToken(t, s + 1, file);
    SymbolToken(t, s, op);
    NoRedirs(t, s + |file| + 2);
    OneRedir(t, s, op, Span(s + 1, s + 1 + |file|), s + |file| + 2);
  }

  /** What the round trip says of a command printed at s. */
  ghost predicate ReadsBack(c: Cmd<string>, t: Text, s: nat) {
    s <= |t| && var r := ParseLine(t, s); r.Ok? && r.at == s + |Print(c)| && Meaning(t, r.value) == c
  }

  ghost predicate Printed(c: Cmd<string>, t: Text, s: nat) {
    At(t, s, Print(c)) && Stop(t, s + |Print(c)|)
  }

  /** A command printed in parentheses. */
  lemma ReadBlock(c: Cmd<string>, y: string, t: Text, s: nat)
    requires Legal(c) && At(t, s, "(" + (Print(c) + (")" + y)))
    ensures var e := s + |Print(c)| + 2;
            && Printed(c, t, s + 1) && NoSpace(t, s + 1) && At(t, e, y) && e <= |t|
            && (ReadsBack(c, t, s + 1) && NoSpace(t, e) && CharAt(t, e) != '<' && CharAt(t, e) != '>'
                ==> ParseExec(t, s) == Ok(ParseLine(t, s + 1).value, e))
            && (ReadsBack(c, t, s + 1) && NoSpace(t, e) && ParseRedirs(t, e).Ok?
                ==> ParseExec(t, s) == Ok(Wrap(ParseLine(t, s + 1).value, ParseRedirs(t, e).value), ParseRedirs(t, e).at))
  {
    hide ParseRedirs, ParseExec, ParseLine, Wrap, Print, Legal, At;
    var x := Print(c);
    BlockParts(x, y, t, s);
    PrintStarts(c, t, s + 1);
    AtLength(t, s + |x| + 2, y);
    var e := s + |x| + 2;
    if ReadsBack(c, t, s + 1) && NoSpace(t, e) {
      BlockPrinted(x, t, s);
      if CharAt(t, e) != '<' && CharAt(t, e) != '>' {
        BareBlock(x, t, s);
      }
    }
  }

  lemma AtLength(t: Text, s: nat, x: string)
    requires At(t, s, x)
    ensures s + |x| <= |t|
  {
  }

  lemma RedirReads(sub: Cmd<string>, file: string, mode: Mode, t: Text, s: nat)
    requires Legal(sub) && LegalWord(file) && Printed(Redir(sub, file, mode), t, s) && ReadsBack(sub, t, s + 1)
    ensures ReadsBack(Redir(sub, file, mode), t, s)
  {
    hide ParseRedirs, ParseExec, ParseLine, ParsePipe, At, LegalWord, Legal;
    var y := (if mode == Read then "<" else ">") + (file + " ");
    var e := s + |Print(sub)| + 2;
    ReadBlock(sub, y, t, s);
    RedirPrinted(file, mode, t, e);
    PipeEnds(t, s, e + |y|);
    LineEnds(t, s, e + |y|);
  }

  lemma BackReads(sub: Cmd<string>, t: Text, s: nat)
    requires Legal(sub) && Printed(Back(sub), t, s) && ReadsBack(sub, t, s + 1)
    ensures ReadsBack(Back(sub), t, s)
  {
    hide ParseRedirs, ParseExec, ParseLine, ParsePipe, At, Legal;
    var e := s + |Print(sub)| + 2;
    ReadBlock(sub, "&", t, s);
    AtChar(t, e, '&');
    PipeEnds(t, s, e);
    BackEnds(t, s, e);
  }

  /** "(x)", a symbol, "(y)". */
  lemma TwoParts(x: string, op: char, y: string, t: Text, s: nat)
    requires At(t, s, "(" + (x + (")" + ([op] + ("(" + (y + ")"))))))
    ensures var e := s + |x| + 2;
            && At(t, s, "(") && At(t, s + 1, x) && At(t, s + 1 + |x|, ")") && At(t, e, [op])
            && At(t, e + 1, "(") && At(t, e + 2, y) && At(t, e + 2 + |y|, ")") && e + |y| + 3 <= |t|
  {
    hide At;
    var e := s + |x| + 2;
    BlockParts(x, [op] + ("(" + (y + ")")), t, s);
    AtSplit(t, e, [op], "(" + (y + ")"));
    AtSplit(t, e + 1, "(", y + ")");
    AtSplit(t, e + 2, y, ")");
    AtLength(t, e + 2 + |y|, ")");
  }

  /** Two printed commands in parentheses, with a symbol between. */
  ghost predicate TwoBlocks(left: Cmd<string>, op: char, right: Cmd<string>, t: Text, s: nat) {
    var e := s + |Print(left)| + 2;
    && InBlock(left, t, s) && InBlock(right, t, e + 1) && Stop(t, e + |Print(right)| + 3)
    && s <= e < |t| && At(t, e, [op]) && t[e] == op && NoSpace(t, e + 1)
  }

  ghost predicate InBlock(c: Cmd<string>, t: Text, s: nat) {
    At(t, s, "(") && Printed(c, t, s + 1) && NoSpace(t, s + 1) && At(t, s + 1 + |Print(c)|, ")")
  }

  lemma TwoPlaces(left: Cmd<string>, op: char, right: Cmd<string>, t: Text, s: nat)
    requires Legal(left) && Legal(right)
    requires At(t, s, "(" + (Print(left) + (")" + ([op] + ("(" + (Print(right) + ")"))))))
    requires var e := s + |Print(left)| + 2; Stop(t, e + |Print(right)| + 3)
    ensures TwoBlocks(left, op, right, t, s)
  {
    hide ParseLine, At, Legal, Print;
    var x, y := Print(left), Print(right);
    var e := s + |x| + 2;
    TwoParts(x, op, y, t, s);
    AtChar(t, s + 1 + |x|, ')');
    AtChar(t, e + 2 + |y|, ')');
    AtChar(t, e, op);
    AtChar(t, e + 1, '(');
    PrintStarts(left, t, s + 1);
    PrintStarts(right, t, e + 2);
  }

  lemma BlockReads(c: Cmd<string>, t: Text, s: nat)
    requires InBlock(c, t, s) && ReadsBack(c, t, s + 1)
    requires var e := s + |Print(c)| + 2; NoSpace(t, e) && CharAt(t, e) != '<' && CharAt(t, e) != '>'
    ensures ParseExec(t, s) == Ok(ParseLine(t, s + 1).value, s + |Print(c)| + 2)
  {
    hide ParseExec, ParseLine, At, Print;
    BareBlock(Print(c), t, s);
  }

  lemma LastBlock(c: Cmd<string>, t: Text, s: nat)
    requires InBlock(c, t, s) && ReadsBack(c, t, s + 1) && Stop(t, s + |Print(c)| + 2) && s <= |t|
    ensures ParsePipe(t, s) == ParseLine(t, s) == Ok(ParseLine(t, s + 1).value, s + |Print(c)| + 2)
  {
    hide ParseExec, ParseLine, ParsePipe, At, Print;
    BlockReads(c, t, s);
    PipeEnds(t, s, s + |Print(c)| + 2);
    LineEnds(t, s, s + |Print(c)| + 2);
  }

  lemma PairLength(left: Cmd<string>, right: Cmd<string>)
    ensures |Print(Pipe(left, right))| == |Print(List(left, right))| == |Print(left)| + |Print(right)| + 5
  {
  }

  lemma PipeReads(left: Cmd<string>, right: Cmd<string>, t: Text, s: nat)
    requires TwoBlocks(left, '|', right, t, s) && ReadsBack(left, t, s + 1) && ReadsBack(right, t, s + |Print(left)| + 4)
    ensures ReadsBack(Pipe(left, right), t, s)
  {
    hide ParseExec, ParseLine, ParsePipe, At, InBlock, Print;
    PairLength(left, right);
    var e := s + |Print(left)| + 2;
    BlockReads(left, t, s);
    LastBlock(right, t, e + 1);
    PipeJoins(t, s, e);
    LineEnds(t, s, e + |Print(right)| + 3);
  }

  lemma ListReads(left: Cmd<string>, right: Cmd<string>, t: Text, s: nat)
    requires TwoBlocks(left, ';', right, t, s) && ReadsBack(left, t, s + 1) && ReadsBack(right, t, s + |Print(left)| + 4)
    ensures ReadsBack(List(left, right), t, s)
  {
    hide ParseExec, ParseLine, ParsePipe, At, InBlock, Print;
    PairLength(left, right);
    var e := s + |Print(left)| + 2;
    BlockReads(left, t, s);
    LastBlock(right, t, e + 1);
    PipeEnds(t, s, e);
    ListJoins(t, s, e);
  }

  /** The parser reads back what is printed, wherever it stands. */
  lemma {:induction false} ParsePrinted(c: Cmd<string>, t: Text, s: nat)
    requires Legal(c) && Printed(c, t, s)
    ensures ReadsBack(c, t, s)
    decreases c
  {
    hide ParseLine, At, Meaning, ReadsBack, Printed, Print, TwoBlocks;
    match c
    case Exec(argv) =>
      ExecReads(argv, t, s);
    case Redir(sub, file, mode) =>
      OneInside(c, sub, t, s);
      ParsePrinted(sub, t, s + 1);
      RedirReads(sub, file, mode, t, s);
    case Pipe(left, right) =>
      TwoInside(c, t, s);
      ParsePrinted(left, t, s + 1);
      ParsePrinted(right, t, s + |Print(left)| + 4);
      PipeReads(left, right, t, s);
    case List(left, right) =>
      TwoInside(c, t, s);
      ParsePrinted(left, t, s + 1);
      ParsePrinted(right, t, s + |Print(left)| + 4);
      ListReads(left, right, t, s);
    case Back(sub) =>
      OneInside(c, sub, t, s);
      ParsePrinted(sub, t, s + 1);
      BackReads(sub, t, s);
  }

  lemma OneInside(c: Cmd<string>, sub: Cmd<string>, t: Text, s: nat)
    requires Legal(c) && Printed(c, t, s) && (c == Back(sub) || (c.Redir? && c.sub == sub))
    ensures Printed(sub, t, s + 1)
  {
    hide At, Legal;
    BlockParts(Print(sub), if c.Back? then "&" else (if c.mode == Read then "<" else ">") + (c.file + " "), t, s);
  }

  lemma TwoInside(c: Cmd<string>, t: Text, s: nat)
    requires Legal(c) && Printed(c, t, s) && (c.Pipe? || c.List?)
    ensures TwoBlocks(c.left, if c.Pipe? then '|' else ';', c.right, t, s)
    ensures Printed(c.left, t, s + 1) && Printed(c.right, t, s + |Print(c.left)| + 4)
  {
    hide At;
    TwoPlaces(c.left, if c.Pipe? then '|' else ';', c.right, t, s);
  }

  lemma ExecReads(argv: seq<string>, t: Text, s: nat)
    requires Legal(Exec(argv)) && Printed(Exec(argv), t, s)
    ensures ReadsBack(Exec(argv), t, s)
  {
    hide ParseLine, Meaning, Legal;
    ExecPrinted(argv, t, s);
  }

  // ------------------------------------------------------- the whole text

  ghost predicate NoNul(x: string) {
    forall i :: 0 <= i < |x| ==> x[i] != '\0'
  }

  lemma {:induction false} WordsNoNul(ws: seq<string>)
    requires forall i :: 0 <= i < |ws| ==> LegalWord(ws[i])
    ensures NoNul(PrintWords(ws))
  {
    if ws != [] {
      assert NoNul(ws[0]);
      WordsNoNul(ws[1..]);
    }
  }

  lemma BlockNoNul(x: string, y: string)
    requires NoNul(x) && NoNul(y)
    ensures NoNul("(" + (x + (")" + y)))
  {
  }

  lemma {:induction false} PrintNoNul(c: Cmd<string>)
    requires Legal(c)
    ensures NoNul(Print(c))
  {
    hide NoNul;
    match c
    case Exec(argv) => WordsNoNul(argv);
    case Redir(sub, file, mode) => PrintNoNul(sub); FileNoNul(file, mode); BlockNoNul(Print(sub), (if mode == Read then "<" else ">") + (file + " "));
    case Pipe(left, right) => PrintNoNul(left); PrintNoNul(right); TailNoNul('|', Print(right)); BlockNoNul(Print(left), "|" + ("(" + (Print(right) + ")")));
    case List(left, right) => PrintNoNul(left); PrintNoNul(right); TailNoNul(';', Print(right)); BlockNoNul(Print(left), ";" + ("(" + (Print(right) + ")")));
    case Back(sub) => PrintNoNul(sub); AmpNoNul(); BlockNoNul(Print(sub), "&");
  }

  lemma FileNoNul(file: string, mode: Mode)
    requires LegalWord(file)
    ensures NoNul((if mode == Read then "<" else ">") + (file + " "))
  {
  }

  lemma TailNoNul(op: char, x: string)
    requires NoNul(x) && op != '\0'
    ensures NoNul([op] + ("(" + (x + ")")))
  {
  }

  lemma AmpNoNul()
    ensures NoNul("&")
  {
  }

  /** Parsing undoes printing, on every command with at most nine words to an exec and legal words. */
  lemma RoundTrip(c: Cmd<string>)
    requires Legal(c)
    ensures NoNul(Print(c)) && Parse(Print(c)).Ok? && Meaning(Print(c), Parse(Print(c)).value) == c
  {
    hide Print, Legal, Meaning, ParseLine;
    PrintNoNul(c);
    var t: Text := Print(c);
    assert t[0..|t|] == t;
    ParsePrinted(c, t, 0);
    assert Skip(t, |t|) == |t|;
  }

  lemma {:induction false} WordsLegal(t: Text, ws: seq<Span>)
    requires WordList(t, ws)
    ensures |WordsOf(t, ws)| == |ws| && forall i :: 0 <= i < |ws| ==> LegalWord(WordsOf(t, ws)[i])
  {
    if ws != [] {
      assert IsWord(t, ws[0]) && LegalWord(WordOf(t, ws[0]));
      WordsLegal(t, ws[1..]);
    }
  }

  lemma {:induction false} MeaningLegal(t: Text, c: Cmd<Span>)
    requires AllWords(t, c)
    ensures Legal(Meaning(t, c))
  {
    match c
    case Exec(argv) => WordsLegal(t, argv);
    case Redir(sub, file, mode) =>
      MeaningLegal(t, sub);
      assert IsWord(t, file) && LegalWord(WordOf(t, file));
    case Pipe(left, right) => MeaningLegal(t, left); MeaningLegal(t, right);
    case List(left, right) => MeaningLegal(t, left); MeaningLegal(t, right);
    case Back(sub) => MeaningLegal(t, sub);
  }

  /** Whatever the input, a command that is parsed is legal, and printing and parsing it again changes nothing. */
  lemma ParsedIsNormal(t: Text)
    requires Parse(t).Ok?
    ensures var c := Meaning(t, Parse(t).value);
            Legal(c) && NoNul(Print(c)) && Parse(Print(c)).Ok? && Meaning(Print(c), Parse(Print(c)).value) == c
  {
    hide Parse, Meaning, Legal, Print;
    MeaningLegal(t, Parse(t).value);
    RoundTrip(Meaning(t, Parse(t).value));
  }
}
