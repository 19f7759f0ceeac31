/**
 sh.c's parser as it runs: a cursor moved over the input buffer, and nulterminate writing
 NULs into the buffer at the end of every word.
 */
module Shell {
  import opened Basics
  import opened ShellGrammar

  // ---------------------------------------------- words after nulterminate

  /** Positions just past the words of a command. */
  function Ends(c: Cmd<Span>): set<nat> {
    match c
    case Exec(argv) => EndsOf(argv)
    case Redir(sub, file, mode) => Ends(sub) + {file.eq}
    case Pipe(left, right) => Ends(left) + Ends(right)
    case List(left, right) => Ends(left) + Ends(right)
    case Back(sub) => Ends(sub)
  }

  function EndsOf(ws: seq<Span>): set<nat> {
    if ws == [] then {} else EndsOf(ws[..|ws| - 1]) + {ws[|ws| - 1].eq}
  }

  /** w is a word of the command: an argument or a file name. */
  ghost predicate HasWord(c: Cmd<Span>, w: Span) {
    match c
    case Exec(argv) => w in argv
    case Redir(sub, file, mode) => w == file || HasWord(sub, w)
    case Pipe(left, right) => HasWord(left, w) || HasWord(right, w)
    case List(left, right) => HasWord(left, w) || HasWord(right, w)
    case Back(sub) => HasWord(sub, w)
  }

  lemma {:induction false} EndsOfWords(t: Text, ws: seq<Span>)
    requires WordList(t, ws)
    ensures forall k: nat :: k in EndsOf(ws) ==> k <= |t| && (k < |t| ==> !WordChar(t[k]))
    ensures forall w :: w in ws ==> w.eq in EndsOf(ws)
  {
    if ws != [] {
      var n := |ws| - 1;
      EndsOfWords(t, ws[..n]);
      assert IsWord(t, ws[n]);
      assert forall w :: w in ws <==> w in ws[..n] || w == ws[n];
    }
  }

  /** No end lies within a word. */
  lemma {:induction false} EndsOutside(t: Text, c: Cmd<Span>)
    requires AllWords(t, c)
    ensures forall k: nat :: k in Ends(c) ==> k <= |t| && (k < |t| ==> !WordChar(t[k]))
    ensures forall w :: HasWord(c, w) ==> w.eq in Ends(c) && IsWord(t, w)
  {
    match c
    case Exec(argv) => EndsOfWords(t, argv);
    case Redir(sub, file, mode) => EndsOutside(t, sub);
    case Pipe(left, right) => EndsOutside(t, left); EndsOutside(t, right);
    case List(left, right) => EndsOutside(t, left); EndsOutside(t, right);
    case Back(sub) => EndsOutside(t, sub);
  }

  /** The C string at q: up to the first NUL. */
  function CString(m: seq<char>, q: nat): string
    decreases |m| - q
  {
    if q >= |m| || m[q] == '\0' then "" else [m[q]] + CString(m, q + 1)
  }

  lemma {:induction false} CStringIs(m: seq<char>, q: nat, eq: nat)
    requires q <= eq < |m| && m[eq] == '\0' && forall i :: q <= i < eq ==> m[i] != '\0'
    ensures CString(m, q) == m[q..eq]
    decreases eq - q
  {
    if q < eq {
      CStringIs(m, q + 1, eq);
      assert m[q..eq] == [m[q]] + m[q + 1..eq];
    }
  }

  /** With NULs at all the ends, every word is a C string of its own. */
  lemma WordsAreStrings(t: Text, c: Cmd<Span>, m: seq<char>, w: Span)
    requires AllWords(t, c) && |m| == |t| + 1 && HasWord(c, w)
    requires forall k :: 0 <= k < |m| ==> m[k] == if k in Ends(c) || k == |t| then '\0' else t[k]
    ensures CString(m, w.q) == WordOf(t, w)
  {
    EndsOutside(t, c);
    assert w.eq in Ends(c) && IsWord(t, w);
    forall i | w.q <= i < w.eq
      ensures m[i] == t[i]
    {
      assert WordChar(t[i]);
    }
    CStringIs(m, w.q, w.eq);
    assert m[w.q..w.eq] == t[w.q..w.eq];
  }

  // -------------------------------------------------------------- the code

  class Parser {
    const buf: array<char>
    const es: nat
    var s: nat
    ghost const text: Text

    constructor (buf: array<char>, ghost text: Text)
      requires buf.Length == |text| + 1 && buf[..|text|] == text && buf[|text|] == '\0'
      ensures this.buf == buf && this.text == text && s == 0 && Valid()
    {
      this.buf, this.text, s, es := buf, text, 0, buf.Length - 1;
    }

    ghost predicate Valid()
      reads this, buf
    {
      s <= es == |text| && buf.Length == es + 1 && buf[..es] == text && buf[es] == '\0'
    }

    method SkipSpaces()
      requires Valid()
      modifies this`s
      ensures Valid() && s == Skip(text, old(s))
    {
      while s < es && buf[s] in WHITESPACE
        invariant Valid() && Skip(text, s) == Skip(text, old(s))
      {
        assert text[s] == buf[s];
        s := s + 1;
      }
      assert s < es ==> text[s] == buf[s];
    }

    method SkipWord()
      requires Valid()
      modifies this`s
      ensures Valid() && s == WordEnd(text, old(s))
    {
      while s < es && buf[s] !in WHITESPACE && buf[s] !in SYMBOLS
        invariant Valid() && WordEnd(text, s) == WordEnd(text, old(s))
      {
        assert text[s] == buf[s];
        s := s + 1;
      }
      assert s < es ==> text[s] == buf[s];
    }

    method Gettoken() returns (kind: char, w: Span)
      requires Valid()
      modifies this`s
      ensures Valid() && TokenAt(text, old(s)) == Token(kind, w, s)
    {
      SkipSpaces();
      var q := s;
      kind := buf[s];
      assert kind == CharAt(text, s);
      if kind == '\0' {
      } else if kind == '>' {
        s := s + 1;
        assert buf[s] == CharAt(text, s);
        if buf[s] == '>' {
          kind := '+';
          s := s + 1;
        }
      } else if kind in SYMBOLS {
        s := s + 1;
      } else {
        kind := 'a';
        SkipWord();
      }
      w := Span(q, s);
      SkipSpaces();
    }

    method Peek(toks: string) returns (b: bool)
      requires Valid()
      modifies this`s
      ensures Valid() && s == Skip(text, old(s)) && b == ShellGrammar.Peek(text, old(s), toks)
    {
      SkipSpaces();
      assert s < es ==> text[s] == buf[s];
      b := s < es && buf[s] in toks;
    }

    /** nulterminate on the words of one exec command. */
    method Terminate(argv: seq<Span>)
      requires forall i :: 0 <= i < |argv| ==> argv[i].eq < buf.Length
      modifies buf
      ensures forall k :: 0 <= k < buf.Length ==> buf[k] == if k in EndsOf(argv) then '\0' else old(buf[k])
    {
      var i := 0;
      while i < |argv|
        invariant i <= |argv|
        invariant forall k :: 0 <= k < buf.Length ==> buf[k] == if k in EndsOf(argv[..i]) then '\0' else old(buf[k])
      {
        buf[argv[i].eq] := '\0';
        assert argv[..i + 1][..i] == argv[..i];
        i := i + 1;
      }
      assert argv[..i] == argv;
    }

    /** nulterminate: a NUL at the end of every word, and nowhere else. */
    method Nulterminate(c: Cmd<Span>)
      requires AllWords(text, c) && buf.Length == |text| + 1
      modifies buf
      ensures forall k :: 0 <= k < buf.Length ==> buf[k] == if k in Ends(c) then '\0' else old(buf[k])
      decreases c
    {
      match c
      case Exec(argv) =>
        assert forall i :: 0 <= i < |argv| ==> IsWord(text, argv[i]);
        Terminate(argv);
      case Redir(sub, file, mode) =>
        Nulterminate(sub);
        buf[file.eq] := '\0';
      case Pipe(left, right) =>
        Nulterminate(left);
        Nulterminate(right);
      case List(left, right) =>
        Nulterminate(left);
        Nulterminate(right);
      case Back(sub) =>
        Nulterminate(sub);
    }

    /** parseredirs; the caller wraps its command in them. */
    method Parseredirs() returns (r: Res<seq<Redirection>>)
      requires Valid()
      modifies this`s
      ensures Valid() && r == ParseRedirs(text, old(s)) && (r.Ok? ==> s == r.at)
    {
      ghost var p := ParseRedirs(text, s);
      assert p.Ok? ==> [] + p.value == p.value;
      var rs := [];
      while true
        invariant Valid()
        invariant p == AfterRedirs(rs, ParseRedirs(text, s))
        decreases es - s
      {
        ghost var s0 := s;
        UnfoldRedirs(text, s);
        var more := Peek("<>");
        if !more {
          assert rs + [] == rs;
          return Ok(rs, s);
        }
        SameToken(text, s0);
        var tok, _ := Gettoken();
        var kind, w := Gettoken();
        if kind != 'a' {
          return Fail;
        }
        RedirsMore(rs, Redirection(w, if tok == '<' then Read else Write), ParseRedirs(text, s));
        rs := rs + [Redirection(w, if tok == '<' then Read else Write)];
      }
    }

    method Parseexec() returns (r: Res<Cmd<Span>>)
      requires Valid()
      modifies this`s
      ensures Valid() && r == ParseExec(text, old(s)) && (r.Ok? ==> s == r.at)
      decreases es - s, 1
    {
      hide ParseLine, ParseRedirs, ParseArgs, TokenAt, Skip;
      var block := Peek("(");
      SkipTwice(text, old(s));
      ExecAfterSkip(text, old(s));
      if block {
        r := Parseblock();
        return;
      }
      var rs := Parseredirs();
      if rs.Fail? {
        return Fail;
      }
      var args := Parseargs();
      if args.Fail? {
        return Fail;
      }
      r := Ok(Wrap(Exec(args.value.argv), rs.value + args.value.redirs), args.at);
    }

    /** parseexec's loop: words, each with the redirections that follow it. */
    method Parseargs() returns (r: Res<Args>)
      requires Valid()
      modifies this`s
      ensures Valid() && r == ParseArgs(text, old(s), 0) && (r.Ok? ==> s == r.at)
    {
      hide ParseArgs, TokenAt, Skip, ParseRedirs;
      ghost var p := ParseArgs(text, s, 0);
      var argv, redirs := [], [];
      assert p.Ok? ==> [] + p.value.argv == p.value.argv && [] + p.value.redirs == p.value.redirs;
      while true
        invariant Valid() && |argv| < MAXARGS
        invariant p == AfterArgs(argv, redirs, ParseArgs(text, s, |argv|))
        decreases es - s
      {
        ghost var s0 := s;
        UnfoldArgs(text, s, |argv|);
        var stop := Peek("|)&;");
        if stop {
          assert argv + [] == argv && redirs + [] == redirs;
          return Ok(Args(argv, redirs), s);
        }
        SameToken(text, s0);
        var tok, w := Gettoken();
        if tok == '\0' {
          assert argv + [] == argv && redirs + [] == redirs;
          return Ok(Args(argv, redirs), s);
        }
        if tok != 'a' || |argv| + 1 >= MAXARGS {
          return Fail;
        }
        var rs := Parseredirs();
        if rs.Fail? {
          return Fail;
        }
        ArgsMore(argv, redirs, w, rs.value, ParseArgs(text, s, |argv| + 1));
        argv, redirs := argv + [w], redirs + rs.value;
      }
    }

    method Parseblock() returns (r: Res<Cmd<Span>>)
      requires Valid() && ShellGrammar.Peek(text, s, "(")
      modifies this`s
      ensures Valid() && r == ParseExec(text, old(s)) && (r.Ok? ==> s == r.at)
      decreases es - s, 0
    {
      hide ParseLine, ParseRedirs, ParseArgs, TokenAt, Skip, ShellGrammar.Peek;
      PeekConsumes(text, s, "(");
      var _, _ := Gettoken();
      var line := Parseline();
      if line.Fail? {
        return Fail;
      }
      var closed := Peek(")");
      if !closed {
        return Fail;
      }
      SameToken(text, line.at);
      var _, _ := Gettoken();
      var rs := Parseredirs();
      if rs.Fail? {
        return Fail;
      }
      r := Ok(Wrap(line.value, rs.value), s);
    }

    method Parsepipe() returns (r: Res<Cmd<Span>>)
      requires Valid()
      modifies this`s
      ensures Valid() && r == ParsePipe(text, old(s)) && (r.Ok? ==> s == r.at)
      decreases es - s, 2
    {
      hide ParseExec, TokenAt, Skip, ShellGrammar.Peek;
      var first := Parseexec();
      if first.Fail? {
        return Fail;
      }
      var more := Peek("|");
      if !more {
        return Ok(first.value, s);
      }
      SameToken(text, first.at);
      PeekConsumes(text, first.at, "|");
      var _, _ := Gettoken();
      var rest := Parsepipe();
      r := if rest.Fail? then Fail else Ok(Pipe(first.value, rest.value), rest.at);
    }

    /** parseline's loop over &. */
    method Parseamps(first: Cmd<Span>) returns (c: Cmd<Span>)
      requires Valid() && AllWords(text, first)
      modifies this`s
      ensures Valid() && ParseAmps(text, first, old(s)) == Ok(c, s)
    {
      hide TokenAt, Skip, ShellGrammar.Peek;
      c := first;
      SkipTwice(text, s);
      AmpsAfterSkip(text, c, s);
      var more := Peek("&");
      while more
        invariant Valid() && AllWords(text, c) && Skip(text, s) == s
        invariant more == ShellGrammar.Peek(text, s, "&")
        invariant ParseAmps(text, c, s) == ParseAmps(text, first, old(s))
        decreases es - s
      {
        PeekConsumes(text, s, "&");
        var _, _ := Gettoken();
        c := Back(c);
        SkipTwice(text, s);
        AmpsAfterSkip(text, c, s);
        more := Peek("&");
      }
    }

    method Parseline() returns (r: Res<Cmd<Span>>)
      requires Valid()
      modifies this`s
      ensures Valid() && r == ParseLine(text, old(s)) && (r.Ok? ==> s == r.at)
      decreases es - s, 3
    {
      hide ParsePipe, ParseAmps, TokenAt, Skip, ShellGrammar.Peek;
      var first := Parsepipe();
      if first.Fail? {
        return Fail;
      }
      var c := Parseamps(first.value);
      ghost var at := s;
      SkipTwice(text, at);
      SameToken(text, at);
      var more := Peek(";");
      if !more {
        return Ok(c, s);
      }
      PeekConsumes(text, at, ";");
      var _, _ := Gettoken();
      var rest := Parseline();
      r := if rest.Fail? then Fail else Ok(List(c, rest.value), rest.at);
    }

    /** parsecmd: on success every word of the command is a C string in the buffer. */
    method Parsecmd() returns (r: Res<Cmd<Span>>)
      requires Valid() && s == 0
      modifies this`s, buf
      ensures r == Parse(text)
      ensures r.Ok? ==> forall w :: HasWord(r.value, w) ==> CString(buf[..], w.q) == WordOf(text, w)
    {
      var line := Parseline();
      if line.Fail? {
        return Fail;
      }
      var _ := Peek("");
      if s != es {
        return Fail;
      }
      Nulterminate(line.value);
      r := Ok(line.value, es);
      forall w | HasWord(r.value, w)
        ensures CString(buf[..], w.q) == WordOf(text, w)
      {
        WordsAreStrings(text, r.value, buf[..], w);
      }
    }
  }

  function AfterArgs(argv: seq<Span>, redirs: seq<Redirection>, rest: Res<Args>): Res<Args> {
    if rest.Fail? then Fail else Ok(Args(argv + rest.value.argv, redirs + rest.value.redirs), rest.at)
  }

  lemma ArgsMore(argv: seq<Span>, redirs: seq<Redirection>, w: Span, rs: seq<Redirection>, rest: Res<Args>)
    ensures AfterArgs(argv, redirs, AfterArgs([w], rs, rest)) == AfterArgs(argv + [w], redirs + rs, rest)
  {
    if rest.Ok? {
      assert argv + ([w] + rest.value.argv) == argv + [w] + rest.value.argv;
      assert redirs + (rs + rest.value.redirs) == redirs + rs + rest.value.redirs;
    }
  }

  lemma UnfoldArgs(t: Text, s: nat, argc: nat)
    requires s <= |t| && argc < MAXARGS
    ensures var tok := TokenAt(t, s);
            if ShellGrammar.Peek(t, s, "|)&;") then ParseArgs(t, s, argc) == Ok(Args([], []), Skip(t, s))
            else if tok.kind == '\0' then ParseArgs(t, s, argc) == Ok(Args([], []), tok.next)
            else if tok.kind != 'a' || argc + 1 >= MAXARGS || ParseRedirs(t, tok.next).Fail? then ParseArgs(t, s, argc) == Fail
            else var rs := ParseRedirs(t, tok.next);
                 s < tok.next && ParseArgs(t, s, argc) == AfterArgs([tok.span], rs.value, ParseArgs(t, rs.at, argc + 1))
  {
    hide TokenAt, Skip, ParseRedirs, ShellGrammar.Peek;
  }

  lemma SkipTwice(t: Text, s: nat)
    requires s <= |t|
    ensures Skip(t, Skip(t, s)) == Skip(t, s)
    ensures forall toks: string :: ShellGrammar.Peek(t, Skip(t, s), toks) == ShellGrammar.Peek(t, s, toks)
  {
  }

  /** Skipping blanks first makes no difference. */
  lemma ExecAfterSkip(t: Text, s: nat)
    requires s <= |t|
    ensures ParseExec(t, Skip(t, s)) == ParseExec(t, s)
  {
    hide ParseLine, ParseArgs;
    SameToken(t, s);
    SkipTwice(t, s);
    RedirsAfterSkip(t, s);
  }

  lemma RedirsAfterSkip(t: Text, s: nat)
    requires s <= |t|
    ensures ParseRedirs(t, Skip(t, s)) == ParseRedirs(t, s)
  {
    SameToken(t, s);
    SkipTwice(t, s);
    UnfoldRedirs(t, s);
    UnfoldRedirs(t, Skip(t, s));
  }

  lemma AmpsAfterSkip(t: Text, c: Cmd<Span>, s: nat)
    requires s <= |t| && AllWords(t, c)
    ensures ParseAmps(t, c, Skip(t, s)) == ParseAmps(t, c, s)
  {
    SameToken(t, s);
    SkipTwice(t, s);
  }

  function AfterRedirs(rs: seq<Redirection>, rest: Res<seq<Redirection>>): Res<seq<Redirection>> {
    if rest.Fail? then Fail else Ok(rs + rest.value, rest.at)
  }

  lemma RedirsMore(rs: seq<Redirection>, r: Redirection, rest: Res<seq<Redirection>>)
    ensures AfterRedirs(rs, AfterRedirs([r], rest)) == AfterRedirs(rs + [r], rest)
  {
    if rest.Ok? {
      assert rs + ([r] + rest.value) == rs + [r] + rest.value;
    }
  }

  /** peek moves the cursor past blanks, which changes no token. */
  lemma SameToken(t: Text, s: nat)
    requires s <= |t|
    ensures Skip(t, Skip(t, s)) == Skip(t, s) && TokenAt(t, Skip(t, s)) == TokenAt(t, s)
  {
  }

  lemma UnfoldRedirs(t: Text, s: nat)
    requires s <= |t|
    ensures !ShellGrammar.Peek(t, s, "<>") ==> ParseRedirs(t, s) == Ok([], Skip(t, s))
    ensures ShellGrammar.Peek(t, s, "<>") ==>
              var tok := TokenAt(t, s);
              var w := TokenAt(t, tok.next);
              && s < tok.next && (w.kind != 'a' ==> ParseRedirs(t, s) == Fail)
              && (w.kind == 'a' ==> ParseRedirs(t, s) == AfterRedirs([Redirection(w.span, if tok.kind == '<' then Read else Write)], ParseRedirs(t, w.next)))
  {
    if ShellGrammar.Peek(t, s, "<>") {
      PeekConsumes(t, s, "<>");
    }
  }
}
