/** The shell's parser on the text of a command. */
module ShellText {
  // gettoken and peek walk over the characters; the parser follows
  // ShellGrammar token by token; nulterminate cuts the words out of the text.
  // Nodes are values: what parseexec stores into a node it has already wrapped
  // is kept aside until the end.

  import opened Options
  import opened ShellGrammar

  const WHITESPACE := " \t\r\n\U{000B}"
  const SYMBOLS := "<|>&;()"

  /** A word of the text: where it begins and where it ends. */
  datatype Span = Span(q: nat, eq: nat)

  predicate IsWordChar(c: char) { c !in WHITESPACE && c !in SYMBOLS && c != '\0' }

  // A string without its terminator.
  predicate IsText(t: string) { forall k :: 0 <= k < |t| ==> t[k] != '\0' }

  // ---- the tokens of a text ----

  function Skipped(t: string, i: nat): (j: nat)
    requires i <= |t|
    ensures i <= j <= |t| && (forall k :: i <= k < j ==> t[k] in WHITESPACE) && (j < |t| ==> t[j] !in WHITESPACE)
    decreases |t| - i
  {
    if i < |t| && t[i] in WHITESPACE then Skipped(t, i + 1) else i
  }

  function WordEnd(t: string, i: nat): (j: nat)
    requires i <= |t|
    ensures i <= j <= |t| && (forall k :: i <= k < j ==> t[k] !in WHITESPACE && t[k] !in SYMBOLS)
    ensures j < |t| ==> t[j] in WHITESPACE || t[j] in SYMBOLS
    decreases |t| - i
  {
    if i < |t| && t[i] !in WHITESPACE && t[i] !in SYMBOLS then WordEnd(t, i + 1) else i
  }

  // The token that begins at j.
  function TokenAt(t: string, j: nat): Tok<Span>
    requires j < |t| && t[j] !in WHITESPACE
  {
    if t[j] == '>' && j + 1 < |t| && t[j + 1] == '>' then Sym('+')
    else if t[j] in SYMBOLS then Sym(t[j])
    else Word(Span(j, WordEnd(t, j)))
  }

  function TokenEnd(t: string, j: nat): (e: nat)
    requires j < |t| && t[j] !in WHITESPACE
    ensures j < e <= |t|
  {
    if t[j] == '>' && j + 1 < |t| && t[j + 1] == '>' then j + 2
    else if t[j] in SYMBOLS then j + 1
    else WordEnd(t, j)
  }

  // The tokens from position i on.
  function Lex(t: string, i: nat): seq<Tok<Span>>
    requires i <= |t|
    decreases |t| - i
  {
    var j := Skipped(t, i);
    if j == |t| then [] else [TokenAt(t, j)] + Lex(t, TokenEnd(t, j))
  }

  lemma {:induction false} LexSkipped(t: string, i: nat)
    requires i <= |t|
    ensures Lex(t, Skipped(t, i)) == Lex(t, i)
  {
  }

  // What single characters are, and >>.
  lemma Characters(c: char)
    ensures c in " \t\r\n\U{000B}" ==> Lex([c], 0) == []
    ensures c in "<>|&;()" ==> Lex([c], 0) == [Sym(c)]
    ensures c !in " \t\r\n\U{000B}" && c !in "<>|&;()" ==> Lex([c], 0) == [Word(Span(0, 1))]
    ensures Lex(">>", 0) == [Sym('+')]
  {
    assert Lex([c], 1) == [] && Lex(">>", 2) == [];
    assert c !in WHITESPACE && c !in SYMBOLS ==> WordEnd([c], 0) == 1;
  }

  // What gettoken returns for a token.
  function Code(tok: Tok<Span>): char { if tok.Sym? then tok.c else 'a' }

  lemma LexHead(t: string, i: nat)
    requires i <= |t| && Lex(t, i) != []
    ensures var j := Skipped(t, i);
      j < |t| && Lex(t, i)[0] == TokenAt(t, j) && Lex(t, i)[1..] == Lex(t, TokenEnd(t, j))
  {
    hide TokenAt, TokenEnd;
  }

  // ---- gettoken and peek ----

  method Skip(t: string, s0: nat) returns (s: nat)
    requires s0 <= |t|
    ensures s == Skipped(t, s0)
  {
    s := s0;
    while s < |t| && t[s] in WHITESPACE
      invariant s0 <= s <= |t| && Skipped(t, s) == Skipped(t, s0)
    {
      s := s + 1;
    }
  }

  // ret is 0 at the end of the text; a word is t[q..eq].
  method GetToken(t: string, s0: nat) returns (ret: char, q: nat, eq: nat, s: nat)
    requires s0 <= |t| && IsText(t)
    ensures s0 <= s <= |t|
    ensures ret == '\0' <==> Lex(t, s0) == []
    ensures Lex(t, s0) == [] ==> Lex(t, s) == []
    ensures Lex(t, s0) != [] ==> ret == Code(Lex(t, s0)[0]) && Lex(t, s) == Lex(t, s0)[1..]
    ensures Lex(t, s0) != [] && Lex(t, s0)[0].Word? ==> Lex(t, s0)[0] == Word(Span(q, eq))
    ensures ret == 'a' <==> Lex(t, s0) != [] && Lex(t, s0)[0].Word?
  {
    s := Skip(t, s0);
    q := s;
    if s == |t| {
      eq := s;
      LexSkipped(t, s0);
      return '\0', q, eq, s;
    }
    LexHead(t, s0);
    ghost var end := TokenEnd(t, s);
    ret := t[s];
    if ret == '>' {
      s := s + 1;
      if s < |t| && t[s] == '>' {
        ret := '+';
        s := s + 1;
      }
    } else if ret in SYMBOLS {
      s := s + 1;
    } else {
      ret := 'a';
      while s < |t| && t[s] !in WHITESPACE && t[s] !in SYMBOLS
        invariant q <= s <= |t| && WordEnd(t, s) == WordEnd(t, q)
      {
        s := s + 1;
      }
    }
    assert s == end;
    eq := s;
    LexSkipped(t, s);
    s := Skip(t, s);
  }

  // The token at s begins with a character of toks.
  predicate Peeked(ts: seq<Tok<Span>>, toks: string)
  {
    ts != [] && ts[0].Sym? && (if ts[0].c == '+' then '>' else ts[0].c) in toks
  }

  method Peek(t: string, s0: nat, toks: string) returns (b: bool, s: nat)
    requires s0 <= |t| && forall c :: c in toks ==> c in SYMBOLS
    ensures s == Skipped(t, s0) && Lex(t, s) == Lex(t, s0)
    ensures b == Peeked(Lex(t, s0), toks)
  {
    LexSkipped(t, s0);
    s := Skip(t, s0);
    b := s < |t| && t[s] in toks;
    if s < |t| { LexHead(t, s0); }
  }

  // ---- the parser ----

  lemma {:induction false} LexSymbols(t: string, i: nat, k: nat)
    requires i <= |t| && k < |Lex(t, i)| && Lex(t, i)[k].Sym?
    ensures Lex(t, i)[k].c in SYMBOLS || Lex(t, i)[k].c == '+'
    decreases |t| - i
  {
    LexHead(t, i);
    var j := Skipped(t, i);
    if k > 0 { LexSymbols(t, TokenEnd(t, j), k - 1); }
  }

  // What peek finds, in the words of the grammar.
  lemma PeekedIs(t: string, i: nat, toks: string)
    requires i <= |t|
    ensures Peeked(Lex(t, i), "<>") == Begins(Lex(t, i), REDIRS)
    ensures '>' !in toks && '+' !in toks ==> Peeked(Lex(t, i), toks) == Begins(Lex(t, i), toks)
  {
    if Lex(t, i) != [] && Lex(t, i)[0].Sym? { LexSymbols(t, i, 0); }
  }

  // A redirection that lacks its file.
  predicate Stuck(ts: seq<Tok<Span>>) { Begins(ts, REDIRS) && (|ts| == 1 || !ts[1].Word?) }

  // reds stands before what is left at the end; or before a redirection that
  // lacks its file.
  ghost predicate RedsRead(ts: seq<Tok<Span>>, ok: bool, reds: seq<Red<Span>>, rest: seq<Tok<Span>>)
  {
    && RedsFit(reds) && ts == RedTokens(reds) + rest
    && if ok then !Begins(rest, REDIRS) else Stuck(rest)
  }

  lemma {:induction false} RedTokensMore<T>(reds: seq<Red<T>>, red: Red<T>)
    ensures RedTokens(reds + [red]) == RedTokens(reds) + [Sym(red.c), Word(red.file)]
  {
    if reds == [] {
      assert [] + [red] == [red] && [red][1..] == [];
    } else {
      RedTokensMore(reds[1..], red);
      assert (reds + [red])[1..] == reds[1..] + [red] && (reds + [red])[0] == reds[0];
    }
  }

  lemma RedTurn(all: seq<Tok<Span>>, reds: seq<Red<Span>>, ts: seq<Tok<Span>>, red: Red<Span>)
    requires all == RedTokens(reds) + ts && |ts| > 1 && ts[0] == Sym(red.c) && ts[1] == Word(red.file)
    ensures all == RedTokens(reds + [red]) + ts[2..]
  {
    hide RedTokens;
    RedTokensMore(reds, red);
    assert ts == [Sym(red.c), Word(red.file)] + ts[2..];
  }

  // parseredirs; ok is false for its panic.
  method ParseRedirections(t: string, s0: nat) returns (ok: bool, reds: seq<Red<Span>>, s: nat)
    requires s0 <= |t| && IsText(t)
    ensures s <= |t|
    ensures if ok then RedsRead(Lex(t, s0), ok, reds, Lex(t, s))
            else exists rest :: RedsRead(Lex(t, s0), ok, reds, rest)
  {
    hide Lex, RedTokens;
    reds := [];
    var more;
    more, s := Peek(t, s0, "<>");
    PeekedIs(t, s0, "");
    assert RedTokens<Span>([]) == [] && Lex(t, s0) == [] + Lex(t, s) by { NoReds(Lex(t, s)); }
    while more
      invariant s <= |t| && RedsFit(reds) && Lex(t, s0) == RedTokens(reds) + Lex(t, s)
      invariant more == Begins(Lex(t, s), REDIRS)
      decreases |Lex(t, s)|
    {
      ghost var ts := Lex(t, s);
      var tok, q, eq, ret;
      tok, q, eq, s := GetToken(t, s);
      ret, q, eq, s := GetToken(t, s);
      if ret != 'a' {
        assert RedsRead(Lex(t, s0), false, reds, ts);
        return false, reds, s;
      }
      RedTurn(Lex(t, s0), reds, ts, Red(tok, Span(q, eq)));
      reds := reds + [Red(tok, Span(q, eq))];
      PeekedIs(t, s, "");
      more, s := Peek(t, s, "<>");
    }
    ok := true;
  }

  lemma NoReds(ts: seq<Tok<Span>>)
    ensures RedTokens<Span>([]) == [] && ts == [] + ts
  {
  }

  lemma FirstRed(reds: seq<Red<Span>>, rest: seq<Tok<Span>>)
    requires reds != []
    ensures RedTokens(reds) + rest == [Sym(reds[0].c), Word(reds[0].file)] + (RedTokens(reds[1..]) + rest)
  {
  }

  // What that means for the callers.
  lemma {:induction false} RedsThenWords(argv: seq<Span>, done: seq<Red<Span>>, reds: seq<Red<Span>>,
      rest: seq<Tok<Span>>)
    requires RedsFit(reds)
    ensures ParseWords(argv, done, RedTokens(reds) + rest) == ParseWords(argv, done + reds, rest)
    decreases |reds|
  {
    hide ParseWords, RedTokens;
    if reds == [] {
      NoReds(rest);
      assert done + reds == done;
    } else {
      var tail := RedTokens(reds[1..]) + rest;
      FirstRed(reds, rest);
      WordsRed(argv, done, reds[0], tail);
      RedsThenWords(argv, done + [reds[0]], reds[1..], rest);
      assert done + [reds[0]] + reds[1..] == done + reds;
    }
  }

  lemma {:induction false} RedsThenStuck(cmd: Cmd<Span>, done: seq<Red<Span>>, reds: seq<Red<Span>>,
      rest: seq<Tok<Span>>)
    requires RedsFit(reds) && Stuck(rest)
    ensures ParseRedirs(cmd, done, RedTokens(reds) + rest).Fail?
    decreases |reds|
  {
    hide Wrapped;
    if reds == [] {
      assert RedTokens(reds) + rest == rest;
    } else {
      var tail := RedTokens(reds[1..]) + rest;
      var ts := RedTokens(reds) + rest;
      assert ts == [Sym(reds[0].c), Word(reds[0].file)] + tail && ts[2..] == tail;
      RedsThenStuck(cmd, done + [reds[0]], reds[1..], rest);
    }
  }

  lemma StuckWords(argv: seq<Span>, reds: seq<Red<Span>>, ts: seq<Tok<Span>>)
    requires Stuck(ts)
    ensures ParseWords(argv, reds, ts).Fail?
  {
  }

  // A call of a parser function has read what the grammar says, from s0 to s.
  predicate Reads(t: string, r: Option<Cmd<Span>>, s: nat, parsed: Parsed<Span>)
  {
    s <= |t| && match parsed
    case Fail => r.None?
    case Done(cmd, rest) => r == Some(cmd) && Lex(t, s) == rest
  }

  method ParseLineText(t: string, s0: nat) returns (r: Option<Cmd<Span>>, s: nat)
    requires s0 <= |t| && IsText(t)
    ensures Reads(t, r, s, ParseLine(Lex(t, s0)))
    decreases |Lex(t, s0)|, 3
  {
    hide Lex, ParsePipe, ParseBacks;
    r, s := ParsePipeText(t, s0);
    if r.None? {
      return;
    }
    var cmd := r.value;
    ghost var cmd0, rest0 := cmd, Lex(t, s);
    PeekedIs(t, s, "&");
    var more;
    more, s := Peek(t, s, "&");
    while more
      invariant s <= |t| && ParseBacks(cmd, Lex(t, s)) == ParseBacks(cmd0, rest0)
      invariant more == Begins(Lex(t, s), "&") && |Lex(t, s)| <= |rest0|
      decreases |Lex(t, s)|
    {
      BacksTurn(cmd, Lex(t, s));
      var _, q, eq, s1 := GetToken(t, s);
      cmd := Back(cmd);
      PeekedIs(t, s1, "&");
      more, s := Peek(t, s1, "&");
    }
    BacksTurn(cmd, Lex(t, s));
    PeekedIs(t, s, ";");
    more, s := Peek(t, s, ";");
    if more {
      var _, q, eq, s1 := GetToken(t, s);
      var r1;
      r1, s := ParseLineText(t, s1);
      r := if r1.None? then None else Some(List(cmd, r1.value));
    } else {
      r := Some(cmd);
    }
  }

  method ParsePipeText(t: string, s0: nat) returns (r: Option<Cmd<Span>>, s: nat)
    requires s0 <= |t| && IsText(t)
    ensures Reads(t, r, s, ParsePipe(Lex(t, s0)))
    decreases |Lex(t, s0)|, 2
  {
    hide Lex, ParseExec;
    PipeStep(Lex(t, s0));
    r, s := ParseExecText(t, s0);
    if r.None? {
      return;
    }
    PeekedIs(t, s, "|");
    var more;
    more, s := Peek(t, s, "|");
    if more {
      var _, q, eq, s1 := GetToken(t, s);
      var r1;
      r1, s := ParsePipeText(t, s1);
      r := if r1.None? then None else Some(Pipe(r.value, r1.value));
    }
  }

  method ParseBlockText(t: string, s0: nat) returns (r: Option<Cmd<Span>>, s: nat)
    requires s0 <= |t| && IsText(t) && Begins(Lex(t, s0), "(")
    ensures Reads(t, r, s, ParseExec(Lex(t, s0)))
    decreases |Lex(t, s0)|, 0
  {
    hide Lex, ParseExec, ParseLine, ParseRedirs, ParseWords, Wrapped;
    ExecStep(Lex(t, s0));
    var _, q, eq, s1 := GetToken(t, s0);
    r, s := ParseLineText(t, s1);
    if r.None? {
      return;
    }
    PeekedIs(t, s, ")");
    var b;
    b, s := Peek(t, s, ")");
    if !b {
      return None, s;
    }
    var _, q1, eq1, s2 := GetToken(t, s);
    var ok, reds;
    ok, reds, s := ParseRedirections(t, s2);
    assert [] + reds == reds;
    if !ok {
      ghost var rest :| RedsRead(Lex(t, s2), ok, reds, rest);
      RedsThenStuck(r.value, [], reds, rest);
      return None, s;
    }
    RedsParsed(r.value, [], reds, Lex(t, s));
    r := Some(Wrapped(r.value, reds));
  }

  method ParseExecText(t: string, s0: nat) returns (r: Option<Cmd<Span>>, s: nat)
    requires s0 <= |t| && IsText(t)
    ensures Reads(t, r, s, ParseExec(Lex(t, s0)))
    decreases |Lex(t, s0)|, 1
  {
    hide Lex, ParseExec, ParseLine, ParseRedirs, ParseWords, Wrapped;
    ExecStep(Lex(t, s0));
    PeekedIs(t, s0, "(");
    var b;
    b, s := Peek(t, s0, "(");
    if b {
      r, s := ParseBlockText(t, s);
      return;
    }
    var argv: seq<Span>, reds: seq<Red<Span>> := [], [];
    var ok, more;
    ghost var s1 := s;
    ok, more, s := ParseRedirections(t, s);
    if !ok {
      NoWords(argv, reds, Lex(t, s1), more);
      return None, s;
    }
    RedsThenWords(argv, reds, more, Lex(t, s));
    reds := reds + more;
    PeekedIs(t, s, STOPS);
    b, s := Peek(t, s, STOPS);
    while !b
      invariant s <= |t| && ParseWords(argv, reds, Lex(t, s)) == ParseWords([], [], Lex(t, s0))
      invariant b == Begins(Lex(t, s), STOPS) && !Begins(Lex(t, s), REDIRS) && |argv| < MAXARGS
      decreases |Lex(t, s)|
    {
      ghost var ts := Lex(t, s);
      var tok, q, eq;
      WordsNext(argv, reds, ts);
      tok, q, eq, s := GetToken(t, s);
      if tok == '\0' {
        break;
      }
      if tok != 'a' {
        return None, s;
      }
      argv := argv + [Span(q, eq)];
      if |argv| >= MAXARGS {
        return None, s;
      }
      s1 := s;
      ok, more, s := ParseRedirections(t, s);
      if !ok {
        NoWords(argv, reds, Lex(t, s1), more);
        return None, s;
      }
      RedsThenWords(argv, reds, more, Lex(t, s));
      reds := reds + more;
      PeekedIs(t, s, STOPS);
      b, s := Peek(t, s, STOPS);
    }
    WordsNext(argv, reds, Lex(t, s));
    r := Some(Wrapped(Exec(argv), reds));
  }

  // The next turn of parseexec's loop.
  lemma WordsNext(argv: seq<Span>, reds: seq<Red<Span>>, ts: seq<Tok<Span>>)
    requires !Begins(ts, REDIRS)
    ensures ParseWords(argv, reds, ts) ==
      if ts == [] || Begins(ts, STOPS) then Done(Wrapped(Exec(argv), reds), ts)
      else if ts[0].Word? && |argv| + 1 < MAXARGS then ParseWords(argv + [ts[0].w], reds, ts[1..])
      else Fail
  {
    hide Wrapped;
  }

  lemma NoWords(argv: seq<Span>, done: seq<Red<Span>>, ts: seq<Tok<Span>>, reds: seq<Red<Span>>)
    requires exists rest :: RedsRead(ts, false, reds, rest)
    ensures ParseWords(argv, done, ts).Fail?
  {
    hide ParseWords;
    var rest :| RedsRead(ts, false, reds, rest);
    RedsThenWords(argv, done, reds, rest);
    StuckWords(argv, done + reds, rest);
  }

  // ---- nulterminate ----

  // Where the words of a command end.
  function Ends(cmd: Cmd<Span>): set<nat> { set w | w in WordsOf(cmd) :: w.eq }

  // The loop of nulterminate, and those of its calls.
  method NulTerminate(cmd: Cmd<Span>, buf: array<char>)
    requires forall w :: w in WordsOf(cmd) ==> w.eq < buf.Length
    modifies buf
    ensures forall k: nat :: k < buf.Length ==> buf[k] == if k in Ends(cmd) then '\0' else old(buf[k])
    decreases cmd
  {
    match cmd {
      case Exec(argv) =>
        var i := 0;
        while i < |argv|
          invariant i <= |argv|
          invariant forall k: nat :: k < buf.Length ==>
            buf[k] == if exists j :: 0 <= j < i && argv[j].eq == k then '\0' else old(buf[k])
        {
          assert argv[i] in WordsOf(cmd);
          buf[argv[i].eq] := '\0';
          i := i + 1;
        }
        EndsExec(argv);
      case Redir(c, file, mode, fd) =>
        NulTerminate(c, buf);
        buf[file.eq] := '\0';
      case Pipe(l, r) =>
        NulTerminate(l, buf);
        NulTerminate(r, buf);
      case List(l, r) =>
        NulTerminate(l, buf);
        NulTerminate(r, buf);
      case Back(c) =>
        NulTerminate(c, buf);
    }
  }

  lemma EndsExec(argv: seq<Span>)
    ensures forall k: nat :: k in Ends(Exec(argv)) <==> exists j :: 0 <= j < |argv| && argv[j].eq == k
  {
    forall k: nat ensures k in Ends(Exec(argv)) <==> exists j :: 0 <= j < |argv| && argv[j].eq == k {
      if j :| 0 <= j < |argv| && argv[j].eq == k { assert argv[j] in WordsOf(Exec(argv)); }
    }
  }

  // The C string at q.
  function CString(b: seq<char>, q: nat): string
    decreases |b| - q
  {
    if q >= |b| || b[q] == '\0' then "" else [b[q]] + CString(b, q + 1)
  }

  lemma {:induction false} CStringIs(b: seq<char>, q: nat, eq: nat)
    requires q <= eq < |b| && b[eq] == '\0' && forall k :: q <= k < eq ==> b[k] != '\0'
    ensures CString(b, q) == b[q..eq]
    decreases eq - q
  {
    if q < eq { CStringIs(b, q + 1, eq); }
  }

  // A word is made of word characters and goes on until something else.
  predicate SpanOk(t: string, w: Span)
  {
    && w.q < w.eq <= |t| && (forall k :: w.q <= k < w.eq ==> IsWordChar(t[k]))
    && (w.eq < |t| ==> !IsWordChar(t[w.eq]))
  }

  lemma {:induction false} LexSpans(t: string, i: nat, w: Span)
    requires i <= |t| && IsText(t) && Word(w) in Lex(t, i)
    ensures SpanOk(t, w)
    decreases |t| - i
  {
    LexHead(t, i);
    var j := Skipped(t, i);
    if TokenAt(t, j) != Word(w) { LexSpans(t, TokenEnd(t, j), w); }
  }

  // parsecmd. The text is in buf, and stops at its first NUL. When it is a
  // line of the grammar the command it means is returned; every word of it then
  // reads as a C string, as nulterminate never writes into a word.
  method ParseCmd(buf: array<char>, n: nat) returns (r: Option<Cmd<Span>>)
    requires n < buf.Length && buf[n] == '\0' && IsText(buf[..n])
    modifies buf
    ensures r.None? <==> Parse(Lex(old(buf[..n]), 0)).Fail?
    ensures r.None? ==> buf[..] == old(buf[..])
    ensures r.Some? ==> Parse(Lex(old(buf[..n]), 0)) == Done(r.value, [])
    ensures r.Some? ==> forall w :: w in WordsOf(r.value) ==>
      w.q <= w.eq <= n && CString(buf[..], w.q) == old(buf[w.q..w.eq])
    ensures r.Some? ==> forall k: nat :: k < buf.Length && (k > n || IsWordChar(old(buf[k]))) ==> buf[k] == old(buf[k])
  {
    hide Lex, ParseLine, WordsOf;
    var t := buf[..n];
    ghost var was := buf[..];
    var s;
    r, s := ParseLineText(t, 0);
    if r.None? {
      return;
    }
    var b;
    AllRead(t, s);
    b, s := Peek(t, s, "");
    if s != n {
      return None;
    }
    var cmd := r.value;
    forall w | w in WordsOf(cmd) ensures SpanOk(t, w) {
      ParsedWords(Lex(t, 0), cmd, w);
      LexSpans(t, 0, w);
    }
    NulTerminate(cmd, buf);
    forall k: nat | k < buf.Length && (k > n || IsWordChar(was[k])) ensures buf[k] == was[k] {
      NoEnd(t, cmd, k);
    }
    forall w | w in WordsOf(cmd) ensures w.q <= w.eq <= n && CString(buf[..], w.q) == was[w.q..w.eq] {
      assert SpanOk(t, w) && w.eq in Ends(cmd);
      CStringIs(buf[..], w.q, w.eq);
      assert forall k :: w.q <= k < w.eq ==> buf[..][k] == t[k];
    }
  }

  lemma NoEnd(t: string, cmd: Cmd<Span>, k: nat)
    requires (forall w :: w in WordsOf(cmd) ==> SpanOk(t, w)) && (k > |t| || (k < |t| && IsWordChar(t[k])))
    ensures k !in Ends(cmd)
  {
  }

  // Nothing is left over exactly when no token is.
  lemma AllRead(t: string, i: nat)
    requires i <= |t|
    ensures Skipped(t, i) == |t| <==> Lex(t, i) == []
  {
  }

  lemma ParsedWords(ts: seq<Tok<Span>>, cmd: Cmd<Span>, w: Span)
    requires Parse(ts) == Done(cmd, []) && w in WordsOf(cmd)
    ensures Word(w) in ts
  {
    ParseExactlyWhen(ts, cmd);
    var l: Line<Span> :| LineFits(l) && LineTokens(l) == ts && LineTree(l) == cmd;
    LineWords(l, w);
  }

  // ---- the canonical text ----

  // A word that can be written down.
  predicate Proper(w: string) { w != "" && forall k :: 0 <= k < |w| ==> IsWordChar(w[k]) }

  predicate Printable(tok: Tok<string>)
  {
    if tok.Word? then Proper(tok.w) else tok.c in SYMBOLS || tok.c == '+'
  }

  function Printed(tok: Tok<string>): string
  {
    if tok.Word? then tok.w else if tok.c == '+' then ">>" else [tok.c]
  }

  // Every token with a blank behind it.
  function Print(ts: seq<Tok<string>>): string
  {
    if ts == [] then "" else Printed(ts[0]) + " " + Print(ts[1..])
  }

  // The string a place in the text stands for.
  function TextOf(t: string): Span -> string
  {
    (w: Span) => if w.q <= w.eq <= |t| then t[w.q..w.eq] else ""
  }

  // Reading a printed token.
  lemma TokenPrinted(t: string, i: nat, tok: Tok<string>)
    requires Printable(tok) && i + |Printed(tok)| < |t| && t[i..i + |Printed(tok)|] == Printed(tok)
    requires t[i + |Printed(tok)|] == ' '
    ensures Skipped(t, i) == i && t[i] !in WHITESPACE
    ensures MapTok(TextOf(t), TokenAt(t, i)) == tok && TokenEnd(t, i) == i + |Printed(tok)|
  {
    var p := Printed(tok);
    assert t[i] == p[0];
    if tok.Word? {
      assert forall k :: i <= k < i + |p| ==> t[k] == p[k - i];
      WordEndIs(t, i, i + |p|);
    } else if tok.c == '+' {
      assert t[i + 1] == p[1];
    }
  }

  lemma {:induction false} WordEndIs(t: string, i: nat, j: nat)
    requires i <= j < |t| && t[j] == ' ' && forall k :: i <= k < j ==> IsWordChar(t[k])
    ensures WordEnd(t, i) == j
    decreases j - i
  {
    if i < j { WordEndIs(t, i + 1, j); }
  }

  lemma {:induction false} LexPrinted(t: string, i: nat, ts: seq<Tok<string>>)
    requires i <= |t| && t[i..] == Print(ts) && forall k :: 0 <= k < |ts| ==> Printable(ts[k])
    ensures MapTokens(TextOf(t), Lex(t, i)) == ts
    decreases |ts|
  {
    hide *;
    if ts == [] {
      LexNothing(t, i);
    } else {
      var p, f := Printed(ts[0]), TextOf(t);
      PrintOnce(ts);
      Slices(t, i, p, Print(ts[1..]));
      TokenPrinted(t, i, ts[0]);
      LexPrinted(t, i + |p| + 1, ts[1..]);
      LexOnce(t, i);
      BlankBefore(t, i + |p|);
      HeadMapped(f, TokenAt(t, i), Lex(t, i + |p| + 1));
      assert ts == [ts[0]] + ts[1..];
    }
  }

  lemma LexNothing(t: string, i: nat)
    requires i <= |t| && t[i..] == Print([])
    ensures MapTokens(TextOf(t), Lex(t, i)) == []
  {
    assert i == |t|;
  }

  lemma PrintOnce(ts: seq<Tok<string>>)
    requires ts != []
    ensures Print(ts) == Printed(ts[0]) + " " + Print(ts[1..])
  {
  }

  lemma Slices(t: string, i: nat, p: string, rest: string)
    requires i <= |t| && t[i..] == p + " " + rest
    ensures i + |p| < |t| && t[i..i + |p|] == p && t[i + |p|] == ' ' && t[i + |p| + 1..] == rest
  {
    assert t[i..i + |p|] == t[i..][..|p|] && t[i + |p|] == t[i..][|p|] && t[i + |p| + 1..] == t[i..][|p| + 1..];
  }

  lemma LexOnce(t: string, i: nat)
    requires i < |t| && Skipped(t, i) == i
    ensures Lex(t, i) == [TokenAt(t, i)] + Lex(t, TokenEnd(t, i))
  {
  }

  lemma BlankBefore(t: string, i: nat)
    requires i < |t| && t[i] == ' '
    ensures Lex(t, i) == Lex(t, i + 1)
  {
    assert Skipped(t, i) == Skipped(t, i + 1);
  }

  lemma HeadMapped<T, U>(f: T -> U, head: Tok<T>, tail: seq<Tok<T>>)
    ensures MapTokens(f, [head] + tail) == [MapTok(f, head)] + MapTokens(f, tail)
  {
  }

  // For every command that the shell can make, of words that can be written
  // down: parsing its canonical text gives that command back.
  lemma ParsePrinted(cmd: Cmd<string>)
    requires Sound(cmd) && forall w :: w in WordsOf(cmd) ==> Proper(w)
    ensures var t := Print(LineTokens(Shown(cmd)));
      IsText(t) && Parse(Lex(t, 0)).Done? && MapCmd(TextOf(t), Parse(Lex(t, 0)).cmd) == cmd
  {
    hide Lex, Print, LineTokens, Shown, MapCmd, Parse, Printable, LineFits, LineTree;
    var l := Shown(cmd);
    var ts := LineTokens(l);
    var t := Print(ts);
    ShownMeans(cmd);
    forall k | 0 <= k < |ts| ensures Printable(ts[k]) { CanPrint(cmd, l, ts[k]); }
    PrintedText(ts);
    assert t[0..] == t;
    LexPrinted(t, 0, ts);
    ParseShown(cmd);
    ParseMapped(TextOf(t), Lex(t, 0));
  }

  lemma ParseMapped<T, U>(f: T -> U, ts: seq<Tok<T>>)
    ensures Parse(MapTokens(f, ts)) == MapParsed(f, Parse(ts))
  {
    hide MapCmd, ParseLine;
    LineMapped(f, ts);
  }

  lemma CanPrint(cmd: Cmd<string>, l: Line<string>, tok: Tok<string>)
    requires LineFits(l) && LineTree(l) == cmd && tok in LineTokens(l) && forall w :: w in WordsOf(cmd) ==> Proper(w)
    ensures Printable(tok)
  {
    if tok.Word? { LineWords(l, tok.w); } else { LineSymbols(l, tok.c); }
  }

  lemma {:induction false} PrintedText(ts: seq<Tok<string>>)
    requires forall k :: 0 <= k < |ts| ==> Printable(ts[k])
    ensures IsText(Print(ts))
  {
    if ts != [] {
      PrintedText(ts[1..]);
      assert Printable(ts[0]);
      assert IsText(Printed(ts[0]));
    }
  }
}
