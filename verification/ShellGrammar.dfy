/** The command language of the shell, on tokens. */
module ShellGrammar {
  // The parser of sh.c as a function of the tokens still to be read, the
  // grammar it is meant for, and why the two agree. A panic is Fail.

  const MAXARGS: nat := 10
  const O_RDONLY: nat := 0
  const O_WRONLY: nat := 1
  const O_CREATE: nat := 0x200

  /** A command whose words are of type T: places in the text, or strings. */
  datatype Cmd<T> =
    | Exec(argv: seq<T>)
    | Redir(cmd: Cmd<T>, file: T, mode: nat, fd: nat)
    | Pipe(left: Cmd<T>, right: Cmd<T>)
    | List(left: Cmd<T>, right: Cmd<T>)
    | Back(cmd: Cmd<T>)

  /** A symbol, '+' standing for >>, or a word. */
  datatype Tok<T> = Sym(c: char) | Word(w: T)

  datatype Parsed<T> = Fail | Done(cmd: Cmd<T>, rest: seq<Tok<T>>)

  predicate Begins<T>(ts: seq<Tok<T>>, cs: string) { ts != [] && ts[0].Sym? && ts[0].c in cs }

  const REDIRS := "<>+"
  const STOPS := "|)&;"

  function Redirected<T>(cmd: Cmd<T>, c: char, file: T): Cmd<T>
  {
    if c == '<' then Redir(cmd, file, O_RDONLY, 0) else Redir(cmd, file, O_WRONLY + O_CREATE, 1)
  }

  /** A redirection: its symbol and its file. */
  datatype Red<T> = Red(c: char, file: T)

  function Wrapped<T>(cmd: Cmd<T>, reds: seq<Red<T>>): Cmd<T>
  {
    if reds == [] then cmd
    else Redirected(Wrapped(cmd, reds[..|reds| - 1]), reds[|reds| - 1].c, reds[|reds| - 1].file)
  }

  function Backed<T>(cmd: Cmd<T>, n: nat): Cmd<T> { if n == 0 then cmd else Back(Backed(cmd, n - 1)) }

  // ---- the parser ----

  // parseline
  function ParseLine<T>(ts: seq<Tok<T>>): (r: Parsed<T>)
    ensures r.Done? ==> |r.rest| <= |ts|
    decreases |ts|, 3
  {
    match ParsePipe(ts)
    case Fail => Fail
    case Done(cmd, rest) =>
      match ParseBacks(cmd, rest)
      case Fail => Fail
      case Done(cmd1, rest1) =>
        if Begins(rest1, ";") then
          match ParseLine(rest1[1..])
          case Fail => Fail
          case Done(cmd2, rest2) => Done(List(cmd1, cmd2), rest2)
        else Done(cmd1, rest1)
  }

  // the loop of parseline
  function ParseBacks<T>(cmd: Cmd<T>, ts: seq<Tok<T>>): (r: Parsed<T>)
    ensures r.Done? && |r.rest| <= |ts|
    decreases |ts|
  {
    if Begins(ts, "&") then ParseBacks(Back(cmd), ts[1..]) else Done(cmd, ts)
  }

  // parsepipe
  function ParsePipe<T>(ts: seq<Tok<T>>): (r: Parsed<T>)
    ensures r.Done? ==> |r.rest| <= |ts|
    decreases |ts|, 2
  {
    match ParseExec(ts)
    case Fail => Fail
    case Done(cmd, rest) =>
      if Begins(rest, "|") then
        match ParsePipe(rest[1..])
        case Fail => Fail
        case Done(cmd1, rest1) => Done(Pipe(cmd, cmd1), rest1)
      else Done(cmd, rest)
  }

  // parseexec and parseblock
  function ParseExec<T>(ts: seq<Tok<T>>): (r: Parsed<T>)
    ensures r.Done? ==> |r.rest| <= |ts|
    decreases |ts|, 1
  {
    if Begins(ts, "(") then
      match ParseLine(ts[1..])
      case Fail => Fail
      case Done(cmd, rest) => if Begins(rest, ")") then ParseRedirs(cmd, [], rest[1..]) else Fail
    else ParseWords([], [], ts)
  }

  // parseredirs, with the redirections so far
  function ParseRedirs<T>(cmd: Cmd<T>, reds: seq<Red<T>>, ts: seq<Tok<T>>): (r: Parsed<T>)
    ensures r.Done? ==> |r.rest| <= |ts|
    decreases |ts|
  {
    if Begins(ts, REDIRS) then
      if |ts| > 1 && ts[1].Word? then ParseRedirs(cmd, reds + [Red(ts[0].c, ts[1].w)], ts[2..]) else Fail
    else Done(Wrapped(cmd, reds), ts)
  }

  // the loops of parseexec, with the words and redirections so far
  function ParseWords<T>(argv: seq<T>, reds: seq<Red<T>>, ts: seq<Tok<T>>): (r: Parsed<T>)
    ensures r.Done? ==> |r.rest| <= |ts|
    decreases |ts|
  {
    if ts == [] || Begins(ts, STOPS) then Done(Wrapped(Exec(argv), reds), ts)
    else if Begins(ts, REDIRS) then
      if |ts| > 1 && ts[1].Word? then ParseWords(argv, reds + [Red(ts[0].c, ts[1].w)], ts[2..]) else Fail
    else if ts[0].Word? && |argv| + 1 < MAXARGS then ParseWords(argv + [ts[0].w], reds, ts[1..])
    else Fail
  }

  // parsecmd: nothing may be left over.
  function Parse<T>(ts: seq<Tok<T>>): (r: Parsed<T>)
    ensures r.Done? ==> r.rest == []
  {
    match ParseLine(ts)
    case Fail => Fail
    case Done(cmd, rest) => if rest == [] then Done(cmd, []) else Fail
  }

  // ---- the grammar ----

  /** A line is a pipeline with any number of & behind it, and perhaps another
      line after a semicolon. */
  datatype Line<T> =
    | Last(pipe: Pipeline<T>, backs: nat)
    | Then(pipe: Pipeline<T>, backs: nat, next: Line<T>)

  datatype Pipeline<T> =
    | One(simple: Simple<T>)
    | Piped(simple: Simple<T>, next: Pipeline<T>)

  /** A line in parentheses with redirections behind it, or words and
      redirections in any order. */
  datatype Simple<T> =
    | Block(line: Line<T>, reds: seq<Red<T>>)
    | Plain(items: seq<Item<T>>)

  datatype Item<T> = Arg(w: T) | Redirect(red: Red<T>)

  function LineTokens<T>(l: Line<T>): seq<Tok<T>>
  {
    var first := PipeTokens(l.pipe) + Amps(l.backs);
    if l.Last? then first else first + [Sym(';')] + LineTokens(l.next)
  }

  function Amps<T>(n: nat): (ts: seq<Tok<T>>)
    ensures |ts| == n
  {
    if n == 0 then [] else [Sym('&')] + Amps(n - 1)
  }

  function PipeTokens<T>(p: Pipeline<T>): seq<Tok<T>>
  {
    if p.One? then SimpleTokens(p.simple) else SimpleTokens(p.simple) + [Sym('|')] + PipeTokens(p.next)
  }

  function SimpleTokens<T>(s: Simple<T>): seq<Tok<T>>
  {
    match s
    case Block(line, reds) => [Sym('(')] + LineTokens(line) + [Sym(')')] + RedTokens(reds)
    case Plain(items) => ItemTokens(items)
  }

  function RedTokens<T>(reds: seq<Red<T>>): seq<Tok<T>>
  {
    if reds == [] then [] else [Sym(reds[0].c), Word(reds[0].file)] + RedTokens(reds[1..])
  }

  function ItemTokens<T>(items: seq<Item<T>>): seq<Tok<T>>
  {
    if items == [] then []
    else (match items[0] case Arg(w) => [Word(w)] case Redirect(red) => [Sym(red.c), Word(red.file)])
         + ItemTokens(items[1..])
  }

  // The command each of them means.
  function LineTree<T>(l: Line<T>): Cmd<T>
  {
    var first := Backed(PipeTree(l.pipe), l.backs);
    if l.Last? then first else List(first, LineTree(l.next))
  }

  function PipeTree<T>(p: Pipeline<T>): Cmd<T>
  {
    if p.One? then SimpleTree(p.simple) else Pipe(SimpleTree(p.simple), PipeTree(p.next))
  }

  function SimpleTree<T>(s: Simple<T>): Cmd<T>
  {
    match s
    case Block(line, reds) => Wrapped(LineTree(line), reds)
    case Plain(items) => Wrapped(Exec(Args(items)), Reds(items))
  }

  function Args<T>(items: seq<Item<T>>): (r: seq<T>)
    ensures |r| <= |items|
  {
    if items == [] then [] else (if items[0].Arg? then [items[0].w] else []) + Args(items[1..])
  }

  function Reds<T>(items: seq<Item<T>>): seq<Red<T>>
  {
    if items == [] then [] else (if items[0].Redirect? then [items[0].red] else []) + Reds(items[1..])
  }

  // Redirection symbols are redirection symbols, and no command has too many
  // words.
  predicate LineFits<T>(l: Line<T>)
  {
    PipeFits(l.pipe) && (l.Then? ==> LineFits(l.next))
  }

  predicate PipeFits<T>(p: Pipeline<T>)
  {
    SimpleFits(p.simple) && (p.Piped? ==> PipeFits(p.next))
  }

  predicate SimpleFits<T>(s: Simple<T>)
  {
    match s
    case Block(line, reds) => LineFits(line) && RedsFit(reds)
    case Plain(items) => |Args(items)| < MAXARGS && RedsFit(Reds(items))
  }

  predicate RedsFit<T>(reds: seq<Red<T>>) { forall k :: 0 <= k < |reds| ==> reds[k].c in REDIRS }

  // ---- whatever the grammar allows is parsed ----

  lemma {:induction false} LineParsed<T>(l: Line<T>, rest: seq<Tok<T>>)
    requires LineFits(l) && (rest == [] || Begins(rest, ")"))
    ensures ParseLine(LineTokens(l) + rest) == Done(LineTree(l), rest)
    decreases l
  {
    var tail := LineTail(l, rest);
    LineIs(l, rest);
    if l.Then? { LineParsed(l.next, rest); }
    hide ParseLine, ParsePipe, LineTokens, PipeTokens, PipeTree, PipeFits, Backed, Amps, LineTail;
    AmpsBegin(l.backs, tail);
    PipeParsed(l.pipe, Amps(l.backs) + tail);
    LineStep(LineTokens(l) + rest, PipeTree(l.pipe), l.backs, tail);
  }

  // What is behind the first pipeline of a line and its &.
  function LineTail<T>(l: Line<T>, rest: seq<Tok<T>>): seq<Tok<T>>
  {
    if l.Last? then rest else [Sym(';')] + (LineTokens(l.next) + rest)
  }

  lemma LineIs<T>(l: Line<T>, rest: seq<Tok<T>>)
    requires rest == [] || Begins(rest, ")")
    ensures var tail := LineTail(l, rest);
      && LineTokens(l) + rest == PipeTokens(l.pipe) + (Amps(l.backs) + tail) && !Begins(tail, "&")
      && (Begins(tail, ";") <==> l.Then?) && (l.Then? ==> tail[1..] == LineTokens(l.next) + rest)
      && (tail == [] || Begins(tail, ";") || Begins(tail, ")"))
  {
    hide PipeTokens, Amps;
    if l.Then? { Joined(PipeTokens(l.pipe), Amps(l.backs), [Sym(';')], LineTokens(l.next), rest); }
  }

  lemma AmpsBegin<T>(n: nat, tail: seq<Tok<T>>)
    ensures if n == 0 then Amps(n) + tail == tail else Begins(Amps(n) + tail, "&")
  {
  }

  lemma LineStep<T>(ts: seq<Tok<T>>, cmd: Cmd<T>, n: nat, tail: seq<Tok<T>>)
    requires ParsePipe(ts) == Done(cmd, Amps(n) + tail) && !Begins(tail, "&")
    ensures |tail| <= |ts|
    ensures ParseLine(ts) ==
      if Begins(tail, ";") then
        match ParseLine(tail[1..])
        case Fail => Fail
        case Done(cmd1, rest) => Done(List(Backed(cmd, n), cmd1), rest)
      else Done(Backed(cmd, n), tail)
  {
    hide ParsePipe, ParseBacks, Backed;
    BacksParsed(cmd, n, tail);
  }

  lemma Joined<T>(a: seq<T>, b: seq<T>, c: seq<T>, d: seq<T>, e: seq<T>)
    ensures (a + b) + c + d + e == a + (b + (c + (d + e)))
  {
  }

  lemma {:induction false} BacksParsed<T>(cmd: Cmd<T>, n: nat, rest: seq<Tok<T>>)
    requires !Begins(rest, "&")
    ensures ParseBacks(cmd, Amps(n) + rest) == Done(Backed(cmd, n), rest)
    decreases n
  {
    if n == 0 {
      assert Amps<T>(0) + rest == rest;
    } else {
      assert (Amps(n) + rest)[1..] == Amps(n - 1) + rest;
      BacksParsed(Back(cmd), n - 1, rest);
      BackedBack(cmd, n - 1);
    }
  }

  lemma {:induction false} BackedBack<T>(cmd: Cmd<T>, n: nat)
    ensures Backed(Back(cmd), n) == Backed(cmd, n + 1)
  {
    if n > 0 { BackedBack(cmd, n - 1); }
  }

  lemma {:induction false} PipeParsed<T>(p: Pipeline<T>, rest: seq<Tok<T>>)
    requires PipeFits(p) && (rest == [] || Begins(rest, ")&;"))
    ensures ParsePipe(PipeTokens(p) + rest) == Done(PipeTree(p), rest)
    decreases p
  {
    hide ParsePipe, ParseExec, SimpleTokens, SimpleTree, SimpleFits;
    if p.One? {
      SimpleParsed(p.simple, rest);
    } else {
      var tail := [Sym('|')] + (PipeTokens(p.next) + rest);
      SimpleParsed(p.simple, tail);
      Joined3(SimpleTokens(p.simple), [Sym('|')], PipeTokens(p.next), rest);
      assert tail[1..] == PipeTokens(p.next) + rest;
      PipeParsed(p.next, rest);
    }
    PipeStep(PipeTokens(p) + rest);
  }

  lemma PipeStep<T>(ts: seq<Tok<T>>)
    ensures ParsePipe(ts).Done? ==> ParseExec(ts).Done?
    ensures ParseExec(ts).Done? ==>
      var cmd, tail := ParseExec(ts).cmd, ParseExec(ts).rest;
      ParsePipe(ts) ==
        if Begins(tail, "|") then
          match ParsePipe(tail[1..])
          case Fail => Fail
          case Done(cmd1, rest) => Done(Pipe(cmd, cmd1), rest)
        else Done(cmd, tail)
  {
    hide ParseExec;
  }

  lemma Joined3<T>(a: seq<T>, b: seq<T>, c: seq<T>, d: seq<T>)
    ensures a + b + c + d == a + (b + (c + d))
  {
  }

  lemma {:induction false} SimpleParsed<T>(s: Simple<T>, rest: seq<Tok<T>>)
    requires SimpleFits(s) && (rest == [] || Begins(rest, STOPS))
    ensures ParseExec(SimpleTokens(s) + rest) == Done(SimpleTree(s), rest)
    decreases s
  {
    hide ParseExec, ParseLine, ParseRedirs, ParseWords, Wrapped, LineTree, LineTokens, LineFits, ItemTokens, RedTokens;
    var ts := SimpleTokens(s) + rest;
    match s {
      case Block(line, reds) =>
        var tail := [Sym(')')] + (RedTokens(reds) + rest);
        Joined3([Sym('(')] + LineTokens(line), [Sym(')')], RedTokens(reds), rest);
        assert [Sym('(')] + LineTokens(line) + tail == [Sym('(')] + (LineTokens(line) + tail);
        assert ts[1..] == LineTokens(line) + tail;
        LineParsed(line, tail);
        assert tail[1..] == RedTokens(reds) + rest;
        RedsParsed(LineTree(line), [], reds, rest);
        assert [] + reds == reds;
      case Plain(items) =>
        PlainNot(items, rest);
        WordsParsed([], [], items, rest);
        assert [] + Args(items) == Args(items) && [] + Reds(items) == Reds(items);
    }
    ExecStep(ts);
  }

  lemma ExecStep<T>(ts: seq<Tok<T>>)
    ensures ParseExec(ts) ==
      if Begins(ts, "(") then
        match ParseLine(ts[1..])
        case Fail => Fail
        case Done(cmd, rest) => if Begins(rest, ")") then ParseRedirs(cmd, [], rest[1..]) else Fail
      else ParseWords([], [], ts)
  {
    hide ParseLine, ParseRedirs, ParseWords;
  }

  lemma PlainNot<T>(items: seq<Item<T>>, rest: seq<Tok<T>>)
    requires (rest == [] || Begins(rest, STOPS)) && RedsFit(Reds(items))
    ensures !Begins(ItemTokens(items) + rest, "(")
  {
    if items != [] && items[0].Redirect? { assert Reds(items)[0] == items[0].red; }
  }

  lemma {:induction false} RedsParsed<T>(cmd: Cmd<T>, done: seq<Red<T>>, reds: seq<Red<T>>, rest: seq<Tok<T>>)
    requires RedsFit(reds) && !Begins(rest, REDIRS)
    ensures ParseRedirs(cmd, done, RedTokens(reds) + rest) == Done(Wrapped(cmd, done + reds), rest)
    decreases |reds|
  {
    var ts := RedTokens(reds) + rest;
    if reds == [] {
      assert ts == rest && done + reds == done;
    } else {
      assert ts[0] == Sym(reds[0].c) && ts[1] == Word(reds[0].file) && ts[2..] == RedTokens(reds[1..]) + rest;
      RedsParsed(cmd, done + [reds[0]], reds[1..], rest);
      assert done + [reds[0]] + reds[1..] == done + reds;
    }
  }

  lemma {:induction false} WordsParsed<T>(argv: seq<T>, reds: seq<Red<T>>, items: seq<Item<T>>, rest: seq<Tok<T>>)
    requires |argv| + |Args(items)| < MAXARGS && RedsFit(Reds(items)) && (rest == [] || Begins(rest, STOPS))
    ensures ParseWords(argv, reds, ItemTokens(items) + rest)
            == Done(Wrapped(Exec(argv + Args(items)), reds + Reds(items)), rest)
    decreases |items|
  {
    if items == [] {
      assert ItemTokens(items) + rest == rest && argv + Args(items) == argv && reds + Reds(items) == reds;
    } else {
      hide ParseWords, Wrapped, ItemTokens, Args, Reds, RedsFit, Begins;
      var more := items[1..];
      assert items == [items[0]] + more;
      match items[0] {
        case Arg(w) =>
          ArgIs(argv, reds, w, more, rest);
          WordsArg(argv, reds, w, ItemTokens(more) + rest);
          WordsParsed(argv + [w], reds, more, rest);
        case Redirect(red) =>
          RedIs(argv, reds, red, more, rest);
          WordsRed(argv, reds, red, ItemTokens(more) + rest);
          WordsParsed(argv, reds + [red], more, rest);
      }
    }
  }

  lemma ArgIs<T>(argv: seq<T>, reds: seq<Red<T>>, w: T, more: seq<Item<T>>, rest: seq<Tok<T>>)
    ensures ItemTokens([Arg(w)] + more) + rest == [Word(w)] + (ItemTokens(more) + rest)
    ensures argv + Args([Arg(w)] + more) == argv + [w] + Args(more) && Reds([Arg(w)] + more) == Reds(more)
    ensures |Args([Arg(w)] + more)| == 1 + |Args(more)|
  {
    OneItem(Arg(w), more);
    hide ItemTokens, Args, Reds;
    assert [] + Reds(more) == Reds(more);
  }

  lemma RedIs<T>(argv: seq<T>, reds: seq<Red<T>>, red: Red<T>, more: seq<Item<T>>, rest: seq<Tok<T>>)
    requires RedsFit(Reds([Redirect(red)] + more))
    ensures ItemTokens([Redirect(red)] + more) + rest == [Sym(red.c), Word(red.file)] + (ItemTokens(more) + rest)
    ensures reds + Reds([Redirect(red)] + more) == reds + [red] + Reds(more)
    ensures Args([Redirect(red)] + more) == Args(more) && red.c in REDIRS && RedsFit(Reds(more))
  {
    OneItem(Redirect(red), more);
    hide ItemTokens, Args, Reds;
    assert [] + Args(more) == Args(more);
    var rs := Reds([Redirect(red)] + more);
    assert rs == [red] + Reds(more) && rs[0] == red && rs[1..] == Reds(more);
  }

  lemma OneItem<T>(item: Item<T>, more: seq<Item<T>>)
    ensures ItemTokens([item] + more)
            == (match item case Arg(w) => [Word(w)] case Redirect(red) => [Sym(red.c),
                Word(red.file)]) + ItemTokens(more)
    ensures Args([item] + more) == (if item.Arg? then [item.w] else []) + Args(more)
    ensures Reds([item] + more) == (if item.Redirect? then [item.red] else []) + Reds(more)
  {
    assert ([item] + more)[1..] == more;
  }

  lemma WordsArg<T>(argv: seq<T>, reds: seq<Red<T>>, w: T, ts: seq<Tok<T>>)
    ensures ParseWords(argv, reds, [Word(w)] + ts)
            == if |argv| + 1 < MAXARGS then ParseWords(argv + [w], reds, ts) else Fail
  {
    hide Wrapped;
    assert ([Word(w)] + ts)[1..] == ts;
  }

  lemma WordsRed<T>(argv: seq<T>, reds: seq<Red<T>>, red: Red<T>, ts: seq<Tok<T>>)
    requires red.c in REDIRS
    ensures ParseWords(argv, reds, [Sym(red.c), Word(red.file)] + ts) == ParseWords(argv, reds + [red], ts)
  {
    hide Wrapped;
    assert ([Sym(red.c), Word(red.file)] + ts)[2..] == ts;
  }

  // ---- whatever is parsed the grammar allows ----

  lemma {:induction false} LineFound<T>(ts: seq<Tok<T>>) returns (l: Line<T>)
    requires ParseLine(ts).Done?
    ensures LineFits(l) && LineTree(l) == ParseLine(ts).cmd && LineTokens(l) + ParseLine(ts).rest == ts
    decreases |ts|, 3
  {
    hide ParsePipe, ParseBacks, PipeTokens, PipeTree, PipeFits, Backed, Amps;
    var p := PipeFound(ts);
    var rest := ParsePipe(ts).rest;
    var n := BacksFound(PipeTree(p), rest);
    var rest1 := ParseBacks(PipeTree(p), rest).rest;
    if Begins(rest1, ";") {
      var next := LineFound(rest1[1..]);
      l := Then(p, n, next);
      var rest2 := ParseLine(rest1[1..]).rest;
      assert rest1 == [Sym(';')] + (LineTokens(next) + rest2);
      Joined(PipeTokens(p), Amps(n), [Sym(';')], LineTokens(next), rest2);
    } else {
      l := Last(p, n);
      assert PipeTokens(p) + (Amps(n) + rest1) == (PipeTokens(p) + Amps(n)) + rest1;
    }
  }

  lemma {:induction false} BacksFound<T>(cmd: Cmd<T>, ts: seq<Tok<T>>) returns (n: nat)
    ensures ParseBacks(cmd, ts).cmd == Backed(cmd, n) && Amps(n) + ParseBacks(cmd, ts).rest == ts
    decreases |ts|
  {
    hide ParseBacks, Backed, Amps;
    BacksTurn(cmd, ts);
    if Begins(ts, "&") {
      var m := BacksFound(Back(cmd), ts[1..]);
      BackedBack(cmd, m);
      n := m + 1;
      Again([Sym('&')], Amps(m), ParseBacks(cmd, ts).rest, ts);
      AmpsTurn<T>(m);
    } else {
      n := 0;
      AmpsTurn<T>(0);
      assert [] + ts == ts;
    }
  }

  lemma BacksTurn<T>(cmd: Cmd<T>, ts: seq<Tok<T>>)
    ensures ParseBacks(cmd, ts) == if Begins(ts, "&") then ParseBacks(Back(cmd), ts[1..]) else Done(cmd, ts)
    ensures Backed(cmd, 0) == cmd
  {
  }

  lemma AmpsTurn<T>(n: nat)
    ensures Amps<T>(0) == [] && Amps<T>(n + 1) == [Sym('&')] + Amps(n)
  {
  }

  lemma {:induction false} PipeFound<T>(ts: seq<Tok<T>>) returns (p: Pipeline<T>)
    requires ParsePipe(ts).Done?
    ensures PipeFits(p) && PipeTree(p) == ParsePipe(ts).cmd && PipeTokens(p) + ParsePipe(ts).rest == ts
    decreases |ts|, 2
  {
    hide ParsePipe, ParseExec, SimpleTokens, SimpleTree, SimpleFits;
    PipeStep(ts);
    var s := SimpleFound(ts);
    var rest := ParseExec(ts).rest;
    if Begins(rest, "|") {
      var next := PipeFound(rest[1..]);
      p := Piped(s, next);
      assert rest == [Sym('|')] + rest[1..];
      Joined3(SimpleTokens(s), [Sym('|')], PipeTokens(next), ParsePipe(rest[1..]).rest);
    } else {
      p := One(s);
    }
  }

  lemma {:induction false} SimpleFound<T>(ts: seq<Tok<T>>) returns (s: Simple<T>)
    requires ParseExec(ts).Done?
    ensures SimpleFits(s) && SimpleTree(s) == ParseExec(ts).cmd && SimpleTokens(s) + ParseExec(ts).rest == ts
    decreases |ts|, 1
  {
    hide ParseExec, ParseLine, ParseRedirs, ParseWords, Wrapped, LineTree, LineTokens, LineFits, ItemTokens, RedTokens;
    ExecStep(ts);
    if Begins(ts, "(") {
      var line := LineFound(ts[1..]);
      var rest := ParseLine(ts[1..]).rest;
      var reds := RedsFound(LineTree(line), [], rest[1..]);
      assert [] + reds == reds;
      s := Block(line, reds);
      assert ts == [Sym('(')] + ts[1..] && rest == [Sym(')')] + rest[1..];
      var rest1 := ParseExec(ts).rest;
      Joined3([Sym('(')] + LineTokens(line), [Sym(')')], RedTokens(reds), rest1);
      assert ([Sym('(')] + LineTokens(line)) + rest == [Sym('(')] + (LineTokens(line) + rest);
    } else {
      var items := WordsFound([], [], ts);
      assert [] + Args(items) == Args(items) && [] + Reds(items) == Reds(items);
      s := Plain(items);
    }
  }

  lemma {:induction false} RedsFound<T>(cmd: Cmd<T>, done: seq<Red<T>>, ts: seq<Tok<T>>) returns (reds: seq<Red<T>>)
    requires ParseRedirs(cmd, done, ts).Done?
    ensures RedsFit(reds) && ParseRedirs(cmd, done, ts).cmd == Wrapped(cmd, done + reds)
    ensures RedTokens(reds) + ParseRedirs(cmd, done, ts).rest == ts
    decreases |ts|
  {
    hide ParseRedirs, Wrapped, RedTokens;
    RedsTurn(cmd, done, ts);
    if Begins(ts, REDIRS) {
      var red := Red(ts[0].c, ts[1].w);
      var more := RedsFound(cmd, done + [red], ts[2..]);
      reds := [red] + more;
      assert done + [red] + more == done + reds;
      RedTokensTurn(red, more);
      FitsMore(red, more);
      Again([Sym(red.c), Word(red.file)], RedTokens(more), ParseRedirs(cmd, done, ts).rest, ts);
    } else {
      reds := [];
      NoRedTokens<T>();
      assert done + [] == done && [] + ts == ts;
    }
  }

  lemma RedsTurn<T>(cmd: Cmd<T>, done: seq<Red<T>>, ts: seq<Tok<T>>)
    requires ParseRedirs(cmd, done, ts).Done?
    ensures Begins(ts, REDIRS) ==>
      && |ts| > 1 && ts[1].Word?
      && ParseRedirs(cmd, done, ts) == ParseRedirs(cmd, done + [Red(ts[0].c, ts[1].w)], ts[2..])
    ensures !Begins(ts, REDIRS) ==> ParseRedirs(cmd, done, ts) == Done(Wrapped(cmd, done), ts)
  {
    hide Wrapped;
  }

  lemma RedTokensTurn<T>(red: Red<T>, more: seq<Red<T>>)
    ensures RedTokens([red] + more) == [Sym(red.c), Word(red.file)] + RedTokens(more)
  {
    assert ([red] + more)[1..] == more;
  }

  lemma NoRedTokens<T>()
    ensures RedTokens<T>([]) == [] && RedsFit<T>([])
  {
  }

  lemma {:induction false} WordsFound<T>(argv: seq<T>, reds: seq<Red<T>>, ts: seq<Tok<T>>)
    returns (items: seq<Item<T>>)
    requires ParseWords(argv, reds, ts).Done? && |argv| < MAXARGS
    ensures RedsFit(Reds(items)) && |argv| + |Args(items)| < MAXARGS
    ensures ParseWords(argv, reds, ts).cmd == Wrapped(Exec(argv + Args(items)), reds + Reds(items))
    ensures ItemTokens(items) + ParseWords(argv, reds, ts).rest == ts
    decreases |ts|
  {
    hide ParseWords, Wrapped, ItemTokens, Args, Reds;
    WordsCases(argv, reds, ts);
    NoItems<T>();
    if ts == [] || Begins(ts, STOPS) {
      items := [];
      assert argv + [] == argv && reds + [] == reds && [] + ts == ts;
    } else if Begins(ts, REDIRS) {
      var red := Red(ts[0].c, ts[1].w);
      assert ts == [Sym(red.c), Word(red.file)] + ts[2..];
      WordsRed(argv, reds, red, ts[2..]);
      var more := WordsFound(argv, reds + [red], ts[2..]);
      items := [Redirect(red)] + more;
      OneItem(Redirect(red), more);
      assert reds + [red] + Reds(more) == reds + ([red] + Reds(more)) && [] + Args(more) == Args(more);
      Again([Sym(red.c), Word(red.file)], ItemTokens(more), ParseWords(argv, reds, ts).rest, ts);
      FitsMore(red, Reds(more));
    } else {
      var w := ts[0].w;
      assert ts == [Word(w)] + ts[1..];
      WordsArg(argv, reds, w, ts[1..]);
      var more := WordsFound(argv + [w], reds, ts[1..]);
      items := [Arg(w)] + more;
      OneItem(Arg(w), more);
      assert argv + [w] + Args(more) == argv + ([w] + Args(more)) && [] + Reds(more) == Reds(more);
      Again([Word(w)], ItemTokens(more), ParseWords(argv, reds, ts).rest, ts);
    }
  }

  lemma NoItems<T>()
    ensures ItemTokens<T>([]) == [] && Args<T>([]) == [] && Reds<T>([]) == []
  {
  }

  lemma FitsMore<T>(red: Red<T>, reds: seq<Red<T>>)
    requires red.c in REDIRS && RedsFit(reds)
    ensures RedsFit([red] + reds)
  {
  }

  lemma WordsCases<T>(argv: seq<T>, reds: seq<Red<T>>, ts: seq<Tok<T>>)
    requires ParseWords(argv, reds, ts).Done?
    ensures if ts == [] || Begins(ts, STOPS) then ParseWords(argv, reds, ts) == Done(Wrapped(Exec(argv), reds), ts)
            else if Begins(ts, REDIRS) then |ts| > 1 && ts[1].Word?
            else ts[0].Word? && |argv| + 1 < MAXARGS
  {
    hide Wrapped;
  }

  lemma Again<T>(a: seq<T>, b: seq<T>, c: seq<T>, ts: seq<T>)
    requires |a| <= |ts| && ts[..|a|] == a && ts[|a|..] == b + c
    ensures (a + b) + c == ts
  {
  }

  // The parser accepts exactly the lines of the grammar, and the command it
  // makes of one is the one the line means.
  lemma ParseExactlyWhen<T>(ts: seq<Tok<T>>, cmd: Cmd<T>)
    ensures Parse(ts) == Done(cmd, []) <==>
            exists l: Line<T> :: LineFits(l) && LineTokens(l) == ts && LineTree(l) == cmd
  {
    if Parse(ts) == Done(cmd, []) {
      var l := LineFound(ts);
      assert LineTokens(l) + [] == LineTokens(l);
    }
    if l: Line<T> :| LineFits(l) && LineTokens(l) == ts && LineTree(l) == cmd {
      LineParsed(l, []);
      assert LineTokens(l) + [] == ts;
    }
  }

  // ---- every command has a line ----

  // Commands that sh.c can make: few enough words, and redirections as it
  // makes them.
  predicate Sound<T>(cmd: Cmd<T>)
  {
    match cmd
    case Exec(argv) => |argv| < MAXARGS
    case Redir(c, file, mode, fd) =>
      Sound(c) && ((mode == O_RDONLY && fd == 0) || (mode == O_WRONLY + O_CREATE && fd == 1))
    case Pipe(l, r) => Sound(l) && Sound(r)
    case List(l, r) => Sound(l) && Sound(r)
    case Back(c) => Sound(c)
  }

  // The command under the redirections, and those.
  function Bare<T>(cmd: Cmd<T>): (r: Cmd<T>)
    ensures !r.Redir? && (cmd.Redir? ==> r < cmd)
  {
    if cmd.Redir? then Bare(cmd.cmd) else cmd
  }

  function RedsOf<T>(cmd: Cmd<T>): seq<Red<T>>
  {
    if cmd.Redir? then RedsOf(cmd.cmd) + [Red(if cmd.fd == 0 then '<' else '>', cmd.file)] else []
  }

  // The canonical line: parentheses only where they are needed.
  function Shown<T>(cmd: Cmd<T>): Line<T>
    decreases cmd, 3
  {
    match cmd
    case List(l, r) => Then(ShownBacked(l), Backs(l), Shown(r))
    case _ => Last(ShownBacked(cmd), Backs(cmd))
  }

  function Backs<T>(cmd: Cmd<T>): nat { if cmd.Back? then Backs(cmd.cmd) + 1 else 0 }

  function ShownBacked<T>(cmd: Cmd<T>): Pipeline<T>
    decreases cmd, 2
  {
    match cmd
    case Back(c) => ShownBacked(c)
    case _ => ShownPipe(cmd)
  }

  function ShownPipe<T>(cmd: Cmd<T>): Pipeline<T>
    decreases cmd, 1
  {
    match cmd
    case Pipe(l, r) => Piped(ShownSimple(l), ShownPipe(r))
    case _ => One(ShownSimple(cmd))
  }

  function ShownSimple<T>(cmd: Cmd<T>): Simple<T>
    decreases cmd, 0
  {
    match cmd
    case Exec(argv) => Plain(Words(argv))
    case Redir(c, file, mode, fd) =>
      if Bare(c).Exec? then Plain(Words(Bare(c).argv) + Redirects(RedsOf(cmd)))
      else Block(Shown(Bare(c)), RedsOf(cmd))
    case Pipe(l, r) => Block(Last(Piped(ShownSimple(l), ShownPipe(r)), 0), [])
    case List(l, r) => Block(Then(ShownBacked(l), Backs(l), Shown(r)), [])
    case Back(c) => Block(Last(ShownBacked(c), Backs(c) + 1), [])
  }

  function Words<T>(argv: seq<T>): (r: seq<Item<T>>)
  {
    if argv == [] then [] else [Arg(argv[0])] + Words(argv[1..])
  }

  function Redirects<T>(reds: seq<Red<T>>): seq<Item<T>>
  {
    if reds == [] then [] else [Redirect(reds[0])] + Redirects(reds[1..])
  }

  // The canonical line of a command means that command.
  lemma {:induction false} ShownMeans<T>(cmd: Cmd<T>)
    requires Sound(cmd)
    ensures LineFits(Shown(cmd)) && LineTree(Shown(cmd)) == cmd
    decreases cmd, 3
  {
    match cmd
    case List(l, r) =>
      BackedMeans(l);
      ShownMeans(r);
    case _ => BackedMeans(cmd);
  }

  lemma {:induction false} BackedMeans<T>(cmd: Cmd<T>)
    requires Sound(cmd)
    ensures PipeFits(ShownBacked(cmd)) && Backed(PipeTree(ShownBacked(cmd)), Backs(cmd)) == cmd
    decreases cmd, 2
  {
    match cmd
    case Back(c) => BackedMeans(c);
    case _ => PipeMeans(cmd);
  }

  lemma {:induction false} PipeMeans<T>(cmd: Cmd<T>)
    requires Sound(cmd)
    ensures PipeFits(ShownPipe(cmd)) && PipeTree(ShownPipe(cmd)) == cmd
    decreases cmd, 1
  {
    match cmd
    case Pipe(l, r) =>
      SimpleMeans(l);
      PipeMeans(r);
    case _ => SimpleMeans(cmd);
  }

  lemma {:induction false} SimpleMeans<T>(cmd: Cmd<T>)
    requires Sound(cmd)
    ensures SimpleFits(ShownSimple(cmd)) && SimpleTree(ShownSimple(cmd)) == cmd
    decreases cmd, 0
  {
    match cmd
    case Exec(argv) =>
      WordsMean(argv, []);
      assert Words(argv) + Redirects<T>([]) == Words(argv);
    case Redir(c, file, mode, fd) =>
      BareMeans(cmd);
      if Bare(c).Exec? {
        WordsMean(Bare(c).argv, RedsOf(cmd));
      } else {
        ShownMeans(Bare(c));
      }
    case Pipe(l, r) =>
      SimpleMeans(l);
      PipeMeans(r);
      BlockMeans(Last(Piped(ShownSimple(l), ShownPipe(r)), 0));
    case List(l, r) =>
      BackedMeans(l);
      ShownMeans(r);
      BlockMeans(Then(ShownBacked(l), Backs(l), Shown(r)));
    case Back(c) =>
      BackedMeans(c);
      BlockMeans(Last(ShownBacked(c), Backs(c) + 1));
  }

  lemma BlockMeans<T>(l: Line<T>)
    ensures SimpleTree(Block(l, [])) == LineTree(l)
    ensures SimpleFits(Block(l, [])) == LineFits(l)
    ensures LineTree(l) == if l.Last? then Backed(PipeTree(l.pipe), l.backs)
                           else List(Backed(PipeTree(l.pipe), l.backs), LineTree(l.next))
    ensures l.pipe.Piped? ==> PipeTree(l.pipe) == Pipe(SimpleTree(l.pipe.simple), PipeTree(l.pipe.next))
  {
  }

  lemma {:induction false} BareMeans<T>(cmd: Cmd<T>)
    requires Sound(cmd)
    ensures Sound(Bare(cmd)) && RedsFit(RedsOf(cmd)) && Wrapped(Bare(cmd), RedsOf(cmd)) == cmd
  {
    if cmd.Redir? {
      BareMeans(cmd.cmd);
      var reds := RedsOf(cmd);
      assert reds[..|reds| - 1] == RedsOf(cmd.cmd);
    }
  }

  lemma {:induction false} WordsMean<T>(argv: seq<T>, reds: seq<Red<T>>)
    ensures Args(Words(argv) + Redirects(reds)) == argv && Reds(Words(argv) + Redirects(reds)) == reds
    decreases |argv|, |reds|
  {
    if argv != [] {
      WordsMean(argv[1..], reds);
      assert Words(argv) + Redirects(reds) == [Arg(argv[0])] + (Words(argv[1..]) + Redirects(reds));
      OneItem(Arg(argv[0]), Words(argv[1..]) + Redirects(reds));
    } else if reds != [] {
      WordsMean(argv, reds[1..]);
      assert Words(argv) + Redirects(reds) == [Redirect(reds[0])] + (Words(argv) + Redirects(reds[1..]));
      OneItem(Redirect(reds[0]), Words(argv) + Redirects(reds[1..]));
    }
  }

  // Parsing the canonical line of a command gives the command back.
  lemma ParseShown<T>(cmd: Cmd<T>)
    requires Sound(cmd)
    ensures Parse(LineTokens(Shown(cmd))) == Done(cmd, [])
  {
    ShownMeans(cmd);
    ParseExactlyWhen(LineTokens(Shown(cmd)), cmd);
  }

  // ---- the words of a command ----

  function WordsOf<T>(cmd: Cmd<T>): set<T>
  {
    match cmd
    case Exec(argv) => set w | w in argv
    case Redir(c, file, _, _) => WordsOf(c) + {file}
    case Pipe(l, r) => WordsOf(l) + WordsOf(r)
    case List(l, r) => WordsOf(l) + WordsOf(r)
    case Back(c) => WordsOf(c)
  }

  // A line and the command it means have the same words.
  lemma {:induction false} LineWords<T(!new)>(l: Line<T>, w: T)
    ensures w in WordsOf(LineTree(l)) <==> Word(w) in LineTokens(l)
    decreases l
  {
    PipeWords(l.pipe, w);
    BackedWords(PipeTree(l.pipe), l.backs, w);
    if l.Then? { LineWords(l.next, w); }
  }

  lemma {:induction false} BackedWords<T>(cmd: Cmd<T>, n: nat, w: T)
    ensures w in WordsOf(Backed(cmd, n)) <==> w in WordsOf(cmd)
    ensures Word(w) !in Amps(n)
  {
    if n > 0 { BackedWords(cmd, n - 1, w); }
  }

  lemma {:induction false} PipeWords<T(!new)>(p: Pipeline<T>, w: T)
    ensures w in WordsOf(PipeTree(p)) <==> Word(w) in PipeTokens(p)
    decreases p
  {
    SimpleWords(p.simple, w);
    if p.Piped? { PipeWords(p.next, w); }
  }

  lemma {:induction false} SimpleWords<T(!new)>(s: Simple<T>, w: T)
    ensures w in WordsOf(SimpleTree(s)) <==> Word(w) in SimpleTokens(s)
    decreases s
  {
    match s
    case Block(line, reds) =>
      LineWords(line, w);
      WrappedWords(LineTree(line), reds, w);
      RedWords(reds, w);
    case Plain(items) =>
      WrappedWords(Exec(Args(items)), Reds(items), w);
      ItemWords(items, w);
  }

  ghost predicate HasFile<T(!new)>(reds: seq<Red<T>>, w: T) { exists k :: 0 <= k < |reds| && reds[k].file == w }

  lemma HasFileSplit<T(!new)>(a: seq<Red<T>>, b: seq<Red<T>>, w: T)
    ensures HasFile(a + b, w) <==> HasFile(a, w) || HasFile(b, w)
  {
    if k :| 0 <= k < |a| && a[k].file == w { assert (a + b)[k].file == w; }
    if k :| 0 <= k < |b| && b[k].file == w { assert (a + b)[|a| + k].file == w; }
  }

  lemma HasFileOne<T(!new)>(red: Red<T>, w: T)
    ensures HasFile([red], w) <==> red.file == w
  {
    assert [red][0] == red;
  }

  lemma {:induction false} WrappedWords<T(!new)>(cmd: Cmd<T>, reds: seq<Red<T>>, w: T)
    ensures w in WordsOf(Wrapped(cmd, reds)) <==> w in WordsOf(cmd) || HasFile(reds, w)
  {
    if reds != [] {
      var init, last := reds[..|reds| - 1], reds[|reds| - 1];
      WrappedWords(cmd, init, w);
      assert reds == init + [last];
      HasFileSplit(init, [last], w);
      HasFileOne(last, w);
    }
  }

  lemma {:induction false} RedWords<T(!new)>(reds: seq<Red<T>>, w: T)
    ensures Word(w) in RedTokens(reds) <==> HasFile(reds, w)
  {
    if reds != [] {
      RedWords(reds[1..], w);
      assert reds == [reds[0]] + reds[1..];
      HasFileSplit([reds[0]], reds[1..], w);
      HasFileOne(reds[0], w);
    }
  }

  lemma {:induction false} ItemWords<T(!new)>(items: seq<Item<T>>, w: T)
    ensures Word(w) in ItemTokens(items) <==> w in Args(items) || HasFile(Reds(items), w)
  {
    hide HasFile;
    if items == [] {
      NoFile(w);
    } else {
      var item, more := items[0], items[1..];
      ItemWords(more, w);
      assert items == [item] + more;
      OneItem(item, more);
      HasFileSplit(if item.Redirect? then [item.red] else [], Reds(more), w);
      if item.Redirect? { HasFileOne(item.red, w); } else { NoFile(w); }
    }
  }

  lemma NoFile<T(!new)>(w: T)
    ensures !HasFile<T>([], w)
  {
  }

  // The symbols of a line.
  lemma {:induction false} LineSymbols<T>(l: Line<T>, c: char)
    requires LineFits(l) && Sym(c) in LineTokens(l)
    ensures c in "<>+|&;()"
    decreases l
  {
    if Sym(c) in PipeTokens(l.pipe) {
      PipeSymbols(l.pipe, c);
    } else if Sym(c) in Amps<T>(l.backs) {
      AmpSymbols<T>(l.backs, c);
    } else if l.Then? && Sym(c) in LineTokens(l.next) {
      LineSymbols(l.next, c);
    }
  }

  lemma {:induction false} AmpSymbols<T>(n: nat, c: char)
    requires Sym(c) in Amps<T>(n)
    ensures c == '&'
  {
    if Sym(c) in Amps<T>(n - 1) { AmpSymbols<T>(n - 1, c); }
  }

  lemma {:induction false} PipeSymbols<T>(p: Pipeline<T>, c: char)
    requires PipeFits(p) && Sym(c) in PipeTokens(p)
    ensures c in "<>+|&;()"
    decreases p
  {
    if Sym(c) in SimpleTokens(p.simple) {
      match p.simple
      case Block(line, reds) =>
        if Sym(c) in LineTokens(line) {
          LineSymbols(line, c);
        } else if Sym(c) in RedTokens(reds) {
          RedSymbols(reds, c);
        }
      case Plain(items) => ItemSymbols(items, c);
    } else if p.Piped? && Sym(c) in PipeTokens(p.next) {
      PipeSymbols(p.next, c);
    }
  }

  lemma {:induction false} RedSymbols<T>(reds: seq<Red<T>>, c: char)
    requires RedsFit(reds) && Sym(c) in RedTokens(reds)
    ensures c in REDIRS
  {
    if Sym(c) in RedTokens(reds[1..]) { RedSymbols(reds[1..], c); }
  }

  lemma {:induction false} ItemSymbols<T>(items: seq<Item<T>>, c: char)
    requires RedsFit(Reds(items)) && Sym(c) in ItemTokens(items)
    ensures c in REDIRS
  {
    var item, more := items[0], items[1..];
    assert items == [item] + more;
    OneItem(item, more);
    if item.Redirect? {
      assert Reds(items)[0] == item.red && Reds(items)[1..] == Reds(more);
    } else {
      assert Reds(items) == Reds(more);
    }
    if Sym(c) in ItemTokens(more) { ItemSymbols(more, c); }
  }

  // ---- the words do not matter ----

  function MapCmd<T, U>(f: T -> U, cmd: Cmd<T>): Cmd<U>
  {
    match cmd
    case Exec(argv) => Exec(MapWords(f, argv))
    case Redir(c, file, mode, fd) => Redir(MapCmd(f, c), f(file), mode, fd)
    case Pipe(l, r) => Pipe(MapCmd(f, l), MapCmd(f, r))
    case List(l, r) => List(MapCmd(f, l), MapCmd(f, r))
    case Back(c) => Back(MapCmd(f, c))
  }

  function MapWords<T, U>(f: T -> U, ws: seq<T>): (r: seq<U>)
    ensures |r| == |ws| && forall k :: 0 <= k < |ws| ==> r[k] == f(ws[k])
  {
    if ws == [] then [] else MapWords(f, ws[..|ws| - 1]) + [f(ws[|ws| - 1])]
  }

  function MapTok<T, U>(f: T -> U, t: Tok<T>): Tok<U> { if t.Sym? then Sym(t.c) else Word(f(t.w)) }

  function MapTokens<T, U>(f: T -> U, ts: seq<Tok<T>>): (r: seq<Tok<U>>)
    ensures |r| == |ts| && forall k :: 0 <= k < |ts| ==> r[k] == MapTok(f, ts[k])
  {
    if ts == [] then [] else MapTokens(f, ts[..|ts| - 1]) + [MapTok(f, ts[|ts| - 1])]
  }

  function MapReds<T, U>(f: T -> U, reds: seq<Red<T>>): (r: seq<Red<U>>)
    ensures |r| == |reds| && forall k :: 0 <= k < |reds| ==> r[k] == Red(reds[k].c, f(reds[k].file))
  {
    if reds == [] then [] else MapReds(f, reds[..|reds| - 1]) + [Red(reds[|reds| - 1].c, f(reds[|reds| - 1].file))]
  }

  function MapParsed<T, U>(f: T -> U, r: Parsed<T>): Parsed<U>
  {
    match r
    case Fail => Fail
    case Done(cmd, rest) => Done(MapCmd(f, cmd), MapTokens(f, rest))
  }

  lemma TailMapped<T, U>(f: T -> U, ts: seq<Tok<T>>, k: nat)
    requires k <= |ts|
    ensures MapTokens(f, ts)[k..] == MapTokens(f, ts[k..])
    ensures forall cs: string :: Begins(MapTokens(f, ts), cs) == Begins(ts, cs)
  {
  }

  lemma {:induction false} WrappedMapped<T, U>(f: T -> U, cmd: Cmd<T>, reds: seq<Red<T>>)
    ensures MapCmd(f, Wrapped(cmd, reds)) == Wrapped(MapCmd(f, cmd), MapReds(f, reds))
  {
    if reds != [] {
      WrappedMapped(f, cmd, reds[..|reds| - 1]);
      assert MapReds(f, reds)[..|reds| - 1] == MapReds(f, reds[..|reds| - 1]);
    }
  }

  lemma {:induction false} RedirsMapped<T, U>(f: T -> U, cmd: Cmd<T>, reds: seq<Red<T>>, ts: seq<Tok<T>>)
    ensures ParseRedirs(MapCmd(f, cmd), MapReds(f, reds), MapTokens(f, ts)) == MapParsed(f, ParseRedirs(cmd, reds, ts))
    decreases |ts|
  {
    hide MapCmd, Wrapped;
    TailMapped(f, ts, 0);
    if Begins(ts, REDIRS) && |ts| > 1 && ts[1].Word? {
      var red := Red(ts[0].c, ts[1].w);
      TailMapped(f, ts, 2);
      assert MapReds(f, reds + [red]) == MapReds(f, reds) + [Red(red.c, f(red.file))];
      RedirsMapped(f, cmd, reds + [red], ts[2..]);
    } else if !Begins(ts, REDIRS) {
      WrappedMapped(f, cmd, reds);
    }
  }

  lemma {:induction false} WordsMapped<T, U>(f: T -> U, argv: seq<T>, reds: seq<Red<T>>, ts: seq<Tok<T>>)
    ensures ParseWords(MapWords(f, argv), MapReds(f, reds), MapTokens(f, ts)) ==
            MapParsed(f, ParseWords(argv, reds, ts))
    decreases |ts|
  {
    hide Wrapped;
    TailMapped(f, ts, 0);
    if ts == [] || Begins(ts, STOPS) {
      WrappedMapped(f, Exec(argv), reds);
    } else if Begins(ts, REDIRS) {
      if |ts| > 1 && ts[1].Word? {
        var red := Red(ts[0].c, ts[1].w);
        TailMapped(f, ts, 2);
        assert MapReds(f, reds + [red]) == MapReds(f, reds) + [Red(red.c, f(red.file))];
        WordsMapped(f, argv, reds + [red], ts[2..]);
      }
    } else if ts[0].Word? && |argv| + 1 < MAXARGS {
      TailMapped(f, ts, 1);
      assert MapWords(f, argv + [ts[0].w]) == MapWords(f, argv) + [f(ts[0].w)];
      WordsMapped(f, argv + [ts[0].w], reds, ts[1..]);
    }
  }

  lemma {:induction false} BacksMapped<T, U>(f: T -> U, cmd: Cmd<T>, ts: seq<Tok<T>>)
    ensures ParseBacks(MapCmd(f, cmd), MapTokens(f, ts)) == MapParsed(f, ParseBacks(cmd, ts))
    decreases |ts|
  {
    TailMapped(f, ts, 0);
    if Begins(ts, "&") {
      TailMapped(f, ts, 1);
      BacksMapped(f, Back(cmd), ts[1..]);
    }
  }

  lemma {:induction false} ExecMapped<T, U>(f: T -> U, ts: seq<Tok<T>>)
    ensures ParseExec(MapTokens(f, ts)) == MapParsed(f, ParseExec(ts))
    decreases |ts|, 1
  {
    hide ParseExec, ParseLine, ParseRedirs, ParseWords;
    ExecStep(ts);
    ExecStep(MapTokens(f, ts));
    TailMapped(f, ts, 0);
    if Begins(ts, "(") {
      TailMapped(f, ts, 1);
      LineMapped(f, ts[1..]);
      if ParseLine(ts[1..]).Done? {
        var cmd, rest := ParseLine(ts[1..]).cmd, ParseLine(ts[1..]).rest;
        TailMapped(f, rest, 0);
        if Begins(rest, ")") {
          TailMapped(f, rest, 1);
          RedirsMapped(f, cmd, [], rest[1..]);
          assert MapReds(f, []) == [];
        }
      }
    } else {
      WordsMapped(f, [], [], ts);
      assert MapReds(f, []) == [] && MapWords(f, []) == [];
    }
  }

  lemma {:induction false} PipeMapped<T, U>(f: T -> U, ts: seq<Tok<T>>)
    ensures ParsePipe(MapTokens(f, ts)) == MapParsed(f, ParsePipe(ts))
    decreases |ts|, 2
  {
    hide ParsePipe, ParseExec;
    PipeStep(ts);
    PipeStep(MapTokens(f, ts));
    ExecMapped(f, ts);
    if ParseExec(ts).Done? {
      var rest := ParseExec(ts).rest;
      TailMapped(f, rest, 0);
      if Begins(rest, "|") {
        TailMapped(f, rest, 1);
        PipeMapped(f, rest[1..]);
      }
    }
  }

  // Parsing looks at symbols only: what the words are makes no difference.
  lemma {:induction false} LineMapped<T, U>(f: T -> U, ts: seq<Tok<T>>)
    ensures ParseLine(MapTokens(f, ts)) == MapParsed(f, ParseLine(ts))
    decreases |ts|, 3
  {
    hide ParsePipe, ParseBacks;
    PipeMapped(f, ts);
    if ParsePipe(ts).Done? {
      var cmd, rest := ParsePipe(ts).cmd, ParsePipe(ts).rest;
      BacksMapped(f, cmd, rest);
      var rest1 := ParseBacks(cmd, rest).rest;
      TailMapped(f, rest1, 0);
      if Begins(rest1, ";") {
        TailMapped(f, rest1, 1);
        LineMapped(f, rest1[1..]);
      }
    }
  }

  // ---- what the symbols mean ----

  // A pipe binds tighter than & and ;, which & closes for one command alone.
  lemma PipesAndLists<T>(a: T, b: T, c: T)
    ensures Parse([Word(a), Sym('|'), Word(b), Sym(';'), Word(c), Sym('&')])
            == Done(List(Pipe(Exec([a]), Exec([b])), Back(Exec([c]))), [])
  {
    var ts := [Word(a), Sym('|'), Word(b), Sym(';'), Word(c), Sym('&')];
    ParseOne(a, ts[1..]);
    ParseOne(b, ts[3..]);
    ParseOne(c, ts[5..]);
    hide ParseExec;
    assert ts == [Word(a)] + ts[1..] && ts[1..][1..] == [Word(b)] + ts[3..] && ts[3..][1..] == [Word(c)] + ts[5..];
    assert ParsePipe(ts[1..][1..]) == Done(Exec([b]), ts[3..]);
    assert ParsePipe(ts) == Done(Pipe(Exec([a]), Exec([b])), ts[3..]);
    assert ParsePipe(ts[3..][1..]) == Done(Exec([c]), ts[5..]);
    var back := Back(Exec([c]));
    assert ts[5..][1..] == [] && ParseBacks(Exec([c]), ts[5..]) == ParseBacks(back, []) == Done(back, []);
    assert ParseLine(ts[3..][1..]) == Done(back, []);
  }

  // One word, as a command.
  lemma ParseOne<T>(a: T, rest: seq<Tok<T>>)
    requires rest != [] && Begins(rest, STOPS)
    ensures ParseExec([Word(a)] + rest) == Done(Exec([a]), rest)
  {
    var ts := [Word(a)] + rest;
    assert ts[1..] == rest && [] + [a] == [a];
    assert ParseWords([], [], ts) == ParseWords([a], [], rest);
  }

  // < reads from the file, > and >> write to it and make it; the last one of a
  // line is the outermost.
  lemma Redirections<T>(a: T, f: T, g: T, c: char)
    requires c == '>' || c == '+'
    ensures Parse([Word(a), Sym('<'), Word(f), Sym(c), Word(g)])
            == Done(Redir(Redir(Exec([a]), f, 0, 0), g, 0x201, 1), [])
  {
    var ts := [Word(a), Sym('<'), Word(f), Sym(c), Word(g)];
    var r1, r2 := [Red('<', f)], [Red('<', f), Red(c, g)];
    var last: seq<Tok<T>> := [Sym(c), Word(g)];
    assert ts == [Word(a)] + ([Sym('<'), Word(f)] + last) && [] + [a] == [a] && last == [Sym(c), Word(g)] + [];
    assert [] + [Red('<', f)] == r1 && r1 + [Red(c, g)] == r2;
    WordsArg([], [], a, [Sym('<'), Word(f)] + last);
    WordsRed([a], [], Red('<', f), last);
    WordsRed([a], r1, Red(c, g), []);
    TwoWrapped(Exec([a]), f, c, g);
    var cmd := Redir(Redir(Exec([a]), f, 0, 0), g, 0x201, 1);
    assert ParseWords([a], r2, []) == Done(cmd, []);
    hide ParseWords, Wrapped;
    Whole(ts, cmd);
  }

  lemma TwoWrapped<T>(cmd: Cmd<T>, f: T, c: char, g: T)
    requires c != '<'
    ensures Wrapped(cmd, [Red('<', f), Red(c, g)]) == Redir(Redir(cmd, f, 0, 0), g, 0x201, 1)
  {
    var r := [Red('<', f), Red(c, g)];
    assert r[..1] == [Red('<', f)] && r[..1][..0] == [];
    assert Wrapped(cmd, r[..1]) == Redir(cmd, f, 0, 0);
  }

  // A line of one simple command.
  lemma Whole<T>(ts: seq<Tok<T>>, cmd: Cmd<T>)
    requires ParseExec(ts) == Done(cmd, [])
    ensures Parse(ts) == Done(cmd, [])
  {
    assert ParsePipe(ts) == Done(cmd, []) && ParseBacks(cmd, []) == Done(cmd, []);
  }

  // Parentheses make a line a command.
  lemma Parentheses<T>(a: T, b: T, c: T)
    ensures Parse([Sym('('), Word(a), Sym(';'), Word(b), Sym(')'), Sym('|'), Word(c)])
            == Done(Pipe(List(Exec([a]), Exec([b])), Exec([c])), [])
  {
    var tail: seq<Tok<T>> := [Sym('|'), Word(c)];
    var ts := [Sym('('), Word(a), Sym(';'), Word(b), Sym(')')] + tail;
    assert ts == [Sym('('), Word(a), Sym(';'), Word(b), Sym(')'), Sym('|'), Word(c)];
    Enclosed(a, b, tail);
    assert ParseExec([Word(c)]) == Done(Exec([c]), []) by {
      assert [Word(c)] == [Word(c)] + [] && [] + [c] == [c];
      WordsArg([], [], c, []);
    }
    hide ParseExec;
    assert tail[1..] == [Word(c)];
    var cmd := Pipe(List(Exec([a]), Exec([b])), Exec([c]));
    assert ParsePipe([Word(c)]) == Done(Exec([c]), []) && ParsePipe(ts) == Done(cmd, []);
    assert ParseBacks(cmd, []) == Done(cmd, []);
  }

  lemma Enclosed<T>(a: T, b: T, tail: seq<Tok<T>>)
    requires tail != [] && Begins(tail, STOPS)
    ensures ParseExec([Sym('('), Word(a), Sym(';'), Word(b), Sym(')')] + tail)
            == Done(List(Exec([a]), Exec([b])), tail)
  {
    var inner: seq<Tok<T>> := [Word(a), Sym(';'), Word(b)];
    var ts, l := [Sym('('), Word(a), Sym(';'), Word(b), Sym(')')] + tail, List(Exec([a]), Exec([b]));
    TwoInLine(a, b, [Sym(')')] + tail);
    hide ParseLine, ParseWords;
    assert ts[1..] == inner + ([Sym(')')] + tail) && ([Sym(')')] + tail)[1..] == tail;
    assert ParseRedirs(l, [], tail) == Done(l, tail);
  }

  lemma TwoInLine<T>(a: T, b: T, tail: seq<Tok<T>>)
    requires tail != [] && Begins(tail, ")")
    ensures ParseLine([Word(a), Sym(';'), Word(b)] + tail) == Done(List(Exec([a]), Exec([b])), tail)
  {
    var ts := [Word(a), Sym(';'), Word(b)] + tail;
    ParseOne(a, ts[1..]);
    ParseOne(b, tail);
    hide ParseExec;
    assert ts == [Word(a)] + ts[1..] && ts[1..][1..] == [Word(b)] + tail;
    assert ParsePipe(ts) == Done(Exec([a]), ts[1..]) && ParseBacks(Exec([a]), ts[1..]) == Done(Exec([a]), ts[1..]);
    assert ParseLine([Word(b)] + tail) == Done(Exec([b]), tail);
  }
}
