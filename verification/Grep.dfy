/** grep's matcher, and what its patterns mean. A C string is a sequence of
    characters other than the terminating null. */
module Grep {

  /** What one character of a pattern stands for. */
  datatype Item = Any | Only(c: char)

  /** A pattern is a sequence of items, each taken once or any number of
      times, that may have to begin or end where the text does. */
  datatype Elem = One(item: Item) | Star(item: Item)
  datatype Pattern = Pattern(fromStart: bool, elems: seq<Elem>, toEnd: bool)

  function ItemOf(c: char): Item { if c == '.' then Any else Only(c) }

  predicate Fits(it: Item, c: char) { it.Any? || it.c == c }

  // How a pattern is read: '*' after a character repeats it, whatever it is;
  // '$' is special as the last character only, '^' as the first only.
  function Read(re: string): Pattern
  {
    if re != "" && re[0] == '^' then Pattern(true, Elems(re[1..]), ToEnd(re[1..]))
    else Pattern(false, Elems(re), ToEnd(re))
  }

  function Elems(re: string): seq<Elem>
  {
    if re == "" then []
    else if 2 <= |re| && re[1] == '*' then [Star(ItemOf(re[0]))] + Elems(re[2..])
    else if re == "$" then []
    else [One(ItemOf(re[0]))] + Elems(re[1..])
  }

  predicate ToEnd(re: string)
  {
    if re == "" then false
    else if 2 <= |re| && re[1] == '*' then ToEnd(re[2..])
    else if re == "$" then true
    else ToEnd(re[1..])
  }

  // All of s is what the items stand for, in order.
  ghost predicate Spells(es: seq<Elem>, s: string)
    decreases |es|
  {
    if es == [] then s == ""
    else match es[0]
      case One(it) => s != "" && Fits(it, s[0]) && Spells(es[1..], s[1..])
      case Star(it) => exists k: nat :: k <= |s| && AllFit(it, s[..k]) && Spells(es[1..], s[k..])
  }

  predicate AllFit(it: Item, s: string) { forall i :: 0 <= i < |s| ==> Fits(it, s[i]) }

  // Some piece of the text is what the pattern stands for.
  ghost predicate Matches(p: Pattern, text: string)
  {
    exists i: nat, j: nat :: i <= j <= |text| && (p.fromStart ==> i == 0) && (p.toEnd ==> j == |text|)
        && Spells(p.elems, text[i..j])
  }

  // ... a piece at its beginning.
  ghost predicate Begins(es: seq<Elem>, toEnd: bool, text: string)
  {
    exists j: nat :: j <= |text| && (toEnd ==> j == |text|) && Spells(es, text[..j])
  }

  lemma BeginsNone(toEnd: bool, text: string)
    ensures Begins([], toEnd, text) <==> !toEnd || text == ""
  {
    if !toEnd || text == "" { assert Spells([], text[..0]); }
  }

  lemma BeginsOne(it: Item, es: seq<Elem>, toEnd: bool, text: string)
    ensures Begins([One(it)] + es, toEnd, text) <==> text != "" && Fits(it, text[0]) && Begins(es, toEnd, text[1..])
  {
    var all := [One(it)] + es;
    assert all[1..] == es;
    if Begins(all, toEnd, text) {
      var j :| 0 <= j <= |text| && (toEnd ==> j == |text|) && Spells(all, text[..j]);
      assert text[..j][1..] == text[1..][..j - 1];
    }
    if text != "" && Fits(it, text[0]) && Begins(es, toEnd, text[1..]) {
      var j :| 0 <= j <= |text| - 1 && (toEnd ==> j == |text| - 1) && Spells(es, text[1..][..j]);
      assert text[..j + 1][1..] == text[1..][..j];
      assert Spells(all, text[..j + 1]);
    }
  }

  lemma BeginsStar(it: Item, es: seq<Elem>, toEnd: bool, text: string)
    ensures Begins([Star(it)] + es, toEnd, text) <==>
      Begins(es, toEnd, text) || (text != "" && Fits(it, text[0]) && Begins([Star(it)] + es, toEnd, text[1..]))
  {
    hide Spells, AllFit;
    var all := [Star(it)] + es;
    if Begins(all, toEnd, text) {
      var j: nat :| j <= |text| && (toEnd ==> j == |text|) && Spells(all, text[..j]);
      StarShorter(it, es, text[..j]);
      if Spells(es, text[..j]) { } else { assert text[..j][1..] == text[1..][..j - 1]; }
    }
    if Begins(es, toEnd, text) {
      var j: nat :| j <= |text| && (toEnd ==> j == |text|) && Spells(es, text[..j]);
      StarNone(it, es, text[..j]);
    }
    if text != "" && Fits(it, text[0]) && Begins(all, toEnd, text[1..]) {
      var j: nat :| j <= |text| - 1 && (toEnd ==> j == |text| - 1) && Spells(all, text[1..][..j]);
      StarOneMore(it, es, text[0], text[1..][..j]);
      assert [text[0]] + text[1..][..j] == text[..j + 1];
    }
  }

  // Any number of times is none, or once and any number of times.
  lemma StarShorter(it: Item, es: seq<Elem>, s: string)
    requires Spells([Star(it)] + es, s)
    ensures Spells(es, s) || (s != "" && Fits(it, s[0]) && Spells([Star(it)] + es, s[1..]))
  {
    var all := [Star(it)] + es;
    assert all[1..] == es;
    var k: nat :| k <= |s| && AllFit(it, s[..k]) && Spells(es, s[k..]);
    if k == 0 {
      assert s[0..] == s;
    } else {
      assert s[..k][0] == s[0] && s[1..][..k - 1] == s[..k][1..] && s[1..][k - 1..] == s[k..];
      assert AllFit(it, s[1..][..k - 1]);
    }
  }

  lemma StarNone(it: Item, es: seq<Elem>, s: string)
    requires Spells(es, s)
    ensures Spells([Star(it)] + es, s)
  {
    var all := [Star(it)] + es;
    assert all[1..] == es && s[0..] == s && AllFit(it, s[..0]);
  }

  lemma StarOneMore(it: Item, es: seq<Elem>, c: char, s: string)
    requires Fits(it, c) && Spells([Star(it)] + es, s)
    ensures Spells([Star(it)] + es, [c] + s)
  {
    var all, t := [Star(it)] + es, [c] + s;
    assert all[1..] == es;
    var k: nat :| k <= |s| && AllFit(it, s[..k]) && Spells(es, s[k..]);
    assert t[1..] == s && t[1..][..k] == s[..k] && t[1..][k..] == s[k..];
    assert t[..k + 1] == [c] + t[1..][..k];
    assert t[k + 1..] == t[1..][k..];
    assert AllFit(it, t[..k + 1]);
  }

  // Searching for re at the beginning of text.
  method Matchhere(re: string, text: string) returns (found: bool)
    ensures found <==> Begins(Elems(re), ToEnd(re), text)
    decreases |re|, 1
  {
    hide Begins;
    if re == "" {
      BeginsNone(false, text);
      return true;
    }
    if 2 <= |re| && re[1] == '*' {
      found := Matchstar(re[0], re[2..], text);
      return;
    }
    if re[0] == '$' && |re| == 1 {
      BeginsNone(true, text);
      assert re == "$";
      return text == "";
    }
    BeginsOne(ItemOf(re[0]), Elems(re[1..]), ToEnd(re[1..]), text);
    if text != "" && (re[0] == '.' || re[0] == text[0]) {
      found := Matchhere(re[1..], text[1..]);
      return;
    }
    return false;
  }

  // Searching for any number of c, then re, at the beginning of text.
  method Matchstar(c: char, re: string, text: string) returns (found: bool)
    ensures found <==> Begins([Star(ItemOf(c))] + Elems(re), ToEnd(re), text)
    decreases |re| + 1, 0
  {
    hide Begins, Elems, ToEnd;
    var at := 0;
    ghost var all := [Star(ItemOf(c))] + Elems(re);
    assert text[0..] == text;
    while true
      invariant at <= |text| && (Begins(all, ToEnd(re), text) <==> Begins(all, ToEnd(re), text[at..]))
      decreases |text| - at
    {
      BeginsStar(ItemOf(c), Elems(re), ToEnd(re), text[at..]);
      var here := Matchhere(re, text[at..]);
      if here {
        return true;
      }
      if !(at < |text| && (text[at] == c || c == '.')) {
        return false;
      }
      assert text[at..][1..] == text[at + 1..];
      at := at + 1;
    }
  }

  // Searching for re anywhere in text: true exactly when some piece of the
  // text is what the pattern stands for.
  method Match(re: string, text: string) returns (found: bool)
    ensures found <==> Matches(Read(re), text)
  {
    hide Spells, Elems, ToEnd;
    if re != "" && re[0] == '^' {
      found := Matchhere(re[1..], text);
      MatchesFirst(Elems(re[1..]), ToEnd(re[1..]), text);
      return;
    }
    var at := 0;
    while true
      invariant at <= |text|
      invariant forall i: nat :: i < at ==> !Begins(Elems(re), ToEnd(re), text[i..])
      decreases |text| - at
    {
      found := Matchhere(re, text[at..]);
      if found || at == |text| {
        break;
      }
      at := at + 1;
    }
    MatchesSome(Elems(re), ToEnd(re), text);
  }

  lemma MatchesFirst(es: seq<Elem>, toEnd: bool, text: string)
    ensures Matches(Pattern(true, es, toEnd), text) <==> Begins(es, toEnd, text)
  {
    hide Spells;
    forall j: nat | j <= |text| ensures text[0..j] == text[..j] { }
    if Begins(es, toEnd, text) {
      var j: nat :| j <= |text| && (toEnd ==> j == |text|) && Spells(es, text[..j]);
      assert Spells(es, text[0..j]);
    }
  }

  lemma MatchesSome(es: seq<Elem>, toEnd: bool, text: string)
    ensures Matches(Pattern(false, es, toEnd), text) <==> exists i: nat :: i <= |text| && Begins(es, toEnd, text[i..])
  {
    hide Spells;
    if Matches(Pattern(false, es, toEnd), text) {
      var i: nat, j: nat :| i <= j <= |text| && (toEnd ==> j == |text|) && Spells(es, text[i..j]);
      assert text[i..][..j - i] == text[i..j];
    }
    if i: nat :| i <= |text| && Begins(es, toEnd, text[i..]) {
      var j: nat :| j <= |text| - i && (toEnd ==> j == |text| - i) && Spells(es, text[i..][..j]);
      assert text[i..][..j] == text[i..i + j];
    }
  }

  // ---- what the characters of a pattern mean ----

  // Without special characters a pattern stands for itself.
  predicate Literal(re: string) { forall i :: 0 <= i < |re| ==> re[i] !in ".*^$" }

  lemma {:induction false} LiteralSpells(re: string, s: string)
    requires Literal(re)
    ensures Spells(Elems(re), s) <==> s == re
  {
    if re != "" {
      LiteralHead(re);
      LiteralSpells(re[1..], if s == "" then "" else s[1..]);
      hide Elems;
      assert [One(Only(re[0]))] + Elems(re[1..]) == Elems(re) && Elems(re)[1..] == Elems(re[1..]);
      assert re == [re[0]] + re[1..] && (s != "" ==> s == [s[0]] + s[1..]);
    }
  }

  lemma LiteralHead(re: string)
    requires Literal(re) && re != ""
    ensures Literal(re[1..]) && Elems(re) == [One(Only(re[0]))] + Elems(re[1..]) && ToEnd(re) == ToEnd(re[1..])
    ensures Elems(re + "$") == [One(Only(re[0]))] + Elems(re[1..] + "$") && ToEnd(re + "$") == ToEnd(re[1..] + "$")
  {
    assert (re + "$")[1..] == re[1..] + "$" && (re + "$")[0] == re[0];
    assert re[0] !in ".*^$" && (2 <= |re| ==> re[1] !in ".*^$");
    assert (re + "$")[1] == (if 2 <= |re| then re[1] else '$');
  }

  lemma {:induction false} LiteralEnd(re: string)
    requires Literal(re)
    ensures !ToEnd(re) && Elems(re + "$") == Elems(re) && ToEnd(re + "$")
  {
    if re == "" {
      assert re + "$" == "$";
    } else {
      LiteralHead(re);
      hide Elems, ToEnd;
      LiteralEnd(re[1..]);
    }
  }

  // A literal is found wherever it occurs; after ^ at the beginning only, before
  // $ at the end only, between the two as the whole text only.
  lemma LiteralMatches(re: string, text: string)
    requires Literal(re)
    ensures Matches(Read(re), text) <==> exists i: nat, j: nat :: i <= j <= |text| && text[i..j] == re
    ensures Matches(Read("^" + re), text) <==> re <= text
    ensures Matches(Read(re + "$"), text) <==> |re| <= |text| && text[|text| - |re|..] == re
    ensures Matches(Read("^" + re + "$"), text) <==> text == re
  {
    LiteralRead(re);
    forall t: string ensures Spells(Elems(re), t) <==> t == re { LiteralSpells(re, t); }
    hide Spells, Elems, ToEnd, Read;
    LiteralAt(re, false, false, text);
    LiteralAt(re, true, false, text);
    LiteralAt(re, false, true, text);
    LiteralAt(re, true, true, text);
  }

  lemma LiteralRead(re: string)
    requires Literal(re)
    ensures Read(re) == Pattern(false, Elems(re), false) && Read("^" + re) == Pattern(true, Elems(re), false)
    ensures Read(re + "$") == Pattern(false, Elems(re), true) && Read("^" + re + "$") == Pattern(true, Elems(re), true)
  {
    LiteralEnd(re);
    hide Elems, ToEnd;
    assert ("^" + re)[1..] == re && ("^" + re + "$")[1..] == re + "$" && ("^" + re + "$")[0] == '^';
    assert (re + "$")[0] == if re == "" then '$' else re[0];
  }

  lemma LiteralAt(re: string, fromStart: bool, toEnd: bool, text: string)
    requires forall t: string :: Spells(Elems(re), t) <==> t == re
    ensures Matches(Pattern(fromStart, Elems(re), toEnd), text) <==>
      exists i: nat, j: nat ::
        i <= j <= |text| && (fromStart ==> i == 0) && (toEnd ==> j == |text|) && text[i..j] == re
    ensures fromStart && toEnd ==> (Matches(Pattern(fromStart, Elems(re), toEnd), text) <==> text == re)
    ensures fromStart && !toEnd ==> (Matches(Pattern(fromStart, Elems(re), toEnd), text) <==> re <= text)
    ensures !fromStart && toEnd ==>
      (Matches(Pattern(fromStart, Elems(re), toEnd), text) <==> |re| <= |text| && text[|text| - |re|..] == re)
  {
    hide Spells, Elems;
    if re <= text { assert text[0..|re|] == re; }
    if |re| <= |text| && text[|text| - |re|..] == re { assert text[|text| - |re|..|text|] == re; }
    if text == re { assert text[0..|text|] == re; }
  }

  // A dot stands for any one character; c* for any number of c, and .* for
  // anything at all.
  lemma DotAndStar(c: char, text: string)
    requires c !in ".*^$"
    ensures Matches(Read("^.$"), text) <==> |text| == 1
    ensures Matches(Read("^.*$"), text)
    ensures Matches(Read(['^', c, '*', '$']), text) <==> forall i :: 0 <= i < |text| ==> text[i] == c
  {
    OneRead('.');
    StarRead('.');
    StarRead(c);
    hide Spells, Elems, ToEnd, Read, Matches;
    assert "^.$" == ['^', '.', '$'] && "^.*$" == ['^', '.', '*', '$'];
    MatchesWhole([One(Any)], text);
    MatchesWhole([Star(Any)], text);
    MatchesWhole([Star(Only(c))], text);
    OneSpells(Any, text);
    StarSpells(Any, text);
    StarSpells(Only(c), text);
  }

  lemma MatchesWhole(es: seq<Elem>, text: string)
    ensures Matches(Pattern(true, es, true), text) <==> Spells(es, text)
  {
    hide Spells;
    assert text[0..|text|] == text;
  }

  lemma OneRead(c: char)
    requires c !in "*^$"
    ensures Read(['^', c, '$']) == Pattern(true, [One(ItemOf(c))], true)
  {
    var re := [c, '$'];
    assert ['^', c, '$'][1..] == re && re[1..] == "$" && "$"[0] == '$';
    assert Elems("$") == [] && ToEnd("$");
  }

  lemma StarRead(c: char)
    requires c !in "*^$"
    ensures Read(['^', c, '*', '$']) == Pattern(true, [Star(ItemOf(c))], true)
  {
    var re := [c, '*', '$'];
    assert ['^', c, '*', '$'][1..] == re && re[2..] == "$";
    assert Elems("$") == [] && ToEnd("$");
  }

  lemma OneSpells(it: Item, s: string)
    ensures Spells([One(it)], s) <==> |s| == 1 && Fits(it, s[0])
  {
    assert [One(it)][1..] == [];
  }

  lemma StarSpells(it: Item, s: string)
    ensures Spells([Star(it)], s) <==> AllFit(it, s)
  {
    assert [Star(it)][1..] == [] && s[..|s|] == s && s[|s|..] == "";
    if AllFit(it, s) { assert AllFit(it, s[..|s|]) && Spells([], s[|s|..]); }
  }
}
