/** Path names: their elements, one at a time, and the walk along them. */
module Paths {
  import opened Options

  const DIRSIZ: nat := 14
  const NINODE: nat := 50
  const ROOTINO: nat := 1

  // ---- the elements of a path ----

  // The text between slashes, empty stretches and all.
  function Fields(path: string): (fs: seq<string>)
    ensures fs != []
  {
    if path == "" then [""]
    else if path[0] == '/' then [""] + Fields(path[1..])
    else [[path[0]] + Fields(path[1..])[0]] + Fields(path[1..])[1..]
  }

  function Cut(name: string): string { if |name| <= DIRSIZ then name else name[..DIRSIZ] }

  function NonEmpty(fs: seq<string>): seq<string>
  {
    if fs == [] then [] else (if fs[0] == "" then [] else [Cut(fs[0])]) + NonEmpty(fs[1..])
  }

  // The path elements: what is between slashes, where there is anything, cut
  // to what a directory entry holds.
  function Elements(path: string): seq<string> { NonEmpty(Fields(path)) }

  lemma {:induction false} Slashes(path: string, n: nat)
    requires n <= |path| && forall i :: 0 <= i < n ==> path[i] == '/'
    ensures Elements(path) == Elements(path[n..])
  {
    if n != 0 {
      assert path[1..][n - 1..] == path[n..];
      Slashes(path[1..], n - 1);
      assert Fields(path)[1..] == Fields(path[1..]);
    } else {
      assert path[0..] == path;
    }
  }

  // A first element: up to the next slash or the end.
  lemma {:induction false} FirstField(path: string, n: nat)
    requires n <= |path| && (forall i :: 0 <= i < n ==> path[i] != '/') && (n == |path| || path[n] == '/')
    ensures Fields(path)[0] == path[..n]
    ensures NonEmpty(Fields(path)[1..]) == Elements(path[n..])
  {
    if n != 0 {
      FirstField(path[1..], n - 1);
      assert path[1..][n - 1..] == path[n..] && path[..n] == [path[0]] + path[1..][..n - 1];
    } else {
      assert path[0..] == path;
      if path != "" { assert Fields(path)[1..] == Fields(path[1..]); }
    }
  }

  // The next element of path, and the path after it; None when there is none.
  method Skipelem(path: string) returns (r: Option<(string, string)>)
    ensures r.None? <==> Elements(path) == []
    ensures r.Some? ==> Elements(path) == [r.value.0] + Elements(r.value.1)
    ensures r.Some? ==> (r.value.1 == "" <==> Elements(r.value.1) == [])
    ensures r.Some? ==> |r.value.1| < |path|
  {
    hide Elements, Fields, NonEmpty;
    NoElement();
    var s := 0;
    while s < |path| && path[s] == '/'
      invariant s <= |path| && forall i :: 0 <= i < s ==> path[i] == '/'
    {
      s := s + 1;
    }
    Slashes(path, s);
    if s == |path| {
      assert path[s..] == "";
      return None;
    }
    var e := s;
    while e < |path| && path[e] != '/'
      invariant s <= e <= |path| && forall i :: s <= i < e ==> path[i] != '/'
    {
      e := e + 1;
    }
    FirstElement(path, s, e);
    var name := if e - s >= DIRSIZ then path[s..s + DIRSIZ] else path[s..e];
    assert name == Cut(path[s..e]);
    var p := e;
    while p < |path| && path[p] == '/'
      invariant e <= p <= |path| && forall i :: e <= i < p ==> path[i] == '/'
    {
      p := p + 1;
    }
    Slashes(path[e..], p - e);
    assert path[e..][p - e..] == path[p..];
    if p < |path| { SomeElement(path[p..]); }
    return Some((name, path[p..]));
  }

  lemma NoElement()
    ensures Elements("") == []
  {
    assert Fields("")[1..] == [];
  }

  lemma FirstElement(path: string, s: nat, e: nat)
    requires s < e <= |path| && (forall i :: s <= i < e ==> path[i] != '/') && (e == |path| || path[e] == '/')
    ensures Elements(path[s..]) == [Cut(path[s..e])] + Elements(path[e..])
    ensures Elements(path[s..]) == [if e - s <= 14 then path[s..e] else path[s..s + 14]] + Elements(path[e..])
  {
    FirstField(path[s..], e - s);
    assert 14 < e - s ==> path[s..e][..14] == path[s..s + 14];
    assert path[s..][..e - s] == path[s..e] && path[s..][e - s..] == path[e..];
  }

  lemma SomeElement(path: string)
    requires path != "" && path[0] != '/'
    ensures Elements(path) != []
  {
  }

  // ---- directories and the inode cache ----

  /** What there is on disk, as far as walking is concerned: the directories
      by inode number, with their entries. An inode that is not there is no
      directory. */
  type Tree = map<nat, map<string, nat>>

  // The inode at the end of the elements, if the walk gets there.
  function Walk(t: Tree, inum: nat, es: seq<string>): Option<nat>
    decreases |es|
  {
    if es == [] then Some(inum)
    else if inum in t && es[0] in t[inum] then Walk(t, t[inum][es[0]], es[1..])
    else None
  }

  // namei and nameiparent: the end of the path, or the directory before it.
  function Target(t: Tree, inum: nat, es: seq<string>, parent: bool): Option<nat>
  {
    if !parent then Walk(t, inum, es)
    else if es == [] then None
    else
      var d := Walk(t, inum, es[..|es| - 1]);
      if d.Some? && d.value in t then d else None
  }

  lemma TargetStep(t: Tree, inum: nat, es: seq<string>, parent: bool)
    requires es != []
    ensures inum !in t ==> Target(t, inum, es, parent) == None
    ensures inum in t && parent && |es| == 1 ==> Target(t, inum, es, parent) == Some(inum)
    ensures inum in t && !(parent && |es| == 1) && es[0] !in t[inum] ==> Target(t, inum, es, parent) == None
    ensures inum in t && !(parent && |es| == 1) && es[0] in t[inum] ==>
      Target(t, inum, es, parent) == Target(t, t[inum][es[0]], es[1..], parent)
  {
    if parent && 1 < |es| {
      assert es[..|es| - 1][0] == es[0] && es[..|es| - 1][1..] == es[1..][..|es| - 2];
    }
  }

  datatype Entry = Entry(inum: nat, ref: nat, valid: bool)

  /** An inode found, by its place in the cache; or none; or the panic of iget,
      when the cache is full; or that of ilock, at an inode that is free. */
  datatype NameResult = Found(ip: nat) | NotFound | NoPlace | NoType

  /** Where one element of a path leads. */
  datatype Visited = Nowhere | Here | Onward(ip: nat) | Full | Free

  predicate InUse(es: seq<Entry>, k: nat, i: nat) { k < |es| && 0 < es[k].ref && es[k].inum == i }

  predicate CountOk(es: seq<Entry>, refs: multiset<nat>, k: nat)
  {
    k < |es| && 0 < es[k].ref ==> refs[es[k].inum] == es[k].ref
  }

  predicate Apart(es: seq<Entry>, j: nat, k: nat)
  {
    j < k < |es| && 0 < es[j].ref && 0 < es[k].ref ==> es[j].inum != es[k].inum
  }

  ghost predicate Listed(es: seq<Entry>, refs: multiset<nat>, i: nat) { i in refs ==> exists k :: InUse(es, k, i) }

  // An inode with references has one place in the cache, which counts them.
  ghost predicate CacheOk(es: seq<Entry>, refs: multiset<nat>)
  {
    && |es| == NINODE
    && (forall k: nat :: CountOk(es, refs, k)) && (forall j: nat, k: nat :: Apart(es, j, k))
        && (forall i: nat :: Listed(es, refs, i))
  }

  // What is read of an inode is not of a free one.
  predicate Typed(es: seq<Entry>, gone: set<nat>, k: nat)
  {
    k < |es| && 0 < es[k].ref && es[k].valid ==> es[k].inum !in gone
  }

  ghost predicate AllTyped(es: seq<Entry>, gone: set<nat>) { forall k: nat :: Typed(es, gone, k) }

  lemma TypedAt(es: seq<Entry>, gone: set<nat>, k: nat)
    requires AllTyped(es, gone)
    ensures Typed(es, gone, k)
  {
  }

  lemma TypedSet(es: seq<Entry>, gone: set<nat>, k: nat, e: Entry)
    requires AllTyped(es, gone) && k < |es| && (0 < e.ref && e.valid ==> e.inum !in gone)
    ensures AllTyped(es[k := e], gone)
  {
    var es' := es[k := e];
    forall j: nat ensures Typed(es', gone, j) { assert Typed(es, gone, j); }
  }

  // An inode becomes free with its last reference.
  lemma TypedFreed(es: seq<Entry>, refs: multiset<nat>, gone: set<nat>, k: nat, e: Entry)
    requires AllTyped(es, gone) && CacheOk(es, refs) && k < |es| && 0 < es[k].ref && e.ref == 0
    ensures AllTyped(es[k := e], gone + {es[k].inum})
  {
    var es', gone' := es[k := e], gone + {es[k].inum};
    forall j: nat ensures Typed(es', gone', j) {
      assert Typed(es, gone, j) && Apart(es, j, k) && Apart(es, k, j);
    }
  }

  // One place changes its count; or takes a new inode.
  lemma CacheSet(es: seq<Entry>, refs: multiset<nat>, k: nat, e: Entry, refs': multiset<nat>)
    requires CacheOk(es, refs) && k < |es| && (forall i: nat :: i != e.inum ==> refs'[i] == refs[i])
             && refs'[e.inum] == e.ref
    requires if 0 < es[k].ref then es[k].inum == e.inum else e.inum !in refs
    ensures CacheOk(es[k := e], refs')
  {
    var es' := es[k := e];
    forall j: nat ensures CountOk(es', refs', j) { assert CountOk(es, refs, j) && Apart(es, j, k) && Apart(es, k, j); }
    forall i: nat, j: nat ensures Apart(es', i, j) {
      assert Apart(es, i, j) && CountOk(es, refs, i) && CountOk(es, refs, j);
    }
    forall i: nat ensures Listed(es', refs', i) {
      assert Listed(es, refs, i);
      if i == e.inum && i in refs' {
        assert InUse(es', k, i);
      } else if i != e.inum && i in refs {
        var j :| InUse(es, j, i);
        assert InUse(es', j, i);
      }
    }
  }

  // Places in use stay in use, by the same inode.
  predicate Steady(es: seq<Entry>, es': seq<Entry>)
  {
    |es'| == |es| && forall k :: 0 <= k < |es| && 0 < es[k].ref ==> 0 < es'[k].ref && es'[k].inum == es[k].inum
  }

  predicate AllTaken(es: seq<Entry>) { forall k :: 0 <= k < |es| ==> 0 < es[k].ref }

  lemma Counted(es: seq<Entry>, refs: multiset<nat>, k: nat)
    requires CacheOk(es, refs) && k < |es| && 0 < es[k].ref
    ensures refs[es[k].inum] == es[k].ref && |es| == NINODE
  {
    assert CountOk(es, refs, k);
  }

  predicate IsTail(es: seq<string>, tail: seq<string>)
  {
    |tail| <= |es| && es[|es| - |tail|..] == tail
  }

  lemma TailStep(es: seq<string>, x: string, tail: seq<string>)
    requires IsTail(es, [x] + tail)
    ensures IsTail(es, tail) && (tail == [] ==> es != [] && es[|es| - 1] == x)
  {
    assert es[|es| - |tail|..] == es[|es| - |tail| - 1..][1..];
  }

  lemma Unlisted(es: seq<Entry>, refs: multiset<nat>, i: nat)
    requires CacheOk(es, refs) && forall k :: 0 <= k < |es| ==> !(0 < es[k].ref && es[k].inum == i)
    ensures i !in refs
  {
    assert Listed(es, refs, i);
  }

  class Icache {
    const inode: array<Entry>
    var gone: set<nat>               // the inodes that are free on the disk
    var unlinked: set<nat>           // those with no links
    ghost var refs: multiset<nat>    // the references to every inode

    ghost predicate Valid()
      reads this, inode
    {
      inode.Length == NINODE && CacheOk(inode[..], refs) && AllTyped(inode[..], gone)
    }

    ghost predicate Holds(ip: nat)
      reads this, inode
    {
      ip < inode.Length && 0 < inode[ip].ref
    }

    // One more reference to inum; None is the panic, when every place in the
    // cache is taken by another inode.
    method Iget(inum: nat) returns (ip: Option<nat>)
      requires Valid()
      modifies `refs, inode
      ensures Valid() && Steady(old(inode[..]), inode[..])
      ensures ip.None? ==> refs == old(refs) && inum !in refs && AllTaken(inode[..])
      ensures ip.None? ==> forall k :: 0 <= k < NINODE ==> 0 < inode[k].ref
      ensures ip.Some? ==> refs == old(refs) + multiset{inum} && Holds(ip.value) && inode[ip.value].inum == inum
    {
      hide CacheOk, AllTyped;
      ghost var es := inode[..];
      var empty: Option<nat> := None;
      var k := 0;
      while k < NINODE
        invariant k <= NINODE && refs == old(refs) && inode[..] == es
        invariant forall j :: 0 <= j < k ==> !(0 < es[j].ref && es[j].inum == inum)
        invariant empty.None? ==> forall j :: 0 <= j < k ==> 0 < es[j].ref
        invariant empty.Some? ==> empty.value < k && es[empty.value].ref == 0
      {
        if 0 < inode[k].ref && inode[k].inum == inum {
          assert Typed(es, gone, k) by { TypedAt(es, gone, k); }
          inode[k] := inode[k].(ref := inode[k].ref + 1);
          refs := refs + multiset{inum};
          assert inode[..] == es[k := inode[k]];
          TypedSet(es, gone, k, inode[k]);
          Counted(es, old(refs), k);
          CacheSet(es, old(refs), k, inode[k], refs);
          return Some(k);
        }
        if empty.None? && inode[k].ref == 0 {
          empty := Some(k);
        }
        k := k + 1;
      }
      Unlisted(es, refs, inum);
      if empty.None? {
        return None;
      }
      inode[empty.value] := Entry(inum, 1, false);
      refs := refs + multiset{inum};
      TypedSet(es, gone, empty.value, inode[empty.value]);
      assert inode[..] == es[empty.value := inode[empty.value]];
      CacheSet(es, old(refs), empty.value, inode[empty.value], refs);
      return empty;
    }

    method Idup(ip: nat)
      requires Valid() && Holds(ip)
      modifies `refs, inode
      ensures Valid() && Steady(old(inode[..]), inode[..]) && Holds(ip)
      ensures inode[ip].inum == old(inode[ip].inum) && refs == old(refs) + multiset{inode[ip].inum}
    {
      hide CacheOk, AllTyped;
      ghost var es := inode[..];
      assert Typed(es, gone, ip) by { TypedAt(es, gone, ip); }
      inode[ip] := inode[ip].(ref := inode[ip].ref + 1);
      refs := refs + multiset{inode[ip].inum};
      TypedSet(es, gone, ip, inode[ip]);
      assert inode[..] == es[ip := inode[ip]];
      Counted(es, old(refs), ip);
      CacheSet(es, old(refs), ip, inode[ip], refs);
    }

    // Reads the inode, unless that is done; false is the panic, at one that is
    // free. The lock itself is left out.
    method Ilock(ip: nat) returns (ok: bool)
      requires Valid() && Holds(ip)
      modifies inode
      ensures Valid() && Steady(old(inode[..]), inode[..]) && Holds(ip)
      ensures inode[ip].inum == old(inode[ip].inum) && (ok <==> inode[ip].inum !in gone)
      ensures ok ==> inode[ip].valid
    {
      hide CacheOk, AllTyped;
      ghost var es := inode[..];
      TypedAt(es, gone, ip);
      if !inode[ip].valid {
        if inode[ip].inum in gone {
          return false;
        }
        inode[ip] := inode[ip].(valid := true);
        assert inode[..] == es[ip := inode[ip]];
        Counted(es, refs, ip);
        CacheSet(es, refs, ip, inode[ip], refs);
        TypedSet(es, gone, ip, inode[ip]);
      }
      return true;
    }

    // One reference less. An inode that was read and has no links becomes free
    // with its last reference; to its file that does what FreeInode of the file
    // system does.
    method Iput(ip: nat)
      requires Valid() && Holds(ip)
      modifies `refs, `gone, inode
      ensures Valid() && refs == old(refs) - multiset{old(inode[ip].inum)}
      ensures forall k :: 0 <= k < NINODE && k != ip ==> inode[k] == old(inode[k])
      ensures inode[ip].inum == old(inode[ip].inum) && inode[ip].ref == old(inode[ip].ref) - 1
      ensures gone == old(gone)
        + if old(inode[ip].valid) && inode[ip].inum in unlinked && old(refs)[inode[ip].inum] == 1
          then {inode[ip].inum} else {}
    {
      hide CacheOk, AllTyped;
      ghost var es := inode[..];
      Counted(es, refs, ip);
      TypedAt(es, gone, ip);
      if inode[ip].valid && inode[ip].inum in unlinked && inode[ip].ref == 1 {
        TypedFreed(es, refs, gone, ip, inode[ip].(ref := 0, valid := false));
        gone := gone + {inode[ip].inum};
        inode[ip] := inode[ip].(valid := false);
      } else {
        TypedSet(es, gone, ip, inode[ip].(ref := inode[ip].ref - 1));
      }
      inode[ip] := inode[ip].(ref := inode[ip].ref - 1);
      refs := refs - multiset{inode[ip].inum};
      assert inode[..] == es[ip := inode[ip]];
      CacheSet(es, old(refs), ip, inode[ip], refs);
    }

    // Where a walk begins: the root, or the current directory.
    method Begin(path: string, cwd: nat) returns (ip: Option<nat>)
      requires Valid() && Holds(cwd)
      modifies `refs, inode
      ensures Valid()
      ensures ip.None? ==> AllTaken(inode[..])
      ensures ip.Some? ==> Holds(ip.value) && refs == old(refs) + multiset{inode[ip.value].inum}
      ensures ip.Some? && path != "" && path[0] == '/' ==> inode[ip.value].inum == ROOTINO
      ensures ip.Some? && (path == "" || path[0] != '/') ==> inode[ip.value].inum == old(inode[cwd].inum)
    {
      hide CacheOk, AllTaken, Steady, AllTyped;
      if path != "" && path[0] == '/' {
        ip := Iget(ROOTINO);
      } else {
        Idup(cwd);
        ip := Some(cwd);
      }
    }

    // Since w set out, only inodes on the way with no links and with no other
    // reference have become free.
    ghost predicate Spared(t: Tree, w: Errand)
      reads `gone, `unlinked
    {
      && w.gone <= gone
      && forall i :: i in gone && i !in w.gone ==> i in unlinked && i !in w.refs && OnPath(t, w.start, w.es, i)
    }

    // The reference to ip, which is on the way, is dropped.
    method Drop(t: Tree, ip: nat, ghost w: Errand, ghost more: multiset<nat>)
      requires Valid() && Holds(ip) && Spared(t, w) && OnPath(t, w.start, w.es, inode[ip].inum)
      requires refs == w.refs + more + multiset{inode[ip].inum}
      modifies `refs, `gone, inode
      ensures Valid() && Spared(t, w) && refs == w.refs + more
      ensures forall k :: 0 <= k < NINODE && k != ip ==> inode[k] == old(inode[k])
      ensures inode[ip].inum == old(inode[ip].inum) && inode[ip].ref == old(inode[ip].ref) - 1
    {
      hide CacheOk, AllTyped, OnPath;
      Iput(ip);
    }

    // The reference to ip is exchanged for one to inum.
    method Advance(t: Tree, ip: nat, inum: nat, ghost w: Errand) returns (next: Option<nat>)
      requires Valid() && Holds(ip) && Spared(t, w) && OnPath(t, w.start, w.es, inode[ip].inum)
      requires refs == w.refs + multiset{inode[ip].inum}
      modifies `refs, `gone, inode
      ensures Valid() && Spared(t, w)
      ensures next.None? ==> AllTaken(inode[..])
      ensures next.Some? ==> Holds(next.value) && inode[next.value].inum == inum
      ensures next.Some? ==> refs == w.refs + multiset{inum}
    {
      hide CacheOk, AllTaken, AllTyped, OnPath;
      next := Iget(inum);
      if next.Some? {
        Counted(inode[..], refs, ip);
        Drop(t, ip, w, multiset{inum});
      }
    }

    // One element of the walk, at directory ip: stop there, go on to the
    // element's inode, or give up; last says that it is the last and that the
    // directory before it is wanted.
    method Visit(t: Tree, ip: nat, name: string, last: bool, ghost w: Errand) returns (r: Visited)
      requires Valid() && Holds(ip) && Spared(t, w) && OnPath(t, w.start, w.es, inode[ip].inum)
      requires refs == w.refs + multiset{inode[ip].inum}
      modifies `refs, `gone, inode
      ensures Valid() && Spared(t, w)
      ensures r.Full? ==> AllTaken(inode[..])
      ensures r.Free? <==> old(inode[ip].inum) in old(gone)
      ensures r.Free? ==> inode[ip].inum == old(inode[ip].inum) && gone == old(gone)
      ensures r.Nowhere? ==> refs == w.refs
      ensures r.Nowhere? ==> old(inode[ip].inum) !in t || (!last && name !in t[old(inode[ip].inum)])
      ensures r.Here? ==>
        && last && old(inode[ip].inum) in t && refs == old(refs) && Holds(ip)
        && inode[ip].inum == old(inode[ip].inum)
      ensures r.Onward? ==> !last && old(inode[ip].inum) in t && name in t[old(inode[ip].inum)] && Holds(r.ip)
      ensures r.Onward? ==> inode[r.ip].inum == t[old(inode[ip].inum)][name]
      ensures r.Onward? ==> refs == w.refs + multiset{inode[r.ip].inum}
    {
      hide CacheOk, AllTaken, AllTyped, OnPath, Spared, Icache.Valid;
      var inum := inode[ip].inum;
      var ok := Ilock(ip);
      if !ok {
        return Free;
      }
      if inum !in t {
        Drop(t, ip, w, multiset{});
        return Nowhere;
      }
      if last {
        return Here;
      }
      if name !in t[inum] {
        Drop(t, ip, w, multiset{});
        return Nowhere;
      }
      var next := Advance(t, ip, t[inum][name], w);
      r := if next.None? then Full else Onward(next.value);
    }

    // One turn of the loop, with one reference more than at the start of the
    // walk: it ends where the walk is to end, or goes on one element further.
    method Turn(t: Tree, ip: nat, name: string, rest: string, parent: bool, ghost w: Errand) returns (r: Visited)
      requires Valid() && Holds(ip) && Spared(t, w) && refs == w.refs + multiset{inode[ip].inum}
      requires OnTheWay(t, w.start, w.es, parent, inode[ip].inum, [name] + Elements(rest))
      requires rest == "" <==> Elements(rest) == []
      modifies `refs, `gone, inode
      ensures Valid() && Spared(t, w)
      ensures r.Full? ==> AllTaken(inode[..])
      ensures r.Free? ==> inode[ip].inum in gone && OnPath(t, w.start, w.es, inode[ip].inum)
      ensures r.Nowhere? ==> refs == w.refs && Target(t, w.start, w.es, parent) == None
      ensures r.Here? ==> Holds(ip) && refs == w.refs + multiset{inode[ip].inum} && parent
      ensures r.Here? ==> Target(t, w.start, w.es, parent) == Some(inode[ip].inum)
      ensures r.Here? ==> w.es != [] && w.es[|w.es| - 1] == name
      ensures r.Onward? ==> Holds(r.ip) && refs == w.refs + multiset{inode[r.ip].inum}
      ensures r.Onward? ==> OnTheWay(t, w.start, w.es, parent, inode[r.ip].inum, Elements(rest))
    {
      hide Elements, Target, CacheOk, AllTaken, OnTheWay, OnPath, Spared, Icache.Valid;
      WayStep(t, w.start, w.es, parent, inode[ip].inum, name, Elements(rest));
      r := Visit(t, ip, name, parent && rest == "", w);
    }

    // The loop, from the inode where the walk begins.
    method WalkOn(t: Tree, begin: nat, path: string, parent: bool, ghost w: Errand)
      returns (r: NameResult, name: string)
      requires Valid() && Holds(begin) && refs == w.refs + multiset{inode[begin].inum} && gone == w.gone
      requires w.start == inode[begin].inum && w.es == Elements(path)
      modifies `refs, `gone, inode
      ensures Valid() && Spared(t, w)
      ensures r.NoPlace? ==> AllTaken(inode[..])
      ensures r.NoType? ==> MeetsFree(t, w.start, w.es, gone)
      ensures r.NotFound? ==> refs == w.refs && Target(t, w.start, w.es, parent) == None
      ensures r.Found? ==> Holds(r.ip) && refs == w.refs + multiset{inode[r.ip].inum}
      ensures r.Found? ==> Target(t, w.start, w.es, parent) == Some(inode[r.ip].inum)
      ensures r.Found? && parent ==> w.es != [] && w.es[|w.es| - 1] == name
    {
      hide Elements, Target, CacheOk, AllTaken, OnTheWay, OnPath, Spared, MeetsFree, Icache.Valid, Next;
      name := "";
      var ip, rest := begin, path;
      SparedSelf(t, w);
      WaySelf(t, w.start, w.es, parent);
      var elem := Skipelem(rest);
      NextIs(rest, elem);
      while elem.Some?
        invariant Valid() && Spared(t, w) && Holds(ip) && refs == w.refs + multiset{inode[ip].inum}
        invariant Next(rest, elem)
        invariant OnTheWay(t, w.start, w.es, parent, inode[ip].inum, Elements(rest))
        decreases |rest|
      {
        NextSome(rest, elem);
        name, rest := elem.value.0, elem.value.1;
        var visited := Turn(t, ip, name, rest, parent, w);
        if visited.Full? {
          return NoPlace, name;
        }
        if visited.Free? {
          FreeMet(t, w.start, w.es, gone, inode[ip].inum);
          return NoType, name;
        }
        if visited.Nowhere? {
          return NotFound, name;
        }
        if visited.Here? {
          return Found(ip), name;
        }
        ip := visited.ip;
        elem := Skipelem(rest);
        NextIs(rest, elem);
      }
      NextNone(rest, elem);
      WayEnd(t, w.start, w.es, parent, inode[ip].inum);
      if parent {
        Drop(t, ip, w, multiset{});
        return NotFound, name;
      }
      return Found(ip), name;
    }

    lemma SparedSelf(t: Tree, w: Errand)
      requires gone == w.gone
      ensures Spared(t, w)
    {
    }

    // What a walk from inode start has come to, as far as one can tell from the
    // answer and from the references and free inodes before and after it.
    ghost predicate Walked(t: Tree, start: nat, es: seq<string>, parent: bool, refs0: multiset<nat>, gone0: set<nat>,
        r: NameResult)
      reads this, inode
    {
      && (r.Found? ==>
          && Holds(r.ip) && Target(t, start, es, parent) == Some(inode[r.ip].inum)
          && refs == refs0 + multiset{inode[r.ip].inum})
      && (r.NotFound? ==> Target(t, start, es, parent) == None && refs == refs0)
      && (r.NoType? ==> MeetsFree(t, start, es, gone))
      && gone0 <= gone && forall i :: i in gone && i !in gone0 ==>
           i in unlinked && i !in refs0 && OnPath(t, start, es, i)
    }

    // Walks path from the root or from cwd. The references come out even: one
    // more for the inode returned, none for any other, whichever way the walk
    // ends. An inode becomes free only if it is on the way, has no links, and
    // nobody else holds it.
    method Namex(t: Tree, path: string, nameiparent: bool, cwd: nat) returns (r: NameResult, name: string)
      requires Valid() && Holds(cwd)
      modifies `refs, `gone, inode
      ensures Valid()
      ensures r.NoPlace? ==> forall k :: 0 <= k < NINODE ==> 0 < inode[k].ref
      ensures path != "" && path[0] == '/' ==>
        Walked(t, ROOTINO, Elements(path), nameiparent, old(refs), old(gone), r)
      ensures path == "" || path[0] != '/' ==>
        Walked(t, old(inode[cwd].inum), Elements(path), nameiparent, old(refs), old(gone), r)
      ensures r.Found? && nameiparent ==> Elements(path) != [] && name == Elements(path)[|Elements(path)| - 1]
    {
      hide Elements, Target, CacheOk, OnTheWay, OnPath, MeetsFree, AllTyped;
      ghost var start := if path != "" && path[0] == '/' then ROOTINO else inode[cwd].inum;
      ghost var w := Errand(refs, gone, start, Elements(path));
      var begin := Begin(path, cwd);
      if begin.None? {
        return NoPlace, "";
      }
      r, name := WalkOn(t, begin.value, path, nameiparent, w);
    }
  }

  // elem is what skipelem makes of rest.
  ghost predicate Next(rest: string, elem: Option<(string, string)>)
  {
    if elem.None? then Elements(rest) == []
    else Elements(rest) == [elem.value.0] + Elements(elem.value.1) && |elem.value.1| < |rest|
         && (elem.value.1 == "" <==> Elements(elem.value.1) == [])
  }

  lemma NextIs(rest: string, elem: Option<(string, string)>)
    requires elem.None? <==> Elements(rest) == []
    requires elem.Some? ==> Elements(rest) == [elem.value.0] + Elements(elem.value.1)
    requires elem.Some? ==> |elem.value.1| < |rest| && (elem.value.1 == "" <==> Elements(elem.value.1) == [])
    ensures Next(rest, elem)
  {
  }

  lemma NextSome(rest: string, elem: Option<(string, string)>)
    requires Next(rest, elem) && elem.Some?
    ensures Elements(rest) == [elem.value.0] + Elements(elem.value.1) && |elem.value.1| < |rest|
    ensures elem.value.1 == "" <==> Elements(elem.value.1) == []
  {
  }

  lemma NextNone(rest: string, elem: Option<(string, string)>)
    requires Next(rest, elem) && elem.None?
    ensures Elements(rest) == []
  {
  }

  /** What a walk set out with: the references, the free inodes, the inode to
      begin at and the elements to go. */
  datatype Errand = Errand(refs: multiset<nat>, gone: set<nat>, start: nat, es: seq<string>)

  // The walk along es comes to inode i.
  ghost predicate OnPath(t: Tree, start: nat, es: seq<string>, i: nat)
  {
    exists n: nat :: n <= |es| && Walk(t, start, es[..n]) == Some(i)
  }

  ghost predicate MeetsFree(t: Tree, start: nat, es: seq<string>, gone: set<nat>)
  {
    exists i :: i in gone && OnPath(t, start, es, i)
  }

  lemma FreeMet(t: Tree, start: nat, es: seq<string>, gone: set<nat>, i: nat)
    requires i in gone && OnPath(t, start, es, i)
    ensures MeetsFree(t, start, es, gone)
  {
  }

  lemma {:induction false} WalkOneMore(t: Tree, inum: nat, es: seq<string>, n: nat, i: nat)
    requires n < |es| && Walk(t, inum, es[..n]) == Some(i) && i in t && es[n] in t[i]
    ensures Walk(t, inum, es[..n + 1]) == Some(t[i][es[n]])
    decreases n
  {
    assert es[..n + 1][1..] == es[1..][..n];
    if n != 0 {
      assert es[..n][1..] == es[1..][..n - 1];
      WalkOneMore(t, t[inum][es[0]], es[1..], n - 1, i);
    }
  }

  // At inum, with the elements in tail still to go, the walk has the same
  // end as at the start.
  ghost predicate OnTheWay(t: Tree, start: nat, es: seq<string>, parent: bool, inum: nat, tail: seq<string>)
  {
    && Target(t, start, es, parent) == Target(t, inum, tail, parent) && IsTail(es, tail)
    && Walk(t, start, es[..|es| - |tail|]) == Some(inum)
  }

  lemma WayIsPath(t: Tree, start: nat, es: seq<string>, parent: bool, inum: nat, tail: seq<string>)
    requires OnTheWay(t, start, es, parent, inum, tail)
    ensures OnPath(t, start, es, inum)
  {
  }

  lemma WaySelf(t: Tree, start: nat, es: seq<string>, parent: bool)
    ensures OnTheWay(t, start, es, parent, start, es)
  {
  }

  lemma WayStep(t: Tree, start: nat, es: seq<string>, parent: bool, inum: nat, name: string, tail: seq<string>)
    requires OnTheWay(t, start, es, parent, inum, [name] + tail)
    ensures inum !in t ==> Target(t, start, es, parent) == None
    ensures inum in t && parent && tail == [] ==>
      Target(t, start, es, parent) == Some(inum) && es != [] && es[|es| - 1] == name
    ensures inum in t && !(parent && tail == []) && name !in t[inum] ==> Target(t, start, es, parent) == None
    ensures inum in t && !(parent && tail == []) && name in t[inum] ==>
            OnTheWay(t, start, es, parent, t[inum][name], tail)
    ensures OnPath(t, start, es, inum)
  {
    hide Target;
    WayIsPath(t, start, es, parent, inum, [name] + tail);
    assert ([name] + tail)[1..] == tail;
    var n := |es| - |tail| - 1;
    assert es[n] == es[n..][0] == name;
    if inum in t && name in t[inum] { WalkOneMore(t, start, es, n, inum); }
    TargetStep(t, inum, [name] + tail, parent);
    TailStep(es, name, tail);
  }

  lemma WayEnd(t: Tree, start: nat, es: seq<string>, parent: bool, inum: nat)
    requires OnTheWay(t, start, es, parent, inum, [])
    ensures Target(t, start, es, parent) == (if parent then None else Some(inum)) && OnPath(t, start, es, inum)
  {
    WayIsPath(t, start, es, parent, inum, []);
    TargetEnd(t, inum, parent);
  }

  lemma TargetEnd(t: Tree, inum: nat, parent: bool)
    ensures Target(t, inum, [], parent) == if parent then None else Some(inum)
  {
  }
}
