/** log.c: the transaction log, running over the buffer cache. */
module Logging {
  import opened Blocks
  import opened Params
  import opened RedoLog
  import opened BufferCache
  import LogReservation

  class Log {
    const cache: Bcache
    const area: Area              // log.start, log.size
    var outstanding: int
    var committing: bool
    var n: nat                    // lh.n
    const block: array<word>      // lh.block[LOGSIZE]

    // initlog, on a freshly booted cache: whatever the last run left in the
    // log is replayed.
    constructor (cache: Bcache, area: Area)
      requires cache.Valid() && |cache.view| == |cache.disk| && LogOk(area, cache.disk)
      requires cache.pins == {} && cache.held == {} && Two(cache.idles)
      modifies cache, cache.bufs
      ensures this.cache == cache && this.area == area && fresh(block)
      ensures Valid() && Lh() == [] && outstanding == 0 && !committing
      ensures cache.disk == Recovered(area, old(cache.disk))
      ensures cache.history == old(cache.history) + RecoverTrace(area, old(cache.disk))
    {
      this.cache := cache;
      this.area := area;
      outstanding := 0;
      committing := false;
      n := 0;
      block := new word[LOGSIZE](i => 0);
      new;
      RecoverFromLog();
    }

    // The logged block numbers.
    ghost function Lh(): seq<word>
      reads this, block
      requires n <= block.Length
    {
      block[..n]
    }

    // The fields the reservation protocol is about.
    ghost function State(): LogReservation.LogState
      reads this, block
      requires n <= block.Length
    {
      LogReservation.LogState(area.size, outstanding, committing, Lh())
    }

    ghost predicate Shape()
      reads this, cache, cache.bufs, block
    {
      && cache.Valid() && |cache.view| == |cache.disk| && block.Length == LOGSIZE && n <= LOGSIZE
      && ListOk(area, cache.disk, Lh())
      && forall b :: b in cache.held ==> !area.Inside(b) && b !in Lh()
    }

    // Between the steps of the file system calls: the logged blocks are exactly
    // the pinned ones, and the log on the disk is clear.
    ghost predicate Sound()
      reads this, cache, cache.bufs, block
    {
      && cache.Valid() && |cache.view| == |cache.disk| && block.Length == LOGSIZE && n <= LOGSIZE
      && Names(area, cache.disk, Lh())
      && cache.pins == SetOf(Lh())
      && Empty(area, cache.disk)
    }

    // And the list fits its area. That is what a commit relies on; whether it
    // can fail is LogReservation.OutgrowsExactlyWhen.
    ghost predicate Valid()
      reads this, cache, cache.bufs, block
    {
      Sound() && n < area.size
    }

    // What the cache holds for the logged blocks.
    ghost function Data(): (r: seq<Block>)
      reads this, block, cache, cache.bufs
      requires Shape()
      ensures |r| == n
    {
      Gather(Lh(), cache.view)
    }

    // Nobody but the log uses the blocks of the log.
    ghost predicate LogUnused()
      reads cache, cache.bufs
    {
      forall i :: 0 <= i < cache.bufs.Length && cache.bufs[i].refcnt > 0 && cache.bufs[i].dev == ROOTDEV
                  ==> !area.Inside(cache.bufs[i].blockno)
    }

    // bread of a log block and of a home block, as write_log and install_trans
    // both begin an iteration. ok is false for bget's panic.
    method BreadPair(logno: nat, homeno: nat) returns (ok: bool, l: nat, h: nat)
      requires cache.Valid() && logno < |cache.disk| && homeno < |cache.disk| && logno != homeno
      requires logno !in cache.held && homeno !in cache.held && logno !in cache.pins
      requires homeno !in cache.pins ==> Two(cache.idles)
      modifies cache, cache.bufs
      ensures cache.Valid() && cache.view == old(cache.view) && cache.pins == old(cache.pins)
      ensures cache.disk == old(cache.disk) && cache.history == old(cache.history)
      ensures old(cache.idles) != {} ==> ok
      ensures old(cache.idles) == {} && old(LogUnused()) && area.Inside(logno) ==> !ok
      ensures ok ==>
        && l < NBUF == cache.bufs.Length && h < NBUF && l != h
        && cache.held == old(cache.held) + {logno, homeno} && cache.idles == old(cache.idles) - {l, h}
      ensures ok ==> var v := cache.view;
        && v[logno] == cache.disk[logno] && (homeno !in cache.pins ==> v[homeno] == cache.disk[homeno])
        && cache.bufs[l] == Buf(true, false, ROOTDEV, logno, true, old(cache.bufs[l].refcnt) + 1, v[logno])
        && (l in old(cache.idles) ==> old(cache.bufs[l].refcnt) == 0)
        && (h in old(cache.idles) ==> old(cache.bufs[h].refcnt) == 0 && homeno !in cache.pins)
        && cache.bufs[h] == Buf(true, homeno in cache.pins, ROOTDEV, homeno, true,
                                old(cache.bufs[h].refcnt) + 1, v[homeno])
    {
      hide *;
      ghost var idle := cache.idles;
      cache.Clean(logno);
      if homeno !in cache.pins { cache.Clean(homeno); }
      if idle == {} && LogUnused() && area.Inside(logno) { NotCached(logno); }
      l, h := 0, 0;
      var lbuf := cache.Bread(logno);
      if lbuf.None? { return false, l, h; }
      l := lbuf.value;
      OneLeft(idle, l, homeno in cache.pins);
      var hbuf := cache.Bread(homeno);
      h := hbuf.value;
      ok := true;
    }

    // With no buffer idle a block of the log is in none.
    lemma NotCached(logno: nat)
      requires cache.Valid() && cache.idles == {} && LogUnused() && area.Inside(logno) && logno !in cache.pins
      ensures forall i :: 0 <= i < NBUF ==> !Caches(cache.bufs[i], ROOTDEV, logno)
    {
      forall i: nat | i < NBUF ensures !Caches(cache.bufs[i], ROOTDEV, logno) {
        assert i !in IdleOf(cache.bufs[..]);
        if cache.bufs[..][i].dev == ROOTDEV { PinnedBuffer(cache.bufs[..], cache.disk, i); }
      }
    }

    // One iteration of write_log: a log block gets the cached home block.
    method LogOne(logno: nat, homeno: nat) returns (ok: bool)
      requires cache.Valid() && logno < |cache.disk| && homeno < |cache.disk| && logno != homeno
      requires logno !in cache.held && homeno !in cache.held && logno !in cache.pins
      requires homeno in cache.pins
      modifies cache, cache.bufs
      ensures old(cache.idles) != {} ==> ok
      ensures old(cache.idles) == {} && old(LogUnused()) && area.Inside(logno) ==> !ok
      ensures !ok ==> cache.disk == old(cache.disk) && cache.history == old(cache.history)
      ensures ok ==>
        && cache.Valid() && cache.held == old(cache.held) && cache.idles >= old(cache.idles)
        && cache.disk == old(cache.disk)[logno := old(cache.view)[homeno]]
        && cache.history == old(cache.history) + [cache.disk]
        && cache.view == old(cache.view)[logno := old(cache.view)[homeno]] && cache.pins == old(cache.pins)
    {
      hide *;
      var to, from;
      ok, to, from := BreadPair(logno, homeno);
      if !ok { return; }
      cache.SetData(to, cache.bufs[from].data);
      cache.Bwrite(to);
      cache.Brelse(from);
      cache.Brelse(to);
    }

    // One iteration of install_trans: a home block gets its log block.
    method InstallOne(logno: nat, homeno: nat)
      requires cache.Valid() && logno < |cache.disk| && homeno < |cache.disk| && logno != homeno
      requires logno !in cache.held && homeno !in cache.held && logno !in cache.pins
      requires cache.idles != {} && (homeno !in cache.pins ==> Two(cache.idles))
      modifies cache, cache.bufs
      ensures cache.Valid() && cache.held == old(cache.held) && cache.idles >= old(cache.idles)
      ensures cache.disk == old(cache.disk)[homeno := old(cache.disk)[logno]]
      ensures cache.history == old(cache.history) + [cache.disk]
      ensures cache.view == old(cache.view)[homeno := old(cache.disk)[logno]]
      ensures cache.pins == old(cache.pins) - {homeno}
    {
      hide *;
      var _, lbuf, dbuf := BreadPair(logno, homeno);
      cache.SetData(dbuf, cache.bufs[lbuf].data);
      cache.Bwrite(dbuf);
      cache.Brelse(lbuf);
      cache.Brelse(dbuf);
    }

    // write_log: every log slot gets the cached copy of its home block. When
    // no buffer is idle the first bread panics.
    method WriteLog() returns (ok: bool)
      requires Shape() && cache.pins == SetOf(Lh()) && LogUnused()
      modifies cache, cache.bufs
      ensures ok == (n == 0 || old(cache.idles) != {})
      ensures !ok ==> cache.disk == old(cache.disk) && cache.history == old(cache.history)
      ensures ok ==>
        && Shape() && cache.held == old(cache.held) && cache.pins == old(cache.pins)
        && cache.idles >= old(cache.idles) && Data() == old(Data())
        && cache.disk == Fill(area, old(cache.disk), old(Data()), n)
        && cache.history == old(cache.history) + FillTrace(area, old(cache.disk), old(Data()))
    {
      hide Bcache.Valid, Distinct, Fill, FillTrace, LogUnused;
      ghost var hs, data, d0, held := Lh(), Data(), cache.disk, cache.held;
      assert |data| < area.size && area.start + area.size <= |d0|;
      FillNone(area, d0, data);
      var tail := 0;
      while tail < n
        invariant tail <= n && cache.Valid() && Lh() == hs && cache.held == held && |cache.view| == |d0|
        invariant cache.pins == SetOf(hs) && cache.idles >= old(cache.idles) && Gather(hs, cache.view) == data
        invariant cache.disk == Fill(area, d0, data, tail)
        invariant cache.history == old(cache.history) + FillTrace(area, d0, data)[..tail]
        invariant if tail == 0 then LogUnused() && cache.idles == old(cache.idles) else old(cache.idles) != {}
      {
        var logno, homeno := area.start + tail + 1, block[tail];
        assert homeno == hs[tail] && homeno in SetOf(hs) && area.Inside(logno);
        ghost var view := cache.view;
        FillNext(area, d0, data, tail);
        ok := LogOne(logno, homeno);
        if !ok { return; }
        GatherKept(hs, view, logno, view[homeno]);
        assert view[homeno] == data[tail];
        tail := tail + 1;
      }
      return true;
    }

    // install_trans: every home block gets its log slot. Either the blocks
    // are still pinned from the transaction, or the cache is as after boot.
    method InstallTrans()
      requires Shape() && (n > 0 ==> cache.idles != {})
      requires cache.pins == SetOf(Lh()) || (cache.pins == {} && Two(cache.idles))
      modifies cache, cache.bufs
      ensures Shape() && cache.held == old(cache.held) && cache.pins == {} && cache.idles >= old(cache.idles)
      ensures cache.disk == Install(area, old(cache.disk), Lh(), n)
      ensures cache.history == old(cache.history) + InstallTrace(area, old(cache.disk), Lh())
    {
      hide Bcache.Valid, SetOf, Two, ListOk, Install, InstallTrace;
      ghost var hs, d0, held, pins, idles := Lh(), cache.disk, cache.held, cache.pins, cache.idles;
      assert SetOf(hs[..0]) == {} by { NoneYet(hs); }
      InstallNone(area, d0, hs);
      var tail := 0;
      while tail < n
        invariant tail <= n && cache.Valid() && Lh() == hs && cache.held == held && |cache.view| == |d0|
        invariant cache.idles >= idles && cache.pins == pins - SetOf(hs[..tail])
        invariant cache.disk == Install(area, d0, hs, tail)
        invariant cache.history == old(cache.history) + InstallTrace(area, d0, hs)[..tail]
      {
        var logno, homeno := area.start + tail + 1, block[tail];
        Progress(area, d0, hs, tail, pins);
        InstallNext(area, d0, hs, tail);
        assert homeno == hs[tail] && area.Inside(logno);
        TwoGrows(idles, cache.idles);
        InstallOne(logno, homeno);
        tail := tail + 1;
      }
      assert hs[..n] == hs;
      AllInstalled(area, d0, cache.disk, hs, pins);
    }

    // The copy loop of write_head.
    method EncodeHead(data: Block) returns (hb: Block)
      requires block.Length == LOGSIZE && n <= LOGSIZE
      ensures hb == PutHeader(data, Lh())
    {
      hb := PutWord(data, 0, n);
      var i := 0;
      while i < n
        invariant i <= n && hb == PutList(data, Lh(), i)
      {
        hb := PutWord(hb, i + 1, block[i]);
        i := i + 1;
      }
    }

    // write_head: the log header on disk becomes the one in memory.
    method WriteHeader()
      requires Shape() && cache.idles != {} && area.start !in cache.pins
      modifies cache, cache.bufs
      ensures Shape() && cache.held == old(cache.held) && cache.pins == old(cache.pins)
              && cache.idles >= old(cache.idles)
      ensures cache.disk == WriteHead(area, old(cache.disk), Lh()) && cache.history == old(cache.history) + [cache.disk]
      ensures |cache.view| == |old(cache.view)|
      ensures forall b :: 0 <= b < |cache.view| && b != area.start ==> cache.view[b] == old(cache.view)[b]
    {
      hide Bcache.Valid, PutHeader, Distinct;
      assert area.Inside(area.start);
      cache.Clean(area.start);
      var r := cache.Bread(area.start);
      var buf := r.value;
      var hb := EncodeHead(cache.bufs[buf].data);
      cache.SetData(buf, hb);
      cache.Bwrite(buf);
      cache.Brelse(buf);
    }
  
    // read_head, after its precondition: the header on disk makes sense.
    method ReadHead()
      requires cache.Valid() && |cache.view| == |cache.disk| && LogOk(area, cache.disk) && block.Length == LOGSIZE
      requires area.start !in cache.held && area.start !in cache.pins && cache.idles != {}
      modifies this`n, block, cache, cache.bufs
      ensures cache.disk == old(cache.disk) && cache.history == old(cache.history) && cache.view == old(cache.view)
      ensures cache.Valid() && n <= LOGSIZE && Lh() == HeaderList(cache.disk[area.start])
      ensures cache.held == old(cache.held) && cache.pins == old(cache.pins) && cache.idles >= old(cache.idles)
    {
      hide Bcache.Valid, ListOk;
      cache.Clean(area.start);
      var r := cache.Bread(area.start);
      var lh := cache.bufs[r.value].data;
      cache.Brelse(r.value);
      n := HeaderN(lh);
      var i := 0;
      while i < n
        modifies block
        invariant i <= n && n == HeaderN(lh)
        invariant forall j :: 0 <= j < i ==> block[j] == GetWord(lh, j + 1)
      {
        block[i] := GetWord(lh, i + 1);
        i := i + 1;
      }
    }

    method RecoverFromLog()
      requires cache.Valid() && |cache.view| == |cache.disk| && LogOk(area, cache.disk) && block.Length == LOGSIZE
      requires cache.pins == {} && cache.held == {} && Two(cache.idles)
      modifies this`n, block, cache, cache.bufs
      ensures Valid() && Lh() == [] && cache.held == {}
      ensures cache.disk == Recovered(area, old(cache.disk))
      ensures cache.history == old(cache.history) + RecoverTrace(area, old(cache.disk))
    {
      hide Bcache.Valid, ListOk, Two, SetOf, Install, WriteHead, RecoverTrace, InstallTrace;
      ghost var d0, idles := cache.disk, cache.idles;
      RecoverTraceParts(area, d0);
      TwoSome(idles);
      ReadHead();
      TwoGrows(idles, cache.idles);
      InstallTrans();
      NothingListed(area, cache.disk, Lh());
      n := 0;
      WriteHeader();
      WriteHeadEmpty(area, Install(area, d0, HeaderList(d0[area.start]), HeaderN(d0[area.start])));
      assert Lh() == [];
    }

    // commit. ok is false for bget's panic, before anything is written.
    method Commit() returns (ok: bool)
      requires Shape() && cache.pins == SetOf(Lh()) && Empty(area, cache.disk) && LogUnused()
      modifies this`n, cache, cache.bufs
      ensures ok == (old(n) == 0 || old(cache.idles) != {})
      ensures !ok ==> cache.disk == old(cache.disk) && cache.history == old(cache.history)
      ensures ok ==> Valid() && n == 0 && cache.held == old(cache.held) && cache.idles >= old(cache.idles)
      ensures ok ==>
        if old(n) == 0 then cache.disk == old(cache.disk) && cache.history == old(cache.history)
        else
          && TxOk(area, old(cache.disk), old(Lh()), old(Data()))
          && cache.disk == CommitImage(area, old(cache.disk), old(Lh()), old(Data()), 2 * old(n) + 2)
          && cache.history == old(cache.history) + CommitTrace(area, old(cache.disk), old(Lh()), old(Data()))
    {
      hide Bcache.Valid, ListOk, Names, SetOf, Install, Fill, WriteHead, CommitTrace, InstallTrace, FillTrace,
          LogUnused;
      if n > 0 {
        ghost var d0, hs, data := cache.disk, Lh(), Data();
        CommitTraceParts(area, d0, hs, data);
        NothingListed(area, d0, hs);
        ok := WriteLog();
        if !ok { return; }
        WriteHeader();
        InstallTrans();
        NothingListed(area, cache.disk, Lh());
        n := 0;
        WriteHeader();
        CompleteCommit(area, d0, hs, data);
      }
      NamesFit(area, cache.disk, Lh());
      return true;
    }

    // One turn of begin_op's loop; false means it sleeps.
    method BeginOp() returns (admitted: bool)
      requires Sound()
      modifies this`outstanding
      ensures Sound() && admitted == LogReservation.Admits(old(State()))
      ensures State() == if admitted then LogReservation.Begun(old(State())) else old(State())
      ensures admitted <==> !committing && n + (old(outstanding) + 1) * MAXOPBLOCKS <= LOGSIZE
      ensures outstanding == old(outstanding) + if admitted then 1 else 0
    {
      hide Bcache.Valid, Names;
      if committing {
        return false;
      } else if n + (outstanding + 1) * MAXOPBLOCKS > LOGSIZE {
        return false;
      }
      outstanding := outstanding + 1;
      return true;
    }

    // The tests at the head of log_write, made without log.lock; false is one
    // of its two panics.
    method MayWrite() returns (ok: bool)
      requires n <= block.Length
      ensures ok == !(LogReservation.Full(State()) || LogReservation.AtEnd(State())
                      || LogReservation.OutsideTrans(State()))
      ensures ok <==> n < LOGSIZE && n < area.size - 1 && 1 <= outstanding
    {
      if n >= LOGSIZE || n >= area.size - 1 { return false; }
      if outstanding < 1 { return false; }
      return true;
    }

    // Where the list names b, or its end.
    method Find(b: nat) returns (k: nat)
      requires n <= block.Length
      ensures k <= n && (if b in Lh() then k < n && block[k] == b else k == n)
    {
      k := 0;
      while k < n
        invariant k <= n && b !in Lh()[..k]
      {
        if block[k] == b { return; }
        k := k + 1;
      }
      assert Lh()[..n] == Lh();
    }

    // The rest of log_write, with log.lock held, by a process that holds buffer
    // i of a home block, whatever others have logged since its tests: the block
    // is pinned and named in the log once.
    method Put(i: nat)
      requires Sound() && i < cache.bufs.Length && cache.bufs[i].locked && cache.bufs[i].valid
               && cache.bufs[i].refcnt > 0
      requires !area.Inside(cache.bufs[i].blockno) && cache.bufs[i].blockno < |cache.disk|
               && |cache.disk| <= 0x1_0000_0000
      requires n < LOGSIZE || cache.bufs[i].blockno in Lh()
      modifies this`n, block, cache, cache.bufs
      ensures Sound() && cache.disk == old(cache.disk) && cache.history == old(cache.history)
              && cache.view == old(cache.view)
      ensures cache.held == old(cache.held) && cache.idles == old(cache.idles)
      ensures State() == LogReservation.Written(old(State()), old(cache.bufs[i].blockno))
      ensures cache.bufs[..] == old(cache.bufs[..])[i := old(cache.bufs[i].(dirty := true))]
      ensures cache.pins == old(cache.pins) + {old(cache.bufs[i].blockno)}
    {
      assert cache.bufs.Length == NBUF;
      hide Bcache.Valid, Names, SetOf;
      ghost var lh := Lh();
      var b := cache.bufs[i].blockno;
      var k := Find(b);
      Listing(area, cache.disk, lh, b);
      block[k] := b;
      if k == n { n := n + 1; }
      assert Lh() == if b in lh then lh else lh + [b];
      cache.SetDirty(i);
    }

    // log_write when nobody else writes between its tests and its lock.
    method LogWrite(i: nat) returns (ok: bool)
      requires Valid() && i < cache.bufs.Length && cache.bufs[i].locked && cache.bufs[i].valid
               && cache.bufs[i].refcnt > 0
      requires !area.Inside(cache.bufs[i].blockno) && cache.bufs[i].blockno < |cache.disk|
               && |cache.disk| <= 0x1_0000_0000
      modifies this`n, block, cache, cache.bufs
      ensures Valid() && cache.disk == old(cache.disk) && cache.history == old(cache.history)
              && cache.view == old(cache.view)
      ensures cache.held == old(cache.held) && cache.idles == old(cache.idles)
      ensures ok == !(LogReservation.Full(old(State())) || LogReservation.AtEnd(old(State()))
                      || LogReservation.OutsideTrans(old(State())))
      ensures !ok ==> State() == old(State()) && cache.bufs[..] == old(cache.bufs[..])
      ensures ok ==>
        && State() == LogReservation.Written(old(State()), old(cache.bufs[i].blockno))
        && cache.bufs[..] == old(cache.bufs[..])[i := old(cache.bufs[i].(dirty := true))]
        && cache.pins == old(cache.pins) + {old(cache.bufs[i].blockno)}
    {
      hide Bcache.Valid, Names;
      ok := MayWrite();
      if !ok { return; }
      ghost var s := State();
      Put(i);
      assert n == |State().lh| && |s.lh| < s.size - 1;
    }

    // end_op. When the last call of the transaction ends, the images the disk
    // goes through are those of one commit, and afterwards the disk holds what
    // the kernel saw. ok is false for a panic: end_op's own, for a commit that
    // is running, or bget's, for a commit that finds no buffer.
    method EndOp() returns (ok: bool)
      requires Sound()
      requires outstanding == 1 ==>
        Valid() && LogUnused() && forall b :: b in cache.held ==> !area.Inside(b) && b !in Lh()
      modifies this`n, this`outstanding, this`committing, cache, cache.bufs
      ensures ok == !(old(committing) || (old(outstanding) == 1 && old(n) > 0 && old(cache.idles) == {}))
      ensures !ok ==> cache.disk == old(cache.disk) && cache.history == old(cache.history)
      ensures ok ==> Sound() && cache.held == old(cache.held)
      ensures ok ==> State() == var s := LogReservation.Ended(old(State()));
                                if old(outstanding) == 1 then LogReservation.Committed(s) else s
      ensures ok ==>
        if old(outstanding) == 1 && old(Lh()) != [] then
          var data := Gather(old(Lh()), old(cache.view));
          && TxOk(area, old(cache.disk), old(Lh()), data)
          && cache.history == old(cache.history) + CommitTrace(area, old(cache.disk), old(Lh()), data)
          && SameHome(area, cache.disk, Apply(old(cache.disk), old(Lh()), data))
        else cache.disk == old(cache.disk) && cache.history == old(cache.history)
      ensures ok && old(outstanding) == 1 ==>
        forall b: nat :: b < |cache.disk| && !area.Inside(b) && b !in cache.held ==>
          cache.disk[b] == cache.view[b] == old(cache.view)[b]
    {
      hide Bcache.Valid, ListOk, Names, Apply, CommitImage, CommitTrace, LogUnused;
      var last := outstanding == 1;
      outstanding := outstanding - 1;
      if committing { return false; }
      if last {
        committing := true;
        ghost var disk, hs, view := cache.disk, Lh(), cache.view;
        NamesFit(area, disk, hs);
        Listed(area, disk, hs);
        ghost var clean := cache.CleanAll();
        ok := Commit();
        if !ok { return; }
        committing := false;
        ghost var clean' := cache.CleanAll();
        if hs != [] { CommitSettles(area, disk, cache.disk, view, cache.view, hs, cache.held); }
      }
      return true;
    }

    // A commit finds a buffer as long as the logged blocks and the buffers in
    // use do not fill the cache.
    lemma RoomToCommit()
      requires Sound() && UseCount(cache.bufs[..]) + n < NBUF
      ensures cache.idles != {}
    {
      PinsCounted(cache.bufs[..], cache.disk);
      SizeOf(Lh());
      if forall i :: 0 <= i < NBUF ==> !Idle(cache.bufs[..][i]) {
        NotIdle(cache.bufs[..]);
      } else {
        var i :| 0 <= i < NBUF && Idle(cache.bufs[..][i]);
        assert (i as nat) in cache.idles;
      }
    }

    // When nobody uses a buffer, one is missing for the commit if and only if
    // the log holds NBUF blocks.
    lemma NoRoomExactlyWhen()
      requires Sound() && forall i :: 0 <= i < cache.bufs.Length ==> cache.bufs[i].refcnt == 0
      ensures cache.idles == {} <==> n == NBUF
    {
      RoomExactlyWhen(cache.bufs[..], cache.disk);
      SizeOf(Lh());
    }
  }

  // A list of home blocks, whether it fits the area or not.
  predicate Names(a: Area, d: Disk, hs: seq<word>)
  {
    && |hs| <= LOGSIZE && a.start + a.size <= |d|
    && Distinct(hs)
    && forall i :: 0 <= i < |hs| ==> hs[i] < |d| && !a.Inside(hs[i])
  }

  lemma NamesFit(a: Area, d: Disk, hs: seq<word>)
    ensures ListOk(a, d, hs) <==> Names(a, d, hs) && |hs| < a.size
  {
  }

  // A finished commit leaves on the disk what the kernel saw, and the kernel
  // goes on seeing it.
  lemma CommitSettles(a: Area, d: Disk, d': Disk, v: seq<Block>, v': seq<Block>, hs: seq<word>, held: set<nat>)
    requires |v| == |d| == |d'| == |v'| && ListOk(a, d, hs) && TxOk(a, d, hs, Gather(hs, v))
    requires d' == CommitImage(a, d, hs, Gather(hs, v), 2 * |hs| + 2)
    requires forall b: nat :: b < |d| && b !in held && b !in hs ==> v[b] == d[b]
    requires forall b: nat :: b < |d| && b !in held ==> v'[b] == d'[b]
    ensures Empty(a, d') && SameHome(a, d', Apply(d, hs, Gather(hs, v)))
    ensures forall b: nat :: b < |d| && !a.Inside(b) && b !in held ==> d'[b] == v'[b] == v[b]
  {
    CompleteCommit(a, d, hs, Gather(hs, v));
    ApplyAt(d, hs, Gather(hs, v));
    forall b: nat | b < |d| && !a.Inside(b) && b !in held ensures d'[b] == v'[b] == v[b] {
      if b in hs { var j :| 0 <= j < |hs| && hs[j] == b; }
    }
  }

  // Room for the second bread of a pair.
  ghost predicate Two(s: set<nat>) { exists x, y :: x in s && y in s && x != y }

  // One more block in the list.
  lemma Listing(a: Area, d: Disk, hs: seq<word>, b: nat)
    requires Names(a, d, hs) && b < |d| && b < 0x1_0000_0000 && !a.Inside(b) && (|hs| < LOGSIZE || b in hs)
    ensures b !in hs ==> Names(a, d, hs + [b]) && SetOf(hs + [b]) == SetOf(hs) + {b}
    ensures b in hs ==> SetOf(hs) == SetOf(hs) + {b}
  {
  }

  lemma Listed(a: Area, d: Disk, hs: seq<word>)
    requires ListOk(a, d, hs)
    ensures forall i :: 0 <= i < |hs| ==> hs[i] < |d|
    ensures forall b :: b in SetOf(hs) <==> b in hs
  {
  }

  lemma TwoSome(s: set<nat>)
    requires Two(s)
    ensures s != {}
  {
  }

  lemma NothingListed(a: Area, d: Disk, hs: seq<word>)
    requires ListOk(a, d, hs)
    ensures ListOk(a, d, []) && SetOf([]) == {} && 0 < a.size && a.start + a.size <= |d| && a.start !in SetOf(hs)
  {
  }

  lemma TwoGrows(s: set<nat>, t: set<nat>)
    requires s <= t
    ensures Two(s) ==> Two(t)
  {
    if x, y :| x in s && y in s && x != y {
      assert x in t && y in t;
    }
  }

  lemma OneLeft(s: set<nat>, x: nat, cached: bool)
    requires cached || Two(s)
    ensures cached || s - {x} != {}
  {
    if !cached {
      var y, z :| y in s && z in s && y != z;
      assert (if y == x then z else y) in s - {x};
    }
  }

  // Changing a block that is not listed does not change what is gathered.
  lemma GatherKept(hs: seq<word>, view: seq<Block>, b: nat, v: Block)
    requires (forall j :: 0 <= j < |hs| ==> hs[j] < |view|) && b < |view| && b !in hs
    ensures Gather(hs, view[b := v]) == Gather(hs, view)
  {
  }

  lemma AllInstalled(a: Area, d: Disk, d': Disk, hs: seq<word>, pins: set<nat>)
    requires ListOk(a, d, hs) && |d| == |d'| && (pins == SetOf(hs) || pins == {})
    ensures ListOk(a, d', hs) && pins - SetOf(hs) == {}
  {
  }

  lemma NoneYet(hs: seq<word>)
    ensures SetOf(hs[..0]) == {}
  {
  }

  // The disk and its history, one logged block at a time.
  lemma FillNone(a: Area, d: Disk, data: seq<Block>)
    requires |data| < a.size && a.start + a.size <= |d|
    ensures Fill(a, d, data, 0) == d && FillTrace(a, d, data)[..0] == [] && |FillTrace(a, d, data)| == |data|
  {
  }

  lemma FillNext(a: Area, d: Disk, data: seq<Block>, i: nat)
    requires i < |data| < a.size && a.start + a.size <= |d|
    ensures Fill(a, d, data, i + 1) == Fill(a, d, data, i)[a.start + i + 1 := data[i]]
    ensures |FillTrace(a, d, data)| == |data|
            && FillTrace(a, d, data)[..i + 1] == FillTrace(a, d, data)[..i] + [Fill(a, d, data, i + 1)]
  {
  }

  // The disk and its history, one installed block at a time.
  lemma InstallNone(a: Area, d: Disk, hs: seq<word>)
    requires ListOk(a, d, hs)
    ensures Install(a, d, hs, 0) == d && InstallTrace(a, d, hs)[..0] == [] && |InstallTrace(a, d, hs)| == |hs|
  {
  }

  lemma InstallNext(a: Area, d: Disk, hs: seq<word>, i: nat)
    requires ListOk(a, d, hs) && i < |hs|
    ensures |Install(a, d, hs, i)| == |d| && a.start + i + 1 < |d| && hs[i] < |d|
    ensures Install(a, d, hs, i + 1) == Install(a, d, hs, i)[hs[i] := Install(a, d, hs, i)[a.start + i + 1]]
    ensures |InstallTrace(a, d, hs)| == |hs|
    ensures InstallTrace(a, d, hs)[..i + 1] == InstallTrace(a, d, hs)[..i] + [Install(a, d, hs, i + 1)]
  {
  }

  // Installing the next block leaves the remaining pins.
  lemma Progress(a: Area, d: Disk, hs: seq<word>, i: nat, pins: set<nat>)
    requires ListOk(a, d, hs) && i < |hs| && (pins == SetOf(hs) || pins == {})
    ensures hs[i] < |d| && !a.Inside(hs[i]) && |hs| < a.size && a.start + a.size <= |d|
    ensures forall b :: a.Inside(b) ==> b !in pins
    ensures forall b :: b in pins ==> b in hs
    ensures SetOf(hs[..i + 1]) == SetOf(hs[..i]) + {hs[i]} && hs[i] !in SetOf(hs[..i])
    ensures pins == SetOf(hs) ==> hs[i] in pins - SetOf(hs[..i])
  {
    assert hs[..i + 1] == hs[..i] + [hs[i]];
  }
}
