/** The record store (DBASE) with fixed-length records: a data file with a free
    list, and one B-tree for each index field. */
module Database {
  import opened Wrappers
  import opened BlockFile
  import opened TreeShape
  import opened TreeOps
  import opened TreeOnDisk
  import opened KeyOrder
  import opened Cursor
  import opened BTreeFile
  import opened Records

  class Dbase<F(!new)> {
    const file: BlkIoBuf<Block<F>>
    const pbIndex: seq<BTree<Key<F>>>      // one tree for each index field
    const kfBase: seq<(F, F) -> int>       // compares index fields alone
    const zeroField: F

    var fOpen: bool
    var ddh: nat              // the header record of the data file: the first free block
    var nnFree: nat           // first free block, in memory
    var nnLastFree: nat       // block after the last one, 0 if not known yet
    var uiLockCnt: nat

    ghost var live: map<nat, seq<F>>   // the records, by number
    ghost var free: seq<nat>

    ghost function Files(): set<object> {
      set b | b in pbIndex :: b.file
    }

    /** The data file and the indices are all different objects. */
    ghost predicate Apart() {
      && |pbIndex| == |kfBase| >= 1
      && (forall i, j :: 0 <= i < j < |pbIndex| ==> pbIndex[i] != pbIndex[j] && pbIndex[i].file != pbIndex[j].file)
      && (forall i :: 0 <= i < |pbIndex| ==> pbIndex[i].file as object != file)
      && (forall i :: 0 <= i < |kfBase| ==> TotalPreorder(kfBase[i]) && pbIndex[i].kfSrch == ByField(kfBase[i]))
    }

    /** Index i is an open, valid B-tree with one key for each record. */
    ghost predicate IndexOk(i: nat, recs: map<nat, seq<F>>)
      requires i < |pbIndex|
      reads pbIndex[i], pbIndex[i].file
    {
      forall u: nat {:trigger Look(u)} :: Look(u) ==>
        pbIndex[i].Valid() && pbIndex[i].fOpen && Agrees(pbIndex[i].Keys(), recs, i)
    }

    /** The indices from lo up to hi agree with these records. */
    ghost predicate IndicesOk(lo: nat, hi: nat, recs: map<nat, seq<F>>)
      reads pbIndex, Files()
    {
      forall i :: lo <= i < hi && i < |pbIndex| ==> IndexOk(i, recs)
    }

    ghost predicate FileOk(recs: map<nat, seq<F>>)
      reads `nnFree, `nnLastFree, `free, file
    {
      FileFrom(nnFree, recs)
    }

    /** The data file holds these records, with a free list that begins at head. */
    ghost predicate FileFrom(head: nat, recs: map<nat, seq<F>>)
      reads `nnLastFree, `free, file
    {
      && file.Valid() && file.Dense() && |file.contents| >= 1
      && DataOk(file.contents, recs, head, free)
      && (forall n :: n in recs ==> |recs[n]| >= |kfBase|)
      && (nnLastFree == 0 || nnLastFree == |file.contents|)
    }

    ghost predicate Valid()
      reads this, file, pbIndex, Files()
    {
      && Apart() && FileOk(live) && (uiLockCnt == 0 ==> ddh == nnFree)
      && IndicesOk(0, |pbIndex|, live)
      && NoTwins(kfBase, live)
    }

    /** Create the data file and its indices. */
    constructor (kf: seq<(Key<F>, Key<F>) -> int>, kfBase: seq<(F, F) -> int>, uiOrder: nat, zeroField: F)
      requires |kf| == |kfBase| >= 1 && uiOrder % 65536 >= 4
      requires forall i :: 0 <= i < |kf| ==> TotalPreorder(kfBase[i]) && Ordered(kf[i], kfBase[i])
      ensures Valid() && fOpen && live == map[] && free == [] && file.contents == [Link(0)] && uiLockCnt == 0 && this.kfBase == kfBase
      ensures file.uiMaxBlocks == 32 && file.fOpen && file.zero == Link(0) && nnLastFree == 0 && |pbIndex| == |kf|
      ensures fresh(file) && forall b :: b in pbIndex ==> fresh(b) && fresh(b.file)
    {
      var ix := OpenIndices(kf, kfBase, uiOrder, zeroField);
      var f := new BlkIoBuf<Block<F>>([Link(0)], Link(0), 32);
      f.EnableBuffer(true);
      this.kfBase, this.zeroField, pbIndex, file := kfBase, zeroField, ix, f;
      fOpen, ddh, nnFree, nnLastFree, uiLockCnt := true, 0, 0, 0, 0;
      live, free := map[], [];
      new;
      EmptyFile<F>();
      forall i | 0 <= i < |pbIndex|
        ensures IndexOk(i, live)
      {
        BlankAgrees(i, kf[i], kfBase[i]);
      }
    }

    lemma BlankAgrees(i: nat, kf: (Key<F>, Key<F>) -> int, kfBase: (F, F) -> int)
      requires i < |pbIndex| && Blank(pbIndex[i], kf, kfBase)
      ensures IndexOk(i, map[])
    {
    }

    /** An open index without keys. */
    static ghost predicate Blank(b: BTree<Key<F>>, kf: (Key<F>, Key<F>) -> int, kfBase: (F, F) -> int)
      reads b, b.file
    {
      && b.kfIns == kf && b.kfSrch == ByField(kfBase)
      && forall u: nat {:trigger Look(u)} :: Look(u) ==> b.Valid() && b.fOpen && b.file.fOpen && b.Keys() == []
    }

    static method OpenIndices(kf: seq<(Key<F>, Key<F>) -> int>, kfBase: seq<(F, F) -> int>, uiOrder: nat, zeroField: F)
      returns (ix: seq<BTree<Key<F>>>)
      requires |kf| == |kfBase| && uiOrder % 65536 >= 4
      requires forall i :: 0 <= i < |kf| ==> TotalPreorder(kfBase[i]) && Ordered(kf[i], kfBase[i])
      ensures |ix| == |kf|
      ensures forall i, j :: 0 <= i < j < |ix| ==> ix[i] != ix[j] && ix[i].file != ix[j].file
      ensures forall i :: 0 <= i < |ix| ==> fresh(ix[i]) && fresh(ix[i].file)
      ensures forall i :: 0 <= i < |ix| ==> Blank(ix[i], kf[i], kfBase[i])
    {
      ix := [];
      while |ix| < |kf|
        invariant |ix| <= |kf|
        invariant forall i, j :: 0 <= i < j < |ix| ==> ix[i] != ix[j] && ix[i].file != ix[j].file
        invariant forall i :: 0 <= i < |ix| ==> fresh(ix[i]) && fresh(ix[i].file)
        invariant forall i :: 0 <= i < |ix| ==> Blank(ix[i], kf[i], kfBase[i])
      {
        var n := |ix|;
        var b := OpenIndex(kf[n], kfBase[n], uiOrder, zeroField);
        ix := ix + [b];
      }
    }

    static method OpenIndex(kf: (Key<F>, Key<F>) -> int, kfBase: (F, F) -> int, uiOrder: nat, zeroField: F) returns (b: BTree<Key<F>>)
      requires uiOrder % 65536 >= 4 && TotalPreorder(kfBase) && Ordered(kf, kfBase)
      ensures fresh(b) && fresh(b.file) && Blank(b, kf, kfBase)
    {
      ByFieldOk(kf, kfBase);
      b := new BTree<Key<F>>(uiOrder, Key(zeroField, 0), kf, ByField(kfBase), true);
    }

    // ------------------------------------------------------------ the lock

    /** Lock the file.  The first lock drops what is cached and rereads the header, which
        alone need be right until then. */
    method ObtainLock()
      requires Apart() && IndicesOk(0, |pbIndex|, live) && NoTwins(kfBase, live)
      requires FileFrom(if uiLockCnt == 0 then ddh else nnFree, live)
      modifies this`uiLockCnt, this`nnFree, file
      ensures Valid() && uiLockCnt == old(uiLockCnt) + 1 && file.contents == old(file.contents)
      ensures nnFree == if old(uiLockCnt) == 0 then ddh else old(nnFree)
      ensures if old(uiLockCnt) == 0 then file.fOpen && file.bbList == [] else unchanged(file)
    {
      uiLockCnt := uiLockCnt + 1;
      if uiLockCnt == 1 {
        file.EnableBuffer(true);
        nnFree := ddh;
      }
    }

    /** Give a lock back.  With the last one the header is written, and the file holds
        all there is to be seen. */
    method ReleaseLock()
      requires uiLockCnt > 0 && Apart() && FileOk(live)
      requires IndicesOk(0, |pbIndex|, live)
      requires NoTwins(kfBase, live)
      modifies this`uiLockCnt, this`ddh, file
      ensures Valid() && uiLockCnt == old(uiLockCnt) - 1 && file.contents == old(file.contents)
      ensures if uiLockCnt == 0 then ddh == nnFree && file.disk == file.contents && file.fOpen && file.bbList == []
              else ddh == old(ddh) && unchanged(file)
    {
      uiLockCnt := uiLockCnt - 1;
      if uiLockCnt == 0 {
        ddh := nnFree;
        file.EnableBuffer(true);
      }
    }

    // ------------------------------------------------------------ reading

    method ReadRecord(nn: nat) returns (rec: seq<F>)
      requires FileOk(live) && nn in live
      modifies file
      ensures FileOk(live) && file.contents == old(file.contents) && rec == live[nn]
    {
      LiveRecord(file.contents, live, nnFree, free, nn);
      var blk := file.Get(nn);
      rec := blk.value.rec;
    }

    /** The next key of index i that matches a field, any key if no field is given. */
    method NextKey(ghost i: nat, bt: BTree<Key<F>>, field: Option<F>, pl: PAList<Key<F>>) returns (r: Option<Key<F>>)
      requires Apart() && i < |pbIndex| && bt == pbIndex[i] && IndexOk(i, live) && pl.On(bt.tree)
      modifies bt`bteLastError, bt.file, pl
      ensures IndexOk(i, live)
      ensures r.Some? ==>
                && pl.On(bt.tree) && pl.Returned()
                && StepResult(ByField(kfBase[i]), SearchKey(field), bt.Keys(), old(pl.Done()), pl.Done(), r)
      ensures r.None? ==>
                NoHit(ByField(kfBase[i]), SearchKey(field), bt.Keys(), old(pl.Done()), |bt.Keys()|)
    {
      assert Look(0);
      r := bt.Lookup(SearchKey(field), pl);
    }

    /** Does a record meet the criteria of a search? */
    method LookupMatch(want: seq<Option<F>>, rec: seq<F>) returns (ok: bool)
      requires |want| == |kfBase| <= |rec|
      ensures ok <==> Meets(kfBase, want, rec)
    {
      var i := 0;
      while i < |want| && (want[i].None? || kfBase[i](want[i].value, rec[i]) == 0)
        invariant i <= |want| && forall j :: 0 <= j < i && want[j].Some? ==> kfBase[j](want[j].value, rec[j]) == 0
      {
        i := i + 1;
      }
      ok := i == |want|;
    }

    /** Search on along index i for a record that meets the criteria. */
    method SearchIndex(ghost i: nat, bt: BTree<Key<F>>, field: Option<F>, want: seq<Option<F>>, pl: PAList<Key<F>>)
      returns (r: Option<nat>, rec: seq<F>)
      requires Apart() && FileOk(live) && i < |pbIndex| == |want| && bt == pbIndex[i] && field == want[i]
      requires IndexOk(i, live) && pl.On(bt.tree)
      modifies bt`bteLastError, bt.file, pl, file
      ensures FileOk(live) && IndexOk(i, live) && file.contents == old(file.contents)
      ensures r.Some? ==> Found(i, want, old(pl.Done()), pl, r.value, rec)
      ensures r.None? ==> NoneMeets(kfBase, want, live, bt.Keys(), old(pl.Done()), |bt.Keys()|)
    {
      r, rec := None, [];
      ghost var c0, c := pl.Done(), pl.Done();
      var pc := ScanKey(i, bt, field, want, pl, c0, c);
      while pc.Some? && r.None?
        invariant FileOk(live) && IndexOk(i, live) && file.contents == old(file.contents)
        invariant if r.Some? then Found(i, want, c0, pl, r.value, rec)
                  else Scan(kfBase, want, live, i, bt.Keys(), c0, c, pl.Done(), pc) && (pc.Some? ==> pl.On(bt.tree) && pl.Returned())
        decreases |bt.Keys()| - c, pc.Some? && r.None?
        modifies bt`bteLastError, bt.file, pl, file
      {
        r, rec, pc, c := ScanTurn(i, bt, field, want, pl, pc, c0, c);
      }
      if r.None? {
        ScanIndex(i, want, c0, c, pl.Done(), pc);
      }
    }

    /** Record nn is the first from key c0 of index i on to meet the criteria. */
    ghost predicate Found(i: nat, want: seq<Option<F>>, c0: nat, pl: PAList<Key<F>>, nn: nat, rec: seq<F>)
      requires i < |pbIndex|
      reads `live, pbIndex[i], pl
    {
      && c0 < pl.Done() <= |pbIndex[i].Keys()| && pbIndex[i].Keys()[pl.Done() - 1].nn == nn
      && pl.On(pbIndex[i].tree) && pl.Returned()
      && nn in live && rec == live[nn] && Meets(kfBase, want, rec)
      && NoneMeets(kfBase, want, live, pbIndex[i].Keys(), c0, pl.Done() - 1)
    }

    method ScanTurn(ghost i: nat, bt: BTree<Key<F>>, field: Option<F>, want: seq<Option<F>>, pl: PAList<Key<F>>,
                    pc0: Option<Key<F>>, ghost c0: nat, ghost c: nat)
      returns (r: Option<nat>, rec: seq<F>, pc: Option<Key<F>>, ghost c': nat)
      requires Apart() && FileOk(live) && i < |pbIndex| == |want| && bt == pbIndex[i] && field == want[i]
      requires IndexOk(i, live) && pl.On(bt.tree) && pl.Returned() && pc0.Some?
      requires Scan(kfBase, want, live, i, bt.Keys(), c0, c, pl.Done(), pc0)
      modifies bt`bteLastError, bt.file, pl, file
      ensures FileOk(live) && IndexOk(i, live) && file.contents == old(file.contents)
      ensures if r.Some? then Found(i, want, c0, pl, r.value, rec)
              else Scan(kfBase, want, live, i, bt.Keys(), c0, c', pl.Done(), pc) && (pc.Some? ==> pl.On(bt.tree) && pl.Returned())
      ensures c < c' <= |bt.Keys()|
    {
      ScanIndex(i, want, c0, c, pl.Done(), pc0);
      r, pc, c' := None, pc0, pl.Done();
      var ok;
      ok, rec := TryRecord(pc0.value.nn, want);
      if ok {
        r := Some(pc0.value.nn);
      } else {
        pc := ScanKey(i, bt, field, want, pl, c0, c');
      }
    }

    method TryRecord(nn: nat, want: seq<Option<F>>) returns (ok: bool, rec: seq<F>)
      requires FileOk(live) && nn in live && |want| == |kfBase|
      modifies file
      ensures FileOk(live) && file.contents == old(file.contents)
      ensures rec == live[nn] && (ok <==> Meets(kfBase, want, rec))
    {
      rec := ReadRecord(nn);
      ok := LookupMatch(want, rec);
    }

    method ScanKey(ghost i: nat, bt: BTree<Key<F>>, field: Option<F>, ghost want: seq<Option<F>>, pl: PAList<Key<F>>,
                   ghost c0: nat, ghost c: nat)
      returns (pc: Option<Key<F>>)
      requires Apart() && i < |pbIndex| == |want| && bt == pbIndex[i] && field == want[i]
      requires IndexOk(i, live) && pl.On(bt.tree) && c == pl.Done()
      requires c0 <= c && NoneMeets(kfBase, want, live, bt.Keys(), c0, c)
      modifies bt`bteLastError, bt.file, pl
      ensures IndexOk(i, live) && Scan(kfBase, want, live, i, bt.Keys(), c0, c, pl.Done(), pc)
      ensures pc.Some? ==> pl.On(bt.tree) && pl.Returned()
    {
      pc := NextKey(i, bt, field, pl);
    }

    lemma ScanIndex(i: nat, want: seq<Option<F>>, c0: nat, c: nat, done: nat, pc: Option<Key<F>>)
      requires Apart() && i < |pbIndex| && IndexOk(i, live)
      requires Scan(kfBase, want, live, i, pbIndex[i].Keys(), c0, c, done, pc)
      ensures c0 <= c
      ensures pc.None? ==> NoneMeets(kfBase, want, live, pbIndex[i].Keys(), c0, |pbIndex[i].Keys()|)
      ensures pc.Some? ==>
                && c < done <= |pbIndex[i].Keys()| && pbIndex[i].Keys()[done - 1] == pc.value && pc.value.nn in live
                && NoneMeets(kfBase, want, live, pbIndex[i].Keys(), c0, done - 1)
                && (!Meets(kfBase, want, live[pc.value.nn]) ==> NoneMeets(kfBase, want, live, pbIndex[i].Keys(), c0, done))
    {
      assert Look(0);
      ScanStep(kfBase, want, live, i, pbIndex[i].Keys(), c0, c, done, pc);
    }

    /** The index to search along: that of the first field given, or else uiIdx. */
    method ChooseIndex(want: seq<Option<F>>, uiIdx: nat) returns (i: nat)
      requires |want| == |pbIndex|
      ensures if forall j :: 0 <= j < |want| ==> want[j].None? then i == uiIdx
              else i < |want| && want[i].Some? && forall j :: 0 <= j < i ==> want[j].None?
    {
      i := 0;
      while i < |pbIndex| && want[i].None?
        invariant i <= |pbIndex| && forall j :: 0 <= j < i ==> want[j].None?
      {
        i := i + 1;
      }
      if i == |pbIndex| {
        i := uiIdx;
      }
    }

    /** Search on from a cursor for the next record that meets the criteria, in the
        order of index i: that of the first field given, or uiIdx if none is. */
    method Lookup(want: seq<Option<F>>, pl: PAList<Key<F>>, uiIdx: nat, ghost i: nat) returns (r: Option<nat>, rec: seq<F>)
      requires Valid() && |want| == |pbIndex| && uiIdx < |pbIndex|
      requires if forall j :: 0 <= j < |want| ==> want[j].None? then i == uiIdx
               else i < |want| && want[i].Some? && forall j :: 0 <= j < i ==> want[j].None?
      requires pl.On(pbIndex[i].tree)
      modifies pbIndex, Files(), pl, file
      ensures Valid() && file.contents == old(file.contents)
      ensures pbIndex[i].tree == old(pbIndex[i].tree)
      ensures !fOpen ==> r.None? && unchanged(pl)
      ensures fOpen && r.Some? ==> Found(i, want, old(pl.Done()), pl, r.value, rec)
      ensures fOpen && r.None? ==> NoneMeets(kfBase, want, live, pbIndex[i].Keys(), old(pl.Done()), |pbIndex[i].Keys()|)
    {
      r, rec := None, [];
      if fOpen {
        var n := ChooseIndex(want, uiIdx);
        r, rec := SearchAt(n, want, pl);
      }
    }

    method SearchAt(i: nat, want: seq<Option<F>>, pl: PAList<Key<F>>) returns (r: Option<nat>, rec: seq<F>)
      requires Valid() && |want| == |pbIndex| && i < |pbIndex| && pl.On(pbIndex[i].tree)
      modifies pbIndex, Files(), pl, file
      ensures Valid() && file.contents == old(file.contents) && pbIndex[i].tree == old(pbIndex[i].tree)
      ensures r.Some? ==> Found(i, want, old(pl.Done()), pl, r.value, rec)
      ensures r.None? ==> NoneMeets(kfBase, want, live, pbIndex[i].Keys(), old(pl.Done()), |pbIndex[i].Keys()|)
    {
      r, rec := SearchIndex(i, pbIndex[i], want[i], want, pl);
      forall j | 0 <= j < |pbIndex| && j != i
        ensures IndexOk(j, live)
      {
        assert unchanged(pbIndex[j], pbIndex[j].file);
      }
    }

    // ------------------------------------------------------------ insertion

    /** Take a block for a record, and then store one there. */
    method GetFreeBlock() returns (nn: nat)
      requires FileOk(live)
      modifies this`nnFree, this`nnLastFree, this`free, file
      ensures file.Valid() && file.Dense() && file.contents == old(file.contents)
      ensures nn !in live && Reserved(nn)
      ensures old(free) != [] ==> nn == old(free)[0] < |file.contents| && free == old(free)[1..] && nnLastFree == old(nnLastFree)
      ensures old(free) == [] ==> nn == |file.contents| && free == []
    {
      FreeHead(file.contents, live, nnFree, free);
      if nnFree != 0 {
        ReuseBlock(file.contents, live, nnFree, free);
        nn := nnFree;
        var blk := file.Get(nnFree);
        nnFree := blk.value.nnNext;
        free := free[1..];
      } else {
        if nnLastFree == 0 {
          nnLastFree := file.HighNode();
        }
        nn := nnLastFree;
        nnLastFree := nnLastFree + 1;
        forall rec: seq<F>
          ensures DataOk(file.contents + [Data(rec)], live[nn := rec], nnFree, free)
        {
          AppendBlock(file.contents, live, free, nnFree, rec);
        }
        AppendBlock(file.contents, live, free, nnFree, []);
      }
    }

    /** Block nn is set aside: whatever record is written there, the file is in
        order again. */
    ghost predicate Reserved(nn: nat)
      reads `nnFree, `nnLastFree, `free, `live, file
    {
      && 0 < nn <= |file.contents|
      && (nnLastFree == 0 || nnLastFree == |file.contents| + if nn == |file.contents| then 1 else 0)
      && forall rec :: DataOk(Stored(file.contents, nn, rec), live[nn := rec], nnFree, free)
    }

    method StoreRecord(nn: nat, rec: seq<F>)
      requires file.Valid() && file.Dense() && Reserved(nn) && |rec| >= |kfBase|
      requires forall n :: n in live ==> |live[n]| >= |kfBase|
      modifies this`live, file
      ensures live == old(live)[nn := rec] && FileOk(live) && file.contents == Stored(old(file.contents), nn, rec)
    {
      ghost var d := file.contents;
      file.Put(nn, Data(rec));
      assert file.contents == Stored(d, nn, rec);
      live := live[nn := rec];
    }

    /** Put the key of field i of a new record into index i. */
    method InsertKey(ghost i: nat, bt: BTree<Key<F>>, field: F, nn: nat, ghost rec: seq<F>) returns (ok: bool)
      requires Apart() && i < |pbIndex| && bt == pbIndex[i] && IndexOk(i, live) && nn !in live
      requires i < |rec| && field == rec[i]
      modifies bt, bt.file
      ensures ok && IndexOk(i, live[nn := rec])
    {
      assert Look(0);
      ghost var s := bt.Keys();
      var rc;
      ghost var p;
      rc, p := bt.Insert(Key(field, nn), true, false);
      KeyAdded(s, live, i, p, nn, rec);
      ok := rc != 0;
    }

    method InsertKeyAt(i: nat, rec: seq<F>, nn: nat, ghost recs: map<nat, seq<F>>) returns (ok: bool)
      requires Apart() && i < |pbIndex| <= |rec| && nn !in live && recs == live[nn := rec]
      requires IndicesOk(0, i, recs) && IndicesOk(i, |pbIndex|, live)
      modifies pbIndex, Files()
      ensures ok && IndicesOk(0, i + 1, recs) && IndicesOk(i + 1, |pbIndex|, live)
    {
      ok := InsertKey(i, pbIndex[i], rec[i], nn, rec);
      forall j | 0 <= j < |pbIndex| && j != i
        ensures if j < i then IndexOk(j, recs) else IndexOk(j, live)
      {
        assert pbIndex[j] != pbIndex[i] && pbIndex[j].file != pbIndex[i].file;
        assert if j < i then old(IndexOk(j, recs)) else old(IndexOk(j, live));
      }
    }

    method InsertKeys(rec: seq<F>, nn: nat, ghost recs: map<nat, seq<F>>) returns (ok: bool)
      requires Apart() && nn !in live && |rec| >= |pbIndex| && recs == live[nn := rec]
      requires IndicesOk(0, |pbIndex|, live)
      modifies pbIndex, Files()
      ensures ok && IndicesOk(0, |pbIndex|, recs)
    {
      ok := true;
      var i := 0;
      while i < |pbIndex| && ok
        invariant i <= |pbIndex| && ok
        invariant IndicesOk(0, i, recs) && IndicesOk(i, |pbIndex|, live)
        modifies pbIndex, Files()
      {
        ok := InsertKeyAt(i, rec, nn, recs);
        i := i + 1;
      }
    }

    /** Look along the first index for a record that agrees with this one on all
        index fields. */
    method FindTwin(rec: seq<F>) returns (found: bool)
      requires fOpen && Valid() && |rec| >= |pbIndex|
      modifies pbIndex, Files(), file
      ensures Valid() && file.contents == old(file.contents)
      ensures !found <==> Unlike(kfBase, rec, live)
    {
      var want := Whole(rec, |pbIndex|);
      var r := FindRecord(want);
      UnlikeAll(kfBase, rec, live);
      found := r.Some?;
    }

    /** A record that meets the criteria, if there is one. */
    method FindRecord(want: seq<Option<F>>) returns (r: Option<nat>)
      requires fOpen && Valid() && |want| == |pbIndex|
      modifies pbIndex, Files(), file
      ensures Valid() && file.contents == old(file.contents)
      ensures r.Some? ==> FirstToMeet(kfBase, want, live, old(pbIndex[Leading(want)].Keys()), r.value)
      ensures r.None? ==> forall n :: n in live ==> !Meets(kfBase, want, live[n])
    {
      ghost var i := Leading(want);
      var pl := new PAList<Key<F>>(0);
      var rec;
      r, rec := Lookup(want, pl, 0, i);
      if r.None? {
        NoneInIndex(i, want);
      } else {
        assert pbIndex[i].Keys()[pl.Done() - 1].nn == r.value;
      }
    }

    lemma NoneInIndex(i: nat, want: seq<Option<F>>)
      requires i < |pbIndex| && IndexOk(i, live)
      requires NoneMeets(kfBase, want, live, pbIndex[i].Keys(), 0, |pbIndex[i].Keys()|)
      ensures forall n :: n in live ==> !Meets(kfBase, want, live[n])
    {
      assert Look(0);
      NoRecordMeets(kfBase, want, live, pbIndex[i].Keys(), i);
    }

    /** Insert a record, unless one agrees with it on all index fields. */
    method Insert(rec: seq<F>) returns (rc: bool, ghost nn: nat)
      requires Valid() && |rec| >= |pbIndex|
      modifies this`ddh, this`nnFree, this`nnLastFree, this`uiLockCnt, this`live, this`free, pbIndex, Files(), file
      ensures Valid() && uiLockCnt == old(uiLockCnt)
      ensures rc <==> fOpen && Unlike(kfBase, rec, old(live))
      ensures rc ==> nn !in old(live) && live == old(live)[nn := rec]
      ensures rc && old(free) != [] ==> nn == old(free)[0] && free == old(free)[1..] && |file.contents| == old(|file.contents|)
      ensures rc && old(free) == [] ==> nn == old(|file.contents|) && free == [] && |file.contents| == nn + 1
      ensures !rc ==> live == old(live) && free == old(free) && file.contents == old(file.contents)
    {
      rc, nn := false, 0;
      if !fOpen {
        return;
      }
      var twin := FindTwin(rec);
      if twin {
        return;
      }
      ObtainLock();
      nn := InsertLocked(rec);
      ReleaseLock();
      rc := true;
    }

    method InsertLocked(rec: seq<F>) returns (ghost nn: nat)
      requires Valid() && |rec| >= |pbIndex| && Unlike(kfBase, rec, live)
      modifies this`nnFree, this`nnLastFree, this`live, this`free, pbIndex, Files(), file
      ensures nn !in old(live) && live == old(live)[nn := rec]
      ensures old(free) != [] ==> nn == old(free)[0] && free == old(free)[1..] && |file.contents| == old(|file.contents|)
      ensures old(free) == [] ==> nn == old(|file.contents|) && free == [] && |file.contents| == nn + 1
      ensures FileOk(live) && IndicesOk(0, |pbIndex|, live) && NoTwins(kfBase, live)
    {
      var nnData := GetFreeBlock();
      nn := nnData;
      ghost var recs := live[nn := rec];
      NoTwinsAdded(kfBase, live, nn, rec);
      var ok := InsertKeys(rec, nnData, recs);
      StoreRecord(nnData, rec);
    }

    // ------------------------------------------------------------ removal

    /** Take the key of record nn out of index i. */
    method RemoveKey(ghost i: nat, bt: BTree<Key<F>>, field: Option<F>, nn: nat) returns (gotit: bool)
      requires Apart() && i < |pbIndex| && bt == pbIndex[i] && IndexOk(i, live) && nn in live
      requires i < |live[nn]| && (field.Some? ==> kfBase[i](field.value, live[nn][i]) == 0)
      modifies bt, bt.file
      ensures gotit && IndexOk(i, live - {nn})
    {
      var pl := new PAList<Key<F>>(0);
      var pc := NextKey(i, bt, field, pl);
      ghost var c := 0;
      while pc.Some? && pc.value.nn != nn
        invariant IndexOk(i, live) && fresh(pl)
        invariant Hunt(kfBase[i], field, nn, bt.Keys(), c, pl.Done(), pc)
        invariant pc.Some? ==> pl.On(bt.tree) && pl.Returned()
        decreases |bt.Keys()| - c, pc.Some?
        modifies bt`bteLastError, bt.file, pl
      {
        HuntOn(i, field, nn, c, pl.Done(), pc);
        c := pl.Done();
        pc := NextKey(i, bt, field, pl);
      }
      HuntEnds(i, field, nn, c, pl.Done(), pc);
      TakeKey(i, bt, nn, pl);
      gotit := true;
    }

    lemma HuntOn(i: nat, field: Option<F>, nn: nat, c: nat, done: nat, pc: Option<Key<F>>)
      requires Apart() && i < |pbIndex| && IndexOk(i, live) && nn in live && i < |live[nn]|
      requires field.Some? ==> kfBase[i](field.value, live[nn][i]) == 0
      requires Hunt(kfBase[i], field, nn, pbIndex[i].Keys(), c, done, pc) && pc.Some? && pc.value.nn != nn
      ensures c < done <= |pbIndex[i].Keys()| && Absent(pbIndex[i].Keys(), nn, done)
    {
      NotHere(i, field, nn, c, done - 1);
    }

    lemma HuntEnds(i: nat, field: Option<F>, nn: nat, c: nat, done: nat, pc: Option<Key<F>>)
      requires Apart() && i < |pbIndex| && IndexOk(i, live) && nn in live && i < |live[nn]|
      requires field.Some? ==> kfBase[i](field.value, live[nn][i]) == 0
      requires Hunt(kfBase[i], field, nn, pbIndex[i].Keys(), c, done, pc) && (pc.Some? ==> pc.value.nn == nn)
      ensures pc.Some? && 0 < done <= |pbIndex[i].Keys()| && pbIndex[i].Keys()[done - 1].nn == nn
    {
      if pc.None? {
        NotHere(i, field, nn, c, |pbIndex[i].Keys()|);
        SomewhereInIndex(i, nn);
      }
    }

    method TakeKey(ghost i: nat, bt: BTree<Key<F>>, ghost nn: nat, pl: PAList<Key<F>>)
      requires Apart() && i < |pbIndex| && bt == pbIndex[i] && IndexOk(i, live)
      requires pl.On(bt.tree) && pl.Returned() && 0 < pl.Done() <= |bt.Keys()| && bt.Keys()[pl.Done() - 1].nn == nn
      modifies bt, bt.file
      ensures IndexOk(i, live - {nn})
    {
      ghost var recs, keys, p := live - {nn}, bt.Keys(), pl.Done() - 1;
      IndexParts(i);
      Pluck(bt, pl, keys, p);
      KeyTaken(keys, live, i, p, nn);
      IndexAgain(i, bt, DelAt(keys, p), recs);
    }

    method Pluck(bt: BTree<Key<F>>, pl: PAList<Key<F>>, ghost keys: seq<Key<F>>, ghost p: nat)
      requires bt.Valid() && bt.fOpen && pl.On(bt.tree) && pl.Returned()
      requires keys == bt.Keys() && p == pl.Done() - 1 < |keys|
      modifies bt, bt.file
      ensures bt.Valid() && bt.fOpen && bt.Keys() == DelAt(keys, p)
    {
      var rc := bt.RemoveP(pl);
    }

    lemma IndexParts(i: nat)
      requires i < |pbIndex| && IndexOk(i, live)
      ensures pbIndex[i].Valid() && pbIndex[i].fOpen && Agrees(pbIndex[i].Keys(), live, i)
    {
      assert Look(0);
    }

    lemma IndexAgain(i: nat, bt: BTree<Key<F>>, keys: seq<Key<F>>, recs: map<nat, seq<F>>)
      requires i < |pbIndex| && bt == pbIndex[i] && bt.Valid() && bt.fOpen && bt.Keys() == keys && Agrees(keys, recs, i)
      ensures IndexOk(i, recs)
    {
    }

    /** The key of record nn is a hit, so it is none of the keys passed over. */
    lemma NotHere(i: nat, field: Option<F>, nn: nat, a: nat, b: int)
      requires Apart() && i < |pbIndex| && IndexOk(i, live) && nn in live
      requires i < |live[nn]| && (field.Some? ==> kfBase[i](field.value, live[nn][i]) == 0)
      requires NoHit(ByField(kfBase[i]), SearchKey(field), pbIndex[i].Keys(), a, b)
      ensures forall j :: a <= j < b && 0 <= j < |pbIndex[i].Keys()| ==> pbIndex[i].Keys()[j].nn != nn
    {
      assert Look(0);
      var s := pbIndex[i].Keys();
      forall j | a <= j < b && 0 <= j < |s|
        ensures s[j].nn != nn
      {
        assert !Hit(ByField(kfBase[i]), SearchKey(field), s[j]);
      }
    }

    lemma SomewhereInIndex(i: nat, nn: nat)
      requires i < |pbIndex| && IndexOk(i, live) && nn in live
      ensures exists j :: 0 <= j < |pbIndex[i].Keys()| && pbIndex[i].Keys()[j].nn == nn
    {
      assert Look(0);
    }

    method RemoveKeyAt(i: nat, want: seq<Option<F>>, nn: nat, ghost recs: map<nat, seq<F>>) returns (gotit: bool)
      requires Apart() && i < |pbIndex| == |want| && nn in live && recs == live - {nn}
      requires Meets(kfBase, want, live[nn])
      requires IndicesOk(0, i, recs) && IndicesOk(i, |pbIndex|, live)
      modifies pbIndex, Files()
      ensures gotit && IndicesOk(0, i + 1, recs) && IndicesOk(i + 1, |pbIndex|, live)
    {
      gotit := RemoveKey(i, pbIndex[i], want[i], nn);
      forall j | 0 <= j < |pbIndex| && j != i
        ensures if j < i then IndexOk(j, recs) else IndexOk(j, live)
      {
        assert pbIndex[j] != pbIndex[i] && pbIndex[j].file != pbIndex[i].file;
        assert if j < i then old(IndexOk(j, recs)) else old(IndexOk(j, live));
      }
    }

    /** Take the keys of record nn out of every index. */
    method RemoveKeys(want: seq<Option<F>>, nn: nat, ghost recs: map<nat, seq<F>>) returns (gotit: bool)
      requires Apart() && nn in live && recs == live - {nn} && |want| == |pbIndex| && Meets(kfBase, want, live[nn])
      requires IndicesOk(0, |pbIndex|, live)
      modifies pbIndex, Files()
      ensures gotit && IndicesOk(0, |pbIndex|, recs)
    {
      gotit := true;
      var i := 0;
      while i < |pbIndex| && gotit
        invariant i <= |pbIndex| && gotit
        invariant IndicesOk(0, i, recs) && IndicesOk(i, |pbIndex|, live)
        modifies pbIndex, Files()
      {
        gotit := RemoveKeyAt(i, want, nn, recs);
        i := i + 1;
      }
    }

    /** Link the block of record nn into the free list. */
    method FreeRecord(nn: nat)
      requires FileOk(live) && nn in live
      modifies this`nnFree, this`live, this`free, file
      ensures live == old(live) - {nn} && free == [nn] + old(free) && |file.contents| == old(|file.contents|)
      ensures FileOk(live)
    {
      FreeBlock(file.contents, live, nnFree, free, nn);
      ghost var d := file.contents;
      file.Put(nn, Link(nnFree));
      assert file.contents == d[nn := Link(nnFree)];
      nnFree := nn;
      free := [nn] + free;
      live := live - {nn};
    }

    /** Remove the first record that meets the criteria, from the data file and from
        every index. */
    method Remove(want: Option<seq<Option<F>>>) returns (rc: bool, ghost nn: nat)
      requires Valid() && (want.Some? ==> |want.value| == |pbIndex|)
      modifies this`ddh, this`nnFree, this`uiLockCnt, this`live, this`free, pbIndex, Files(), file
      ensures Valid() && uiLockCnt == old(uiLockCnt)
      ensures rc <==> fOpen && want.Some? && exists n :: n in old(live) && Meets(kfBase, want.value, old(live)[n])
      ensures rc ==> nn in old(live) && Meets(kfBase, want.value, old(live)[nn]) && live == old(live) - {nn}
      ensures rc ==> FirstToMeet(kfBase, want.value, old(live), old(pbIndex[Leading(want.value)].Keys()), nn)
      ensures rc ==> free == [nn] + old(free) && |file.contents| == old(|file.contents|)
      ensures !rc ==> live == old(live) && free == old(free) && file.contents == old(file.contents)
    {
      rc, nn := false, 0;
      if !fOpen || want.None? {
        return;
      }
      var r := FindRecord(want.value);
      if r.None? {
        return;
      }
      nn := r.value;
      RemoveFound(want.value, r.value);
      rc := true;
    }

    method RemoveFound(want: seq<Option<F>>, nn: nat)
      requires Valid() && nn in live && |want| == |pbIndex| && Meets(kfBase, want, live[nn])
      modifies this`ddh, this`nnFree, this`uiLockCnt, this`live, this`free, pbIndex, Files(), file
      ensures Valid() && uiLockCnt == old(uiLockCnt) && live == old(live) - {nn}
      ensures free == [nn] + old(free) && |file.contents| == old(|file.contents|)
    {
      ObtainLock();
      RemoveLocked(want, nn);
      ReleaseLock();
    }

    method RemoveLocked(want: seq<Option<F>>, nn: nat)
      requires Valid() && nn in live && |want| == |pbIndex| && Meets(kfBase, want, live[nn])
      modifies this`nnFree, this`live, this`free, pbIndex, Files(), file
      ensures live == old(live) - {nn} && free == [nn] + old(free) && |file.contents| == old(|file.contents|)
      ensures FileOk(live) && IndicesOk(0, |pbIndex|, live) && NoTwins(kfBase, live)
    {
      ghost var recs := live - {nn};
      var gotit := RemoveKeys(want, nn, recs);
      FreeRecord(nn);
    }

    /** Replace a record: remove one that agrees with the old one on all index
        fields, and then insert the new one.  If the new one has a twin, only the
        removal takes place. */
    method Update(recOld: seq<F>, recNew: seq<F>) returns (rc: bool, ghost nn: nat, ghost nnNew: nat)
      requires Valid() && |recOld| >= |pbIndex| && |recNew| >= |pbIndex|
      modifies this`ddh, this`nnFree, this`nnLastFree, this`uiLockCnt, this`live, this`free, pbIndex, Files(), file
      ensures Valid() && uiLockCnt == old(uiLockCnt)
      ensures !fOpen || Unlike(kfBase, recOld, old(live)) ==> !rc && live == old(live) && free == old(free)
      ensures fOpen && !Unlike(kfBase, recOld, old(live)) ==>
                && nn in old(live) && SameFields(kfBase, recOld, old(live)[nn], |kfBase|)
                && (rc <==> Unlike(kfBase, recNew, old(live) - {nn}))
                && (rc ==> nnNew == nn && live == (old(live) - {nn})[nn := recNew] && free == old(free))
                && (!rc ==> live == old(live) - {nn} && free == [nn] + old(free))
                && |file.contents| == old(|file.contents|)
    {
      nnNew := 0;
      rc, nn := RemoveTwin(recOld);
      if rc {
        rc, nnNew := Insert(recNew);
      }
    }

    /** Remove the record that agrees with this one on all index fields. */
    method RemoveTwin(rec: seq<F>) returns (rc: bool, ghost nn: nat)
      requires Valid() && |rec| >= |pbIndex|
      modifies this`ddh, this`nnFree, this`uiLockCnt, this`live, this`free, pbIndex, Files(), file
      ensures Valid() && uiLockCnt == old(uiLockCnt)
      ensures rc <==> fOpen && !Unlike(kfBase, rec, old(live))
      ensures rc ==> nn in old(live) && SameFields(kfBase, rec, old(live)[nn], |kfBase|) && live == old(live) - {nn}
      ensures rc ==> free == [nn] + old(free) && |file.contents| == old(|file.contents|)
      ensures !rc ==> live == old(live) && free == old(free)
    {
      rc, nn := false, 0;
      if fOpen {
        var want := Whole(rec, |pbIndex|);
        UnlikeAll(kfBase, rec, live);
        rc, nn := Remove(Some(want));
        if rc {
          WholeMeets(kfBase, rec, old(live)[nn]);
        }
      }
    }

    // ------------------------------------------------------------ what always holds

    /** Every block but the header's holds a record or is on the free list, and is
        there once. */
    lemma Partition(n: nat)
      requires Valid()
      ensures CntSeq(free, n) + (if n in live then 1 else 0) == if 1 <= n < |file.contents| then 1 else 0
      ensures n in live ==> file.contents[n] == Data(live[n])
    {
      assert Look(0);
    }

    /** Index i is a valid tree that holds exactly one key for each record: the
        record's field i with the record's number. */
    lemma OneKeyEach(i: nat)
      requires Valid() && i < |pbIndex|
      ensures pbIndex[i].Valid() && pbIndex[i].fOpen && Agrees(pbIndex[i].Keys(), live, i)
    {
      assert IndexOk(i, live);
      IndexParts(i);
    }
  }
}
