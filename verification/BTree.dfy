/** The B-tree file (BTREE), kept on the cached block file. */
module BTreeFile {
  import opened Wrappers
  import opened BlockFile
  import opened TreeShape
  import opened TreeOps
  import opened TreeRemove
  import opened NodeImage
  import opened TreeOnDisk
  import opened RemoveOnDisk
  import opened KeyOrder
  import opened Cursor
  import opened TreeHeight

  datatype BtError = NoError | NotOpen | DupeKey

  const IF_DUPE := 1
  const IF_REPLACE := 2
  const IF_NORM := 4

  /** The header record at the start of the file. */
  datatype Header = Header(nnFree: nat, nnHead: nat, usOrder: U16, cKeys: nat)

  /** The chain of parents: the frames' numbers, nearest first, then a zero. */
  ghost predicate ChainOf<K>(parents: seq<nat>, fs: seq<Frame<K>>) {
    && |parents| == |fs| + 1 && parents[|fs|] == 0
    && forall i :: 0 <= i < |fs| ==> parents[i] == fs[i].nn
  }

  lemma ChainUp<K>(parents: seq<nat>, fs: seq<Frame<K>>)
    requires ChainOf(parents, fs) && fs != []
    ensures parents[0] == fs[0].nn && ChainOf(parents[1..], fs[1..])
  {
  }

  /** The focus t, below the frames fs, is node nn of the tree, and parents is its
      chain of parents. */
  ghost predicate Path<K>(m: nat, whole: Tree<K>, nn: nat, parents: seq<nat>, fs: seq<Frame<K>>, t: Tree<K>, h: nat) {
    && Placed(m, fs, t, h) && AllFormed(fs) && PlugAll(fs, t) == whole
    && t.Node? && nn == t.nn != 0 && |t.kids| == |t.keys| + 1 && ChainOf(parents, fs)
    && (t.keys == [] ==> t.kids == [Nil])
  }

  lemma RootPath<K>(m: nat, whole: Tree<K>, h: nat)
    requires Rooted(m, whole, h) && Num(whole) != 0
    ensures Path(m, whole, Num(whole), [0], [], whole, h)
  {
  }

  lemma PathDown<K>(m: nat, whole: Tree<K>, parents: seq<nat>, fs: seq<Frame<K>>, t: Tree<K>, h: nat, i: nat)
    returns (down: seq<Frame<K>>)
    requires m >= MIN_ORDER && Path(m, whole, Num(t), parents, fs, t, h) && i <= |t.keys| && t.kids[i].Node?
    ensures down == [Under(t, i)] + fs && AllFormed(down) && WellFormed(Under(t, i))
    ensures h > 0 && Path(m, whole, Num(t.kids[i]), [Num(t)] + parents, down, t.kids[i], h - 1)
    ensures Before(down) == Before(fs) + Left(t.keys, t.kids, i)
    ensures After(down) == Right(t.keys, t.kids, i) + After(fs)
  {
    down := FocusDown(m, fs, t, h, i);
    ChainDown(parents, fs, Under(t, i));
  }

  lemma ChainDown<K>(parents: seq<nat>, fs: seq<Frame<K>>, f: Frame<K>)
    requires ChainOf(parents, fs)
    ensures ChainOf([f.nn] + parents, [f] + fs)
  {
  }

  /** One step down to the left, in search of a successor. */
  lemma PathLeft<K>(m: nat, whole: Tree<K>, parents: seq<nat>, inner: seq<Frame<K>>, outer: seq<Frame<K>>,
                    u: Tree<K>, r: Tree<K>, h: nat)
    returns (f: Frame<K>)
    requires m >= MIN_ORDER && Path(m, whole, Num(u), parents, inner + outer, u, h) && Leftmost(inner, u, r) && u.kids[0].Node?
    ensures h > 0 && Path(m, whole, Num(u.kids[0]), [Num(u)] + parents, ([f] + inner) + outer, u.kids[0], h - 1)
    ensures Leftmost([f] + inner, u.kids[0], r)
  {
    f := LeftmostStep(inner, u, r);
    var down := PathDown(m, whole, parents, inner + outer, u, h, 0);
    Assoc([f], inner, outer);
  }

  lemma RootedAgain<K>(m: nat, whole: Tree<K>, h: nat)
    requires Path(m, whole, Num(whole), [0], [], whole, h) && InOrder(whole) != []
    ensures Rooted(m, whole, h)
  {
    PlacedParts(m, [], whole, h);
    Edges<K>([], [Nil]);
  }

  lemma NoRoot<K>(m: nat, whole: Tree<K>, h: nat)
    requires Rooted(m, whole, h)
    ensures Num(whole) == 0 <==> whole.Nil?
  {
  }

  /** Everything left of the focus is below the key, and nothing right of it is. */
  ghost predicate Between<K>(cmp: (K, K) -> int, fs: seq<Frame<K>>, key: K, strict: bool) {
    AllFormed(fs) && AllBelow(cmp, Before(fs), key) && NoneBelow(cmp, After(fs), key, strict)
  }

  /** How a key is to be put into the tree: over key i of the focus, which is equal
      to it, or at position i of the focus, next to a terminal node. */
  ghost predicate Spot<K>(cmp: (K, K) -> int, fs: seq<Frame<K>>, t: Tree<K>, i: nat, key: K, strict: bool, hit: bool) {
    && AllFormed(fs) && t.Node? && |t.kids| == |t.keys| + 1 && i <= |t.keys|
    && if hit then i < |t.keys| && cmp(t.keys[i], key) == 0
       else t.kids[i].Nil? && AllBelow(cmp, Before(fs) + Left(t.keys, t.kids, i), key)
            && NoneBelow(cmp, Right(t.keys, t.kids, i) + After(fs), key, strict)
  }

  /** A position between keys that are below and keys that are not. */
  ghost predicate Fitting<K>(cmp: (K, K) -> int, t: Tree<K>, i: nat, key: K, strict: bool) {
    && t.Node? && |t.kids| == |t.keys| + 1 && i <= |t.keys|
    && (i > 0 ==> cmp(t.keys[i - 1], key) < 0)
    && (i < |t.keys| ==> if strict then cmp(t.keys[i], key) > 0 else cmp(t.keys[i], key) >= 0)
  }

  lemma StepDown<K(!new)>(m: nat, cmp: (K, K) -> int, whole: Tree<K>, parents: seq<nat>, fs: seq<Frame<K>>, t: Tree<K>,
                          h: nat, i: nat, key: K, strict: bool)
    returns (down: seq<Frame<K>>)
    requires m >= MIN_ORDER && TotalPreorder(cmp) && Sorted(cmp, InOrder(whole))
    requires Path(m, whole, Num(t), parents, fs, t, h) && Between(cmp, fs, key, strict) && Fitting(cmp, t, i, key, strict)
    requires t.kids[i].Node?
    ensures h > 0 && Path(m, whole, Num(t.kids[i]), [Num(t)] + parents, down, t.kids[i], h - 1)
    ensures Between(cmp, down, key, strict)
  {
    PlaceLeft(cmp, fs, t, i, key);
    PlaceRight(cmp, fs, t, i, key, strict);
    down := PathDown(m, whole, parents, fs, t, h, i);
  }

  lemma SpotHere<K(!new)>(m: nat, cmp: (K, K) -> int, whole: Tree<K>, parents: seq<nat>, fs: seq<Frame<K>>, t: Tree<K>,
                          h: nat, i: nat, key: K, strict: bool)
    requires TotalPreorder(cmp) && Sorted(cmp, InOrder(whole))
    requires Path(m, whole, Num(t), parents, fs, t, h) && Between(cmp, fs, key, strict) && Fitting(cmp, t, i, key, strict)
    ensures Num(t.kids[i]) == 0 <==> t.kids[i].Nil?
    ensures t.kids[i].Nil? ==> Spot(cmp, fs, t, i, key, strict, false)
  {
    KidNumber(m, fs, t, h, i);
    PlaceLeft(cmp, fs, t, i, key);
    PlaceRight(cmp, fs, t, i, key, strict);
  }

  ghost predicate Present<K>(cmp: (K, K) -> int, s: seq<K>, key: K) {
    exists p :: 0 <= p < |s| && cmp(s[p], key) == 0
  }

  /** What inserting a key makes of the keys s.  If there is an equal key, one is
      overwritten under fReplace, and without fDupe nothing changes; otherwise the
      key goes in after the smaller keys and before the others. */
  ghost predicate InsertResult<K>(cmp: (K, K) -> int, s: seq<K>, s': seq<K>, key: K, fDupe: bool, fReplace: bool,
                                  rc: int, p: nat) {
    if fReplace && Present(cmp, s, key) then
      rc == 2 && p < |s| && cmp(s[p], key) == 0 && s' == s[p := key]
    else if !fDupe && Present(cmp, s, key) then
      rc == 0 && s' == s
    else
      rc != 0 && p <= |s| && s' == InsAt(s, p, key) && AllBelow(cmp, s[..p], key) && AllAtLeast(cmp, s[p..], key)
  }

  /** What removing a key makes of the keys s: one that matches is taken out. */
  ghost predicate RemoveResult<K>(cmp: (K, K) -> int, s: seq<K>, s': seq<K>, key: K, rc: int, p: nat) {
    if Present(cmp, s, key) then
      rc == 1 && p < |s| && cmp(s[p], key) == 0 && s' == DelAt(s, p)
    else
      rc == 0 && s' == s
  }

  lemma DeleteSorted<K(!new)>(ins: (K, K) -> int, fs: seq<Frame<K>>, t: Tree<K>, i: nat)
    returns (p: nat)
    requires AllFormed(fs) && t.Node? && |t.kids| == |t.keys| + 1 && i < |t.keys|
    requires Sorted(ins, InOrder(PlugAll(fs, t)))
    ensures p == KeyPos(fs, t, i)
    ensures var s := InOrder(PlugAll(fs, t)); p < |s| && s[p] == t.keys[i] && Rest(fs, t, i) == DelAt(s, p)
    ensures Sorted(ins, Rest(fs, t, i)) && |InOrder(PlugAll(fs, t))| == |Rest(fs, t, i)| + 1
  {
    p := RestIsDelete(fs, t, i);
    SortedDelete(ins, InOrder(PlugAll(fs, t)), p);
  }

  /** What a spot says about the whole tree: a hit is an equal key, and without
      one a strict spot shows there is none. */
  lemma SpotMeans<K>(cmp: (K, K) -> int, fs: seq<Frame<K>>, t: Tree<K>, i: nat, key: K, strict: bool, hit: bool)
    requires Spot(cmp, fs, t, i, key, strict, hit)
    ensures hit ==> Present(cmp, InOrder(PlugAll(fs, t)), key)
    ensures !hit && strict ==> !Present(cmp, InOrder(PlugAll(fs, t)), key)
  {
    if hit {
      var p := KeyReplaced(fs, t, i, key);
    } else {
      var p := InsertedLeaf(fs, t, i, key);
      var s := InOrder(PlugAll(fs, t));
      assert s == s[..p] + s[p..];
    }
  }

  lemma ReplacedResult<K(!new)>(cmp: (K, K) -> int, fs: seq<Frame<K>>, t: Tree<K>, i: nat, key: K, fDupe: bool, p: nat)
    requires AllFormed(fs) && t.Node? && i < |t.keys| && TotalPreorder(cmp)
    requires Sorted(cmp, InOrder(PlugAll(fs, t)))
    requires p < |InOrder(PlugAll(fs, t))| && InOrder(PlugAll(fs, t))[p] == t.keys[i] && cmp(t.keys[i], key) == 0
    ensures var s := InOrder(PlugAll(fs, t));
            InsertResult(cmp, s, s[p := key], key, fDupe, true, IF_REPLACE, p) && Sorted(cmp, s[p := key])
  {
    SortedReplace(cmp, InOrder(PlugAll(fs, t)), p, key);
  }

  lemma RefusedResult<K(!new)>(cmp: (K, K) -> int, fs: seq<Frame<K>>, t: Tree<K>, i: nat, key: K)
    requires AllFormed(fs) && t.Node? && |t.kids| == |t.keys| + 1 && i < |t.keys| && cmp(t.keys[i], key) == 0
    ensures var s := InOrder(PlugAll(fs, t)); InsertResult(cmp, s, s, key, false, false, 0, 0) && s != []
  {
    var p := KeyReplaced(fs, t, i, key);
  }

  lemma InsertedResult<K(!new)>(cmp: (K, K) -> int, fs: seq<Frame<K>>, t: Tree<K>, i: nat, key: K,
                                fDupe: bool, fReplace: bool, rc: int, p: nat)
    requires TotalPreorder(cmp) && Sorted(cmp, InOrder(PlugAll(fs, t)))
    requires Spot(cmp, fs, t, i, key, !fDupe || fReplace, false) && rc != 0
    requires var s := InOrder(PlugAll(fs, t));
             && p <= |s| && s[..p] == Before(fs) + Left(t.keys, t.kids, i) && s[p..] == Right(t.keys, t.kids, i) + After(fs)
    ensures var s := InOrder(PlugAll(fs, t));
            InsertResult(cmp, s, InsAt(s, p, key), key, fDupe, fReplace, rc, p) && Sorted(cmp, InsAt(s, p, key))
  {
    var s := InOrder(PlugAll(fs, t));
    assert s == s[..p] + s[p..];
    SortedInsert(cmp, s[..p], s[p..], key);
  }

  lemma ChainReplaced<K>(parents: seq<nat>, inner: seq<Frame<K>>, f: Frame<K>, fs: seq<Frame<K>>, f': Frame<K>)
    requires ChainOf(parents, inner + [f] + fs) && f'.nn == f.nn
    ensures ChainOf(parents, inner + [f'] + fs)
  {
    var a, b := inner + [f] + fs, inner + [f'] + fs;
    assert forall i :: 0 <= i < |a| ==> b[i].nn == a[i].nn;
  }

  /** With the successor's key in the place of key idx, the successor is to go. */
  lemma SuccessorTarget<K>(m: nat, parents: seq<nat>, fs: seq<Frame<K>>, t: Tree<K>, idx: nat,
                           inner: seq<Frame<K>>, u: Tree<K>, h: nat, nn: nat)
    returns (t': Tree<K>, down: seq<Frame<K>>)
    requires AllFormed(fs) && t.Node? && |t.kids| == |t.keys| + 1 && idx < |t.keys| && t.nn != 0
    requires Path(m, PlugAll(fs, t), nn, parents, inner + [Under(t, idx + 1)] + fs, u, h)
    requires Leftmost(inner, u, t.kids[idx + 1]) && u.kids[0].Nil? && u.keys != []
    ensures t' == t.(keys := t.keys[idx := u.keys[0]]) && u.nn == nn != 0
    ensures Target(m, parents, down, u, 0, h) && u.kids[1].Nil? && PlugAll(down, u) == PlugAll(fs, t')
    ensures Rest(down, u, 0) == Rest(fs, t, idx)
  {
    t', down := SuccessorPlaced(m, fs, t, idx, inner, u, h, u.keys[0]);
    SuccessorRest(fs, t, idx, inner, u, t');
    ChainReplaced(parents, inner, Under(t, idx + 1), fs, Under(t', idx + 1));
  }

  lemma PathKeys<K>(m: nat, fs: seq<Frame<K>>, t: Tree<K>, h: nat)
    requires m >= MIN_ORDER && Placed(m, fs, t, h) && fs != []
    ensures t.Node? && t.keys != []
  {
    PlacedParts(m, fs, t, h);
  }

  /** A cursor's list of parents is a chain of parents. */
  lemma CursorPath<K>(m: nat, whole: Tree<K>, top: nat, ppn: seq<PNode>, fs: seq<Frame<K>>, t: Tree<K>) returns (h: nat)
    requires m >= MIN_ORDER && AllFormed(fs) && Rooted(m, whole, top) && PlugAll(fs, t) == whole && t.Node?
    requires StackOf(ppn, fs)
    ensures Path(m, whole, t.nn, Numbers(ppn), fs, t, h)
  {
    h := PlacedInWhole(m, fs, t, top);
  }

  /** Key idx of the focus t, with its chain of parents, can be removed. */
  ghost predicate Target<K>(m: nat, parents: seq<nat>, fs: seq<Frame<K>>, t: Tree<K>, idx: nat, h: nat) {
    && AllFormed(fs) && ChainOf(parents, fs)
    && t.Node? && |t.kids| == |t.keys| + 1 && idx < |t.keys|
    && (Placed(m, fs, t, h) || Gap(m, fs, t, idx, h))
  }

  lemma TargetUp<K>(m: nat, parents: seq<nat>, fs: seq<Frame<K>>, q: Tree<K>, s: nat, h: nat)
    requires fs != [] && ChainOf(parents, fs) && AllFormed(fs[1..]) && Gap(m, fs[1..], q, s, h)
    ensures Target(m, parents[1..], fs[1..], q, s, h) && parents[0] == fs[0].nn
  {
    assert Look(0);
    ChainUp(parents, fs);
  }

  class BTree<K(!new)> {
    const file: BlkIoBuf<DiskNode<K>>
    const uiOrder: nat
    const zeroKey: K
    const kfIns: (K, K) -> int   // order of insertion, which may tell duplicates apart
    const kfSrch: (K, K) -> int  // order of searching

    var fOpen: bool
    var nnHead: nat              // block of the root, 0 if the tree is empty
    var nnFree: nat              // first block of the free list, 0 if there is none
    var nnHighNode: nat          // next block to use at the end of the file
    var cKeys: nat               // number of keys in the tree
    var bteLastError: BtError
    var header: Header           // the header record in the file, which the cache does not hold

    ghost var tree: Tree<K>      // what the blocks below nnHead show
    ghost var height: nat
    ghost var free: seq<nat>     // the free list

    /** The file as a sequence of blocks; block 0 is the file header's. */
    ghost function D(): seq<DiskNode<K>>
      reads file
    {
      file.contents
    }

    /** What holds between any two block operations: the file is in order, and
        its blocks are accounted for by the live trees a and b, the live block x
        and the free list. */
    ghost predicate Mid(a: Tree<K>, b: Tree<K>, x: nat)
      reads `nnFree, `nnHighNode, `free, file
    {
      && MIN_ORDER <= uiOrder < 0x1_0000
      && file.Valid() && file.Dense()
      && nnHighNode == |D()| >= 1
      && Books(D(), a, b, x, nnFree, free)
    }

    /** The keys of the tree, in order. */
    ghost function Keys(): seq<K>
      reads `tree
    {
      InOrder(tree)
    }

    /** The blocks show the tree t below nnHead. */
    ghost predicate Shown(t: Tree<K>)
      reads `nnHead, `nnFree, `nnHighNode, `free, file
    {
      Mid(t, Nil, 0) && Kept(uiOrder, D(), t) && nnHead == Num(t)
    }

    /** If the tree is empty, a block on the free list is ready to be its root. */
    ghost predicate RootReady()
      reads `nnHead, `free, file
    {
      nnHead == 0 && free != [] ==>
        && free[0] < |D()| && D()[free[0]].usKeys == 0
        && Holds(uiOrder, D()[free[0]].child, D()[free[0]].key, [], [Nil])
    }

    ghost predicate Valid()
      reads `nnHead, `nnFree, `nnHighNode, `free, `tree, `height, `cKeys, file
    {
      && Shown(tree) && RootReady()
      && Rooted(uiOrder, tree, height)
      && cKeys == |Keys()|
      && TotalPreorder(kfIns) && Sorted(kfIns, Keys())
      && TotalPreorder(kfSrch) && Coarser(kfIns, kfSrch)
    }

    /** The file, once closed, holds the tree: the header record and the blocks
        tell all there is to know about it. */
    ghost predicate Closed()
      reads this, file
    {
      && Valid() && !fOpen && file.disk == D()
      && header == Header(nnFree, nnHead, uiOrder, cKeys)
    }

    /** Create a new file, unless the order is below 4.  The order is stored in 16
        bits, which is where one that is too large is lost. */
    constructor (uiOrd: nat, zeroKey: K, kfIns: (K, K) -> int, kfSrch: (K, K) -> int, fBuffer: bool)
      requires TotalPreorder(kfIns) && TotalPreorder(kfSrch) && Coarser(kfIns, kfSrch)
      ensures fresh(file) && this.uiOrder == uiOrd % 0x1_0000 && this.zeroKey == zeroKey
      ensures this.kfIns == kfIns && this.kfSrch == kfSrch
      ensures (fOpen <==> uiOrd >= 4) && Keys() == [] && (Valid() <==> uiOrd % 65536 >= 4)
      ensures header == Header(0, 0, uiOrd % 65536, 0) && nnHead == 0 && nnFree == 0 && free == [] && nnHighNode == 1
      ensures D() == [Store(Blank(uiOrder, 0, zeroKey))] && file.fOpen == fBuffer && file.uiMaxBlocks == 512
    {
      var order := uiOrd % 0x1_0000;
      this.uiOrder, this.zeroKey := order, zeroKey;
      this.kfIns, this.kfSrch := kfIns, kfSrch;
      fOpen, bteLastError := uiOrd >= MIN_ORDER, NoError;
      header := Header(0, 0, order, 0);
      nnHead, nnFree, cKeys := 0, 0, 0;
      tree, height, free := Nil, 0, [];
      var zero := Store(Blank(order, 0, zeroKey));
      var f := new BlkIoBuf([zero], zero, 512);
      f.EnableBuffer(fBuffer);
      var high := f.HighNode();
      file, nnHighNode := f, high;
    }

    /** Open a file that was closed: everything but the comparison functions comes
        from the file, and the next block to use from its length. */
    constructor Reopen(from: BTree<K>, fBuffer: bool)
      requires from.Closed()
      ensures fresh(file) && uiOrder == from.uiOrder && zeroKey == from.zeroKey
      ensures kfIns == from.kfIns && kfSrch == from.kfSrch
      ensures Valid() && fOpen
      ensures tree == from.tree && height == from.height && free == from.free && D() == from.D()
      ensures nnHead == from.nnHead && nnFree == from.nnFree && cKeys == from.cKeys && nnHighNode == from.nnHighNode
      ensures header == from.header && file.fOpen == fBuffer && file.uiMaxBlocks == 512
    {
      var dfh := from.header;
      this.uiOrder, this.zeroKey := dfh.usOrder, from.zeroKey;
      this.kfIns, this.kfSrch := from.kfIns, from.kfSrch;
      fOpen, bteLastError, header := true, NoError, dfh;
      nnHead, nnFree, cKeys := dfh.nnHead, dfh.nnFree, dfh.cKeys;
      tree, height, free := from.tree, from.height, from.free;
      var f := new BlkIoBuf(from.file.disk, from.file.zero, 512);
      f.EnableBuffer(fBuffer);
      var high := f.HighNode();
      file, nnHighNode := f, high;
    }

    /** Write the header record, and flush and drop the cache. */
    method Close() returns (ok: bool)
      requires Valid()
      modifies this`fOpen, this`header, file
      ensures ok == old(fOpen) && Valid() && !fOpen && D() == old(D())
      ensures if ok then Closed() && !file.fOpen else header == old(header)
    {
      ok := fOpen;
      if fOpen {
        header := Header(nnFree, nnHead, uiOrder, cKeys);
        file.EnableBuffer(false);
        fOpen := false;
      }
    }

    // ------------------------------------------------------------ blocks

    /** Read node nn into memory. */
    method GetNode(nn: nat, ghost a: Tree<K>, ghost b: Tree<K>, ghost x: nat) returns (n: BtNode<K>)
      requires Mid(a, b, x) && 0 < nn < nnHighNode
      modifies file
      ensures Mid(a, b, x) && D() == old(D())
      ensures n == Load(nn, D()[nn])
    {
      var blk := file.Get(nn);
      n := Load(nn, blk.value);
    }

    /** Write a node in use back to its block. */
    method PutNode(n: BtNode<K>, ghost a: Tree<K>, ghost b: Tree<K>, ghost x: nat)
      requires Mid(a, b, x) && Live(a, b, x, n.nn) && n.nn < nnHighNode
      modifies file
      ensures Mid(a, b, x)
      ensures D() == old(D())[n.nn := Store(n)]
    {
      file.Put(n.nn, Store(n));
      BooksPut(old(D()), D(), a, b, x, nnFree, free, n.nn);
    }

    /** Take a block for a new node: the head of the free list, or else a blank
        block at the end of the file.  A block from the free list keeps what it
        held; only its mark changes. */
    method NewNode(ghost a: Tree<K>, ghost b: Tree<K>) returns (nn: nat)
      requires Mid(a, b, 0)
      modifies this`nnFree, this`nnHighNode, this`free, file
      ensures Mid(a, b, nn)
      ensures !Live(a, b, 0, nn) && 0 < nn < nnHighNode
      ensures |D()| >= |old(D())| && forall n :: 0 <= n < |old(D())| && n != nn ==> D()[n] == old(D())[n]
      ensures old(free) == [] ==> D()[nn] == Store(Blank(uiOrder, nn, zeroKey))
      ensures old(free) != [] ==> nn == old(free)[0] < |old(D())| && D()[nn] == old(D())[nn].(fFree := false)
    {
      if nnFree == 0 {
        nn := AppendBlank(a, b);
      } else {
        TakeFree(D(), a, b, nnFree, free);
        var bn := GetNode(nnFree, a, b, 0);
        nnFree, nn := bn.nnNextFree, bn.nn;
        free := free[1..];
        bn := bn.(fFree := false);
        PutNode(bn, a, b, nn);
      }
    }

    method AppendBlank(ghost a: Tree<K>, ghost b: Tree<K>) returns (nn: nat)
      requires Mid(a, b, 0) && nnFree == 0
      modifies this`nnHighNode, file
      ensures Mid(a, b, nn) && free == []
      ensures nn == old(nnHighNode) && nnHighNode == nn + 1 && !Live(a, b, 0, nn)
      ensures D() == old(D()) + [Store(Blank(uiOrder, nn, zeroKey))]
    {
      nn := nnHighNode;
      nnHighNode := nnHighNode + 1;
      file.Put(nn, Store(Blank(uiOrder, nn, zeroKey)));
      NoneFree(old(D()), a, b, 0, free);
      TakeFresh(old(D()), D(), a, b, free, nnFree);
    }

    /** Write the focused node, changed in memory, back to its block. */
    method Rewrite(node: BtNode<K>, ghost fs: seq<Frame<K>>, ghost t: Tree<K>, ghost t': Tree<K>, ghost b: Tree<K>)
      requires AllFormed(fs) && Mid(PlugAll(fs, t'), b, 0) && Kept(uiOrder, D(), PlugAll(fs, t))
      requires Num(t) == node.nn != 0 && Shows(uiOrder, node, t') && KeptAll(uiOrder, D(), t'.kids)
      modifies file
      ensures Mid(PlugAll(fs, t'), b, 0) && Kept(uiOrder, D(), PlugAll(fs, t'))
      ensures Num(PlugAll(fs, t')) == Num(PlugAll(fs, t))
      ensures old(Kept(uiOrder, D(), b)) ==> Kept(uiOrder, D(), b)
      ensures b.Node? && old(KeptAll(uiOrder, D(), b.kids)) ==> KeptAll(uiOrder, D(), b.kids)
    {
      FocusLive(fs, t', b, 0);
      LiveBlock(D(), PlugAll(fs, t'), b, 0, nnFree, free, node.nn);
      PutNode(node, PlugAll(fs, t'), b, 0);
      WriteFocus(uiOrder, old(D()), D(), fs, t, node, t', b, 0, nnFree, free);
    }

    // ------------------------------------------------------------ insertion

    /** Move the right part of an overfull node's arrays into a blank node. */
    method Halve(node0: BtNode<K>, blank: BtNode<K>, ghost keys: seq<K>, ghost kids: seq<Tree<K>>)
      returns (node: BtNode<K>, bn: BtNode<K>)
      requires uiOrder >= MIN_ORDER && !node0.fFree
      requires |keys| == uiOrder && node0.uiKeys == uiOrder - 1 && Holds(uiOrder, node0.child, node0.key, keys, kids)
      requires blank == Blank(uiOrder, blank.nn, zeroKey)
      ensures Shows(uiOrder, node, LeftHalf(node0.nn, keys, kids, (uiOrder - 1) / 2))
      ensures Shows(uiOrder, bn, RightHalf(blank.nn, keys, kids, (uiOrder - 1) / 2))
    {
      node, bn := node0, blank;
      var mid := (uiOrder - 1) / 2;
      MoveRight(uiOrder, node.child, node.key, keys, kids, mid, bn.child, bn.key);
      bn := bn.(key := Memmove(bn.key, 0, node.key, mid + 1, uiOrder - mid - 1),
                child := Memmove(bn.child, 0, node.child, mid + 1, uiOrder - mid));
      ClearRight(uiOrder, node.child, node.key, keys, kids, mid, zeroKey);
      node := node.(key := Memset(node.key, mid, uiOrder - mid, zeroKey),
                    child := Memset(node.child, mid + 1, uiOrder - mid, 0));
      node := node.(uiKeys := node.uiKeys - (uiOrder - mid - 1));
      bn := bn.(uiKeys := uiOrder - mid - 1);
    }

    /** Make room for a key and its right child in a node's arrays. */
    method OpenRoom(node0: BtNode<K>, pos: nat, key: K, nnChild: nat, ghost t: Tree<K>, ghost r: Tree<K>)
      returns (node: BtNode<K>)
      requires Shows(uiOrder, node0, t) && pos <= |t.keys| && nnChild == Num(r)
      ensures node.nn == node0.nn && node.uiKeys == node0.uiKeys && !node.fFree
      ensures Holds(uiOrder, node.child, node.key, InsAt(t.keys, pos, key), InsAt(t.kids, pos + 1, r))
    {
      node := node0;
      OpenSlot(uiOrder, node.child, node.key, t.keys, t.kids, pos, key, r);
      node := node.(child := Memmove(node.child, pos + 1, node.child, pos, uiOrder - pos));
      if uiOrder - pos - 1 != 0 {
        node := node.(key := Memmove(node.key, pos + 1, node.key, pos, uiOrder - pos - 1));
      }
      node := node.(child := node.child[pos + 1 := nnChild], key := node.key[pos := key]);
    }

    /** Insert a key, with a new subtree to its right, into the node at the focus:
        in place if it has room, or else by splitting it and inserting the middle
        key into its parent, up to a new root. */
    method InsertAt(node0: BtNode<K>, parents: seq<nat>, pos: nat, key: K, nnChild: nat,
                    ghost fs: seq<Frame<K>>, ghost t: Tree<K>, ghost r: Tree<K>, ghost h: nat)
      returns (ghost whole: Tree<K>, ghost top: nat)
      requires AllFormed(fs) && Room(uiOrder, fs, t, r, h)
      requires t.Node? && |t.kids| == |t.keys| + 1 && pos <= |t.keys| && nnChild == Num(r)
      requires Mid(PlugAll(fs, t), r, 0) && Shows(uiOrder, node0, t)
      requires Kept(uiOrder, D(), PlugAll(fs, t)) && Kept(uiOrder, D(), r)
      requires nnHead == Num(PlugAll(fs, t))
      requires ChainOf(parents, fs) || (parents == [] && fs == [] && |t.keys| + 1 < uiOrder)
      modifies this`nnHead, this`nnFree, this`nnHighNode, this`free, file
      ensures Shown(whole) && Rooted(uiOrder, whole, top)
      ensures InOrder(whole) == Before(fs) + InOrder(Inserted(t.nn, t.keys, t.kids, pos, key, r)) + After(fs)
      decreases |fs|, |t.keys|, 3
    {
      var node := OpenRoom(node0, pos, key, nnChild, t, r);
      InsertedBooks(D(), fs, t, pos, key, r, nnFree, free);
      InsertedKept(uiOrder, D(), fs, t, pos, key, r);
      if node.uiKeys + 1 < uiOrder {
        whole, top := InsertFits(node, pos, key, fs, t, r, h);
      } else {
        whole, top := InsertSplit(node, parents, pos, key, fs, t, r, h);
      }
    }

    /** Write the node at the focus, which has room for one more key. */
    method InsertFits(node: BtNode<K>, pos: nat, ghost key: K, ghost fs: seq<Frame<K>>, ghost t: Tree<K>, ghost r: Tree<K>, ghost h: nat)
      returns (ghost whole: Tree<K>, ghost top: nat)
      requires AllFormed(fs) && Room(uiOrder, fs, t, r, h)
      requires t.Node? && |t.kids| == |t.keys| + 1 && pos <= |t.keys| < uiOrder - 1
      requires node.nn == t.nn && node.uiKeys == |t.keys| && !node.fFree
      requires Holds(uiOrder, node.child, node.key, InsAt(t.keys, pos, key), InsAt(t.kids, pos + 1, r))
      requires Mid(PlugAll(fs, Inserted(t.nn, t.keys, t.kids, pos, key, r)), Nil, 0)
      requires Kept(uiOrder, D(), PlugAll(fs, t))
      requires KeptAll(uiOrder, D(), Inserted(t.nn, t.keys, t.kids, pos, key, r).kids)
      requires nnHead == Num(PlugAll(fs, t))
      modifies file
      ensures Shown(whole) && Rooted(uiOrder, whole, top)
      ensures InOrder(whole) == Before(fs) + InOrder(Inserted(t.nn, t.keys, t.kids, pos, key, r)) + After(fs)
    {
      ghost var t' := Inserted(t.nn, t.keys, t.kids, pos, key, r);
      InsertedWhole(uiOrder, fs, t, pos, key, r, h);
      var wider := node.(uiKeys := node.uiKeys + 1);
      assert Shows(uiOrder, wider, t');
      Rewrite(wider, fs, t, t', Nil);
      whole, top := PlugAll(fs, t'), h + |fs|;
    }

    /** Split the wide node at the focus and carry the key in the middle upward. */
    method InsertSplit(node: BtNode<K>, parents: seq<nat>, pos: nat, key: K,
                       ghost fs: seq<Frame<K>>, ghost t: Tree<K>, ghost r: Tree<K>, ghost h: nat)
      returns (ghost whole: Tree<K>, ghost top: nat)
      requires AllFormed(fs) && Room(uiOrder, fs, t, r, h) && ChainOf(parents, fs)
      requires t.Node? && |t.kids| == |t.keys| + 1 && pos <= |t.keys| == uiOrder - 1
      requires node.nn == t.nn && node.uiKeys == uiOrder - 1 && !node.fFree
      requires Holds(uiOrder, node.child, node.key, InsAt(t.keys, pos, key), InsAt(t.kids, pos + 1, r))
      requires Mid(PlugAll(fs, Inserted(t.nn, t.keys, t.kids, pos, key, r)), Nil, 0)
      requires Kept(uiOrder, D(), PlugAll(fs, t))
      requires KeptAll(uiOrder, D(), Inserted(t.nn, t.keys, t.kids, pos, key, r).kids)
      requires nnHead == Num(PlugAll(fs, t))
      modifies this`nnHead, this`nnFree, this`nnHighNode, this`free, file
      ensures Shown(whole) && Rooted(uiOrder, whole, top)
      ensures InOrder(whole) == Before(fs) + InOrder(Inserted(t.nn, t.keys, t.kids, pos, key, r)) + After(fs)
      decreases |fs|, uiOrder - 1, 2
    {
      ghost var w := Inserted(t.nn, t.keys, t.kids, pos, key, r);
      var sep, nnRight;
      ghost var left, right;
      sep, nnRight, left, right := SplitNode(node, pos, key, fs, t, r, h, w);
      whole, top := InsertUp(node.nn, parents, sep, nnRight, fs, left, right, h);
    }

    /** Split the node whose arrays hold uiOrder keys: the right part moves to a
        new node, the key in the middle is left over. */
    method SplitNode(node0: BtNode<K>, ghost pos: nat, ghost key: K, ghost fs: seq<Frame<K>>,
                     ghost t: Tree<K>, ghost r: Tree<K>, ghost h: nat, ghost w: Tree<K>)
      returns (sep: K, nnRight: nat, ghost left: Tree<K>, ghost right: Tree<K>)
      requires AllFormed(fs) && Room(uiOrder, fs, t, r, h)
      requires t.Node? && |t.kids| == |t.keys| + 1 && pos <= |t.keys| == uiOrder - 1
      requires w == Inserted(t.nn, t.keys, t.kids, pos, key, r)
      requires node0.nn == t.nn && node0.uiKeys == uiOrder - 1 && !node0.fFree
      requires Holds(uiOrder, node0.child, node0.key, w.keys, w.kids)
      requires Mid(PlugAll(fs, w), Nil, 0) && Kept(uiOrder, D(), PlugAll(fs, t)) && KeptAll(uiOrder, D(), w.kids)
      modifies this`nnFree, this`nnHighNode, this`free, file
      ensures Mid(PlugAll(fs, left), right, 0)
      ensures Kept(uiOrder, D(), PlugAll(fs, left)) && Kept(uiOrder, D(), right)
      ensures Halves(uiOrder, fs, left, right, h)
      ensures left.Node? && left.nn == t.nn != 0 && Num(right) == nnRight
      ensures Num(PlugAll(fs, left)) == Num(PlugAll(fs, t))
      ensures InOrder(w) == InOrder(left) + [sep] + InOrder(right)
    {
      ghost var mid := (uiOrder - 1) / 2;
      nnRight := NewRight(pos, key, fs, t, r, w, mid);
      left, right := LeftHalf(w.nn, w.keys, w.kids, mid), RightHalf(nnRight, w.keys, w.kids, mid);
      SplitPlaced(uiOrder, fs, t, pos, key, r, h, w, left, right);
      SplitInOrder(w.nn, nnRight, w.keys, w.kids, mid);
      sep := node0.key[(uiOrder - 1) / 2];
      WriteHalves(node0, nnRight, fs, t, w.keys, w.kids, left, right);
    }

    /** A block for the right half; from here on the books count both halves. */
    method NewRight(ghost pos: nat, ghost key: K, ghost fs: seq<Frame<K>>, ghost t: Tree<K>, ghost r: Tree<K>,
                    ghost w: Tree<K>, ghost mid: nat)
      returns (nnRight: nat)
      requires AllFormed(fs) && t.Node? && |t.kids| == |t.keys| + 1 && pos <= |t.keys| && mid <= |t.keys|
      requires w == Inserted(t.nn, t.keys, t.kids, pos, key, r)
      requires Mid(PlugAll(fs, w), Nil, 0) && Kept(uiOrder, D(), PlugAll(fs, t)) && KeptAll(uiOrder, D(), w.kids)
      modifies this`nnFree, this`nnHighNode, this`free, file
      ensures nnRight != 0
      ensures var left, right := LeftHalf(w.nn, w.keys, w.kids, mid), RightHalf(nnRight, w.keys, w.kids, mid);
              && Mid(PlugAll(fs, left), right, 0)
              && KeptAll(uiOrder, D(), left.kids) && KeptAll(uiOrder, D(), right.kids)
      ensures Kept(uiOrder, D(), PlugAll(fs, t))
    {
      nnRight := NewNode(PlugAll(fs, w), Nil);
      FreshKept(uiOrder, old(D()), D(), fs, t, pos, key, r, nnRight);
      SplitBooks(uiOrder, D(), fs, w, nnRight, mid, nnFree, free);
    }

    method WriteHalves(node0: BtNode<K>, nnRight: nat, ghost fs: seq<Frame<K>>, ghost t: Tree<K>,
                       ghost keys: seq<K>, ghost kids: seq<Tree<K>>, ghost left: Tree<K>, ghost right: Tree<K>)
      requires AllFormed(fs) && Num(t) == node0.nn != 0 && nnRight != 0 && !node0.fFree
      requires |keys| == uiOrder && node0.uiKeys == uiOrder - 1 && Holds(uiOrder, node0.child, node0.key, keys, kids)
      requires uiOrder >= MIN_ORDER && left == LeftHalf(node0.nn, keys, kids, (uiOrder - 1) / 2)
      requires right == RightHalf(nnRight, keys, kids, (uiOrder - 1) / 2)
      requires Mid(PlugAll(fs, left), right, 0) && Kept(uiOrder, D(), PlugAll(fs, t))
      requires KeptAll(uiOrder, D(), left.kids) && KeptAll(uiOrder, D(), right.kids)
      modifies file
      ensures Mid(PlugAll(fs, left), right, 0)
      ensures Kept(uiOrder, D(), PlugAll(fs, left)) && Kept(uiOrder, D(), right)
      ensures Num(PlugAll(fs, left)) == Num(PlugAll(fs, t))
    {
      var node, bn := Halve(node0, Blank(uiOrder, nnRight, zeroKey), keys, kids);
      Rewrite(node, fs, t, left, right);
      WriteApart(bn, PlugAll(fs, left), right);
    }

    /** Write the root of a tree that is not part of the main one yet. */
    method WriteApart(bn: BtNode<K>, ghost a: Tree<K>, ghost b: Tree<K>)
      requires Mid(a, b, 0) && Kept(uiOrder, D(), a)
      requires bn.nn != 0 && Shows(uiOrder, bn, b) && KeptAll(uiOrder, D(), b.kids)
      modifies file
      ensures Mid(a, b, 0) && Kept(uiOrder, D(), a) && Kept(uiOrder, D(), b)
    {
      LiveBlock(D(), a, b, 0, nnFree, free, bn.nn);
      PutNode(bn, a, b, 0);
      WriteOther(uiOrder, old(D()), D(), a, bn, b, 0, nnFree, free);
    }

    /** Insert the separator of a split into the parent, or into a new root. */
    method InsertUp(nnLeft: nat, parents: seq<nat>, sep: K, nnRight: nat,
                    ghost fs: seq<Frame<K>>, ghost left: Tree<K>, ghost right: Tree<K>, ghost h: nat)
      returns (ghost whole: Tree<K>, ghost top: nat)
      requires AllFormed(fs) && Halves(uiOrder, fs, left, right, h)
      requires left.Node? && left.nn == nnLeft != 0 && nnRight == Num(right)
      requires Mid(PlugAll(fs, left), right, 0)
      requires Kept(uiOrder, D(), PlugAll(fs, left)) && Kept(uiOrder, D(), right)
      requires nnHead == Num(PlugAll(fs, left)) && ChainOf(parents, fs)
      modifies this`nnHead, this`nnFree, this`nnHighNode, this`free, file
      ensures Shown(whole) && Rooted(uiOrder, whole, top)
      ensures InOrder(whole) == Before(fs) + (InOrder(left) + [sep] + InOrder(right)) + After(fs)
      decreases |fs|, uiOrder - 1, 1
    {
      if parents[0] == 0 {
        whole, top := InsertAboveRoot(nnLeft, sep, nnRight, left, right, h);
      } else {
        whole, top := InsertInParent(nnLeft, parents, sep, nnRight, fs, left, right, h);
      }
    }

    /** Read the parent of a split node and insert the separator there. */
    method InsertInParent(nnLeft: nat, parents: seq<nat>, sep: K, nnRight: nat,
                          ghost fs: seq<Frame<K>>, ghost left: Tree<K>, ghost right: Tree<K>, ghost h: nat)
      returns (ghost whole: Tree<K>, ghost top: nat)
      requires fs != [] && AllFormed(fs) && Halves(uiOrder, fs, left, right, h)
      requires left.Node? && left.nn == nnLeft != 0 && nnRight == Num(right)
      requires Mid(PlugAll(fs, left), right, 0)
      requires Kept(uiOrder, D(), PlugAll(fs, left)) && Kept(uiOrder, D(), right)
      requires nnHead == Num(PlugAll(fs, left)) && ChainOf(parents, fs)
      modifies this`nnHead, this`nnFree, this`nnHighNode, this`free, file
      ensures Shown(whole) && Rooted(uiOrder, whole, top)
      ensures InOrder(whole) == Before(fs) + (InOrder(left) + [sep] + InOrder(right)) + After(fs)
      decreases |fs|, 0, 0
    {
      ghost var p := Plug(fs[0], left);
      HalvesUp(uiOrder, fs, left, right, h);
      ChainUp(parents, fs);
      SplitUp(fs, InOrder(left) + [sep] + InOrder(right), left, sep, right);
      FocusShown(uiOrder, D(), fs[1..], p);
      FocusApart(D(), fs[1..], p, right, 0, nnFree, free, nnLeft);
      var bnParent := GetNode(parents[0], PlugAll(fs, left), right, 0);
      var i := ChildIndex(bnParent, nnLeft, bnParent.uiKeys, fs[0], left);
      whole, top := InsertAt(bnParent, parents[1..], i, sep, nnRight, fs[1..], p, right, h + 1);
    }

    /** The position of child nn in a node in memory; no position from last on is
        looked at. */
    method ChildIndex(n: BtNode<K>, nn: nat, last: nat, ghost f: Frame<K>, ghost t: Tree<K>) returns (i: nat)
      requires WellFormed(f) && Shows(uiOrder, n, Plug(f, t)) && Num(t) == nn != 0
      requires n.uiKeys <= last <= n.uiKeys + 1 && CntAll(Plug(f, t).kids, nn) <= 1
      ensures i == f.idx
    {
      ghost var kids := Plug(f, t).kids;
      i := 0;
      while i < last && n.child[i] != nn
        invariant i <= f.idx
      {
        i := i + 1;
      }
      if i < f.idx {
        ChildOnce(kids, i, f.idx);
      }
    }

    /** The root was split: make a new root and insert the separator there. */
    method InsertAboveRoot(nnLeft: nat, sep: K, nnRight: nat, ghost left: Tree<K>, ghost right: Tree<K>, ghost h: nat)
      returns (ghost whole: Tree<K>, ghost top: nat)
      requires Halves(uiOrder, [], left, right, h)
      requires left.Node? && left.nn == nnLeft != 0 && nnRight == Num(right)
      requires Mid(left, right, 0) && Kept(uiOrder, D(), left) && Kept(uiOrder, D(), right)
      modifies this`nnHead, this`nnFree, this`nnHighNode, this`free, file
      ensures Shown(whole) && Rooted(uiOrder, whole, top)
      ensures InOrder(whole) == Before<K>([]) + (InOrder(left) + [sep] + InOrder(right)) + After<K>([])
      decreases 0, 1, 0
    {
      var nnRoot;
      ghost var root;
      nnRoot, root := GrowRoot(nnLeft, left, right);
      HalvesTop(uiOrder, nnRoot, left, right, h);
      SplitTop(nnRoot, left, sep, right);
      FocusShown(uiOrder, D(), [], root);
      FocusApart(D(), [], root, right, 0, nnFree, free, nnLeft);
      var bnRoot := GetNode(nnRoot, root, right, 0);
      ghost var f := Frame(nnRoot, [], [left], 0);
      assert Plug(f, left) == root;
      var i := ChildIndex(bnRoot, nnLeft, bnRoot.uiKeys, f, left);
      whole, top := InsertAt(bnRoot, [], i, sep, nnRight, [], root, right, h + 1);
    }

    /** Put a new root above the left half of a split root. */
    method GrowRoot(nnLeft: nat, ghost left: Tree<K>, ghost right: Tree<K>) returns (nnRoot: nat, ghost root: Tree<K>)
      requires left.Node? && left.nn == nnLeft
      requires Mid(left, right, 0) && Kept(uiOrder, D(), left) && Kept(uiOrder, D(), right)
      modifies this`nnHead, this`nnFree, this`nnHighNode, this`free, file
      ensures root == Node(nnRoot, [], [left]) && nnRoot != 0 && nnHead == nnRoot
      ensures Mid(root, right, 0) && Kept(uiOrder, D(), root) && Kept(uiOrder, D(), right)
    {
      nnRoot := NewNode(left, right);
      KeptElse(uiOrder, old(D()), D(), left, nnRoot);
      KeptElse(uiOrder, old(D()), D(), right, nnRoot);
      ghost var d := D();
      var bnRoot := Blank(uiOrder, nnRoot, zeroKey);
      nnHead := bnRoot.nn;
      bnRoot := bnRoot.(child := bnRoot.child[0 := nnLeft]);
      PutNode(bnRoot, left, right, nnRoot);
      root := Node(nnRoot, [], [left]);
      WriteAbove(uiOrder, d, D(), bnRoot, left, right, nnFree, free);
    }

    /** Scan a node for the place of a key.  `eq` tells that key i is equal. */
    method ScanInsert(n: BtNode<K>, key: K, rc0: int, ghost t: Tree<K>) returns (i: nat, rc: int, eq: bool)
      requires Shows(uiOrder, n, t)
      ensures i <= |t.keys| && (eq ==> i < |t.keys|)
      ensures i > 0 ==> kfIns(t.keys[i - 1], key) < 0
      ensures i < |t.keys| ==> if eq then kfIns(t.keys[i], key) == 0 else kfIns(t.keys[i], key) > 0
      ensures !eq && rc0 != 0 ==> rc != 0
    {
      i, rc, eq := 0, rc0, false;
      while i < n.uiKeys
        invariant i <= |t.keys|
        invariant i > 0 ==> kfIns(t.keys[i - 1], key) < 0
        invariant rc0 != 0 ==> rc != 0
      {
        rc := kfIns(n.key[i], key);
        if rc > 0 {
          return;
        } else if rc == 0 {
          eq := true;
          return;
        }
        i := i + 1;
      }
    }

    /** Start an empty tree: a root without keys, on the block that is ready for it. */
    method MakeRoot()
      requires Shown(tree) && RootReady() && nnHead == 0 && tree == Nil
      modifies this`nnHead, this`nnFree, this`nnHighNode, this`free, this`tree, this`height, file
      ensures Shown(tree) && nnHead != 0 && Keys() == []
      ensures height == 1 && Path(uiOrder, tree, nnHead, [0], [], tree, 1)
    {
      var nn := NewNode(tree, Nil);
      nnHead := nn;
      height := 1;
      tree := Node(nn, [], [Nil]);
      EmptyRoot(uiOrder, D(), nn, nnFree, free);
    }

    /** Descend to where a key goes: the first equal key met, unless it may have
        duplicates, or else the terminal position between the smaller keys and the
        others. */
    method FindSpot(key: K, fDupe: bool, fReplace: bool)
      returns (n: BtNode<K>, parents: seq<nat>, i: nat, rc: int, hit: bool,
               ghost fs: seq<Frame<K>>, ghost t: Tree<K>, ghost h: nat, ghost nodes: nat)
      requires Shown(tree) && TotalPreorder(kfIns) && Sorted(kfIns, InOrder(tree))
      requires Path(uiOrder, tree, nnHead, [0], [], tree, height)
      modifies file
      ensures Shown(tree) && D() == old(D())
      ensures Path(uiOrder, tree, n.nn, parents, fs, t, h) && Shows(uiOrder, n, t)
      ensures Spot(kfIns, fs, t, i, key, !fDupe || fReplace, hit)
      ensures if hit then fReplace || !fDupe else rc != 0
      ensures nodes == |fs| + 1
    {
      var nn := nnHead;
      ghost var strict := !fDupe || fReplace;
      parents, rc, hit, i, n := [0], IF_NORM, false, 0, Blank(uiOrder, 0, zeroKey);
      fs, t, h, nodes := [], tree, height, 0;
      while nn != 0
        invariant Shown(tree) && D() == old(D())
        invariant Path(uiOrder, tree, nn, parents, fs, t, h)
        invariant Between(kfIns, fs, key, strict)
        invariant rc != 0 && !hit && nodes == |fs|
        decreases h
      {
        var eq;
        n, i, rc, eq := VisitNode(nn, key, rc, parents, fs, t, h);
        nodes := nodes + 1;
        if eq {
          if fReplace || !fDupe {
            hit := true;
            return;
          }
          rc := IF_DUPE;
        }
        SpotHere(uiOrder, kfIns, tree, parents, fs, t, h, i, key, strict);
        if n.child[i] == 0 {
          return;
        }
        ghost var down := StepDown(uiOrder, kfIns, tree, parents, fs, t, h, i, key, strict);
        parents := [nn] + parents;
        nn := n.child[i];
        fs, t, h := down, t.kids[i], h - 1;
      }
    }

    method VisitNode(nn: nat, key: K, rc0: int, ghost parents: seq<nat>, ghost fs: seq<Frame<K>>, ghost t: Tree<K>, ghost h: nat)
      returns (n: BtNode<K>, i: nat, rc: int, eq: bool)
      requires Shown(tree) && Path(uiOrder, tree, nn, parents, fs, t, h)
      modifies file
      ensures Shown(tree) && D() == old(D())
      ensures n.nn == nn && Shows(uiOrder, n, t)
      ensures i <= |t.keys| && Fitting(kfIns, t, i, key, !eq)
      ensures eq ==> i < |t.keys| && kfIns(t.keys[i], key) == 0
      ensures !eq && rc0 != 0 ==> rc != 0
    {
      FocusShown(uiOrder, D(), fs, t);
      n := GetNode(nn, tree, Nil, 0);
      i, rc, eq := ScanInsert(n, key, rc0, t);
    }

    /** Overwrite key i of the focused node. */
    method ReplaceHere(n: BtNode<K>, i: nat, key: K, ghost parents: seq<nat>,
                       ghost fs: seq<Frame<K>>, ghost t: Tree<K>, ghost h: nat)
      returns (ghost p: nat, ghost whole: Tree<K>, ghost top: nat)
      requires Shown(tree) && Path(uiOrder, tree, n.nn, parents, fs, t, h) && Shows(uiOrder, n, t) && i < |t.keys|
      modifies file
      ensures Shown(whole) && Rooted(uiOrder, whole, top) && nnHead != 0
      ensures p < |Keys()| && Keys()[p] == t.keys[i] && InOrder(whole) == Keys()[p := key]
    {
      ghost var t' := t.(keys := t.keys[i := key]);
      p := KeyReplaced(fs, t, i, key);
      ReplacedShape(uiOrder, fs, t, h, i, key);
      FocusShown(uiOrder, D(), fs, t);
      ReplacedBooks(D(), fs, t, t', nnFree, free);
      whole, top := WriteChanged(n.(key := n.key[i := key]), fs, t, t', h);
    }

    /** Insert a key next to a terminal node below the focus. */
    method InsertHere(n: BtNode<K>, parents: seq<nat>, i: nat, key: K,
                      ghost fs: seq<Frame<K>>, ghost t: Tree<K>, ghost h: nat)
      returns (ghost p: nat, ghost whole: Tree<K>, ghost top: nat)
      requires Shown(tree) && Path(uiOrder, tree, n.nn, parents, fs, t, h) && Shows(uiOrder, n, t)
      requires i <= |t.keys| && t.kids[i].Nil?
      modifies this`nnHead, this`nnFree, this`nnHighNode, this`free, file
      ensures Shown(whole) && Rooted(uiOrder, whole, top)
      ensures p <= |Keys()| && InOrder(whole) == InsAt(Keys(), p, key)
      ensures Keys()[..p] == Before(fs) + Left(t.keys, t.kids, i)
      ensures Keys()[p..] == Right(t.keys, t.kids, i) + After(fs)
    {
      p := InsertedLeaf(fs, t, i, key);
      LeafRoom(uiOrder, fs, t, h, i);
      whole, top := InsertAt(n, parents, i, key, 0, fs, t, Nil, h);
    }

    /** Insert a key, as InsertResult says; a key that stands in the way leaves
        the file as it was. */
    method Insert(key: K, fDupe: bool, fReplace: bool) returns (rc: int, ghost p: nat)
      requires Valid()
      modifies this`nnHead, this`nnFree, this`nnHighNode, this`free, this`tree, this`height, this`cKeys,
               this`bteLastError, file
      ensures Valid()
      ensures !fOpen ==> rc == 0 && unchanged(this) && unchanged(file)
      ensures fOpen ==> InsertResult(kfIns, old(Keys()), Keys(), key, fDupe, fReplace, rc, p)
      ensures fOpen && rc == 0 ==> bteLastError == DupeKey && D() == old(D())
    {
      rc, p := 0, 0;
      if fOpen {
        NoRoot(uiOrder, tree, height);
        if nnHead == 0 {
          MakeRoot();
        } else {
          RootPath(uiOrder, tree, height);
        }
        rc, p := InsertInto(key, fDupe, fReplace);
      }
    }

    method InsertInto(key: K, fDupe: bool, fReplace: bool) returns (rc: int, ghost p: nat)
      requires Shown(tree) && TotalPreorder(kfIns) && Sorted(kfIns, Keys()) && cKeys == |Keys()|
      requires TotalPreorder(kfSrch) && Coarser(kfIns, kfSrch)
      requires Path(uiOrder, tree, nnHead, [0], [], tree, height)
      modifies this`nnHead, this`nnFree, this`nnHighNode, this`free, this`tree, this`height, this`cKeys,
               this`bteLastError, file
      ensures Valid()
      ensures InsertResult(kfIns, old(Keys()), Keys(), key, fDupe, fReplace, rc, p)
      ensures rc == 0 ==> bteLastError == DupeKey && D() == old(D())
    {
      var n, parents, i, hit;
      ghost var fs, t, h, nodes;
      n, parents, i, rc, hit, fs, t, h, nodes := FindSpot(key, fDupe, fReplace);
      if !hit {
        p := InsertNew(n, parents, i, key, fDupe, fReplace, rc, fs, t, h);
      } else if fReplace {
        ghost var whole, top;
        p, whole, top := ReplaceHere(n, i, key, parents, fs, t, h);
        rc := IF_REPLACE;
        ReplacedResult(kfIns, fs, t, i, key, fDupe, p);
        Adopt(whole, top);
      } else {
        p := 0;
        bteLastError := DupeKey;
        rc := 0;
        RefusedResult(kfIns, fs, t, i, key);
        RootedAgain(uiOrder, tree, height);
      }
    }

    /** Insert a key where none stands in the way. */
    method InsertNew(n: BtNode<K>, parents: seq<nat>, i: nat, key: K, ghost fDupe: bool, ghost fReplace: bool, ghost rc: int,
                     ghost fs: seq<Frame<K>>, ghost t: Tree<K>, ghost h: nat) returns (ghost p: nat)
      requires Shown(tree) && TotalPreorder(kfIns) && Sorted(kfIns, Keys()) && cKeys == |Keys()|
      requires TotalPreorder(kfSrch) && Coarser(kfIns, kfSrch) && rc != 0
      requires Path(uiOrder, tree, n.nn, parents, fs, t, h) && Shows(uiOrder, n, t)
      requires Spot(kfIns, fs, t, i, key, !fDupe || fReplace, false)
      modifies this`nnHead, this`nnFree, this`nnHighNode, this`free, this`tree, this`height, this`cKeys, file
      ensures Valid()
      ensures InsertResult(kfIns, old(Keys()), Keys(), key, fDupe, fReplace, rc, p)
    {
      ghost var whole, top;
      p, whole, top := InsertHere(n, parents, i, key, fs, t, h);
      cKeys := cKeys + 1;
      InsertedResult(kfIns, fs, t, i, key, fDupe, fReplace, rc, p);
      NoRoot(uiOrder, whole, top);
      Adopt(whole, top);
    }

    /** The blocks show a new tree: from here on it is the tree. */
    ghost method Adopt(whole: Tree<K>, top: nat)
      requires Shown(whole) && RootReady() && Rooted(uiOrder, whole, top)
      requires cKeys == |InOrder(whole)| && Sorted(kfIns, InOrder(whole))
      requires TotalPreorder(kfIns) && TotalPreorder(kfSrch) && Coarser(kfIns, kfSrch)
      modifies this`tree, this`height
      ensures Valid() && tree == whole && height == top
    {
      tree, height := whole, top;
    }

    // ------------------------------------------------------------ removal

    /** Give the subtree below node nn back to the free list, children first. */
    method Destroy(nn: nat, ghost a: Tree<K>, ghost b: Tree<K>)
      requires Mid(a, b, 0) && b.Node? && b.nn == nn && Kept(uiOrder, D(), b)
      modifies this`nnFree, this`free, file
      ensures Mid(a, Nil, 0)
      ensures |D()| == |old(D())| && forall n: nat :: n < |D()| && Cnt(b, n) == 0 ==> D()[n] == old(D())[n]
      ensures free != [] && free[0] == nn < |D()| && D()[nn].usKeys == |b.keys|
      ensures b.keys == [] ==> Holds(uiOrder, D()[nn].child, D()[nn].key, [], [Nil])
      decreases b
    {
      FocusShown(uiOrder, D(), [], b);
      DestroyFirst(D(), a, b, nnFree, free);
      var bn := GetNode(nn, a, b, 0);
      var i := 0;
      while i <= bn.uiKeys
        invariant i <= |b.kids| == bn.uiKeys + 1
        invariant Mid(a, Node(nn, [], b.kids[i..]), 0) && KeptAll(uiOrder, D(), b.kids[i..])
        invariant |D()| == |old(D())| && forall n: nat :: n < |D()| && Cnt(b, n) == 0 ==> D()[n] == old(D())[n]
        invariant bn.nn == nn && bn.uiKeys == |b.keys| < uiOrder && |bn.child| == |bn.key| + 1 == uiOrder + 1
        invariant forall j :: 0 <= j <= uiOrder ==> bn.child[j] == if i <= j < |b.kids| then Num(b.kids[j]) else 0
      {
        KidShown(uiOrder, D(), b.kids[i..], 0);
        DestroyKid(bn.child[i], a, b, i);
        bn := bn.(child := bn.child[i := 0]);
        i := i + 1;
      }
      assert b.kids[i..] == [];
      DestroyedAll(D(), a, nn, nnFree, free);
      FreeNode(bn, a);
    }

    method DestroyKid(nnChild: nat, ghost a: Tree<K>, ghost b: Tree<K>, ghost i: nat)
      requires b.Node? && i < |b.kids| && nnChild == Num(b.kids[i])
      requires Mid(a, Node(b.nn, [], b.kids[i..]), 0) && KeptAll(uiOrder, D(), b.kids[i..])
      modifies this`nnFree, this`free, file
      ensures Mid(a, Node(b.nn, [], b.kids[i + 1..]), 0) && KeptAll(uiOrder, D(), b.kids[i + 1..])
      ensures |D()| == |old(D())| && forall n: nat :: n < |D()| && Cnt(b, n) == 0 ==> D()[n] == old(D())[n]
      decreases b, 0
    {
      ghost var kids := b.kids[i..];
      assert kids[1..] == b.kids[i + 1..] && kids[0] == b.kids[i];
      KidShown(uiOrder, D(), kids, 0);
      DestroyNext(D(), a, b.nn, kids, nnFree, free);
      if nnChild != 0 {
        Destroy(nnChild, Node(b.nn, [], [a] + kids[1..]), kids[0]);
        forall n: nat | Cnt(b, n) == 0
          ensures Cnt(kids[0], n) == 0
        {
          CntAt(b.kids, i, n);
        }
      }
      DestroyedKept(uiOrder, old(D()), D(), a, b.nn, kids, old(nnFree), old(free));
      DestroyedNext(D(), a, b.nn, kids[1..], nnFree, free);
    }

    /** Put a node on the free list. */
    method FreeNode(bn0: BtNode<K>, ghost a: Tree<K>)
      requires Mid(a, Nil, bn0.nn) && bn0.nn != 0
      modifies this`nnFree, this`free, file
      ensures Mid(a, Nil, 0) && free == [bn0.nn] + old(free)
      ensures bn0.nn < |D()| && D() == old(D())[bn0.nn := Store(bn0.(fFree := true, nnNextFree := old(nnFree)))]
    {
      LiveBlock(D(), a, Nil, bn0.nn, nnFree, free, bn0.nn);
      var bn := bn0.(fFree := true, nnNextFree := nnFree);
      file.Put(bn.nn, Store(bn));
      GiveBack(old(D()), D(), a, Nil, bn.nn, nnFree, free);
      nnFree := bn.nn;
      free := [bn.nn] + free;
    }

    /** Remove key idx of the node at the focus: replace it with its successor if
        there is a subtree to its right, or else close the gap and even out the
        tree from there upward. */
    method RemoveAt(node0: BtNode<K>, parents: seq<nat>, idx: nat, ghost fs: seq<Frame<K>>, ghost t: Tree<K>, ghost h: nat)
      returns (ghost whole: Tree<K>, ghost top: nat)
      requires Target(uiOrder, parents, fs, t, idx, h)
      requires Shown(PlugAll(fs, t)) && Shows(uiOrder, node0, t)
      modifies this`nnHead, this`nnFree, this`free, file
      ensures Shown(whole) && RootReady() && Rooted(uiOrder, whole, top)
      ensures InOrder(whole) == Rest(fs, t, idx)
      decreases if t.kids[idx + 1].Nil? then 0 else 1, |fs|, 3
    {
      RemoveCase(uiOrder, fs, t, idx, h);
      if node0.child[idx + 1] != 0 {
        whole, top := ReplaceSuccessor(node0, parents, idx, fs, t, h);
      } else {
        RemovedInOrder(fs, t, idx);
        whole, top := RemoveGap(node0, parents, idx, fs, t, h);
      }
    }

    /** Take key idx and the terminal child right of it out of a node's arrays. */
    method CloseGap(node0: BtNode<K>, idx: nat, ghost t: Tree<K>) returns (node: BtNode<K>)
      requires Shows(uiOrder, node0, t) && idx < |t.keys|
      ensures Shows(uiOrder, node, Removed(t, idx))
    {
      node := node0;
      CloseSlot(uiOrder, node.child, node.key, t.keys, t.kids, idx, zeroKey);
      node := node.(key := Memmove(node.key, idx, node.key, idx + 1, node.uiKeys - idx - 1),
                    child := Memmove(node.child, idx + 1, node.child, idx + 2, node.uiKeys - idx - 1));
      node := node.(uiKeys := node.uiKeys - 1);
      node := node.(key := Memset(node.key, node.uiKeys, 1, zeroKey),
                    child := Memset(node.child, node.uiKeys + 1, 1, 0));
    }

    method RemoveGap(node0: BtNode<K>, parents: seq<nat>, idx: nat, ghost fs: seq<Frame<K>>, ghost t: Tree<K>, ghost h: nat)
      returns (ghost whole: Tree<K>, ghost top: nat)
      requires AllFormed(fs) && t.Node? && |t.kids| == |t.keys| + 1 && idx < |t.keys| && ChainOf(parents, fs)
      requires Gap(uiOrder, fs, t, idx, h) && t.kids[idx + 1].Nil? && t.nn != 0
      requires Shown(PlugAll(fs, t)) && Shows(uiOrder, node0, t)
      modifies this`nnHead, this`nnFree, this`free, file
      ensures Shown(whole) && RootReady() && Rooted(uiOrder, whole, top)
      ensures InOrder(whole) == InOrder(PlugAll(fs, Removed(t, idx)))
      decreases 0, |fs|, 2
    {
      var node := CloseGap(node0, idx, t);
      ghost var t' := Removed(t, idx);
      FocusShown(uiOrder, D(), fs, t);
      RemovedBooks(uiOrder, D(), fs, t, idx, nnFree, free);
      RootOnly(D(), fs, t, nnFree, free);
      if node.uiKeys >= uiOrder / 2 - 1 {
        RemovedWhole(uiOrder, fs, t, idx, h);
        whole, top := WriteChanged(node, fs, t, t', h);
      } else if node.nn == nnHead {
        whole, top := RemoveFromRoot(node, idx, t, h);
      } else {
        RemovedShort(uiOrder, fs, t, idx, h);
        whole, top := RemoveLowKeys(node, parents, fs, t, t', h);
      }
    }

    /** Write the focused node, where that makes a whole tree. */
    method WriteChanged(node: BtNode<K>, ghost fs: seq<Frame<K>>, ghost t: Tree<K>, ghost t': Tree<K>, ghost h: nat)
      returns (ghost whole: Tree<K>, ghost top: nat)
      requires AllFormed(fs) && t.Node? && Shows(uiOrder, node, t') && t'.nn == t.nn != 0
      requires Mid(PlugAll(fs, t'), Nil, 0) && KeptAll(uiOrder, D(), t'.kids)
      requires Kept(uiOrder, D(), PlugAll(fs, t)) && nnHead == Num(PlugAll(fs, t))
      requires Rooted(uiOrder, PlugAll(fs, t'), h + |fs|)
      modifies file
      ensures Shown(whole) && RootReady() && Rooted(uiOrder, whole, top) && whole == PlugAll(fs, t') && nnHead != 0
    {
      Rewrite(node, fs, t, t', Nil);
      whole, top := PlugAll(fs, t'), h + |fs|;
      NoRoot(uiOrder, whole, top);
      PlugNotNil(fs, t');
    }

    /** The root has lost a key.  Without keys it goes, and its only child is the
        new root. */
    method RemoveFromRoot(node0: BtNode<K>, ghost idx: nat, ghost t: Tree<K>, ghost h: nat)
      returns (ghost whole: Tree<K>, ghost top: nat)
      requires t.Node? && |t.kids| == |t.keys| + 1 && idx < |t.keys| && t.nn != 0
      requires Gap(uiOrder, [], t, idx, h) && Shows(uiOrder, node0, Removed(t, idx))
      requires Mid(Removed(t, idx), Nil, 0) && KeptAll(uiOrder, D(), Removed(t, idx).kids)
      requires Kept(uiOrder, D(), t) && nnHead == t.nn
      modifies this`nnHead, this`nnFree, this`free, file
      ensures Shown(whole) && RootReady() && Rooted(uiOrder, whole, top)
      ensures InOrder(whole) == InOrder(Removed(t, idx))
    {
      if node0.uiKeys != 0 {
        RemovedWhole(uiOrder, [], t, idx, h);
        whole, top := WriteChanged(node0, [], t, Removed(t, idx), h);
      } else {
        RemovedRoot(uiOrder, t, idx, h);
        whole, top := t.kids[0], h - 1;
        DropRoot(node0, t.kids[0]);
      }
    }

    method DropRoot(node0: BtNode<K>, ghost c: Tree<K>)
      requires node0.nn != 0 && Shows(uiOrder, node0, Node(node0.nn, [], [c]))
      requires Mid(Node(node0.nn, [], [c]), Nil, 0) && KeptAll(uiOrder, D(), [c])
      modifies this`nnHead, this`nnFree, this`free, file
      ensures Shown(c) && RootReady()
    {
      ghost var husk: Tree<K> := Node(node0.nn, [], [Nil]);
      KidShown(uiOrder, D(), [c], 0);
      NewTop(D(), node0.nn, c, nnFree, free);
      var node, nnNewHead := node0, node0.child[0];
      node := node.(child := node.child[0 := 0]);
      assert KeptAll(uiOrder, D(), husk.kids);
      WriteApart(node, c, husk);
      ghost var d := D();
      HuskApart(d, c, husk, nnFree, free);
      Destroy(node.nn, c, husk);
      KeptExcept(uiOrder, d, D(), c, husk);
      nnHead := nnNewHead;
    }

    /** The node at the focus has become one key too small: take keys from a
        sibling, or merge with it. */
    method RemoveLowKeys(node: BtNode<K>, parents: seq<nat>, ghost fs: seq<Frame<K>>, ghost t0: Tree<K>, ghost t: Tree<K>, ghost h: nat)
      returns (ghost whole: Tree<K>, ghost top: nat)
      requires AllFormed(fs) && Short(uiOrder, fs, t, h) && fs != [] && ChainOf(parents, fs)
      requires t0.Node? && t.Node? && t0.nn == t.nn != 0 && Shows(uiOrder, node, t)
      requires Mid(PlugAll(fs, t), Nil, 0) && KeptAll(uiOrder, D(), t.kids)
      requires Kept(uiOrder, D(), PlugAll(fs, t0)) && nnHead == Num(PlugAll(fs, t0))
      modifies this`nnHead, this`nnFree, this`free, file
      ensures Shown(whole) && RootReady() && Rooted(uiOrder, whole, top)
      ensures InOrder(whole) == InOrder(PlugAll(fs, t))
      decreases 0, |fs|, 1
    {
      ghost var p, s, sib, right := Sibling(uiOrder, fs, t, h);
      PlugAllNum(fs, t0, t);
      var bnParent, bnSteal, parent_idx, steal_idx := ReadFamily(node, parents, fs, t0, t, h, p, s, sib, right);
      if bnSteal.uiKeys > uiOrder / 2 - 1 {
        whole, top := ShiftKeys(node, bnSteal, bnParent, steal_idx, parent_idx == 0, fs, t0, t, h, p, sib);
      } else {
        whole, top := Merge3(node, bnParent, bnSteal, parents, steal_idx, parent_idx, fs, t0, t, h, p, sib);
      }
    }

    method ReadFamily(node: BtNode<K>, parents: seq<nat>, ghost fs: seq<Frame<K>>, ghost t0: Tree<K>, ghost t: Tree<K>, ghost h: nat,
                      ghost p: Tree<K>, ghost s: nat, ghost sib: Tree<K>, ghost right: bool)
      returns (bnParent: BtNode<K>, bnSteal: BtNode<K>, parent_idx: nat, steal_idx: nat)
      requires Family(uiOrder, fs, t, h, p, s, sib, right) && ChainOf(parents, fs)
      requires t0.Node? && t0.nn == t.nn != 0 && node.nn == t.nn
      requires Mid(PlugAll(fs, t), Nil, 0) && Kept(uiOrder, D(), PlugAll(fs, t0))
      modifies file
      ensures Mid(PlugAll(fs, t), Nil, 0) && D() == old(D())
      ensures parent_idx == fs[0].idx && steal_idx == s
      ensures Shows(uiOrder, bnParent, p) && Shows(uiOrder, bnSteal, sib) && KeptAll(uiOrder, D(), sib.kids)
    {
      ParentParts(fs, t, p);
      ghost var p0 := Plug(fs[0], t0);
      FocusShown(uiOrder, D(), fs[1..], p0);
      KidShown(uiOrder, D(), p0.kids, if right then 1 else s);
      FocusApart(D(), fs[1..], p, Nil, 0, nnFree, free, node.nn);
      bnParent := GetNode(parents[0], PlugAll(fs, t), Nil, 0);
      parent_idx := ChildIndex(bnParent, node.nn, bnParent.uiKeys + 1, fs[0], t);
      var nnSteal;
      if parent_idx == 0 {
        nnSteal := bnParent.child[parent_idx + 1];
        steal_idx := parent_idx;
      } else {
        nnSteal := bnParent.child[parent_idx - 1];
        steal_idx := parent_idx - 1;
      }
      bnSteal := GetNode(nnSteal, PlugAll(fs, t), Nil, 0);
    }

    /** Move one key to a node from its sibling, through the key between them in
        the parent. */
    method MoveKey(to0: BtNode<K>, from0: BtNode<K>, par0: BtNode<K>, parent_idx: nat, delete_right: bool,
                   ghost to: Tree<K>, ghost from: Tree<K>)
      returns (bnTo: BtNode<K>, bnFrom: BtNode<K>, bnToParent: BtNode<K>, keys: nat)
      requires Shows(uiOrder, to0, to) && Shows(uiOrder, from0, from) && from.keys != [] && |to.keys| + 1 < uiOrder
      requires parent_idx < |par0.key|
      ensures Shows(uiOrder, bnTo, MovedTo(to, par0.key[parent_idx], from, delete_right))
      ensures Shows(uiOrder, bnFrom, MovedFrom(from, delete_right))
      ensures bnToParent == par0.(key := par0.key[parent_idx := MovedSep(from, delete_right)])
      ensures keys == |to.keys| + 1
    {
      bnTo, bnFrom, bnToParent := to0, from0, par0;
      var idxTo := if delete_right then bnTo.uiKeys else 0;
      var idxFrom := if delete_right then 0 else bnFrom.uiKeys - 1;
      if delete_right {
        MovedRight(to0, from0, par0.key[parent_idx], to, from);
      } else {
        MovedLeft(to0, from0, par0.key[parent_idx], to, from);
        bnTo := bnTo.(key := Memset(Memmove(bnTo.key, 1, bnTo.key, 0, bnTo.uiKeys), 0, 1, zeroKey),
                      child := Memset(Memmove(bnTo.child, 1, bnTo.child, 0, bnTo.uiKeys + 1), 0, 1, 0));
      }
      bnTo := bnTo.(key := bnTo.key[idxTo := bnToParent.key[parent_idx]]);
      bnToParent := bnToParent.(key := bnToParent.key[parent_idx := bnFrom.key[idxFrom]]);
      bnTo := bnTo.(child := bnTo.child[idxTo + (if delete_right then 1 else 0)
                                        := bnFrom.child[idxFrom + (if delete_right then 0 else 1)]]);
      if delete_right {
        bnFrom := bnFrom.(key := Memmove(bnFrom.key, 0, bnFrom.key, 1, bnFrom.uiKeys - 1),
                          child := Memmove(bnFrom.child, 0, bnFrom.child, 1, bnFrom.uiKeys));
      }
      bnFrom := bnFrom.(key := Memset(bnFrom.key, bnFrom.uiKeys - 1, 1, zeroKey),
                        child := Memset(bnFrom.child, bnFrom.uiKeys, 1, 0));
      bnFrom := bnFrom.(uiKeys := bnFrom.uiKeys - 1);
      bnTo := bnTo.(uiKeys := bnTo.uiKeys + 1);
      keys := bnTo.uiKeys;
    }

    /** The nodes after a key has gone to the right end of one from the left end of the other. */
    lemma MovedRight(to0: BtNode<K>, from0: BtNode<K>, sep: K, to: Tree<K>, from: Tree<K>)
      requires Shows(uiOrder, to0, to) && Shows(uiOrder, from0, from) && from.keys != [] && |to.keys| + 1 < uiOrder
      ensures var n := to0.uiKeys;
              Shows(uiOrder, to0.(uiKeys := n + 1, key := to0.key[n := sep], child := to0.child[n + 1 := from0.child[0]]),
                    MovedTo(to, sep, from, true))
      ensures var n := from0.uiKeys;
              Shows(uiOrder, from0.(uiKeys := n - 1,
                                    key := Memset(Memmove(from0.key, 0, from0.key, 1, n - 1), n - 1, 1, zeroKey),
                                    child := Memset(Memmove(from0.child, 0, from0.child, 1, n), n, 1, 0)),
                    MovedFrom(from, true))
      ensures from0.key[0] == MovedSep(from, true)
    {
      PushRight(uiOrder, to0.child, to0.key, to.keys, to.kids, sep, from.kids[0]);
      PopLeft(uiOrder, from0.child, from0.key, from.keys, from.kids, zeroKey);
    }

    /** The nodes after a key has gone to the left end of one from the right end of the other. */
    lemma MovedLeft(to0: BtNode<K>, from0: BtNode<K>, sep: K, to: Tree<K>, from: Tree<K>)
      requires Shows(uiOrder, to0, to) && Shows(uiOrder, from0, from) && from.keys != [] && |to.keys| + 1 < uiOrder
      ensures var n := to0.uiKeys;
              Shows(uiOrder, to0.(uiKeys := n + 1,
                                  key := Memset(Memmove(to0.key, 1, to0.key, 0, n), 0, 1, zeroKey)[0 := sep],
                                  child := Memset(Memmove(to0.child, 1, to0.child, 0, n + 1), 0, 1, 0)
                                             [0 := from0.child[from0.uiKeys]]),
                    MovedTo(to, sep, from, false))
      ensures var n := from0.uiKeys;
              Shows(uiOrder, from0.(uiKeys := n - 1, key := Memset(from0.key, n - 1, 1, zeroKey),
                                    child := Memset(from0.child, n, 1, 0)),
                    MovedFrom(from, false))
      ensures from0.key[from0.uiKeys - 1] == MovedSep(from, false)
    {
      PushLeft(uiOrder, to0.child, to0.key, to.keys, to.kids, sep, from.kids[|from.keys|], zeroKey);
      PopRight(uiOrder, from0.child, from0.key, from.keys, from.kids, zeroKey);
    }

    /** Move keys from a sibling until the node has half of them. */
    method EvenOut(node0: BtNode<K>, steal0: BtNode<K>, par0: BtNode<K>, steal_idx: nat, delete_right: bool,
                   ghost t: Tree<K>, ghost sib: Tree<K>)
      returns (node: BtNode<K>, steal: BtNode<K>, par: BtNode<K>, ghost t': Tree<K>, ghost sib': Tree<K>)
      requires Shows(uiOrder, node0, t) && Shows(uiOrder, steal0, sib) && steal_idx < |par0.key|
      requires |t.keys| <= (|t.keys| + |sib.keys|) / 2 && |sib.keys| < uiOrder
      ensures Shows(uiOrder, node, t') && Shows(uiOrder, steal, sib')
      ensures steal_idx < |par.key| && par == par0.(key := par0.key[steal_idx := par.key[steal_idx]])
      ensures Shared(t, par0.key[steal_idx], sib, t', par.key[steal_idx], sib', delete_right)
      ensures |t'.keys| + |sib'.keys| == |t.keys| + |sib.keys| && |t'.keys| == (|t.keys| + |sib.keys|) / 2
    {
      node, steal, par, t', sib' := node0, steal0, par0, t, sib;
      var total_keys := node.uiKeys + steal.uiKeys;
      while node.uiKeys < total_keys / 2
        invariant Shows(uiOrder, node, t') && Shows(uiOrder, steal, sib') && steal_idx < |par.key|
        invariant par == par0.(key := par0.key[steal_idx := par.key[steal_idx]])
        invariant Shared(t, par0.key[steal_idx], sib, t', par.key[steal_idx], sib', delete_right)
        invariant |t'.keys| + |sib'.keys| == |t.keys| + |sib.keys| == total_keys && |t'.keys| <= total_keys / 2
      {
        SharedStep(t, par0.key[steal_idx], sib, t', par.key[steal_idx], sib', delete_right);
        var keys;
        ghost var to, from := t', sib';
        ghost var sep := par.key[steal_idx];
        node, steal, par, keys := MoveKey(node, steal, par, steal_idx, delete_right, t', sib');
        t', sib' := MovedTo(to, sep, from, delete_right), MovedFrom(from, delete_right);
      }
    }

    method ShiftKeys(node0: BtNode<K>, steal0: BtNode<K>, par0: BtNode<K>, steal_idx: nat, delete_right: bool,
                     ghost fs: seq<Frame<K>>, ghost t0: Tree<K>, ghost t: Tree<K>, ghost h: nat,
                     ghost p: Tree<K>, ghost sib: Tree<K>)
      returns (ghost whole: Tree<K>, ghost top: nat)
      requires Family(uiOrder, fs, t, h, p, steal_idx, sib, delete_right) && |sib.keys| > MinKeys(uiOrder)
      requires Shows(uiOrder, node0, t) && Shows(uiOrder, steal0, sib) && Shows(uiOrder, par0, p)
      requires Mid(PlugAll(fs, t), Nil, 0) && KeptAll(uiOrder, D(), t.kids) && KeptAll(uiOrder, D(), sib.kids)
      requires Kept(uiOrder, D(), PlugAll(fs, t0)) && Num(t0) == t.nn && nnHead == Num(PlugAll(fs, t))
      modifies file
      ensures Shown(whole) && RootReady() && Rooted(uiOrder, whole, top)
      ensures InOrder(whole) == InOrder(PlugAll(fs, t))
    {
      ShortSizes(uiOrder, fs, t, h, |sib.keys|);
      var node, steal, par;
      ghost var t', sib';
      node, steal, par, t', sib' := EvenOut(node0, steal0, par0, steal_idx, delete_right, t, sib);
      whole, top := PutEvened(node, steal, par, par0, steal_idx, delete_right, fs, t0, t, h, p, sib, t', sib');
    }

    /** Write the nodes that have shared their keys. */
    method PutEvened(node: BtNode<K>, steal: BtNode<K>, par: BtNode<K>, ghost par0: BtNode<K>, ghost steal_idx: nat, ghost delete_right: bool,
                     ghost fs: seq<Frame<K>>, ghost t0: Tree<K>, ghost t: Tree<K>, ghost h: nat,
                     ghost p: Tree<K>, ghost sib: Tree<K>, ghost t': Tree<K>, ghost sib': Tree<K>)
      returns (ghost whole: Tree<K>, ghost top: nat)
      requires Family(uiOrder, fs, t, h, p, steal_idx, sib, delete_right) && |sib.keys| > MinKeys(uiOrder)
      requires Shows(uiOrder, par0, p) && steal_idx < |par.key| && par == par0.(key := par0.key[steal_idx := par.key[steal_idx]])
      requires Shows(uiOrder, node, t') && Shows(uiOrder, steal, sib')
      requires Shared(t, par0.key[steal_idx], sib, t', par.key[steal_idx], sib', delete_right)
      requires |t'.keys| + |sib'.keys| == |t.keys| + |sib.keys| && |t'.keys| == (|t.keys| + |sib.keys|) / 2
      requires Mid(PlugAll(fs, t), Nil, 0) && KeptAll(uiOrder, D(), t.kids) && KeptAll(uiOrder, D(), sib.kids)
      requires Kept(uiOrder, D(), PlugAll(fs, t0)) && Num(t0) == t.nn && nnHead == Num(PlugAll(fs, t))
      modifies file
      ensures Shown(whole) && RootReady() && Rooted(uiOrder, whole, top)
      ensures InOrder(whole) == InOrder(PlugAll(fs, t))
    {
      ghost var sep := par.key[steal_idx];
      ghost var l, r, q := EvenedOut(uiOrder, fs, t, h, p, steal_idx, sib, delete_right, t', sep, sib');
      RepairedShown(uiOrder, par0, p, steal_idx, l, sep, r);
      SharedKept(uiOrder, D(), t, p.keys[steal_idx], sib, t', sep, sib', delete_right);
      SharedBooks(uiOrder, D(), fs[1..], p, steal_idx, l, sep, r, nnFree, free);
      ghost var p0 := RepairedFor(uiOrder, fs, t0, t, h, p, steal_idx, sib, delete_right, l, sep, r);
      WritePair(par, node, steal, fs[1..], p0, steal_idx, l, sep, r, q);
      whole, top := PlugAll(fs[1..], q), h + |fs|;
    }

    /** Write a parent and two siblings that have all changed. */
    method WritePair(par: BtNode<K>, node: BtNode<K>, steal: BtNode<K>, ghost fs: seq<Frame<K>>, ghost p: Tree<K>, ghost s: nat,
                     ghost l: Tree<K>, ghost sep: K, ghost r: Tree<K>, ghost q: Tree<K>)
      requires AllFormed(fs) && p.Node? && |p.kids| == |p.keys| + 1 && s < |p.keys|
      requires l.Node? && r.Node? && l.nn != 0 && r.nn != 0 && p.nn != 0 && q == Repaired(p, s, l, sep, r)
      requires Shows(uiOrder, par, q)
      requires (Shows(uiOrder, node, l) && Shows(uiOrder, steal, r)) || (Shows(uiOrder, node, r) && Shows(uiOrder, steal, l))
      requires Mid(PlugAll(fs, q), Nil, 0) && Kept(uiOrder, D(), PlugAll(fs, p))
      requires KeptAll(uiOrder, D(), l.kids) && KeptAll(uiOrder, D(), r.kids)
      modifies file
      ensures Mid(PlugAll(fs, q), Nil, 0) && Kept(uiOrder, D(), PlugAll(fs, q)) && nnHead == old(nnHead)
    {
      PairApart(D(), fs, q, s, Nil, nnFree, free);
      ghost var d := D();
      PutNode(par, PlugAll(fs, q), Nil, 0);
      PutNode(node, PlugAll(fs, q), Nil, 0);
      PutNode(steal, PlugAll(fs, q), Nil, 0);
      NoBlockZero(D(), PlugAll(fs, q), Nil, 0, nnFree, free);
      PairWritten(d, D(), fs, q, s, 0, nnFree, free);
      RewritePair(uiOrder, d, D(), fs, p, s, l, sep, r, q);
    }

    /** Merge a small node, its sibling and the key between them into the left one
        of the two, and then remove that key from the parent. */
    method Merge3(node: BtNode<K>, par0: BtNode<K>, steal: BtNode<K>, parents: seq<nat>, steal_idx: nat, parent_idx: nat,
                  ghost fs: seq<Frame<K>>, ghost t0: Tree<K>, ghost t: Tree<K>, ghost h: nat,
                  ghost p: Tree<K>, ghost sib: Tree<K>)
      returns (ghost whole: Tree<K>, ghost top: nat)
      requires Family(uiOrder, fs, t, h, p, steal_idx, sib, parent_idx == 0) && parent_idx == fs[0].idx
      requires |sib.keys| <= MinKeys(uiOrder) && ChainOf(parents, fs)
      requires Shows(uiOrder, node, t) && Shows(uiOrder, steal, sib) && Shows(uiOrder, par0, p)
      requires Mid(PlugAll(fs, t), Nil, 0) && KeptAll(uiOrder, D(), t.kids) && KeptAll(uiOrder, D(), sib.kids)
      requires Kept(uiOrder, D(), PlugAll(fs, t0)) && Num(t0) == t.nn && nnHead == Num(PlugAll(fs, t))
      modifies this`nnHead, this`nnFree, this`free, file
      ensures Shown(whole) && RootReady() && Rooted(uiOrder, whole, top)
      ensures InOrder(whole) == InOrder(PlugAll(fs, t))
      decreases 0, |fs|, 0
    {
      var par;
      ghost var q;
      par, q := MergeNodes(node, par0, steal, parents, steal_idx, parent_idx, fs, t0, t, h, p, sib);
      whole, top := RemoveAt(par, parents[1..], steal_idx, fs[1..], q, h + 1);
    }

    /** Merge the two nodes and write them; the parent then has a gap. */
    method MergeNodes(node: BtNode<K>, par0: BtNode<K>, steal: BtNode<K>, ghost parents: seq<nat>, steal_idx: nat, parent_idx: nat,
                      ghost fs: seq<Frame<K>>, ghost t0: Tree<K>, ghost t: Tree<K>, ghost h: nat,
                      ghost p: Tree<K>, ghost sib: Tree<K>)
      returns (par: BtNode<K>, ghost q: Tree<K>)
      requires Family(uiOrder, fs, t, h, p, steal_idx, sib, parent_idx == 0) && parent_idx == fs[0].idx
      requires |sib.keys| <= MinKeys(uiOrder) && ChainOf(parents, fs)
      requires Shows(uiOrder, node, t) && Shows(uiOrder, steal, sib) && Shows(uiOrder, par0, p)
      requires Mid(PlugAll(fs, t), Nil, 0) && KeptAll(uiOrder, D(), t.kids) && KeptAll(uiOrder, D(), sib.kids)
      requires Kept(uiOrder, D(), PlugAll(fs, t0)) && Num(t0) == t.nn && nnHead == Num(PlugAll(fs, t))
      modifies this`nnFree, this`free, file
      ensures Target(uiOrder, parents[1..], fs[1..], q, steal_idx, h + 1) && q.kids[steal_idx + 1].Nil?
      ensures Shown(PlugAll(fs[1..], q)) && Shows(uiOrder, par, q)
      ensures Rest(fs[1..], q, steal_idx) == InOrder(PlugAll(fs, t))
    {
      ghost var left;
      q, left := MergedUp(uiOrder, fs, t, h, p, steal_idx, sib, parent_idx == 0);
      var bnTo, bnFrom := JoinPair(node, par0, steal, steal_idx, parent_idx, p, t, sib, left);
      ghost var p0 := RepairedFor(uiOrder, fs, t0, t, h, p, steal_idx, sib, parent_idx == 0, left, p.keys[steal_idx], Nil);
      TargetUp(uiOrder, parents, fs, q, steal_idx, h + 1);
      par := WriteJoined(bnTo, bnFrom, par0, steal_idx, fs[1..], p0, p, left, q);
    }

    /** Merge into the left one of the two. */
    method JoinPair(node: BtNode<K>, par0: BtNode<K>, steal: BtNode<K>, steal_idx: nat, parent_idx: nat,
                    ghost p: Tree<K>, ghost t: Tree<K>, ghost sib: Tree<K>, ghost left: Tree<K>)
      returns (bnTo: BtNode<K>, bnFrom: BtNode<K>)
      requires Shows(uiOrder, node, t) && Shows(uiOrder, steal, sib) && Shows(uiOrder, par0, p) && steal_idx < |p.keys|
      requires steal_idx == if parent_idx == 0 then 0 else parent_idx - 1
      requires p.kids[steal_idx] == (if parent_idx == 0 then t else sib)
      requires p.kids[steal_idx + 1] == (if parent_idx == 0 then sib else t)
      requires |t.keys| + 1 + |sib.keys| < uiOrder
      requires left == Merged(p.kids[steal_idx], p.keys[steal_idx], p.kids[steal_idx + 1])
      ensures Shows(uiOrder, bnTo, left) && Shows(uiOrder, bnFrom, Husk(p.kids[steal_idx + 1]))
    {
      if steal_idx == parent_idx {
        bnFrom, bnTo := steal, node;
      } else {
        bnFrom, bnTo := node, steal;
      }
      bnTo, bnFrom := JoinNodes(bnTo, bnFrom, par0.key[steal_idx], p.kids[steal_idx], p.kids[steal_idx + 1]);
    }

    /** The merge of two nodes in memory. */
    method JoinNodes(to0: BtNode<K>, from0: BtNode<K>, sep: K, ghost left: Tree<K>, ghost right: Tree<K>)
      returns (bnTo: BtNode<K>, bnFrom: BtNode<K>)
      requires Shows(uiOrder, to0, left) && Shows(uiOrder, from0, right) && |left.keys| + 1 + |right.keys| < uiOrder
      ensures Shows(uiOrder, bnTo, Merged(left, sep, right)) && Shows(uiOrder, bnFrom, Husk(right))
    {
      bnTo, bnFrom := to0, from0;
      Append(uiOrder, bnTo.child, bnTo.key, left.keys, left.kids, sep, bnFrom.child, bnFrom.key, right.keys, right.kids);
      bnTo := bnTo.(key := bnTo.key[bnTo.uiKeys := sep], uiKeys := bnTo.uiKeys + 1);
      bnTo := bnTo.(key := Memmove(bnTo.key, bnTo.uiKeys, bnFrom.key, 0, bnFrom.uiKeys));
      bnTo := bnTo.(child := Memmove(bnTo.child, bnTo.uiKeys, bnFrom.child, 0, bnFrom.uiKeys + 1));
      bnTo := bnTo.(uiKeys := bnTo.uiKeys + bnFrom.uiKeys);
      var i := 0;
      while i <= bnFrom.uiKeys
        invariant i <= bnFrom.uiKeys + 1 && bnFrom == from0.(child := bnFrom.child) && |bnFrom.child| == uiOrder + 1
        invariant forall j :: 0 <= j <= uiOrder ==> bnFrom.child[j] == if j < i then 0 else from0.child[j]
      {
        bnFrom := bnFrom.(child := bnFrom.child[i := 0]);
        i := i + 1;
      }
    }

    method WriteJoined(bnTo: BtNode<K>, bnFrom: BtNode<K>, par0: BtNode<K>, steal_idx: nat, ghost fs: seq<Frame<K>>,
                       ghost p0: Tree<K>, ghost p: Tree<K>, ghost left: Tree<K>, ghost q: Tree<K>)
      returns (par: BtNode<K>)
      requires AllFormed(fs) && p0.Node? && |p0.kids| == |p0.keys| + 1 == |p0.keys| + 1 && steal_idx < |p0.keys|
      requires p.Node? && |p.kids| == |p.keys| + 1 && steal_idx < |p.keys| && p0.nn == p.nn != 0
      requires p.kids[steal_idx].Node? && p.kids[steal_idx + 1].Node? && p.kids[steal_idx + 1].nn != 0
      requires left == Merged(p.kids[steal_idx], p.keys[steal_idx], p.kids[steal_idx + 1]) && left.nn != 0
      requires q == Repaired(p, steal_idx, left, p.keys[steal_idx], Nil) == Repaired(p0, steal_idx, left, p.keys[steal_idx], Nil)
      requires Shows(uiOrder, bnTo, left) && Shows(uiOrder, bnFrom, Husk(p.kids[steal_idx + 1])) && Shows(uiOrder, par0, p)
      requires Mid(PlugAll(fs, p), Nil, 0) && Kept(uiOrder, D(), PlugAll(fs, p0))
      requires KeptAll(uiOrder, D(), p.kids[steal_idx].kids) && KeptAll(uiOrder, D(), p.kids[steal_idx + 1].kids)
      modifies this`nnFree, this`free, file
      ensures nnHead == old(nnHead)
      ensures Mid(PlugAll(fs, q), Nil, 0) && Kept(uiOrder, D(), PlugAll(fs, q)) && Shows(uiOrder, par, q)
    {
      MergedBooks(D(), fs, p, steal_idx, nnFree, free);
      MergedKept(uiOrder, D(), p.kids[steal_idx], p.keys[steal_idx], p.kids[steal_idx + 1]);
      MergedParent(uiOrder, par0, p, steal_idx, left);
      par := WriteMerge(bnTo, bnFrom, par0, steal_idx, fs, p0, left,
                        p.keys[steal_idx], Husk(p.kids[steal_idx + 1]), q);
    }

    /** Write the merged node, free its sibling's block, and cut the sibling off
        the parent. */
    method WriteMerge(bnTo: BtNode<K>, bnFrom: BtNode<K>, par0: BtNode<K>, steal_idx: nat,
                      ghost fs: seq<Frame<K>>, ghost p: Tree<K>, ghost left: Tree<K>, ghost sep: K, ghost husk: Tree<K>, ghost q: Tree<K>)
      returns (par: BtNode<K>)
      requires AllFormed(fs) && p.Node? && |p.kids| == |p.keys| + 1 && steal_idx < |p.keys| && steal_idx + 1 < |par0.child|
      requires left.Node? && left.nn != 0 && p.nn != 0 && q == Repaired(p, steal_idx, left, sep, Nil)
      requires husk.Node? && husk.nn != 0 && Shows(uiOrder, bnFrom, husk) && KeptAll(uiOrder, D(), husk.kids)
      requires forall n: nat :: Cnt(husk, n) == if n == husk.nn then 1 else 0
      requires Shows(uiOrder, bnTo, left) && KeptAll(uiOrder, D(), left.kids)
      requires Shows(uiOrder, par0.(child := par0.child[steal_idx + 1 := 0]), q)
      requires Mid(PlugAll(fs, q), husk, 0) && Kept(uiOrder, D(), PlugAll(fs, p))
      modifies this`nnFree, this`free, file
      ensures Mid(PlugAll(fs, q), Nil, 0) && Kept(uiOrder, D(), PlugAll(fs, q)) && Shows(uiOrder, par, q)
    {
      PairApart(D(), fs, q, steal_idx, husk, nnFree, free);
      ghost var d := D();
      PutNode(bnTo, PlugAll(fs, q), husk, 0);
      PutNode(bnFrom, PlugAll(fs, q), husk, 0);
      HuskKept(uiOrder, d, D(), bnFrom, husk);
      Destroy(bnFrom.nn, PlugAll(fs, q), husk);
      par := par0.(child := par0.child[steal_idx + 1 := 0]);
      PutNode(par, PlugAll(fs, q), Nil, 0);
      PairWritten(d, D(), fs, q, steal_idx, husk.nn, nnFree, free);
      RewritePair(uiOrder, d, D(), fs, p, steal_idx, left, sep, Nil, q);
    }

    /** Replace key idx of the node at the focus with its successor, the first key
        of the subtree to its right, and remove the successor from its leaf. */
    method ReplaceSuccessor(node0: BtNode<K>, parents0: seq<nat>, idx: nat,
                            ghost fs: seq<Frame<K>>, ghost t: Tree<K>, ghost h: nat)
      returns (ghost whole: Tree<K>, ghost top: nat)
      requires AllFormed(fs) && t.Node? && |t.kids| == |t.keys| + 1 && idx < |t.keys| && ChainOf(parents0, fs)
      requires Placed(uiOrder, fs, t, h) && t.kids[idx + 1].Node?
      requires Shown(PlugAll(fs, t)) && Shows(uiOrder, node0, t)
      modifies this`nnHead, this`nnFree, this`free, file
      ensures Shown(whole) && RootReady() && Rooted(uiOrder, whole, top)
      ensures InOrder(whole) == Rest(fs, t, idx)
      decreases 1, |fs|, 2
    {
      PlacedParts(uiOrder, fs, t, h);
      var bn, parents;
      ghost var inner, u, hu;
      bn, parents, inner, u, hu := FindSuccessor(node0, parents0, idx, fs, t, h);
      ghost var t', down := SuccessorTarget(uiOrder, parents, fs, t, idx, inner, u, hu, bn.nn);
      WriteSuccessor(node0.(key := node0.key[idx := bn.key[0]]), bn, fs, t, t', down, u);
      whole, top := RemoveAt(bn, parents, 0, down, u, hu);
    }

    method FindSuccessor(node: BtNode<K>, parents0: seq<nat>, idx: nat, ghost fs: seq<Frame<K>>, ghost t: Tree<K>, ghost h: nat)
      returns (bn: BtNode<K>, parents: seq<nat>, ghost inner: seq<Frame<K>>, ghost u: Tree<K>, ghost hu: nat)
      requires AllFormed(fs) && t.Node? && |t.kids| == |t.keys| + 1 && idx < |t.keys| && ChainOf(parents0, fs)
      requires Placed(uiOrder, fs, t, h) && t.kids[idx + 1].Node?
      requires Shown(PlugAll(fs, t)) && Shows(uiOrder, node, t)
      modifies file
      ensures Shown(PlugAll(fs, t)) && D() == old(D())
      ensures Path(uiOrder, PlugAll(fs, t), bn.nn, parents, inner + [Under(t, idx + 1)] + fs, u, hu)
      ensures Leftmost(inner, u, t.kids[idx + 1]) && u.kids[0].Nil? && u.keys != []
      ensures Shows(uiOrder, bn, u) && bn.nn < |D()| && Store(bn) == D()[bn.nn]
    {
      PlacedParts(uiOrder, fs, t, h);
      ghost var outer := PathDown(uiOrder, PlugAll(fs, t), parents0, fs, t, h, idx + 1);
      bn, parents, inner, u, hu := FindFirst(node.child[idx + 1], [node.nn] + parents0, PlugAll(fs, t), outer, t.kids[idx + 1], h - 1);
      Assoc(inner, [Under(t, idx + 1)], fs);
    }

    /** Descend to the leaf that holds the first key of the subtree at the focus. */
    method FindFirst(nn: nat, parents0: seq<nat>, ghost whole: Tree<K>, ghost outer: seq<Frame<K>>, ghost r: Tree<K>, ghost h: nat)
      returns (bn: BtNode<K>, parents: seq<nat>, ghost inner: seq<Frame<K>>, ghost u: Tree<K>, ghost hu: nat)
      requires Shown(whole) && Path(uiOrder, whole, nn, parents0, outer, r, h) && outer != []
      modifies file
      ensures Shown(whole) && D() == old(D())
      ensures Path(uiOrder, whole, bn.nn, parents, inner + outer, u, hu)
      ensures Leftmost(inner, u, r) && u.kids[0].Nil? && u.keys != []
      ensures Shows(uiOrder, bn, u) && bn.nn < |D()| && Store(bn) == D()[bn.nn]
    {
      inner, u, hu, parents := [], r, h, parents0;
      assert inner + outer == outer;
      bn := ReadOnPath(nn, whole, parents0, outer, r, h);
      while bn.child[0] != 0
        invariant Shown(whole) && D() == old(D())
        invariant Path(uiOrder, whole, bn.nn, parents, inner + outer, u, hu) && Leftmost(inner, u, r)
        invariant Shows(uiOrder, bn, u) && bn.nn < |D()| && Store(bn) == D()[bn.nn]
        invariant (u.kids[0].Nil? <==> bn.child[0] == 0) && u.keys != []
        decreases hu
      {
        ghost var f := PathLeft(uiOrder, whole, parents, inner, outer, u, r, hu);
        parents := [bn.nn] + parents;
        inner, u, hu := [f] + inner, u.kids[0], hu - 1;
        bn := ReadOnPath(bn.child[0], whole, parents, inner + outer, u, hu);
      }
    }

    method ReadOnPath(nn: nat, ghost whole: Tree<K>, ghost parents: seq<nat>, ghost fs: seq<Frame<K>>, ghost u: Tree<K>, ghost h: nat)
      returns (bn: BtNode<K>)
      requires Shown(whole) && Path(uiOrder, whole, nn, parents, fs, u, h) && fs != []
      modifies file
      ensures Shown(whole) && D() == old(D())
      ensures bn.nn == nn && Shows(uiOrder, bn, u) && nn < |D()| && Store(bn) == D()[nn]
      ensures (u.kids[0].Nil? <==> bn.child[0] == 0) && u.keys != []
    {
      FocusShown(uiOrder, D(), fs, u);
      KidNumber(uiOrder, fs, u, h, 0);
      PathKeys(uiOrder, fs, u, h);
      bn := GetNode(nn, whole, Nil, 0);
    }

    method WriteSuccessor(node: BtNode<K>, bn: BtNode<K>, ghost fs: seq<Frame<K>>, ghost t: Tree<K>, ghost t': Tree<K>,
                          ghost down: seq<Frame<K>>, ghost u: Tree<K>)
      requires AllFormed(fs) && AllFormed(down) && t.Node? && t'.Node? && t'.nn == t.nn != 0 && t'.kids == t.kids
      requires Shown(PlugAll(fs, t)) && Shows(uiOrder, node, t')
      requires u.Node? && u.nn == bn.nn != 0 && PlugAll(down, u) == PlugAll(fs, t')
      requires bn.nn < |D()| && Store(bn) == D()[bn.nn]
      modifies file
      ensures Shown(PlugAll(down, u))
    {
      FocusShown(uiOrder, D(), fs, t);
      ReplacedBooks(D(), fs, t, t', nnFree, free);
      FocusLive(down, u, Nil, 0);
      PutNode(bn, PlugAll(fs, t'), Nil, 0);
      assert D() == old(D());
      Rewrite(node, fs, t, t', Nil);
    }

    /** Scan a node for a matching key, or else for the child to go on with. */
    method ScanRemove(n: BtNode<K>, key: K, ghost t: Tree<K>) returns (i: nat, hit: bool)
      requires Shows(uiOrder, n, t) && TotalPreorder(kfSrch)
      ensures i <= |t.keys| && (hit ==> i < |t.keys| && kfSrch(t.keys[i], key) == 0)
      ensures !hit ==> Fitting(kfSrch, t, i, key, true)
    {
      i, hit := 0, false;
      while i < n.uiKeys
        invariant i <= |t.keys|
        invariant i > 0 ==> kfSrch(t.keys[i - 1], key) < 0
      {
        var rc := kfSrch(key, n.key[i]);
        if rc == 0 {
          hit := true;
          return;
        } else if rc < 0 {
          return;
        }
        i := i + 1;
      }
    }

    method FindKey(key: K)
      returns (n: BtNode<K>, parents: seq<nat>, i: nat, hit: bool,
               ghost fs: seq<Frame<K>>, ghost t: Tree<K>, ghost h: nat, ghost nodes: nat)
      requires Shown(tree) && TotalPreorder(kfSrch) && Sorted(kfSrch, InOrder(tree))
      requires Path(uiOrder, tree, nnHead, [0], [], tree, height)
      modifies file
      ensures Shown(tree) && D() == old(D())
      ensures Path(uiOrder, tree, n.nn, parents, fs, t, h) && Shows(uiOrder, n, t)
      ensures Spot(kfSrch, fs, t, i, key, true, hit)
      ensures nodes == |fs| + 1
    {
      var nn := nnHead;
      parents, hit, i, n := [0], false, 0, Blank(uiOrder, 0, zeroKey);
      fs, t, h, nodes := [], tree, height, 0;
      while nn != 0
        invariant Shown(tree) && D() == old(D())
        invariant Path(uiOrder, tree, nn, parents, fs, t, h)
        invariant Between(kfSrch, fs, key, true) && nodes == |fs|
        decreases h
      {
        FocusShown(uiOrder, D(), fs, t);
        n := GetNode(nn, tree, Nil, 0);
        nodes := nodes + 1;
        i, hit := ScanRemove(n, key, t);
        if hit {
          return;
        }
        SpotHere(uiOrder, kfSrch, tree, parents, fs, t, h, i, key, true);
        if n.child[i] == 0 {
          return;
        }
        ghost var down := StepDown(uiOrder, kfSrch, tree, parents, fs, t, h, i, key, true);
        parents := [nn] + parents;
        nn := n.child[i];
        fs, t, h := down, t.kids[i], h - 1;
      }
    }

    /** Remove a key that matches, as RemoveResult says. */
    method Remove(key: K) returns (rc: int, ghost p: nat)
      requires Valid()
      modifies this`nnHead, this`nnFree, this`free, this`tree, this`height, this`cKeys, this`bteLastError, file
      ensures Valid()
      ensures !fOpen ==> rc == 0 && unchanged(this) && unchanged(file)
      ensures fOpen ==> RemoveResult(kfSrch, old(Keys()), Keys(), key, rc, p)
      ensures fOpen ==> bteLastError == if old(nnHead) == 0 then NotOpen else NoError
      ensures fOpen && rc == 0 ==> D() == old(D())
    {
      rc, p := 0, 0;
      if fOpen {
        NoRoot(uiOrder, tree, height);
        if nnHead == 0 {
          bteLastError := NotOpen;
        } else {
          bteLastError := NoError;
          RootPath(uiOrder, tree, height);
          CoarserSorted(kfIns, kfSrch, Keys());
          rc, p := RemoveFrom(key);
        }
      }
    }

    method RemoveFrom(key: K) returns (rc: int, ghost p: nat)
      requires Valid() && Sorted(kfSrch, Keys())
      requires Path(uiOrder, tree, nnHead, [0], [], tree, height)
      modifies this`nnHead, this`nnFree, this`free, this`tree, this`height, this`cKeys, file
      ensures Valid()
      ensures RemoveResult(kfSrch, old(Keys()), Keys(), key, rc, p)
      ensures rc == 0 ==> D() == old(D())
    {
      var n, parents, i, hit;
      ghost var fs, t, h, nodes;
      n, parents, i, hit, fs, t, h, nodes := FindKey(key);
      SpotMeans(kfSrch, fs, t, i, key, true, hit);
      rc, p := 0, 0;
      if hit {
        p := RemoveHere(n, parents, i, fs, t, h);
        rc := 1;
      }
    }

    /** Remove key i of the focused node from the tree, and count it out. */
    method RemoveHere(n: BtNode<K>, parents: seq<nat>, i: nat, ghost fs: seq<Frame<K>>, ghost t: Tree<K>, ghost h: nat)
      returns (ghost p: nat)
      requires Valid() && Path(uiOrder, tree, n.nn, parents, fs, t, h) && Shows(uiOrder, n, t) && i < |t.keys|
      modifies this`nnHead, this`nnFree, this`free, this`tree, this`height, this`cKeys, file
      ensures Valid()
      ensures p == KeyPos(fs, t, i) < |old(Keys())|
      ensures old(Keys())[p] == t.keys[i] && Keys() == DelAt(old(Keys()), p)
    {
      p := DeleteSorted(kfIns, fs, t, i);
      ghost var whole, top := RemoveAt(n, parents, i, fs, t, h);
      cKeys := cKeys - 1;
      Adopt(whole, top);
    }

    // ------------------------------------------------------------ searching

    /** Read the current node and scan it from the current index: for a hit, or
        else for the child to go on with. */
    method Visit(nn: nat, key: Option<K>, ppl: PAList<K>) returns (n: BtNode<K>, i: nat, match_: bool)
      requires Shown(tree) && Rooted(uiOrder, tree, height) && uiOrder >= MIN_ORDER
      requires TotalPreorder(kfSrch) && Sorted(kfSrch, Keys())
      requires ppl.begun && ppl.On(tree) && nn == ppl.focus.nn
      modifies file
      ensures Shown(tree) && D() == old(D()) && Shows(uiOrder, n, ppl.focus)
      ensures ppl.current_idx <= i <= |ppl.focus.keys| + 1 && (i > |ppl.focus.keys| ==> i == ppl.current_idx)
      ensures match_ ==> i < |ppl.focus.keys| && Hit(kfSrch, key, ppl.focus.keys[i])
      ensures i < |ppl.focus.keys| && !match_ ==> key.Some? && kfSrch(ppl.focus.keys[i], key.value) > 0
      ensures n.child[i] == 0 <==> (i <= |ppl.focus.keys| ==> ppl.focus.kids[i].Nil?)
      ensures ppl.Done() <= Consumed(ppl.fs, ppl.focus, i)
      ensures NoHit(kfSrch, key, Keys(), ppl.Done(), Consumed(ppl.fs, ppl.focus, i))
    {
      ConsumedGrows(ppl.fs, ppl.focus, ppl.current_idx, ppl.current_idx);
      ghost var h := PlacedInWhole(uiOrder, ppl.fs, ppl.focus, height);
      FocusShown(uiOrder, D(), ppl.fs, ppl.focus);
      n := GetNode(nn, tree, Nil, 0);
      i, match_ := ScanLookup(n, key, ppl.current_idx, ppl.focus);
      if i <= |ppl.focus.keys| {
        KidNumber(uiOrder, ppl.fs, ppl.focus, h, i);
        ScanSkips(kfSrch, ppl.fs, ppl.focus, ppl.current_idx, i, key);
        ConsumedGrows(ppl.fs, ppl.focus, ppl.current_idx, i);
      }
    }

    method ScanLookup(n: BtNode<K>, key: Option<K>, idx: nat, ghost t: Tree<K>) returns (i: nat, match_: bool)
      requires Shows(uiOrder, n, t) && idx <= |t.keys| + 1
      ensures idx <= i <= |t.keys| + 1 && (i > |t.keys| ==> i == idx)
      ensures match_ ==> i < |t.keys| && Hit(kfSrch, key, t.keys[i])
      ensures i < |t.keys| && !match_ ==> key.Some? && kfSrch(t.keys[i], key.value) > 0
      ensures i > idx ==> key.Some? && kfSrch(t.keys[i - 1], key.value) < 0
    {
      i, match_ := idx, false;
      while i < n.uiKeys
        invariant idx <= i <= |t.keys| + 1 && (i > |t.keys| ==> i == idx)
        invariant i > idx ==> key.Some? && kfSrch(t.keys[i - 1], key.value) < 0
      {
        if key.None? || kfSrch(n.key[i], key.value) == 0 {
          match_ := true;
          return;
        } else if kfSrch(n.key[i], key.value) > 0 {
          return;
        }
        i := i + 1;
      }
    }

    /** Go down to child i of the current node. */
    method GoDown(n: BtNode<K>, i: nat, ppl: PAList<K>)
      requires Rooted(uiOrder, tree, height) && uiOrder >= MIN_ORDER && ppl.begun && ppl.On(tree)
      requires Shows(uiOrder, n, ppl.focus) && ppl.current_idx <= i <= |ppl.focus.keys| && ppl.focus.kids[i].Node?
      modifies ppl
      ensures ppl.begun && ppl.On(tree) && ppl.focus.nn == n.child[i]
      ensures ppl.Done() == old(Consumed(ppl.fs, ppl.focus, i))
      ensures Pending(ppl.fs, ppl.focus, ppl.current_idx) < old(Pending(ppl.fs, ppl.focus, ppl.current_idx))
    {
      ghost var h := PlacedInWhole(uiOrder, ppl.fs, ppl.focus, height);
      ghost var down := FocusDown(uiOrder, ppl.fs, ppl.focus, h, i);
      ppl.Dive(n.nn, i, n.child[i], tree);
    }

    /** Go up to the parent, whose next key may be a hit; without a parent, the
        search is over. */
    method GoUp(key: Option<K>, ppl: PAList<K>) returns (nn: nat, r: Option<K>)
      requires Shown(tree) && Rooted(uiOrder, tree, height) && uiOrder >= MIN_ORDER && ppl.begun && ppl.On(tree)
      modifies file, ppl
      ensures Shown(tree) && D() == old(D())
      ensures nn == 0 <==> old(ppl.fs) == []
      ensures ppl.ppn == old(ppl.ppn)[1..]
      ensures nn == 0 ==> r.None?
      ensures nn != 0 ==> ppl.begun && ppl.On(tree) && nn == ppl.focus.nn
      ensures nn != 0 ==> Pending(ppl.fs, ppl.focus, ppl.current_idx) <= old(Pending(ppl.fs, ppl.focus, ppl.current_idx))
      ensures nn != 0 ==>
                StepResult(kfSrch, key, Keys(), old(|Before(ppl.fs)| + |InOrder(ppl.focus)|), ppl.Done(), r)
      ensures r.Some? ==> ppl.Returned()
    {
      r := None;
      ghost var fs, t := ppl.fs, ppl.focus;
      var i;
      nn, i := ppl.Climb(tree);
      if nn != 0 {
        r := TestKey(nn, i, key, ppl.fs, ppl.focus);
        UpResult(kfSrch, key, fs, t, ppl.focus, r);
      }
    }

    /** Read a node and test whether key i is a hit. */
    method TestKey(nn: nat, i: nat, key: Option<K>, ghost fs: seq<Frame<K>>, ghost t: Tree<K>) returns (r: Option<K>)
      requires Shown(tree) && AllFormed(fs) && PlugAll(fs, t) == tree && t.Node? && nn == t.nn
      modifies file
      ensures Shown(tree) && D() == old(D())
      ensures r == if i < |t.keys| && Hit(kfSrch, key, t.keys[i]) then Some(t.keys[i]) else None
    {
      FocusShown(uiOrder, D(), fs, t);
      var n := GetNode(nn, tree, Nil, 0);
      r := None;
      if i < n.uiKeys && (key.None? || kfSrch(n.key[i], key.value) == 0) {
        r := Some(n.key[i]);
      }
    }

    /** What one turn of the search comes to, from c0 keys gone past, pend nodes
        to go to and len list entries: it has returned a key, or has come closer
        to the end, or has reached it (node 0). */
    ghost predicate Turn(key: Option<K>, ppl: PAList<K>, c0: nat, pend: nat, len: nat, next: nat, r: Option<K>)
      reads `tree, ppl
    {
      forall u: nat {:trigger Study(u)} :: Study(u) ==>
        if next == 0 then r.None? && NoHit(kfSrch, key, Keys(), c0, |Keys()|)
        else
          && ppl.begun && ppl.On(tree) && next == ppl.focus.nn
          && StepResult(kfSrch, key, Keys(), c0, ppl.Done(), r)
          && if r.Some? then ppl.Returned()
             else
               Pending(ppl.fs, ppl.focus, ppl.current_idx) < pend
               || (Pending(ppl.fs, ppl.focus, ppl.current_idx) == pend && |ppl.ppn| < len)
    }

    /** One turn of the search: return a key of the current node, or go down, or
        go up and perhaps return the parent's key. */
    method Advance(nn: nat, key: Option<K>, ppl: PAList<K>) returns (next: nat, r: Option<K>)
      requires Shown(tree) && Rooted(uiOrder, tree, height) && uiOrder >= MIN_ORDER
      requires TotalPreorder(kfSrch) && Sorted(kfSrch, Keys())
      requires ppl.begun && ppl.On(tree) && nn == ppl.focus.nn
      modifies file, ppl
      ensures Shown(tree) && D() == old(D())
      ensures Turn(key, ppl, old(ppl.Done()), old(Pending(ppl.fs, ppl.focus, ppl.current_idx)), |old(ppl.ppn)|, next, r)
    {
      var n, i, match_ := Visit(nn, key, ppl);
      if n.child[i] != 0 {
        next, r := n.child[i], None;
        TurnDown(n, i, key, ppl);
      } else if match_ {
        next, r := nn, Some(n.key[i]);
        TurnHere(n, i, key, ppl);
      } else {
        next, r := TurnUp(i, key, ppl);
      }
    }

    method TurnDown(n: BtNode<K>, i: nat, key: Option<K>, ppl: PAList<K>)
      requires Rooted(uiOrder, tree, height) && uiOrder >= MIN_ORDER && ppl.begun && ppl.On(tree)
      requires Shows(uiOrder, n, ppl.focus) && ppl.current_idx <= i <= |ppl.focus.keys| && ppl.focus.kids[i].Node?
      requires n.child[i] != 0 && ppl.Done() <= Consumed(ppl.fs, ppl.focus, i)
      requires NoHit(kfSrch, key, Keys(), ppl.Done(), Consumed(ppl.fs, ppl.focus, i))
      modifies ppl
      ensures Turn(key, ppl, old(ppl.Done()), old(Pending(ppl.fs, ppl.focus, ppl.current_idx)), |old(ppl.ppn)|, n.child[i], None)
    {
      GoDown(n, i, ppl);
    }

    method TurnHere(n: BtNode<K>, i: nat, key: Option<K>, ppl: PAList<K>)
      requires ppl.begun && ppl.On(tree) && Shows(uiOrder, n, ppl.focus)
      requires ppl.current_idx <= i < |ppl.focus.keys| && ppl.focus.kids[i].Nil? && Hit(kfSrch, key, ppl.focus.keys[i])
      requires ppl.Done() <= Consumed(ppl.fs, ppl.focus, i)
      requires NoHit(kfSrch, key, Keys(), ppl.Done(), Consumed(ppl.fs, ppl.focus, i))
      modifies ppl
      ensures Turn(key, ppl, old(ppl.Done()), old(Pending(ppl.fs, ppl.focus, ppl.current_idx)), |old(ppl.ppn)|, n.nn, Some(n.key[i]))
    {
      HereResult(kfSrch, key, ppl.fs, ppl.focus, ppl.current_idx, i);
      ppl.current_node := n.nn;
      ppl.current_idx := i + 1;
    }

    method TurnUp(i: nat, key: Option<K>, ppl: PAList<K>) returns (next: nat, r: Option<K>)
      requires Shown(tree) && Rooted(uiOrder, tree, height) && uiOrder >= MIN_ORDER && ppl.begun && ppl.On(tree)
      requires TotalPreorder(kfSrch) && Sorted(kfSrch, Keys())
      requires i < |ppl.focus.keys| ==> key.Some? && kfSrch(ppl.focus.keys[i], key.value) > 0
      requires i <= |ppl.focus.keys| ==> ppl.focus.kids[i].Nil?
      requires ppl.Done() <= Consumed(ppl.fs, ppl.focus, i)
      requires NoHit(kfSrch, key, Keys(), ppl.Done(), Consumed(ppl.fs, ppl.focus, i))
      modifies file, ppl
      ensures Shown(tree) && D() == old(D())
      ensures Turn(key, ppl, old(ppl.Done()), old(Pending(ppl.fs, ppl.focus, ppl.current_idx)), |old(ppl.ppn)|, next, r)
    {
      ghost var q := LeafDone(i, key, ppl);
      next, r := LeaveNode(key, ppl, ppl.Done(), q);
    }

    /** Up from a node whose keys have been gone past, all of them. */
    method LeaveNode(key: Option<K>, ppl: PAList<K>, ghost c0: nat, ghost q: nat) returns (next: nat, r: Option<K>)
      requires Shown(tree) && Rooted(uiOrder, tree, height) && uiOrder >= MIN_ORDER && ppl.begun && ppl.On(tree)
      requires q == |Before(ppl.fs)| + |InOrder(ppl.focus)| && c0 <= q && NoHit(kfSrch, key, Keys(), c0, q)
      requires ppl.fs == [] ==> q == |Keys()|
      modifies file, ppl
      ensures Shown(tree) && D() == old(D())
      ensures Turn(key, ppl, c0, old(Pending(ppl.fs, ppl.focus, ppl.current_idx)), |old(ppl.ppn)|, next, r)
    {
      next, r := GoUp(key, ppl);
      if next != 0 {
        StepThen(kfSrch, key, Keys(), c0, q, ppl.Done(), r);
      }
      TurnIs(key, ppl, c0, old(Pending(ppl.fs, ppl.focus, ppl.current_idx)), |old(ppl.ppn)|, next, r);
    }

    /** The leaf is done with: none of its keys from the place of the cursor on is a hit. */
    lemma LeafDone(i: nat, key: Option<K>, ppl: PAList<K>) returns (q: nat)
      requires ppl.begun && ppl.On(tree) && TotalPreorder(kfSrch) && Sorted(kfSrch, Keys())
      requires i < |ppl.focus.keys| ==> key.Some? && kfSrch(ppl.focus.keys[i], key.value) > 0
      requires i <= |ppl.focus.keys| ==> ppl.focus.kids[i].Nil?
      requires ppl.Done() <= Consumed(ppl.fs, ppl.focus, i)
      requires NoHit(kfSrch, key, Keys(), ppl.Done(), Consumed(ppl.fs, ppl.focus, i))
      ensures q == |Before(ppl.fs)| + |InOrder(ppl.focus)| && ppl.Done() <= q && NoHit(kfSrch, key, Keys(), ppl.Done(), q)
      ensures ppl.fs == [] ==> q == |Keys()|
    {
      q := |Before(ppl.fs)| + |InOrder(ppl.focus)|;
      LeafSkips(kfSrch, ppl.fs, ppl.focus, i, key);
      ConsumedBound(ppl.fs, ppl.focus, i);
    }

    lemma TurnIs(key: Option<K>, ppl: PAList<K>, c0: nat, pend: nat, len: nat, next: nat, r: Option<K>)
      requires next == 0 ==> r.None? && NoHit(kfSrch, key, Keys(), c0, |Keys()|)
      requires next != 0 ==>
                 && ppl.begun && ppl.On(tree) && next == ppl.focus.nn
                 && StepResult(kfSrch, key, Keys(), c0, ppl.Done(), r) && (r.Some? ==> ppl.Returned())
      requires next != 0 ==> Pending(ppl.fs, ppl.focus, ppl.current_idx) <= pend && |ppl.ppn| < len
      ensures Turn(key, ppl, c0, pend, len, next, r)
    {
    }

    method TakeTurn(nn: nat, key: Option<K>, ppl: PAList<K>, ghost c0: nat, ghost pend: nat, ghost len: nat)
      returns (next: nat, r: Option<K>, ghost pend': nat, ghost len': nat)
      requires Shown(tree) && Rooted(uiOrder, tree, height) && uiOrder >= MIN_ORDER
      requires TotalPreorder(kfSrch) && Sorted(kfSrch, Keys())
      requires Turn(key, ppl, c0, pend, len, nn, None) && nn != 0
      modifies file, ppl
      ensures Shown(tree) && D() == old(D())
      ensures Turn(key, ppl, c0, pend', len', next, r)
      ensures next == 0 || r.Some? || pend' < pend || (pend' == pend && len' < len)
    {
      assert Study(0);
      ghost var c1 := ppl.Done();
      pend', len' := Pending(ppl.fs, ppl.focus, ppl.current_idx), |ppl.ppn|;
      next, r := Advance(nn, key, ppl);
      if next != 0 {
        StepThen(kfSrch, key, Keys(), c0, c1, ppl.Done(), r);
      }
    }

    /** Search on from the cursor: return the next key that matches, any key if
        none is given, and leave the cursor after it. */
    method Lookup(key: Option<K>, ppl: PAList<K>) returns (r: Option<K>)
      requires Valid() && ppl.On(tree)
      modifies this`bteLastError, file, ppl
      ensures Valid() && D() == old(D())
      ensures bteLastError == if fOpen && nnHead != 0 then NoError else NotOpen
      ensures fOpen && r.Some? ==>
                && ppl.On(tree) && ppl.Returned()
                && StepResult(kfSrch, key, Keys(), old(ppl.Done()), ppl.Done(), r)
      ensures fOpen && r.None? ==> NoHit(kfSrch, key, Keys(), old(ppl.Done()), |Keys()|)
      ensures !fOpen ==> r.None? && unchanged(ppl)
    {
      r := None;
      NoRoot(uiOrder, tree, height);
      if !fOpen || nnHead == 0 {
        bteLastError := NotOpen;
        return;
      }
      bteLastError := NoError;
      CoarserSorted(kfIns, kfSrch, Keys());
      r := Search(key, ppl);
    }

    method Search(key: Option<K>, ppl: PAList<K>) returns (r: Option<K>)
      requires Valid() && ppl.On(tree) && nnHead != 0 && Sorted(kfSrch, Keys())
      modifies file, ppl
      ensures Shown(tree) && D() == old(D())
      ensures r.Some? ==>
                && ppl.On(tree) && ppl.Returned()
                && StepResult(kfSrch, key, Keys(), old(ppl.Done()), ppl.Done(), r)
      ensures r.None? ==> NoHit(kfSrch, key, Keys(), old(ppl.Done()), |Keys()|)
    {
      r := None;
      var nn;
      ghost var c0, pend, len := ppl.Done(), 0, 0;
      nn, pend, len := Begin(key, ppl);
      while nn != 0 && r.None?
        invariant Shown(tree) && D() == old(D())
        invariant Turn(key, ppl, c0, pend, len, nn, r)
        decreases nn != 0 && r.None?, pend, len
        modifies file, ppl
      {
        nn, r, pend, len := TakeTurn(nn, key, ppl, c0, pend, len);
      }
      assert Study(0);
    }

    /** Where a search starts: at the current node if the list has parents, or
        else at the root. */
    method Begin(key: Option<K>, ppl: PAList<K>) returns (nn: nat, ghost pend: nat, ghost len: nat)
      requires Valid() && ppl.On(tree) && nnHead != 0
      modifies ppl
      ensures nn != 0 && Turn(key, ppl, old(ppl.Done()), pend, len, nn, None)
    {
      NoRoot(uiOrder, tree, height);
      nn := if |ppl.ppn| >= 2 then ppl.current_node else nnHead;
      ppl.fSearched := true;
      if !ppl.begun {
        ppl.begun, ppl.fs, ppl.focus := true, [], tree;
        Edges(tree.keys, tree.kids);
      }
      ConsumedGrows(ppl.fs, ppl.focus, ppl.current_idx, ppl.current_idx);
      pend, len := Pending(ppl.fs, ppl.focus, ppl.current_idx), |ppl.ppn| + 1;
    }

    /** Remove the very key that the last search with this list returned. */
    method RemoveP(ppl: PAList<K>) returns (rc: int)
      requires Valid() && ppl.On(tree) && ppl.Returned()
      modifies this`nnHead, this`nnFree, this`free, this`tree, this`height, this`cKeys, this`bteLastError, file
      ensures Valid() && rc == 1 && bteLastError == NoError
      ensures 0 < old(ppl.Done()) <= |old(Keys())| && Keys() == DelAt(old(Keys()), old(ppl.Done()) - 1)
    {
      ghost var c := ppl.Done();
      bteLastError := NoError;
      var bnNode;
      ghost var h;
      bnNode, h := ReadCursor(ppl);
      ghost var p := RemoveHere(bnNode, Numbers(ppl.ppn), ppl.current_idx - 1, ppl.fs, ppl.focus, h);
      rc := 1;
    }

    method ReadCursor(ppl: PAList<K>) returns (n: BtNode<K>, ghost h: nat)
      requires Valid() && ppl.On(tree) && ppl.Returned()
      modifies file
      ensures Valid() && D() == old(D())
      ensures Path(uiOrder, tree, n.nn, Numbers(ppl.ppn), ppl.fs, ppl.focus, h) && Shows(uiOrder, n, ppl.focus)
      ensures ppl.Done() == KeyPos(ppl.fs, ppl.focus, ppl.current_idx - 1) + 1
    {
      h := CursorPath(uiOrder, tree, height, ppl.ppn, ppl.fs, ppl.focus);
      FocusShown(uiOrder, D(), ppl.fs, ppl.focus);
      ghost var s, q := KeyAt(ppl.fs, ppl.focus, ppl.current_idx - 1);
      n := GetNode(ppl.current_node, tree, Nil, 0);
    }

    /** All that a search with a fresh list returns, up to its first failure. */
    method LookupAll(key: Option<K>) returns (out: seq<K>)
      requires Valid() && fOpen
      modifies this`bteLastError, file
      ensures Valid() && D() == old(D())
      ensures out == Hits(kfSrch, key, Keys())
    {
      var ppl := new PAList<K>(0);
      var r := Lookup(key, ppl);
      out := [];
      ghost var s, c := Keys(), 0;
      assert s[..0] == [] && s[..|s|] == s;
      while r.Some?
        invariant Valid() && D() == old(D()) && Keys() == s && fresh(ppl)
        invariant c <= |s| && out == Hits(kfSrch, key, s[..c])
        invariant r.Some? ==> ppl.On(tree) && StepResult(kfSrch, key, s, c, ppl.Done(), r)
        invariant r.None? ==> NoHit(kfSrch, key, s, c, |s|)
        decreases |s| - c, r.Some?
        modifies this`bteLastError, file, ppl
      {
        out := out + [r.value];
        r, c := LookupNext(key, ppl, r.value, c, s);
      }
      HitsSkip(kfSrch, key, s, c, |s|);
    }

    /** The search that follows the one which found k. */
    method LookupNext(key: Option<K>, ppl: PAList<K>, ghost k: K, ghost c: nat, ghost s: seq<K>) returns (r: Option<K>, ghost done: nat)
      requires Valid() && fOpen && ppl.On(tree) && s == Keys() && StepResult(kfSrch, key, s, c, ppl.Done(), Some(k))
      modifies this`bteLastError, file, ppl
      ensures Valid() && D() == old(D()) && c < done <= |s|
      ensures Hits(kfSrch, key, s[..done]) == Hits(kfSrch, key, s[..c]) + [k]
      ensures r.Some? ==> ppl.On(tree) && StepResult(kfSrch, key, s, done, ppl.Done(), r)
      ensures r.None? ==> NoHit(kfSrch, key, s, done, |s|)
    {
      done := ppl.Done();
      HitsStep(kfSrch, key, s, c, done, k);
      r := Lookup(key, ppl);
    }

    // ------------------------------------------------------------ what always holds

    /** Every block but the header's is a node of the tree or on the free list,
        and is so once. */
    lemma Partition(n: nat)
      requires Valid()
      ensures Cnt(tree, n) + CntSeq(free, n) == if 1 <= n < nnHighNode then 1 else 0
    {
      assert Look(0);
      assert Uses(tree, Nil, 0, free, n) == Cnt(tree, n) + CntSeq(free, n);
    }

    /** A search may look one child slot past the last child of any node: that slot,
        and every other one beyond the children, is zero. */
    lemma SlotsZero(fs: seq<Frame<K>>, t: Tree<K>, i: nat)
      requires Valid() && AllFormed(fs) && PlugAll(fs, t) == tree && t.Node? && |t.keys| < i <= uiOrder
      ensures 0 < t.nn < nnHighNode && D()[t.nn].usKeys == |t.keys| && |D()[t.nn].child| == uiOrder + 1
      ensures D()[t.nn].child[i] == 0
    {
      FocusShown(uiOrder, D(), fs, t);
    }

    /** A descent to any node of the tree reads no more than 1 + log base uiOrder/2 of
        (N+1)/2 nodes, where N is the number of keys. */
    lemma DescentBound(fs: seq<Frame<K>>, t: Tree<K>, nodes: nat)
      requires Valid() && AllFormed(fs) && PlugAll(fs, t) == tree && t.Node? && nodes == |fs| + 1
      ensures nodes <= height && 2 * Pow(uiOrder / 2, nodes - 1) <= cKeys + 1
    {
      var h := PlacedInWhole(uiOrder, fs, t, height);
      PathLength(uiOrder, fs, t, h, height);
    }
  }
}
