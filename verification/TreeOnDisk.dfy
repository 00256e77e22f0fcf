/** Trees shown by the blocks of a file, and the bookkeeping of blocks: which are
    live and which are free. */
module TreeOnDisk {
  import opened Wrappers
  import opened TreeShape
  import opened TreeOps
  import opened NodeImage

  // ---------------------------------------------------------------- shown trees

  /** Every node of the tree is shown by the block of its number. */
  ghost predicate Rep<K>(m: nat, d: seq<DiskNode<K>>, t: Tree<K>) {
    t.Node? ==>
      && 0 < t.nn < |d|
      && Shows(m, Load(t.nn, d[t.nn]), t)
      && forall i :: 0 <= i < |t.kids| ==> Rep(m, d, t.kids[i])
  }

  ghost predicate RepAll<K>(m: nat, d: seq<DiskNode<K>>, kids: seq<Tree<K>>) {
    forall i :: 0 <= i < |kids| ==> Rep(m, d, kids[i])
  }

  /** Rep, and RepAll, with their parts kept out of view. */
  ghost predicate Kept<K>(m: nat, d: seq<DiskNode<K>>, t: Tree<K>) {
    forall u: nat {:trigger Look(u)} :: Look(u) ==> Rep(m, d, t)
  }

  ghost predicate KeptAll<K>(m: nat, d: seq<DiskNode<K>>, kids: seq<Tree<K>>) {
    forall u: nat {:trigger Look(u)} :: Look(u) ==> RepAll(m, d, kids)
  }

  /** d' has the same blocks as d at the nodes of the tree. */
  ghost predicate Same<K>(d: seq<DiskNode<K>>, d': seq<DiskNode<K>>, t: Tree<K>) {
    forall n: nat {:trigger Cnt(t, n)} :: Cnt(t, n) > 0 && n < |d| ==> n < |d'| && d'[n] == d[n]
  }

  ghost predicate SameAll<K>(d: seq<DiskNode<K>>, d': seq<DiskNode<K>>, kids: seq<Tree<K>>) {
    forall n: nat {:trigger CntAll(kids, n)} :: CntAll(kids, n) > 0 && n < |d| ==> n < |d'| && d'[n] == d[n]
  }

  lemma SameKid<K>(d: seq<DiskNode<K>>, d': seq<DiskNode<K>>, kids: seq<Tree<K>>, i: nat)
    requires SameAll(d, d', kids) && i < |kids|
    ensures Same(d, d', kids[i])
  {
    forall n: nat | Cnt(kids[i], n) > 0
      ensures CntAll(kids, n) > 0
    {
      CntAt(kids, i, n);
    }
  }

  lemma {:induction false} RepSame<K>(m: nat, d: seq<DiskNode<K>>, d': seq<DiskNode<K>>, t: Tree<K>)
    requires Rep(m, d, t) && Same(d, d', t)
    ensures Rep(m, d', t)
  {
    if t.Node? {
      assert Cnt(t, t.nn) > 0;
      assert SameAll(d, d', t.kids) by {
        assert forall n: nat {:trigger CntAll(t.kids, n)} :: CntAll(t.kids, n) <= Cnt(t, n);
      }
      forall i | 0 <= i < |t.kids|
        ensures Rep(m, d', t.kids[i])
      {
        SameKid(d, d', t.kids, i);
        RepSame(m, d, d', t.kids[i]);
      }
    }
  }

  lemma RepAllSame<K>(m: nat, d: seq<DiskNode<K>>, d': seq<DiskNode<K>>, kids: seq<Tree<K>>)
    requires RepAll(m, d, kids) && SameAll(d, d', kids)
    ensures RepAll(m, d', kids)
  {
    forall i | 0 <= i < |kids|
      ensures Rep(m, d', kids[i])
    {
      SameKid(d, d', kids, i);
      RepSame(m, d, d', kids[i]);
    }
  }

  lemma {:induction false} RepInner<K>(m: nat, d: seq<DiskNode<K>>, fs: seq<Frame<K>>, t: Tree<K>)
    requires AllFormed(fs) && Rep(m, d, PlugAll(fs, t))
    ensures Rep(m, d, t)
  {
    if fs != [] {
      RepInner(m, d, fs[1..], Plug(fs[0], t));
      assert Plug(fs[0], t).kids[fs[0].idx] == t;
    }
  }

  /** d' has the same blocks as d at the nodes of the frames and their siblings. */
  ghost predicate SameFrames<K>(d: seq<DiskNode<K>>, d': seq<DiskNode<K>>, fs: seq<Frame<K>>)
    requires AllFormed(fs)
  {
    forall n: nat {:trigger FrameCnt(fs, n)} :: FrameCnt(fs, n) > 0 && n < |d| ==> n < |d'| && d'[n] == d[n]
  }

  /** Replacing the subtree below the frames by one with the same root number. */
  lemma {:induction false} Refocus<K>(m: nat, d: seq<DiskNode<K>>, d': seq<DiskNode<K>>,
                                      fs: seq<Frame<K>>, t: Tree<K>, t': Tree<K>)
    requires AllFormed(fs) && Rep(m, d, PlugAll(fs, t))
    requires Num(t') == Num(t) && Rep(m, d', t')
    requires SameFrames(d, d', fs)
    ensures Rep(m, d', PlugAll(fs, t'))
  {
    if fs != [] {
      var f := fs[0];
      RepInner(m, d, fs[1..], Plug(f, t));
      var a, b := f.kids[..f.idx], f.kids[f.idx + 1..];
      assert forall n: nat {:trigger CntAll(a, n)} :: CntAll(a, n) <= FrameCnt(fs, n);
      assert forall n: nat {:trigger CntAll(b, n)} :: CntAll(b, n) <= FrameCnt(fs, n);
      assert forall n: nat {:trigger FrameCnt(fs[1..], n)} :: FrameCnt(fs[1..], n) <= FrameCnt(fs, n);
      assert FrameCnt(fs, f.nn) > 0;
      RefocusOne(m, d, d', f, t, t');
      Refocus(m, d, d', fs[1..], Plug(f, t), Plug(f, t'));
    }
  }

  lemma RefocusOne<K>(m: nat, d: seq<DiskNode<K>>, d': seq<DiskNode<K>>, f: Frame<K>, t: Tree<K>, t': Tree<K>)
    requires WellFormed(f) && Rep(m, d, Plug(f, t))
    requires Num(t') == Num(t) && Rep(m, d', t')
    requires SameAll(d, d', f.kids[..f.idx]) && SameAll(d, d', f.kids[f.idx + 1..])
    requires f.nn < |d| ==> f.nn < |d'| && d'[f.nn] == d[f.nn]
    ensures Rep(m, d', Plug(f, t'))
  {
    var p, p' := Plug(f, t), Plug(f, t');
    var a, b := f.kids[..f.idx], f.kids[f.idx + 1..];
    assert forall i :: 0 <= i < |a| ==> a[i] == p.kids[i];
    RepAllSame(m, d, d', a);
    assert forall i :: 0 <= i < |b| ==> b[i] == p.kids[f.idx + 1 + i];
    RepAllSame(m, d, d', b);
    forall i | 0 <= i < |p'.kids|
      ensures Rep(m, d', p'.kids[i])
    {
      if i < f.idx {
        assert p'.kids[i] == a[i];
      } else if i > f.idx {
        assert p'.kids[i] == b[i - f.idx - 1];
      }
    }
  }

  // ---------------------------------------------------------------- the books

  function CntSeq(s: seq<nat>, n: nat): nat {
    if s == [] then 0 else (if s[0] == n then 1 else 0) + CntSeq(s[1..], n)
  }

  /** How often block n is in use: in two trees, as one more block x (0 for none),
      or on the free list. */
  function Uses<K>(a: Tree<K>, b: Tree<K>, x: nat, free: seq<nat>, n: nat): nat {
    Cnt(a, n) + Cnt(b, n) + (if n == x && x != 0 then 1 else 0) + CntSeq(free, n)
  }

  ghost predicate Chain<K>(d: seq<DiskNode<K>>, head: nat, free: seq<nat>)
    decreases free
  {
    if free == [] then head == 0
    else
      && head == free[0] && 0 < head < |d| && d[head].fFree
      && Chain(d, d[head].nnNextFree, free[1..])
  }

  /** The free list is linked, and every block from 1 on is used exactly once. */
  ghost predicate Ledger<K>(d: seq<DiskNode<K>>, a: Tree<K>, b: Tree<K>, x: nat, head: nat, free: seq<nat>) {
    && Chain(d, head, free)
    && forall n: nat {:trigger Uses(a, b, x, free, n)} :: Uses(a, b, x, free, n) == if 1 <= n < |d| then 1 else 0
  }

  /** Ledger, with its parts kept out of view. */
  ghost predicate Books<K>(d: seq<DiskNode<K>>, a: Tree<K>, b: Tree<K>, x: nat, head: nat, free: seq<nat>) {
    forall u: nat {:trigger Look(u)} :: Look(u) ==> Ledger(d, a, b, x, head, free)
  }

  /** Block n is live. */
  predicate Live<K>(a: Tree<K>, b: Tree<K>, x: nat, n: nat) {
    n != 0 && (n == x || Cnt(a, n) + Cnt(b, n) > 0)
  }

  lemma {:induction false} ChainSame<K>(d: seq<DiskNode<K>>, d': seq<DiskNode<K>>, head: nat, free: seq<nat>)
    requires Chain(d, head, free)
    requires |d'| >= |d| && forall n: nat {:trigger CntSeq(free, n)} :: n < |d| && CntSeq(free, n) > 0 ==> d'[n] == d[n]
    ensures Chain(d', head, free)
    decreases free
  {
    if free != [] {
      assert CntSeq(free, head) > 0;
      assert forall n: nat {:trigger CntSeq(free[1..], n)} :: CntSeq(free[1..], n) <= CntSeq(free, n);
      ChainSame(d, d', d[head].nnNextFree, free[1..]);
    }
  }

  lemma LiveBlock<K>(d: seq<DiskNode<K>>, a: Tree<K>, b: Tree<K>, x: nat, head: nat, free: seq<nat>, n: nat)
    requires Books(d, a, b, x, head, free) && Live(a, b, x, n)
    ensures 0 < n < |d|
  {
    assert Look(0);
    assert Uses(a, b, x, free, n) > 0;
  }

  /** Writing a live block. */
  lemma BooksPut<K>(d: seq<DiskNode<K>>, d': seq<DiskNode<K>>, a: Tree<K>, b: Tree<K>, x: nat,
                    head: nat, free: seq<nat>, n: nat)
    requires Books(d, a, b, x, head, free) && Live(a, b, x, n)
    requires |d'| == |d| && forall k :: 0 <= k < |d| && k != n ==> d'[k] == d[k]
    ensures Books(d', a, b, x, head, free)
  {
    assert Look(0);
    assert Uses(a, b, x, free, n) > CntSeq(free, n);
    ChainSame(d, d', head, free);
  }

  /** A different account of the same live blocks. */
  lemma BooksSame<K>(d: seq<DiskNode<K>>, a: Tree<K>, b: Tree<K>, x: nat, head: nat, free: seq<nat>,
                     a': Tree<K>, b': Tree<K>, x': nat)
    requires Books(d, a, b, x, head, free)
    requires forall n: nat {:trigger Uses(a', b', x', free, n)} :: Uses(a', b', x', free, n) == Uses(a, b, x, free, n)
    ensures Books(d, a', b', x', head, free)
  {
    assert Look(0);
  }

  lemma NoneFree<K>(d: seq<DiskNode<K>>, a: Tree<K>, b: Tree<K>, x: nat, free: seq<nat>)
    requires Books(d, a, b, x, 0, free)
    ensures free == []
  {
    assert Look(0);
  }

  lemma TakeFree<K>(d: seq<DiskNode<K>>, a: Tree<K>, b: Tree<K>, head: nat, free: seq<nat>)
    requires Books(d, a, b, 0, head, free) && head != 0
    ensures free != [] && free[0] == head && head < |d|
    ensures Books(d, a, b, head, d[head].nnNextFree, free[1..])
    ensures !Live(a, b, 0, head)
  {
    assert Look(0);
    assert Uses(a, b, 0, free, head) == Cnt(a, head) + Cnt(b, head) + 1 + CntSeq(free[1..], head);
    forall n: nat
      ensures Uses(a, b, head, free[1..], n) == Uses(a, b, 0, free, n)
    {
    }
  }

  lemma TakeFresh<K>(d: seq<DiskNode<K>>, d': seq<DiskNode<K>>, a: Tree<K>, b: Tree<K>, free: seq<nat>, head: nat)
    requires Books(d, a, b, 0, head, free) && |d| >= 1
    requires |d'| == |d| + 1 && forall k :: 0 <= k < |d| ==> d'[k] == d[k]
    ensures Books(d', a, b, |d|, head, free)
    ensures !Live(a, b, 0, |d|)
  {
    assert Look(0);
    assert Uses(a, b, 0, free, |d|) == 0;
    ChainSame(d, d', head, free);
    forall n: nat
      ensures Uses(a, b, |d|, free, n) == Uses(a, b, 0, free, n) + if n == |d| then 1 else 0
    {
    }
  }

  /** Linking a live block into the free list. */
  lemma GiveBack<K>(d: seq<DiskNode<K>>, d': seq<DiskNode<K>>, a: Tree<K>, b: Tree<K>, x: nat,
                    head: nat, free: seq<nat>)
    requires Books(d, a, b, x, head, free) && x != 0
    requires |d'| == |d| && forall k :: 0 <= k < |d| && k != x ==> d'[k] == d[k]
    requires x < |d| ==> d'[x].fFree && d'[x].nnNextFree == head
    ensures Books(d', a, b, 0, x, [x] + free)
  {
    LiveBlock(d, a, b, x, head, free, x);
    BooksPut(d, d', a, b, x, head, free, x);
    assert Look(0);
    var f := [x] + free;
    assert f[1..] == free;
    forall n: nat
      ensures Uses(a, b, 0, f, n) == Uses(a, b, x, free, n)
    {
    }
  }

  // ---------------------------------------------------------------- reading

  /** In a tree without repeated numbers, a child's number finds the child. */
  lemma ChildOnce<K>(kids: seq<Tree<K>>, i: nat, j: nat)
    requires i < j < |kids| && kids[i].Node? && kids[j].Node? && Num(kids[i]) == Num(kids[j])
    ensures CntAll(kids, Num(kids[i])) >= 2
  {
    CntAt(kids, j, Num(kids[i]));
    CntAt(kids[..j], i, Num(kids[i]));
  }

  /** What the block of the focused node shows. */
  lemma FocusShown<K>(m: nat, d: seq<DiskNode<K>>, fs: seq<Frame<K>>, t: Tree<K>)
    requires AllFormed(fs) && Kept(m, d, PlugAll(fs, t)) && t.Node?
    ensures 0 < t.nn < |d| && Shows(m, Load(t.nn, d[t.nn]), t) && KeptAll(m, d, t.kids)
  {
    assert Look(0);
    RepInner(m, d, fs, t);
  }

  lemma FocusLive<K>(fs: seq<Frame<K>>, t: Tree<K>, b: Tree<K>, x: nat)
    requires AllFormed(fs) && t.Node? && t.nn != 0
    ensures Live(PlugAll(fs, t), b, x, t.nn)
  {
    PlugAllCnt(fs, t, t.nn);
  }

  /** The focused node numbers its children apart. */
  lemma FocusApart<K>(d: seq<DiskNode<K>>, fs: seq<Frame<K>>, t: Tree<K>, b: Tree<K>, x: nat,
                      head: nat, free: seq<nat>, n: nat)
    requires AllFormed(fs) && t.Node? && Books(d, PlugAll(fs, t), b, x, head, free)
    ensures CntAll(t.kids, n) <= 1
  {
    assert Look(0);
    PlugAllCnt(fs, t, n);
    assert Uses(PlugAll(fs, t), b, x, free, n) <= 1;
  }

  // ---------------------------------------------------------------- writing

  /** A change of a block that is no node of the tree. */
  lemma KeptElse<K>(m: nat, d: seq<DiskNode<K>>, d': seq<DiskNode<K>>, t: Tree<K>, nn: nat)
    requires Kept(m, d, t) && Cnt(t, nn) == 0
    requires |d'| >= |d| && forall k :: 0 <= k < |d| && k != nn ==> d'[k] == d[k]
    ensures Kept(m, d', t)
  {
    assert Look(0);
    RepSame(m, d, d', t);
  }

  lemma KeptAllElse<K>(m: nat, d: seq<DiskNode<K>>, d': seq<DiskNode<K>>, kids: seq<Tree<K>>, nn: nat)
    requires KeptAll(m, d, kids) && CntAll(kids, nn) == 0
    requires |d'| >= |d| && forall k :: 0 <= k < |d| && k != nn ==> d'[k] == d[k]
    ensures KeptAll(m, d', kids)
  {
    assert Look(0);
    RepAllSame(m, d, d', kids);
  }

  /** Writing a node whose children are all shown. */
  lemma KeptNode<K>(m: nat, d: seq<DiskNode<K>>, d': seq<DiskNode<K>>, n: BtNode<K>, t: Tree<K>)
    requires m < 0x1_0000 && Shows(m, n, t) && KeptAll(m, d, t.kids) && CntAll(t.kids, n.nn) == 0
    requires 0 < n.nn < |d'| && d'[n.nn] == Store(n)
    requires |d'| >= |d| && forall k :: 0 <= k < |d| && k != n.nn ==> d'[k] == d[k]
    ensures Kept(m, d', t)
  {
    KeptAllElse(m, d, d', t.kids, n.nn);
    assert Look(0);
  }

  /** Writing the focused node, whose new children are all shown already; a
      separate tree b, or its children, stay shown. */
  lemma WriteFocus<K>(m: nat, d: seq<DiskNode<K>>, d': seq<DiskNode<K>>, fs: seq<Frame<K>>, t: Tree<K>,
                      n: BtNode<K>, t': Tree<K>, b: Tree<K>, x: nat, head: nat, free: seq<nat>)
    requires m < 0x1_0000 && AllFormed(fs) && Kept(m, d, PlugAll(fs, t))
    requires Num(t) == n.nn != 0 && Shows(m, n, t') && KeptAll(m, d, t'.kids)
    requires n.nn < |d| && d' == d[n.nn := Store(n)]
    requires Books(d, PlugAll(fs, t'), b, x, head, free)
    ensures Kept(m, d', PlugAll(fs, t')) && Books(d', PlugAll(fs, t'), b, x, head, free)
    ensures Num(PlugAll(fs, t')) == Num(PlugAll(fs, t))
    ensures Kept(m, d, b) ==> Kept(m, d', b)
    ensures b.Node? && KeptAll(m, d, b.kids) ==> KeptAll(m, d', b.kids)
  {
    assert Look(0);
    PlugAllCnt(fs, t', n.nn);
    assert Uses(PlugAll(fs, t'), b, x, free, n.nn) == 1;
    KeptNode(m, d, d', n, t');
    Refocus(m, d, d', fs, t, t');
    BooksPut(d, d', PlugAll(fs, t'), b, x, head, free, n.nn);
    PlugAllNum(fs, t, t');
    if Kept(m, d, b) {
      KeptElse(m, d, d', b, n.nn);
    }
    if b.Node? && KeptAll(m, d, b.kids) {
      KeptAllElse(m, d, d', b.kids, n.nn);
    }
  }

  /** Writing the root of the separate tree b. */
  lemma WriteOther<K>(m: nat, d: seq<DiskNode<K>>, d': seq<DiskNode<K>>, a: Tree<K>, n: BtNode<K>, b: Tree<K>,
                      x: nat, head: nat, free: seq<nat>)
    requires m < 0x1_0000 && Kept(m, d, a) && Shows(m, n, b) && KeptAll(m, d, b.kids)
    requires 0 < n.nn < |d| && d' == d[n.nn := Store(n)]
    requires Books(d, a, b, x, head, free)
    ensures Kept(m, d', a) && Kept(m, d', b) && Books(d', a, b, x, head, free)
  {
    assert Look(0);
    assert Uses(a, b, x, free, n.nn) == 1;
    KeptElse(m, d, d', a, n.nn);
    KeptNode(m, d, d', n, b);
    BooksPut(d, d', a, b, x, head, free, n.nn);
  }

  // ---------------------------------------------------------------- insertion

  /** Inserting r beside a child moves r into the tree; nothing is lost. */
  lemma InsertedBooks<K>(d: seq<DiskNode<K>>, fs: seq<Frame<K>>, t: Tree<K>, pos: nat, x: K, r: Tree<K>,
                         head: nat, free: seq<nat>)
    requires AllFormed(fs) && t.Node? && |t.kids| == |t.keys| + 1 && pos <= |t.keys|
    requires Books(d, PlugAll(fs, t), r, 0, head, free)
    ensures Books(d, PlugAll(fs, Inserted(t.nn, t.keys, t.kids, pos, x, r)), Nil, 0, head, free)
  {
    var t' := Inserted(t.nn, t.keys, t.kids, pos, x, r);
    forall n: nat
      ensures Uses(PlugAll(fs, t'), Nil, 0, free, n) == Uses(PlugAll(fs, t), r, 0, free, n)
    {
      PlugAllCnt(fs, t, n);
      PlugAllCnt(fs, t', n);
      InsertedCnt(t, pos, x, r, n);
    }
    BooksSame(d, PlugAll(fs, t), r, 0, head, free, PlugAll(fs, t'), Nil, 0);
  }

  lemma InsertedKept<K>(m: nat, d: seq<DiskNode<K>>, fs: seq<Frame<K>>, t: Tree<K>, pos: nat, x: K, r: Tree<K>)
    requires AllFormed(fs) && Kept(m, d, PlugAll(fs, t)) && Kept(m, d, r)
    requires t.Node? && |t.kids| == |t.keys| + 1 && pos <= |t.keys|
    ensures KeptAll(m, d, Inserted(t.nn, t.keys, t.kids, pos, x, r).kids)
  {
    assert Look(0);
    RepInner(m, d, fs, t);
  }

  /** A block new to the wide node's tree is new to the tree it grew from. */
  lemma FreshKept<K>(m: nat, d: seq<DiskNode<K>>, d': seq<DiskNode<K>>, fs: seq<Frame<K>>, t: Tree<K>,
                     pos: nat, x: K, r: Tree<K>, nn: nat)
    requires AllFormed(fs) && t.Node? && |t.kids| == |t.keys| + 1 && pos <= |t.keys|
    requires Kept(m, d, PlugAll(fs, t)) && KeptAll(m, d, Inserted(t.nn, t.keys, t.kids, pos, x, r).kids)
    requires Cnt(PlugAll(fs, Inserted(t.nn, t.keys, t.kids, pos, x, r)), nn) == 0
    requires |d'| >= |d| && forall k :: 0 <= k < |d| && k != nn ==> d'[k] == d[k]
    ensures Kept(m, d', PlugAll(fs, t)) && KeptAll(m, d', Inserted(t.nn, t.keys, t.kids, pos, x, r).kids)
  {
    var t' := Inserted(t.nn, t.keys, t.kids, pos, x, r);
    InsertedCnt(t, pos, x, r, nn);
    PlugAllCnt(fs, t, nn);
    PlugAllCnt(fs, t', nn);
    KeptElse(m, d, d', PlugAll(fs, t), nn);
    KeptAllElse(m, d, d', t'.kids, nn);
  }

  /** The books before and after cutting the wide node w in two. */
  lemma SplitBooks<K>(m: nat, d: seq<DiskNode<K>>, fs: seq<Frame<K>>, w: Tree<K>, nr: nat, mid: nat,
                      head: nat, free: seq<nat>)
    requires AllFormed(fs) && w.Node? && |w.kids| == |w.keys| + 1 && mid < |w.keys| && nr != 0
    requires Books(d, PlugAll(fs, w), Nil, nr, head, free) && KeptAll(m, d, w.kids)
    ensures var left, right := LeftHalf(w.nn, w.keys, w.kids, mid), RightHalf(nr, w.keys, w.kids, mid);
            && Books(d, PlugAll(fs, left), right, 0, head, free)
            && KeptAll(m, d, left.kids) && KeptAll(m, d, right.kids)
  {
    var left, right := LeftHalf(w.nn, w.keys, w.kids, mid), RightHalf(nr, w.keys, w.kids, mid);
    forall n: nat
      ensures Uses(PlugAll(fs, left), right, 0, free, n) == Uses(PlugAll(fs, w), Nil, nr, free, n)
    {
      PlugAllCnt(fs, left, n);
      PlugAllCnt(fs, w, n);
      SplitCnt(w.nn, nr, w.keys, w.kids, mid, n);
    }
    BooksSame(d, PlugAll(fs, w), Nil, nr, head, free, PlugAll(fs, left), right, 0);
    assert KeptAll(m, d, left.kids) && KeptAll(m, d, right.kids) by {
      assert Look(0);
    }
  }

  /** Writing a new root above the left half of a split root. */
  lemma WriteAbove<K>(m: nat, d: seq<DiskNode<K>>, d': seq<DiskNode<K>>, n: BtNode<K>, left: Tree<K>, right: Tree<K>,
                      head: nat, free: seq<nat>)
    requires m < 0x1_0000 && Kept(m, d, left) && Kept(m, d, right)
    requires Shows(m, n, Node(n.nn, [], [left])) && Cnt(left, n.nn) == 0 && Cnt(right, n.nn) == 0
    requires 0 < n.nn < |d| && d' == d[n.nn := Store(n)]
    requires Books(d, left, right, n.nn, head, free)
    ensures Kept(m, d', Node(n.nn, [], [left])) && Kept(m, d', right)
    ensures Books(d', Node(n.nn, [], [left]), right, 0, head, free)
  {
    var root := Node(n.nn, [], [left]);
    assert KeptAll(m, d, [left]) by {
      assert Look(0);
    }
    assert forall k: nat :: CntAll([left], k) == Cnt(left, k) by {
      assert [left][1..] == [];
    }
    KeptNode(m, d, d', n, root);
    KeptElse(m, d, d', right, n.nn);
    BooksPut(d, d', left, right, n.nn, head, free, n.nn);
    BooksSame(d', left, right, n.nn, head, free, root, right, 0);
  }

  /** Books in which the focus keeps its number and children. */
  lemma ReplacedBooks<K>(d: seq<DiskNode<K>>, fs: seq<Frame<K>>, t: Tree<K>, t': Tree<K>, head: nat, free: seq<nat>)
    requires AllFormed(fs) && t.Node? && t'.Node? && t'.nn == t.nn && t'.kids == t.kids
    requires Books(d, PlugAll(fs, t), Nil, 0, head, free)
    ensures Books(d, PlugAll(fs, t'), Nil, 0, head, free)
  {
    forall n: nat
      ensures Uses(PlugAll(fs, t'), Nil, 0, free, n) == Uses(PlugAll(fs, t), Nil, 0, free, n)
    {
      PlugAllCnt(fs, t, n);
      PlugAllCnt(fs, t', n);
    }
    BooksSame(d, PlugAll(fs, t), Nil, 0, head, free, PlugAll(fs, t'), Nil, 0);
  }

  /** A block ready to be the root, in use, is a tree without keys. */
  lemma EmptyRoot<K>(m: nat, d: seq<DiskNode<K>>, nn: nat, head: nat, free: seq<nat>)
    requires Books(d, Nil, Nil, nn, head, free) && 0 < nn < |d| && m > 0
    requires !d[nn].fFree && d[nn].usKeys == 0 && Holds(m, d[nn].child, d[nn].key, [], [Nil])
    ensures Books(d, Node(nn, [], [Nil]), Nil, 0, head, free) && Kept(m, d, Node(nn, [], [Nil]))
    ensures Placed<K>(m, [], Node(nn, [], [Nil]), 1) && InOrder<K>(Node(nn, [], [Nil])) == []
  {
    Edges<K>([], [Nil]);
    var root: Tree<K> := Node(nn, [], [Nil]);
    forall n: nat
      ensures Cnt(root, n) == if n == nn then 1 else 0
    {
      assert CntAll(root.kids, n) == Cnt(root.kids[0], n) + CntAll(root.kids[1..], n);
    }
    BooksSame(d, Nil, Nil, nn, head, free, root, Nil, 0);
    assert Rep(m, d, root.kids[0]);
  }
}
