/** Blocks and books while keys are removed: a key gone from a node, two siblings
    rewritten together with their parent, a subtree given back to the free list. */
module RemoveOnDisk {
  import opened Wrappers
  import opened TreeShape
  import opened TreeOps
  import opened TreeRemove
  import opened NodeImage
  import opened TreeOnDisk

  /** Only the root of the whole tree has the root's number. */
  lemma RootOnly<K>(d: seq<DiskNode<K>>, fs: seq<Frame<K>>, t: Tree<K>, head: nat, free: seq<nat>)
    requires AllFormed(fs) && t.Node? && t.nn != 0 && Books(d, PlugAll(fs, t), Nil, 0, head, free)
    ensures t.nn == Num(PlugAll(fs, t)) <==> fs == []
  {
    assert Look(0);
    assert Uses(PlugAll(fs, t), Nil, 0, free, t.nn) <= 1;
    if fs != [] {
      PlugAllCnt(fs[1..], Plug(fs[0], t), t.nn);
      PlugCnt(fs[0], t, t.nn);
      RootNumber(fs[1..], Plug(fs[0], t));
    }
  }

  lemma {:induction false} RootNumber<K>(fs: seq<Frame<K>>, t: Tree<K>)
    requires AllFormed(fs) && t.Node?
    ensures Num(PlugAll(fs, t)) == t.nn || FrameCnt(fs, Num(PlugAll(fs, t))) > 0
  {
    if fs != [] {
      RootNumber(fs[1..], Plug(fs[0], t));
    }
  }

  /** Taking out a key and a terminal child moves no block. */
  lemma RemovedBooks<K>(m: nat, d: seq<DiskNode<K>>, fs: seq<Frame<K>>, t: Tree<K>, i: nat, head: nat, free: seq<nat>)
    requires AllFormed(fs) && t.Node? && |t.kids| == |t.keys| + 1 && i < |t.keys| && t.kids[i + 1].Nil?
    requires Books(d, PlugAll(fs, t), Nil, 0, head, free) && KeptAll(m, d, t.kids)
    ensures Books(d, PlugAll(fs, Removed(t, i)), Nil, 0, head, free) && KeptAll(m, d, Removed(t, i).kids)
  {
    var t' := Removed(t, i);
    forall n: nat
      ensures Uses(PlugAll(fs, t'), Nil, 0, free, n) == Uses(PlugAll(fs, t), Nil, 0, free, n)
    {
      PlugAllCnt(fs, t, n);
      PlugAllCnt(fs, t', n);
      RemovedCnt(t, i, n);
    }
    BooksSame(d, PlugAll(fs, t), Nil, 0, head, free, PlugAll(fs, t'), Nil, 0);
    assert KeptAll(m, d, t'.kids) by {
      assert Look(0);
    }
  }

  // ---------------------------------------------------------------- siblings

  lemma TwoKids<K>(kids: seq<Tree<K>>, i: nat, j: nat, n: nat)
    requires i < |kids| && j < |kids| && i != j
    ensures Cnt(kids[i], n) + Cnt(kids[j], n) <= CntAll(kids, n)
  {
    var a, b := if i < j then i else j, if i < j then j else i;
    CntAt(kids, b, n);
    CntAt(kids[..b], a, n);
  }

  lemma OwnNumber<K>(t: Tree<K>, n: nat)
    requires n == Num(t) != 0
    ensures Cnt(t, n) > 0
  {
  }

  lemma OneCnt<K>(c: Tree<K>, n: nat)
    ensures CntAll([c], n) == Cnt(c, n)
  {
    assert [c][1..] == [];
  }

  lemma ConsCnt<K>(c: Tree<K>, kids: seq<Tree<K>>, n: nat)
    ensures CntAll([c] + kids, n) == Cnt(c, n) + CntAll(kids, n)
  {
    assert ([c] + kids)[1..] == kids;
  }

  /** Between d and d', no block of the tree below the frames has changed but the
      focus and two of its children. */
  ghost predicate PairChange<K>(d: seq<DiskNode<K>>, d': seq<DiskNode<K>>, fs: seq<Frame<K>>, q: Tree<K>, s: nat)
    requires AllFormed(fs) && q.Node? && s + 1 < |q.kids|
  {
    && |d'| == |d|
    && (forall n: nat {:trigger Cnt(PlugAll(fs, q), n)} :: Cnt(PlugAll(fs, q), n) <= if n == 0 then 0 else 1)
    && forall n: nat {:trigger Cnt(PlugAll(fs, q), n)} ::
         n < |d| && Cnt(PlugAll(fs, q), n) > 0 && n != q.nn && n != Num(q.kids[s]) && n != Num(q.kids[s + 1])
         ==> d'[n] == d[n]
  }

  lemma PairChangeKid<K>(m: nat, d: seq<DiskNode<K>>, d': seq<DiskNode<K>>, fs: seq<Frame<K>>, q: Tree<K>, s: nat, j: nat)
    requires AllFormed(fs) && q.Node? && s + 1 < |q.kids| && PairChange(d, d', fs, q, s)
    requires j < |q.kids| && Rep(m, d, q.kids[j]) && j != s && j != s + 1
    ensures Rep(m, d', q.kids[j])
  {
    forall n: nat | Cnt(q.kids[j], n) > 0 && n < |d|
      ensures d'[n] == d[n]
    {
      PlugAllCnt(fs, q, n);
      TwoKids(q.kids, j, s, n);
      TwoKids(q.kids, j, s + 1, n);
      if n == Num(q.kids[s]) { OwnNumber(q.kids[s], n); }
      if n == Num(q.kids[s + 1]) { OwnNumber(q.kids[s + 1], n); }
    }
    RepSame(m, d, d', q.kids[j]);
  }

  lemma PairChangeOwn<K>(m: nat, d: seq<DiskNode<K>>, d': seq<DiskNode<K>>, fs: seq<Frame<K>>, q: Tree<K>, s: nat, j: nat)
    requires AllFormed(fs) && q.Node? && s + 1 < |q.kids| && PairChange(d, d', fs, q, s)
    requires j == s || j == s + 1
    requires q.kids[j].Node? ==>
               RepAll(m, d, q.kids[j].kids) && 0 < q.kids[j].nn < |d'| && Shows(m, Load(q.kids[j].nn, d'[q.kids[j].nn]), q.kids[j])
    ensures Rep(m, d', q.kids[j])
  {
    var c := q.kids[j];
    if c.Node? {
      forall n: nat | CntAll(c.kids, n) > 0 && n < |d|
        ensures d'[n] == d[n]
      {
        PlugAllCnt(fs, q, n);
        TwoKids(q.kids, s, s + 1, n);
        if n == Num(q.kids[s]) { OwnNumber(q.kids[s], n); }
        if n == Num(q.kids[s + 1]) { OwnNumber(q.kids[s + 1], n); }
      }
      RepAllSame(m, d, d', c.kids);
    }
  }

  lemma PairChangeFrames<K>(d: seq<DiskNode<K>>, d': seq<DiskNode<K>>, fs: seq<Frame<K>>, q: Tree<K>, s: nat)
    requires AllFormed(fs) && q.Node? && s + 1 < |q.kids| && PairChange(d, d', fs, q, s)
    ensures SameFrames(d, d', fs)
  {
    forall n: nat | FrameCnt(fs, n) > 0 && n < |d|
      ensures d'[n] == d[n]
    {
      PlugAllCnt(fs, q, n);
      CntAt(q.kids, s, n);
      CntAt(q.kids, s + 1, n);
      if n == Num(q.kids[s]) { OwnNumber(q.kids[s], n); }
      if n == Num(q.kids[s + 1]) { OwnNumber(q.kids[s + 1], n); }
    }
  }

  /** Two siblings and their parent rewritten. */
  lemma RewritePair<K>(m: nat, d: seq<DiskNode<K>>, d': seq<DiskNode<K>>, fs: seq<Frame<K>>, p: Tree<K>, s: nat,
                       left: Tree<K>, sep: K, right: Tree<K>, q: Tree<K>)
    requires AllFormed(fs) && p.Node? && |p.kids| == |p.keys| + 1 && s < |p.keys| && left.Node?
    requires q == Repaired(p, s, left, sep, right) && Kept(m, d, PlugAll(fs, p))
    requires PairChange(d, d', fs, q, s)
    requires 0 < p.nn < |d'| && Shows(m, Load(p.nn, d'[p.nn]), q)
    requires KeptAll(m, d, left.kids) && 0 < left.nn < |d'| && Shows(m, Load(left.nn, d'[left.nn]), left)
    requires right.Node? ==>
               KeptAll(m, d, right.kids) && 0 < right.nn < |d'| && Shows(m, Load(right.nn, d'[right.nn]), right)
    ensures Kept(m, d', PlugAll(fs, q))
  {
    assert Look(0);
    RepInner(m, d, fs, p);
    PairChangeOwn(m, d, d', fs, q, s, s);
    PairChangeOwn(m, d, d', fs, q, s, s + 1);
    forall j | 0 <= j < |q.kids|
      ensures Rep(m, d', q.kids[j])
    {
      if j != s && j != s + 1 {
        assert q.kids[j] == p.kids[j];
        PairChangeKid(m, d, d', fs, q, s, j);
      }
    }
    PairChangeFrames(d, d', fs, q, s);
    Refocus(m, d, d', fs, p, q);
  }

  /** Siblings that share out the same keys and children use the same blocks. */
  lemma SharedBooks<K(!new)>(m: nat, d: seq<DiskNode<K>>, fs: seq<Frame<K>>, p: Tree<K>, s: nat,
                             left: Tree<K>, sep: K, right: Tree<K>, head: nat, free: seq<nat>)
    requires AllFormed(fs) && p.Node? && |p.kids| == |p.keys| + 1 && s < |p.keys|
    requires Books(d, PlugAll(fs, p), Nil, 0, head, free)
    requires forall n: nat {:trigger Cnt(left, n)} :: Cnt(left, n) + Cnt(right, n) == Cnt(p.kids[s], n) + Cnt(p.kids[s + 1], n)
    ensures Books(d, PlugAll(fs, Repaired(p, s, left, sep, right)), Nil, 0, head, free)
  {
    var q := Repaired(p, s, left, sep, right);
    forall n: nat
      ensures Uses(PlugAll(fs, q), Nil, 0, free, n) == Uses(PlugAll(fs, p), Nil, 0, free, n)
    {
      PlugAllCnt(fs, p, n);
      PlugAllCnt(fs, q, n);
      RepairedCnt(p, s, left, sep, right, n);
      assert Cnt(left, n) >= 0;
    }
    BooksSame(d, PlugAll(fs, p), Nil, 0, head, free, PlugAll(fs, q), Nil, 0);
  }

  // ---------------------------------------------------------------- merging

  /** What a merge leaves of the right sibling: its block, with no child. */
  function Husk<K>(t: Tree<K>): Tree<K>
    requires t.Node?
  {
    Node(t.nn, t.keys, seq(|t.kids|, _ => Nil))
  }

  lemma {:induction false} NilsCnt<K>(k: nat, n: nat)
    ensures CntAll<K>(seq(k, _ => Nil), n) == 0
  {
    if k > 0 {
      assert seq<Tree<K>>(k, _ => Nil)[1..] == seq<Tree<K>>(k - 1, _ => Nil);
      NilsCnt<K>(k - 1, n);
    }
  }

  lemma MergedBooks<K>(d: seq<DiskNode<K>>, fs: seq<Frame<K>>, p: Tree<K>, s: nat, head: nat, free: seq<nat>)
    requires AllFormed(fs) && p.Node? && |p.kids| == |p.keys| + 1 && s < |p.keys|
    requires p.kids[s].Node? && p.kids[s + 1].Node?
    requires Books(d, PlugAll(fs, p), Nil, 0, head, free)
    ensures var left := Merged(p.kids[s], p.keys[s], p.kids[s + 1]);
            Books(d, PlugAll(fs, Repaired(p, s, left, p.keys[s], Nil)), Husk(p.kids[s + 1]), 0, head, free)
  {
    var left, husk := Merged(p.kids[s], p.keys[s], p.kids[s + 1]), Husk(p.kids[s + 1]);
    var q := Repaired(p, s, left, p.keys[s], Nil);
    forall n: nat
      ensures Uses(PlugAll(fs, q), husk, 0, free, n) == Uses(PlugAll(fs, p), Nil, 0, free, n)
    {
      PlugAllCnt(fs, p, n);
      PlugAllCnt(fs, q, n);
      RepairedCnt(p, s, left, p.keys[s], Nil, n);
      MergedCnt(p.kids[s], p.keys[s], p.kids[s + 1], n);
      NilsCnt<K>(|p.kids[s + 1].kids|, n);
    }
    BooksSame(d, PlugAll(fs, p), Nil, 0, head, free, PlugAll(fs, q), husk, 0);
  }

  // ---------------------------------------------------------------- giving back

  lemma DestroyFirst<K>(d: seq<DiskNode<K>>, a: Tree<K>, b: Tree<K>, head: nat, free: seq<nat>)
    requires b.Node? && Books(d, a, b, 0, head, free)
    ensures b.kids[0..] == b.kids && Books(d, a, Node(b.nn, [], b.kids[0..]), 0, head, free)
  {
    BooksSame(d, a, b, 0, head, free, a, Node(b.nn, [], b.kids), 0);
  }

  /** Destroying a node's next child: the other children, and the tree a, are
      for the time being one account. */
  lemma DestroyNext<K>(d: seq<DiskNode<K>>, a: Tree<K>, nn: nat, kids: seq<Tree<K>>, head: nat, free: seq<nat>)
    requires kids != [] && Books(d, a, Node(nn, [], kids), 0, head, free)
    ensures Books(d, Node(nn, [], [a] + kids[1..]), kids[0], 0, head, free)
  {
    var rest: Tree<K> := Node(nn, [], [a] + kids[1..]);
    forall n: nat
      ensures Uses(rest, kids[0], 0, free, n) == Uses(a, Node(nn, [], kids), 0, free, n)
    {
      ConsCnt(a, kids[1..], n);
      assert CntAll(kids, n) == Cnt(kids[0], n) + CntAll(kids[1..], n);
    }
    BooksSame(d, a, Node(nn, [], kids), 0, head, free, rest, kids[0], 0);
  }

  lemma DestroyedNext<K>(d: seq<DiskNode<K>>, a: Tree<K>, nn: nat, kids: seq<Tree<K>>, head: nat, free: seq<nat>)
    requires Books(d, Node(nn, [], [a] + kids), Nil, 0, head, free)
    ensures Books(d, a, Node(nn, [], kids), 0, head, free)
  {
    var rest: Tree<K> := Node(nn, [], [a] + kids);
    forall n: nat
      ensures Uses(a, Node(nn, [], kids), 0, free, n) == Uses(rest, Nil, 0, free, n)
    {
      ConsCnt(a, kids, n);
    }
    BooksSame(d, rest, Nil, 0, head, free, a, Node(nn, [], kids), 0);
  }

  /** The children that are left keep their blocks. */
  lemma DestroyedKept<K>(m: nat, d: seq<DiskNode<K>>, d': seq<DiskNode<K>>, a: Tree<K>, nn: nat, kids: seq<Tree<K>>,
                         head: nat, free: seq<nat>)
    requires kids != [] && Books(d, a, Node(nn, [], kids), 0, head, free) && KeptAll(m, d, kids)
    requires |d'| == |d| && forall n: nat {:trigger Cnt(kids[0], n)} :: n < |d| && Cnt(kids[0], n) == 0 ==> d'[n] == d[n]
    ensures KeptAll(m, d', kids[1..])
  {
    assert Look(0);
    var b: Tree<K> := Node(nn, [], kids);
    forall n: nat | CntAll(kids[1..], n) > 0 && n < |d|
      ensures d'[n] == d[n]
    {
      assert Uses(a, b, 0, free, n) <= 1;
      assert Cnt(b, n) >= CntAll(kids, n) == Cnt(kids[0], n) + CntAll(kids[1..], n);
    }
    RepAllSame(m, d, d', kids[1..]);
  }

  lemma DestroyedAll<K>(d: seq<DiskNode<K>>, a: Tree<K>, nn: nat, head: nat, free: seq<nat>)
    requires Books(d, a, Node(nn, [], []), 0, head, free) && nn != 0
    ensures Books(d, a, Nil, nn, head, free)
  {
    forall n: nat
      ensures Uses(a, Nil, nn, free, n) == Uses(a, Node(nn, [], []), 0, free, n)
    {
      NilsCnt<K>(0, n);
      assert seq<Tree<K>>(0, _ => Nil) == [];
    }
    BooksSame(d, a, Node(nn, [], []), 0, head, free, a, Nil, nn);
  }

  /** An old root that has only one child, and a new one. */
  lemma NewTop<K>(d: seq<DiskNode<K>>, nn: nat, c: Tree<K>, head: nat, free: seq<nat>)
    requires Books(d, Node(nn, [], [c]), Nil, 0, head, free)
    ensures Books(d, c, Node(nn, [], [Nil]), 0, head, free)
  {
    forall n: nat
      ensures Uses(c, Node(nn, [], [Nil]), 0, free, n) == Uses(Node(nn, [], [c]), Nil, 0, free, n)
    {
      OneCnt(c, n);
      OneCnt<K>(Nil, n);
    }
    BooksSame(d, Node(nn, [], [c]), Nil, 0, head, free, c, Node(nn, [], [Nil]), 0);
  }

  // ---------------------------------------------------------------- reading

  lemma KidShown<K>(m: nat, d: seq<DiskNode<K>>, kids: seq<Tree<K>>, i: nat)
    requires KeptAll(m, d, kids) && i < |kids|
    ensures Num(kids[i]) == 0 <==> kids[i].Nil?
    ensures kids[i].Node? ==>
              && 0 < kids[i].nn < |d| && Shows(m, Load(kids[i].nn, d[kids[i].nn]), kids[i])
              && KeptAll(m, d, kids[i].kids)
    ensures Kept(m, d, kids[i])
  {
    assert Look(0);
    assert Rep(m, d, kids[i]);
  }

  lemma SharedKept<K(!new)>(m: nat, d: seq<DiskNode<K>>, to0: Tree<K>, sep0: K, from0: Tree<K>, to: Tree<K>, sep: K,
                            from: Tree<K>, right: bool)
    requires Shared(to0, sep0, from0, to, sep, from, right) && to0.Node? && from0.Node? && to.Node? && from.Node?
    requires KeptAll(m, d, to0.kids) && KeptAll(m, d, from0.kids)
    ensures KeptAll(m, d, to.kids) && KeptAll(m, d, from.kids)
  {
    assert Look(0);
    assert forall c :: c in to0.kids || c in from0.kids ==> Rep(m, d, c);
    assert forall i :: 0 <= i < |to.kids| ==> to.kids[i] in to.kids;
    assert forall i :: 0 <= i < |from.kids| ==> from.kids[i] in from.kids;
  }

  /** The numbers of a node and two of its children are different. */
  lemma PairApart<K>(d: seq<DiskNode<K>>, fs: seq<Frame<K>>, q: Tree<K>, s: nat, b: Tree<K>, head: nat, free: seq<nat>)
    requires AllFormed(fs) && q.Node? && q.nn != 0 && s + 1 < |q.kids| && q.kids[s].Node? && q.kids[s].nn != 0
    requires Books(d, PlugAll(fs, q), b, 0, head, free)
    ensures q.nn != q.kids[s].nn && 0 < q.nn < |d| && 0 < q.kids[s].nn < |d|
    ensures Live(PlugAll(fs, q), b, 0, q.nn) && Live(PlugAll(fs, q), b, 0, q.kids[s].nn)
    ensures q.kids[s + 1].Node? && q.kids[s + 1].nn != 0 ==>
              && q.kids[s + 1].nn != q.nn && q.kids[s + 1].nn != q.kids[s].nn && q.kids[s + 1].nn < |d|
              && Live(PlugAll(fs, q), b, 0, q.kids[s + 1].nn)
    ensures b.Node? && b.nn != 0 ==>
              b.nn != q.nn && b.nn != q.kids[s].nn && b.nn < |d| && Cnt(PlugAll(fs, q), b.nn) == 0
  {
    assert Look(0);
    var l, r := q.kids[s], q.kids[s + 1];
    PlugAllCnt(fs, q, q.nn);
    PlugAllCnt(fs, q, l.nn);
    CntAt(q.kids, s, l.nn);
    CntAt(q.kids, s, q.nn);
    assert Uses(PlugAll(fs, q), b, 0, free, q.nn) == 1;
    assert Uses(PlugAll(fs, q), b, 0, free, l.nn) == 1;
    if r.Node? && r.nn != 0 {
      PlugAllCnt(fs, q, r.nn);
      TwoKids(q.kids, s, s + 1, r.nn);
      assert Uses(PlugAll(fs, q), b, 0, free, r.nn) == 1;
    }
    if b.Node? && b.nn != 0 {
      assert Uses(PlugAll(fs, q), b, 0, free, b.nn) == 1;
    }
  }

  /** Writing the node, one child and perhaps the other, in any order. */
  lemma PairWritten<K>(d: seq<DiskNode<K>>, d': seq<DiskNode<K>>, fs: seq<Frame<K>>, q: Tree<K>, s: nat, gone: nat,
                       head: nat, free: seq<nat>)
    requires AllFormed(fs) && q.Node? && s + 1 < |q.kids|
    requires Books(d', PlugAll(fs, q), Nil, 0, head, free) && Cnt(PlugAll(fs, q), gone) == 0
    requires |d'| == |d|
    requires forall n :: 0 <= n < |d| && n != q.nn && n != Num(q.kids[s]) && n != Num(q.kids[s + 1]) && n != gone ==> d'[n] == d[n]
    ensures PairChange(d, d', fs, q, s)
  {
    assert Look(0);
    assert forall n: nat {:trigger Cnt(PlugAll(fs, q), n)} :: Uses(PlugAll(fs, q), Nil, 0, free, n) >= Cnt(PlugAll(fs, q), n);
  }

  /** Trees of one account have no block in common. */
  lemma HuskApart<K>(d: seq<DiskNode<K>>, a: Tree<K>, b: Tree<K>, head: nat, free: seq<nat>)
    requires Books(d, a, b, 0, head, free)
    ensures forall n: nat {:trigger Cnt(a, n)} :: Cnt(a, n) > 0 ==> Cnt(b, n) == 0
  {
    assert Look(0);
    assert forall n: nat {:trigger Cnt(a, n)} :: Uses(a, b, 0, free, n) <= 1;
  }

  lemma KeptExcept<K>(m: nat, d: seq<DiskNode<K>>, d': seq<DiskNode<K>>, a: Tree<K>, b: Tree<K>)
    requires Kept(m, d, a) && |d'| == |d|
    requires forall n: nat {:trigger Cnt(a, n)} :: Cnt(a, n) > 0 ==> Cnt(b, n) == 0
    requires forall n: nat :: n < |d'| && Cnt(b, n) == 0 ==> d'[n] == d[n]
    ensures Kept(m, d', a)
  {
    assert Look(0);
    RepSame(m, d, d', a);
  }

  lemma NoBlockZero<K>(d: seq<DiskNode<K>>, a: Tree<K>, b: Tree<K>, x: nat, head: nat, free: seq<nat>)
    requires Books(d, a, b, x, head, free)
    ensures Cnt(a, 0) == 0
  {
    assert Look(0);
    assert Uses(a, b, x, free, 0) == 0;
  }

  lemma RepairedShown<K>(m: nat, par: BtNode<K>, p: Tree<K>, s: nat, left: Tree<K>, sep: K, right: Tree<K>)
    requires Shows(m, par, p) && s < |p.keys|
    requires Num(left) == Num(p.kids[s]) && Num(right) == Num(p.kids[s + 1])
    ensures Shows(m, par.(key := par.key[s := sep]), Repaired(p, s, left, sep, right))
  {
  }

  lemma MergedKept<K>(m: nat, d: seq<DiskNode<K>>, left: Tree<K>, sep: K, right: Tree<K>)
    requires left.Node? && right.Node? && KeptAll(m, d, left.kids) && KeptAll(m, d, right.kids)
    ensures KeptAll(m, d, Merged(left, sep, right).kids) && KeptAll(m, d, Husk(right).kids)
    ensures forall n: nat :: Cnt(Husk(right), n) == if n == right.nn then 1 else 0
  {
    assert Look(0);
    forall n: nat
      ensures Cnt(Husk(right), n) == if n == right.nn then 1 else 0
    {
      NilsCnt<K>(|right.kids|, n);
    }
  }

  lemma MergedParent<K>(m: nat, par: BtNode<K>, p: Tree<K>, s: nat, left: Tree<K>)
    requires Shows(m, par, p) && s < |p.keys| && Num(left) == Num(p.kids[s])
    ensures Shows(m, par.(child := par.child[s + 1 := 0]), Repaired(p, s, left, p.keys[s], Nil))
  {
  }

  lemma HuskKept<K>(m: nat, d: seq<DiskNode<K>>, d': seq<DiskNode<K>>, bn: BtNode<K>, husk: Tree<K>)
    requires m < 0x1_0000 && husk.Node? && Shows(m, bn, husk) && KeptAll(m, d, husk.kids)
    requires 0 < bn.nn < |d'| && d'[bn.nn] == Store(bn)
    requires forall n: nat :: Cnt(husk, n) == if n == husk.nn then 1 else 0
    ensures Kept(m, d', husk)
  {
    assert Look(0);
    forall n: nat
      ensures CntAll(husk.kids, n) == 0
    {
      assert Cnt(husk, n) == (if husk.nn == n then 1 else 0) + CntAll(husk.kids, n);
    }
    RepAllSame(m, d, d', husk.kids);
  }
}
