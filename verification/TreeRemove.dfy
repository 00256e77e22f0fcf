/** Taking a key out of a tree: what is left of the keys in order, the shapes a
    tree goes through on the way, and how a node that has become too small is
    evened out with a sibling or merged with it. */
module TreeRemove {
  import opened Wrappers
  import opened TreeShape
  import opened TreeOps

  /** The keys of the whole tree without key i of the focused node. */
  function Rest<K>(fs: seq<Frame<K>>, t: Tree<K>, i: nat): seq<K>
    requires AllFormed(fs) && t.Node? && |t.kids| == |t.keys| + 1 && i < |t.keys|
  {
    (Before(fs) + (Left(t.keys, t.kids, i) + InOrder(t.kids[i])))
    + (Weave(t.keys[i + 1..], t.kids[i + 1..]) + After(fs))
  }

  /** Where key i of the focused node stands among the keys of the whole tree. */
  function KeyPos<K>(fs: seq<Frame<K>>, t: Tree<K>, i: nat): nat
    requires AllFormed(fs) && t.Node? && |t.kids| == |t.keys| + 1 && i < |t.keys|
  {
    |Before(fs)| + |Left(t.keys, t.kids, i)| + |InOrder(t.kids[i])|
  }

  lemma RestIsDelete<K>(fs: seq<Frame<K>>, t: Tree<K>, i: nat) returns (p: nat)
    requires AllFormed(fs) && t.Node? && |t.kids| == |t.keys| + 1 && i < |t.keys|
    ensures p == KeyPos(fs, t, i)
    ensures var s := InOrder(PlugAll(fs, t)); p < |s| && s[p] == t.keys[i] && Rest(fs, t, i) == DelAt(s, p)
  {
    KeyInWhole(fs, t, i);
    p := |Before(fs) + (Left(t.keys, t.kids, i) + InOrder(t.kids[i]))|;
  }

  /** A node without key i and the terminal child right of it. */
  function Removed<K>(t: Tree<K>, i: nat): Tree<K>
    requires t.Node? && |t.kids| == |t.keys| + 1 && i < |t.keys|
  {
    Node(t.nn, DelAt(t.keys, i), DelAt(t.kids, i + 1))
  }

  lemma RemovedInOrder<K>(fs: seq<Frame<K>>, t: Tree<K>, i: nat)
    requires AllFormed(fs) && t.Node? && |t.kids| == |t.keys| + 1 && i < |t.keys| && t.kids[i + 1].Nil?
    ensures InOrder(PlugAll(fs, Removed(t, i))) == Rest(fs, t, i)
  {
    var k, c := DelAt(t.keys, i), DelAt(t.kids, i + 1);
    PlugAllInOrder(fs, Removed(t, i));
    WeaveAt(k, c, i);
    assert k[..i] == t.keys[..i] && c[..i] == t.kids[..i];
    assert k[i..] == t.keys[i + 1..] && [Nil] + c[i + 1..] == t.kids[i + 1..];
    var b, l, r, a := Before(fs), Left(t.keys, t.kids, i) + InOrder(t.kids[i]),
                      Weave(t.keys[i + 1..], t.kids[i + 1..]), After(fs);
    Assoc(b, l, r);
    Assoc(b + l, r, a);
  }

  lemma RemovedCnt<K>(t: Tree<K>, i: nat, n: nat)
    requires t.Node? && |t.kids| == |t.keys| + 1 && i < |t.keys| && t.kids[i + 1].Nil?
    ensures Cnt(Removed(t, i), n) == Cnt(t, n)
  {
    CntAt(t.kids, i + 1, n);
    CntConcat(t.kids[..i + 1], t.kids[i + 2..], n);
  }

  /** A node at its place in a whole tree, filled but for the child right of key
      i, which is terminal: a leaf, or a node two of whose children have just been
      merged into one. */
  ghost predicate Gap<K>(m: nat, fs: seq<Frame<K>>, t: Tree<K>, i: nat, h: nat) {
    forall u: nat {:trigger Look(u)} :: Look(u) ==>
      && h > 0 && Fits(m, fs, h)
      && t.Node? && t.nn != 0 && |t.kids| == |t.keys| + 1 && i < |t.keys| < m
      && (fs != [] ==> |t.keys| >= MinKeys(m))
      && t.kids[i + 1].Nil?
      && (forall j :: 0 <= j < |t.kids| && j != i + 1 ==> Full(m, t.kids[j], h - 1))
  }

  lemma LeafGap<K>(m: nat, fs: seq<Frame<K>>, t: Tree<K>, i: nat, h: nat)
    requires Placed(m, fs, t, h) && t.Node? && |t.kids| == |t.keys| + 1 && i < |t.keys| && t.kids[i + 1].Nil?
    ensures Gap(m, fs, t, i, h)
  {
    PlacedParts(m, fs, t, h);
  }

  /** The two situations in which a key is to go: a node of a whole tree, or a
      node with a gap right of the key. */
  lemma RemoveCase<K>(m: nat, fs: seq<Frame<K>>, t: Tree<K>, i: nat, h: nat)
    requires t.Node? && |t.kids| == |t.keys| + 1 && i < |t.keys|
    requires Placed(m, fs, t, h) || Gap(m, fs, t, i, h)
    ensures t.nn != 0 && (Num(t.kids[i + 1]) == 0 <==> t.kids[i + 1].Nil?)
    ensures if t.kids[i + 1].Nil? then Gap(m, fs, t, i, h) else Placed(m, fs, t, h)
  {
    assert Look(0);
    if Placed(m, fs, t, h) {
      KidNumber(m, fs, t, h, i + 1);
      if t.kids[i + 1].Nil? {
        LeafGap(m, fs, t, i, h);
      }
    }
  }

  /** A whole tree again, if the node is left with enough keys. */
  lemma RemovedWhole<K>(m: nat, fs: seq<Frame<K>>, t: Tree<K>, i: nat, h: nat)
    requires m >= MIN_ORDER && Gap(m, fs, t, i, h) && t.Node? && |t.kids| == |t.keys| + 1 && i < |t.keys|
    requires |t.keys| - 1 >= MinKeys(m) || (fs == [] && |t.keys| >= 2)
    ensures Rooted(m, PlugAll(fs, Removed(t, i)), h + |fs|)
  {
    var t' := Removed(t, i);
    assert Fits(m, fs, h) && h > 0 && t'.nn != 0 && |t'.keys| < m by {
      assert Look(0);
    }
    assert AllFull(m, t'.kids, h - 1) by {
      assert Look(0);
      forall j | 0 <= j < |t'.kids|
        ensures Full(m, t'.kids[j], h - 1)
      {
        assert t'.kids[j] == t.kids[if j < i + 1 then j else j + 1];
      }
    }
    assert |t'.kids| == |t'.keys| + 1;
    assert Loose(m, t', h);
    PlugAllRooted(m, fs, t', h);
  }

  /** The last key of a root leaves its only child as the new root. */
  lemma RemovedRoot<K>(m: nat, t: Tree<K>, i: nat, h: nat)
    requires m >= MIN_ORDER && Gap(m, [], t, i, h) && t.Node? && |t.kids| == |t.keys| + 1 && i < |t.keys| == 1
    ensures h > 0 && i == 0 && Removed(t, i) == Node(t.nn, [], [t.kids[0]])
    ensures Rooted(m, t.kids[0], h - 1)
  {
    assert Look(0);
    assert Full(m, t.kids[0], h - 1);
    assert DelAt(t.kids, 1) == [t.kids[0]];
  }

  // ---------------------------------------------------------------- siblings

  /** A node that has just become one key too small, below its parent's frame. */
  ghost predicate Short<K>(m: nat, fs: seq<Frame<K>>, t: Tree<K>, h: nat) {
    forall u: nat {:trigger Look(u)} :: Look(u) ==>
      && h > 0 && fs != [] && Fits(m, fs, h)
      && t.Node? && t.nn != 0 && |t.kids| == |t.keys| + 1 == MinKeys(m)
      && AllFull(m, t.kids, h - 1)
  }

  lemma RemovedShort<K>(m: nat, fs: seq<Frame<K>>, t: Tree<K>, i: nat, h: nat)
    requires m >= MIN_ORDER && Gap(m, fs, t, i, h) && t.Node? && |t.kids| == |t.keys| + 1 && i < |t.keys|
    requires |t.keys| - 1 < MinKeys(m) && fs != []
    ensures Short(m, fs, Removed(t, i), h)
  {
    assert Look(0);
  }

  /** The keys around two neighbouring children and the key between them. */
  lemma PairInOrder<K>(fs: seq<Frame<K>>, p: Tree<K>, s: nat)
    requires AllFormed(fs) && p.Node? && |p.kids| == |p.keys| + 1 && s < |p.keys|
    ensures InOrder(PlugAll(fs, p))
         == (Before(fs) + Left(p.keys, p.kids, s))
            + (InOrder(p.kids[s]) + [p.keys[s]] + InOrder(p.kids[s + 1]))
            + (Right(p.keys, p.kids, s + 1) + After(fs))
  {
    PlugAllInOrder(fs, p);
    WeaveAt(p.keys, p.kids, s);
    CrossKey(p.keys, p.kids, s);
    var b, l, x, y, z, r, a := Before(fs), Left(p.keys, p.kids, s), InOrder(p.kids[s]), [p.keys[s]],
                               InOrder(p.kids[s + 1]), Right(p.keys, p.kids, s + 1), After(fs);
    Regroup(b, l, x, y, z, r, a);
  }

  lemma Regroup<T>(b: seq<T>, l: seq<T>, x: seq<T>, y: seq<T>, z: seq<T>, r: seq<T>, a: seq<T>)
    ensures b + ((l + x) + (y + z + r)) + a == (b + l) + (x + y + z) + (r + a)
  {
    Assoc(l, x, y + z + r);
    Assoc(x, y, z);
    Assoc(y, z, r);
    Assoc(x, y + z, r);
    Assoc(l, x + y + z, r);
    Assoc(b, l + (x + y + z), r);
    Assoc(b, l, x + y + z);
    Assoc(b + l + (x + y + z), r, a);
  }

  /** p with other children at s and s+1 and another key between them. */
  function Repaired<K>(p: Tree<K>, s: nat, left: Tree<K>, sep: K, right: Tree<K>): Tree<K>
    requires p.Node? && |p.kids| == |p.keys| + 1 && s < |p.keys|
  {
    Node(p.nn, p.keys[s := sep], p.kids[s := left][s + 1 := right])
  }

  lemma RepairedInOrder<K>(fs: seq<Frame<K>>, p: Tree<K>, s: nat, left: Tree<K>, sep: K, right: Tree<K>)
    requires AllFormed(fs) && p.Node? && |p.kids| == |p.keys| + 1 && s < |p.keys|
    requires InOrder(left) + [sep] + InOrder(right) == InOrder(p.kids[s]) + [p.keys[s]] + InOrder(p.kids[s + 1])
    ensures InOrder(PlugAll(fs, Repaired(p, s, left, sep, right))) == InOrder(PlugAll(fs, p))
  {
    var q := Repaired(p, s, left, sep, right);
    PairInOrder(fs, p, s);
    PairInOrder(fs, q, s);
    assert q.keys[..s] == p.keys[..s] && q.kids[..s] == p.kids[..s];
    assert q.keys[s + 1..] == p.keys[s + 1..] && q.kids[s + 2..] == p.kids[s + 2..];
  }

  lemma PairCnt<K>(kids: seq<Tree<K>>, s: nat, n: nat)
    requires s + 1 < |kids|
    ensures CntAll(kids, n)
         == CntAll(kids[..s], n) + Cnt(kids[s], n) + Cnt(kids[s + 1], n) + CntAll(kids[s + 2..], n)
  {
    CntAt(kids, s, n);
    CntAt(kids[s + 1..], 0, n);
  }

  lemma RepairedCnt<K>(p: Tree<K>, s: nat, left: Tree<K>, sep: K, right: Tree<K>, n: nat)
    requires p.Node? && |p.kids| == |p.keys| + 1 && s < |p.keys|
    ensures Cnt(Repaired(p, s, left, sep, right), n) + Cnt(p.kids[s], n) + Cnt(p.kids[s + 1], n)
         == Cnt(p, n) + Cnt(left, n) + Cnt(right, n)
  {
    var c := p.kids[s := left][s + 1 := right];
    PairCnt(p.kids, s, n);
    PairCnt(c, s, n);
    assert c[..s] == p.kids[..s] && c[s + 2..] == p.kids[s + 2..];
  }

  /** The keys of two siblings and the key between them; right tells that the
      first one named stands to the left of the other. */
  function Joined<K>(to: Tree<K>, sep: K, from: Tree<K>, right: bool): seq<K> {
    if right then InOrder(to) + [sep] + InOrder(from) else InOrder(from) + [sep] + InOrder(to)
  }

  // ---------------------------------------------------------------- moving keys

  /** One key moved from a sibling through the parent. */
  function MovedTo<K>(to: Tree<K>, sep: K, from: Tree<K>, right: bool): Tree<K>
    requires to.Node? && from.Node? && |from.kids| == |from.keys| + 1 && from.keys != []
  {
    if right then Node(to.nn, to.keys + [sep], to.kids + [from.kids[0]])
    else Node(to.nn, [sep] + to.keys, [from.kids[|from.keys|]] + to.kids)
  }

  function MovedSep<K>(from: Tree<K>, right: bool): K
    requires from.Node? && from.keys != []
  {
    if right then from.keys[0] else from.keys[|from.keys| - 1]
  }

  function MovedFrom<K>(from: Tree<K>, right: bool): Tree<K>
    requires from.Node? && |from.kids| == |from.keys| + 1 && from.keys != []
  {
    if right then Node(from.nn, from.keys[1..], from.kids[1..])
    else Node(from.nn, from.keys[..|from.keys| - 1], from.kids[..|from.keys|])
  }

  lemma MovedInOrder<K>(to: Tree<K>, sep: K, from: Tree<K>, right: bool)
    requires to.Node? && |to.kids| == |to.keys| + 1
    requires from.Node? && |from.kids| == |from.keys| + 1 && from.keys != []
    ensures Joined(MovedTo(to, sep, from, right), MovedSep(from, right), MovedFrom(from, right), right)
         == Joined(to, sep, from, right)
  {
    if right {
      MovedRight(to, sep, from);
    } else {
      MovedLeft(to, sep, from);
    }
  }

  lemma MovedRight<K>(to: Tree<K>, sep: K, from: Tree<K>)
    requires to.Node? && |to.kids| == |to.keys| + 1
    requires from.Node? && |from.kids| == |from.keys| + 1 && from.keys != []
    ensures Joined(MovedTo(to, sep, from, true), MovedSep(from, true), MovedFrom(from, true), true) == Joined(to, sep, from, true)
  {
    var to', from' := MovedTo(to, sep, from, true), MovedFrom(from, true);
    var a, b, c, d, e := InOrder(to), [sep], InOrder(from.kids[0]), [from.keys[0]], Weave(from.keys[1..], from.kids[1..]);
    WeaveJoin(to.keys, to.kids, sep, [], [from.kids[0]]);
    assert to.keys + [sep] + [] == to.keys + [sep];
    assert Weave([], [from.kids[0]]) == c;
    assert InOrder(to') == a + b + c;
    FirstOut(from);
    Assoc(a + b, c, d + e);
    Assoc(a + b + c, d, e);
  }

  /** The first subtree and key of a node, and the rest. */
  lemma FirstOut<K>(t: Tree<K>)
    requires t.Node? && |t.kids| == |t.keys| + 1 && t.keys != []
    ensures InOrder(t) == InOrder(t.kids[0]) + ([t.keys[0]] + Weave(t.keys[1..], t.kids[1..]))
    ensures InOrder(MovedFrom(t, true)) == Weave(t.keys[1..], t.kids[1..])
  {
  }

  lemma MovedLeft<K>(to: Tree<K>, sep: K, from: Tree<K>)
    requires to.Node? && |to.kids| == |to.keys| + 1
    requires from.Node? && |from.kids| == |from.keys| + 1 && from.keys != []
    ensures Joined(MovedTo(to, sep, from, false), MovedSep(from, false), MovedFrom(from, false), false) == Joined(to, sep, from, false)
  {
    var n := |from.keys|;
    var to', from' := MovedTo(to, sep, from, false), MovedFrom(from, false);
    WeaveCut(from.keys, from.kids, n - 1);
    assert from.kids[..n] == from.kids[..n - 1] + [from.kids[n - 1]];
    assert from.keys[n..] == [] && from.kids[n..] == [from.kids[n]];
    assert ([sep] + to.keys)[1..] == to.keys && ([from.kids[n]] + to.kids)[1..] == to.kids;
    var a, b, c, d, e := InOrder(from'), [from.keys[n - 1]], InOrder(from.kids[n]), [sep], InOrder(to);
    assert Weave([], [from.kids[n]]) == c;
    assert InOrder(from) == a + b + c && InOrder(to') == c + (d + e);
    Assoc(a + b, c, d + e);
    Assoc(a + b + c, d, e);
  }

  lemma MovedCnt<K>(to: Tree<K>, sep: K, from: Tree<K>, right: bool, n: nat)
    requires to.Node? && |to.kids| == |to.keys| + 1
    requires from.Node? && |from.kids| == |from.keys| + 1 && from.keys != []
    ensures Cnt(MovedTo(to, sep, from, right), n) + Cnt(MovedFrom(from, right), n) == Cnt(to, n) + Cnt(from, n)
  {
    var l := |from.keys|;
    if right {
      CntConcat(to.kids, [from.kids[0]], n);
      CntAt([from.kids[0]], 0, n);
      CntAt(from.kids, 0, n);
    } else {
      CntConcat([from.kids[l]], to.kids, n);
      CntAt([from.kids[l]], 0, n);
      CntAt(from.kids, l, n);
    }
  }

  /** Two siblings that came about from two others by moving keys and children. */
  ghost predicate Shared<K(!new)>(to0: Tree<K>, sep0: K, from0: Tree<K>, to: Tree<K>, sep: K, from: Tree<K>, right: bool) {
    forall u: nat {:trigger Look(u)} :: Look(u) ==>
      && to0.Node? && from0.Node? && to.Node? && from.Node? && to.nn == to0.nn && from.nn == from0.nn
      && Joined(to, sep, from, right) == Joined(to0, sep0, from0, right)
      && (forall n: nat {:trigger Cnt(to, n)} :: Cnt(to, n) + Cnt(from, n) == Cnt(to0, n) + Cnt(from0, n))
      && (forall c :: c in to.kids || c in from.kids ==> c in to0.kids || c in from0.kids)
  }

  lemma SharedStep<K(!new)>(to0: Tree<K>, sep0: K, from0: Tree<K>, to: Tree<K>, sep: K, from: Tree<K>, right: bool)
    requires Shared(to0, sep0, from0, to, sep, from, right)
    requires to.Node? && |to.kids| == |to.keys| + 1
    requires from.Node? && |from.kids| == |from.keys| + 1 && from.keys != []
    ensures Shared(to0, sep0, from0, MovedTo(to, sep, from, right), MovedSep(from, right), MovedFrom(from, right), right)
  {
    assert Look(0);
    MovedInOrder(to, sep, from, right);
    forall n: nat
      ensures Cnt(MovedTo(to, sep, from, right), n) + Cnt(MovedFrom(from, right), n) == Cnt(to0, n) + Cnt(from0, n)
    {
      MovedCnt(to, sep, from, right, n);
      assert Cnt(to, n) >= 0;
    }
  }

  /** Moving keys until the small node has half of them leaves both siblings filled. */
  lemma SharedFull<K(!new)>(m: nat, fs: seq<Frame<K>>, to0: Tree<K>, sep0: K, from0: Tree<K>, to: Tree<K>, sep: K, from: Tree<K>,
                      right: bool, h: nat)
    requires m >= MIN_ORDER && Shared(to0, sep0, from0, to, sep, from, right)
    requires Short(m, fs, to0, h) && Full(m, from0, h) && to0.Node? && from0.Node? && to.Node? && from.Node?
    requires |to.kids| == |to.keys| + 1 && |from.kids| == |from.keys| + 1
    requires |from0.keys| > MinKeys(m) && |to.keys| + |from.keys| == |to0.keys| + |from0.keys|
    requires |to.keys| == (|to0.keys| + |from0.keys|) / 2
    ensures Full(m, to, h) && Full(m, from, h)
  {
    assert Look(0);
    assert forall c :: c in to0.kids || c in from0.kids ==> Full(m, c, h - 1);
    SharedSizes(m, |to0.keys|, |from0.keys|);
    assert AllFull(m, to.kids, h - 1) by {
      assert forall i :: 0 <= i < |to.kids| ==> to.kids[i] in to.kids;
    }
    assert AllFull(m, from.kids, h - 1) by {
      assert forall i :: 0 <= i < |from.kids| ==> from.kids[i] in from.kids;
    }
  }

  lemma ShortSizes<K>(m: nat, fs: seq<Frame<K>>, t: Tree<K>, h: nat, big: nat)
    requires m >= MIN_ORDER && Short(m, fs, t, h) && t.Node? && MinKeys(m) < big
    ensures |t.keys| <= (|t.keys| + big) / 2
  {
    assert Look(0);
  }

  lemma SharedSizes(m: nat, small: nat, big: nat)
    requires m >= MIN_ORDER && small + 1 == MinKeys(m) < big < m
    ensures MinKeys(m) <= (small + big) / 2 < m && MinKeys(m) <= small + big - (small + big) / 2 < m
  {
  }

  // ---------------------------------------------------------------- merging

  function Merged<K>(left: Tree<K>, sep: K, right: Tree<K>): Tree<K>
    requires left.Node? && right.Node?
  {
    Node(left.nn, left.keys + [sep] + right.keys, left.kids + right.kids)
  }

  lemma MergedCnt<K>(left: Tree<K>, sep: K, right: Tree<K>, n: nat)
    requires left.Node? && right.Node?
    ensures Cnt(Merged(left, sep, right), n) + (if right.nn == n then 1 else 0) == Cnt(left, n) + Cnt(right, n)
  {
    CntConcat(left.kids, right.kids, n);
  }

  lemma MergedFull<K>(m: nat, fs: seq<Frame<K>>, short: Tree<K>, other: Tree<K>, sep: K, h: nat)
    requires m >= MIN_ORDER && Short(m, fs, short, h) && Full(m, other, h)
    requires short.Node? && other.Node? && |other.keys| <= MinKeys(m)
    ensures other.nn != 0 && short.nn != 0
    ensures |short.keys| + |other.keys| + 1 < m
    ensures Full(m, Merged(short, sep, other), h) && Full(m, Merged(other, sep, short), h)
  {
    assert Look(0);
  }

  /** A small node t, its parent p, and its sibling: the right one if t is the
      first child, or else the left one.  s is the key between the two. */
  ghost predicate Family<K>(m: nat, fs: seq<Frame<K>>, t: Tree<K>, h: nat, p: Tree<K>, s: nat, sib: Tree<K>, right: bool) {
    && Short(m, fs, t, h) && fs != [] && AllFormed(fs) && AllFormed(fs[1..]) && t.Node? && sib.Node? && Full(m, sib, h)
    && Parent(fs, t, p) && p.Node? && p.nn != 0 && |p.kids| == |p.keys| + 1 && s < |p.keys|
    && right == (fs[0].idx == 0) && s == (if right then 0 else fs[0].idx - 1)
    && p.kids[s] == (if right then t else sib) && p.kids[s + 1] == (if right then sib else t)
  }

  /** p is the parent of t below the first frame. */
  ghost predicate Parent<K>(fs: seq<Frame<K>>, t: Tree<K>, p: Tree<K>) {
    forall u: nat {:trigger Look(u)} :: Look(u) ==> fs != [] && p == Plug(fs[0], t)
  }

  lemma ParentParts<K>(fs: seq<Frame<K>>, t: Tree<K>, p: Tree<K>)
    requires Parent(fs, t, p)
    ensures fs != [] && p == Plug(fs[0], t) && PlugAll(fs, t) == PlugAll(fs[1..], p)
  {
    assert Look(0);
  }

  lemma Sibling<K>(m: nat, fs: seq<Frame<K>>, t: Tree<K>, h: nat) returns (p: Tree<K>, s: nat, sib: Tree<K>, right: bool)
    requires Short(m, fs, t, h) && AllFormed(fs)
    ensures Family(m, fs, t, h, p, s, sib, right)
  {
    assert Look(0);
    var f := fs[0];
    p, right := Plug(f, t), f.idx == 0;
    s := if right then 0 else f.idx - 1;
    sib := p.kids[if right then 1 else s];
    FitsFormed(m, fs[1..], h + 1);
  }

  lemma RepairedWhole<K>(m: nat, fs: seq<Frame<K>>, t: Tree<K>, h: nat, p: Tree<K>, s: nat, sib: Tree<K>, r: bool,
                         left: Tree<K>, sep: K, right: Tree<K>)
    requires m >= MIN_ORDER && Family(m, fs, t, h, p, s, sib, r) && Full(m, left, h) && Full(m, right, h)
    ensures Rooted(m, PlugAll(fs[1..], Repaired(p, s, left, sep, right)), h + |fs|)
  {
    var q := Repaired(p, s, left, sep, right);
    assert AllFull(m, q.kids, h) && |q.keys| < m && |q.keys| >= (if |fs| == 1 then 1 else MinKeys(m)) by {
      assert Look(0);
    }
    assert Loose(m, q, h + 1);
    assert Fits(m, fs[1..], h + 1) by {
      assert Look(0);
    }
    PlugAllRooted(m, fs[1..], q, h + 1);
  }

  /** The parent after a merge, about to lose the key between the two siblings. */
  lemma MergedGap<K>(m: nat, fs: seq<Frame<K>>, t: Tree<K>, h: nat, p: Tree<K>, s: nat, sib: Tree<K>, r: bool,
                     left: Tree<K>, sep: K)
    requires m >= MIN_ORDER && Family(m, fs, t, h, p, s, sib, r) && Full(m, left, h)
    ensures Gap(m, fs[1..], Repaired(p, s, left, sep, Nil), s, h + 1)
  {
    assert Look(0);
  }

  lemma MergedRest<K>(fs: seq<Frame<K>>, p: Tree<K>, s: nat, left: Tree<K>)
    requires AllFormed(fs) && p.Node? && |p.kids| == |p.keys| + 1 && s < |p.keys|
    requires InOrder(left) == InOrder(p.kids[s]) + [p.keys[s]] + InOrder(p.kids[s + 1])
    ensures Rest(fs, Repaired(p, s, left, p.keys[s], Nil), s) == InOrder(PlugAll(fs, p))
  {
    var q := Repaired(p, s, left, p.keys[s], Nil);
    PairInOrder(fs, p, s);
    assert q.keys == p.keys && q.kids[..s] == p.kids[..s];
    assert q.kids[s + 1..] == [Nil] + p.kids[s + 2..];
    Assoc(Before(fs), Left(p.keys, p.kids, s), InOrder(left));
  }

  lemma RepairedFor<K>(m: nat, fs: seq<Frame<K>>, t0: Tree<K>, t: Tree<K>, h: nat, p: Tree<K>, s: nat, sib: Tree<K>, right: bool,
                       left: Tree<K>, sep: K, r: Tree<K>)
    returns (p0: Tree<K>)
    requires Family(m, fs, t, h, p, s, sib, right)
    ensures p0.Node? && p0.nn == p.nn && |p0.kids| == |p0.keys| + 1 && s < |p0.keys|
    ensures Repaired(p0, s, left, sep, r) == Repaired(p, s, left, sep, r)
    ensures PlugAll(fs, t0) == PlugAll(fs[1..], p0) && PlugAll(fs, t) == PlugAll(fs[1..], p)
  {
    ParentParts(fs, t, p);
    p0 := Plug(fs[0], t0);
    RepairedEither(fs[0], t0, t, s, left, sep, r);
  }

  /** Which version of the small node the parent still holds does not matter. */
  lemma RepairedEither<K>(f: Frame<K>, t0: Tree<K>, t: Tree<K>, s: nat, left: Tree<K>, sep: K, right: Tree<K>)
    requires WellFormed(f) && s < |f.keys| && (s == f.idx || s + 1 == f.idx)
    ensures Repaired(Plug(f, t0), s, left, sep, right) == Repaired(Plug(f, t), s, left, sep, right)
  {
  }

  /** After keys were shared out between the small node and its sibling. */
  lemma EvenedOut<K(!new)>(m: nat, fs: seq<Frame<K>>, t: Tree<K>, h: nat, p: Tree<K>, s: nat, sib: Tree<K>, right: bool,
                           t': Tree<K>, sep: K, sib': Tree<K>)
    returns (l: Tree<K>, r: Tree<K>, q: Tree<K>)
    requires m >= MIN_ORDER && Family(m, fs, t, h, p, s, sib, right) && |sib.keys| > MinKeys(m)
    requires Shared(t, p.keys[s], sib, t', sep, sib', right) && t'.Node? && sib'.Node?
    requires |t'.kids| == |t'.keys| + 1 && |sib'.kids| == |sib'.keys| + 1
    requires |t'.keys| + |sib'.keys| == |t.keys| + |sib.keys| && |t'.keys| == (|t.keys| + |sib.keys|) / 2
    ensures l == (if right then t' else sib') && r == (if right then sib' else t')
    ensures q == Repaired(p, s, l, sep, r) && Num(l) == Num(p.kids[s]) && Num(r) == Num(p.kids[s + 1])
    ensures Rooted(m, PlugAll(fs[1..], q), h + |fs|)
    ensures InOrder(PlugAll(fs[1..], q)) == InOrder(PlugAll(fs, t))
    ensures Num(PlugAll(fs[1..], q)) == Num(PlugAll(fs, t)) != 0
    ensures forall n: nat {:trigger Cnt(l, n)} :: Cnt(l, n) + Cnt(r, n) == Cnt(p.kids[s], n) + Cnt(p.kids[s + 1], n)
    ensures l.Node? && r.Node? && l.nn != 0 && r.nn != 0
  {
    l, r := if right then t' else sib', if right then sib' else t';
    q := Repaired(p, s, l, sep, r);
    SharedFull(m, fs, t, p.keys[s], sib, t', sep, sib', right, h);
    RepairedWhole(m, fs, t, h, p, s, sib, right, l, sep, r);
    SharedPair(t, p.keys[s], sib, t', sep, sib', right);
    RepairedInOrder(fs[1..], p, s, l, sep, r);
    ParentParts(fs, t, p);
    PlugAllNum(fs[1..], p, q);
    PlugNotNil(fs[1..], q);
    FullNode(m, fs, t, t', sib', h);
  }

  lemma FullNode<K>(m: nat, fs: seq<Frame<K>>, t0: Tree<K>, t: Tree<K>, u: Tree<K>, h: nat)
    requires Short(m, fs, t0, h) && Full(m, t, h) && Full(m, u, h) && t.Node? && u.Node?
    ensures t.nn != 0 && u.nn != 0
  {
    assert Look(0);
  }

  lemma SharedPair<K(!new)>(to0: Tree<K>, sep0: K, from0: Tree<K>, to: Tree<K>, sep: K, from: Tree<K>, right: bool)
    requires Shared(to0, sep0, from0, to, sep, from, right)
    ensures Num(to) == Num(to0) && Num(from) == Num(from0)
    ensures Joined(to, sep, from, right) == Joined(to0, sep0, from0, right)
    ensures forall n: nat {:trigger Cnt(to, n)} :: Cnt(to, n) + Cnt(from, n) == Cnt(to0, n) + Cnt(from0, n)
    ensures forall n: nat {:trigger Cnt(from, n)} :: Cnt(to, n) + Cnt(from, n) == Cnt(to0, n) + Cnt(from0, n)
  {
    assert Look(0);
    forall n: nat
      ensures Cnt(to, n) + Cnt(from, n) == Cnt(to0, n) + Cnt(from0, n)
    {
      assert Cnt(to, n) >= 0;
    }
  }

  /** The parent after a small node and its sibling were merged. */
  lemma MergedUp<K>(m: nat, fs: seq<Frame<K>>, t: Tree<K>, h: nat, p: Tree<K>, s: nat, sib: Tree<K>, right: bool)
    returns (q: Tree<K>, left: Tree<K>)
    requires m >= MIN_ORDER && Family(m, fs, t, h, p, s, sib, right) && |sib.keys| <= MinKeys(m)
    ensures left == Merged(p.kids[s], p.keys[s], p.kids[s + 1]) && left.nn != 0 && p.kids[s + 1].nn != 0
    ensures |p.kids[s].keys| + 1 + |p.kids[s + 1].keys| < m
    ensures q == Repaired(p, s, left, p.keys[s], Nil) && Gap(m, fs[1..], q, s, h + 1)
    ensures PlugAll(fs, t) == PlugAll(fs[1..], p) && AllFormed(fs[1..])
    ensures q.kids[s + 1].Nil? && Num(q) == Num(p) && |fs[1..]| < |fs|
    ensures Rest(fs[1..], q, s) == InOrder(PlugAll(fs, t)) && Num(PlugAll(fs[1..], q)) == Num(PlugAll(fs, t))
  {
    left := Merged(p.kids[s], p.keys[s], p.kids[s + 1]);
    q := Repaired(p, s, left, p.keys[s], Nil);
    MergedFull(m, fs, t, sib, p.keys[s], h);
    MergedGap(m, fs, t, h, p, s, sib, right, left, p.keys[s]);
    MergedInOrder(m, p.kids[s], p.keys[s], p.kids[s + 1], fs, t, h, sib);
    MergedRest(fs[1..], p, s, left);
    ParentParts(fs, t, p);
    PlugAllNum(fs[1..], p, q);
  }

  lemma MergedInOrder<K>(m: nat, left: Tree<K>, sep: K, right: Tree<K>, fs: seq<Frame<K>>, t: Tree<K>, h: nat, sib: Tree<K>)
    requires Short(m, fs, t, h) && Full(m, sib, h)
    requires (left == t && right == sib) || (left == sib && right == t)
    requires left.Node? && right.Node?
    ensures InOrder(Merged(left, sep, right)) == InOrder(left) + [sep] + InOrder(right)
  {
    assert Look(0);
    WeaveJoin(left.keys, left.kids, sep, right.keys, right.kids);
  }

  // ---------------------------------------------------------------- the successor

  lemma {:induction false} BeforeConcat<K>(a: seq<Frame<K>>, b: seq<Frame<K>>)
    requires AllFormed(a) && AllFormed(b)
    ensures AllFormed(a + b) && Before(a + b) == Before(b) + Before(a) && After(a + b) == After(a) + After(b)
  {
    if a == [] {
      assert a + b == b;
    } else {
      assert (a + b)[1..] == a[1..] + b;
      BeforeConcat(a[1..], b);
      Assoc(Before(b), Before(a[1..]), Left(a[0].keys, a[0].kids, a[0].idx));
      Assoc(Right(a[0].keys, a[0].kids, a[0].idx), After(a[1..]), After(b));
    }
  }

  /** Frames that lead to the first keys of a subtree r: whatever is below them
      is at the left end of r. */
  ghost predicate Leftmost<K>(inner: seq<Frame<K>>, u: Tree<K>, r: Tree<K>) {
    AllFormed(inner) && Before(inner) == [] && PlugAll(inner, u) == r
  }

  lemma LeftmostStep<K>(inner: seq<Frame<K>>, u: Tree<K>, r: Tree<K>) returns (f: Frame<K>)
    requires Leftmost(inner, u, r) && u.Node? && |u.kids| == |u.keys| + 1 && u.nn != 0
    ensures f == Frame(u.nn, u.keys, u.kids, 0) && Leftmost([f] + inner, u.kids[0], r)
  {
    f := Frame(u.nn, u.keys, u.kids, 0);
    var down := [f] + inner;
    assert down[0] == f && down[1..] == inner;
    assert Plug(f, u.kids[0]) == u;
    Edges(u.keys, u.kids);
  }

  function Under<K>(t: Tree<K>, i: nat): Frame<K>
    requires t.Node?
  {
    Frame(t.nn, t.keys, t.kids, i)
  }

  /** Changing a key in one frame changes nothing about the shape. */
  lemma {:induction false} FitsReplaced<K>(m: nat, inner: seq<Frame<K>>, f: Frame<K>, fs: seq<Frame<K>>, f': Frame<K>, h: nat)
    requires Fits(m, inner + [f] + fs, h)
    requires f'.nn == f.nn && f'.kids == f.kids && f'.idx == f.idx && |f'.keys| == |f.keys|
    ensures Fits(m, inner + [f'] + fs, h)
  {
    var a, b := inner + [f] + fs, inner + [f'] + fs;
    if inner == [] {
      assert a == [f] + fs && b == [f'] + fs && a[1..] == fs == b[1..];
    } else {
      assert a[1..] == inner[1..] + [f] + fs && b[1..] == inner[1..] + [f'] + fs;
      FitsReplaced(m, inner[1..], f, fs, f', h + 1);
    }
  }

  /** The successor's key stands in for key i; the successor is still in its place. */
  lemma SuccessorPlaced<K>(m: nat, fs: seq<Frame<K>>, t: Tree<K>, i: nat, inner: seq<Frame<K>>, u: Tree<K>, h: nat, y: K)
    returns (t': Tree<K>, down: seq<Frame<K>>)
    requires AllFormed(fs) && t.Node? && |t.kids| == |t.keys| + 1 && i < |t.keys|
    requires Placed(m, inner + [Under(t, i + 1)] + fs, u, h) && u.Node? && |u.kids| == |u.keys| + 1 && u.kids[0].Nil?
    requires Leftmost(inner, u, t.kids[i + 1])
    ensures t' == t.(keys := t.keys[i := y]) && down == inner + [Under(t', i + 1)] + fs
    ensures AllFormed(down) && Placed(m, down, u, h) && PlugAll(down, u) == PlugAll(fs, t')
    ensures forall j :: 0 <= j < |u.kids| ==> u.kids[j].Nil?
  {
    t' := t.(keys := t.keys[i := y]);
    down := inner + [Under(t', i + 1)] + fs;
    PlacedParts(m, inner + [Under(t, i + 1)] + fs, u, h);
    FitsReplaced(m, inner, Under(t, i + 1), fs, Under(t', i + 1), h);
    FitsFormed(m, down, h);
    assert Full(m, u.kids[0], h - 1);
    assert forall j :: 0 <= j < |u.kids| ==> Full(m, u.kids[j], h - 1);
    PlugThrough(inner, t', i + 1, fs, u);
    assert Placed(m, down, u, h) by {
      assert Look(0);
    }
  }

  lemma PlugThrough<K>(inner: seq<Frame<K>>, t: Tree<K>, i: nat, fs: seq<Frame<K>>, u: Tree<K>)
    requires t.Node? && i < |t.kids| && PlugAll(inner, u) == t.kids[i]
    ensures PlugAll(inner + [Under(t, i)] + fs, u) == PlugAll(fs, t)
  {
    assert inner + [Under(t, i)] + fs == inner + ([Under(t, i)] + fs);
    PlugAllConcat(inner, [Under(t, i)] + fs, u);
    assert ([Under(t, i)] + fs)[1..] == fs;
    assert Plug(Under(t, i), t.kids[i]) == t;
  }

  /** A subtree's keys begin with the successor. */
  lemma SuccessorFirst<K>(inner: seq<Frame<K>>, u: Tree<K>, r: Tree<K>)
    requires Leftmost(inner, u, r) && u.Node? && |u.kids| == |u.keys| + 1 && u.keys != [] && u.kids[0].Nil?
    ensures InOrder(r) == [u.keys[0]] + Weave(u.keys[1..], u.kids[1..]) + After(inner)
  {
    PlugAllInOrder(inner, u);
    var y, w := [u.keys[0]], Weave(u.keys[1..], u.kids[1..]);
    assert Weave(u.keys, u.kids) == InOrder(u.kids[0]) + (y + w);
    assert InOrder(u.kids[0]) + (y + w) == y + w;
    assert [] + (y + w) + After(inner) == y + w + After(inner);
  }

  /** Taking the successor out of its leaf leaves what is left without key i. */
  lemma SuccessorRest<K>(fs: seq<Frame<K>>, t: Tree<K>, i: nat, inner: seq<Frame<K>>, u: Tree<K>, t': Tree<K>)
    requires AllFormed(fs) && t.Node? && |t.kids| == |t.keys| + 1 && i < |t.keys| && WellFormed(Under(t, i + 1))
    requires Leftmost(inner, u, t.kids[i + 1]) && u.Node? && |u.kids| == |u.keys| + 1 && u.keys != [] && u.kids[0].Nil?
    requires t' == t.(keys := t.keys[i := u.keys[0]])
    ensures AllFormed(inner + [Under(t', i + 1)] + fs)
    ensures Rest(inner + [Under(t', i + 1)] + fs, u, 0) == Rest(fs, t, i)
  {
    var f := Under(t', i + 1);
    var top := [f] + fs;
    assert top[0] == f && top[1..] == fs;
    Assoc(inner, [f], fs);
    BeforeConcat(inner, top);
    var y, w, r := [u.keys[0]], Weave(u.keys[1..], u.kids[1..]), Right(t.keys, t.kids, i + 1);
    AfterKey(t.keys, t.kids, i);
    SuccessorFirst(inner, u, t.kids[i + 1]);
    CrossKey(t'.keys, t.kids, i);
    assert t'.keys[..i] == t.keys[..i] && t'.keys[i + 1..] == t.keys[i + 1..];
    var b, l := Before(fs), Left(t.keys, t.kids, i) + InOrder(t.kids[i]);
    Edges(u.keys, u.kids);
    assert Before(inner + top) == b + (l + y) + [];
    assert InOrder(u.kids[0]) == [];
    RestGroup(b, l, y, w, After(inner), r, After(fs));
  }

  /** What follows key i of a node. */
  lemma AfterKey<K>(keys: seq<K>, kids: seq<Tree<K>>, i: nat)
    requires |kids| == |keys| + 1 && i < |keys|
    ensures Weave(keys[i + 1..], kids[i + 1..]) == InOrder(kids[i + 1]) + Right(keys, kids, i + 1)
  {
    var r := Right(keys, kids, i + 1);
    CrossKey(keys, kids, i);
    WeaveRight(keys, kids, i);
    Assoc([keys[i]], InOrder(kids[i + 1]), r);
    Unshift(keys[i], Weave(keys[i + 1..], kids[i + 1..]), InOrder(kids[i + 1]) + r);
  }

  lemma Unshift<T>(x: T, a: seq<T>, b: seq<T>)
    requires [x] + a == [x] + b
    ensures a == b
  {
    assert a == ([x] + a)[1..] && b == ([x] + b)[1..];
  }

  lemma RestGroup<T>(b: seq<T>, l: seq<T>, y: seq<T>, w: seq<T>, i: seq<T>, r: seq<T>, a: seq<T>)
    ensures ((b + (l + y) + []) + ([] + [])) + (w + (i + (r + a))) == (b + l) + ((y + w + i + r) + a)
  {
  }
}
