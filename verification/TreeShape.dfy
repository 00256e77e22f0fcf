/** The shape of a B-tree, free of blocks and disks.

    A terminal node is Nil: it has no keys and its node number is 0.  Every other
    node with k keys has k+1 children, so a node whose children are all Nil is
    what the file shows as a leaf.  A subtree is addressed by the list of frames
    above it, nearest first, just as the parent chain of node numbers is kept.
  */
module TreeShape {
  import opened Wrappers

  datatype Tree<K> = Nil | Node(nn: nat, keys: seq<K>, kids: seq<Tree<K>>)

  function Num<K>(t: Tree<K>): nat {
    if t.Nil? then 0 else t.nn
  }

  // ---------------------------------------------------------------- keys in order

  function InOrder<K>(t: Tree<K>): seq<K> {
    match t
    case Nil => []
    case Node(_, keys, kids) => Weave(keys, kids)
  }

  /** The keys of kids[0], then keys[0], then the keys of kids[1], and so on. */
  function Weave<K>(keys: seq<K>, kids: seq<Tree<K>>): seq<K>
    decreases kids
  {
    if kids == [] then []
    else if keys == [] then InOrder(kids[0])
    else InOrder(kids[0]) + ([keys[0]] + Weave(keys[1..], kids[1..]))
  }

  lemma {:induction false} WeaveJoin<K>(k1: seq<K>, c1: seq<Tree<K>>, x: K, k2: seq<K>, c2: seq<Tree<K>>)
    requires |c1| == |k1| + 1 && |c2| == |k2| + 1
    ensures Weave(k1 + [x] + k2, c1 + c2) == Weave(k1, c1) + [x] + Weave(k2, c2)
  {
    var k, c := k1 + [x] + k2, c1 + c2;
    if k1 == [] {
      assert k[1..] == k2 && c[1..] == c2;
    } else {
      assert k[1..] == k1[1..] + [x] + k2 && c[1..] == c1[1..] + c2;
      WeaveJoin(k1[1..], c1[1..], x, k2, c2);
      var a, y, b, z := InOrder(c1[0]), [k1[0]], Weave(k1[1..], c1[1..]), Weave(k2, c2);
      assert Weave(k, c) == a + (y + (b + [x] + z));
      assert a + (y + (b + [x] + z)) == (a + (y + b)) + [x] + z;
    }
  }

  /** The keys before child i, and the keys after it. */
  function Left<K>(keys: seq<K>, kids: seq<Tree<K>>, i: nat): seq<K>
    requires i <= |keys| < |kids|
  {
    Weave(keys[..i], kids[..i] + [Nil])
  }

  function Right<K>(keys: seq<K>, kids: seq<Tree<K>>, i: nat): seq<K>
    requires i <= |keys| < |kids|
  {
    Weave(keys[i..], [Nil] + kids[i + 1..])
  }

  lemma Edges<K>(keys: seq<K>, kids: seq<Tree<K>>)
    requires |kids| == |keys| + 1
    ensures Left(keys, kids, 0) == [] && Right(keys, kids, |keys|) == []
  {
    assert kids[..0] + [Nil] == [Nil] == [Nil] + kids[|keys| + 1..];
    assert Weave<K>([], [Nil]) == [];
  }

  lemma WeaveFirst<K>(keys: seq<K>, c: Tree<K>, kids: seq<Tree<K>>)
    requires |kids| == |keys|
    ensures Weave(keys, [c] + kids) == InOrder(c) + Weave(keys, [Nil] + kids)
  {
    assert ([c] + kids)[1..] == kids == ([Nil] + kids)[1..];
  }

  lemma {:induction false} WeaveLast<K>(keys: seq<K>, kids: seq<Tree<K>>, c: Tree<K>)
    requires |kids| == |keys|
    ensures Weave(keys, kids + [c]) == Weave(keys, kids + [Nil]) + InOrder(c)
  {
    var n := |keys|;
    if n == 0 {
      assert kids + [c] == [c] && kids + [Nil] == [Nil];
    } else {
      assert keys == keys[..n - 1] + [keys[n - 1]] + [];
      WeaveJoin(keys[..n - 1], kids, keys[n - 1], [], [c]);
      WeaveJoin(keys[..n - 1], kids, keys[n - 1], [], [Nil]);
      assert Weave([], [c]) == InOrder(c);
    }
  }

  lemma Assoc<T>(a: seq<T>, b: seq<T>, c: seq<T>)
    ensures (a + b) + c == a + (b + c)
  {
  }

  /** A node's keys, split at key i. */
  lemma WeaveCut<K>(keys: seq<K>, kids: seq<Tree<K>>, i: nat)
    requires |kids| == |keys| + 1 && i < |keys|
    ensures Weave(keys, kids)
         == Weave(keys[..i], kids[..i] + [kids[i]]) + [keys[i]] + Weave(keys[i + 1..], kids[i + 1..])
  {
    assert keys == keys[..i] + [keys[i]] + keys[i + 1..];
    assert kids == (kids[..i] + [kids[i]]) + kids[i + 1..];
    WeaveJoin(keys[..i], kids[..i] + [kids[i]], keys[i], keys[i + 1..], kids[i + 1..]);
  }

  lemma WeaveRight<K>(keys: seq<K>, kids: seq<Tree<K>>, i: nat)
    requires |kids| == |keys| + 1 && i < |keys|
    ensures Right(keys, kids, i) == [keys[i]] + Weave(keys[i + 1..], kids[i + 1..])
  {
    var c: seq<Tree<K>> := [Nil] + kids[i + 1..];
    assert keys[i..][1..] == keys[i + 1..] && c[1..] == kids[i + 1..];
    assert Weave(keys[i..], c) == [] + ([keys[i]] + Weave(keys[i + 1..], kids[i + 1..]));
  }

  lemma WeaveLeft<K>(keys: seq<K>, kids: seq<Tree<K>>, i: nat)
    requires |kids| == |keys| + 1 && i < |keys|
    ensures Left(keys, kids, i + 1) == Weave(keys[..i], kids[..i] + [kids[i]]) + [keys[i]]
  {
    assert keys[..i + 1] == keys[..i] + [keys[i]] + [];
    assert kids[..i + 1] + [Nil] == (kids[..i] + [kids[i]]) + [Nil];
    WeaveJoin(keys[..i], kids[..i] + [kids[i]], keys[i], [], [Nil]);
    assert Weave<K>([], [Nil]) == [];
  }

  /** A node's keys, split at child i. */
  lemma WeaveAt<K>(keys: seq<K>, kids: seq<Tree<K>>, i: nat)
    requires |kids| == |keys| + 1 && i <= |keys|
    ensures Weave(keys, kids) == Left(keys, kids, i) + InOrder(kids[i]) + Right(keys, kids, i)
  {
    WeaveLast(keys[..i], kids[..i], kids[i]);
    if i == |keys| {
      assert kids == kids[..i] + [kids[i]] && keys[..i] == keys;
      assert Right(keys, kids, i) == [];
    } else {
      WeaveCut(keys, kids, i);
      WeaveRight(keys, kids, i);
      Assoc(Weave(keys[..i], kids[..i] + [kids[i]]), [keys[i]], Weave(keys[i + 1..], kids[i + 1..]));
    }
  }

  /** Crossing key i moves it from the right of child i to the left of child i+1. */
  lemma CrossKey<K>(keys: seq<K>, kids: seq<Tree<K>>, i: nat)
    requires |kids| == |keys| + 1 && i < |keys|
    ensures Right(keys, kids, i) == [keys[i]] + InOrder(kids[i + 1]) + Right(keys, kids, i + 1)
    ensures Left(keys, kids, i + 1) == Left(keys, kids, i) + InOrder(kids[i]) + [keys[i]]
  {
    var k, c := keys[i + 1..], kids[i + 1..];
    WeaveRight(keys, kids, i);
    assert c == [kids[i + 1]] + kids[i + 2..];
    WeaveFirst(k, kids[i + 1], kids[i + 2..]);
    Assoc([keys[i]], InOrder(kids[i + 1]), Weave(k, [Nil] + kids[i + 2..]));
    WeaveLeft(keys, kids, i);
    WeaveLast(keys[..i], kids[..i], kids[i]);
  }

  // ---------------------------------------------------------------- shape

  const MIN_ORDER := 4

  /** The fewest keys of a node that is not the root. */
  function MinKeys(m: nat): int {
    m / 2 - 1
  }

  /** A subtree of height h below the root: Nil at height 0, otherwise filled. */
  ghost predicate Full<K>(m: nat, t: Tree<K>, h: nat)
    decreases h, 1
  {
    if h == 0 then t.Nil? else t.Node? && MinKeys(m) <= |t.keys| && Loose(m, t, h)
  }

  /** A node at height h with filled children; how many keys it has is left open. */
  ghost predicate Loose<K>(m: nat, t: Tree<K>, h: nat)
    decreases h, 0
  {
    && h > 0
    && t.Node? && t.nn != 0
    && |t.keys| < m && |t.kids| == |t.keys| + 1
    && forall i :: 0 <= i < |t.kids| ==> Full(m, t.kids[i], h - 1)
  }

  ghost predicate AllFull<K>(m: nat, kids: seq<Tree<K>>, h: nat) {
    forall i :: 0 <= i < |kids| ==> Full(m, kids[i], h)
  }

  /** A whole tree: empty, or with at least one key in the root. */
  ghost predicate Rooted<K>(m: nat, t: Tree<K>, h: nat) {
    if h == 0 then t.Nil? else Loose(m, t, h) && |t.keys| >= 1
  }

  // ---------------------------------------------------------------- node numbers

  /** How often node number n occurs in a subtree. */
  function Cnt<K>(t: Tree<K>, n: nat): nat {
    match t
    case Nil => 0
    case Node(nn, _, kids) => (if nn == n then 1 else 0) + CntAll(kids, n)
  }

  function CntAll<K>(kids: seq<Tree<K>>, n: nat): nat
    decreases kids
  {
    if kids == [] then 0 else Cnt(kids[0], n) + CntAll(kids[1..], n)
  }

  lemma {:induction false} CntConcat<K>(a: seq<Tree<K>>, b: seq<Tree<K>>, n: nat)
    ensures CntAll(a + b, n) == CntAll(a, n) + CntAll(b, n)
  {
    if a == [] {
      assert a + b == b;
    } else {
      assert (a + b)[1..] == a[1..] + b;
      CntConcat(a[1..], b, n);
    }
  }

  lemma CntAt<K>(kids: seq<Tree<K>>, i: nat, n: nat)
    requires i < |kids|
    ensures CntAll(kids, n) == CntAll(kids[..i], n) + Cnt(kids[i], n) + CntAll(kids[i + 1..], n)
  {
    assert kids == kids[..i] + kids[i..];
    CntConcat(kids[..i], kids[i..], n);
    assert kids[i..][1..] == kids[i + 1..];
  }

  // ---------------------------------------------------------------- frames

  /** A node with a hole at child idx; what kids[idx] holds does not matter. */
  datatype Frame<K> = Frame(nn: nat, keys: seq<K>, kids: seq<Tree<K>>, idx: nat)

  ghost predicate WellFormed<K>(f: Frame<K>) {
    f.nn != 0 && |f.kids| == |f.keys| + 1 && f.idx <= |f.keys|
  }

  ghost predicate AllFormed<K>(fs: seq<Frame<K>>) {
    forall i :: 0 <= i < |fs| ==> WellFormed(fs[i])
  }

  function Plug<K>(f: Frame<K>, t: Tree<K>): Tree<K> {
    Node(f.nn, f.keys, if f.idx < |f.kids| then f.kids[f.idx := t] else f.kids)
  }

  function PlugAll<K>(fs: seq<Frame<K>>, t: Tree<K>): Tree<K> {
    if fs == [] then t else PlugAll(fs[1..], Plug(fs[0], t))
  }

  function Before<K>(fs: seq<Frame<K>>): seq<K>
    requires AllFormed(fs)
  {
    if fs == [] then [] else Before(fs[1..]) + Left(fs[0].keys, fs[0].kids, fs[0].idx)
  }

  function After<K>(fs: seq<Frame<K>>): seq<K>
    requires AllFormed(fs)
  {
    if fs == [] then [] else Right(fs[0].keys, fs[0].kids, fs[0].idx) + After(fs[1..])
  }

  function FrameCnt<K>(fs: seq<Frame<K>>, n: nat): nat
    requires AllFormed(fs)
  {
    if fs == [] then 0
    else (if fs[0].nn == n then 1 else 0) + CntAll(fs[0].kids[..fs[0].idx], n)
         + CntAll(fs[0].kids[fs[0].idx + 1..], n) + FrameCnt(fs[1..], n)
  }

  lemma PlugInOrder<K>(f: Frame<K>, t: Tree<K>)
    requires WellFormed(f)
    ensures InOrder(Plug(f, t)) == Left(f.keys, f.kids, f.idx) + InOrder(t) + Right(f.keys, f.kids, f.idx)
  {
    var kids := f.kids[f.idx := t];
    WeaveAt(f.keys, kids, f.idx);
    assert kids[..f.idx] == f.kids[..f.idx] && kids[f.idx + 1..] == f.kids[f.idx + 1..];
  }

  lemma {:induction false} PlugAllInOrder<K>(fs: seq<Frame<K>>, t: Tree<K>)
    requires AllFormed(fs)
    ensures InOrder(PlugAll(fs, t)) == Before(fs) + InOrder(t) + After(fs)
  {
    if fs != [] {
      PlugInOrder(fs[0], t);
      PlugAllInOrder(fs[1..], Plug(fs[0], t));
      var l, r := Left(fs[0].keys, fs[0].kids, fs[0].idx), Right(fs[0].keys, fs[0].kids, fs[0].idx);
      Assoc(Before(fs[1..]) + l, InOrder(t), r);
      Assoc(Before(fs[1..]), l, InOrder(t));
      Assoc(Before(fs[1..]), l + InOrder(t), r);
      Assoc((Before(fs[1..]) + l) + InOrder(t), r, After(fs[1..]));
    }
  }

  lemma PlugCnt<K>(f: Frame<K>, t: Tree<K>, n: nat)
    requires WellFormed(f)
    ensures Cnt(Plug(f, t), n)
         == (if f.nn == n then 1 else 0) + CntAll(f.kids[..f.idx], n) + CntAll(f.kids[f.idx + 1..], n) + Cnt(t, n)
  {
    var kids := f.kids[f.idx := t];
    CntAt(kids, f.idx, n);
    assert kids[..f.idx] == f.kids[..f.idx] && kids[f.idx + 1..] == f.kids[f.idx + 1..];
  }

  lemma {:induction false} PlugAllCnt<K>(fs: seq<Frame<K>>, t: Tree<K>, n: nat)
    requires AllFormed(fs)
    ensures Cnt(PlugAll(fs, t), n) == FrameCnt(fs, n) + Cnt(t, n)
  {
    if fs != [] {
      PlugCnt(fs[0], t, n);
      PlugAllCnt(fs[1..], Plug(fs[0], t), n);
    }
  }

  lemma {:induction false} PlugAllConcat<K>(a: seq<Frame<K>>, b: seq<Frame<K>>, t: Tree<K>)
    ensures PlugAll(a + b, t) == PlugAll(b, PlugAll(a, t))
  {
    if a == [] {
      assert a + b == b;
    } else {
      assert (a + b)[1..] == a[1..] + b;
      PlugAllConcat(a[1..], b, Plug(a[0], t));
    }
  }

  /** Refilling the hole keeps the root's number. */
  lemma {:induction false} PlugAllNum<K>(fs: seq<Frame<K>>, t: Tree<K>, t': Tree<K>)
    requires Num(t) == Num(t')
    ensures Num(PlugAll(fs, t)) == Num(PlugAll(fs, t'))
  {
    if fs != [] {
      PlugAllNum(fs[1..], Plug(fs[0], t), Plug(fs[0], t'));
    }
  }

  lemma {:induction false} PlugNotNil<K>(fs: seq<Frame<K>>, t: Tree<K>)
    requires t.Node?
    ensures PlugAll(fs, t).Node?
  {
    if fs != [] {
      PlugNotNil(fs[1..], Plug(fs[0], t));
    }
  }

  /** Frames that turn a filled subtree of height h into a whole tree. */
  ghost predicate Fits<K>(m: nat, fs: seq<Frame<K>>, h: nat)
    decreases |fs|
  {
    fs != [] ==>
      && WellFormed(fs[0]) && |fs[0].keys| < m
      && |fs[0].keys| >= (if |fs| == 1 then 1 else MinKeys(m))
      && (forall i :: 0 <= i < |fs[0].kids| && i != fs[0].idx ==> Full(m, fs[0].kids[i], h))
      && Fits(m, fs[1..], h + 1)
  }

  lemma {:induction false} FitsFormed<K>(m: nat, fs: seq<Frame<K>>, h: nat)
    requires Fits(m, fs, h)
    ensures AllFormed(fs)
  {
    if fs != [] {
      FitsFormed(m, fs[1..], h + 1);
      assert fs == [fs[0]] + fs[1..];
    }
  }

  lemma {:induction false} PlugAllRooted<K>(m: nat, fs: seq<Frame<K>>, t: Tree<K>, h: nat)
    requires m >= MIN_ORDER && Fits(m, fs, h)
    requires if fs == [] then Rooted(m, t, h) else Full(m, t, h)
    ensures Rooted(m, PlugAll(fs, t), h + |fs|)
  {
    if fs != [] {
      PlugAllRooted(m, fs[1..], Plug(fs[0], t), h + 1);
    }
  }

  /** A node at its place in a whole tree.  It may be short of keys only if it is
      the root. */
  ghost predicate Placed<K>(m: nat, fs: seq<Frame<K>>, t: Tree<K>, h: nat) {
    forall u: nat {:trigger Look(u)} :: Look(u) ==>
      Fits(m, fs, h) && Loose(m, t, h) && (fs != [] ==> Full(m, t, h))
  }

  lemma PlacedParts<K>(m: nat, fs: seq<Frame<K>>, t: Tree<K>, h: nat)
    requires Placed(m, fs, t, h)
    ensures h > 0 && Fits(m, fs, h) && AllFormed(fs) && Loose(m, t, h) && (fs != [] ==> Full(m, t, h))
  {
    assert Look(0);
    FitsFormed(m, fs, h);
  }

  /** A subtree at its place in a tree under insertion, and a subtree to go in
      beside one of its children.  The node may be short of keys only if it is the
      root. */
  ghost predicate Room<K>(m: nat, fs: seq<Frame<K>>, t: Tree<K>, r: Tree<K>, h: nat) {
    forall u: nat {:trigger Look(u)} :: Look(u) ==>
      h > 0 && Fits(m, fs, h) && Loose(m, t, h) && (fs != [] ==> Full(m, t, h)) && Full(m, r, h - 1)
  }

  lemma RoomParts<K>(m: nat, fs: seq<Frame<K>>, t: Tree<K>, r: Tree<K>, h: nat)
    requires Room(m, fs, t, r, h)
    ensures h > 0
    ensures Fits(m, fs, h) && AllFormed(fs) && Loose(m, t, h) && (fs != [] ==> Full(m, t, h)) && Full(m, r, h - 1)
  {
    assert Look(0);
    FitsFormed(m, fs, h);
  }

  /** Beside a terminal node, the subtree to go in is another terminal node. */
  lemma LeafRoom<K>(m: nat, fs: seq<Frame<K>>, t: Tree<K>, h: nat, i: nat)
    requires Placed(m, fs, t, h) && t.Node? && i < |t.kids| && t.kids[i].Nil?
    ensures Room(m, fs, t, Nil, h)
  {
    PlacedParts(m, fs, t, h);
    assert Full(m, t.kids[i], h - 1);
  }

  /** A child's number is zero just for a terminal node. */
  lemma KidNumber<K>(m: nat, fs: seq<Frame<K>>, t: Tree<K>, h: nat, i: nat)
    requires Placed(m, fs, t, h) && t.Node? && i < |t.kids|
    ensures Num(t.kids[i]) == 0 <==> t.kids[i].Nil?
  {
    PlacedParts(m, fs, t, h);
    assert Full(m, t.kids[i], h - 1);
    assert h > 1 ==> Loose(m, t.kids[i], h - 1);
  }

  /** The halves of a split at the place of the node they came from. */
  ghost predicate Halves<K>(m: nat, fs: seq<Frame<K>>, left: Tree<K>, right: Tree<K>, h: nat) {
    forall u: nat {:trigger Look(u)} :: Look(u) ==>
      h > 0 && Fits(m, fs, h) && Full(m, left, h) && Full(m, right, h)
  }

  /** The separator and the right half are about to go into the parent. */
  lemma HalvesUp<K>(m: nat, fs: seq<Frame<K>>, left: Tree<K>, right: Tree<K>, h: nat)
    requires fs != [] && Halves(m, fs, left, right, h)
    ensures AllFormed(fs[1..]) && Room(m, fs[1..], Plug(fs[0], left), right, h + 1)
    ensures WellFormed(fs[0])
    ensures PlugAll(fs, left) == PlugAll(fs[1..], Plug(fs[0], left))
  {
    assert Look(0);
    FitsFormed(m, fs[1..], h + 1);
  }

  /** The same at the top, below a new root. */
  lemma HalvesTop<K>(m: nat, nn: nat, left: Tree<K>, right: Tree<K>, h: nat)
    requires m >= MIN_ORDER && nn != 0 && Halves(m, [], left, right, h)
    ensures Room(m, [], Node(nn, [], [left]), right, h + 1)
  {
    assert Look(0);
  }
}
