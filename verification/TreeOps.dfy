/** What the tree operations do to one node and its neighbours: putting a key in,
    splitting, taking a key out, moving a key between siblings, merging.  Each
    comes with its effect on the keys in order, on node numbers and on shape. */
module TreeOps {
  import opened Wrappers
  import opened TreeShape

  // ---------------------------------------------------------------- sequences

  function InsAt<T>(s: seq<T>, i: nat, x: T): (r: seq<T>)
    requires i <= |s|
    ensures |r| == |s| + 1
    ensures forall j :: 0 <= j < |r| ==> r[j] == if j < i then s[j] else if j == i then x else s[j - 1]
  {
    s[..i] + [x] + s[i..]
  }

  function DelAt<T>(s: seq<T>, i: nat): (r: seq<T>)
    requires i < |s|
    ensures |r| == |s| - 1
    ensures forall j :: 0 <= j < |r| ==> r[j] == if j < i then s[j] else s[j + 1]
  {
    s[..i] + s[i + 1..]
  }

  // ---------------------------------------------------------------- paths

  /** The focus moves down to child i. */
  lemma FocusDown<K>(m: nat, fs: seq<Frame<K>>, t: Tree<K>, h: nat, i: nat) returns (down: seq<Frame<K>>)
    requires m >= MIN_ORDER && Placed(m, fs, t, h) && t.Node? && |t.kids| == |t.keys| + 1 && |t.keys| >= 1
    requires i <= |t.keys| && t.kids[i].Node?
    ensures AllFormed(fs)
    ensures down == [Frame(t.nn, t.keys, t.kids, i)] + fs
    ensures h >= 2 && Placed(m, down, t.kids[i], h - 1) && AllFormed(down)
    ensures |t.kids[i].kids| == |t.kids[i].keys| + 1 >= 2 && t.kids[i].nn != 0
    ensures PlugAll(down, t.kids[i]) == PlugAll(fs, t)
    ensures Before(down) == Before(fs) + Left(t.keys, t.kids, i)
    ensures After(down) == Right(t.keys, t.kids, i) + After(fs)
  {
    var f := Frame(t.nn, t.keys, t.kids, i);
    down := [f] + fs;
    assert down[0] == f && down[1..] == fs;
    PlacedParts(m, fs, t, h);
    assert Plug(f, t.kids[i]) == t;
    assert Full(m, t.kids[i], h - 1) && Loose(m, t.kids[i], h - 1);
    FitsFormed(m, down, h - 1);
  }

  /** Overwriting key i in place. */
  lemma KeyReplaced<K>(fs: seq<Frame<K>>, t: Tree<K>, i: nat, x: K) returns (p: nat)
    requires AllFormed(fs) && t.Node? && |t.kids| == |t.keys| + 1 && i < |t.keys|
    ensures p < |InOrder(PlugAll(fs, t))| && InOrder(PlugAll(fs, t))[p] == t.keys[i]
    ensures InOrder(PlugAll(fs, t.(keys := t.keys[i := x]))) == InOrder(PlugAll(fs, t))[p := x]
  {
    var k := t.keys[i := x];
    assert k[..i] == t.keys[..i] && k[i + 1..] == t.keys[i + 1..];
    KeyInWhole(fs, t, i);
    KeyInWhole(fs, t.(keys := k), i);
    var a := Before(fs) + (Left(t.keys, t.kids, i) + InOrder(t.kids[i]));
    var b := Weave(t.keys[i + 1..], t.kids[i + 1..]) + After(fs);
    Overwrite(a, t.keys[i], x, b);
    p := |a|;
  }

  lemma ReplacedShape<K>(m: nat, fs: seq<Frame<K>>, t: Tree<K>, h: nat, i: nat, x: K)
    requires m >= MIN_ORDER && Placed(m, fs, t, h) && t.Node? && i < |t.keys|
    ensures Rooted(m, PlugAll(fs, t.(keys := t.keys[i := x])), h + |fs|)
  {
    PlacedParts(m, fs, t, h);
    PlugAllRooted(m, fs, t.(keys := t.keys[i := x]), h);
  }

  lemma Overwrite<T>(a: seq<T>, x: T, y: T, b: seq<T>)
    ensures |a| < |a + [x] + b| && (a + [x] + b)[|a|] == x
    ensures (a + [x] + b)[|a| := y] == a + [y] + b
  {
  }

  /** Where key i of the focused node stands in the whole tree. */
  lemma KeyInWhole<K>(fs: seq<Frame<K>>, t: Tree<K>, i: nat)
    requires AllFormed(fs) && t.Node? && |t.kids| == |t.keys| + 1 && i < |t.keys|
    ensures InOrder(PlugAll(fs, t))
         == (Before(fs) + (Left(t.keys, t.kids, i) + InOrder(t.kids[i]))) + [t.keys[i]]
            + (Weave(t.keys[i + 1..], t.kids[i + 1..]) + After(fs))
  {
    PlugAllInOrder(fs, t);
    KeySplit(t.keys, t.kids, i);
    var b, l, x, r, a := Before(fs), Left(t.keys, t.kids, i) + InOrder(t.kids[i]), [t.keys[i]],
                         Weave(t.keys[i + 1..], t.kids[i + 1..]), After(fs);
    Assoc(b, l + x, r);
    Assoc(b, l, x);
    Assoc(b + l + x, r, a);
  }

  lemma KeySplit<K>(keys: seq<K>, kids: seq<Tree<K>>, i: nat)
    requires |kids| == |keys| + 1 && i < |keys|
    ensures Weave(keys, kids)
         == (Left(keys, kids, i) + InOrder(kids[i])) + [keys[i]] + Weave(keys[i + 1..], kids[i + 1..])
  {
    WeaveCut(keys, kids, i);
    WeaveLast(keys[..i], kids[..i], kids[i]);
  }

  // ---------------------------------------------------------------- insertion

  /** Key x at position pos, with the subtree r to its right. */
  function Inserted<K>(nn: nat, keys: seq<K>, kids: seq<Tree<K>>, pos: nat, x: K, r: Tree<K>): Tree<K>
    requires |kids| == |keys| + 1 && pos <= |keys|
  {
    Node(nn, InsAt(keys, pos, x), InsAt(kids, pos + 1, r))
  }

  lemma InsertedInOrder<K>(nn: nat, keys: seq<K>, kids: seq<Tree<K>>, pos: nat, x: K, r: Tree<K>)
    requires |kids| == |keys| + 1 && pos <= |keys|
    ensures InOrder(Inserted(nn, keys, kids, pos, x, r))
         == Left(keys, kids, pos) + (InOrder(kids[pos]) + [x] + InOrder(r)) + Right(keys, kids, pos)
  {
    var k, c := InsAt(keys, pos, x), InsAt(kids, pos + 1, r);
    WeaveAt(k, c, pos);
    CrossKey(k, c, pos);
    assert k[..pos] == keys[..pos] && c[..pos] == kids[..pos];
    assert k[pos + 1..] == keys[pos..] && c[pos + 2..] == kids[pos + 1..];
    var l, m, y, z, w := Left(keys, kids, pos), InOrder(kids[pos]), [x], InOrder(r), Right(keys, kids, pos);
    Assoc(l + m, y + z, w);
    Assoc(l + m, y, z);
    Assoc(l, m, y);
    Assoc(l, m + y, z);
  }

  /** Next to a terminal node, the new key simply falls between the two sides. */
  lemma InsertedLeaf<K>(fs: seq<Frame<K>>, t: Tree<K>, pos: nat, x: K) returns (p: nat)
    requires AllFormed(fs) && t.Node? && |t.kids| == |t.keys| + 1 && pos <= |t.keys| && t.kids[pos].Nil?
    ensures var s := InOrder(PlugAll(fs, t));
            && p <= |s|
            && s[..p] == Before(fs) + Left(t.keys, t.kids, pos)
            && s[p..] == Right(t.keys, t.kids, pos) + After(fs)
            && InsAt(s, p, x) == Before(fs) + InOrder(Inserted(t.nn, t.keys, t.kids, pos, x, Nil)) + After(fs)
  {
    InsertedInOrder(t.nn, t.keys, t.kids, pos, x, Nil);
    PlugAllInOrder(fs, t);
    WeaveAt(t.keys, t.kids, pos);
    var b, l, r, a := Before(fs), Left(t.keys, t.kids, pos), Right(t.keys, t.kids, pos), After(fs);
    p := |b + l|;
    assert [] + [x] + [] == [x];
    assert l + [] == l;
    Assoc(b + (l + [x]), r, a);
    Assoc(b, l + [x], r);
    Assoc(b, l, [x]);
    Assoc(b + l, r, a);
    Assoc(b, l, r);
  }

  lemma InsertedCnt<K>(t: Tree<K>, pos: nat, x: K, r: Tree<K>, n: nat)
    requires t.Node? && |t.kids| == |t.keys| + 1 && pos <= |t.keys|
    ensures Cnt(Inserted(t.nn, t.keys, t.kids, pos, x, r), n) == Cnt(t, n) + Cnt(r, n)
  {
    var c := InsAt(t.kids, pos + 1, r);
    CntAt(c, pos + 1, n);
    assert c[..pos + 1] == t.kids[..pos + 1] && c[pos + 2..] == t.kids[pos + 1..];
    assert t.kids == t.kids[..pos + 1] + t.kids[pos + 1..];
    CntConcat(t.kids[..pos + 1], t.kids[pos + 1..], n);
  }

  lemma InsertedShape<K>(m: nat, t: Tree<K>, pos: nat, x: K, r: Tree<K>, h: nat)
    requires Loose(m, t, h) && Full(m, r, h - 1) && pos <= |t.keys|
    ensures AllFull(m, InsAt(t.kids, pos + 1, r), h - 1)
    ensures |t.keys| + 1 < m ==> Loose(m, Inserted(t.nn, t.keys, t.kids, pos, x, r), h)
  {
  }

  /** Inserting into a node with room leaves a whole tree with one key more. */
  lemma InsertedWhole<K>(m: nat, fs: seq<Frame<K>>, t: Tree<K>, pos: nat, x: K, r: Tree<K>, h: nat)
    requires m >= MIN_ORDER && AllFormed(fs) && Room(m, fs, t, r, h)
    requires t.Node? && |t.kids| == |t.keys| + 1 && pos <= |t.keys| < m - 1
    ensures t.nn != 0
    ensures var t' := Inserted(t.nn, t.keys, t.kids, pos, x, r);
            && Rooted(m, PlugAll(fs, t'), h + |fs|)
            && InOrder(PlugAll(fs, t')) == Before(fs) + InOrder(t') + After(fs)
  {
    var t' := Inserted(t.nn, t.keys, t.kids, pos, x, r);
    RoomParts(m, fs, t, r, h);
    InsertedShape(m, t, pos, x, r, h);
    PlugAllRooted(m, fs, t', h);
    PlugAllInOrder(fs, t');
  }

  // ---------------------------------------------------------------- splitting

  /** The two halves of an overfull node around the key at mid. */
  function LeftHalf<K>(nn: nat, keys: seq<K>, kids: seq<Tree<K>>, mid: nat): Tree<K>
    requires mid < |keys| < |kids|
  {
    Node(nn, keys[..mid], kids[..mid + 1])
  }

  function RightHalf<K>(nn: nat, keys: seq<K>, kids: seq<Tree<K>>, mid: nat): Tree<K>
    requires mid < |keys| < |kids|
  {
    Node(nn, keys[mid + 1..], kids[mid + 1..])
  }

  lemma SplitInOrder<K>(nl: nat, nr: nat, keys: seq<K>, kids: seq<Tree<K>>, mid: nat)
    requires |kids| == |keys| + 1 && mid < |keys|
    ensures Weave(keys, kids)
         == InOrder(LeftHalf(nl, keys, kids, mid)) + [keys[mid]] + InOrder(RightHalf(nr, keys, kids, mid))
  {
    WeaveCut(keys, kids, mid);
    assert kids[..mid + 1] == kids[..mid] + [kids[mid]];
  }

  lemma SplitCnt<K>(nl: nat, nr: nat, keys: seq<K>, kids: seq<Tree<K>>, mid: nat, n: nat)
    requires |kids| == |keys| + 1 && mid < |keys|
    ensures Cnt(LeftHalf(nl, keys, kids, mid), n) + Cnt(RightHalf(nr, keys, kids, mid), n)
         == Cnt(Node(nl, keys, kids), n) + (if nr == n then 1 else 0)
  {
    assert kids == kids[..mid + 1] + kids[mid + 1..];
    CntConcat(kids[..mid + 1], kids[mid + 1..], n);
  }

  /** Both halves of a node with m keys are filled, for every order from 4 on. */
  lemma SplitFull<K>(m: nat, nl: nat, nr: nat, keys: seq<K>, kids: seq<Tree<K>>, h: nat)
    requires m >= MIN_ORDER && |keys| == m && |kids| == m + 1 && nl != 0 && nr != 0
    requires AllFull(m, kids, h)
    ensures Full(m, LeftHalf(nl, keys, kids, (m - 1) / 2), h + 1)
    ensures Full(m, RightHalf(nr, keys, kids, (m - 1) / 2), h + 1)
  {
  }

  /** The node that a key was put into, split where it stands. */
  lemma SplitPlaced<K>(m: nat, fs: seq<Frame<K>>, t: Tree<K>, pos: nat, x: K, r: Tree<K>, h: nat,
                       w: Tree<K>, left: Tree<K>, right: Tree<K>)
    requires m >= MIN_ORDER && Room(m, fs, t, r, h) && Num(right) != 0
    requires t.Node? && |t.kids| == |t.keys| + 1 && pos <= |t.keys| == m - 1
    requires w == Inserted(t.nn, t.keys, t.kids, pos, x, r)
    requires left == LeftHalf(w.nn, w.keys, w.kids, (m - 1) / 2)
    requires right == RightHalf(right.nn, w.keys, w.kids, (m - 1) / 2)
    ensures t.nn != 0 && Halves(m, fs, left, right, h)
  {
    RoomParts(m, fs, t, r, h);
    InsertedShape(m, t, pos, x, r, h);
    SplitFull(m, w.nn, right.nn, w.keys, w.kids, h - 1);
  }

  function InsertedIn<K>(f: Frame<K>, left: Tree<K>, sep: K, right: Tree<K>): Tree<K>
    requires WellFormed(f)
  {
    Inserted(f.nn, f.keys, Plug(f, left).kids, f.idx, sep, right)
  }

  /** A split seen from the parent: the separator and the right half go in next
      to the left half, and the keys in order stay what they were. */
  lemma SplitUp<K>(fs: seq<Frame<K>>, whole: seq<K>, left: Tree<K>, sep: K, right: Tree<K>)
    requires fs != [] && AllFormed(fs)
    requires whole == InOrder(left) + [sep] + InOrder(right)
    ensures Before(fs) + whole + After(fs)
         == Before(fs[1..]) + InOrder(InsertedIn(fs[0], left, sep, right)) + After(fs[1..])
  {
    var f := fs[0];
    var p := Plug(f, left);
    InsertedInOrder(p.nn, p.keys, p.kids, f.idx, sep, right);
    assert p.kids[..f.idx] == f.kids[..f.idx] && p.kids[f.idx + 1..] == f.kids[f.idx + 1..];
    var b, l, r, a := Before(fs[1..]), Left(f.keys, f.kids, f.idx), Right(f.keys, f.kids, f.idx), After(fs[1..]);
    Assoc(b + l + whole, r, a);
    Assoc(b, l, whole);
    Assoc(b, l + whole, r);
  }

  /** The same at the top, where the parent is a new root. */
  lemma SplitTop<K>(nn: nat, left: Tree<K>, sep: K, right: Tree<K>)
    ensures Before<K>([]) + InOrder(Inserted(nn, [], [left], 0, sep, right)) + After<K>([])
         == InOrder(left) + [sep] + InOrder(right)
  {
    InsertedInOrder(nn, [], [left], 0, sep, right);
    Edges([], [left]);
  }
}
