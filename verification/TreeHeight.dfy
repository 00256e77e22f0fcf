/** How many keys a tree of a given height must hold, and so how many nodes a
    descent can read. */
module TreeHeight {
  import opened TreeShape

  function Pow(b: nat, e: nat): nat {
    if e == 0 then 1 else b * Pow(b, e - 1)
  }

  /** k subtrees of height h with the keys between them. */
  lemma {:induction false} WeaveSize<K>(m: nat, keys: seq<K>, kids: seq<Tree<K>>, h: nat)
    requires m >= MIN_ORDER && |kids| == |keys| + 1 && AllFull(m, kids, h)
    ensures |Weave(keys, kids)| + 1 >= |kids| * Pow(m / 2, h)
    decreases h, |kids|
  {
    FullSize(m, kids[0], h);
    if keys != [] {
      WeaveSize(m, keys[1..], kids[1..], h);
      var p := Pow(m / 2, h);
      assert |kids| * p == p + |kids[1..]| * p;
    }
  }

  lemma {:induction false} FullSize<K>(m: nat, t: Tree<K>, h: nat)
    requires m >= MIN_ORDER && Full(m, t, h)
    ensures |InOrder(t)| + 1 >= Pow(m / 2, h)
    decreases h, 0
  {
    if h > 0 {
      WeaveSize(m, t.keys, t.kids, h - 1);
      Scale(m / 2, |t.kids|, Pow(m / 2, h - 1));
    }
  }

  lemma Scale(a: nat, b: nat, p: nat)
    requires a <= b
    ensures a * p <= b * p
  {
  }

  /** A tree of height d holds at least 2 * (m/2)^(d-1) - 1 keys. */
  lemma {:induction false} TreeSize<K>(m: nat, t: Tree<K>, d: nat)
    requires m >= MIN_ORDER && d >= 1 && Rooted(m, t, d)
    ensures |InOrder(t)| >= 2 * Pow(m / 2, d - 1) - 1
  {
    WeaveSize(m, t.keys, t.kids, d - 1);
    Scale(2, |t.kids|, Pow(m / 2, d - 1));
  }

  lemma {:induction false} PowGrows(b: nat, d: nat, e: nat)
    requires b >= 1 && d <= e
    ensures 1 <= Pow(b, d) <= Pow(b, e)
    decreases e
  {
    if d < e {
      PowGrows(b, d, e - 1);
      Scale(1, b, Pow(b, e - 1));
    } else if e > 0 {
      PowGrows(b, d - 1, e - 1);
      Scale(1, b, Pow(b, e - 1));
    }
  }

  /** A path of n nodes from the root needs 2 * (m/2)^(n-1) - 1 keys in the tree,
      so n is at most 1 + log base m/2 of (N+1)/2. */
  lemma PathLength<K>(m: nat, fs: seq<Frame<K>>, t: Tree<K>, h: nat, top: nat)
    requires m >= MIN_ORDER && Placed(m, fs, t, h) && Rooted(m, PlugAll(fs, t), top) && top == h + |fs|
    ensures |fs| + 1 <= top && 2 * Pow(m / 2, |fs|) <= |InOrder(PlugAll(fs, t))| + 1
  {
    PlacedParts(m, fs, t, h);
    TreeSize(m, PlugAll(fs, t), top);
    PowGrows(m / 2, |fs|, top - 1);
  }
}
