/** Key comparison, sortedness, and what a comparison inside a node says about the
    keys on either side. */
module KeyOrder {
  import opened TreeShape
  import opened TreeOps

  /** A comparison function whose sign is that of a total preorder. */
  ghost predicate TotalPreorder<K(!new)>(cmp: (K, K) -> int) {
    && (forall a, b :: cmp(a, b) <= 0 <==> cmp(b, a) >= 0)
    && (forall a, b, c :: cmp(a, b) <= 0 && cmp(b, c) <= 0 ==> cmp(a, c) <= 0)
  }

  /** srch never separates keys that ins puts in the other order. */
  ghost predicate Coarser<K(!new)>(ins: (K, K) -> int, srch: (K, K) -> int) {
    forall a, b :: ins(a, b) <= 0 ==> srch(a, b) <= 0
  }

  ghost predicate Sorted<K>(cmp: (K, K) -> int, s: seq<K>) {
    forall i, j :: 0 <= i < j < |s| ==> cmp(s[i], s[j]) <= 0
  }

  lemma CoarserSorted<K(!new)>(ins: (K, K) -> int, srch: (K, K) -> int, s: seq<K>)
    requires Coarser(ins, srch) && Sorted(ins, s)
    ensures Sorted(srch, s)
  {
  }

  ghost predicate AllBelow<K>(cmp: (K, K) -> int, s: seq<K>, key: K) {
    forall i :: 0 <= i < |s| ==> cmp(s[i], key) < 0
  }

  ghost predicate AllAtLeast<K>(cmp: (K, K) -> int, s: seq<K>, key: K) {
    forall i :: 0 <= i < |s| ==> cmp(s[i], key) >= 0
  }

  ghost predicate AllAbove<K>(cmp: (K, K) -> int, s: seq<K>, key: K) {
    forall i :: 0 <= i < |s| ==> cmp(s[i], key) > 0
  }

  /** No key of s is below the key; none is even equal to it if strict. */
  ghost predicate NoneBelow<K>(cmp: (K, K) -> int, s: seq<K>, key: K, strict: bool) {
    if strict then AllAbove(cmp, s, key) else AllAtLeast(cmp, s, key)
  }

  lemma LessLess<K(!new)>(cmp: (K, K) -> int, a: K, b: K, c: K)
    requires TotalPreorder(cmp)
    ensures cmp(a, b) <= 0 && cmp(b, c) < 0 ==> cmp(a, c) < 0
    ensures cmp(a, b) <= 0 && cmp(a, c) >= 0 ==> cmp(b, c) >= 0
    ensures cmp(a, b) <= 0 && cmp(a, c) > 0 ==> cmp(b, c) > 0
  {
    assert cmp(a, b) <= 0 && cmp(a, c) >= 0 ==> cmp(c, a) <= 0 && cmp(c, b) <= 0;
    assert cmp(a, b) <= 0 && cmp(b, c) <= 0 ==> cmp(a, c) <= 0;
  }

  /** A sorted sequence cut at one of its elements. */
  lemma SortedCut<K(!new)>(cmp: (K, K) -> int, a: seq<K>, x: K, b: seq<K>, key: K)
    requires TotalPreorder(cmp) && Sorted(cmp, a + [x] + b)
    ensures Sorted(cmp, a) && Sorted(cmp, b)
    ensures cmp(x, key) < 0 ==> AllBelow(cmp, a + [x], key)
    ensures cmp(x, key) >= 0 ==> AllAtLeast(cmp, [x] + b, key)
    ensures cmp(x, key) > 0 ==> AllAbove(cmp, [x] + b, key)
  {
    CutOrder(cmp, a, x, b);
    if cmp(x, key) < 0 {
      BelowLast(cmp, a, x, key);
    } else {
      AboveFirst(cmp, x, b, key);
    }
  }

  lemma CutOrder<K>(cmp: (K, K) -> int, a: seq<K>, x: K, b: seq<K>)
    requires Sorted(cmp, a + [x] + b)
    ensures Sorted(cmp, a) && Sorted(cmp, b)
    ensures (forall i :: 0 <= i < |a| ==> cmp(a[i], x) <= 0) && forall i :: 0 <= i < |b| ==> cmp(x, b[i]) <= 0
  {
    var s := a + [x] + b;
    assert s[|a|] == x;
    assert forall i :: 0 <= i < |a| ==> a[i] == s[i];
    assert forall i :: 0 <= i < |b| ==> b[i] == s[|a| + 1 + i];
  }

  lemma BelowLast<K(!new)>(cmp: (K, K) -> int, a: seq<K>, x: K, key: K)
    requires TotalPreorder(cmp) && cmp(x, key) < 0 && forall i :: 0 <= i < |a| ==> cmp(a[i], x) <= 0
    ensures AllBelow(cmp, a + [x], key)
  {
    forall i | 0 <= i < |a|
      ensures cmp(a[i], key) < 0
    {
      LessLess(cmp, a[i], x, key);
    }
  }

  lemma AboveFirst<K(!new)>(cmp: (K, K) -> int, x: K, b: seq<K>, key: K)
    requires TotalPreorder(cmp) && cmp(x, key) >= 0 && forall i :: 0 <= i < |b| ==> cmp(x, b[i]) <= 0
    ensures AllAtLeast(cmp, [x] + b, key) && (cmp(x, key) > 0 ==> AllAbove(cmp, [x] + b, key))
  {
    forall i | 0 <= i < |b|
      ensures cmp(b[i], key) >= 0 && (cmp(x, key) > 0 ==> cmp(b[i], key) > 0)
    {
      LessLess(cmp, x, b[i], key);
    }
  }

  lemma SortedParts<K>(cmp: (K, K) -> int, a: seq<K>, b: seq<K>, c: seq<K>)
    requires Sorted(cmp, a + b + c)
    ensures Sorted(cmp, b)
  {
    assert forall i :: 0 <= i < |b| ==> b[i] == (a + b + c)[|a| + i];
  }

  /** Comparing with key i of a node bounds the whole part of the node beside it. */
  lemma NodeCut<K(!new)>(cmp: (K, K) -> int, keys: seq<K>, kids: seq<Tree<K>>, i: nat, key: K)
    requires TotalPreorder(cmp) && |kids| == |keys| + 1 && i < |keys|
    requires Sorted(cmp, Weave(keys, kids))
    ensures cmp(keys[i], key) < 0 ==> AllBelow(cmp, Left(keys, kids, i + 1), key)
    ensures cmp(keys[i], key) >= 0 ==> AllAtLeast(cmp, Right(keys, kids, i), key)
    ensures cmp(keys[i], key) > 0 ==> AllAbove(cmp, Right(keys, kids, i), key)
  {
    WeaveCut(keys, kids, i);
    WeaveRight(keys, kids, i);
    WeaveLeft(keys, kids, i);
    SortedCut(cmp, Weave(keys[..i], kids[..i] + [kids[i]]), keys[i], Weave(keys[i + 1..], kids[i + 1..]), key);
  }

  /** A position within the focused node, found by comparing with the key before
      it, bounds what the whole tree has to the left. */
  lemma PlaceLeft<K(!new)>(cmp: (K, K) -> int, fs: seq<Frame<K>>, t: Tree<K>, i: nat, key: K)
    requires TotalPreorder(cmp) && AllFormed(fs)
    requires t.Node? && |t.kids| == |t.keys| + 1 && i <= |t.keys| && Sorted(cmp, InOrder(PlugAll(fs, t)))
    requires AllBelow(cmp, Before(fs), key)
    requires i > 0 ==> cmp(t.keys[i - 1], key) < 0
    ensures AllBelow(cmp, Before(fs) + Left(t.keys, t.kids, i), key)
  {
    SortedNode(cmp, fs, t);
    if i > 0 {
      NodeCut(cmp, t.keys, t.kids, i - 1, key);
    } else {
      Edges(t.keys, t.kids);
    }
    BelowBoth(cmp, Before(fs), Left(t.keys, t.kids, i), key);
  }

  lemma BelowBoth<K>(cmp: (K, K) -> int, a: seq<K>, b: seq<K>, key: K)
    requires AllBelow(cmp, a, key) && AllBelow(cmp, b, key)
    ensures AllBelow(cmp, a + b, key)
  {
  }

  lemma SortedNode<K>(cmp: (K, K) -> int, fs: seq<Frame<K>>, t: Tree<K>)
    requires AllFormed(fs) && t.Node? && |t.kids| == |t.keys| + 1 && Sorted(cmp, InOrder(PlugAll(fs, t)))
    ensures Sorted(cmp, InOrder(t))
  {
    PlugAllInOrder(fs, t);
    SortedParts(cmp, Before(fs), InOrder(t), After(fs));
  }

  /** Likewise to the right, by the key after it. */
  lemma PlaceRight<K(!new)>(cmp: (K, K) -> int, fs: seq<Frame<K>>, t: Tree<K>, i: nat, key: K, strict: bool)
    requires TotalPreorder(cmp) && AllFormed(fs)
    requires t.Node? && |t.kids| == |t.keys| + 1 && i <= |t.keys| && Sorted(cmp, InOrder(PlugAll(fs, t)))
    requires NoneBelow(cmp, After(fs), key, strict)
    requires i < |t.keys| ==> if strict then cmp(t.keys[i], key) > 0 else cmp(t.keys[i], key) >= 0
    ensures NoneBelow(cmp, Right(t.keys, t.kids, i) + After(fs), key, strict)
  {
    SortedNode(cmp, fs, t);
    if i < |t.keys| {
      NodeCut(cmp, t.keys, t.kids, i, key);
    } else {
      Edges(t.keys, t.kids);
    }
  }

  /** Putting a key between what is below it and what is not keeps a sequence sorted. */
  lemma SortedInsert<K(!new)>(cmp: (K, K) -> int, a: seq<K>, b: seq<K>, key: K)
    requires TotalPreorder(cmp) && Sorted(cmp, a + b)
    requires AllBelow(cmp, a, key) && AllAtLeast(cmp, b, key)
    ensures Sorted(cmp, a + [key] + b)
  {
    var s, r := a + b, a + [key] + b;
    forall i, j | 0 <= i < j < |r|
      ensures cmp(r[i], r[j]) <= 0
    {
      if j < |a| || i > |a| || (i < |a| && j > |a|) {
        assert r[i] == s[if i < |a| then i else i - 1] && r[j] == s[if j < |a| then j else j - 1];
      }
    }
  }

  lemma SortedDelete<K>(cmp: (K, K) -> int, s: seq<K>, p: nat)
    requires Sorted(cmp, s) && p < |s|
    ensures Sorted(cmp, DelAt(s, p))
  {
  }

  lemma SortedReplace<K(!new)>(cmp: (K, K) -> int, s: seq<K>, p: nat, key: K)
    requires TotalPreorder(cmp) && Sorted(cmp, s) && p < |s| && cmp(s[p], key) == 0
    ensures Sorted(cmp, s[p := key])
  {
    var r := s[p := key];
    forall i, j | 0 <= i < j < |r|
      ensures cmp(r[i], r[j]) <= 0
    {
      if i == p {
        assert cmp(key, s[p]) <= 0 && cmp(s[p], s[j]) <= 0;
      } else if j == p {
        assert cmp(s[i], s[p]) <= 0;
      }
    }
  }
}
