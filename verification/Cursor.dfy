/** A search cursor seen as a position in the keys in order: which keys it has
    gone past, and what each of its moves skips. */
module Cursor {
  import opened Wrappers
  import opened TreeShape
  import opened TreeOps
  import opened TreeRemove
  import opened KeyOrder

  datatype PNode = PNode(nn: nat, current_idx: int)

  /** A key that a search for key returns; any key, if there is none to search for. */
  predicate Hit<K>(cmp: (K, K) -> int, key: Option<K>, k: K) {
    key.None? || cmp(k, key.value) == 0
  }

  ghost predicate NoHit<K>(cmp: (K, K) -> int, key: Option<K>, s: seq<K>, a: int, b: int) {
    forall j :: a <= j < b && 0 <= j < |s| ==> !Hit(cmp, key, s[j])
  }

  /** The list shows the frames, with the child index of each. */
  ghost predicate StackOf<K>(ppn: seq<PNode>, fs: seq<Frame<K>>) {
    && |ppn| == |fs| + 1 && ppn[|fs|].nn == 0
    && forall i :: 0 <= i < |fs| ==> ppn[i] == PNode(fs[i].nn, fs[i].idx)
  }

  /** How many keys lie before child ci of the focus; all of its keys, if ci is past
      its last child. */
  function Consumed<K>(fs: seq<Frame<K>>, t: Tree<K>, ci: nat): nat
    requires AllFormed(fs) && t.Node? && |t.kids| == |t.keys| + 1
  {
    |Before(fs)| + if ci <= |t.keys| then |Left(t.keys, t.kids, ci)| else |InOrder(t)|
  }

  function Size<K>(t: Tree<K>): nat {
    if t.Nil? then 0 else 1 + SizeAll(t.kids)
  }

  function SizeAll<K>(kids: seq<Tree<K>>): nat
    decreases kids
  {
    if kids == [] then 0 else Size(kids[0]) + SizeAll(kids[1..])
  }

  /** How many nodes the cursor has not been to yet. */
  function Pending<K>(fs: seq<Frame<K>>, t: Tree<K>, ci: nat): nat
    requires AllFormed(fs)
  {
    PendingAbove(fs) + if t.Node? && ci <= |t.kids| then SizeAll(t.kids[ci..]) else 0
  }

  function PendingAbove<K>(fs: seq<Frame<K>>): nat
    requires AllFormed(fs)
  {
    if fs == [] then 0 else SizeAll(fs[0].kids[fs[0].idx + 1..]) + PendingAbove(fs[1..])
  }

  lemma {:induction false} SizeCut<K>(kids: seq<Tree<K>>, i: nat, j: nat)
    requires i <= j <= |kids|
    ensures SizeAll(kids[i..]) >= SizeAll(kids[j..])
    decreases j - i
  {
    if i < j {
      assert kids[i..][1..] == kids[i + 1..];
      SizeCut(kids, i + 1, j);
    }
  }

  /** Going down leaves one node less to go to. */
  lemma PendingDown<K>(fs: seq<Frame<K>>, t: Tree<K>, ci: nat, i: nat)
    requires AllFormed(fs) && t.Node? && t.nn != 0 && |t.kids| == |t.keys| + 1 && ci <= i <= |t.keys| && t.kids[i].Node?
    ensures AllFormed([Under(t, i)] + fs)
    ensures Pending([Under(t, i)] + fs, t.kids[i], 0) < Pending(fs, t, ci)
  {
    var down := [Under(t, i)] + fs;
    assert down[1..] == fs && t.kids[i].kids[0..] == t.kids[i].kids;
    SizeCut(t.kids, ci, i);
    assert t.kids[i..][1..] == t.kids[i + 1..];
  }

  /** Going up leaves no more to go to than before. */
  lemma PendingUp<K>(fs: seq<Frame<K>>, t: Tree<K>, ci: nat)
    requires AllFormed(fs) && fs != []
    ensures Pending(fs[1..], Plug(fs[0], t), fs[0].idx + 1) <= Pending(fs, t, ci)
  {
    var f := fs[0];
    assert Plug(f, t).kids[f.idx + 1..] == f.kids[f.idx + 1..];
  }

  // ---------------------------------------------------------------- positions

  /** Where key i of the focus stands, and what is consumed after it. */
  lemma KeyAt<K>(fs: seq<Frame<K>>, t: Tree<K>, i: nat) returns (s: seq<K>, q: nat)
    requires AllFormed(fs) && t.Node? && |t.kids| == |t.keys| + 1 && i < |t.keys|
    ensures s == InOrder(PlugAll(fs, t)) && q == |Before(fs)| + |Left(t.keys, t.kids, i)| + |InOrder(t.kids[i])|
    ensures q < |s| && s[q] == t.keys[i] && Consumed(fs, t, i + 1) == q + 1 && q == KeyPos(fs, t, i)
  {
    s, q := InOrder(PlugAll(fs, t)), |Before(fs)| + |Left(t.keys, t.kids, i)| + |InOrder(t.kids[i])|;
    KeyInWhole(fs, t, i);
    CrossKey(t.keys, t.kids, i);
  }

  lemma ConsumedBound<K>(fs: seq<Frame<K>>, t: Tree<K>, ci: nat)
    requires AllFormed(fs) && t.Node? && |t.kids| == |t.keys| + 1
    ensures Consumed(fs, t, ci) <= |Before(fs)| + |InOrder(t)| <= |InOrder(PlugAll(fs, t))|
    ensures fs == [] ==> |Before(fs)| + |InOrder(t)| == |InOrder(PlugAll(fs, t))|
  {
    PlugAllInOrder(fs, t);
    if ci <= |t.keys| {
      WeaveAt(t.keys, t.kids, ci);
    }
  }

  lemma NoHitPart<K>(cmp: (K, K) -> int, key: Option<K>, s: seq<K>, x: seq<K>, y: seq<K>, z: seq<K>)
    requires s == x + y + z && forall j :: 0 <= j < |y| ==> !Hit(cmp, key, y[j])
    ensures NoHit(cmp, key, s, |x|, |x| + |y|)
  {
    assert forall j :: |x| <= j < |x| + |y| ==> s[j] == y[j - |x|];
  }

  /** A node's keys within the whole tree, split at a child. */
  lemma WholeAt<K>(fs: seq<Frame<K>>, t: Tree<K>, i: nat) returns (s: seq<K>, b: seq<K>, l: seq<K>, k: seq<K>, r: seq<K>, a: seq<K>)
    requires AllFormed(fs) && t.Node? && |t.kids| == |t.keys| + 1 && i <= |t.keys|
    ensures b == Before(fs) && l == Left(t.keys, t.kids, i) && k == InOrder(t.kids[i]) && r == Right(t.keys, t.kids, i)
    ensures a == After(fs) && s == InOrder(PlugAll(fs, t))
    ensures InOrder(t) == l + k + r && s == b + InOrder(t) + a
    ensures s == b + l + (k + r + a) && s == (b + l + k) + r + a
  {
    s, b, l, k, r, a := InOrder(PlugAll(fs, t)), Before(fs), Left(t.keys, t.kids, i), InOrder(t.kids[i]),
                        Right(t.keys, t.kids, i), After(fs);
    PlugAllInOrder(fs, t);
    WeaveAt(t.keys, t.kids, i);
    FiveParts(b, l, k, r, a);
  }

  lemma FiveParts<T>(b: seq<T>, l: seq<T>, k: seq<T>, r: seq<T>, a: seq<T>)
    ensures b + (l + k + r) + a == b + l + (k + r + a) == (b + l + k) + r + a
  {
  }

  /** The scan of a node skips only keys below the one searched for. */
  lemma ScanSkips<K(!new)>(cmp: (K, K) -> int, fs: seq<Frame<K>>, t: Tree<K>, ci: nat, i: nat, key: Option<K>)
    requires TotalPreorder(cmp) && AllFormed(fs) && t.Node? && |t.kids| == |t.keys| + 1 && ci <= i <= |t.keys|
    requires Sorted(cmp, InOrder(PlugAll(fs, t)))
    requires i > ci ==> key.Some? && cmp(t.keys[i - 1], key.value) < 0
    ensures NoHit(cmp, key, InOrder(PlugAll(fs, t)), Consumed(fs, t, ci), Consumed(fs, t, i))
  {
    if i > ci {
      var s, b, l, k, r, a := WholeAt(fs, t, i);
      SortedNode(cmp, fs, t);
      NodeCut(cmp, t.keys, t.kids, i - 1, key.value);
      NoHitPart(cmp, key, s, b, l, k + r + a);
    }
  }

  /** Leaving a leaf skips only keys above the one searched for. */
  lemma LeafSkips<K(!new)>(cmp: (K, K) -> int, fs: seq<Frame<K>>, t: Tree<K>, i: nat, key: Option<K>)
    requires TotalPreorder(cmp) && AllFormed(fs) && t.Node? && |t.kids| == |t.keys| + 1
    requires Sorted(cmp, InOrder(PlugAll(fs, t)))
    requires i < |t.keys| ==> key.Some? && cmp(t.keys[i], key.value) > 0 && t.kids[i].Nil?
    requires i == |t.keys| ==> t.kids[i].Nil?
    ensures NoHit(cmp, key, InOrder(PlugAll(fs, t)), Consumed(fs, t, i), |Before(fs)| + |InOrder(t)|)
  {
    if i < |t.keys| {
      var s, b, l, k, r, a := WholeAt(fs, t, i);
      SortedNode(cmp, fs, t);
      NodeCut(cmp, t.keys, t.kids, i, key.value);
      NoHitPart(cmp, key, s, b + l + k, r, a);
    } else if i == |t.keys| {
      LastChild(t.keys, t.kids);
    }
  }

  /** Going down consumes nothing. */
  lemma ConsumedDown<K>(fs: seq<Frame<K>>, t: Tree<K>, i: nat)
    requires AllFormed(fs) && t.Node? && t.nn != 0 && |t.kids| == |t.keys| + 1 && i <= |t.keys|
    requires t.kids[i].Node? && |t.kids[i].kids| == |t.kids[i].keys| + 1
    ensures AllFormed([Under(t, i)] + fs)
    ensures Consumed([Under(t, i)] + fs, t.kids[i], 0) == Consumed(fs, t, i)
  {
    var down := [Under(t, i)] + fs;
    assert down[1..] == fs;
    Edges(t.kids[i].keys, t.kids[i].kids);
  }

  /** Going up, the next key in order, at q, is the parent's key beside the child. */
  lemma ConsumedUp<K>(fs: seq<Frame<K>>, t: Tree<K>, p: Tree<K>) returns (s: seq<K>, q: nat, done: nat)
    requires fs != [] && AllFormed(fs) && Parent(fs, t, p) && p.Node? && |p.kids| == |p.keys| + 1
    ensures s == InOrder(PlugAll(fs, t)) && q == |Before(fs)| + |InOrder(t)| && done == Consumed(fs[1..], p, fs[0].idx + 1)
    ensures fs[0].idx < |p.keys| ==> q < |s| && s[q] == p.keys[fs[0].idx] && done == q + 1
    ensures fs[0].idx >= |p.keys| ==> done == q
  {
    var i := fs[0].idx;
    s, q, done := InOrder(PlugAll(fs, t)), |Before(fs)| + |InOrder(t)|, Consumed(fs[1..], p, i + 1);
    var l := UpLeft(fs, t, p);
    if i < |p.keys| {
      s, q := KeyAt(fs[1..], p, i);
    } else {
      LastChild(p.keys, p.kids);
    }
  }

  lemma UpLeft<K>(fs: seq<Frame<K>>, t: Tree<K>, p: Tree<K>) returns (i: nat)
    requires fs != [] && AllFormed(fs) && Parent(fs, t, p) && p.Node? && |p.kids| == |p.keys| + 1
    ensures i == fs[0].idx <= |p.keys| && p.kids[i] == t
    ensures InOrder(PlugAll(fs, t)) == InOrder(PlugAll(fs[1..], p))
    ensures |Before(fs)| == |Before(fs[1..])| + |Left(p.keys, p.kids, i)|
  {
    i := fs[0].idx;
    ParentParts(fs, t, p);
    assert p.kids[..i] == fs[0].kids[..i];
  }

  lemma LastChild<K>(keys: seq<K>, kids: seq<Tree<K>>)
    requires |kids| == |keys| + 1
    ensures |Weave(keys, kids)| == |Left(keys, kids, |keys|)| + |InOrder(kids[|keys|])|
  {
    WeaveAt(keys, kids, |keys|);
    Edges(keys, kids);
  }

  /** What a step of the search does that starts at position q of the keys s and
      ends at done: it returns the key it has gone past last, or it has gone past
      no hit. */
  ghost predicate StepResult<K>(cmp: (K, K) -> int, key: Option<K>, s: seq<K>, q: nat, done: nat, r: Option<K>) {
    match r
    case Some(k) => q < done <= |s| && s[done - 1] == k && Hit(cmp, key, k) && NoHit(cmp, key, s, q, done - 1)
    case None => q <= done && NoHit(cmp, key, s, q, done)
  }

  /** Going up and testing the parent's key. */
  lemma UpResult<K>(cmp: (K, K) -> int, key: Option<K>, fs: seq<Frame<K>>, t: Tree<K>, p: Tree<K>, r: Option<K>)
    requires fs != [] && AllFormed(fs) && Parent(fs, t, p) && p.Node? && |p.kids| == |p.keys| + 1
    requires r == if fs[0].idx < |p.keys| && Hit(cmp, key, p.keys[fs[0].idx]) then Some(p.keys[fs[0].idx]) else None
    ensures StepResult(cmp, key, InOrder(PlugAll(fs, t)), |Before(fs)| + |InOrder(t)|,
                       Consumed(fs[1..], p, fs[0].idx + 1), r)
    ensures r.Some? ==> fs[0].idx < |p.keys|
  {
    var s, q, done := ConsumedUp(fs, t, p);
    OneStep(cmp, key, s, q, done, r);
  }

  lemma OneStep<K>(cmp: (K, K) -> int, key: Option<K>, s: seq<K>, q: nat, done: nat, r: Option<K>)
    requires q <= done && (done == q ==> r.None?)
    requires done > q ==> done == q + 1 <= |s| && r == if Hit(cmp, key, s[q]) then Some(s[q]) else None
    ensures StepResult(cmp, key, s, q, done, r)
  {
  }

  lemma StepThen<K>(cmp: (K, K) -> int, key: Option<K>, s: seq<K>, a: nat, b: nat, done: nat, r: Option<K>)
    requires a <= b && NoHit(cmp, key, s, a, b) && StepResult(cmp, key, s, b, done, r)
    ensures StepResult(cmp, key, s, a, done, r)
  {
  }

  /** A hit with no subtree to its left. */
  lemma HereResult<K>(cmp: (K, K) -> int, key: Option<K>, fs: seq<Frame<K>>, t: Tree<K>, ci: nat, i: nat)
    requires AllFormed(fs) && t.Node? && |t.kids| == |t.keys| + 1 && ci <= i < |t.keys| && t.kids[i].Nil?
    requires Hit(cmp, key, t.keys[i]) && Consumed(fs, t, ci) <= Consumed(fs, t, i)
    requires NoHit(cmp, key, InOrder(PlugAll(fs, t)), Consumed(fs, t, ci), Consumed(fs, t, i))
    ensures StepResult(cmp, key, InOrder(PlugAll(fs, t)), Consumed(fs, t, ci), Consumed(fs, t, i + 1), Some(t.keys[i]))
  {
    var s, q := KeyAt(fs, t, i);
  }

  /** Consuming goes on to the right. */
  lemma ConsumedGrows<K>(fs: seq<Frame<K>>, t: Tree<K>, ci: nat, i: nat)
    requires AllFormed(fs) && t.Node? && |t.kids| == |t.keys| + 1 && ci <= i
    ensures Consumed(fs, t, ci) <= Consumed(fs, t, i) <= |Before(fs)| + |InOrder(t)|
    decreases i - ci
  {
    ConsumedBound(fs, t, i);
    if ci < i {
      if i <= |t.keys| {
        CrossKey(t.keys, t.kids, i - 1);
      } else if i - 1 <= |t.keys| {
        WeaveAt(t.keys, t.kids, i - 1);
      }
      ConsumedGrows(fs, t, ci, i - 1);
    }
  }

  /** A node of a whole tree is at its place. */
  lemma {:induction false} PlacedInWhole<K>(m: nat, fs: seq<Frame<K>>, t: Tree<K>, top: nat) returns (h: nat)
    requires m >= MIN_ORDER && AllFormed(fs) && Rooted(m, PlugAll(fs, t), top) && t.Node?
    ensures top == h + |fs| && Placed(m, fs, t, h) && t.nn != 0 && |t.kids| == |t.keys| + 1 && t.keys != []
  {
    if fs == [] {
      h := top;
    } else {
      var p := Plug(fs[0], t);
      var g := PlacedInWhole(m, fs[1..], p, top);
      PlacedParts(m, fs[1..], p, g);
      assert Full(m, p.kids[fs[0].idx], g - 1);
      h := g - 1;
      assert Loose(m, t, h);
      assert forall i :: 0 <= i < |fs[0].kids| && i != fs[0].idx ==> fs[0].kids[i] == p.kids[i];
    }
  }

  /** The keys that a search for key is to return, in order. */
  function Hits<K>(cmp: (K, K) -> int, key: Option<K>, s: seq<K>): seq<K> {
    if s == [] then []
    else Hits(cmp, key, s[..|s| - 1]) + if Hit(cmp, key, s[|s| - 1]) then [s[|s| - 1]] else []
  }

  lemma {:induction false} HitsSkip<K>(cmp: (K, K) -> int, key: Option<K>, s: seq<K>, a: nat, b: nat)
    requires a <= b <= |s| && NoHit(cmp, key, s, a, b)
    ensures Hits(cmp, key, s[..b]) == Hits(cmp, key, s[..a])
    decreases b
  {
    if a < b {
      assert s[..b][..b - 1] == s[..b - 1];
      HitsSkip(cmp, key, s, a, b - 1);
    }
  }

  lemma HitsStep<K>(cmp: (K, K) -> int, key: Option<K>, s: seq<K>, q: nat, done: nat, k: K)
    requires StepResult(cmp, key, s, q, done, Some(k))
    ensures Hits(cmp, key, s[..done]) == Hits(cmp, key, s[..q]) + [k]
  {
    HitsSkip(cmp, key, s, q, done - 1);
    assert s[..done][..done - 1] == s[..done - 1];
  }

  /** Between two hits in a sorted sequence there are only hits. */
  lemma HitsConvex<K(!new)>(cmp: (K, K) -> int, key: Option<K>, s: seq<K>, i: nat, j: nat, k: nat)
    requires TotalPreorder(cmp) && Sorted(cmp, s) && i <= j <= k < |s|
    requires Hit(cmp, key, s[i]) && Hit(cmp, key, s[k])
    ensures Hit(cmp, key, s[j])
  {
    if key.Some? && i < j < k {
      LessLess(cmp, s[i], s[j], key.value);
      LessLess(cmp, s[j], s[k], key.value);
    }
  }

  /** In a sorted sequence the hits are one run, */
  lemma {:induction false} HitsRun<K(!new)>(cmp: (K, K) -> int, key: Option<K>, s: seq<K>) returns (a: nat, b: nat)
    requires TotalPreorder(cmp) && Sorted(cmp, s)
    ensures a <= b <= |s| && forall i :: 0 <= i < |s| ==> (Hit(cmp, key, s[i]) <==> a <= i < b)
  {
    a, b := 0, 0;
    if s != [] {
      var n := |s| - 1;
      a, b := HitsRun(cmp, key, s[..n]);
      assert forall i :: 0 <= i < n ==> s[..n][i] == s[i];
      if Hit(cmp, key, s[n]) {
        if a < b < n {
          HitsConvex(cmp, key, s, a, b, n);
        }
        a, b := if a == b then n else a, n + 1;
      }
    }
  }

  /** and that run is what a search returns; without a key to search for, it is
      the whole sequence. */
  lemma RunHits<K>(cmp: (K, K) -> int, key: Option<K>, s: seq<K>, a: nat, b: nat)
    requires a <= b <= |s| && forall i :: 0 <= i < |s| ==> (Hit(cmp, key, s[i]) <==> a <= i < b)
    ensures Hits(cmp, key, s) == s[a..b]
    ensures key.None? ==> Hits(cmp, key, s) == s
  {
    RunPrefix(cmp, key, s, a, b, |s|);
    assert s[..|s|] == s;
    if key.None? && s != [] {
      assert Hit(cmp, key, s[0]) && Hit(cmp, key, s[|s| - 1]);
    }
  }

  function Min(a: nat, b: nat): nat {
    if a < b then a else b
  }

  lemma {:induction false} RunPrefix<K>(cmp: (K, K) -> int, key: Option<K>, s: seq<K>, a: nat, b: nat, n: nat)
    requires a <= b <= |s| && forall i :: 0 <= i < |s| ==> (Hit(cmp, key, s[i]) <==> a <= i < b)
    requires n <= |s|
    ensures Hits(cmp, key, s[..n]) == s[Min(a, n)..Min(b, n)]
  {
    if n > 0 {
      RunPrefix(cmp, key, s, a, b, n - 1);
      assert s[..n][..n - 1] == s[..n - 1];
      if a <= n - 1 < b {
        SliceGrows(s, a, n);
      }
    }
  }

  lemma SliceGrows<T>(s: seq<T>, a: nat, n: nat)
    requires a < n <= |s|
    ensures s[a..n] == s[a..n - 1] + [s[n - 1]]
  {
  }

  /** The node numbers on a list. */
  function Numbers(ppn: seq<PNode>): (r: seq<nat>)
    ensures |r| == |ppn| && forall i :: 0 <= i < |r| ==> r[i] == ppn[i].nn
  {
    seq(|ppn|, i requires 0 <= i < |ppn| => ppn[i].nn)
  }

  /** The list and the path without the nearest parent. */
  lemma StackUp<K>(ppn: seq<PNode>, fs: seq<Frame<K>>, t: Tree<K>, p: Tree<K>)
    requires fs != [] && AllFormed(fs) && StackOf(ppn, fs) && p == Plug(fs[0], t)
    ensures AllFormed(fs[1..]) && StackOf(ppn[1..], fs[1..]) && PlugAll(fs[1..], p) == PlugAll(fs, t)
    ensures p.Node? && ppn[0] == PNode(p.nn, fs[0].idx) && p.nn != 0
    ensures |p.kids| == |p.keys| + 1 && 0 <= fs[0].idx <= |p.keys|
  {
  }

  /** The list of parents of a node (PALIST), kept as the cursor of a search. */
  class PAList<K> {
    var ppn: seq<PNode>     // nearest parent first; a node number 0 ends the list
    var fSearched: bool
    var current_node: nat
    var current_idx: int

    ghost var begun: bool            // a search has been made with this list
    ghost var fs: seq<Frame<K>>      // the path to the current node,
    ghost var focus: Tree<K>         // and the subtree below it

    /** A fresh list.  The index stored at its end is not initialized. */
    constructor (junk: int)
      ensures !begun && On(Nil) && forall t: Tree<K> :: On(t)
      ensures Done() == 0
    {
      ppn := [PNode(0, junk)];
      fSearched, begun := false, false;
      current_idx := 0;
    }

    /** The list is fresh, or is a path into the tree. */
    ghost predicate On(whole: Tree<K>)
      reads this
    {
      && fSearched == begun
      && |ppn| == (if begun then |fs| + 1 else 1) && ppn[|ppn| - 1].nn == 0
      && if begun then
           && AllFormed(fs) && StackOf(ppn, fs) && PlugAll(fs, focus) == whole
           && focus.Node? && focus.nn != 0 && |focus.kids| == |focus.keys| + 1
           && 0 <= current_idx <= |focus.keys| + 1
           && (fs != [] ==> current_node == focus.nn)
         else
           current_idx == 0
    }

    /** How many of the keys in order the search has gone past. */
    ghost function Done(): nat
      reads this
    {
      if begun && AllFormed(fs) && focus.Node? && |focus.kids| == |focus.keys| + 1 && current_idx >= 0
      then Consumed(fs, focus, current_idx) else 0
    }

    /** The list is as a search leaves it that has just returned a key. */
    ghost predicate Returned()
      reads this
    {
      begun && focus.Node? && current_node == focus.nn && 1 <= current_idx <= |focus.keys|
    }

    method Add(nn: nat, idx: int)
      modifies this`ppn
      ensures ppn == [PNode(nn, idx)] + old(ppn)
    {
      ppn := [PNode(nn, idx)] + ppn;
    }

    /** Take the nearest parent off the list, and its index with it. */
    method Pop() returns (rc: nat)
      modifies this`ppn, this`current_idx
      ensures old(ppn) == [] ==> rc == 0 && ppn == [] && current_idx == old(current_idx)
      ensures old(ppn) != [] ==> rc == old(ppn)[0].nn && current_idx == old(ppn)[0].current_idx && ppn == old(ppn)[1..]
    {
      if ppn == [] {
        return 0;
      }
      var p := ppn[0];
      rc := p.nn;
      current_idx := p.current_idx;
      ppn := ppn[1..];
    }

    /** Go up to the parent, past the child. */
    method Climb(ghost whole: Tree<K>) returns (nn: nat, i: int)
      requires begun && On(whole)
      modifies this
      ensures ppn == old(ppn)[1..]
      ensures nn == 0 <==> old(fs) == []
      ensures nn != 0 ==>
                && begun && On(whole) && fs == old(fs)[1..] && focus == Plug(old(fs)[0], old(focus)) && nn == focus.nn
                && current_node == nn && i == old(fs)[0].idx == current_idx - 1
      ensures nn != 0 ==> Pending(fs, focus, current_idx) <= old(Pending(fs, focus, current_idx))
    {
      ghost var up, p := if fs == [] then [] else fs[1..], if fs == [] then focus else Plug(fs[0], focus);
      if fs != [] {
        PendingUp(fs, focus, current_idx);
        StackUp(ppn, fs, focus, p);
      }
      nn := Pop();
      current_node := nn;
      i := current_idx;
      current_idx := current_idx + 1;
      fs, focus := up, p;
    }

    /** Go down to child i of the current node. */
    method Dive(nn: nat, i: nat, nnChild: nat, ghost whole: Tree<K>)
      requires begun && On(whole) && nn == focus.nn && current_idx <= i <= |focus.keys|
      requires focus.kids[i].Node? && nnChild == focus.kids[i].nn != 0 && |focus.kids[i].kids| == |focus.kids[i].keys| + 1
      modifies this
      ensures begun && On(whole) && focus.nn == nnChild
      ensures Done() == old(Consumed(fs, focus, i))
      ensures Pending(fs, focus, current_idx) < old(Pending(fs, focus, current_idx))
    {
      ConsumedDown(fs, focus, i);
      PendingDown(fs, focus, current_idx, i);
      ghost var f, kid := Under(focus, i), focus.kids[i];
      assert Plug(f, kid) == focus && ([f] + fs)[1..] == fs;
      Add(nn, i);
      current_idx := 0;
      current_node := nnChild;
      fs, focus := [f] + fs, kid;
    }
  }
}
