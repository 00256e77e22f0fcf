/** B-tree nodes in memory and on disk, and what it means for a block to show a
    node of a tree.  Node arrays have a fixed size: uiOrder key slots and
    uiOrder+1 child slots; every child slot past the last child is zero. */
module NodeImage {
  import opened TreeShape
  import opened TreeOps

  /** An unsigned short. */
  type U16 = n: nat | n < 0x1_0000

  /** A node as stored in its block. */
  datatype DiskNode<K> = DiskNode(fFree: bool, nnNextFree: nat, usKeys: U16, child: seq<nat>, key: seq<K>)

  /** A node read into memory. */
  datatype BtNode<K> = BtNode(nn: nat, uiKeys: nat, fFree: bool, nnNextFree: nat, child: seq<nat>, key: seq<K>)

  function Blank<K>(m: nat, nn: nat, zeroKey: K): BtNode<K> {
    BtNode(nn, 0, false, 0, seq(m + 1, _ => 0), seq(m, _ => zeroKey))
  }

  function Load<K>(nn: nat, b: DiskNode<K>): BtNode<K> {
    BtNode(nn, b.usKeys, b.fFree, b.nnNextFree, b.child, b.key)
  }

  /** The key count is stored in 16 bits. */
  function Store<K>(n: BtNode<K>): DiskNode<K> {
    DiskNode(n.fFree, n.nnNextFree, n.uiKeys % 0x1_0000, n.child, n.key)
  }

  lemma StoreLoad<K>(n: BtNode<K>)
    ensures Load(n.nn, Store(n)) == n <==> n.uiKeys < 0x1_0000
  {
  }

  // ---------------------------------------------------------------- memory

  function Memmove<T>(dst: seq<T>, to: nat, src: seq<T>, from: nat, n: nat): (r: seq<T>)
    requires to + n <= |dst| && from + n <= |src|
    ensures |r| == |dst|
    ensures forall i :: 0 <= i < |dst| ==> r[i] == if to <= i < to + n then src[from + i - to] else dst[i]
  {
    dst[..to] + src[from..from + n] + dst[to + n..]
  }

  function Memset<T>(dst: seq<T>, at: nat, n: nat, x: T): (r: seq<T>)
    requires at + n <= |dst|
    ensures |r| == |dst|
    ensures forall i :: 0 <= i < |dst| ==> r[i] == if at <= i < at + n then x else dst[i]
  {
    dst[..at] + seq(n, _ => x) + dst[at + n..]
  }

  // ---------------------------------------------------------------- showing a tree

  /** The arrays hold exactly these keys and children, and zeros past the children. */
  ghost predicate Holds<K>(m: nat, child: seq<nat>, key: seq<K>, keys: seq<K>, kids: seq<Tree<K>>) {
    && |child| == m + 1 && |key| == m
    && |keys| <= m && |kids| == |keys| + 1
    && (forall i :: 0 <= i < |keys| ==> key[i] == keys[i])
    && (forall i :: 0 <= i <= m ==> child[i] == if i < |kids| then Num(kids[i]) else 0)
  }

  ghost predicate Shows<K>(m: nat, n: BtNode<K>, t: Tree<K>) {
    && t.Node? && n.nn == t.nn && !n.fFree
    && n.uiKeys == |t.keys| < m
    && Holds(m, n.child, n.key, t.keys, t.kids)
  }

  // ---------------------------------------------------------------- array steps

  /** Making room for a key and its right child, and storing them. */
  lemma OpenSlot<K>(m: nat, child: seq<nat>, key: seq<K>, keys: seq<K>, kids: seq<Tree<K>>,
                    pos: nat, x: K, r: Tree<K>)
    requires Holds(m, child, key, keys, kids) && pos <= |keys| < m
    ensures Holds(m,
                  Memmove(child, pos + 1, child, pos, m - pos)[pos + 1 := Num(r)],
                  Memmove(key, pos + 1, key, pos, m - pos - 1)[pos := x],
                  InsAt(keys, pos, x), InsAt(kids, pos + 1, r))
  {
    var c, k := Memmove(child, pos + 1, child, pos, m - pos)[pos + 1 := Num(r)],
                Memmove(key, pos + 1, key, pos, m - pos - 1)[pos := x];
    var c', k' := InsAt(kids, pos + 1, r), InsAt(keys, pos, x);
    forall i | 0 <= i < |k'|
      ensures k[i] == k'[i]
    {
    }
    forall i | 0 <= i <= m
      ensures c[i] == if i < |c'| then Num(c'[i]) else 0
    {
    }
  }

  /** Moving the right part of an overfull node into a blank one. */
  lemma MoveRight<K>(m: nat, child: seq<nat>, key: seq<K>, keys: seq<K>, kids: seq<Tree<K>>,
                     mid: nat, child0: seq<nat>, key0: seq<K>)
    requires Holds(m, child, key, keys, kids) && |keys| == m && mid < m
    requires |child0| == m + 1 && |key0| == m && forall i :: 0 <= i <= m ==> child0[i] == 0
    ensures Holds(m,
                  Memmove(child0, 0, child, mid + 1, m - mid),
                  Memmove(key0, 0, key, mid + 1, m - mid - 1),
                  keys[mid + 1..], kids[mid + 1..])
  {
  }

  /** Clearing the right part of an overfull node. */
  lemma ClearRight<K>(m: nat, child: seq<nat>, key: seq<K>, keys: seq<K>, kids: seq<Tree<K>>,
                      mid: nat, zeroKey: K)
    requires Holds(m, child, key, keys, kids) && |keys| == m && mid < m
    ensures Holds(m,
                  Memset(child, mid + 1, m - mid, 0),
                  Memset(key, mid, m - mid, zeroKey),
                  keys[..mid], kids[..mid + 1])
  {
  }

  /** Closing the gap of key i and the child right of it. */
  lemma CloseSlot<K>(m: nat, child: seq<nat>, key: seq<K>, keys: seq<K>, kids: seq<Tree<K>>, i: nat, zeroKey: K)
    requires Holds(m, child, key, keys, kids) && i < |keys|
    ensures var n := |keys|;
            Holds(m,
                  Memset(Memmove(child, i + 1, child, i + 2, n - i - 1), n, 1, 0),
                  Memset(Memmove(key, i, key, i + 1, n - i - 1), n - 1, 1, zeroKey),
                  DelAt(keys, i), DelAt(kids, i + 1))
  {
    var n := |keys|;
    var c, k := Memset(Memmove(child, i + 1, child, i + 2, n - i - 1), n, 1, 0),
                Memset(Memmove(key, i, key, i + 1, n - i - 1), n - 1, 1, zeroKey);
    var c', k' := DelAt(kids, i + 1), DelAt(keys, i);
    assert forall j :: 0 <= j < |k'| ==> k[j] == k'[j];
    assert forall j :: 0 <= j < |c'| ==> c[j] == Num(c'[j]);
    assert forall j :: |c'| <= j <= m ==> c[j] == 0;
  }

  /** A key and a child put at the right end. */
  lemma PushRight<K>(m: nat, child: seq<nat>, key: seq<K>, keys: seq<K>, kids: seq<Tree<K>>, x: K, c: Tree<K>)
    requires Holds(m, child, key, keys, kids) && |keys| < m
    ensures Holds(m, child[|keys| + 1 := Num(c)], key[|keys| := x], keys + [x], kids + [c])
  {
  }

  /** A key and a child put at the left end. */
  lemma PushLeft<K>(m: nat, child: seq<nat>, key: seq<K>, keys: seq<K>, kids: seq<Tree<K>>, x: K, c: Tree<K>, zeroKey: K)
    requires Holds(m, child, key, keys, kids) && |keys| < m
    ensures Holds(m,
                  Memset(Memmove(child, 1, child, 0, |keys| + 1), 0, 1, 0)[0 := Num(c)],
                  Memset(Memmove(key, 1, key, 0, |keys|), 0, 1, zeroKey)[0 := x],
                  [x] + keys, [c] + kids)
  {
    var d, k := Memset(Memmove(child, 1, child, 0, |keys| + 1), 0, 1, 0)[0 := Num(c)],
                Memset(Memmove(key, 1, key, 0, |keys|), 0, 1, zeroKey)[0 := x];
    forall j | 0 <= j <= |keys|
      ensures k[j] == ([x] + keys)[j]
    {
      assert j > 0 ==> k[j] == key[j - 1];
    }
    forall j | 0 <= j <= m
      ensures d[j] == if j <= |kids| then Num(([c] + kids)[j]) else 0
    {
      assert 0 < j <= |kids| ==> d[j] == child[j - 1];
    }
  }

  /** A key and a child taken from the left end. */
  lemma PopLeft<K>(m: nat, child: seq<nat>, key: seq<K>, keys: seq<K>, kids: seq<Tree<K>>, zeroKey: K)
    requires Holds(m, child, key, keys, kids) && keys != []
    ensures var n := |keys|;
            Holds(m,
                  Memset(Memmove(child, 0, child, 1, n), n, 1, 0),
                  Memset(Memmove(key, 0, key, 1, n - 1), n - 1, 1, zeroKey),
                  keys[1..], kids[1..])
  {
    var n := |keys|;
    var c, k := Memmove(child, 0, child, 1, n), Memmove(key, 0, key, 1, n - 1);
    assert forall i :: 0 <= i < n - 1 ==> k[i] == key[i + 1] == keys[i + 1];
    assert forall i :: 0 <= i < n ==> c[i] == child[i + 1] == Num(kids[i + 1]);
  }

  /** A key and a child taken from the right end. */
  lemma PopRight<K>(m: nat, child: seq<nat>, key: seq<K>, keys: seq<K>, kids: seq<Tree<K>>, zeroKey: K)
    requires Holds(m, child, key, keys, kids) && keys != []
    ensures var n := |keys|;
            Holds(m, Memset(child, n, 1, 0), Memset(key, n - 1, 1, zeroKey), keys[..n - 1], kids[..n])
  {
  }

  /** All keys and children of a right sibling put behind a left one. */
  lemma Append<K>(m: nat, child: seq<nat>, key: seq<K>, keys: seq<K>, kids: seq<Tree<K>>, x: K,
                  child': seq<nat>, key': seq<K>, keys': seq<K>, kids': seq<Tree<K>>)
    requires Holds(m, child, key, keys, kids) && Holds(m, child', key', keys', kids') && |keys| + 1 + |keys'| < m
    ensures var n := |keys| + 1;
            Holds(m,
                  Memmove(child, n, child', 0, |keys'| + 1),
                  Memmove(key[|keys| := x], n, key', 0, |keys'|),
                  keys + [x] + keys', kids + kids')
  {
  }
}
