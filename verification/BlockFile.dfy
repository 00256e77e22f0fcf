/** The block file with its write-back cache (BLKIO, BLOCKBUF and BLKIOBUF).

    `View` is what an unbuffered file would hold after the same calls.  Every
    operation is specified by what it does to `View`; the cache, its recency
    stamps and the order of write-backs never show in it.
  */
module BlockFile {
  import opened Wrappers

  const UINT_MAX: nat := 0xffff_ffff

  /** One cached block: its number, its recency stamp, its data and its dirty bit. */
  datatype Entry<B> = Entry(nn: nat, uiHits: nat, block: B, fDelta: bool)

  // ---------------------------------------------------------------- plain files

  /** Writing block nn of a plain file; the gap before it, if any, reads as zero. */
  function Written<B>(disk: seq<B>, nn: nat, b: B, zero: B): (r: seq<B>)
    ensures |r| == if nn < |disk| then |disk| else nn + 1
    ensures forall i :: 0 <= i < |r| ==>
              r[i] == if i == nn then b else if i < |disk| then disk[i] else zero
  {
    if nn < |disk| then disk[nn := b]
    else disk + seq(nn - |disk|, i => zero) + [b]
  }

  // ---------------------------------------------------------------- the cache list

  /** What the list holds, by block number; an earlier entry hides a later one. */
  function Held<B>(list: seq<Entry<B>>): map<nat, Entry<B>> {
    if list == [] then map[] else Held(list[1..])[list[0].nn := list[0]]
  }

  /** No block has two entries. */
  ghost predicate Distinct<B>(list: seq<Entry<B>>) {
    forall i, j :: 0 <= i < j < |list| ==> list[i].nn != list[j].nn
  }

  lemma {:induction false} HeldConcat<B>(a: seq<Entry<B>>, b: seq<Entry<B>>)
    ensures Held(a + b) == Held(b) + Held(a)
  {
    if a == [] {
      assert a + b == b;
    } else {
      assert (a + b)[1..] == a[1..] + b;
      HeldConcat(a[1..], b);
    }
  }

  lemma {:induction false} HeldWhere<B>(list: seq<Entry<B>>, n: nat) returns (i: nat)
    requires n in Held(list)
    ensures i < |list| && list[i].nn == n && Held(list)[n] == list[i]
  {
    if list[0].nn == n {
      i := 0;
    } else {
      var k := HeldWhere(list[1..], n);
      i := k + 1;
    }
  }

  lemma HeldNot<B>(list: seq<Entry<B>>, n: nat)
    requires forall i :: 0 <= i < |list| ==> list[i].nn != n
    ensures n !in Held(list)
  {
    if n in Held(list) {
      var i := HeldWhere(list, n);
    }
  }

  /** A list cut at entry i: what it holds, and what it holds without that entry. */
  lemma Cut<B>(list: seq<Entry<B>>, i: nat) returns (e: Entry<B>, rest: seq<Entry<B>>)
    requires Distinct(list) && i < |list|
    ensures e == list[i] && rest == list[..i] + list[i + 1..]
    ensures Distinct(rest) && Held(list) == Held(rest)[e.nn := e]
    ensures e.nn !in Held(rest) && e.nn !in Held(list[..i])
  {
    e, rest := list[i], list[..i] + list[i + 1..];
    CutDistinct(list, i, rest);
    CutHeld(list[..i], e, list[i + 1..]);
    assert list == list[..i] + ([e] + list[i + 1..]);
    HeldNot(list[..i], e.nn);
    HeldNot(rest, e.nn);
  }

  lemma CutDistinct<B>(list: seq<Entry<B>>, i: nat, rest: seq<Entry<B>>)
    requires Distinct(list) && i < |list| && rest == list[..i] + list[i + 1..]
    ensures Distinct(rest) && forall j :: 0 <= j < |rest| ==> rest[j].nn != list[i].nn
  {
    assert forall j :: 0 <= j < |rest| ==> rest[j] == list[if j < i then j else j + 1];
  }

  lemma CutHeld<B>(a: seq<Entry<B>>, e: Entry<B>, b: seq<Entry<B>>)
    requires Distinct(a + b) && forall j :: 0 <= j < |a + b| ==> (a + b)[j].nn != e.nn
    ensures Held(a + ([e] + b)) == Held(a + b)[e.nn := e]
  {
    HeldConcat(a, [e] + b);
    HeldConcat(a, b);
    assert ([e] + b)[1..] == b;
    assert forall j :: 0 <= j < |a| ==> a[j] == (a + b)[j];
    HeldNot(a, e.nn);
  }

  /** Putting an entry for an absent block at the head. */
  lemma Prepended<B>(e: Entry<B>, list: seq<Entry<B>>)
    requires Distinct(list) && e.nn !in Held(list)
    ensures Distinct([e] + list) && Held([e] + list) == Held(list)[e.nn := e]
  {
    assert ([e] + list)[1..] == list;
    forall j | 0 <= j < |list|
      ensures list[j].nn != e.nn
    {
      HeldAt(list, j);
    }
  }

  lemma HeldAt<B>(list: seq<Entry<B>>, j: nat)
    requires Distinct(list) && j < |list|
    ensures list[j].nn in Held(list) && Held(list)[list[j].nn] == list[j]
  {
    var e, rest := Cut(list, j);
  }

  /** Overwriting entry i, for the same block. */
  lemma Overwritten<B>(list: seq<Entry<B>>, i: nat, e: Entry<B>)
    requires Distinct(list) && i < |list| && e.nn == list[i].nn
    ensures Distinct(list[i := e]) && Held(list[i := e]) == Held(list)[e.nn := e]
  {
    var x, rest := Cut(list, i);
    var r := list[i := e];
    assert forall j :: 0 <= j < |r| ==> r[j].nn == list[j].nn;
    var y, rest' := Cut(r, i);
    assert rest' == rest by {
      assert r[..i] == list[..i] && r[i + 1..] == list[i + 1..];
    }
  }

  // ---------------------------------------------------------------- what readers see

  /** What block n reads as, seen through the cache. */
  function Through<B>(disk: seq<B>, held: map<nat, Entry<B>>, zero: B, n: nat): B {
    if n in held then held[n].block
    else if n < |disk| then disk[n]
    else zero
  }

  function Seen<B>(disk: seq<B>, held: map<nat, Entry<B>>, zero: B, high: nat): (v: seq<B>)
    ensures |v| == high
    ensures forall n :: 0 <= n < high ==> v[n] == Through(disk, held, zero, n)
  {
    seq(high, (n: nat) => Through(disk, held, zero, n))
  }

  lemma SeenSame<B>(disk: seq<B>, disk': seq<B>, held: map<nat, Entry<B>>, held': map<nat, Entry<B>>, zero: B, high: nat)
    requires forall n: nat :: n < high ==> Through(disk', held', zero, n) == Through(disk, held, zero, n)
    ensures Seen(disk', held', zero, high) == Seen(disk, held, zero, high)
  {
  }

  lemma SeenOverwrite<B>(disk: seq<B>, held: map<nat, Entry<B>>, zero: B, high: nat, e: Entry<B>)
    requires e.nn < high
    ensures Seen(disk, held[e.nn := e], zero, high) == Seen(disk, held, zero, high)[e.nn := e.block]
  {
    var a, b := Seen(disk, held[e.nn := e], zero, high), Seen(disk, held, zero, high)[e.nn := e.block];
    forall n | 0 <= n < high
      ensures a[n] == b[n]
    {
    }
  }

  /** The last use of block nn in a log of uses, counted from 1; 0 if there is none. */
  function LastUse(log: seq<nat>, nn: nat): (k: nat)
    ensures k <= |log|
    ensures k > 0 ==> log[k - 1] == nn
    ensures forall j :: k <= j < |log| ==> log[j] != nn
  {
    if log == [] then 0
    else if log[|log| - 1] == nn then |log|
    else LastUse(log[..|log| - 1], nn)
  }

  lemma LastUseGrows(log: seq<nat>, used: nat, nn: nat)
    ensures LastUse(log + [used], nn) == if used == nn then |log| + 1 else LastUse(log, nn)
  {
    assert (log + [used])[..|log|] == log;
  }

  /** What holds of each cached block: it lies below the end of the file; if it
      is clean it equals the file's copy; and its stamp is the time of its last use,
      as far as 32 bits can tell it. */
  ghost predicate Sound<B>(disk: seq<B>, log: seq<nat>, high: nat, e: Entry<B>) {
    && e.nn < high
    && (!e.fDelta ==> e.nn < |disk| && disk[e.nn] == e.block)
    && Stamped(log, e)
  }

  /** The stamp is the time of the last use, cut to 32 bits. */
  ghost predicate Stamped<B>(log: seq<nat>, e: Entry<B>) {
    forall u: nat {:trigger Study(u)} :: Study(u) ==>
      LastUse(log, e.nn) >= 1 && e.uiHits == (LastUse(log, e.nn) - 1) % (UINT_MAX + 1)
  }

  ghost predicate AllSound<B>(disk: seq<B>, log: seq<nat>, high: nat, held: map<nat, Entry<B>>) {
    forall n :: n in held ==> held[n].nn == n && Sound(disk, log, high, held[n])
  }

  lemma SoundGrows<B>(disk: seq<B>, log: seq<nat>, high: nat, e: Entry<B>, used: nat)
    requires Sound(disk, log, high, e) && e.nn != used
    ensures Sound(disk, log + [used], high, e)
  {
    assert Study(0);
    LastUseGrows(log, used, e.nn);
  }

  /** Using block e.nn once more, and leaving every other entry alone. */
  lemma Touched<B>(disk: seq<B>, log: seq<nat>, high: nat, held: map<nat, Entry<B>>, e: Entry<B>)
    requires AllSound(disk, log, high, held)
    requires e.nn < high && (!e.fDelta ==> e.nn < |disk| && disk[e.nn] == e.block)
    requires e.uiHits == |log| % (UINT_MAX + 1)
    ensures AllSound(disk, log + [e.nn], high, held[e.nn := e])
  {
    LastUseGrows(log, e.nn, e.nn);
    var held' := held[e.nn := e];
    forall n | n in held'
      ensures held'[n].nn == n && Sound(disk, log + [e.nn], high, held'[n])
    {
      if n != e.nn {
        SoundGrows(disk, log, high, held[n], e.nn);
      }
    }
  }

  /** Moving an entry to the front with a new stamp changes nothing that is seen. */
  lemma Refreshed<B>(disk: seq<B>, log: seq<nat>, zero: B, high: nat, list: seq<Entry<B>>, i: nat, e: Entry<B>)
    requires Distinct(list) && i < |list| && AllSound(disk, log, high, Held(list)) && |disk| <= high
    requires e == list[i].(uiHits := |log| % (UINT_MAX + 1))
    ensures
      var list' := [e] + (list[..i] + list[i + 1..]);
      && Distinct(list') && AllSound(disk, log + [e.nn], high, Held(list')) && Held(list').Keys == Held(list).Keys
      && Seen(disk, Held(list'), zero, high) == Seen(disk, Held(list), zero, high) && |list'| == |list|
  {
    var held := Held(list);
    HeldAt(list, i);
    var x, rest := Cut(list, i);
    Prepended(e, rest);
    assert Sound(disk, log, high, held[e.nn]);
    Touched(disk, log, high, held, e);
    SeenOverwrite(disk, held, zero, high, e);
    assert Seen(disk, held, zero, high)[e.nn := e.block] == Seen(disk, held, zero, high);
    assert held[e.nn := e] == Held([e] + rest);
  }

  /** Writing an entry back leaves the other entries sound, and what is seen as it
      was, whether or not the entry stays in the cache. */
  lemma WroteBack<B>(disk: seq<B>, disk': seq<B>, log: seq<nat>, zero: B, high: nat,
                     held: map<nat, Entry<B>>, rest: map<nat, Entry<B>>, e: Entry<B>)
    requires AllSound(disk, log, high, held) && |disk| <= high
    requires e.nn in held && held[e.nn] == e
    requires held == rest[e.nn := e] && (e.nn !in rest || rest[e.nn] == e)
    requires disk' == if e.fDelta then Written(disk, e.nn, e.block, zero) else disk
    ensures |disk| <= |disk'| <= high && e.nn < |disk'| && disk'[e.nn] == e.block
    ensures AllSound(disk', log, high, rest)
    ensures Seen(disk', rest, zero, high) == Seen(disk, held, zero, high)
  {
    assert Sound(disk, log, high, held[e.nn]);
    forall n | n in rest
      ensures rest[n].nn == n && Sound(disk', log, high, rest[n])
    {
      assert held[n] == rest[n] && Sound(disk, log, high, held[n]);
    }
    forall n: nat | n < high
      ensures Through(disk', rest, zero, n) == Through(disk, held, zero, n)
    {
      assert n != e.nn && n < |disk| ==> disk'[n] == disk[n];
    }
    SeenSame(disk, disk', held, rest, zero, high);
  }

  lemma WithoutOne<B>(held: map<nat, Entry<B>>, rest: map<nat, Entry<B>>, e: Entry<B>)
    requires held == rest[e.nn := e] && e.nn !in rest
    ensures rest.Keys == held.Keys - {e.nn} && e.nn in held && forall n :: n in rest ==> n in held && n != e.nn
  {
  }

  /** The file's copy of every cached block is up to date. */
  ghost predicate UpToDate<B>(disk: seq<B>, held: map<nat, Entry<B>>) {
    forall n :: n in held ==> n < |disk| && disk[n] == held[n].block
  }

  lemma HeldNext<B>(list: seq<Entry<B>>, i: nat, e: Entry<B>)
    requires i < |list| && e == list[i] && e.nn !in Held(list[..i])
    ensures Held(list[..i + 1]) == Held(list[..i])[e.nn := e]
  {
    assert list[..i + 1] == list[..i] + [e];
    HeldConcat(list[..i], [e]);
    assert Held([e]) == map[e.nn := e] by {
      assert [e][1..] == [];
    }
  }

  /** Flushing entry i, after those before it. */
  lemma Flushed<B>(disk: seq<B>, disk': seq<B>, log: seq<nat>, zero: B, high: nat, list: seq<Entry<B>>, i: nat)
    requires Distinct(list) && i < |list| && AllSound(disk, log, high, Held(list)) && |disk| <= high
    requires UpToDate(disk, Held(list[..i]))
    requires disk' == if list[i].fDelta then Written(disk, list[i].nn, list[i].block, zero) else disk
    ensures |disk| <= |disk'| <= high
    ensures AllSound(disk', log, high, Held(list))
    ensures UpToDate(disk', Held(list[..i + 1]))
    ensures Seen(disk', Held(list), zero, high) == Seen(disk, Held(list), zero, high)
  {
    var e, rest := Cut(list, i);
    var held := Held(list);
    assert held == held[e.nn := e];
    WroteBack(disk, disk', log, zero, high, held, held, e);
    HeldNext(list, i, e);
    var before, upto := Held(list[..i]), Held(list[..i + 1]);
    forall n | n in upto
      ensures n < |disk'| && disk'[n] == upto[n].block
    {
      assert n != e.nn ==> n in before && upto[n] == before[n];
    }
  }

  /** How often the stamp counter had come round when block nn was last used. */
  function Round(log: seq<nat>, nn: nat): nat {
    if LastUse(log, nn) == 0 then 0 else (LastUse(log, nn) - 1) / (UINT_MAX + 1)
  }

  /** No block of these was last used before block nn. */
  ghost predicate LeastRecent(log: seq<nat>, nn: nat, blocks: set<nat>) {
    forall k :: k in blocks ==> LastUse(log, nn) <= LastUse(log, k)
  }

  /** None was last used in an earlier round. */
  ghost predicate EarliestRound(log: seq<nat>, nn: nat, blocks: set<nat>) {
    forall k :: k in blocks ==> Round(log, nn) <= Round(log, k)
  }

  /** The first entry with the lowest stamp. */
  function Lowest<B>(list: seq<Entry<B>>): (i: nat)
    requires list != []
    ensures i < |list| && (forall j :: 0 <= j < |list| ==> list[j].uiHits >= list[i].uiHits)
    ensures forall j :: 0 <= j < i ==> list[j].uiHits > list[i].uiHits
  {
    var n := |list| - 1;
    if n == 0 then 0
    else
      var k := Lowest(list[..n]);
      if list[n].uiHits < list[k].uiHits then n else k
  }

  /** Which cached block is dropped: that of the first entry with the lowest stamp.  It is
      a least recently used one if and only if none of the others was last used in an
      earlier round, and so it always is before the counter wraps. */
  ghost predicate Victim<B>(log: seq<nat>, list: seq<Entry<B>>, nn: nat) {
    forall u: nat {:trigger Study(u)} :: Study(u) ==>
      && list != [] && nn == list[Lowest(list)].nn
      && (LeastRecent(log, nn, Held(list).Keys) <==> EarliestRound(log, nn, Held(list).Keys))
      && (|log| <= 0x1_0000_0000 ==> LeastRecent(log, nn, Held(list).Keys))
  }

  lemma RoundOrder(a: nat, b: nat)
    requires a % (UINT_MAX + 1) <= b % (UINT_MAX + 1)
    ensures a <= b <==> a / (UINT_MAX + 1) <= b / (UINT_MAX + 1)
  {
  }

  /** An entry with the lowest stamp is the least recently used one if and only if no
      other was last used in an earlier round of the counter. */
  lemma Oldest<B>(disk: seq<B>, log: seq<nat>, high: nat, list: seq<Entry<B>>, low: nat)
    requires Distinct(list) && AllSound(disk, log, high, Held(list)) && low < |list|
    requires forall j :: 0 <= j < |list| ==> list[j].uiHits >= list[low].uiHits
    ensures LeastRecent(log, list[low].nn, Held(list).Keys) <==> EarliestRound(log, list[low].nn, Held(list).Keys)
  {
    HeldAt(list, low);
    assert Sound(disk, log, high, Held(list)[list[low].nn]);
    forall n | n in Held(list)
      ensures LastUse(log, list[low].nn) <= LastUse(log, n) <==> Round(log, list[low].nn) <= Round(log, n)
    {
      var i := HeldWhere(list, n);
      assert Sound(disk, log, high, Held(list)[n]);
      OlderOne(log, list[low], list[i]);
    }
  }

  lemma VictimIs<B>(disk: seq<B>, log: seq<nat>, high: nat, list: seq<Entry<B>>, low: nat)
    requires Distinct(list) && AllSound(disk, log, high, Held(list)) && low < |list|
    requires forall j :: 0 <= j < |list| ==> list[j].uiHits >= list[low].uiHits
    requires forall j :: 0 <= j < low ==> list[j].uiHits > list[low].uiHits
    ensures low == Lowest(list) && Victim(log, list, list[low].nn)
  {
    Oldest(disk, log, high, list, low);
    if |log| <= UINT_MAX + 1 { FirstRound(log, list[low].nn, Held(list).Keys); }
    var k := Lowest(list);
    assert list[k].uiHits == list[low].uiHits;
  }

  lemma OlderOne<B>(log: seq<nat>, a: Entry<B>, b: Entry<B>)
    requires Stamped(log, a) && Stamped(log, b) && a.uiHits <= b.uiHits
    ensures LastUse(log, a.nn) <= LastUse(log, b.nn) <==> Round(log, a.nn) <= Round(log, b.nn)
  {
    assert Study(0);
    RoundOrder(LastUse(log, a.nn) - 1, LastUse(log, b.nn) - 1);
  }

  /** Until the counter wraps there is one round only. */
  lemma FirstRound(log: seq<nat>, nn: nat, blocks: set<nat>)
    requires |log| <= UINT_MAX + 1
    ensures EarliestRound(log, nn, blocks)
  {
  }

  /** How often the stamp counter has come round. */
  function Wraps(log: seq<nat>): (n: nat)
    ensures n * 0x1_0000_0000 <= |log| < (n + 1) * 0x1_0000_0000
  {
    |log| / (UINT_MAX + 1)
  }

  lemma WrapsGrow(log: seq<nat>, used: nat)
    ensures Wraps(log) <= Wraps(log + [used])
    ensures (|log| % (UINT_MAX + 1) + 1) % (UINT_MAX + 1) == |log + [used]| % (UINT_MAX + 1)
  {
  }

  function Max(a: nat, b: nat): nat {
    if a < b then b else a
  }

  lemma {:induction false} FewBelow(s: set<int>, w: nat)
    requires forall q :: q in s ==> 0 <= q < w
    ensures |s| <= w
    decreases w
  {
    if w > 0 {
      FewBelow(s - {w - 1}, w - 1);
    } else {
      assert forall q :: q !in s;
      assert s == {};
    }
  }

  /** Every entry bears the largest stamp, which no victim does. */
  ghost predicate AllLast<B>(list: seq<Entry<B>>) {
    forall j :: 0 <= j < |list| ==> list[j].uiHits >= UINT_MAX
  }

  lemma LastStamp(k: nat, n: nat)
    requires 1 <= k <= n && (k - 1) % (UINT_MAX + 1) == UINT_MAX
    ensures k == ((k - 1) / (UINT_MAX + 1) + 1) * (UINT_MAX + 1) && (k - 1) / (UINT_MAX + 1) < n / (UINT_MAX + 1)
  {
    assert k / (UINT_MAX + 1) == (k - 1) / (UINT_MAX + 1) + 1;
  }

  lemma LastOfRound<B>(disk: seq<B>, log: seq<nat>, high: nat, list: seq<Entry<B>>, j: nat)
    requires Distinct(list) && AllSound(disk, log, high, Held(list)) && AllLast(list) && j < |list|
    ensures LastUse(log, list[j].nn) == (Round(log, list[j].nn) + 1) * (UINT_MAX + 1) && Round(log, list[j].nn) < Wraps(log)
  {
    HeldAt(list, j);
    assert Study(0);
    assert Sound(disk, log, high, Held(list)[list[j].nn]);
    LastStamp(LastUse(log, list[j].nn), |log|);
  }

  /** Each round has one last stamp, so at most as many entries can carry it. */
  lemma {:induction false} Rounds<B>(disk: seq<B>, log: seq<nat>, high: nat, list: seq<Entry<B>>, i: nat) returns (s: set<int>)
    requires Distinct(list) && AllSound(disk, log, high, Held(list)) && AllLast(list) && i <= |list|
    ensures |s| == i && (forall q :: q in s ==> 0 <= q < Wraps(log))
    ensures forall q :: q in s ==> exists j :: 0 <= j < i && q == Round(log, list[j].nn)
  {
    s := {};
    if i > 0 {
      var rest := Rounds(disk, log, high, list, i - 1);
      var q := NewRound(disk, log, high, list, i - 1);
      assert q !in rest;
      s := rest + {q};
    }
  }

  lemma NewRound<B>(disk: seq<B>, log: seq<nat>, high: nat, list: seq<Entry<B>>, i: nat) returns (q: nat)
    requires Distinct(list) && AllSound(disk, log, high, Held(list)) && AllLast(list) && i < |list|
    ensures q == Round(log, list[i].nn) && q < Wraps(log) && forall j :: 0 <= j < i ==> q != Round(log, list[j].nn)
  {
    q := Round(log, list[i].nn);
    LastOfRound(disk, log, high, list, i);
    forall j | 0 <= j < i
      ensures q != Round(log, list[j].nn)
    {
      LastOfRound(disk, log, high, list, j);
      assert list[j].nn != list[i].nn;
    }
  }

  lemma FewLast<B>(disk: seq<B>, log: seq<nat>, high: nat, list: seq<Entry<B>>)
    requires Distinct(list) && AllSound(disk, log, high, Held(list)) && AllLast(list)
    ensures |list| <= Wraps(log)
  {
    var s := Rounds(disk, log, high, list, |list|);
    FewBelow(s, Wraps(log));
  }

  /** How many entries are left when room has been made under a cap. */
  ghost function Remaining<B>(list: seq<Entry<B>>, cap: nat): nat {
    if |list| >= cap && !AllLast(list) then |list| - 1 else |list|
  }

  // ---------------------------------------------------------------- the class

  class BlkIoBuf<B> {
    const uiMaxBlocks: nat
    const zero: B

    var disk: seq<B>             // the file itself, in blocks
    var fOpen: bool              // is the cache enabled?
    var bbList: seq<Entry<B>>    // cached blocks, head of the list first
    var uiLRUCtr: nat            // next recency stamp, a 32-bit counter
    var nnHighPut: int           // highest block put since enabling, -1 if none

    ghost var log: seq<nat>      // every use of a block since enabling
    ghost var contents: seq<B>   // the file as an unbuffered reader would see it

    /** The invariant.  The quantifier only keeps its parts out of the way of
        proofs that do not mention Look. */
    ghost predicate Valid()
      reads this
    {
      forall u: nat {:trigger Look(u)} :: Look(u) ==> Inner()
    }

    /** No block below the end of the file is missing from both file and cache. */
    ghost predicate Dense()
      reads this
    {
      forall u: nat {:trigger Look(u)} :: Look(u) ==> NoGap()
    }

    ghost predicate Inner()
      reads this
    {
      && Coherent()
      && (fOpen && nnHighPut != -1 ==> Readable(nnHighPut))
      && contents == View()
    }

    /** The invariant, except that the highest block put may not be stored yet. */
    ghost predicate Coherent()
      reads this
    {
      && -1 <= nnHighPut
      && uiLRUCtr == |log| % (UINT_MAX + 1)
      && (fOpen ==> Distinct(bbList) && AllSound(disk, log, High(), Held(bbList)))
      && (fOpen && uiMaxBlocks >= 1 ==> |bbList| <= Max(uiMaxBlocks, Wraps(log) + 1))
    }

    /** The number of blocks of the file, counting blocks that are only cached. */
    function High(): nat
      reads this
    {
      if fOpen && nnHighPut != -1 && nnHighPut + 1 > |disk| then nnHighPut + 1 else |disk|
    }

    /** What the file and the cache together show. */
    ghost function View(): (v: seq<B>)
      reads this
      ensures |v| == High()
    {
      if fOpen then Seen(disk, Held(bbList), zero, High()) else disk
    }

    ghost predicate Readable(nn: nat)
      reads this
    {
      nn < |disk| || (fOpen && nn in Held(bbList))
    }

    ghost predicate NoGap()
      reads this
    {
      forall nn: nat :: nn < High() ==> Readable(nn)
    }

    constructor (blocks: seq<B>, zero: B, uiMaxBlocks: nat)
      ensures Valid() && Dense() && !fOpen
      ensures contents == blocks && this.zero == zero && this.uiMaxBlocks == uiMaxBlocks
    {
      this.uiMaxBlocks := uiMaxBlocks;
      this.zero := zero;
      disk := blocks;
      fOpen, bbList, uiLRUCtr, nnHighPut := false, [], 0, -1;
      log, contents := [], blocks;
    }

    /** The number of the first block past the end. */
    method HighNode() returns (nn: nat)
      requires Valid()
      ensures nn == |contents|
    {
      assert Look(0);
      nn := High();
    }

    // ------------------------------------------------------------ BLOCKBUF

    /** The position of block nn in the list, or the list's length. */
    method Locate(nn: nat) returns (i: nat)
      requires Distinct(bbList)
      ensures i <= |bbList|
      ensures i == |bbList| ==> nn !in Held(bbList)
      ensures i < |bbList| ==> bbList[i].nn == nn && nn in Held(bbList) && Held(bbList)[nn] == bbList[i]
    {
      i := 0;
      while i < |bbList| && bbList[i].nn != nn
        invariant i <= |bbList| && forall j :: 0 <= j < i ==> bbList[j].nn != nn
      {
        i := i + 1;
      }
      if i < |bbList| {
        HeldAt(bbList, i);
      } else {
        HeldNot(bbList, nn);
      }
    }

    /** Look nn up in the cache; a hit moves to the front and is stamped. */
    method BufGet(nn: nat) returns (r: Option<B>)
      requires Coherent() && fOpen
      modifies this`bbList, this`uiLRUCtr, this`log
      ensures Coherent()
      ensures r.None? <==> old(nn !in Held(bbList))
      ensures r.None? ==> bbList == old(bbList)
      ensures r.Some? ==> r.value == old(Held(bbList)[nn].block)
      ensures View() == old(View())
      ensures Held(bbList).Keys == old(Held(bbList).Keys) && |bbList| == |old(bbList)|
      ensures log == old(log) + if r.Some? then [nn] else []
    {
      var i := Locate(nn);
      if i == |bbList| {
        return None;
      }
      var e := bbList[i].(uiHits := uiLRUCtr);
      Refreshed(disk, log, zero, High(), bbList, i, e);
      WrapsGrow(log, nn);
      bbList := [e] + (bbList[..i] + bbList[i + 1..]);
      uiLRUCtr := (uiLRUCtr + 1) % (UINT_MAX + 1);
      log := log + [nn];
      return Some(e.block);
    }

    /** Put block nn into the cache, overwriting an entry that is there. */
    method BufPut(nn: nat, block: B, fDelta: bool) returns (e: Entry<B>)
      requires Distinct(bbList) && uiLRUCtr == |log| % (UINT_MAX + 1)
      modifies this`bbList, this`uiLRUCtr, this`log
      ensures log == old(log) + [nn] && uiLRUCtr == |log| % (UINT_MAX + 1)
      ensures Distinct(bbList) && Held(bbList) == old(Held(bbList))[nn := e]
      ensures e.nn == nn && e.block == block && e.uiHits == old(uiLRUCtr)
      ensures e.fDelta == (fDelta || (nn in old(Held(bbList)) && old(Held(bbList))[nn].fDelta))
      ensures |bbList| == |old(bbList)| + if nn in old(Held(bbList)) then 0 else 1
    {
      var i := Locate(nn);
      if i == |bbList| {
        e := Entry(nn, uiLRUCtr, block, fDelta);
        Prepended(e, bbList);
        bbList := [e] + bbList;
      } else {
        e := Entry(nn, uiLRUCtr, block, bbList[i].fDelta || fDelta);
        Overwritten(bbList, i, e);
        bbList := bbList[i := e];
      }
      uiLRUCtr := (uiLRUCtr + 1) % (UINT_MAX + 1);
      log := log + [nn];
    }

    /** The first entry with the smallest stamp, taken out of the list unless that is the
        counter's maximum.  It is the least recently used one exactly if no other block was
        last used in an earlier round of the counter, and so always before it wraps. */
    method GetLru() returns (r: Option<Entry<B>>)
      requires Coherent() && fOpen
      modifies this`bbList
      ensures Distinct(bbList)
      ensures r.None? ==> bbList == old(bbList)
      ensures r.None? <==> old(AllLast(bbList))
      ensures r.Some? ==> |bbList| == |old(bbList)| - 1
      ensures r.Some? ==> r.value.nn !in Held(bbList) && old(Held(bbList)) == Held(bbList)[r.value.nn := r.value]
      ensures r.Some? ==> old(bbList) != [] && r.value == old(bbList)[Lowest(old(bbList))]
      ensures r.Some? ==> Victim(log, old(bbList), r.value.nn)
    {
      var uiLowHits, low := UINT_MAX, |bbList|;
      var i := 0;
      while i < |bbList|
        invariant i <= |bbList| && 0 <= low <= |bbList|
        invariant low == |bbList| ==> uiLowHits == UINT_MAX
        invariant low < |bbList| ==> low < i && uiLowHits == bbList[low].uiHits < UINT_MAX
        invariant forall j :: 0 <= j < i ==> bbList[j].uiHits >= uiLowHits
        invariant forall j :: 0 <= j < low && j < i ==> bbList[j].uiHits > uiLowHits || low == |bbList|
        modifies {}
      {
        if bbList[i].uiHits < uiLowHits {
          uiLowHits, low := bbList[i].uiHits, i;
        }
        i := i + 1;
      }
      if low == |bbList| {
        return None;
      }
      r := Some(bbList[low]);
      ghost var x, rest := Cut(bbList, low);
      VictimIs(disk, log, High(), bbList, low);
      bbList := bbList[..low] + bbList[low + 1..];
    }

    // ------------------------------------------------------------ BLKIOBUF

    /** Take a victim out of the cache, if there is one, and write it back if it is dirty. */
    method Evict(ghost top: nat) returns (ghost victim: Option<nat>)
      requires Coherent() && fOpen
      requires |disk| <= top && forall n :: n in Held(bbList) ==> n < top
      modifies this`disk, this`bbList
      ensures Coherent() && High() == old(High()) && View() == old(View())
      ensures forall n: nat :: old(Readable(n)) ==> Readable(n)
      ensures old(|disk|) <= |disk| <= top
      ensures victim.None? <==> old(AllLast(bbList))
      ensures victim.None? ==> bbList == old(bbList)
      ensures victim.Some? ==>
                && |bbList| == |old(bbList)| - 1 && Victim(log, old(bbList), victim.value)
                && Held(bbList).Keys == old(Held(bbList)).Keys - {victim.value}
      ensures forall n: nat :: n < old(|disk|) && n !in old(Held(bbList)) ==>
                disk[n] == old(disk[n]) && n !in Held(bbList)
    {
      ghost var held, high := Held(bbList), High();
      if bbList != [] {
        HeldAt(bbList, 0);
        assert Sound(disk, log, high, held[bbList[0].nn]);
      }
      victim := None;
      var r := GetLru();
      if r.Some? {
        victim := Some(r.value.nn);
        WithoutOne(held, Held(bbList), r.value);
        WriteBack(r.value, held, high);
      }
    }

    /** Write an entry that has left the list back, if it is dirty. */
    method WriteBack(e: Entry<B>, ghost held: map<nat, Entry<B>>, ghost high: nat)
      requires AllSound(disk, log, high, held) && |disk| <= high
      requires held == Held(bbList)[e.nn := e] && e.nn !in Held(bbList)
      modifies this`disk
      ensures |old(disk)| <= |disk| <= high && e.nn < |disk| && disk[e.nn] == e.block
      ensures |disk| <= Max(|old(disk)|, e.nn + 1)
      ensures AllSound(disk, log, high, Held(bbList))
      ensures Seen(disk, Held(bbList), zero, high) == Seen(old(disk), held, zero, high)
      ensures forall n: nat :: n < |old(disk)| && n != e.nn ==> disk[n] == old(disk)[n]
    {
      if e.fDelta {
        disk := Written(disk, e.nn, e.block, zero);
      }
      WroteBack(old(disk), disk, log, zero, high, held, Held(bbList), e);
    }

    /** Make room if the cache is full, writing a dirty victim back.  `top` is any
        bound on the blocks that can be read. */
    method MakeRoom(ghost top: nat) returns (ghost victim: Option<nat>)
      requires Coherent() && fOpen
      requires |disk| <= top && forall n :: n in Held(bbList) ==> n < top
      modifies this`disk, this`bbList
      ensures Coherent() && High() == old(High())
      ensures View() == old(View())
      ensures forall n: nat :: old(Readable(n)) ==> Readable(n)
      ensures old(|disk|) <= |disk| <= top && Held(bbList).Keys <= old(Held(bbList).Keys)
      ensures uiMaxBlocks >= 1 ==> |bbList| < Max(uiMaxBlocks, Wraps(log) + 1)
      ensures |bbList| == Remaining(old(bbList), uiMaxBlocks)
      ensures uiMaxBlocks >= 1 ==>
                (|bbList| < uiMaxBlocks <==>
                   |old(bbList)| < uiMaxBlocks || (|old(bbList)| == uiMaxBlocks && !old(AllLast(bbList))))
      ensures victim.None? ==> bbList == old(bbList)
      ensures victim.Some? ==>
                && |bbList| == |old(bbList)| - 1 && Victim(log, old(bbList), victim.value)
                && Held(bbList).Keys == old(Held(bbList)).Keys - {victim.value}
      ensures forall n: nat :: n < old(|disk|) && n !in old(Held(bbList)) ==>
                disk[n] == old(disk[n]) && n !in Held(bbList)
    {
      victim := None;
      if |bbList| >= uiMaxBlocks {
        if AllLast(bbList) { FewLast(disk, log, High(), bbList); }
        victim := Evict(top);
      }
    }

    /** Cache block nn, making room first. */
    method InsertList(nn: nat, block: B, fSetDelta: bool, ghost top: nat) returns (ghost victim: Option<nat>)
      requires Coherent() && fOpen && nn < High()
      requires |disk| <= top && forall n :: n in Held(bbList) ==> n < top
      requires !fSetDelta ==> nn < |disk| && disk[nn] == block && nn !in Held(bbList)
      modifies this`disk, this`bbList, this`uiLRUCtr, this`log
      ensures Coherent() && High() == old(High())
      ensures View() == old(View())[nn := block]
      ensures forall n: nat :: n == nn || old(Readable(n)) ==> Readable(n)
      ensures |disk| <= top && forall n :: n in Held(bbList) ==> n == nn || n < top
      ensures log == old(log) + [nn]
      ensures old(nn !in Held(bbList)) ==> |bbList| == Remaining(old(bbList), uiMaxBlocks) + 1
      ensures victim.Some? <==> Remaining(old(bbList), uiMaxBlocks) < |old(bbList)|
      ensures victim.Some? ==>
                && Victim(old(log), old(bbList), victim.value)
                && Held(bbList).Keys == old(Held(bbList)).Keys - {victim.value} + {nn}
      ensures victim.None? ==> Held(bbList).Keys == old(Held(bbList)).Keys + {nn}
    {
      victim := MakeRoom(top);
      ghost var held, used := Held(bbList), log;
      var e := BufPut(nn, block, fSetDelta);
      Touched(disk, used, High(), held, e);
      SeenOverwrite(disk, held, zero, High(), e);
    }

    /** Read block nn: from the cache, or else from the file and into the cache. */
    method Get(nn: nat) returns (r: Option<B>)
      requires Valid()
      modifies this
      ensures Valid() && fOpen == old(fOpen) && contents == old(contents)
      ensures r.Some? ==> nn < |contents| && r.value == contents[nn]
      ensures old(Dense()) ==> Dense() && (r.Some? <==> nn < |contents|)
    {
      assert Look(0);
      r := GetInner(nn);
    }

    method GetInner(nn: nat) returns (r: Option<B>)
      requires Inner()
      modifies this
      ensures Inner() && High() == old(High()) && fOpen == old(fOpen) && contents == old(contents)
      ensures r == if old(Readable(nn)) then Some(contents[nn]) else None
      ensures forall n: nat :: old(Readable(n)) ==> Readable(n)
      ensures old(NoGap()) ==> NoGap()
      ensures old(fOpen && nn in Held(bbList)) ==>
                |bbList| == |old(bbList)| && Held(bbList).Keys == old(Held(bbList).Keys) && log == old(log) + [nn]
    {
      if fOpen {
        r := BufGet(nn);
        if r.Some? {
          return;
        }
      }
      if nn < |disk| {
        r := Some(disk[nn]);
        if fOpen {
          ghost var victim := InsertList(nn, disk[nn], false, High());
        }
      } else {
        r := None;
      }
    }

    /** Write block nn: into the cache if it is enabled, or else to the file.
        Starting from a file without gaps, the write leaves no gap exactly when
        it is not past the end. */
    method Put(nn: nat, block: B)
      requires Valid()
      modifies this
      ensures Valid() && fOpen == old(fOpen)
      ensures contents == Written(old(contents), nn, block, zero)
      ensures old(Dense()) ==> (Dense() <==> !fOpen || nn <= |old(contents)|)
    {
      assert Look(0);
      ghost var victim := PutInner(nn, block);
    }

    method PutInner(nn: nat, block: B) returns (ghost victim: Option<nat>)
      requires Inner()
      modifies this
      ensures Inner() && fOpen == old(fOpen)
      ensures contents == Written(old(contents), nn, block, zero)
      ensures old(NoGap()) ==> (NoGap() <==> !fOpen || nn <= old(High()))
      ensures fOpen ==> log == old(log) + [nn]
      ensures fOpen && old(nn !in Held(bbList)) ==> |bbList| == Remaining(old(bbList), uiMaxBlocks) + 1
      ensures fOpen ==> (victim.Some? <==> Remaining(old(bbList), uiMaxBlocks) < |old(bbList)|)
      ensures fOpen && victim.Some? ==>
                && Victim(old(log), old(bbList), victim.value)
                && Held(bbList).Keys == old(Held(bbList)).Keys - {victim.value} + {nn}
      ensures fOpen && victim.None? ==> Held(bbList).Keys == old(Held(bbList)).Keys + {nn}
    {
      victim := None;
      ghost var top := High();
      contents := Written(contents, nn, block, zero);
      if nn > nnHighPut || nnHighPut == -1 {
        nnHighPut := nn;
      }
      if fOpen {
        forall n: nat | old(NoGap()) && n < top
          ensures Readable(n)
        {
          assert old(Readable(n));
        }
        victim := InsertList(nn, block, true, top);
        assert nn > top ==> !Readable(top);
      } else {
        disk := Written(disk, nn, block, zero);
      }
    }

    /** Write every dirty block to the file, which then holds all there is to see.
        The dirty bits stay set. */
    method FlushBuffer()
      requires Valid()
      modifies this`disk
      ensures Valid() && disk == contents
    {
      assert Look(0);
      if !fOpen {
        return;
      }
      var i := 0;
      while i < |bbList|
        invariant i <= |bbList|
        invariant Coherent() && High() == old(High()) && View() == old(View())
        invariant |disk| >= old(|disk|)
        invariant UpToDate(disk, Held(bbList[..i]))
      {
        ghost var disk0 := disk;
        if bbList[i].fDelta {
          disk := Written(disk, bbList[i].nn, bbList[i].block, zero);
        }
        Flushed(disk0, disk, log, zero, old(High()), bbList, i);
        i := i + 1;
      }
      assert bbList[..i] == bbList;
    }

    /** Flush and drop the cache, then start an empty one if fEnable is set. */
    method EnableBuffer(fEnable: bool)
      requires Valid()
      modifies this
      ensures Valid() && Dense() && contents == old(contents) && disk == contents
      ensures fOpen == fEnable && (fEnable ==> bbList == [] && log == [])
    {
      assert Look(0);
      if fOpen {
        FlushBuffer();
        fOpen, bbList := false, [];
      }
      if fEnable {
        fOpen, bbList, uiLRUCtr, nnHighPut := true, [], 0, -1;
        log := [];
      }
    }
  }

  // ---------------------------------------------------------------- every interleaving

  datatype Op<B> = GetOp(nn: nat) | PutOp(nn: nat, block: B) | FlushOp | EnableOp(fEnable: bool) | HighOp

  datatype Answer<B> = GotBlock(block: Option<B>) | Highest(nn: nat) | Succeeded

  /** What a plain file of blocks answers, and what it holds afterwards. */
  function PlainStep<B>(file: seq<B>, op: Op<B>, zero: B): (seq<B>, Answer<B>) {
    match op
    case GetOp(nn) => (file, GotBlock(if nn < |file| then Some(file[nn]) else None))
    case PutOp(nn, block) => (Written(file, nn, block, zero), Succeeded)
    case HighOp => (file, Highest(|file|))
    case _ => (file, Succeeded)
  }

  function PlainFile<B>(file: seq<B>, ops: seq<Op<B>>, zero: B): seq<B> {
    if ops == [] then file else PlainStep(PlainFile(file, ops[..|ops| - 1], zero), ops[|ops| - 1], zero).0
  }

  function PlainAnswers<B>(file: seq<B>, ops: seq<Op<B>>, zero: B): seq<Answer<B>> {
    if ops == [] then []
    else
      var before := ops[..|ops| - 1];
      PlainAnswers(file, before, zero) + [PlainStep(PlainFile(file, before, zero), ops[|ops| - 1], zero).1]
  }

  /** No write starts past the end of the file. */
  ghost predicate NoLeap<B>(file: seq<B>, ops: seq<Op<B>>, zero: B) {
    forall i :: 0 <= i < |ops| && ops[i].PutOp? ==> ops[i].nn <= |PlainFile(file, ops[..i], zero)|
  }

  /** However reads, writes, flushes and changes of the cache follow each other,
      the cached file answers as a plain one would, and holds the same. */
  method Interleave<B(!new)>(f: BlkIoBuf<B>, ops: seq<Op<B>>) returns (answers: seq<Answer<B>>)
    requires f.Valid() && f.Dense() && NoLeap(f.contents, ops, f.zero)
    modifies f
    ensures f.Valid() && f.Dense()
    ensures answers == PlainAnswers(old(f.contents), ops, f.zero)
    ensures f.contents == PlainFile(old(f.contents), ops, f.zero)
  {
    answers := [];
    var i := 0;
    ghost var file := f.contents;
    while i < |ops|
      invariant i <= |ops| && f.Valid() && f.Dense()
      invariant answers == PlainAnswers(file, ops[..i], f.zero)
      invariant f.contents == PlainFile(file, ops[..i], f.zero)
    {
      assert ops[..i + 1][..i] == ops[..i];
      var a := Answered(f, ops[i]);
      answers := answers + [a];
      i := i + 1;
    }
    assert ops[..i] == ops;
  }

  method Answered<B>(f: BlkIoBuf<B>, op: Op<B>) returns (a: Answer<B>)
    requires f.Valid() && f.Dense() && (op.PutOp? ==> op.nn <= |f.contents|)
    modifies f
    ensures f.Valid() && f.Dense()
    ensures (f.contents, a) == PlainStep(old(f.contents), op, f.zero)
  {
    a := Succeeded;
    match op {
      case GetOp(nn) =>
        var r := f.Get(nn);
        a := GotBlock(r);
      case PutOp(nn, block) => f.Put(nn, block);
      case FlushOp => f.FlushBuffer();
      case EnableOp(fEnable) => f.EnableBuffer(fEnable);
      case HighOp =>
        var nn := f.HighNode();
        a := Highest(nn);
    }
  }

  /** Why a write past the end is excluded: after writing block 1 of an empty
      file, a plain file reads block 0 as zero, but the cached file fails. */
  method GapExample<B>(zero: B, b: B) returns (buffered: Option<B>, plain: seq<B>)
    ensures plain == [zero, b] && buffered.None?
  {
    plain := Written([], 1, b, zero);
    var f := new BlkIoBuf([], zero, 1);
    f.EnableBuffer(true);
    f.Put(1, b);
    assert Look(0);
    buffered := f.GetInner(0);
  }

  // ---------------------------------------------------------------- when the counter wraps

  /** Reading a cached block until it has been used n times more. */
  method ReadOften<B>(f: BlkIoBuf<B>, nn: nat, n: nat)
    requires f.Inner() && f.fOpen && nn in Held(f.bbList)
    modifies f
    ensures f.Inner() && f.fOpen && |f.bbList| == |old(f.bbList)| && Held(f.bbList).Keys == old(Held(f.bbList)).Keys
    ensures |f.log| == |old(f.log)| + n && (n > 0 ==> LastUse(f.log, nn) == |f.log|)
    ensures forall k :: k != nn ==> LastUse(f.log, k) == LastUse(old(f.log), k)
  {
    var i := 0;
    while i < n
      invariant i <= n && f.Inner() && f.fOpen
      invariant |f.bbList| == |old(f.bbList)| && Held(f.bbList).Keys == old(Held(f.bbList)).Keys
      invariant |f.log| == |old(f.log)| + i && (i > 0 ==> LastUse(f.log, nn) == |f.log|)
      invariant forall k :: k != nn ==> LastUse(f.log, k) == LastUse(old(f.log), k)
    {
      ghost var log := f.log;
      var r := f.GetInner(nn);
      UsedOnce(log, nn);
      i := i + 1;
    }
  }

  lemma UsedOnce(log: seq<nat>, nn: nat)
    ensures LastUse(log + [nn], nn) == |log| + 1 && forall k :: k != nn ==> LastUse(log + [nn], k) == LastUse(log, k)
  {
    forall k: nat ensures LastUse(log + [nn], k) == if k == nn then |log| + 1 else LastUse(log, k) { LastUseGrows(log, nn, k); }
  }

  /** Why the cap does not always hold: a cache for one block whose block is used for the
      2^32nd time takes in another one and keeps both. */
  method CapPassed<B>(zero: B, b: B) returns (f: BlkIoBuf<B>)
    ensures f.Inner() && f.fOpen && f.uiMaxBlocks == 1 && |f.bbList| == 2 && |f.log| == 0x1_0000_0001
  {
    f := OneCached(zero, b, 1);
    ReadOften(f, 0, UINT_MAX);
    Worn(f);
    ghost var v := f.PutInner(1, b);
  }

  method OneCached<B>(zero: B, b: B, cap: nat) returns (f: BlkIoBuf<B>)
    requires cap >= 1
    ensures fresh(f) && f.Inner() && f.fOpen && f.uiMaxBlocks == cap && |f.bbList| == 1 && Held(f.bbList).Keys == {0}
    ensures |f.log| == 1
  {
    f := new BlkIoBuf([], zero, cap);
    f.EnableBuffer(true);
    assert f.Inner() by { assert Look(0); }
    ghost var v := f.PutInner(0, b);
  }

  lemma Worn<B>(f: BlkIoBuf<B>)
    requires f.Inner() && f.fOpen && |f.bbList| == 1 && 0 in Held(f.bbList) && LastUse(f.log, 0) == UINT_MAX + 1
    ensures AllLast(f.bbList) && 1 !in Held(f.bbList)
  {
    var i := HeldWhere(f.bbList, 0);
    assert Study(0);
    assert Sound(f.disk, f.log, f.High(), Held(f.bbList)[0]);
    HeldNot(f.bbList, 1);
  }

  /** Why the victim is not always the least recently used block: of two, the one whose
      use has just taken the stamp 0 goes, and the one not used since the second use of
      all stays. */
  method RecentVictim<B>(zero: B, b: B) returns (f: BlkIoBuf<B>, ghost log: seq<nat>)
    ensures f.Inner() && f.fOpen && Held(f.bbList).Keys == {1, 2} && f.log == log + [2] && |log| == 0x1_0000_0001
    ensures LastUse(log, 1) < LastUse(log, 0)
  {
    f := TwoCached(zero, b);
    ReadOften(f, 0, UINT_MAX);
    log := f.log;
    ZeroStamp(f.disk, log, f.High(), f.bbList);
    ghost var v := f.PutInner(2, b);
  }

  method TwoCached<B>(zero: B, b: B) returns (f: BlkIoBuf<B>)
    ensures fresh(f) && f.Inner() && f.fOpen && f.uiMaxBlocks == 2 && |f.bbList| == 2 && Held(f.bbList).Keys == {0, 1}
    ensures |f.log| == 2 && LastUse(f.log, 1) == 2
  {
    f := OneCached(zero, b, 2);
    ghost var log := f.log;
    ghost var v := f.PutInner(1, b);
    UsedOnce(log, 1);
  }

  lemma ZeroStamp<B>(disk: seq<B>, log: seq<nat>, high: nat, list: seq<Entry<B>>)
    requires Distinct(list) && AllSound(disk, log, high, Held(list)) && Held(list).Keys == {0, 1}
    requires LastUse(log, 0) == UINT_MAX + 2 && LastUse(log, 1) == 2
    ensures !AllLast(list) && 2 !in Held(list) && forall nn :: Victim(log, list, nn) ==> nn == 0
  {
    assert Study(0);
    assert 0 in Held(list) && 1 in Held(list);
    var i := HeldWhere(list, 0);
    var j := HeldWhere(list, 1);
    assert Sound(disk, log, high, Held(list)[0]) && Sound(disk, log, high, Held(list)[1]);
    assert list[i].uiHits == 0 && list[j].uiHits == 1;
    HeldAt(list, Lowest(list));
  }
}
