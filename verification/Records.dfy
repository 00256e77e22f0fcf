/** Records of a database: the keys its indices hold for them, and the blocks of
    its data file. */
module Records {
  import opened Wrappers
  import opened TreeOps
  import opened TreeOnDisk
  import opened KeyOrder
  import opened Cursor

  /** A key of an index: a field of a record, and the record's number. */
  datatype Key<F> = Key(field: F, nn: nat)

  /** A block of the data file: a record, or a link of the free list. */
  datatype Block<F> = Data(rec: seq<F>) | Link(nnNext: nat)

  /** Comparing the fields of two keys, and not their record numbers. */
  function ByField<F>(base: (F, F) -> int): (Key<F>, Key<F>) -> int {
    (a: Key<F>, b: Key<F>) => base(a.field, b.field)
  }

  /** An order of keys that goes by field first and may then go by number. */
  ghost predicate Ordered<F(!new)>(kf: (Key<F>, Key<F>) -> int, base: (F, F) -> int) {
    && TotalPreorder(kf)
    && forall a: Key<F>, b: Key<F> :: kf(a, b) <= 0 ==> base(a.field, b.field) <= 0
  }

  lemma ByFieldOk<F(!new)>(kf: (Key<F>, Key<F>) -> int, base: (F, F) -> int)
    requires TotalPreorder(base) && Ordered(kf, base)
    ensures TotalPreorder(ByField(base)) && Coarser(kf, ByField(base))
  {
  }

  // ---------------------------------------------------------------- indices

  /** The keys are those of field i of the live records, one for each. */
  ghost predicate Agrees<F>(keys: seq<Key<F>>, live: map<nat, seq<F>>, i: nat) {
    && (forall n :: n in live ==> i < |live[n]|)
    && (forall j :: 0 <= j < |keys| ==> keys[j].nn in live && keys[j].field == live[keys[j].nn][i])
    && (forall j, k :: 0 <= j < k < |keys| ==> keys[j].nn != keys[k].nn)
    && (forall n :: n in live ==> exists j :: 0 <= j < |keys| && keys[j].nn == n)
  }

  lemma KeyAdded<F>(keys: seq<Key<F>>, live: map<nat, seq<F>>, i: nat, p: nat, nn: nat, rec: seq<F>)
    requires Agrees(keys, live, i) && nn !in live && i < |rec| && p <= |keys|
    ensures Agrees(InsAt(keys, p, Key(rec[i], nn)), live[nn := rec], i)
  {
    var keys', live' := InsAt(keys, p, Key(rec[i], nn)), live[nn := rec];
    forall n | n in live'
      ensures exists j :: 0 <= j < |keys'| && keys'[j].nn == n
    {
      if n == nn {
        assert keys'[p].nn == n;
      } else {
        var j := KeyStays(keys, p, Key(rec[i], nn), n);
      }
    }
  }

  lemma KeyStays<F>(keys: seq<Key<F>>, p: nat, key: Key<F>, n: nat) returns (k: nat)
    requires p <= |keys| && exists j :: 0 <= j < |keys| && keys[j].nn == n
    ensures k <= |keys| && InsAt(keys, p, key)[k].nn == n
  {
    var j :| 0 <= j < |keys| && keys[j].nn == n;
    k := if j < p then j else j + 1;
  }

  lemma KeyRemains<F>(keys: seq<Key<F>>, p: nat, n: nat) returns (k: nat)
    requires p < |keys| && keys[p].nn != n && exists j :: 0 <= j < |keys| && keys[j].nn == n
    ensures k < |keys| - 1 && DelAt(keys, p)[k].nn == n
  {
    var j :| 0 <= j < |keys| && keys[j].nn == n;
    k := if j < p then j else j - 1;
  }

  lemma KeyTaken<F>(keys: seq<Key<F>>, live: map<nat, seq<F>>, i: nat, p: nat, nn: nat)
    requires Agrees(keys, live, i) && p < |keys| && keys[p].nn == nn
    ensures Agrees(DelAt(keys, p), live - {nn}, i)
  {
    var keys', live' := DelAt(keys, p), live - {nn};
    forall n | n in live'
      ensures exists j :: 0 <= j < |keys'| && keys'[j].nn == n
    {
      var j := KeyRemains(keys, p, n);
    }
  }

  // ---------------------------------------------------------------- records

  /** Two records agree on the first n fields. */
  ghost predicate SameFields<F>(base: seq<(F, F) -> int>, a: seq<F>, b: seq<F>, n: nat) {
    n <= |base| && n <= |a| && n <= |b| && forall i :: 0 <= i < n ==> base[i](a[i], b[i]) == 0
  }

  /** A record meets the criteria of a search: every field that is given agrees. */
  ghost predicate Meets<F>(base: seq<(F, F) -> int>, want: seq<Option<F>>, rec: seq<F>) {
    && |want| <= |base| && |want| <= |rec|
    && forall i :: 0 <= i < |want| && want[i].Some? ==> base[i](want[i].value, rec[i]) == 0
  }

  /** No two live records agree on all index fields. */
  ghost predicate NoTwins<F>(base: seq<(F, F) -> int>, live: map<nat, seq<F>>) {
    forall m, n :: m in live && n in live && m != n ==> !SameFields(base, live[m], live[n], |base|)
  }

  lemma NoTwinsAdded<F(!new)>(base: seq<(F, F) -> int>, live: map<nat, seq<F>>, nn: nat, rec: seq<F>)
    requires forall i :: 0 <= i < |base| ==> TotalPreorder(base[i])
    requires NoTwins(base, live) && nn !in live
    requires Unlike(base, rec, live)
    ensures NoTwins(base, live[nn := rec])
  {
    forall n | n in live
      ensures !SameFields(base, live[n], rec, |base|)
    {
      SameEitherWay(base, live[n], rec);
    }
  }

  lemma SameEitherWay<F(!new)>(base: seq<(F, F) -> int>, a: seq<F>, b: seq<F>)
    requires forall i :: 0 <= i < |base| ==> TotalPreorder(base[i])
    ensures SameFields(base, a, b, |base|) <==> SameFields(base, b, a, |base|)
  {
  }

  // ---------------------------------------------------------------- the data file

  ghost predicate Links<F>(d: seq<Block<F>>, head: nat, free: seq<nat>)
    decreases free
  {
    if free == [] then head == 0
    else head == free[0] && 0 < head < |d| && d[head].Link? && Links(d, d[head].nnNext, free[1..])
  }

  ghost predicate Accounted<F>(d: seq<Block<F>>, live: map<nat, seq<F>>, free: seq<nat>) {
    forall n: nat {:trigger CntSeq(free, n)} ::
      CntSeq(free, n) + (if n in live then 1 else 0) == if 1 <= n < |d| then 1 else 0
  }

  /** The live records are in their blocks, the free list is linked, and every block
      from 1 on is one or the other. */
  ghost predicate DataOk<F>(d: seq<Block<F>>, live: map<nat, seq<F>>, head: nat, free: seq<nat>) {
    forall u: nat {:trigger Look(u)} :: Look(u) ==>
      && Links(d, head, free) && Accounted(d, live, free)
      && forall n :: n in live ==> n < |d| && d[n] == Data(live[n])
  }

  lemma EmptyFile<F>()
    ensures DataOk<F>([Link(0)], map[], 0, [])
  {
  }

  lemma LiveRecord<F>(d: seq<Block<F>>, live: map<nat, seq<F>>, head: nat, free: seq<nat>, n: nat)
    requires DataOk(d, live, head, free) && n in live
    ensures n < |d| && d[n] == Data(live[n])
  {
    assert Look(0);
  }

  lemma {:induction false} LinksSame<F>(d: seq<Block<F>>, d': seq<Block<F>>, head: nat, free: seq<nat>)
    requires Links(d, head, free) && |d'| >= |d|
    requires forall n: nat {:trigger CntSeq(free, n)} :: n < |d| && CntSeq(free, n) > 0 ==> d'[n] == d[n]
    ensures Links(d', head, free)
    decreases free
  {
    if free != [] {
      assert CntSeq(free, head) > 0;
      assert forall n: nat {:trigger CntSeq(free[1..], n)} :: CntSeq(free[1..], n) <= CntSeq(free, n);
      LinksSame(d, d', d[head].nnNext, free[1..]);
    }
  }

  lemma FreeHead<F>(d: seq<Block<F>>, live: map<nat, seq<F>>, head: nat, free: seq<nat>)
    requires DataOk(d, live, head, free)
    ensures if free == [] then head == 0 else head == free[0] && 0 < head < |d|
  {
    assert Look(0);
  }

  /** A record written to the block at the head of the free list. */
  lemma ReuseBlock<F>(d: seq<Block<F>>, live: map<nat, seq<F>>, head: nat, free: seq<nat>)
    requires DataOk(d, live, head, free) && head != 0
    ensures free != [] && free[0] == head && head !in live && 0 < head < |d| && d[head].Link?
    ensures forall rec :: DataOk(d[head := Data(rec)], live[head := rec], d[head].nnNext, free[1..])
  {
    assert Look(0);
    assert CntSeq(free, head) == 1 + CntSeq(free[1..], head);
    forall rec: seq<F>
      ensures DataOk(d[head := Data(rec)], live[head := rec], d[head].nnNext, free[1..])
    {
      var d', live' := d[head := Data(rec)], live[head := rec];
      assert forall n: nat {:trigger CntSeq(free[1..], n)} ::
          CntSeq(free, n) == CntSeq(free[1..], n) + if n == head then 1 else 0;
      LinksSame(d, d', d[head].nnNext, free[1..]);
    }
  }

  /** A record written at the end of the file. */
  lemma AppendBlock<F>(d: seq<Block<F>>, live: map<nat, seq<F>>, free: seq<nat>, head: nat, rec: seq<F>)
    requires DataOk(d, live, head, free) && |d| >= 1
    ensures |d| !in live && DataOk(d + [Data(rec)], live[|d| := rec], head, free)
  {
    assert Look(0);
    assert CntSeq(free, |d|) + (if |d| in live then 1 else 0) == 0;
    LinksSame(d, d + [Data(rec)], head, free);
  }

  /** A live block linked into the free list. */
  lemma FreeBlock<F>(d: seq<Block<F>>, live: map<nat, seq<F>>, head: nat, free: seq<nat>, nn: nat)
    requires DataOk(d, live, head, free) && nn in live
    ensures nn != 0 && nn < |d| && DataOk(d[nn := Link(head)], live - {nn}, nn, [nn] + free)
  {
    assert Look(0);
    var d', free' := d[nn := Link(head)], [nn] + free;
    assert CntSeq(free, nn) == 0 && 1 <= nn < |d|;
    LinksSame(d, d', head, free);
    assert free'[1..] == free;
    assert forall n: nat {:trigger CntSeq(free', n)} :: CntSeq(free', n) == CntSeq(free, n) + if n == nn then 1 else 0;
  }

  // ---------------------------------------------------------------- searching an index

  /** The search key that goes with a wanted field; none, for a field left open. */
  function SearchKey<F>(want: Option<F>): Option<Key<F>> {
    match want
    case Some(f) => Some(Key(f, 0))
    case None => None
  }

  /** The record of no key from a to b meets the criteria. */
  ghost predicate NoneMeets<F>(base: seq<(F, F) -> int>, want: seq<Option<F>>, live: map<nat, seq<F>>,
                               keys: seq<Key<F>>, a: int, b: int) {
    forall j :: a <= j < b && 0 <= j < |keys| && keys[j].nn in live ==> !Meets(base, want, live[keys[j].nn])
  }

  /** A key that is no hit belongs to a record that does not meet the criteria. */
  lemma MissedKeys<F(!new)>(base: seq<(F, F) -> int>, want: seq<Option<F>>, live: map<nat, seq<F>>, keys: seq<Key<F>>,
                            i: nat, a: int, b: int)
    requires i < |want| == |base| && TotalPreorder(base[i]) && Agrees(keys, live, i)
    requires NoHit(ByField(base[i]), SearchKey(want[i]), keys, a, b)
    ensures NoneMeets(base, want, live, keys, a, b)
  {
    forall j | a <= j < b && 0 <= j < |keys|
      ensures !Meets(base, want, live[keys[j].nn])
    {
      assert !Hit(ByField(base[i]), SearchKey(want[i]), keys[j]);
    }
  }

  /** If no key's record meets the criteria, no record does. */
  lemma NoRecordMeets<F>(base: seq<(F, F) -> int>, want: seq<Option<F>>, live: map<nat, seq<F>>, keys: seq<Key<F>>, i: nat)
    requires Agrees(keys, live, i) && NoneMeets(base, want, live, keys, 0, |keys|)
    ensures forall n :: n in live ==> !Meets(base, want, live[n])
  {
    forall n | n in live
      ensures !Meets(base, want, live[n])
    {
      var j :| 0 <= j < |keys| && keys[j].nn == n;
    }
  }

  /** A record is its own description. */
  function Whole<F>(rec: seq<F>, n: nat): (w: seq<Option<F>>)
    requires n <= |rec|
    ensures |w| == n && forall i :: 0 <= i < n ==> w[i] == Some(rec[i])
  {
    seq(n, i requires 0 <= i < n => Some(rec[i]))
  }

  lemma WholeMeets<F>(base: seq<(F, F) -> int>, rec: seq<F>, got: seq<F>)
    requires |base| <= |rec|
    ensures Meets(base, Whole(rec, |base|), got) <==> SameFields(base, rec, got, |base|)
  {
    var w := Whole(rec, |base|);
    if SameFields(base, rec, got, |base|) {
      assert forall i :: 0 <= i < |w| && w[i].Some? ==> base[i](w[i].value, got[i]) == 0;
    } else if Meets(base, w, got) {
      assert forall i :: 0 <= i < |base| ==> w[i].Some? && base[i](rec[i], got[i]) == 0;
    }
  }

  /** A search for a record along the keys of an index, which started at c0, has
      tried the keys up to c, and has been given the key before done next. */
  ghost predicate Scan<F>(base: seq<(F, F) -> int>, want: seq<Option<F>>, live: map<nat, seq<F>>, i: nat,
                          keys: seq<Key<F>>, c0: nat, c: nat, done: nat, pc: Option<Key<F>>) {
    forall u: nat {:trigger Look(u)} :: Look(u) ==>
      && i < |want| == |base| && c0 <= c && NoneMeets(base, want, live, keys, c0, c)
      && if pc.Some? then StepResult(ByField(base[i]), SearchKey(want[i]), keys, c, done, pc)
         else NoHit(ByField(base[i]), SearchKey(want[i]), keys, c, |keys|)
  }

  lemma ScanStep<F(!new)>(base: seq<(F, F) -> int>, want: seq<Option<F>>, live: map<nat, seq<F>>, i: nat,
                          keys: seq<Key<F>>, c0: nat, c: nat, done: nat, pc: Option<Key<F>>)
    requires Scan(base, want, live, i, keys, c0, c, done, pc) && Agrees(keys, live, i)
    requires i < |base| && TotalPreorder(base[i])
    ensures c0 <= c
    ensures pc.None? ==> NoneMeets(base, want, live, keys, c0, |keys|)
    ensures pc.Some? ==>
              && c < done <= |keys| && keys[done - 1] == pc.value && pc.value.nn in live
              && NoneMeets(base, want, live, keys, c0, done - 1)
              && (!Meets(base, want, live[pc.value.nn]) ==> NoneMeets(base, want, live, keys, c0, done))
  {
    assert Look(0);
    MissedKeys(base, want, live, keys, i, c, if pc.Some? then done - 1 else |keys|);
  }

  /** A record written to block nn of a file, at the end at most. */
  function Stored<F>(d: seq<Block<F>>, nn: nat, rec: seq<F>): seq<Block<F>>
    requires nn <= |d|
  {
    if nn < |d| then d[nn := Data(rec)] else d + [Data(rec)]
  }

  /** The first field given, or 0 if none is. */
  function Leading<F>(want: seq<Option<F>>): (i: nat)
    requires |want| > 0
    ensures i < |want| && forall j :: 0 <= j < i ==> want[j].None?
    ensures want[i].Some? || (i == 0 && forall j :: 0 <= j < |want| ==> want[j].None?)
  {
    if |want| == 1 || want[0].Some? then 0
    else
      var r := Leading(want[1..]);
      assert forall j :: 1 <= j < |want| ==> want[j] == want[1..][j - 1];
      if want[1..][r].Some? then r + 1 else 0
  }

  /** Record nn is the first along these keys to meet the criteria. */
  ghost predicate FirstToMeet<F>(base: seq<(F, F) -> int>, want: seq<Option<F>>, live: map<nat, seq<F>>, keys: seq<Key<F>>, nn: nat) {
    exists p :: 0 <= p < |keys| && keys[p].nn == nn && nn in live && Meets(base, want, live[nn]) && NoneMeets(base, want, live, keys, 0, p)
  }

  /** No live record agrees with this one on all index fields. */
  ghost predicate Unlike<F>(base: seq<(F, F) -> int>, rec: seq<F>, live: map<nat, seq<F>>) {
    forall n :: n in live ==> !SameFields(base, rec, live[n], |base|)
  }

  lemma UnlikeAll<F>(base: seq<(F, F) -> int>, rec: seq<F>, live: map<nat, seq<F>>)
    requires |base| <= |rec|
    ensures Unlike(base, rec, live) <==> forall n :: n in live ==> !Meets(base, Whole(rec, |base|), live[n])
  {
    forall n | n in live
      ensures SameFields(base, rec, live[n], |base|) <==> Meets(base, Whole(rec, |base|), live[n])
    {
      WholeMeets(base, rec, live[n]);
    }
  }

  ghost predicate Absent<F>(keys: seq<Key<F>>, nn: nat, c: nat) {
    forall j :: 0 <= j < c && j < |keys| ==> keys[j].nn != nn
  }

  /** A search along an index for the key of record nn, which has not been among
      the first c keys. */
  ghost predicate Hunt<F>(base: (F, F) -> int, field: Option<F>, nn: nat, keys: seq<Key<F>>, c: nat, done: nat,
                          pc: Option<Key<F>>) {
    && c <= |keys| && Absent(keys, nn, c)
    && if pc.Some? then StepResult(ByField(base), SearchKey(field), keys, c, done, pc)
       else NoHit(ByField(base), SearchKey(field), keys, c, |keys|)
  }
}
