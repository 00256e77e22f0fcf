/** The code generator's lists of temporary registers in use, one list for each size,
    and how they stand for a set of registers. */
module MexTemps {
  import opened Wrappers
  import opened MexTypes
  import opened MexVm
  import opened MexCode

  /** The registers of one size that are in use, by their numbers, lowest first. */
  datatype TempList = TempList(size: nat, offsets: seq<int>)

  /** From here on, the numbers of one form's registers are those of another's. */
  const MAX_TEMP := 1000

  function FormOf(size: nat): Form {
    if size == 1 then FormByte else if size == 2 then FormWord else FormDword
  }

  predicate Ordered(s: seq<int>) {
    forall i, j :: 0 <= i < j < |s| ==> s[i] < s[j]
  }

  /** A number of a register of the form, the register for results aside. */
  predicate Numbers(f: Form, ofs: int) {
    Base(f) < ofs
  }

  predicate GoodList(l: TempList) {
    && l.size == Size(FormOf(l.size))
    && Ordered(l.offsets)
    && forall i :: 0 <= i < |l.offsets| ==> Numbers(FormOf(l.size), l.offsets[i])
  }

  /** As Show, for what is known of one set of lists only. */
  predicate ShowLists(ls: seq<TempList>, u: nat) {
    ls == ls && u + 1 > u
  }

  predicate Good(ls: seq<TempList>) {
    && (forall i :: 0 <= i < |ls| ==> GoodList(ls[i]))
    && forall i, j :: 0 <= i < j < |ls| ==> ls[i].size != ls[j].size
  }

  function Regs(l: TempList): set<Reg> {
    set i | 0 <= i < |l.offsets| :: Slot(FormOf(l.size), l.offsets[i])
  }

  function Live(ls: seq<TempList>): set<Reg> {
    if ls == [] then {} else Regs(ls[0]) + Live(ls[1..])
  }

  lemma {:induction false} InLive(ls: seq<TempList>, r: Reg)
    ensures r in Live(ls) <==> exists i :: 0 <= i < |ls| && r in Regs(ls[i])
  {
    if ls != [] {
      InLive(ls[1..], r);
      if i :| 0 <= i < |ls[1..]| && r in Regs(ls[1..][i]) { assert r in Regs(ls[i + 1]); }
      if i :| 0 <= i < |ls| && r in Regs(ls[i]) && i > 0 { assert ls[1..][i - 1] == ls[i]; }
    }
  }

  /** In good lists a form's registers are those of the one list of its size. */
  lemma LiveAt(ls: seq<TempList>, i: nat, r: Reg)
    requires Good(ls) && i < |ls| && ls[i].size == Size(r.form)
    ensures r in Live(ls) <==> r in Regs(ls[i])
  {
    InLive(ls, r);
    if j :| 0 <= j < |ls| && r in Regs(ls[j]) { assert i == j; }
  }

  lemma NotLive(ls: seq<TempList>, r: Reg)
    requires Good(ls) && forall i :: 0 <= i < |ls| ==> ls[i].size != Size(r.form)
    ensures r !in Live(ls)
  {
    InLive(ls, r);
  }

  /** Where a list has its first gap. */
  function Gap(f: Form, s: seq<int>, j: nat): (k: nat)
    requires j <= |s|
    ensures j <= k <= |s|
    ensures forall i :: j <= i < k ==> s[i] == Base(f) + 1 + i
    ensures k < |s| ==> s[k] != Base(f) + 1 + k
    decreases |s| - j
  {
    if j < |s| && s[j] == Base(f) + 1 + j then Gap(f, s, j + 1) else j
  }

  function Insert(s: seq<int>, j: nat, x: int): seq<int>
    requires j <= |s|
  {
    s[..j] + [x] + s[j..]
  }

  /** In a list without the numbers up to the base, the k-th is at least base + 1 + k. */
  lemma {:induction false} SortedGrows(f: Form, s: seq<int>, k: nat)
    requires Ordered(s) && k < |s| && forall i :: 0 <= i < |s| ==> Numbers(f, s[i])
    ensures s[k] >= Base(f) + 1 + k
  {
    if k > 0 { SortedGrows(f, s, k - 1); }
  }

  lemma GapIsFree(f: Form, s: seq<int>, k: nat)
    requires Ordered(s) && k < |s| && forall i :: 0 <= i < |s| ==> Numbers(f, s[i])
    ensures s[k] != Base(f) + 1 + Gap(f, s, 0)
  {
    var j := Gap(f, s, 0);
    if j < |s| { SortedGrows(f, s, j); }
    if k > j { assert s[j] < s[k]; }
  }

  lemma FormOfSize(f: Form)
    ensures FormOf(Size(f)) == f
  {
  }

  lemma InRegs(l: TempList, f: Form, k: int)
    requires l.size == Size(f)
    ensures Reg(f, k) in Regs(l) <==> Base(f) + k in l.offsets
  {
    FormOfSize(f);
    if i :| 0 <= i < |l.offsets| && l.offsets[i] == Base(f) + k { assert Slot(f, l.offsets[i]) == Reg(f, k); }
  }

  /** A form's register is in use if its number is in the list of its size. */
  lemma InUse(ls: seq<TempList>, i: nat, f: Form, k: int)
    requires Good(ls) && i < |ls| && ls[i].size == Size(f)
    ensures Reg(f, k) in Live(ls) <==> Base(f) + k in ls[i].offsets
  {
    LiveAt(ls, i, Reg(f, k));
    InRegs(ls[i], f, k);
  }

  /** Filling the first gap of a list takes the first free register. */
  lemma GapIsFresh(ls: seq<TempList>, i: nat, f: Form)
    requires Good(ls) && i < |ls| && ls[i].size == Size(f)
    ensures Fresh(Live(ls), f) == Reg(f, Gap(f, ls[i].offsets, 0) + 1)
  {
    var j := Gap(f, ls[i].offsets, 0);
    GapNotLive(ls, i, f, j);
    FirstFreeIs(Live(ls), f, 1, j + 1);
  }

  lemma GapNotLive(ls: seq<TempList>, i: nat, f: Form, j: nat)
    requires Good(ls) && i < |ls| && ls[i].size == Size(f) && j == Gap(f, ls[i].offsets, 0)
    ensures Reg(f, j + 1) !in Live(ls)
    ensures forall k :: 1 <= k < j + 1 ==> Reg(f, k) in Live(ls)
  {
    FormOfSize(f);
    forall k | 1 <= k < j + 1 ensures Reg(f, k) in Live(ls) {
      assert ls[i].offsets[k - 1] == Base(f) + k;
      InUse(ls, i, f, k);
    }
    GapNotListed(f, ls[i].offsets);
    InUse(ls, i, f, j + 1);
  }

  lemma GapNotListed(f: Form, s: seq<int>)
    requires Ordered(s) && forall i :: 0 <= i < |s| ==> Numbers(f, s[i])
    ensures Base(f) + (Gap(f, s, 0) + 1) !in s
  {
    forall k | 0 <= k < |s| ensures s[k] != Base(f) + (Gap(f, s, 0) + 1) { GapIsFree(f, s, k); }
  }

  lemma {:induction false} FirstFreeIs(live: set<Reg>, f: Form, k: int, r: int)
    requires k <= r && Reg(f, r) !in live && forall j :: k <= j < r ==> Reg(f, j) in live
    ensures FirstFree(live, f, k) == r
    decreases |live|
  {
    if k < r { FirstFreeIs(live - {Reg(f, k)}, f, k + 1, r); }
  }

  // ---------------------------------------------------------------- changing a list

  function Remove(s: seq<int>, j: nat): seq<int>
    requires j < |s|
  {
    s[..j] + s[j + 1..]
  }

  /** Replacing a list changes only what is in use of its size. */
  lemma Replaced(ls: seq<TempList>, i: nat, l: TempList, r: Reg)
    requires Good(ls) && i < |ls| && GoodList(l) && l.size == ls[i].size
    ensures Good(ls[i := l])
    ensures r in Live(ls[i := l]) <==> if Size(r.form) == l.size then r in Regs(l) else r in Live(ls)
  {
    var ls2 := ls[i := l];
    assert Good(ls2);
    if Size(r.form) == l.size {
      LiveAt(ls2, i, r);
    } else {
      InLive(ls, r);
      InLive(ls2, r);
      assert r !in Regs(l) && r !in Regs(ls[i]);
      if j :| 0 <= j < |ls| && r in Regs(ls[j]) { assert r in Regs(ls2[j]); }
      if j :| 0 <= j < |ls2| && r in Regs(ls2[j]) { assert r in Regs(ls[j]); }
    }
  }

  lemma InsertOrdered(s: seq<int>, j: nat, x: int)
    requires Ordered(s) && j <= |s| && (j > 0 ==> s[j - 1] < x) && (j < |s| ==> x < s[j])
    ensures Ordered(Insert(s, j, x))
    ensures forall y :: y in Insert(s, j, x) <==> y in s || y == x
  {
    var t := Insert(s, j, x);
    forall a, b | 0 <= a < b < |t| ensures t[a] < t[b] {
      assert t[a] == if a < j then s[a] else if a == j then x else s[a - 1];
      assert t[b] == if b < j then s[b] else if b == j then x else s[b - 1];
    }
    InsertMembers(s, j, x);
  }

  lemma InsertMembers(s: seq<int>, j: nat, x: int)
    requires j <= |s|
    ensures forall y :: y in Insert(s, j, x) <==> y in s || y == x
  {
    assert s == s[..j] + s[j..];
  }

  lemma RemoveOrdered(s: seq<int>, j: nat)
    requires Ordered(s) && j < |s|
    ensures Ordered(Remove(s, j))
    ensures forall y :: y in Remove(s, j) <==> y in s && y != s[j]
  {
    assert s == s[..j] + [s[j]] + s[j + 1..];
    forall y | y in Remove(s, j) ensures y in s && y != s[j] {
      if y in s[..j] { var i :| 0 <= i < j && s[i] == y; } else { var i :| j < i < |s| && s[i] == y; }
    }
  }

  /** Filling the first gap of the list for a form. */
  lemma Take(ls: seq<TempList>, i: nat, f: Form) returns (j: nat, ls2: seq<TempList>)
    requires Good(ls) && i < |ls| && ls[i].size == Size(f)
    ensures j == Gap(f, ls[i].offsets, 0)
    ensures ls2 == ls[i := TempList(ls[i].size, Insert(ls[i].offsets, j, Base(f) + 1 + j))]
    ensures Good(ls2) && Live(ls2) == Live(ls) + {Fresh(Live(ls), f)} && Fresh(Live(ls), f) == Reg(f, j + 1)
  {
    var s := ls[i].offsets;
    FormOfSize(f);
    j := Gap(f, s, 0);
    GapIsFresh(ls, i, f);
    if j < |s| { SortedGrows(f, s, j); }
    InsertOrdered(s, j, Base(f) + 1 + j);
    var l := TempList(ls[i].size, Insert(s, j, Base(f) + 1 + j));
    GoodAgain(l, f, s, Base(f) + 1 + j);
    ls2 := ls[i := l];
    forall r: Reg ensures r in Live(ls2) <==> r in Live(ls) || r == Reg(f, j + 1) {
      TakeReg(ls, i, f, j, l, r);
    }
    Replaced(ls, i, l, Reg(f, 0));
  }

  lemma GoodAgain(l: TempList, f: Form, s: seq<int>, x: int)
    requires l.size == Size(f) && FormOf(l.size) == f && Ordered(l.offsets) && Numbers(f, x)
    requires (forall i :: 0 <= i < |s| ==> Numbers(f, s[i])) && forall y :: y in l.offsets ==> y in s || y == x
    ensures GoodList(l)
  {
    forall k | 0 <= k < |l.offsets| ensures Numbers(f, l.offsets[k]) { assert l.offsets[k] in l.offsets; }
  }

  lemma TakeReg(ls: seq<TempList>, i: nat, f: Form, j: nat, l: TempList, r: Reg)
    requires Good(ls) && i < |ls| && ls[i].size == Size(f) && GoodList(l) && l.size == ls[i].size
    requires forall y :: y in l.offsets <==> y in ls[i].offsets || y == Base(f) + 1 + j
    ensures r in Live(ls[i := l]) <==> r in Live(ls) || r == Reg(f, j + 1)
  {
    Replaced(ls, i, l, r);
    if r.form == f {
      InUse(ls, i, f, r.k);
      InRegs(l, f, r.k);
    }
  }

  /** A first list for a form that has none. */
  lemma First(ls: seq<TempList>, f: Form) returns (ls2: seq<TempList>)
    requires Good(ls) && forall i :: 0 <= i < |ls| ==> ls[i].size != Size(f)
    ensures ls2 == [TempList(Size(f), [Base(f) + 1])] + ls
    ensures Good(ls2) && Live(ls2) == Live(ls) + {Fresh(Live(ls), f)} && Fresh(Live(ls), f) == Reg(f, 1)
  {
    var l := TempList(Size(f), [Base(f) + 1]);
    ls2 := [l] + ls;
    FormOfSize(f);
    NotLive(ls, Reg(f, 1));
    assert Regs(l) == {Reg(f, 1)} by { assert Slot(f, l.offsets[0]) == Reg(f, 1); }
    assert ls2[1..] == ls;
  }

  /** Freeing a register. */
  lemma Drop(ls: seq<TempList>, i: nat, j: nat, f: Form) returns (ls2: seq<TempList>)
    requires Good(ls) && i < |ls| && j < |ls[i].offsets| && ls[i].size == Size(f)
    ensures ls2 == ls[i := TempList(ls[i].size, Remove(ls[i].offsets, j))]
    ensures Good(ls2) && Live(ls2) == Live(ls) - {Slot(f, ls[i].offsets[j])}
  {
    var s := ls[i].offsets;
    FormOfSize(f);
    RemoveOrdered(s, j);
    var l := TempList(ls[i].size, Remove(s, j));
    assert GoodList(l) by {
      forall k | 0 <= k < |l.offsets| ensures Numbers(f, l.offsets[k]) { assert l.offsets[k] in l.offsets; }
    }
    ls2 := ls[i := l];
    forall r: Reg ensures r in Live(ls2) <==> r in Live(ls) && r != Slot(f, s[j]) {
      DropReg(ls, i, f, j, l, r);
    }
    Replaced(ls, i, l, Reg(f, 0));
  }

  lemma DropReg(ls: seq<TempList>, i: nat, f: Form, j: nat, l: TempList, r: Reg)
    requires Good(ls) && i < |ls| && j < |ls[i].offsets| && ls[i].size == Size(f) && GoodList(l) && l.size == ls[i].size
    requires forall y :: y in l.offsets <==> y in ls[i].offsets && y != ls[i].offsets[j]
    ensures r in Live(ls[i := l]) <==> r in Live(ls) && r != Slot(f, ls[i].offsets[j])
  {
    Replaced(ls, i, l, r);
    if r.form == f {
      InUse(ls, i, f, r.k);
      InRegs(l, f, r.k);
    }
  }

  /** The numbers of the first 1000 registers of one form are never another's; the next
      number of a byte is that of the first word, and after 2000 that of a word is that of
      the first double word. */
  lemma NumbersApart(f: Form, g: Form, ofs: int)
    requires Numbers(f, ofs) && Numbers(g, ofs) && ofs < Base(f) + 1000 && ofs < Base(g) + 1000
    ensures f == g
    ensures forall k: int :: TempAt(Reg(FormByte, k + 1000)) == TempAt(Reg(FormWord, k)) && TempAt(Reg(FormWord, k + 2000)) == TempAt(Reg(FormDword, k))
  {
  }

  /** No register has a number that could be another form's. */
  predicate Tame(live: set<Reg>) {
    forall r :: r in live ==> r.k < MAX_TEMP
  }

  /** The register for results is never one of the temporaries in use. */
  lemma NeverResult(ls: seq<TempList>, f: Form)
    requires Good(ls)
    ensures Reg(f, 0) !in Live(ls)
  {
    InLive(ls, Reg(f, 0));
    forall i | 0 <= i < |ls| ensures Reg(f, 0) !in Regs(ls[i]) {
      if Size(f) == ls[i].size { InRegs(ls[i], f, 0); }
    }
  }
}
