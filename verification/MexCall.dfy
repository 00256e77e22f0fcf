/** Function calls: every temporary in use is pushed before the arguments and popped
    after the call, and each argument is where the called function looks for it. */
module MexCall {
  import opened Wrappers
  import opened MexTypes
  import opened MexVm
  import opened MexCode
  import opened MexTemps
  import opened MexGen

  // ---------------------------------------------------------------- the frame of the called function

  /** The offset of argument i from the base of the activation record. */
  function ArgOffset(types: seq<Type>, i: nat): nat
    requires i <= |types|
  {
    if i == 0 then AR_CONTROL_DATA else ArgOffset(types, i - 1) + Size(types[i - 1].form)
  }

  /** Lays the declared arguments out, the first lowest. */
  method FunctionArgs(types: seq<Type>) returns (offsets: seq<int>, argSize: nat)
    ensures |offsets| == |types| && forall i :: 0 <= i < |types| ==> offsets[i] == ArgOffset(types, i)
    ensures argSize == ArgOffset(types, |types|) - AR_CONTROL_DATA
  {
    var ofs := AR_CONTROL_DATA;
    offsets, argSize := [], 0;
    var i := 0;
    while i < |types|
      invariant 0 <= i <= |types| && |offsets| == i && ofs == ArgOffset(types, i) && argSize == ofs - AR_CONTROL_DATA
      invariant forall k :: 0 <= k < i ==> offsets[k] == ArgOffset(types, k)
    {
      offsets := offsets + [ofs];
      ofs, argSize := ofs + Size(types[i].form), argSize + Size(types[i].form);
      i := i + 1;
    }
  }

  /** The bytes above cell k of a stack that grows downward: those of the cells pushed
      after it. */
  function Above(stack: seq<(Form, nat)>, k: nat): nat
    requires k < |stack|
    decreases |stack| - k
  {
    if k + 1 == |stack| then 0 else Size(stack[k + 1].0) + Above(stack, k + 1)
  }

  /** What a call leaves on the stack for its arguments, the last first. */
  function Cells(types: seq<Type>, values: seq<int>): (c: seq<(Form, nat)>)
    requires |types| == |values|
    ensures |c| == |types|
  {
    if types == [] then []
    else Cells(types[1..], values[1..]) + [(types[0].form, Raw(types[0].form, values[0]))]
  }

  lemma {:induction false} CellAt(types: seq<Type>, values: seq<int>, i: nat)
    requires |types| == |values| && i < |types|
    ensures Cells(types, values)[|types| - 1 - i] == (types[i].form, Raw(types[i].form, values[i]))
  {
    if i > 0 { CellAt(types[1..], values[1..], i - 1); }
  }

  /** Each argument lies where the called function's declaration puts it. */
  lemma {:induction false} ArgsWhereDeclared(types: seq<Type>, values: seq<int>, i: nat, stack: seq<(Form, nat)>)
    requires |types| == |values| && i < |types|
    ensures var all := stack + Cells(types, values);
            && all[|all| - 1 - i] == (types[i].form, Raw(types[i].form, values[i]))
            && AR_CONTROL_DATA + Above(all, |all| - 1 - i) == ArgOffset(types, i)
  {
    var all := stack + Cells(types, values);
    CellAt(types, values, i);
    if i > 0 {
      ArgsWhereDeclared(types, values, i - 1, stack);
      CellAt(types, values, i - 1);
    }
  }

  // ---------------------------------------------------------------- saving and restoring

  /** A register by its form and number. */
  type Saved = (Form, int)

  function Pushes(rs: seq<Saved>): seq<Quad> {
    if rs == [] then [] else [QPush(rs[0].0, rs[0].1)] + Pushes(rs[1..])
  }

  /** The same registers, the last first. */
  function Pops(rs: seq<Saved>): seq<Quad> {
    if rs == [] then [] else Pops(rs[1..]) + [QPop(rs[0].0, rs[0].1)]
  }

  function SavedCells(rs: seq<Saved>, m: Mem): seq<(Form, nat)> {
    if rs == [] then [] else [(rs[0].0, Fetch(m, rs[0].0, At(Temp(rs[0].1))))] + SavedCells(rs[1..], m)
  }

  lemma {:induction false} PushesPlain(rs: seq<Saved>)
    ensures AllPlain(Pushes(rs)) && AllPlain(Pops(rs))
  {
    if rs != [] { PushesPlain(rs[1..]); }
  }

  lemma {:induction false} PushesRun(rs: seq<Saved>, m: Mem)
    ensures AllPlain(Pushes(rs)) && RunQ(Pushes(rs), m) == Some(m.(stack := m.stack + SavedCells(rs, m)))
  {
    PushesPlain(rs);
    if rs == [] {
      assert m.stack + [] == m.stack;
    } else {
      var cell := (rs[0].0, Fetch(m, rs[0].0, At(Temp(rs[0].1))));
      var m1 := m.(stack := m.stack + [cell]);
      PushesRun(rs[1..], m1);
      SameCells(rs[1..], m, m1);
      RunSplit([QPush(rs[0].0, rs[0].1)], Pushes(rs[1..]), m);
      RunOne(QPush(rs[0].0, rs[0].1), m);
      assert m.stack + [cell] + SavedCells(rs[1..], m) == m.stack + SavedCells(rs, m);
    }
  }

  lemma {:induction false} SameCells(rs: seq<Saved>, m: Mem, m2: Mem)
    requires m2.temps == m.temps
    ensures SavedCells(rs, m2) == SavedCells(rs, m)
  {
    if rs != [] { SameCells(rs[1..], m, m2); }
  }

  /** The registers of the list, as they are in m. */
  ghost predicate Restored(rs: seq<Saved>, m: Mem, m2: Mem) {
    forall x :: x in rs ==> Get(m2.temps, Slot(x.0, x.1)) == Get(m.temps, Slot(x.0, x.1))
  }

  /** Registers outside the list are as in m. */
  ghost predicate OthersKept(rs: seq<Saved>, m: Mem, m2: Mem) {
    forall r: Reg :: (forall x :: x in rs ==> Slot(x.0, x.1) != r) ==> Get(m2.temps, r) == Get(m.temps, r)
  }

  /** Popping mirrors pushing: whatever the registers hold by then, they hold again what
      they held when they were pushed, and no other register is touched. */
  lemma {:induction false} PopsRun(rs: seq<Saved>, m: Mem, m3: Mem, stack: seq<(Form, nat)>) returns (m4: Mem)
    requires m3.stack == stack + SavedCells(rs, m)
    ensures AllPlain(Pops(rs)) && RunQ(Pops(rs), m3) == Some(m4)
    ensures m4.stack == stack && m4.frame == m3.frame && Restored(rs, m, m4) && OthersKept(rs, m3, m4)
    decreases |rs|
  {
    PushesPlain(rs);
    if rs == [] {
      m4 := m3;
      assert stack + [] == stack;
    } else {
      var f, ofs := rs[0].0, rs[0].1;
      var v := Fetch(m, f, At(Temp(ofs)));
      var q := QPop(f, ofs);
      assert m3.stack == (stack + [(f, v)]) + SavedCells(rs[1..], m);
      var m5 := PopsRun(rs[1..], m, m3, stack + [(f, v)]);
      m4 := Put(m5.(stack := stack), f, Temp(ofs), v);
      RunOne(q, m5);
      assert m5.stack[..|m5.stack| - 1] == stack;
      RunSplit(Pops(rs[1..]), [q], m3);
      PopOne(rs, m, m3, m5, m4, v);
    }
  }

  lemma PopOne(rs: seq<Saved>, m: Mem, m3: Mem, m5: Mem, m4: Mem, v: nat)
    requires rs != [] && Restored(rs[1..], m, m5) && OthersKept(rs[1..], m3, m5)
    requires v == Get(m.temps, Slot(rs[0].0, rs[0].1)) && m4.temps == m5.temps[Slot(rs[0].0, rs[0].1) := v]
    ensures Restored(rs, m, m4) && OthersKept(rs, m3, m4)
  {
    var r0 := Slot(rs[0].0, rs[0].1);
    assert Get(m4.temps, r0) == v;
    forall x | x in rs ensures Get(m4.temps, Slot(x.0, x.1)) == Get(m.temps, Slot(x.0, x.1)) {
      if Slot(x.0, x.1) != r0 { assert x in rs[1..]; }
    }
    forall r: Reg | forall x :: x in rs ==> Slot(x.0, x.1) != r ensures Get(m4.temps, r) == Get(m3.temps, r) {
      assert rs[0] in rs && r != r0;
      forall x | x in rs[1..] ensures Slot(x.0, x.1) != r { assert x in rs; }
    }
  }

  // ---------------------------------------------------------------- arguments

  /** The quads that pass the first n arguments, the last of them first, and the
      temporaries in use after them. */
  function ArgCode(args: seq<Obj>, types: seq<Type>, n: nat, live: set<Reg>): (seq<Quad>, set<Reg>)
    requires n <= |args| == |types|
  {
    if n == 0 then ([], live) else
    var c := Coerce(args[n - 1], types[n - 1], live);
    var rest := ArgCode(args, types, n - 1, c.live - TempOf(c.obj));
    (c.quads + ([QArgVal(types[n - 1].form, c.obj.arg)] + rest.0), rest.1)
  }

  /** The first n arguments are in temporaries of their own. */
  ghost predicate Apart(args: seq<Obj>, n: nat, live: set<Reg>) {
    && n <= |args|
    && (forall i :: 0 <= i < n ==> TempOf(args[i]) <= live)
    && forall i, k :: 0 <= i < k < n ==> TempOf(args[i]) !! TempOf(args[k])
  }

  function ArgTemps(args: seq<Obj>, n: nat): set<Reg>
    requires n <= |args|
  {
    if n == 0 then {} else ArgTemps(args, n - 1) + TempOf(args[n - 1])
  }

  function Values(args: seq<Obj>, n: nat, m: Mem): (v: seq<int>)
    requires n <= |args|
    ensures |v| == n
  {
    if n == 0 then [] else Values(args, n - 1, m) + [Value(args[n - 1], m)]
  }

  lemma {:induction false} ValuesKept(args: seq<Obj>, n: nat, m: Mem, m2: Mem, live: set<Reg>)
    requires Apart(args, n, live) && Calm(m, m2, live)
    ensures Values(args, n, m2) == Values(args, n, m)
  {
    if n > 0 {
      ValuesKept(args, n - 1, m, m2, live);
    }
  }

  /** The frame and the temporaries in live are the same. */
  ghost predicate Calm(m: Mem, m2: Mem, live: set<Reg>) {
    m2.frame == m.frame && forall r :: r in live ==> Get(m2.temps, r) == Get(m.temps, r)
  }

  lemma {:induction false} CellsLast(types: seq<Type>, values: seq<int>)
    requires |types| == |values| > 0
    ensures var n := |types| - 1;
            Cells(types, values) == [(types[n].form, Raw(types[n].form, values[n]))] + Cells(types[..n], values[..n])
  {
    var n := |types| - 1;
    if n > 0 {
      CellsLast(types[1..], values[1..]);
      assert types[1..][..n - 1] == types[..n][1..] && values[1..][..n - 1] == values[..n][1..];
    }
  }

  /** What it takes to pass the first n arguments. */
  ghost predicate ArgsAre(args: seq<Obj>, types: seq<Type>, n: nat, live: set<Reg>, qs: seq<Quad>, end: set<Reg>) {
    && n <= |args| == |types|
    && forall u: nat {:trigger Show(Calling, u)} :: Show(Calling, u) ==> Apart(args, n, live) && (qs, end) == ArgCode(args, types, n, live)
  }

  lemma ArgsNone(args: seq<Obj>, types: seq<Type>, live: set<Reg>, qs: seq<Quad>, end: set<Reg>)
    requires ArgsAre(args, types, 0, live, qs, end)
    ensures qs == [] && end == live
  {
    assert Show(Calling, 0);
  }

  lemma ArgsStep(args: seq<Obj>, types: seq<Type>, n: nat, live: set<Reg>, qs: seq<Quad>, end: set<Reg>)
    returns (q: seq<Quad>, rest: seq<Quad>)
    requires ArgsAre(args, types, n, live, qs, end) && n > 0
    ensures TempOf(args[n - 1]) <= live && OneArg(args[n - 1], types[n - 1], live, q)
    ensures qs == q + rest && ArgsAre(args, types, n - 1, live - TempOf(args[n - 1]), rest, end)
  {
    assert Show(Calling, 0);
    var o, t := args[n - 1], types[n - 1];
    CoerceKeeps(o, t, live);
    var c := Coerce(o, t, live);
    q := c.quads + [QArgVal(t.form, c.obj.arg)];
    assert c.live - TempOf(c.obj) == live - TempOf(o);
    rest := ArgCode(args, types, n - 1, live - TempOf(o)).0;
    assert c.quads + ([QArgVal(t.form, c.obj.arg)] + rest) == q + rest;
  }

  /** The quads that pass one argument. */
  ghost predicate OneArg(o: Obj, t: Type, live: set<Reg>, q: seq<Quad>) {
    forall u: nat {:trigger Show(Routine, u)} :: Show(Routine, u) ==>
      q == Coerce(o, t, live).quads + [QArgVal(t.form, Coerce(o, t, live).obj.arg)]
  }

  /** Passing one argument. */
  lemma PassOne(o: Obj, t: Type, live: set<Reg>, qs: seq<Quad>, m: Mem) returns (m2: Mem)
    requires TempOf(o) <= live && OneArg(o, t, live, qs)
    ensures AllPlain(qs) && RunQ(qs, m) == Some(m2)
    ensures Calm(m, m2, live - TempOf(o)) && m2.stack == m.stack + [(t.form, Raw(t.form, Value(o, m)))]
  {
    var c := Coerce(o, t, live);
    assert qs == c.quads + [QArgVal(t.form, c.obj.arg)] by { assert Show(Routine, 0); }
    var v := Wrap(t, Value(o, m));
    ConvertMeans(o, t, live, m);
    Shape(c, m, live - TempOf(o), t, Some(v));
    var m1 := After(c.quads, m);
    var q := QArgVal(t.form, c.obj.arg);
    var bits := Fetch(m1, t.form, c.obj.arg);
    RawOfVal(t, bits);
    RawOfVal(t, Raw(t.form, Value(o, m)));
    RunOne(q, m1);
    RunSplit(c.quads, [q], m);
    m2 := m1.(stack := m1.stack + [(t.form, bits)]);
    assert Show(Keeping, 0);
  }

  /** Each argument is passed once, the last first, in its declared type; the frame and
      the temporaries that hold no argument are the same. */
  lemma {:induction false} ArgsRun(args: seq<Obj>, types: seq<Type>, n: nat, live: set<Reg>, qs: seq<Quad>, end: set<Reg>, m: Mem)
    returns (m2: Mem)
    requires ArgsAre(args, types, n, live, qs, end)
    ensures AllPlain(qs) && RunQ(qs, m) == Some(m2) && end == live - ArgTemps(args, n)
    ensures Calm(m, m2, end) && m2.stack == m.stack + Cells(types[..n], Values(args, n, m))
  {
    if n == 0 {
      ArgsNone(args, types, live, qs, end);
      m2 := m;
      assert m.stack + [] == m.stack;
    } else {
      var o, t := args[n - 1], types[n - 1];
      var q, later := ArgsStep(args, types, n, live, qs, end);
      var rest := live - TempOf(o);
      var m1 := PassOne(o, t, live, q, m);
      m2 := ArgsRun(args, types, n - 1, rest, later, end, m1);
      assert Apart(args, n - 1, rest) by { assert Show(Calling, 0); }
      ValuesKept(args, n - 1, m, m1, rest);
      RunSplit(q, later, m);
      PassedCells(args, types, n, m, m1, m2, Value(o, m));
    }
  }

  lemma PassedCells(args: seq<Obj>, types: seq<Type>, n: nat, m: Mem, m1: Mem, m2: Mem, v: int)
    requires 0 < n <= |args| == |types| && v == Value(args[n - 1], m)
    requires m1.stack == m.stack + [(types[n - 1].form, Raw(types[n - 1].form, v))]
    requires m2.stack == m1.stack + Cells(types[..n - 1], Values(args, n - 1, m))
    ensures m2.stack == m.stack + Cells(types[..n], Values(args, n, m))
  {
    CellsLast(types[..n], Values(args, n, m));
    assert types[..n][..n - 1] == types[..n - 1];
    assert Values(args, n, m)[..n - 1] == Values(args, n - 1, m);
  }

  // ---------------------------------------------------------------- a whole call

  /** The registers in rs are exactly those in use. */
  ghost predicate Lists(rs: seq<Saved>, live: set<Reg>) {
    && (forall x :: x in rs ==> Slot(x.0, x.1) in live)
    && forall r :: r in live ==> exists x :: x in rs && Slot(x.0, x.1) == r
  }

  /** Up to the jump to the function: the registers are saved below the arguments, and
      the arguments are on top, in the function's types. */
  lemma CallBegins(rs: seq<Saved>, args: seq<Obj>, types: seq<Type>, live: set<Reg>, m: Mem) returns (m2: Mem)
    requires |args| == |types| && Apart(args, |args|, live)
    ensures var qs := Pushes(rs) + ArgCode(args, types, |args|, live).0;
            AllPlain(qs) && RunQ(qs, m) == Some(m2)
    ensures m2.frame == m.frame && m2.stack == m.stack + SavedCells(rs, m) + Cells(types, Values(args, |args|, m))
  {
    PushesRun(rs, m);
    var m1 := m.(stack := m.stack + SavedCells(rs, m));
    var c := ArgCode(args, types, |args|, live);
    assert ArgsAre(args, types, |args|, live, c.0, c.1);
    m2 := ArgsRun(args, types, |args|, live, c.0, c.1, m1);
    ValuesKept(args, |args|, m, m1, live);
    RunSplit(Pushes(rs), c.0, m);
    assert types[..|args|] == types;
  }

  /** Whatever the function does to the registers, provided it takes its arguments off
      the stack and leaves the frame alone, the caller finds every temporary as it was
      before the call, and the function's result in the register for results. */
  lemma CallEnds(rs: seq<Saved>, live: set<Reg>, m: Mem, m3: Mem) returns (m4: Mem)
    requires Lists(rs, live) && m3.stack == m.stack + SavedCells(rs, m) && m3.frame == m.frame
    ensures AllPlain(Pops(rs)) && RunQ(Pops(rs), m3) == Some(m4)
    ensures Kept(m, m4, live)
    ensures forall r: Reg :: r !in live ==> Get(m4.temps, r) == Get(m3.temps, r)
  {
    m4 := PopsRun(rs, m, m3, m.stack);
  }

  /** Moving a result out of the register for results. */
  function ResultMove(ret: Option<Type>, live: set<Reg>): seq<Quad> {
    if ret.None? then []
    else [QAssign(ret.value.form, At(Temp(Base(ret.value.form))), TempAt(Fresh(live, ret.value.form)))]
  }

  /** After the call the result is in a temporary of its own, and every temporary that
      held no argument is as it was before the call. */
  lemma CallReturns(rs: seq<Saved>, live: set<Reg>, end: set<Reg>, t: Type, m: Mem, m3: Mem) returns (m5: Mem)
    requires Lists(rs, live) && end <= live && Reg(t.form, 0) !in live
    requires m3.stack == m.stack + SavedCells(rs, m) && m3.frame == m.frame
    ensures var qs := Pops(rs) + ResultMove(Some(t), end);
            AllPlain(qs) && RunQ(qs, m3) == Some(m5)
    ensures Kept(m, m5, end) && Value(InTemp(t, Fresh(end, t.form)), m5) == Val(t, Get(m3.temps, Reg(t.form, 0)))
  {
    var m4 := CallEnds(rs, live, m, m3);
    var reg := Fresh(end, t.form);
    var source := At(Temp(Base(t.form)));
    var bits := Fetch(m4, t.form, source);
    m5 := Put(m4, t.form, TempAt(reg), bits);
    RunOne(QAssign(t.form, source, TempAt(reg)), m4);
    RunSplit(Pops(rs), ResultMove(Some(t), end), m3);
    PutTemp(m4, t, reg, end, bits);
    assert Show(Keeping, 0);
  }

  // ---------------------------------------------------------------- the routines

  function ListSaved(l: TempList): (rs: seq<Saved>)
    ensures |rs| == |l.offsets|
  {
    seq(|l.offsets|, i requires 0 <= i < |l.offsets| => (FormOf(l.size), l.offsets[i]))
  }

  /** The registers in use in the order of the lists. */
  function SavedOf(ls: seq<TempList>): seq<Saved> {
    if ls == [] then [] else ListSaved(ls[0]) + SavedOf(ls[1..])
  }

  lemma {:induction false} SavedAreLive(ls: seq<TempList>)
    ensures Lists(SavedOf(ls), Live(ls))
  {
    if ls != [] {
      SavedAreLive(ls[1..]);
      var l, rest := ls[0], SavedOf(ls[1..]);
      var all := ListSaved(l) + rest;
      forall x | x in all ensures Slot(x.0, x.1) in Live(ls) {
        if x in ListSaved(l) { var i :| 0 <= i < |l.offsets| && ListSaved(l)[i] == x; }
      }
      forall r | r in Live(ls) ensures exists x :: x in all && Slot(x.0, x.1) == r {
        if r in Regs(l) {
          var i :| 0 <= i < |l.offsets| && Slot(FormOf(l.size), l.offsets[i]) == r;
          assert ListSaved(l)[i] in all;
        } else {
          var x :| x in rest && Slot(x.0, x.1) == r;
          assert x in all;
        }
      }
    }
  }

  function Reversed(rs: seq<Saved>): seq<Saved> {
    if rs == [] then [] else Reversed(rs[1..]) + [rs[0]]
  }

  lemma {:induction false} PushesJoin(a: seq<Saved>, x: Saved)
    ensures Pushes(a + [x]) == Pushes(a) + [QPush(x.0, x.1)]
  {
    if a == [] {
      assert [x][1..] == [];
    } else {
      assert (a + [x])[0] == a[0] && (a + [x])[1..] == a[1..] + [x];
      PushesJoin(a[1..], x);
    }
  }

  lemma {:induction false} ReversedJoin(a: seq<Saved>, x: Saved)
    ensures Reversed(a + [x]) == [x] + Reversed(a)
  {
    if a != [] {
      assert (a + [x])[0] == a[0] && (a + [x])[1..] == a[1..] + [x];
      ReversedJoin(a[1..], x);
    }
  }

  lemma {:induction false} SavedStep(ls: seq<TempList>, i: nat)
    requires i < |ls|
    ensures SavedOf(ls[..i + 1]) == SavedOf(ls[..i]) + ListSaved(ls[i])
    decreases i
  {
    if i == 0 {
      assert ls[..1][1..] == [];
    } else {
      assert ls[..i + 1][1..] == ls[1..][..i] && ls[..i][1..] == ls[1..][..i - 1];
      SavedStep(ls[1..], i - 1);
    }
  }

  /** Pushes every register in use and keeps a list of them, the last pushed first. */
  method GenPushQuads(g: Generator) returns (poplist: seq<Saved>)
    modifies g`quads
    ensures g.quads == old(g.quads) + Pushes(SavedOf(g.temp)) && poplist == Reversed(SavedOf(g.temp))
  {
    poplist := [];
    ghost var done: seq<Saved> := [];
    var i := 0;
    while i < |g.temp|
      invariant 0 <= i <= |g.temp| && done == SavedOf(g.temp[..i])
      invariant g.quads == old(g.quads) + Pushes(done) && poplist == Reversed(done)
    {
      poplist, done := PushList(g, g.temp[i], poplist, done);
      SavedStep(g.temp, i);
      i := i + 1;
    }
    assert g.temp[..i] == g.temp;
  }

  method PushList(g: Generator, l: TempList, poplist0: seq<Saved>, ghost start: seq<Saved>) returns (poplist: seq<Saved>, ghost done: seq<Saved>)
    requires poplist0 == Reversed(start)
    modifies g`quads
    ensures done == start + ListSaved(l) && poplist == Reversed(done)
    ensures forall before :: old(g.quads) == before + Pushes(start) ==> g.quads == before + Pushes(done)
  {
    poplist, done := poplist0, start;
    ghost var more := [];
    var k := 0;
    while k < |l.offsets|
      invariant 0 <= k <= |l.offsets| && done == start + ListSaved(l)[..k] && poplist == Reversed(done)
      invariant g.quads == old(g.quads) + more && Pushes(done) == Pushes(start) + more
    {
      var x := (FormOf(l.size), l.offsets[k]);
      g.Generate(QPush(x.0, x.1));
      poplist := [x] + poplist;
      PushesJoin(done, x);
      ReversedJoin(done, x);
      done, more := done + [x], more + [QPush(x.0, x.1)];
      k := k + 1;
    }
  }

  lemma {:induction false} PopsJoin(a: seq<Saved>, x: Saved)
    ensures Pops(a + [x]) == [QPop(x.0, x.1)] + Pops(a)
  {
    if a != [] {
      assert (a + [x])[0] == a[0] && (a + [x])[1..] == a[1..] + [x];
      PopsJoin(a[1..], x);
    }
  }

  /** Pops for a list, first to last. */
  function PopList(rs: seq<Saved>): seq<Quad> {
    if rs == [] then [] else [QPop(rs[0].0, rs[0].1)] + PopList(rs[1..])
  }

  lemma {:induction false} PopListMirrors(rs: seq<Saved>)
    ensures PopList(Reversed(rs)) == Pops(rs)
  {
    if rs != [] {
      PopListMirrors(rs[1..]);
      PopListJoin(Reversed(rs[1..]), rs[0]);
    }
  }

  lemma {:induction false} PopListJoin(a: seq<Saved>, x: Saved)
    ensures PopList(a + [x]) == PopList(a) + [QPop(x.0, x.1)]
  {
    if a == [] {
      assert [x][1..] == [];
    } else {
      assert (a + [x])[0] == a[0] && (a + [x])[1..] == a[1..] + [x];
      PopListJoin(a[1..], x);
    }
  }

  method GenPopQuads(g: Generator, poplist: seq<Saved>)
    modifies g`quads
    ensures g.quads == old(g.quads) + PopList(poplist)
  {
    var i := 0;
    while i < |poplist|
      invariant 0 <= i <= |poplist| && g.quads == old(g.quads) + PopList(poplist[..i])
    {
      g.Generate(QPop(poplist[i].0, poplist[i].1));
      PopListJoin(poplist[..i], poplist[i]);
      assert poplist[..i + 1] == poplist[..i] + [poplist[i]];
      i := i + 1;
    }
    assert poplist[..i] == poplist;
  }

  /** One argument, in the type the function declares for it. */
  method PassArg(g: Generator, o: Obj, t: Type, ghost q: seq<Quad>)
    requires g.Valid() && TempOf(o) <= g.inUse && |g.inUse| + 1 < MAX_TEMP && OneArg(o, t, g.inUse, q)
    modifies g`quads, g`temp, g`inUse
    ensures g.Valid() && g.inUse == old(g.inUse) - TempOf(o) && g.quads == old(g.quads) + q
  {
    ghost var c := Coerce(o, t, g.inUse);
    assert q == c.quads + [QArgVal(t.form, c.obj.arg)] by { assert Show(Routine, 0); }
    CoerceKeeps(o, t, g.inUse);
    FreeAfter(c, g.inUse, o);
    var obj := g.CoerceTo(o, t);
    g.Generate(QArgVal(t.form, obj.arg));
    g.MaybeFreeTemporary(obj);
  }

  lemma FreeAfter(c: Part, live: set<Reg>, o: Obj)
    requires c.live == live - TempOf(o) + TempOf(c.obj) && TempOf(c.obj) !! live - TempOf(o)
    ensures c.live - TempOf(c.obj) == live - TempOf(o) && TempOf(c.obj) <= c.live
  {
  }

  /** Walks the argument list from its start to the argument before the last one passed,
      again and again, until the first has been passed. */
  method PassArgs(g: Generator, args: seq<Obj>, types: seq<Type>, ghost qs: seq<Quad>, ghost end: set<Reg>)
    requires g.Valid() && ArgsAre(args, types, |args|, g.inUse, qs, end) && |g.inUse| + 1 < MAX_TEMP
    modifies g`quads, g`temp, g`inUse
    ensures g.Valid() && g.quads == old(g.quads) + qs && g.inUse == end
  {
    var arg, last := 0, |args|;
    ghost var rest := qs;
    while arg < |args|
      invariant 0 <= last <= |args| == |types| && (arg < last || (arg == 0 && last == 0))
      invariant g.Valid() && |g.inUse| + 1 < MAX_TEMP
      invariant ArgsAre(args, types, last, g.inUse, rest, end) && g.quads + rest == old(g.quads) + qs
      decreases last, |args| - arg
    {
      if arg == last {
        break;
      }
      if arg + 1 == last {
        ghost var q;
        q, rest := ArgsStep(args, types, last, g.inUse, rest, end);
        SubsetCount(g.inUse - TempOf(args[arg]), g.inUse);
        PassArg(g, args[arg], types[arg], q);
        last, arg := arg, 0;
      } else {
        arg := arg + 1;
      }
    }
    ArgsNone(args, types, g.inUse, rest, end);
  }

  /** A call with its arguments already evaluated: none of it is emitted if their number
      is wrong.  The result is moved at once to a temporary of its own. */
  method EndFuncCall(g: Generator, args: seq<Obj>, types: seq<Type>, ret: Option<Type>, id: nat) returns (ok: bool, res: Option<Obj>)
    requires g.Valid() && Apart(args, |args|, g.inUse) && |g.inUse| + 1 < MAX_TEMP
    modifies g`quads, g`temp, g`inUse
    ensures g.Valid() && ok == (|args| == |types|)
    ensures !ok ==> g.quads == old(g.quads) && g.inUse == old(g.inUse) && res == None
    ensures ok ==>
              var rs := SavedOf(old(g.temp));
              var c := ArgCode(args, types, |args|, old(g.inUse));
              && Lists(rs, old(g.inUse))
              && g.quads == old(g.quads) + (Pushes(rs) + c.0) + [QFuncJump(id)] + Pops(rs) + ResultMove(ret, c.1)
              && res == (if ret.None? then None else Some(InTemp(ret.value, Fresh(c.1, ret.value.form))))
              && g.inUse == c.1 + if ret.None? then {} else {Fresh(c.1, ret.value.form)}
  {
    ok, res := |args| == |types|, None;
    if !ok {
      return;
    }
    CallersRegs(g);
    ArgsLive(args, types, |args|, g.inUse);
    SubsetCount(ArgCode(args, types, |args|, g.inUse).1, g.inUse);
    EmitCall(g, args, types, id);
    if ret.Some? {
      var r := MoveResult(g, ret.value);
      res := Some(r);
    }
  }

  method EmitCall(g: Generator, args: seq<Obj>, types: seq<Type>, id: nat)
    requires g.Valid() && |args| == |types| && Apart(args, |args|, g.inUse) && |g.inUse| + 1 < MAX_TEMP
    modifies g`quads, g`temp, g`inUse
    ensures var rs := SavedOf(old(g.temp));
            var c := ArgCode(args, types, |args|, old(g.inUse));
            && g.Valid() && g.inUse == c.1
            && g.quads == old(g.quads) + (Pushes(rs) + c.0) + [QFuncJump(id)] + Pops(rs)
  {
    ghost var rs, qs, end := SavedOf(g.temp), ArgCode(args, types, |args|, g.inUse).0, ArgCode(args, types, |args|, g.inUse).1;
    ghost var before := g.quads;
    assert ArgsAre(args, types, |args|, g.inUse, qs, end);
    var poplist := GenPushQuads(g);
    PassArgs(g, args, types, qs, end);
    assert g.quads == before + (Pushes(rs) + qs);
    g.Generate(QFuncJump(id));
    GenPopQuads(g, poplist);
    PopListMirrors(rs);
  }

  method MoveResult(g: Generator, t: Type) returns (r: Obj)
    requires g.Valid() && |g.inUse| + 1 < MAX_TEMP
    modifies g`quads, g`temp, g`inUse
    ensures var reg := Fresh(old(g.inUse), t.form);
            && g.Valid() && r == InTemp(t, reg) && g.inUse == old(g.inUse) + {reg}
            && g.quads == old(g.quads) + [QAssign(t.form, At(Temp(Base(t.form))), TempAt(reg))]
  {
    r := g.NewTemp(t);
    g.Generate(QAssign(t.form, At(Temp(Base(t.form))), r.arg.place));
  }

  lemma CallersRegs(g: Generator)
    requires g.Valid()
    ensures Lists(SavedOf(g.temp), g.inUse)
  {
    assert ShowLists(g.temp, 0);
    SavedAreLive(g.temp);
  }

  lemma ArgsLive(args: seq<Obj>, types: seq<Type>, n: nat, live: set<Reg>)
    requires |args| == |types| && Apart(args, n, live)
    ensures ArgCode(args, types, n, live).1 == live - ArgTemps(args, n)
  {
    var c := ArgCode(args, types, n, live);
    assert ArgsAre(args, types, n, live, c.0, c.1);
    var m2 := ArgsRun(args, types, n, live, c.0, c.1, Mem(map[], map[], []));
  }
}
