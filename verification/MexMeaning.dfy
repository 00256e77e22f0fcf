/** Running the quads of a statement does what the statement means: same frame, same
    end, same result, and an end on one side if and only if on the other. */
module MexMeaning {
  import opened Wrappers
  import opened MexTypes
  import opened MexVm
  import opened MexSource
  import opened MexCode
  import opened MexFlow

  /** A run ended the way the outcome says: past the statement, at the end of the
      function with the result in its register, or with an error. */
  ghost predicate Matches(r: Result, o: Outcome, stack: seq<(Form, nat)>, next: nat, fin: nat, ret: Type) {
    match o
    case OutOfFuel => false
    case Fault => r.Crash?
    case Normal(f) => r.Exit? && r.pc == next && r.mem.frame == f && r.mem.stack == stack
    case Returned(f, v) =>
      && r.Exit? && r.pc == fin && r.mem.frame == f && r.mem.stack == stack
      && (v.Some? ==> Val(ret, Get(r.mem.temps, Reg(ret.form, 0))) == v.value)
  }

  // ---------------------------------------------------------------- pieces of a statement

  lemma SitsFirst(code: seq<Quad>, addr: nat, q: Quad)
    requires Sits(code, addr, [q])
    ensures addr < |code| && code[addr] == q && InFile(q)
  {
    assert ShowAt(Held, addr, 0);
    assert code[addr..addr + 1][0] == q;
  }

  /** From pc the machine goes in len steps to pc2 and memory m2, or else, when not ok,
      stops with an error on the way. */
  ghost predicate Leads(code: seq<Quad>, lo: nat, hi: nat, pc: nat, m: Mem, len: nat, ok: bool, pc2: nat, m2: Mem) {
    forall u: nat {:trigger ShowAt(Steps, pc, u)} :: ShowAt(Steps, pc, u) ==> forall n: nat :: LeadsIn(code, lo, hi, pc, m, len, ok, pc2, m2, n)
  }

  ghost predicate LeadsIn(code: seq<Quad>, lo: nat, hi: nat, pc: nat, m: Mem, len: nat, ok: bool, pc2: nat, m2: Mem, n: nat) {
    var r := RunIn(code, lo, hi, pc, m, n);
    if ok then r == if n < len then Out else RunIn(code, lo, hi, pc2, m2, n - len)
    else r.Crash? || (n < len && r.Out?)
  }

  lemma LeadsAt(code: seq<Quad>, lo: nat, hi: nat, pc: nat, m: Mem, len: nat, ok: bool, pc2: nat, m2: Mem, n: nat)
    requires Leads(code, lo, hi, pc, m, len, ok, pc2, m2)
    ensures LeadsIn(code, lo, hi, pc, m, len, ok, pc2, m2, n)
  {
    assert ShowAt(Steps, pc, 0);
  }

  lemma LeadsOn(code: seq<Quad>, lo: nat, hi: nat, pc: nat, m: Mem, len: nat, ok: bool, pc1: nat, m1: Mem, len2: nat, pc2: nat, m2: Mem)
    requires Leads(code, lo, hi, pc, m, len, ok, pc1, m1)
    requires ok ==> Leads(code, lo, hi, pc1, m1, len2, true, pc2, m2)
    ensures Leads(code, lo, hi, pc, m, len + len2, ok, pc2, m2)
  {
    var both := len + len2;
    forall n: nat ensures LeadsIn(code, lo, hi, pc, m, both, ok, pc2, m2, n) {
      LeadsAt(code, lo, hi, pc, m, len, ok, pc1, m1, n);
      if ok && n >= len {
        LeadsAt(code, lo, hi, pc1, m1, len2, true, pc2, m2, n - len);
      }
    }
  }

  lemma RunPlain(code: seq<Quad>, lo: nat, hi: nat, pc: nat, qs: seq<Quad>, m: Mem)
    requires Sits(code, pc, qs) && lo <= pc && pc + |qs| <= hi && AllPlain(qs)
    ensures Leads(code, lo, hi, pc, m, |qs|, RunQ(qs, m).Some?, pc + |qs|, After(qs, m))
  {
    var len, end, m2, ok := |qs|, pc + |qs|, After(qs, m), RunQ(qs, m).Some?;
    forall n: nat ensures LeadsIn(code, lo, hi, pc, m, len, ok, end, m2, n) {
      Straight(code, lo, hi, pc, qs, m, n);
    }
  }

  lemma RunJump(code: seq<Quad>, lo: nat, hi: nat, pc: nat, q: Quad, m: Mem)
    requires Sits(code, pc, [q]) && Jump(q) && lo <= pc < hi
    ensures Leads(code, lo, hi, pc, m, 1, true, Next(q, pc, m), m)
  {
    SitsFirst(code, pc, q);
    var pc2 := Next(q, pc, m);
    forall n: nat ensures LeadsIn(code, lo, hi, pc, m, 1, true, pc2, m, n) {
    }
  }

  /** The action has the result r. */
  ghost predicate Acts(a: Action, frame: Frame, r: Option<(Frame, int)>) {
    forall u: nat {:trigger Show(Acting, u)} :: Show(Acting, u) ==> Act(a, frame) == r
  }

  /** The optional action ends with o. */
  ghost predicate MayEnd(a: Option<Action>, frame: Frame, o: Outcome) {
    && (o.Normal? || o.Fault?)
    && forall u: nat {:trigger Show(MayActing, u)} :: Show(MayActing, u) ==> Maybe(a, frame) == o
  }

  lemma ActionResult(a: Action, m: Mem) returns (r: Option<(Frame, int)>)
    ensures Performs(CodeA(a), m, ActionType(a), r) && Acts(a, m.frame, r)
  {
    r := Act(a, m.frame);
    ActionMeans(a, m);
  }

  lemma RunAction(code: seq<Quad>, lo: nat, hi: nat, pc: nat, a: Action, m: Mem) returns (m2: Mem, r: Option<(Frame, int)>)
    requires Sits(code, pc, CodeA(a).quads) && lo <= pc && pc + |CodeA(a).quads| <= hi
    ensures Acts(a, m.frame, r)
    ensures Leads(code, lo, hi, pc, m, |CodeA(a).quads|, r.Some?, pc + |CodeA(a).quads|, m2)
    ensures r.Some? ==> m2.frame == r.value.0 && m2.stack == m.stack && Value(CodeA(a).obj, m2) == r.value.1
  {
    r := ActionResult(a, m);
    m2 := RunPart(code, lo, hi, pc, CodeA(a), m, ActionType(a), r);
  }

  lemma RunPart(code: seq<Quad>, lo: nat, hi: nat, pc: nat, p: Part, m: Mem, t: Type, r: Option<(Frame, int)>) returns (m2: Mem)
    requires Sits(code, pc, p.quads) && lo <= pc && pc + |p.quads| <= hi && Performs(p, m, t, r)
    ensures Leads(code, lo, hi, pc, m, |p.quads|, r.Some?, pc + |p.quads|, m2)
    ensures r.Some? ==> m2.frame == r.value.0 && m2.stack == m.stack && Value(p.obj, m2) == r.value.1
  {
    PerformShape(p, m, t, r);
    m2 := After(p.quads, m);
    RunPlain(code, lo, hi, pc, p.quads, m);
  }

  /** The code for an optional action is from pc up to at. */
  ghost predicate MaybeAt(code: seq<Quad>, pc: nat, at: nat, a: Option<Action>) {
    pc <= at && forall u: nat {:trigger ShowAt(MaybeCode, pc, u)} :: ShowAt(MaybeCode, pc, u) ==> at == pc + |MaybeA(a)| && Sits(code, pc, MaybeA(a))
  }

  lemma RunMaybe(code: seq<Quad>, lo: nat, hi: nat, pc: nat, at: nat, a: Option<Action>, m: Mem) returns (m2: Mem, o: Outcome)
    requires MaybeAt(code, pc, at, a) && lo <= pc && at <= hi
    ensures MayEnd(a, m.frame, o)
    ensures Leads(code, lo, hi, pc, m, at - pc, o.Normal?, at, m2)
    ensures o.Normal? ==> m2.frame == o.frame && m2.stack == m.stack
  {
    var qs := MaybeA(a);
    assert at == pc + |qs| && Sits(code, pc, qs) by { assert ShowAt(MaybeCode, pc, 0); }
    if a.Some? {
      var r;
      m2, r := RunAction(code, lo, hi, pc, a.value, m);
      o := Done(r);
      assert MayEnd(a, m.frame, o) by { assert Show(Acting, 0); }
    } else {
      m2, o := m, Normal(m.frame);
      RunPlain(code, lo, hi, pc, qs, m);
    }
  }

  lemma ZeroVal(t: Type, bits: nat)
    requires bits < Span(t.form)
    ensures Val(t, bits) == 0 <==> bits == 0
  {
  }

  lemma JumpMeans(o: Obj, target: nat, back: bool, at: nat, m: Mem)
    ensures Next(TestQuad(o, target, back), at, m) == if (Value(o, m) != 0) == back then target else at + 1
  {
    ZeroVal(o.t, Fetch(m, o.t.form, o.arg));
  }

  /** The code for a test is from pc up to at. */
  ghost predicate TestAt(code: seq<Quad>, pc: nat, at: nat, a: Action, target: nat, back: bool) {
    pc < at && forall u: nat {:trigger ShowAt(TestCode, pc, u)} :: ShowAt(TestCode, pc, u) ==> at == pc + TestLen(a) && Sits(code, pc, Test(a, target, back))
  }

  lemma RunTest(code: seq<Quad>, lo: nat, hi: nat, pc: nat, at: nat, a: Action, target: nat, back: bool, m: Mem)
    returns (m2: Mem, r: Option<(Frame, int)>, pc2: nat)
    requires TestAt(code, pc, at, a, target, back) && lo <= pc && at <= hi
    ensures Acts(a, m.frame, r)
    ensures Leads(code, lo, hi, pc, m, at - pc, r.Some?, pc2, m2)
    ensures r.Some? ==>
              && m2.frame == r.value.0 && m2.stack == m.stack
              && pc2 == if (r.value.1 != 0) == back then target else at
  {
    var qs, o := CodeA(a).quads, CodeA(a).obj;
    assert at == pc + |qs| + 1 && Sits(code, pc, qs + [TestQuad(o, target, back)]) by { assert ShowAt(TestCode, pc, 0); }
    SitsSplit(code, pc, qs, [TestQuad(o, target, back)]);
    m2, r := RunAction(code, lo, hi, pc, a, m);
    pc2 := ThenJump(code, lo, hi, pc, |qs|, o, target, back, m, m2, r);
  }

  lemma ThenJump(code: seq<Quad>, lo: nat, hi: nat, pc: nat, len: nat, o: Obj, target: nat, back: bool, m: Mem, m2: Mem,
                 r: Option<(Frame, int)>) returns (pc2: nat)
    requires lo <= pc && pc + len < hi && Sits(code, pc + len, [TestQuad(o, target, back)])
    requires Leads(code, lo, hi, pc, m, len, r.Some?, pc + len, m2)
    requires r.Some? ==> Value(o, m2) == r.value.1
    ensures Leads(code, lo, hi, pc, m, len + 1, r.Some?, pc2, m2)
    ensures r.Some? ==> pc2 == if (r.value.1 != 0) == back then target else pc + len + 1
  {
    var q := TestQuad(o, target, back);
    pc2 := Next(q, pc + len, m2);
    JumpMeans(o, target, back, pc + len, m2);
    RunJump(code, lo, hi, pc + len, q, m2);
    LeadsOn(code, lo, hi, pc, m, len, r.Some?, pc + len, m2, 1, pc2, m2);
  }

  /** The code that leaves the function's result is from pc up to at. */
  ghost predicate DeliverAt(code: seq<Quad>, pc: nat, at: nat, a: Action, ret: Type) {
    pc <= at && forall u: nat {:trigger ShowAt(ResultCode, pc, u)} :: ShowAt(ResultCode, pc, u) ==> at == pc + |Deliver(a, ret)| && Sits(code, pc, Deliver(a, ret))
  }

  lemma RunDeliver(code: seq<Quad>, lo: nat, hi: nat, pc: nat, at: nat, a: Action, ret: Type, m: Mem)
    returns (m2: Mem, r: Option<(Frame, int)>)
    requires DeliverAt(code, pc, at, a, ret) && lo <= pc && at <= hi
    ensures Acts(a, m.frame, r)
    ensures Leads(code, lo, hi, pc, m, at - pc, r.Some?, at, m2)
    ensures r.Some? ==>
              && m2.frame == r.value.0 && m2.stack == m.stack
              && Val(ret, Get(m2.temps, Reg(ret.form, 0))) == Wrap(ret, r.value.1)
  {
    assert at == pc + |Deliver(a, ret)| && Sits(code, pc, Deliver(a, ret)) by { assert ShowAt(ResultCode, pc, 0); }
    r := DeliverMeans(a, ret, Deliver(a, ret), m);
    RunPlain(code, lo, hi, pc, Deliver(a, ret), m);
    m2 := After(Deliver(a, ret), m);
  }

  lemma DeliverMeans(a: Action, ret: Type, qs: seq<Quad>, m: Mem) returns (r: Option<(Frame, int)>)
    requires qs == Deliver(a, ret)
    ensures AllPlain(qs) && Acts(a, m.frame, r) && RunQ(qs, m).Some? == r.Some?
    ensures r.Some? ==>
              && After(qs, m).frame == r.value.0 && After(qs, m).stack == m.stack
              && Val(ret, Get(After(qs, m).temps, Reg(ret.form, 0))) == Wrap(ret, r.value.1)
  {
    r := ActionResult(a, m);
    DeliverPart(CodeA(a), ret, m, ActionType(a), r);
  }

  lemma DeliverPart(p: Part, ret: Type, m: Mem, t: Type, r: Option<(Frame, int)>)
    requires Performs(p, m, t, r)
    ensures var c := Coerce(p.obj, ret, p.live);
            var qs := p.quads + (c.quads + [QAssign(ret.form, c.obj.arg, TempAt(Reg(ret.form, 0)))]);
            && AllPlain(qs) && RunQ(qs, m).Some? == r.Some?
            && (r.Some? ==>
                  && After(qs, m).frame == r.value.0 && After(qs, m).stack == m.stack
                  && Val(ret, Get(After(qs, m).temps, Reg(ret.form, 0))) == Wrap(ret, r.value.1))
  {
    PerformShape(p, m, t, r);
    var m1 := After(p.quads, m);
    var c := Coerce(p.obj, ret, p.live);
    var v := Wrap(ret, Value(p.obj, m1));
    ConvertMeans(p.obj, ret, p.live, m1);
    Shape(c, m1, p.live - TempOf(p.obj), ret, Some(v));
    var m3 := After(c.quads, m1);
    var reg := Reg(ret.form, 0);
    var q := QAssign(ret.form, c.obj.arg, TempAt(reg));
    var bits := Fetch(m3, ret.form, c.obj.arg);
    RunOne(q, m3);
    RunSplit(c.quads, [q], m1);
    RunSplit(p.quads, c.quads + [q], m);
    PutTemp(m3, ret, reg, {}, bits);
  }

  // ---------------------------------------------------------------- where the pieces of a statement are

  /** The code holds the statement from addr up to end, inside [lo, hi), with the end of
      the function no earlier than hi. */
  ghost predicate Placed(code: seq<Quad>, lo: nat, hi: nat, s: Stmt, addr: nat, end: nat, ret: Type, fin: nat) {
    && lo <= addr <= end <= hi <= fin
    && forall u: nat {:trigger ShowOf(Piece, s, u)} :: ShowOf(Piece, s, u) ==> end == addr + Len(s, ret) && Sits(code, addr, Code(s, addr, ret, fin))
  }

  /** The quads of the statement for these addresses. */
  ghost predicate IsCode(s: Stmt, addr: nat, end: nat, ret: Type, fin: nat, qs: seq<Quad>) {
    && end == addr + |qs|
    && forall u: nat {:trigger ShowOf(Emitted, s, u)} :: ShowOf(Emitted, s, u) ==> Same(qs, Code(s, addr, ret, fin))
  }

  lemma Emit(s: Stmt, addr: nat, ret: Type, fin: nat) returns (end: nat, qs: seq<Quad>)
    ensures end == addr + Len(s, ret) && qs == Code(s, addr, ret, fin) && IsCode(s, addr, end, ret, fin, qs)
  {
    end, qs := addr + Len(s, ret), Code(s, addr, ret, fin);
  }

  lemma Place(code: seq<Quad>, lo: nat, hi: nat, s: Stmt, addr: nat, end: nat, ret: Type, fin: nat, qs: seq<Quad>)
    requires lo <= addr && end <= hi <= fin && IsCode(s, addr, end, ret, fin, qs) && Sits(code, addr, qs)
    ensures Placed(code, lo, hi, s, addr, end, ret, fin)
  {
    assert ShowOf(Emitted, s, 0);
  }

  lemma PlacedThen(code: seq<Quad>, lo: nat, hi: nat, s: Stmt, addr: nat, end: nat, ret: Type, fin: nat) returns (at: nat)
    requires s.Then? && Placed(code, lo, hi, s, addr, end, ret, fin)
    ensures Placed(code, lo, hi, s.first, addr, at, ret, fin) && Placed(code, lo, hi, s.second, at, end, ret, fin)
  {
    var a, b;
    at, a, b := UnfoldThen(code, lo, hi, s, addr, end, ret, fin);
    SitsSplit(code, addr, a, b);
    Place(code, lo, hi, s.first, addr, at, ret, fin, a);
    Place(code, lo, hi, s.second, at, end, ret, fin, b);
  }

  lemma UnfoldThen(code: seq<Quad>, lo: nat, hi: nat, s: Stmt, addr: nat, end: nat, ret: Type, fin: nat)
    returns (at: nat, a: seq<Quad>, b: seq<Quad>)
    requires s.Then? && Placed(code, lo, hi, s, addr, end, ret, fin)
    ensures IsCode(s.first, addr, at, ret, fin, a) && IsCode(s.second, at, end, ret, fin, b) && Sits(code, addr, a + b)
  {
    var e;
    at, a := Emit(s.first, addr, ret, fin);
    e, b := Emit(s.second, at, ret, fin);
    assert end == e && Sits(code, addr, a + b) by { assert ShowOf(Piece, s, 0); }
  }

  lemma PlacedIf(code: seq<Quad>, lo: nat, hi: nat, s: Stmt, addr: nat, end: nat, ret: Type, fin: nat) returns (at: nat)
    requires s.If? && Placed(code, lo, hi, s, addr, end, ret, fin)
    ensures TestAt(code, addr, at, s.test, end, false) && Placed(code, lo, hi, s.yes, at, end, ret, fin)
  {
    assert ShowOf(Piece, s, 0);
    at := addr + TestLen(s.test);
    SitsSplit(code, addr, Test(s.test, end, false), Code(s.yes, at, ret, fin));
  }

  lemma SitsFour(code: seq<Quad>, addr: nat, a: seq<Quad>, b: seq<Quad>, c: seq<Quad>, d: seq<Quad>)
    requires Sits(code, addr, a + (b + (c + d)))
    ensures Sits(code, addr, a) && Sits(code, addr + |a|, b)
    ensures Sits(code, addr + |a| + |b|, c) && Sits(code, addr + |a| + |b| + |c|, d)
  {
    SitsSplit(code, addr, a, b + (c + d));
    SitsSplit(code, addr + |a|, b, c + d);
    SitsSplit(code, addr + |a| + |b|, c, d);
  }

  lemma PlacedIfElse(code: seq<Quad>, lo: nat, hi: nat, s: Stmt, addr: nat, end: nat, ret: Type, fin: nat) returns (at: nat, other: nat)
    requires s.IfElse? && Placed(code, lo, hi, s, addr, end, ret, fin)
    ensures other > 0 && TestAt(code, addr, at, s.test, other, false)
    ensures Placed(code, lo, hi, s.yes, at, other - 1, ret, fin)
    ensures Sits(code, other - 1, [QJmp(end)])
    ensures Placed(code, lo, hi, s.no, other, end, ret, fin)
  {
    var t, a, b;
    at, other, t, a, b := UnfoldIfElse(code, lo, hi, s, addr, end, ret, fin);
    SitsFour(code, addr, t, a, [QJmp(end)], b);
    assert TestAt(code, addr, at, s.test, other, false);
    Place(code, lo, hi, s.yes, at, other - 1, ret, fin, a);
    Place(code, lo, hi, s.no, other, end, ret, fin, b);
  }

  lemma UnfoldIfElse(code: seq<Quad>, lo: nat, hi: nat, s: Stmt, addr: nat, end: nat, ret: Type, fin: nat)
    returns (at: nat, other: nat, t: seq<Quad>, a: seq<Quad>, b: seq<Quad>)
    requires s.IfElse? && Placed(code, lo, hi, s, addr, end, ret, fin)
    ensures at == addr + TestLen(s.test) && t == Test(s.test, other, false) && |t| == TestLen(s.test) && other > 0
    ensures IsCode(s.yes, at, other - 1, ret, fin, a) && IsCode(s.no, other, end, ret, fin, b)
    ensures Sits(code, addr, t + (a + ([QJmp(end)] + b)))
  {
    assert ShowOf(Piece, s, 0);
    at := addr + TestLen(s.test);
    var e;
    e, a := Emit(s.yes, at, ret, fin);
    other := e + 1;
    t := Test(s.test, other, false);
    e, b := Emit(s.no, other, ret, fin);
  }

  lemma PlacedWhile(code: seq<Quad>, lo: nat, hi: nat, s: Stmt, addr: nat, end: nat, ret: Type, fin: nat) returns (at: nat)
    requires s.While? && Placed(code, lo, hi, s, addr, end, ret, fin)
    ensures end > 0 && TestAt(code, addr, at, s.test, end, false)
    ensures Placed(code, lo, hi, s.body, at, end - 1, ret, fin)
    ensures Sits(code, end - 1, [QJmp(addr)])
  {
    var t, body;
    at, t, body := UnfoldWhile(code, lo, hi, s, addr, end, ret, fin);
    SitsSplit(code, addr, t, body + [QJmp(addr)]);
    SitsSplit(code, at, body, [QJmp(addr)]);
    assert TestAt(code, addr, at, s.test, end, false);
    Place(code, lo, hi, s.body, at, end - 1, ret, fin, body);
  }

  lemma UnfoldWhile(code: seq<Quad>, lo: nat, hi: nat, s: Stmt, addr: nat, end: nat, ret: Type, fin: nat)
    returns (at: nat, t: seq<Quad>, body: seq<Quad>)
    requires s.While? && Placed(code, lo, hi, s, addr, end, ret, fin)
    ensures at == addr + TestLen(s.test) && t == Test(s.test, end, false) && |t| == TestLen(s.test) && end > 0
    ensures IsCode(s.body, at, end - 1, ret, fin, body) && Sits(code, addr, t + (body + [QJmp(addr)]))
  {
    assert ShowOf(Piece, s, 0);
    at, t := addr + TestLen(s.test), Test(s.test, end, false);
    var e;
    e, body := Emit(s.body, at, ret, fin);
  }

  lemma PlacedDoWhile(code: seq<Quad>, lo: nat, hi: nat, s: Stmt, addr: nat, end: nat, ret: Type, fin: nat) returns (at: nat)
    requires s.DoWhile? && Placed(code, lo, hi, s, addr, end, ret, fin)
    ensures Placed(code, lo, hi, s.body, addr, at, ret, fin)
    ensures TestAt(code, at, end, s.test, addr, true)
  {
    assert ShowOf(Piece, s, 0);
    at := addr + Len(s.body, ret);
    SitsSplit(code, addr, Code(s.body, addr, ret, fin), Test(s.test, addr, true));
  }

  /** The pieces of a for loop, its initial action aside. */
  ghost predicate LoopPlaced(code: seq<Quad>, lo: nat, hi: nat, l: Places, test: Action, post: Option<Action>, body: Stmt,
                             ret: Type, fin: nat) {
    && lo <= l.test < l.post <= l.body < l.done <= hi
    && TestAt(code, l.test, l.post - 1, test, l.done, false)
    && Sits(code, l.post - 1, [QJmp(l.body)])
    && MaybeAt(code, l.post, l.body - 1, post)
    && Sits(code, l.body - 1, [QJmp(l.test)])
    && Placed(code, lo, hi, body, l.body, l.done - 1, ret, fin)
    && Sits(code, l.done - 1, [QJmp(l.post)])
  }

  lemma PlacedFor(code: seq<Quad>, lo: nat, hi: nat, s: Stmt, addr: nat, end: nat, ret: Type, fin: nat) returns (l: Places)
    requires s.For? && Placed(code, lo, hi, s, addr, end, ret, fin)
    ensures MaybeAt(code, addr, l.test, s.init) && l.done == end
    ensures LoopPlaced(code, lo, hi, l, s.test, s.post, s.body, ret, fin)
  {
    var init, test, post, body;
    l, init, test, post, body := UnfoldFor(code, lo, hi, s, addr, end, ret, fin);
    SitsFor(code, addr, l, init, test, post, body);
    assert MaybeAt(code, addr, l.test, s.init) && MaybeAt(code, l.post, l.body - 1, s.post);
    assert TestAt(code, l.test, l.post - 1, s.test, l.done, false);
    Place(code, lo, hi, s.body, l.body, l.done - 1, ret, fin, body);
  }

  lemma SitsFor(code: seq<Quad>, addr: nat, l: Places, init: seq<Quad>, test: seq<Quad>, post: seq<Quad>, body: seq<Quad>)
    requires l.test == addr + |init| && l.post == l.test + |test| + 1 && l.body == l.post + |post| + 1 && l.done == l.body + |body| + 1
    requires Sits(code, addr, init + (test + ([QJmp(l.body)] + (post + ([QJmp(l.test)] + (body + [QJmp(l.post)]))))))
    ensures Sits(code, addr, init) && Sits(code, l.test, test) && Sits(code, l.post - 1, [QJmp(l.body)])
    ensures Sits(code, l.post, post) && Sits(code, l.body - 1, [QJmp(l.test)])
    ensures Sits(code, l.body, body) && Sits(code, l.done - 1, [QJmp(l.post)])
  {
    SitsFour(code, addr, init, test, [QJmp(l.body)], post + ([QJmp(l.test)] + (body + [QJmp(l.post)])));
    SitsFour(code, l.post, post, [QJmp(l.test)], body, [QJmp(l.post)]);
  }

  lemma UnfoldFor(code: seq<Quad>, lo: nat, hi: nat, s: Stmt, addr: nat, end: nat, ret: Type, fin: nat)
    returns (l: Places, init: seq<Quad>, test: seq<Quad>, post: seq<Quad>, body: seq<Quad>)
    requires s.For? && Placed(code, lo, hi, s, addr, end, ret, fin)
    ensures init == MaybeA(s.init) && test == Test(s.test, l.done, false) && |test| == TestLen(s.test) && post == MaybeA(s.post)
    ensures l.test == addr + |init| && l.post == l.test + |test| + 1 && l.body == l.post + |post| + 1 && l.done == end
    ensures l.done > 0 && IsCode(s.body, l.body, l.done - 1, ret, fin, body)
    ensures Sits(code, addr, init + (test + ([QJmp(l.body)] + (post + ([QJmp(l.test)] + (body + [QJmp(l.post)]))))))
  {
    assert ShowOf(Piece, s, 0);
    l := Labels(s.init, s.test, s.post, s.body, addr, ret);
    init, test, post := MaybeA(s.init), Test(s.test, l.done, false), MaybeA(s.post);
    var e;
    e, body := Emit(s.body, l.body, ret, fin);
  }

  lemma PlacedReturn(code: seq<Quad>, lo: nat, hi: nat, s: Stmt, addr: nat, end: nat, ret: Type, fin: nat)
    requires s.Return? && Placed(code, lo, hi, s, addr, end, ret, fin)
    ensures end > 0 && Sits(code, end - 1, [QJmp(fin)])
    ensures if s.value.None? then addr + 1 == end else DeliverAt(code, addr, end - 1, s.value.value, ret)
  {
    assert ShowOf(Piece, s, 0);
    if s.value.Some? { SitsSplit(code, addr, Deliver(s.value.value, ret), [QJmp(fin)]); }
  }

  // ---------------------------------------------------------------- how statements end, rule by rule

  /** The statement ends with o. */
  ghost predicate Ends(s: Stmt, frame: Frame, ret: Type, fuel: nat, o: Outcome) {
    forall u: nat {:trigger ShowOf(Ending, s, u)} :: ShowOf(Ending, s, u) ==> Same(Exec(s, frame, ret, fuel), o)
  }

  lemma EndsThen(s: Stmt, frame: Frame, ret: Type, fuel: nat, o1: Outcome, o: Outcome)
    requires s.Then? && Ends(s.first, frame, ret, fuel, o1)
    requires if o1.Normal? then Ends(s.second, o1.frame, ret, fuel, o) else o == o1
    ensures Ends(s, frame, ret, fuel, o)
  {
    assert ShowOf(Ending, s.first, 0);
    assert o1.Normal? ==> ShowOf(Ending, s.second, 0);
  }

  lemma EndsIf(s: Stmt, frame: Frame, ret: Type, fuel: nat, r: Option<(Frame, int)>, o: Outcome)
    requires (s.If? || s.IfElse?) && Acts(s.test, frame, r)
    requires if r.None? then o == Fault
             else if r.value.1 != 0 then Ends(s.yes, r.value.0, ret, fuel, o)
             else if s.If? then o == Normal(r.value.0)
             else Ends(s.no, r.value.0, ret, fuel, o)
    ensures Ends(s, frame, ret, fuel, o)
  {
    assert ShowOf(Ending, s.yes, 0);
    assert s.IfElse? ==> ShowOf(Ending, s.no, 0);
    assert Show(Acting, 0);
  }

  lemma EndsWhile(s: Stmt, frame: Frame, ret: Type, fuel: nat, r: Option<(Frame, int)>, o1: Outcome, o: Outcome)
    requires s.While? && Acts(s.test, frame, r)
    requires if r.None? then o == Fault
             else if r.value.1 == 0 then o == Normal(r.value.0)
             else
               && Ends(s.body, r.value.0, ret, fuel, o1)
               && if o1.Normal? then fuel > 0 && Ends(s, o1.frame, ret, fuel - 1, o) else o == o1
    ensures Ends(s, frame, ret, fuel, o)
  {
    assert ShowOf(Ending, s.body, 0); assert Show(Acting, 0);
  }

  lemma EndsDoWhile(s: Stmt, frame: Frame, ret: Type, fuel: nat, o1: Outcome, r: Option<(Frame, int)>, o: Outcome)
    requires s.DoWhile? && Ends(s.body, frame, ret, fuel, o1)
    requires if !o1.Normal? then o == o1
             else
               && Acts(s.test, o1.frame, r)
               && if r.None? then o == Fault
                  else if r.value.1 == 0 then o == Normal(r.value.0)
                  else fuel > 0 && Ends(s, r.value.0, ret, fuel - 1, o)
    ensures Ends(s, frame, ret, fuel, o)
  {
    assert ShowOf(Ending, s.body, 0); assert Show(Acting, 0);
  }

  ghost predicate LoopEnds(test: Action, post: Option<Action>, body: Stmt, frame: Frame, ret: Type, fuel: nat, o: Outcome) {
    forall u: nat {:trigger Show(LoopEnding, u)} :: Show(LoopEnding, u) ==> Same(Loop(test, post, body, frame, ret, fuel), o)
  }

  lemma EndsFor(s: Stmt, frame: Frame, ret: Type, fuel: nat, o1: Outcome, o: Outcome)
    requires s.For? && MayEnd(s.init, frame, o1)
    requires if o1.Normal? then LoopEnds(s.test, s.post, s.body, o1.frame, ret, fuel, o) else o == o1
    ensures Ends(s, frame, ret, fuel, o)
  {
    assert Show(MayActing, 0); assert Show(LoopEnding, 0);
  }

  lemma EndsLoop(test: Action, post: Option<Action>, body: Stmt, frame: Frame, ret: Type, fuel: nat,
                 r: Option<(Frame, int)>, o1: Outcome, o2: Outcome, o: Outcome)
    requires Acts(test, frame, r)
    requires if r.None? then o == Fault
             else if r.value.1 == 0 then o == Normal(r.value.0)
             else
               && Ends(body, r.value.0, ret, fuel, o1)
               && if !o1.Normal? then o == o1
                  else
                    && MayEnd(post, o1.frame, o2)
                    && if !o2.Normal? then o == o2
                       else fuel > 0 && LoopEnds(test, post, body, o2.frame, ret, fuel - 1, o)
    ensures LoopEnds(test, post, body, frame, ret, fuel, o)
  {
    assert ShowOf(Ending, body, 0); assert Show(Acting, 0); assert Show(MayActing, 0); assert Show(LoopEnding, 0);
  }

  lemma EndsMore(s: Stmt, frame: Frame, ret: Type, fuel: nat, more: nat, o: Outcome)
    requires Ends(s, frame, ret, fuel, o) && !o.OutOfFuel? && fuel <= more
    ensures Ends(s, frame, ret, more, o)
  {
    assert ShowOf(Ending, s, 0);
    MoreFuel(s, frame, ret, fuel, more);
  }

  // ---------------------------------------------------------------- a run that ends

  lemma RunsFail(code: seq<Quad>, lo: nat, hi: nat, pc: nat, m: Mem, n: nat, r: Result, len: nat, ok: bool, pc2: nat, m2: Mem)
    requires Leads(code, lo, hi, pc, m, len, ok, pc2, m2) && Runs(code, lo, hi, pc, m, n, r) && !r.Out? && !ok
    ensures r.Crash?
  {
    assert ShowAt(Run, pc, 0);
    LeadsAt(code, lo, hi, pc, m, len, ok, pc2, m2, n);
  }

  lemma RunsGo(code: seq<Quad>, lo: nat, hi: nat, pc: nat, m: Mem, n: nat, r: Result, len: nat, ok: bool, pc2: nat, m2: Mem, to: nat)
    returns (left: nat)
    requires Leads(code, lo, hi, pc, m, len, ok, pc2, m2) && Runs(code, lo, hi, pc, m, n, r) && !r.Out? && ok && to == pc2
    ensures left + len == n && Runs(code, lo, hi, to, m2, left, r)
  {
    assert ShowAt(Run, pc, 0);
    LeadsAt(code, lo, hi, pc, m, len, ok, pc2, m2, n);
    left := n - len;
  }

  lemma RunsJump(code: seq<Quad>, lo: nat, hi: nat, pc: nat, target: nat, m: Mem, n: nat, r: Result) returns (left: nat)
    requires Sits(code, pc, [QJmp(target)]) && lo <= pc < hi && Runs(code, lo, hi, pc, m, n, r) && !r.Out?
    ensures left + 1 == n && Runs(code, lo, hi, target, m, left, r)
  {
    RunJump(code, lo, hi, pc, QJmp(target), m);
    left := RunsGo(code, lo, hi, pc, m, n, r, 1, true, target, m, target);
  }

  lemma RunsEnd(code: seq<Quad>, lo: nat, hi: nat, pc: nat, m: Mem, n: nat, r: Result)
    requires Runs(code, lo, hi, pc, m, n, r) && pc >= hi
    ensures r == Exit(pc, m, n)
  {
    assert ShowAt(Run, pc, 0);
  }

  /** A run of the whole runs through a part. */
  lemma RunsPart(code: seq<Quad>, lo: nat, hi: nat, lo2: nat, hi2: nat, pc: nat, m: Mem, n: nat, r: Result) returns (p: Result)
    requires lo <= lo2 && hi2 <= hi && Runs(code, lo, hi, pc, m, n, r) && !r.Out?
    ensures Runs(code, lo2, hi2, pc, m, n, p) && !p.Out?
    ensures if p.Exit? then p.left <= n && Runs(code, lo, hi, p.pc, p.mem, p.left, r) else p == r
  {
    assert ShowAt(Run, pc, 0);
    Nest(code, lo, hi, lo2, hi2, pc, m, n);
    p := RunIn(code, lo2, hi2, pc, m, n);
  }

  /** A part of a statement, when the run of the whole has ended with r. */
  lemma {:induction false} Sub(code: seq<Quad>, lo: nat, hi: nat, s: Stmt, addr: nat, end: nat, ret: Type, fin: nat,
                               m: Mem, n: nat, r: Result, fuel: nat) returns (p: Result, o: Outcome)
    requires Placed(code, lo, hi, s, addr, end, ret, fin) && Runs(code, lo, hi, addr, m, n, r) && !r.Out? && n <= fuel
    ensures Ends(s, m.frame, ret, fuel, o) && Matches(p, o, m.stack, end, fin, ret)
    ensures if o.Normal? then Runs(code, lo, hi, end, p.mem, p.left, r) && p.left <= n else p == r
    decreases n, s, 2
  {
    p := RunsPart(code, lo, hi, addr, end, addr, m, n, r);
    o := Follows(code, s, addr, end, ret, fin, m, n, p);
    EndsMore(s, m.frame, ret, n, fuel, o);
    if o.Returned? { RunsEnd(code, lo, hi, fin, p.mem, p.left, r); }
  }

  /** A part of a statement that ends where the whole does. */
  lemma {:induction false} Last(code: seq<Quad>, lo: nat, hi: nat, s: Stmt, addr: nat, ret: Type, fin: nat,
                                m: Mem, n: nat, r: Result, fuel: nat) returns (o: Outcome)
    requires Placed(code, lo, hi, s, addr, hi, ret, fin) && Runs(code, lo, hi, addr, m, n, r) && !r.Out? && n <= fuel
    ensures Ends(s, m.frame, ret, fuel, o) && Matches(r, o, m.stack, hi, fin, ret)
    decreases n, s, 3
  {
    var p;
    p, o := Sub(code, lo, hi, s, addr, hi, ret, fin, m, n, r, fuel);
    if o.Normal? { RunsEnd(code, lo, hi, hi, p.mem, p.left, r); }
  }

  /** A run of a statement's quads that ends within n steps ends as the statement does. */
  lemma {:induction false} Follows(code: seq<Quad>, s: Stmt, addr: nat, end: nat, ret: Type, fin: nat, m: Mem, n: nat, r: Result)
    returns (o: Outcome)
    requires Placed(code, addr, end, s, addr, end, ret, fin) && Runs(code, addr, end, addr, m, n, r) && !r.Out?
    ensures Ends(s, m.frame, ret, n, o) && Matches(r, o, m.stack, end, fin, ret)
    decreases n, s, 1
  {
    match s
    case Skip =>
      assert addr == end by { assert ShowOf(Piece, s, 0); }
      RunsEnd(code, addr, end, end, m, n, r);
      o := Normal(m.frame);
    case Then(a, b) => o := FollowsThen(code, s, addr, end, ret, fin, m, n, r);
    case Perform(a) => o := FollowsPerform(code, s, addr, end, ret, fin, m, n, r);
    case If(test, yes) => o := FollowsIf(code, s, addr, end, ret, fin, m, n, r);
    case IfElse(test, yes, no) => o := FollowsIfElse(code, s, addr, end, ret, fin, m, n, r);
    case While(test, body) => o := FollowsWhile(code, s, addr, end, ret, fin, m, n, r);
    case DoWhile(body, test) => o := FollowsDoWhile(code, s, addr, end, ret, fin, m, n, r);
    case For(init, test, post, body) => o := FollowsFor(code, s, addr, end, ret, fin, m, n, r);
    case Return(value) => o := FollowsReturn(code, s, addr, end, ret, fin, m, n, r);
  }

  lemma FollowsPerform(code: seq<Quad>, s: Stmt, addr: nat, end: nat, ret: Type, fin: nat, m: Mem, n: nat, r: Result)
    returns (o: Outcome)
    requires s.Perform? && Placed(code, addr, end, s, addr, end, ret, fin) && Runs(code, addr, end, addr, m, n, r) && !r.Out?
    ensures Ends(s, m.frame, ret, n, o) && Matches(r, o, m.stack, end, fin, ret)
  {
    var len := end - addr;
    assert addr + |CodeA(s.action).quads| == end && Sits(code, addr, CodeA(s.action).quads) by { assert ShowOf(Piece, s, 0); }
    var m2, a := RunAction(code, addr, end, addr, s.action, m);
    o := Done(a);
    assert Ends(s, m.frame, ret, n, o) by { assert Show(Acting, 0); assert ShowOf(Ending, s, 0); }
    if a.None? {
      RunsFail(code, addr, end, addr, m, n, r, len, a.Some?, end, m2);
    } else {
      var left := RunsGo(code, addr, end, addr, m, n, r, len, a.Some?, end, m2, end);
      RunsEnd(code, addr, end, end, m2, left, r);
    }
  }

  lemma {:induction false} FollowsThen(code: seq<Quad>, s: Stmt, addr: nat, end: nat, ret: Type, fin: nat, m: Mem, n: nat, r: Result)
    returns (o: Outcome)
    requires s.Then? && Placed(code, addr, end, s, addr, end, ret, fin) && Runs(code, addr, end, addr, m, n, r) && !r.Out?
    ensures Ends(s, m.frame, ret, n, o) && Matches(r, o, m.stack, end, fin, ret)
    decreases n, s, 0
  {
    var at := PlacedThen(code, addr, end, s, addr, end, ret, fin);
    var p, o1 := Sub(code, addr, end, s.first, addr, at, ret, fin, m, n, r, n);
    o := o1;
    if o1.Normal? { o := Last(code, addr, end, s.second, at, ret, fin, p.mem, p.left, r, n); }
    EndsThen(s, m.frame, ret, n, o1, o);
  }

  lemma {:induction false} FollowsIf(code: seq<Quad>, s: Stmt, addr: nat, end: nat, ret: Type, fin: nat, m: Mem, n: nat, r: Result)
    returns (o: Outcome)
    requires s.If? && Placed(code, addr, end, s, addr, end, ret, fin) && Runs(code, addr, end, addr, m, n, r) && !r.Out?
    ensures Ends(s, m.frame, ret, n, o) && Matches(r, o, m.stack, end, fin, ret)
    decreases n, s, 0
  {
    var at := PlacedIf(code, addr, end, s, addr, end, ret, fin);
    var m2, t, pc := RunTest(code, addr, end, addr, at, s.test, end, false, m);
    if t.None? {
      RunsFail(code, addr, end, addr, m, n, r, at - addr, t.Some?, pc, m2);
      o := Fault;
      EndsIf(s, m.frame, ret, n, t, o);
      return;
    }
    if t.value.1 != 0 {
      var left := RunsGo(code, addr, end, addr, m, n, r, at - addr, t.Some?, pc, m2, at);
      o := Last(code, addr, end, s.yes, at, ret, fin, m2, left, r, n);
    } else {
      var left := RunsGo(code, addr, end, addr, m, n, r, at - addr, t.Some?, pc, m2, end);
      RunsEnd(code, addr, end, end, m2, left, r);
      o := Normal(m2.frame);
    }
    EndsIf(s, m.frame, ret, n, t, o);
  }

  lemma {:induction false} FollowsIfElse(code: seq<Quad>, s: Stmt, addr: nat, end: nat, ret: Type, fin: nat, m: Mem, n: nat, r: Result)
    returns (o: Outcome)
    requires s.IfElse? && Placed(code, addr, end, s, addr, end, ret, fin) && Runs(code, addr, end, addr, m, n, r) && !r.Out?
    ensures Ends(s, m.frame, ret, n, o) && Matches(r, o, m.stack, end, fin, ret)
    decreases n, s, 0
  {
    var at, other := PlacedIfElse(code, addr, end, s, addr, end, ret, fin);
    var m2, t, pc := RunTest(code, addr, end, addr, at, s.test, other, false, m);
    if t.None? {
      RunsFail(code, addr, end, addr, m, n, r, at - addr, t.Some?, pc, m2);
      o := Fault;
      EndsIf(s, m.frame, ret, n, t, o);
      return;
    }
    if t.value.1 != 0 {
      var left := RunsGo(code, addr, end, addr, m, n, r, at - addr, t.Some?, pc, m2, at);
      var p;
      p, o := Sub(code, addr, end, s.yes, at, other - 1, ret, fin, m2, left, r, n);
      if o.Normal? {
        left := RunsJump(code, addr, end, other - 1, end, p.mem, p.left, r);
        RunsEnd(code, addr, end, end, p.mem, left, r);
      }
    } else {
      var left := RunsGo(code, addr, end, addr, m, n, r, at - addr, t.Some?, pc, m2, other);
      o := Last(code, addr, end, s.no, other, ret, fin, m2, left, r, n);
    }
    EndsIf(s, m.frame, ret, n, t, o);
  }

  lemma {:induction false} FollowsWhile(code: seq<Quad>, s: Stmt, addr: nat, end: nat, ret: Type, fin: nat, m: Mem, n: nat, r: Result)
    returns (o: Outcome)
    requires s.While? && Placed(code, addr, end, s, addr, end, ret, fin) && Runs(code, addr, end, addr, m, n, r) && !r.Out?
    ensures Ends(s, m.frame, ret, n, o) && Matches(r, o, m.stack, end, fin, ret)
    decreases n, s, 0
  {
    var at := PlacedWhile(code, addr, end, s, addr, end, ret, fin);
    var m2, t, pc := RunTest(code, addr, end, addr, at, s.test, end, false, m);
    if t.None? {
      RunsFail(code, addr, end, addr, m, n, r, at - addr, t.Some?, pc, m2);
      o := Fault;
      EndsWhile(s, m.frame, ret, n, t, Fault, o);
      return;
    }
    if t.value.1 == 0 {
      var left := RunsGo(code, addr, end, addr, m, n, r, at - addr, t.Some?, pc, m2, end);
      RunsEnd(code, addr, end, end, m2, left, r);
      o := Normal(m2.frame);
      EndsWhile(s, m.frame, ret, n, t, o, o);
    } else {
      var left := RunsGo(code, addr, end, addr, m, n, r, at - addr, t.Some?, pc, m2, at);
      var p, o1 := Sub(code, addr, end, s.body, at, end - 1, ret, fin, m2, left, r, n);
      o := o1;
      if o1.Normal? {
        left := RunsJump(code, addr, end, end - 1, addr, p.mem, p.left, r);
        o := Last(code, addr, end, s, addr, ret, fin, p.mem, left, r, n - 1);
      }
      EndsWhile(s, m.frame, ret, n, t, o1, o);
    }
  }

  lemma {:induction false} FollowsDoWhile(code: seq<Quad>, s: Stmt, addr: nat, end: nat, ret: Type, fin: nat, m: Mem, n: nat, r: Result)
    returns (o: Outcome)
    requires s.DoWhile? && Placed(code, addr, end, s, addr, end, ret, fin) && Runs(code, addr, end, addr, m, n, r) && !r.Out?
    ensures Ends(s, m.frame, ret, n, o) && Matches(r, o, m.stack, end, fin, ret)
    decreases n, s, 0
  {
    var at := PlacedDoWhile(code, addr, end, s, addr, end, ret, fin);
    var p, o1 := Sub(code, addr, end, s.body, addr, at, ret, fin, m, n, r, n);
    o := o1;
    var t := None;
    if o1.Normal? {
      var m2, pc;
      m2, t, pc := RunTest(code, addr, end, at, end, s.test, addr, true, p.mem);
      if t.None? {
        RunsFail(code, addr, end, at, p.mem, p.left, r, end - at, t.Some?, pc, m2);
        o := Fault;
      } else {
        if t.value.1 != 0 {
          var left := RunsGo(code, addr, end, at, p.mem, p.left, r, end - at, t.Some?, pc, m2, addr);
          o := Last(code, addr, end, s, addr, ret, fin, m2, left, r, n - 1);
        } else {
          var left := RunsGo(code, addr, end, at, p.mem, p.left, r, end - at, t.Some?, pc, m2, end);
          RunsEnd(code, addr, end, end, m2, left, r);
          o := Normal(m2.frame);
        }
      }
    }
    EndsDoWhile(s, m.frame, ret, n, o1, t, o);
  }

  lemma {:induction false} FollowsFor(code: seq<Quad>, s: Stmt, addr: nat, end: nat, ret: Type, fin: nat, m: Mem, n: nat, r: Result)
    returns (o: Outcome)
    requires s.For? && Placed(code, addr, end, s, addr, end, ret, fin) && Runs(code, addr, end, addr, m, n, r) && !r.Out?
    ensures Ends(s, m.frame, ret, n, o) && Matches(r, o, m.stack, end, fin, ret)
    decreases n, s, 0
  {
    var l := PlacedFor(code, addr, end, s, addr, end, ret, fin);
    var m2, o1 := RunMaybe(code, addr, end, addr, l.test, s.init, m);
    if o1.Normal? {
      var left := RunsGo(code, addr, end, addr, m, n, r, l.test - addr, o1.Normal?, l.test, m2, l.test);
      o := FollowsLoop(code, addr, end, l, s.test, s.post, s.body, ret, fin, m2, left, r, n);
    } else {
      RunsFail(code, addr, end, addr, m, n, r, l.test - addr, o1.Normal?, l.test, m2);
      o := Fault;
    }
    EndsFor(s, m.frame, ret, n, o1, o);
  }

  lemma {:induction false} FollowsLoop(code: seq<Quad>, lo: nat, hi: nat, l: Places, test: Action, post: Option<Action>, body: Stmt,
                                       ret: Type, fin: nat, m: Mem, n: nat, r: Result, fuel: nat) returns (o: Outcome)
    requires LoopPlaced(code, lo, hi, l, test, post, body, ret, fin) && hi == l.done
    requires Runs(code, lo, hi, l.test, m, n, r) && !r.Out? && n <= fuel
    ensures LoopEnds(test, post, body, m.frame, ret, fuel, o) && Matches(r, o, m.stack, hi, fin, ret)
    decreases n, body, 5
  {
    var len := l.post - 1 - l.test;
    var m2, t, pc := RunTest(code, lo, hi, l.test, l.post - 1, test, l.done, false, m);
    if t.None? {
      RunsFail(code, lo, hi, l.test, m, n, r, len, t.Some?, pc, m2);
      o := Fault;
      EndsLoop(test, post, body, m.frame, ret, fuel, t, o, o, o);
      return;
    }
    if t.value.1 == 0 {
      var left := RunsGo(code, lo, hi, l.test, m, n, r, len, t.Some?, pc, m2, l.done);
      RunsEnd(code, lo, hi, l.done, m2, left, r);
      o := Normal(m2.frame);
      EndsLoop(test, post, body, m.frame, ret, fuel, t, o, o, o);
    } else {
      var left := RunsGo(code, lo, hi, l.test, m, n, r, len, t.Some?, pc, m2, l.post - 1);
      var o1, o2;
      o1, o2, o := FollowsTurn(code, lo, hi, l, test, post, body, ret, fin, m2, left, r, fuel);
      EndsLoop(test, post, body, m.frame, ret, fuel, t, o1, o2, o);
    }
  }

  /** A turn of a for loop, from the jump to its body. */
  lemma {:induction false} FollowsTurn(code: seq<Quad>, lo: nat, hi: nat, l: Places, test: Action, post: Option<Action>, body: Stmt,
                                       ret: Type, fin: nat, m: Mem, n: nat, r: Result, fuel: nat)
    returns (o1: Outcome, o2: Outcome, o: Outcome)
    requires LoopPlaced(code, lo, hi, l, test, post, body, ret, fin) && hi == l.done
    requires Runs(code, lo, hi, l.post - 1, m, n, r) && !r.Out? && n <= fuel
    ensures Ends(body, m.frame, ret, fuel, o1) && Matches(r, o, m.stack, hi, fin, ret)
    ensures if !o1.Normal? then o == o1
            else
              && MayEnd(post, o1.frame, o2)
              && if o2.Normal? then fuel > 0 && LoopEnds(test, post, body, o2.frame, ret, fuel - 1, o) else o == o2
    decreases n, body, 4
  {
    var left := RunsJump(code, lo, hi, l.post - 1, l.body, m, n, r);
    var p;
    p, o1 := Sub(code, lo, hi, body, l.body, l.done - 1, ret, fin, m, left, r, fuel);
    o2, o := o1, o1;
    if o1.Normal? {
      o2, o := FollowsPost(code, lo, hi, l, test, post, body, ret, fin, p.mem, p.left, r, fuel);
    }
  }

  /** The rest of a turn of a for loop: the post action, and the test again. */
  lemma {:induction false} FollowsPost(code: seq<Quad>, lo: nat, hi: nat, l: Places, test: Action, post: Option<Action>, body: Stmt,
                                       ret: Type, fin: nat, m: Mem, n: nat, r: Result, fuel: nat) returns (o2: Outcome, o: Outcome)
    requires LoopPlaced(code, lo, hi, l, test, post, body, ret, fin) && hi == l.done
    requires Runs(code, lo, hi, l.done - 1, m, n, r) && !r.Out? && n <= fuel
    ensures MayEnd(post, m.frame, o2) && Matches(r, o, m.stack, hi, fin, ret)
    ensures if o2.Normal? then fuel > 0 && LoopEnds(test, post, body, o2.frame, ret, fuel - 1, o) else o == o2
    decreases n, body, 3
  {
    var left := RunsJump(code, lo, hi, l.done - 1, l.post, m, n, r);
    var len := l.body - 1 - l.post;
    var m2;
    m2, o2 := RunMaybe(code, lo, hi, l.post, l.body - 1, post, m);
    if !o2.Normal? {
      RunsFail(code, lo, hi, l.post, m, left, r, len, o2.Normal?, l.body - 1, m2);
      o := Fault;
    } else {
      left := RunsGo(code, lo, hi, l.post, m, left, r, len, o2.Normal?, l.body - 1, m2, l.body - 1);
      left := RunsJump(code, lo, hi, l.body - 1, l.test, m2, left, r);
      o := FollowsLoop(code, lo, hi, l, test, post, body, ret, fin, m2, left, r, fuel - 1);
    }
  }

  lemma FollowsReturn(code: seq<Quad>, s: Stmt, addr: nat, end: nat, ret: Type, fin: nat, m: Mem, n: nat, r: Result)
    returns (o: Outcome)
    requires s.Return? && Placed(code, addr, end, s, addr, end, ret, fin) && Runs(code, addr, end, addr, m, n, r) && !r.Out?
    ensures Ends(s, m.frame, ret, n, o) && Matches(r, o, m.stack, end, fin, ret)
  {
    PlacedReturn(code, addr, end, s, addr, end, ret, fin);
    var m2, left := m, n;
    o := Returned(m.frame, None);
    if s.value.Some? {
      var a;
      m2, a := RunDeliver(code, addr, end, addr, end - 1, s.value.value, ret, m);
      o := if a.None? then Fault else Returned(a.value.0, Some(Wrap(ret, a.value.1)));
      if a.None? {
        RunsFail(code, addr, end, addr, m, n, r, end - 1 - addr, a.Some?, end - 1, m2);
      } else {
        left := RunsGo(code, addr, end, addr, m, n, r, end - 1 - addr, a.Some?, end - 1, m2, end - 1);
      }
    }
    assert Ends(s, m.frame, ret, n, o) by { assert Show(Acting, 0); assert ShowOf(Ending, s, 0); }
    if !o.Fault? {
      left := RunsJump(code, addr, end, end - 1, fin, m2, left, r);
      RunsEnd(code, addr, end, fin, m2, left, r);
    }
  }
}
