/** Which registers and which variables emitted code touches.  The compiler allots
    registers without a limit, and the machine has MAX_REGS of each form. */
module MexRegs {
  import opened Wrappers
  import opened MexTypes
  import opened MexVm
  import opened MexSource
  import opened MexCode
  import opened MexFlow
  import opened MexPatch
  import opened MexTemps
  import opened MexGen

  // ---------------------------------------------------------------- tidy code

  /** The bytes of an activation record that a function may touch: its locals, below the
      base, and its arguments, above the control data. */
  datatype Area = Anywhere | Area(locals: nat, args: nat)

  predicate Within(b: Area, f: Form, ofs: int) {
    b.Anywhere? || (0 <= b.locals + ofs && ofs + Size(f) <= 0)
    || (AR_CONTROL_DATA <= ofs && ofs + Size(f) <= AR_CONTROL_DATA + b.args)
  }

  predicate TidyPlace(b: Area, f: Form, p: Place) {
    Real(f, p) && (p.Ar? ==> Within(b, f, p.ofs))
  }

  predicate TidyArg(b: Area, f: Form, a: Operand) {
    a.At? ==> TidyPlace(b, f, a.place)
  }

  /** A quad of a statement that keeps to the machine's registers and to the area. */
  predicate Tidy(b: Area, q: Quad) {
    match q
    case QBin(op, f, _, arg1, arg2, dest) => TidyArg(b, f, arg1) && TidyArg(b, f, arg2) && TidyPlace(b, ResultForm(op, f), dest)
    case QConvert(from, _, to, arg1, dest) => TidyArg(b, from, arg1) && TidyPlace(b, to, dest)
    case QAssign(f, arg1, dest) => TidyArg(b, f, arg1) && TidyPlace(b, f, dest)
    case QJz(f, arg1, _) => TidyArg(b, f, arg1)
    case QJnz(f, arg1, _) => TidyArg(b, f, arg1)
    case QJmp(_) => true
    case _ => false
  }

  predicate AllTidy(b: Area, qs: seq<Quad>) {
    forall q :: q in qs ==> Tidy(b, q)
  }

  lemma TidyInFile(b: Area, qs: seq<Quad>)
    requires AllTidy(b, qs)
    ensures AllInFile(qs)
  {
  }

  predicate TidyObj(b: Area, o: Obj) {
    TidyArg(b, o.t.form, o.arg)
  }

  // ---------------------------------------------------------------- source that keeps to an area

  predicate VarsIn(b: Area, e: Expr) {
    match e
    case Const(_, _) => true
    case Var(t, ofs) => Within(b, t.form, ofs)
    case Bin(_, a, c) => VarsIn(b, a) && VarsIn(b, c)
    case Neg(a) => VarsIn(b, a)
    case Cast(_, a) => VarsIn(b, a)
  }

  predicate ActionIn(b: Area, a: Action) {
    match a
    case Pure(e) => VarsIn(b, e)
    case Assign(t, ofs, source) => Within(b, t.form, ofs) && ActionIn(b, source)
  }

  predicate MaybeIn(b: Area, a: Option<Action>) {
    a.Some? ==> ActionIn(b, a.value)
  }

  /** Every variable of the statement lies in the area. */
  predicate StmtIn(b: Area, s: Stmt) {
    match s
    case Skip => true
    case Then(a, c) => StmtIn(b, a) && StmtIn(b, c)
    case Perform(a) => ActionIn(b, a)
    case If(test, yes) => ActionIn(b, test) && StmtIn(b, yes)
    case IfElse(test, yes, no) => ActionIn(b, test) && StmtIn(b, yes) && StmtIn(b, no)
    case While(test, body) => ActionIn(b, test) && StmtIn(b, body)
    case DoWhile(body, test) => ActionIn(b, test) && StmtIn(b, body)
    case For(init, test, post, body) => MaybeIn(b, init) && ActionIn(b, test) && MaybeIn(b, post) && StmtIn(b, body)
    case Return(value) => MaybeIn(b, value)
  }

  lemma AnyVars(e: Expr)
    ensures VarsIn(Anywhere, e)
  {
  }

  lemma AnyAction(a: Action)
    ensures ActionIn(Anywhere, a)
  {
    match a
    case Pure(e) => AnyVars(e);
    case Assign(_, _, source) => AnyAction(source);
  }

  lemma AnyMaybe(a: Option<Action>)
    ensures MaybeIn(Anywhere, a)
  {
    if a.Some? { AnyAction(a.value); }
  }

  lemma AnyArea(s: Stmt)
    ensures StmtIn(Anywhere, s)
  {
    match s
    case Skip =>
    case Then(a, c) => AnyArea(a); AnyArea(c);
    case Perform(a) => AnyAction(a);
    case If(test, yes) => AnyAction(test); AnyArea(yes);
    case IfElse(test, yes, no) => AnyAction(test); AnyArea(yes); AnyArea(no);
    case While(test, body) => AnyAction(test); AnyArea(body);
    case DoWhile(body, test) => AnyArea(body); AnyAction(test);
    case For(init, test, post, body) => AnyMaybe(init); AnyAction(test); AnyMaybe(post); AnyArea(body);
    case Return(value) => AnyMaybe(value);
  }

  // ---------------------------------------------------------------- few registers are enough

  lemma FreshReal(live: set<Reg>, f: Form, b: Area)
    requires |live| + 1 < MAX_REGS
    ensures TidyPlace(b, f, TempAt(Fresh(live, f))) && TidyObj(b, InTemp(Type(f, true), Fresh(live, f)))
  {
    FreshCount(live, f);
  }

  lemma CoerceTidy(b: Area, o: Obj, t: Type, live: set<Reg>)
    requires TidyObj(b, o) && |live| + 1 < MAX_REGS
    ensures AllTidy(b, Coerce(o, t, live).quads) && TidyObj(b, Coerce(o, t, live).obj)
  {
    FreshReal(live, t.form, b);
  }

  lemma BinTidy(b: Area, op: BinOp, o1: Obj, o2: Obj, live: set<Reg>)
    requires TidyObj(b, o1) && TidyObj(b, o2) && |live| + 3 < MAX_REGS
    ensures AllTidy(b, CodeBin(op, o1, o2, live).quads) && TidyObj(b, CodeBin(op, o1, o2, live).obj)
  {
    var t := Common(o1.t, o2.t);
    var c1 := Coerce(o1, t, live);
    var c2 := Coerce(o2, t, c1.live);
    CoerceTidy(b, o1, t, live);
    CountCoerce(o1, t, live);
    CoerceTidy(b, o2, t, c1.live);
    CountCoerce(o2, t, c1.live);
    FreshReal(c2.live, ResultType(op, t).form, b);
    CoercedForm(o1, t, live);
    CoercedForm(o2, t, c1.live);
  }

  lemma CoercedForm(o: Obj, t: Type, live: set<Reg>)
    ensures Coerce(o, t, live).obj.t == t
  {
  }

  lemma NegTidy(b: Area, o: Obj, live: set<Reg>)
    requires TidyObj(b, o) && |live| + 1 < MAX_REGS
    ensures AllTidy(b, CodeNeg(o, live).quads) && TidyObj(b, CodeNeg(o, live).obj)
  {
    FreshReal(live, o.t.form, b);
  }

  /** An expression that needs fewer registers than there are keeps to them. */
  lemma {:induction false} ExprTidy(b: Area, e: Expr, live: set<Reg>)
    requires VarsIn(b, e) && |live| + Need(e) < MAX_REGS
    ensures AllTidy(b, CodeE(e, live).quads) && TidyObj(b, CodeE(e, live).obj)
    decreases e
  {
    match e
    case Const(f, v) =>
    case Var(t, ofs) =>
    case Bin(op, x, y) =>
      var p := CodeE(x, live);
      ExprTidy(b, x, live);
      ExprShape(x, live, p);
      var q := CodeE(y, p.live);
      ExprTidy(b, y, p.live);
      ExprShape(y, p.live, q);
      BinTidy(b, op, p.obj, q.obj, q.live);
    case Neg(x) =>
      var p := CodeE(x, live);
      ExprTidy(b, x, live);
      ExprShape(x, live, p);
      NegTidy(b, p.obj, p.live);
    case Cast(t, x) =>
      var p := CodeE(x, live);
      ExprTidy(b, x, live);
      ExprShape(x, live, p);
      CoerceTidy(b, p.obj, t, p.live);
  }

  lemma {:induction false} ActionTidy(b: Area, a: Action)
    requires ActionIn(b, a) && NeedA(a) < MAX_REGS
    ensures AllTidy(b, CodeA(a).quads) && TidyObj(b, CodeA(a).obj)
    ensures |CodeA(a).live| <= 1
    decreases a
  {
    ActionShape(a, CodeA(a));
    CountTemp(CodeA(a).obj);
    match a
    case Pure(e) => ExprTidy(b, e, {});
    case Assign(t, ofs, source) =>
      ActionTidy(b, source);
      AssignTidy(b, t, ofs, CodeA(source));
  }

  lemma AssignTidy(b: Area, t: Type, ofs: int, p: Part)
    requires AllTidy(b, p.quads) && TidyObj(b, p.obj) && |p.live| <= 1 && Within(b, t.form, ofs)
    ensures var c := Coerce(p.obj, t, p.live);
            && AllTidy(b, p.quads + (c.quads + [QAssign(t.form, c.obj.arg, Ar(ofs))]))
            && TidyObj(b, Obj(t, At(Ar(ofs))))
  {
    CoerceTidy(b, p.obj, t, p.live);
    CoercedForm(p.obj, t, p.live);
  }

  lemma DeliverTidy(b: Area, a: Action, ret: Type)
    requires ActionIn(b, a) && NeedA(a) < MAX_REGS
    ensures AllTidy(b, Deliver(a, ret))
  {
    var p := CodeA(a);
    ActionTidy(b, a);
    CoerceTidy(b, p.obj, ret, p.live);
    CoercedForm(p.obj, ret, p.live);
  }

  /** The code is tidy, behind Show. */
  ghost predicate Neat(b: Area, qs: seq<Quad>) {
    forall u: nat {:trigger Show(Tidying, u)} :: Show(Tidying, u) ==> AllTidy(b, qs)
  }

  lemma NeatThen(b: Area, x: seq<Quad>, y: seq<Quad>)
    requires Neat(b, x) && Neat(b, y)
    ensures Neat(b, x + y)
  {
    assert Show(Tidying, 0);
  }

  lemma NeatJump(b: Area, target: nat)
    ensures Neat(b, [QJmp(target)])
  {
  }

  lemma NeatAction(b: Area, a: Action) returns (p: Part)
    requires SuitsAction(b, a)
    ensures ActionIs(a, p) && Neat(b, p.quads) && TidyObj(b, p.obj)
  {
    assert Show(Summing, 0);
    p := CodeA(a);
    ActionTidy(b, a);
  }

  lemma NeatTest(b: Area, p: Part, target: nat, back: bool)
    requires Neat(b, p.quads) && TidyObj(b, p.obj)
    ensures Neat(b, p.quads + [TestQuad(p.obj, target, back)])
  {
    assert Show(Tidying, 0);
  }

  lemma NeatMaybe(b: Area, a: Option<Action>) returns (qs: seq<Quad>)
    requires SuitsMaybe(b, a)
    ensures MaybeIs(a, qs) && Neat(b, qs)
  {
    assert Show(Summing, 0);
    qs := MaybeA(a);
    if a.Some? { ActionTidy(b, a.value); }
  }

  lemma NeatDeliver(b: Area, a: Action, ret: Type) returns (qs: seq<Quad>)
    requires SuitsAction(b, a)
    ensures DeliverIs(a, ret, qs) && Neat(b, qs)
  {
    assert Show(Summing, 0);
    qs := Deliver(a, ret);
    DeliverTidy(b, a, ret);
  }

  /** The statement keeps to the area and to the registers, behind Show. */
  ghost predicate Suits(b: Area, s: Stmt) {
    forall u: nat {:trigger ShowOf(Summing, s, u)} :: ShowOf(Summing, s, u) ==> StmtIn(b, s) && Fits(s, MAX_REGS)
  }

  ghost predicate SuitsAction(b: Area, a: Action) {
    forall u: nat {:trigger Show(Summing, u)} :: Show(Summing, u) ==> ActionIn(b, a) && NeedA(a) < MAX_REGS
  }

  ghost predicate SuitsMaybe(b: Area, a: Option<Action>) {
    a.Some? ==> SuitsAction(b, a.value)
  }

  lemma SuitsParts(b: Area, s: Stmt)
    requires Suits(b, s)
    ensures s.Then? ==> Suits(b, s.first) && Suits(b, s.second)
    ensures s.Perform? ==> SuitsAction(b, s.action)
    ensures s.If? ==> SuitsAction(b, s.test) && Suits(b, s.yes)
    ensures s.IfElse? ==> SuitsAction(b, s.test) && Suits(b, s.yes) && Suits(b, s.no)
    ensures s.While? || s.DoWhile? || s.For? ==> SuitsAction(b, s.test) && Suits(b, s.body)
    ensures s.For? ==> SuitsMaybe(b, s.init) && SuitsMaybe(b, s.post)
    ensures s.Return? ==> SuitsMaybe(b, s.value)
  {
    assert ShowOf(Summing, s, 0);
  }

  lemma {:induction false} CodeNeat(b: Area, s: Stmt, addr: nat, ret: Type, fin: nat) returns (end: nat, c: seq<Quad>, j: seq<nat>)
    requires Suits(b, s)
    ensures Written(s, addr, end, ret, fin, c, j) && Neat(b, c)
    decreases s, 1
  {
    match s
    case Skip =>
      end, c, j := addr, [], [];
      WrittenSkip(addr, ret, fin);
    case Perform(a) =>
      SuitsParts(b, s);
      var p := NeatAction(b, a);
      end, c, j := addr + |p.quads|, p.quads, [];
      WrittenPerform(s, addr, ret, fin, p);
    case Then(x, y) =>
      SuitsParts(b, s);
      var at, cx, jx := CodeNeat(b, x, addr, ret, fin);
      var cy, jy;
      end, cy, jy := CodeNeat(b, y, at, ret, fin);
      c, j := cx + cy, jy + jx;
      WrittenThen(s, addr, at, end, ret, fin, cx, jx, cy, jy);
      NeatThen(b, cx, cy);
    case If(test, yes) => end, c, j := IfNeat(b, s, addr, ret, fin);
    case IfElse(test, yes, no) => end, c, j := IfElseNeat(b, s, addr, ret, fin);
    case While(test, body) => end, c, j := WhileNeat(b, s, addr, ret, fin);
    case DoWhile(body, test) => end, c, j := DoWhileNeat(b, s, addr, ret, fin);
    case For(init, test, post, body) => end, c, j := ForNeat(b, s, addr, ret, fin);
    case Return(value) => end, c, j := ReturnNeat(b, s, addr, ret, fin);
  }

  lemma {:induction false} IfNeat(b: Area, s: Stmt, addr: nat, ret: Type, fin: nat) returns (end: nat, c: seq<Quad>, j: seq<nat>)
    requires s.If? && Suits(b, s)
    ensures Written(s, addr, end, ret, fin, c, j) && Neat(b, c)
    decreases s, 0
  {
    SuitsParts(b, s);
    var p := NeatAction(b, s.test);
    var a;
    end, a, j := CodeNeat(b, s.yes, addr + |p.quads| + 1, ret, fin);
    var t := p.quads + [TestQuad(p.obj, end, false)];
    c := t + a;
    WrittenIf(s, addr, end, ret, fin, p, a, j);
    NeatTest(b, p, end, false);
    NeatThen(b, t, a);
  }

  lemma {:induction false} IfElseNeat(b: Area, s: Stmt, addr: nat, ret: Type, fin: nat) returns (end: nat, c: seq<Quad>, j: seq<nat>)
    requires s.IfElse? && Suits(b, s)
    ensures Written(s, addr, end, ret, fin, c, j) && Neat(b, c)
    decreases s, 0
  {
    SuitsParts(b, s);
    var p := NeatAction(b, s.test);
    var mid, x, jx := CodeNeat(b, s.yes, addr + |p.quads| + 1, ret, fin);
    var y, jy;
    end, y, jy := CodeNeat(b, s.no, mid + 1, ret, fin);
    var t := p.quads + [TestQuad(p.obj, mid + 1, false)];
    c, j := t + (x + ([QJmp(end)] + y)), jy + jx;
    WrittenIfElse(s, addr, mid, end, ret, fin, p, x, jx, y, jy);
    NeatTest(b, p, mid + 1, false);
    NeatFour(b, t, x, end, y);
  }

  lemma NeatFour(b: Area, t: seq<Quad>, x: seq<Quad>, target: nat, y: seq<Quad>)
    requires Neat(b, t) && Neat(b, x) && Neat(b, y)
    ensures Neat(b, t + (x + ([QJmp(target)] + y)))
  {
    NeatJump(b, target);
    NeatThen(b, [QJmp(target)], y);
    NeatThen(b, x, [QJmp(target)] + y);
    NeatThen(b, t, x + ([QJmp(target)] + y));
  }

  lemma NeatThree(b: Area, t: seq<Quad>, x: seq<Quad>, target: nat)
    requires Neat(b, t) && Neat(b, x)
    ensures Neat(b, t + (x + [QJmp(target)]))
  {
    NeatJump(b, target);
    NeatThen(b, x, [QJmp(target)]);
    NeatThen(b, t, x + [QJmp(target)]);
  }

  lemma {:induction false} WhileNeat(b: Area, s: Stmt, addr: nat, ret: Type, fin: nat) returns (end: nat, c: seq<Quad>, j: seq<nat>)
    requires s.While? && Suits(b, s)
    ensures Written(s, addr, end, ret, fin, c, j) && Neat(b, c)
    decreases s, 0
  {
    SuitsParts(b, s);
    var p := NeatAction(b, s.test);
    var mid, a;
    mid, a, j := CodeNeat(b, s.body, addr + |p.quads| + 1, ret, fin);
    end := mid + 1;
    var t := p.quads + [TestQuad(p.obj, end, false)];
    c := t + (a + [QJmp(addr)]);
    WrittenWhile(s, addr, mid, ret, fin, p, a, j);
    NeatTest(b, p, end, false);
    NeatThree(b, t, a, addr);
  }

  lemma {:induction false} DoWhileNeat(b: Area, s: Stmt, addr: nat, ret: Type, fin: nat) returns (end: nat, c: seq<Quad>, j: seq<nat>)
    requires s.DoWhile? && Suits(b, s)
    ensures Written(s, addr, end, ret, fin, c, j) && Neat(b, c)
    decreases s, 0
  {
    SuitsParts(b, s);
    var p := NeatAction(b, s.test);
    var mid, a;
    mid, a, j := CodeNeat(b, s.body, addr, ret, fin);
    end := mid + |p.quads| + 1;
    var t := p.quads + [TestQuad(p.obj, addr, true)];
    c := a + t;
    WrittenDoWhile(s, addr, mid, ret, fin, p, a, j);
    NeatTest(b, p, addr, true);
    NeatThen(b, a, t);
  }

  lemma {:induction false} ForNeat(b: Area, s: Stmt, addr: nat, ret: Type, fin: nat) returns (end: nat, c: seq<Quad>, j: seq<nat>)
    requires s.For? && Suits(b, s)
    ensures Written(s, addr, end, ret, fin, c, j) && Neat(b, c)
    decreases s, 0
  {
    SuitsParts(b, s);
    var init := NeatMaybe(b, s.init);
    var post := NeatMaybe(b, s.post);
    var p := NeatAction(b, s.test);
    var test := addr + |init|;
    var postAt := test + |p.quads| + 2;
    var body := postAt + |post| + 1;
    var mid, a;
    mid, a, j := CodeNeat(b, s.body, body, ret, fin);
    end := mid + 1;
    var l := Places(test, postAt, body, end);
    var t, q1, q2, q3 := p.quads + [TestQuad(p.obj, end, false)], [QJmp(l.body)], [QJmp(l.test)], [QJmp(l.post)];
    c := init + (t + (q1 + (post + (q2 + (a + q3)))));
    WrittenFor(s, addr, l, ret, fin, init, p, post, a, j);
    NeatTest(b, p, end, false);
    NeatJump(b, l.post);
    NeatJump(b, l.test);
    NeatJump(b, l.body);
    NeatThen(b, a, q3);
    NeatThen(b, q2, a + q3);
    NeatThen(b, post, q2 + (a + q3));
    NeatThen(b, q1, post + (q2 + (a + q3)));
    NeatThen(b, t, q1 + (post + (q2 + (a + q3))));
    NeatThen(b, init, t + (q1 + (post + (q2 + (a + q3)))));
  }

  lemma ReturnNeat(b: Area, s: Stmt, addr: nat, ret: Type, fin: nat) returns (end: nat, c: seq<Quad>, j: seq<nat>)
    requires s.Return? && Suits(b, s)
    ensures Written(s, addr, end, ret, fin, c, j) && Neat(b, c)
  {
    SuitsParts(b, s);
    var qs := [];
    if s.value.Some? { qs := NeatDeliver(b, s.value.value, ret); }
    end, c, j := addr + |qs| + 1, qs + [QJmp(fin)], [addr + |qs|];
    WrittenReturn(s, addr, ret, fin, qs);
    NeatJump(b, fin);
    NeatThen(b, qs, [QJmp(fin)]);
  }

  /** So do the quads of a statement whose expressions each need fewer, and they touch no
      variables but the statement's own. */
  lemma CodeTidy(b: Area, s: Stmt, addr: nat, ret: Type, fin: nat)
    requires StmtIn(b, s) && Fits(s, 100)
    ensures AllTidy(b, Code(s, addr, ret, fin))
  {
    var end, c, j := CodeNeat(b, s, addr, ret, fin);
    assert c == Code(s, addr, ret, fin) by { assert ShowOf(Writing, s, 0); }
    assert AllTidy(b, c) by { assert Show(Tidying, 0); }
  }

  // ---------------------------------------------------------------- too many registers

  /** Code without jumps that names a register the machine does not have goes astray,
      unless it stops with an error before. */
  lemma {:induction false} StraightWild(code: seq<Quad>, lo: nat, hi: nat, pc: nat, qs: seq<Quad>, m: Mem, n: nat)
    requires pc + |qs| <= |code| && code[pc..pc + |qs|] == qs && lo <= pc && pc + |qs| <= hi && |qs| <= n
    requires AllPlain(qs) && RunQ(qs, m).Some? && !AllInFile(qs)
    ensures RunIn(code, lo, hi, pc, m, n) == Wild
    decreases |qs|
  {
    var rest := FirstOf(code, pc, qs);
    if InFile(qs[0]) {
      OneStep(code, lo, hi, pc, m, n);
      StraightWild(code, lo, hi, pc + 1, rest, Do(qs[0], m).value, n - 1);
    }
  }

  lemma FirstOf(code: seq<Quad>, pc: nat, qs: seq<Quad>) returns (rest: seq<Quad>)
    requires qs != [] && pc + |qs| <= |code| && code[pc..pc + |qs|] == qs
    ensures code[pc] == qs[0] && rest == qs[1..] && code[pc + 1..pc + 1 + |rest|] == rest
    ensures AllInFile(qs) <==> InFile(qs[0]) && AllInFile(rest)
  {
    rest := qs[1..];
    assert code[pc] == code[pc..pc + |qs|][0];
    assert qs == [qs[0]] + rest;
    assert code[pc + 1..pc + 1 + |rest|] == code[pc..pc + |qs|][1..];
  }

  /** Exactly when the machine computes an expression: from any memory in which the
      expression has a value, the run of its quads gets past them if they keep to the
      machine's registers, and goes astray if they do not. */
  lemma ExprRuns(code: seq<Quad>, pc: nat, hi: nat, e: Expr, p: Part, m: Mem, n: nat)
    requires ExprIs(e, {}, p) && Eval(e, m.frame).Some?
    requires hi == pc + |p.quads| <= |code| && code[pc..hi] == p.quads && |p.quads| <= n
    ensures RunIn(code, pc, hi, pc, m, n).Exit? <==> AllInFile(p.quads)
    ensures RunIn(code, pc, hi, pc, m, n).Wild? <==> !AllInFile(p.quads)
    ensures
      var r := RunIn(code, pc, hi, pc, m, n);
      r.Exit? ==> r.pc == hi && r.mem.frame == m.frame && Value(p.obj, r.mem) == Eval(e, m.frame).value
  {
    ExprYields(e, p, m);
    YieldsValue(p, m, {}, TypeOf(e), Eval(e, m.frame));
    if AllInFile(p.quads) {
      SitsThere(code, pc, hi, p.quads);
      Straight(code, pc, hi, pc, p.quads, m, n);
      AtEnd(code, pc, hi, After(p.quads, m), n - |p.quads|);
    } else {
      StraightWild(code, pc, hi, pc, p.quads, m, n);
    }
  }

  lemma SitsThere(code: seq<Quad>, pc: nat, hi: nat, qs: seq<Quad>)
    requires hi == pc + |qs| <= |code| && code[pc..hi] == qs && AllInFile(qs)
    ensures Sits(code, pc, qs)
  {
  }

  lemma AtEnd(code: seq<Quad>, lo: nat, hi: nat, m: Mem, n: nat)
    ensures RunIn(code, lo, hi, hi, m, n) == Exit(hi, m, n)
  {
  }

  lemma ExprYields(e: Expr, p: Part, m: Mem)
    requires ExprIs(e, {}, p)
    ensures Yields(p, m, {}, TypeOf(e), Eval(e, m.frame))
  {
    ExprMeans(e, {}, m);
    assert Show(Compiling, 0);
  }

  lemma YieldsValue(p: Part, m: Mem, live: set<Reg>, t: Type, v: Option<int>)
    requires Yields(p, m, live, t, v) && v.Some?
    ensures AllPlain(p.quads) && RunQ(p.quads, m).Some? && RunQ(p.quads, m).value.frame == m.frame
    ensures Value(p.obj, RunQ(p.quads, m).value) == v.value
  {
    assert ShowPart(p, 0);
  }

  /** (x + y) * ((x + y) * (... (x + y))), with n multiplications. */
  function Deep(n: nat): Expr {
    var word := Type(FormWord, true);
    var sum := Bin(Add, Var(word, -2), Var(word, -4));
    if n == 0 then sum else Bin(Multiply, sum, Deep(n - 1))
  }

  lemma {:induction false} BelowFree(live: set<Reg>, f: Form, k: int, i: int)
    requires k <= i < FirstFree(live, f, k)
    ensures Reg(f, i) in live
    decreases |live|
  {
    if k < i { BelowFree(live - {Reg(f, k)}, f, k + 1, i); }
  }

  /** The code of the expression, with these registers in use, names one too many. */
  ghost predicate Astray(n: nat, live: set<Reg>) {
    forall u: nat {:trigger Show(Straying, u)} :: Show(Straying, u) ==> !AllInFile(CodeE(Deep(n), live).quads)
  }

  /** The innermost expression puts its value in register r. */
  ghost predicate Summed(live: set<Reg>, live1: set<Reg>, r: nat) {
    forall u: nat {:trigger Show(Summing, u)} :: Show(Summing, u) ==>
      live1 == CodeE(Deep(0), live).live && (r >= MAX_REGS ==> !AllInFile(CodeE(Deep(0), live).quads))
  }

  ghost predicate Holding(live: set<Reg>, k: nat) {
    forall i :: 1 <= i <= k ==> Reg(FormWord, i) in live
  }

  /** With k registers in use, it needs n + 1 more. */
  lemma {:induction false} DeepReaches(n: nat, live: set<Reg>, k: nat)
    requires Holding(live, k) && k + n + 1 >= MAX_REGS
    ensures Astray(n, live)
    decreases n
  {
    var r, live1 := SumReg(live, k);
    if r >= MAX_REGS {
      SumAstray(n, live, live1, r);
    } else {
      DeepReaches(n - 1, live1, r);
      DeepAstray(n, live, live1, r);
    }
  }

  lemma SumAstray(n: nat, live: set<Reg>, live1: set<Reg>, r: nat)
    requires Summed(live, live1, r) && r >= MAX_REGS
    ensures Astray(n, live)
  {
    assert Show(Summing, 0);
    if n > 0 { DeepParts(n, live, live1); }
  }

  lemma DeepAstray(n: nat, live: set<Reg>, live1: set<Reg>, r: nat)
    requires n > 0 && Summed(live, live1, r) && Astray(n - 1, live1)
    ensures Astray(n, live)
  {
    assert Show(Straying, 0) && Show(Summing, 0);
    DeepParts(n, live, live1);
  }

  lemma SumReg(live: set<Reg>, k: nat) returns (r: nat, live1: set<Reg>)
    requires Holding(live, k)
    ensures r > k && Summed(live, live1, r) && Holding(live1, r)
  {
    var p := CodeE(Deep(0), live);
    r, live1 := Fresh(live, FormWord).k, p.live;
    SumCode(live);
    assert p.quads[0] in p.quads;
    forall i | 1 <= i <= r
      ensures Reg(FormWord, i) in live1
    {
      if i < r { BelowFree(live, FormWord, 1, i); }
    }
  }

  lemma SumCode(live: set<Reg>)
    ensures
      var p := CodeE(Deep(0), live);
      var r := Fresh(live, FormWord);
      |p.quads| == 1 && p.quads[0].QBin? && p.quads[0].op == Add && p.quads[0].form == FormWord
      && p.quads[0].dest == TempAt(r) && p.live == live + {r}
  {
  }

  lemma DeepParts(n: nat, live: set<Reg>, live1: set<Reg>)
    requires n > 0 && live1 == CodeE(Deep(0), live).live
    ensures AllInFile(CodeE(Deep(n), live).quads) ==>
      AllInFile(CodeE(Deep(0), live).quads) && AllInFile(CodeE(Deep(n - 1), live1).quads)
  {
    DeepUnfold(n, map[]);
    TimesParts(Deep(0), Deep(n - 1), live);
  }

  lemma TimesParts(a: Expr, b: Expr, live: set<Reg>)
    ensures AllInFile(CodeE(Bin(Multiply, a, b), live).quads) ==>
      AllInFile(CodeE(a, live).quads) && AllInFile(CodeE(b, CodeE(a, live).live).quads)
  {
    var p := CodeE(a, live);
    var q := CodeE(b, p.live);
    var c := CodeBin(Multiply, p.obj, q.obj, q.live);
    assert CodeE(Bin(Multiply, a, b), live).quads == p.quads + (q.quads + c.quads);
  }

  lemma SumHasValue(frame: Frame)
    ensures Eval(Deep(0), frame).Some? && Need(Deep(0)) == 5
  {
  }

  lemma DeepUnfold(n: nat, frame: Frame)
    requires n > 0
    ensures Deep(n) == Bin(Multiply, Deep(0), Deep(n - 1))
    ensures Eval(Deep(0), frame).Some? && Eval(Deep(n - 1), frame).Some? ==> Eval(Deep(n), frame).Some?
    ensures Need(Deep(n)) == Max(Need(Deep(0)), Max(Need(Deep(n - 1)) + 1, 5))
  {
    assert Deep(0) == Bin(Add, Var(Type(FormWord, true), -2), Var(Type(FormWord, true), -4));
    TimesHasValue(Deep(0), Deep(n - 1), frame);
  }

  lemma TimesHasValue(a: Expr, b: Expr, frame: Frame)
    ensures Eval(a, frame).Some? && Eval(b, frame).Some? ==> Eval(Bin(Multiply, a, b), frame).Some?
    ensures Need(Bin(Multiply, a, b)) == Max(Need(a), Max(Need(b) + 1, 5))
  {
  }

  lemma {:induction false} DeepHasValue(n: nat, frame: Frame)
    ensures Eval(Deep(n), frame).Some? && Need(Deep(n)) <= n + 5
    decreases n
  {
    SumHasValue(frame);
    if n > 0 {
      DeepHasValue(n - 1, frame);
      DeepUnfold(n, frame);
    }
  }

  /** An expression that the compiler accepts and the source gives a value, and whose
      code goes astray from every memory: one of 99 multiplications or more. */
  lemma DeepGoesWild(n: nat, p: Part, m: Mem)
    requires n >= 99 && ExprIs(Deep(n), {}, p)
    ensures Eval(Deep(n), m.frame).Some? && (n < 995 ==> Fits(Perform(Pure(Deep(n))), 1000))
    ensures RunIn(p.quads, 0, |p.quads|, 0, m, |p.quads|) == Wild
  {
    DeepHasValue(n, m.frame);
    DeepReaches(n, {}, 0);
    assert !AllInFile(p.quads) by { assert Show(Compiling, 0) && Show(Straying, 0); }
    assert p.quads[0..|p.quads|] == p.quads;
    ExprRuns(p.quads, 0, |p.quads|, Deep(n), p, m, |p.quads|);
  }
}
