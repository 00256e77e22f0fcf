/** A statement that keeps to an area of the activation record does the same in any two
    frames that agree there. */
module MexLocal {
  import opened Wrappers
  import opened MexTypes
  import opened MexVm
  import opened MexSource
  import opened MexRegs
  import opened MexReturn

  /** The frames hold the same bytes in the area. */
  ghost predicate Alike(b: Area, f: Frame, g: Frame)
    requires b.Area?
  {
    forall u: nat {:trigger Show(Framing, u)} :: Show(Framing, u) ==> forall i :: InArea(b, i) ==> ByteAt(f, i) == ByteAt(g, i)
  }

  ghost predicate ActAlike(b: Area, r: Option<(Frame, int)>, q: Option<(Frame, int)>)
    requires b.Area?
  {
    if r.None? || q.None? then r == q else Alike(b, r.value.0, q.value.0) && r.value.1 == q.value.1
  }

  /** The outcomes are the same as far as the area goes. */
  ghost predicate Like(b: Area, o: Outcome, p: Outcome)
    requires b.Area?
  {
    match o
    case Normal(f) => p.Normal? && Alike(b, f, p.frame)
    case Returned(f, v) => p.Returned? && Alike(b, f, p.frame) && p.value == v
    case _ => p == o
  }

  lemma AlikeLoad(b: Area, f: Frame, g: Frame, form: Form, ofs: int)
    requires b.Area? && Alike(b, f, g) && Within(b, form, ofs)
    ensures Load(f, form, ofs) == Load(g, form, ofs)
  {
    assert Show(Framing, 0);
    forall i | ofs <= i < ofs + Size(form)
      ensures ByteAt(f, i) == ByteAt(g, i)
    {
      assert InArea(b, i);
    }
    LoadSame(f, g, form, ofs);
  }

  lemma AlikeStore(b: Area, f: Frame, g: Frame, form: Form, ofs: int, v: nat)
    requires b.Area? && Alike(b, f, g)
    ensures Alike(b, Store(f, form, ofs, v), Store(g, form, ofs, v))
  {
    assert Show(Framing, 0);
    forall i | InArea(b, i)
      ensures ByteAt(Store(f, form, ofs, v), i) == ByteAt(Store(g, form, ofs, v), i)
    {
      StoredByte(f, form, ofs, v, i);
      StoredByte(g, form, ofs, v, i);
    }
  }

  lemma {:induction false} EvalAlike(b: Area, e: Expr, f: Frame, g: Frame)
    requires b.Area? && Alike(b, f, g) && VarsIn(b, e)
    ensures Eval(e, f) == Eval(e, g)
    decreases e
  {
    match e
    case Const(_, _) =>
    case Var(t, ofs) => AlikeLoad(b, f, g, t.form, ofs);
    case Bin(_, x, y) =>
      EvalAlike(b, x, f, g);
      EvalAlike(b, y, f, g);
    case Neg(x) => EvalAlike(b, x, f, g);
    case Cast(_, x) => EvalAlike(b, x, f, g);
  }

  lemma {:induction false} ActIsAlike(b: Area, a: Action, f: Frame, g: Frame)
    requires b.Area? && Alike(b, f, g) && ActionIn(b, a)
    ensures ActAlike(b, Act(a, f), Act(a, g))
    decreases a
  {
    match a
    case Pure(e) => EvalAlike(b, e, f, g);
    case Assign(t, ofs, source) =>
      ActIsAlike(b, source, f, g);
      var r, q := Act(source, f), Act(source, g);
      if r.Some? { AlikeStore(b, r.value.0, q.value.0, t.form, ofs, Raw(t.form, r.value.1)); }
  }

  lemma MaybeAlike(b: Area, a: Option<Action>, f: Frame, g: Frame)
    requires b.Area? && Alike(b, f, g) && MaybeIn(b, a)
    ensures Like(b, Maybe(a, f), Maybe(a, g))
  {
    if a.Some? { ActIsAlike(b, a.value, f, g); }
  }

  lemma {:induction false} ExecAlike(b: Area, s: Stmt, f: Frame, g: Frame, ret: Type, fuel: nat)
    requires b.Area? && Alike(b, f, g) && StmtIn(b, s)
    ensures Like(b, Exec(s, f, ret, fuel), Exec(s, g, ret, fuel))
    decreases fuel, s, 0
  {
    match s
    case Skip =>
    case Then(x, y) =>
      ExecAlike(b, x, f, g, ret, fuel);
      var o, p := Exec(x, f, ret, fuel), Exec(x, g, ret, fuel);
      if o.Normal? { ExecAlike(b, y, o.frame, p.frame, ret, fuel); }
    case Perform(a) => ActIsAlike(b, a, f, g);
    case If(test, yes) =>
      ActIsAlike(b, test, f, g);
      var r, q := Act(test, f), Act(test, g);
      if r.Some? && r.value.1 != 0 { ExecAlike(b, yes, r.value.0, q.value.0, ret, fuel); }
    case IfElse(test, yes, no) =>
      ActIsAlike(b, test, f, g);
      var r, q := Act(test, f), Act(test, g);
      if r.Some? { ExecAlike(b, if r.value.1 != 0 then yes else no, r.value.0, q.value.0, ret, fuel); }
    case While(test, body) => WhileAlike(b, s, f, g, ret, fuel);
    case DoWhile(body, test) => DoWhileAlike(b, s, f, g, ret, fuel);
    case For(init, test, post, body) =>
      MaybeAlike(b, init, f, g);
      var o, p := Maybe(init, f), Maybe(init, g);
      if o.Normal? { LoopAlike(b, test, post, body, o.frame, p.frame, ret, fuel); }
    case Return(value) => if value.Some? { ActIsAlike(b, value.value, f, g); }
  }

  lemma {:induction false} WhileAlike(b: Area, s: Stmt, f: Frame, g: Frame, ret: Type, fuel: nat)
    requires b.Area? && Alike(b, f, g) && StmtIn(b, s) && s.While?
    ensures Like(b, Exec(s, f, ret, fuel), Exec(s, g, ret, fuel))
    decreases fuel, s.body, 1
  {
    ActIsAlike(b, s.test, f, g);
    var r, q := Act(s.test, f), Act(s.test, g);
    if r.Some? && r.value.1 != 0 {
      ExecAlike(b, s.body, r.value.0, q.value.0, ret, fuel);
      var o, p := Exec(s.body, r.value.0, ret, fuel), Exec(s.body, q.value.0, ret, fuel);
      if o.Normal? && fuel > 0 { ExecAlike(b, s, o.frame, p.frame, ret, fuel - 1); }
    }
  }

  lemma {:induction false} DoWhileAlike(b: Area, s: Stmt, f: Frame, g: Frame, ret: Type, fuel: nat)
    requires b.Area? && Alike(b, f, g) && StmtIn(b, s) && s.DoWhile?
    ensures Like(b, Exec(s, f, ret, fuel), Exec(s, g, ret, fuel))
    decreases fuel, s.body, 1
  {
    ExecAlike(b, s.body, f, g, ret, fuel);
    var o, p := Exec(s.body, f, ret, fuel), Exec(s.body, g, ret, fuel);
    if o.Normal? {
      ActIsAlike(b, s.test, o.frame, p.frame);
      var r, q := Act(s.test, o.frame), Act(s.test, p.frame);
      if r.Some? && r.value.1 != 0 && fuel > 0 { ExecAlike(b, s, r.value.0, q.value.0, ret, fuel - 1); }
    }
  }

  lemma {:induction false} LoopAlike(b: Area, test: Action, post: Option<Action>, body: Stmt, f: Frame, g: Frame, ret: Type, fuel: nat)
    requires b.Area? && Alike(b, f, g) && ActionIn(b, test) && MaybeIn(b, post) && StmtIn(b, body)
    ensures Like(b, Loop(test, post, body, f, ret, fuel), Loop(test, post, body, g, ret, fuel))
    decreases fuel, body, 1
  {
    ActIsAlike(b, test, f, g);
    var r, q := Act(test, f), Act(test, g);
    if r.Some? && r.value.1 != 0 {
      ExecAlike(b, body, r.value.0, q.value.0, ret, fuel);
      var o, p := Exec(body, r.value.0, ret, fuel), Exec(body, q.value.0, ret, fuel);
      if o.Normal? {
        MaybeAlike(b, post, o.frame, p.frame);
        var o2, p2 := Maybe(post, o.frame), Maybe(post, p.frame);
        if o2.Normal? && fuel > 0 { LoopAlike(b, test, post, body, o2.frame, p2.frame, ret, fuel - 1); }
      }
    }
  }
}
