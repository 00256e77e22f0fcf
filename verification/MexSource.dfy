/** MEX statements over integral expressions, and what they mean for the bytes of
    the activation record. */
module MexSource {
  import opened Wrappers
  import opened MexTypes
  import opened MexVm

  /** Operands without side effects.  A variable is its type and its offset from the
      base of the activation record. */
  datatype Expr =
    | Const(form: Form, bits: nat)
    | Var(t: Type, ofs: int)
    | Bin(op: BinOp, a: Expr, b: Expr)
    | Neg(e: Expr)
    | Cast(to: Type, e: Expr)

  /** An expression as a statement uses it: a chain of assignments, perhaps none, and
      the value at its end. */
  datatype Action = Pure(e: Expr) | Assign(t: Type, ofs: int, source: Action)

  datatype Stmt =
    | Skip
    | Then(first: Stmt, second: Stmt)
    | Perform(action: Action)
    | If(test: Action, yes: Stmt)
    | IfElse(test: Action, yes: Stmt, no: Stmt)
    | While(test: Action, body: Stmt)
    | DoWhile(body: Stmt, test: Action)
    | For(init: Option<Action>, test: Action, post: Option<Action>, body: Stmt)
    | Return(value: Option<Action>)

  // ---------------------------------------------------------------- types

  /** The type of a literal: signed unless the top bit is set, except that a dword
      literal is always signed. */
  function LitType(f: Form, v: nat): Type {
    Type(f, f.FormDword? || v < Span(f) / 2)
  }

  /** The type two operands are brought to: the larger, or of two equally large ones
      the signed one. */
  function Common(t1: Type, t2: Type): (t: Type)
    ensures t == t1 || t == t2
    ensures Size(t1.form) <= Size(t.form) && Size(t2.form) <= Size(t.form)
    ensures t1.form == t2.form ==> t.fSigned == (t1.fSigned || t2.fSigned)
  {
    if Size(t1.form) > Size(t2.form) then t1
    else if Size(t1.form) < Size(t2.form) then t2
    else if t2.fSigned then t2
    else t1
  }

  function TypeOf(e: Expr): Type {
    match e
    case Const(f, v) => LitType(f, Raw(f, v))
    case Var(t, ofs) => t
    case Bin(op, a, b) => ResultType(op, Common(TypeOf(a), TypeOf(b)))
    case Neg(a) => Type(TypeOf(a).form, true)
    case Cast(t, a) => t
  }

  function ActionType(a: Action): Type {
    match a
    case Pure(e) => TypeOf(e)
    case Assign(t, ofs, source) => t
  }

  // ---------------------------------------------------------------- meaning

  /** What a binary operator makes of two operands that may have failed. */
  function BinValue(op: BinOp, ta: Type, va: Option<int>, tb: Type, vb: Option<int>): Option<int> {
    var t := Common(ta, tb);
    if va.None? || vb.None? then None else Apply(op, t, Wrap(t, va.value), Wrap(t, vb.value))
  }

  /** Operands that the common type can hold are not changed.  It can hold any that are not
      negative and come from a smaller type, and if it is signed, all that come from there. */
  lemma OperandsKept(op: BinOp, t1: Type, v1: int, t2: Type, v2: int)
    requires InRange(t1, v1) && InRange(t2, v2)
    ensures var t := Common(t1, t2);
            && (Size(t1.form) < Size(t2.form) ==> t == t2 && (InRange(t, v1) <==> v1 >= 0 || t2.fSigned))
            && (Size(t2.form) < Size(t1.form) ==> t == t1 && (InRange(t, v2) <==> v2 >= 0 || t1.fSigned))
            && (t1.form == t2.form ==> (InRange(t, v1) <==> t1.fSigned || !t2.fSigned || v1 < Span(t1.form) / 2))
            && (t1.form == t2.form ==> (InRange(t, v2) <==> t2.fSigned || !t1.fSigned || v2 < Span(t2.form) / 2))
            && (InRange(t, v1) && InRange(t, v2) ==> BinValue(op, t1, Some(v1), t2, Some(v2)) == Apply(op, t, v1, v2))
  {
    WrapRange(Common(t1, t2), v1);
    WrapRange(Common(t1, t2), v2);
  }

  /** A signed word of 300 and an unsigned byte of 100 make 400, in either order. */
  lemma MixedSum()
    ensures var w, b := Type(FormWord, true), Type(FormByte, false);
            && BinValue(Add, w, Some(300), b, Some(100)) == Some(400)
            && BinValue(Add, b, Some(100), w, Some(300)) == Some(400)
  {
    OperandsKept(Add, Type(FormWord, true), 300, Type(FormByte, false), 100);
    OperandsKept(Add, Type(FormByte, false), 100, Type(FormWord, true), 300);
    WrapRange(Type(FormWord, true), 400);
  }

  /** A word of -7 divided by a signed byte of 2 is -3. */
  lemma MixedQuotient()
    ensures BinValue(Divide, Type(FormWord, true), Some(-7), Type(FormByte, true), Some(2)) == Some(-3)
  {
    OperandsKept(Divide, Type(FormWord, true), -7, Type(FormByte, true), 2);
    Division(Type(FormWord, true), -7, 2, -3, -1);
    WrapRange(Type(FormWord, true), -3);
  }

  /** The value of a byte or word literal is its bits as an unsigned number; that of a
      double word literal is its bits as a signed one.  Its type is the signed one if that
      can hold it. */
  lemma LiteralMeans(f: Form, bits: nat, frame: Frame)
    requires bits < Span(f)
    ensures f != FormDword ==> Eval(Const(f, bits), frame) == Some(bits)
    ensures TypeOf(Const(f, bits)) == Type(f, f == FormDword || InRange(Type(f, true), bits))
    ensures f == FormDword ==> Eval(Const(f, bits), frame) == Some(if bits < 2147483648 then bits else bits - 4294967296)
  {
    WrapIs(LitType(f, bits), bits);
  }

  /** The value of an expression; none, if it divides by zero or shifts too far.  Both operands of `and`
      and `or` are evaluated. */
  function Eval(e: Expr, frame: Frame): Option<int> {
    match e
    case Const(f, v) => Some(Val(LitType(f, Raw(f, v)), Raw(f, v)))
    case Var(t, ofs) => Some(Val(t, Load(frame, t.form, ofs)))
    case Bin(op, a, b) =>
      BinValue(op, TypeOf(a), Eval(a, frame), TypeOf(b), Eval(b, frame))
    case Neg(a) =>
      var v := Eval(a, frame);
      if v.None? then None else Some(Wrap(TypeOf(e), -v.value))
    case Cast(t, a) =>
      var v := Eval(a, frame);
      if v.None? then None else Some(Wrap(t, v.value))
  }

  /** The frame after an action, and the action's value. */
  function Act(a: Action, frame: Frame): Option<(Frame, int)> {
    match a
    case Pure(e) =>
      var v := Eval(e, frame);
      if v.None? then None else Some((frame, v.value))
    case Assign(t, ofs, source) =>
      var r := Act(source, frame);
      if r.None? then None else
      Some((Store(r.value.0, t.form, ofs, Raw(t.form, r.value.1)), Wrap(t, r.value.1)))
  }

  /** How a statement ends. */
  datatype Outcome = OutOfFuel | Fault | Normal(frame: Frame) | Returned(frame: Frame, value: Option<int>)

  /** A statement of a function whose result has type ret, in which control goes back to
      the top of loops at most fuel times in a row. */
  function Exec(s: Stmt, frame: Frame, ret: Type, fuel: nat): Outcome
    decreases fuel, s, 0
  {
    match s
    case Skip => Normal(frame)
    case Then(a, b) =>
      var o := Exec(a, frame, ret, fuel);
      if o.Normal? then Exec(b, o.frame, ret, fuel) else o
    case Perform(a) => Done(Act(a, frame))
    case If(test, yes) =>
      var r := Act(test, frame);
      if r.None? then Fault else if r.value.1 != 0 then Exec(yes, r.value.0, ret, fuel) else Normal(r.value.0)
    case IfElse(test, yes, no) =>
      var r := Act(test, frame);
      if r.None? then Fault
      else if r.value.1 != 0 then Exec(yes, r.value.0, ret, fuel)
      else Exec(no, r.value.0, ret, fuel)
    case While(test, body) =>
      var r := Act(test, frame);
      if r.None? then Fault
      else if r.value.1 == 0 then Normal(r.value.0)
      else
        var o := Exec(body, r.value.0, ret, fuel);
        if !o.Normal? then o else if fuel == 0 then OutOfFuel else Exec(s, o.frame, ret, fuel - 1)
    case DoWhile(body, test) =>
      var o := Exec(body, frame, ret, fuel);
      if !o.Normal? then o else
      var r := Act(test, o.frame);
      if r.None? then Fault
      else if r.value.1 == 0 then Normal(r.value.0)
      else if fuel == 0 then OutOfFuel
      else Exec(s, r.value.0, ret, fuel - 1)
    case For(init, test, post, body) =>
      var o := Maybe(init, frame);
      if o.Normal? then Loop(test, post, body, o.frame, ret, fuel) else o
    case Return(value) =>
      match value
      case None => Returned(frame, None)
      case Some(a) =>
        var r := Act(a, frame);
        if r.None? then Fault else Returned(r.value.0, Some(Wrap(ret, r.value.1)))
  }

  /** A for loop after its initial action. */
  function Loop(test: Action, post: Option<Action>, body: Stmt, frame: Frame, ret: Type, fuel: nat): Outcome
    decreases fuel, body, 1
  {
    var r := Act(test, frame);
    if r.None? then Fault
    else if r.value.1 == 0 then Normal(r.value.0)
    else
      var o := Exec(body, r.value.0, ret, fuel);
      if !o.Normal? then o else
      var p := Maybe(post, o.frame);
      if !p.Normal? then p else if fuel == 0 then OutOfFuel else Loop(test, post, body, p.frame, ret, fuel - 1)
  }

  function Done(r: Option<(Frame, int)>): Outcome {
    if r.None? then Fault else Normal(r.value.0)
  }

  function Maybe(a: Option<Action>, frame: Frame): Outcome {
    if a.None? then Normal(frame) else Done(Act(a.value, frame))
  }

  /** A value is always one its type can hold. */
  lemma {:induction false} EvalRange(e: Expr, frame: Frame)
    requires Eval(e, frame).Some?
    ensures InRange(TypeOf(e), Eval(e, frame).value)
  {
    match e
    case Const(f, v) => RawOfVal(LitType(f, Raw(f, v)), Raw(f, v));
    case Var(t, ofs) => RawOfVal(t, Load(frame, t.form, ofs));
    case Bin(op, a, b) =>
      var t := Common(TypeOf(a), TypeOf(b));
      ApplyRange(op, t, Wrap(t, Eval(a, frame).value), Wrap(t, Eval(b, frame).value));
    case Neg(a) => WrapRange(TypeOf(e), -Eval(a, frame).value);
    case Cast(t, a) => WrapRange(t, Eval(a, frame).value);
  }

  /** More fuel does not change a statement that has ended. */
  lemma {:induction false} MoreFuel(s: Stmt, frame: Frame, ret: Type, fuel: nat, more: nat)
    requires fuel <= more && !Exec(s, frame, ret, fuel).OutOfFuel?
    ensures Exec(s, frame, ret, more) == Exec(s, frame, ret, fuel)
    decreases fuel, s, 0
  {
    match s
    case Then(a, b) =>
      MoreFuel(a, frame, ret, fuel, more);
      var o := Exec(a, frame, ret, fuel);
      if o.Normal? { MoreFuel(b, o.frame, ret, fuel, more); }
    case If(test, yes) =>
      var r := Act(test, frame);
      if r.Some? && r.value.1 != 0 { MoreFuel(yes, r.value.0, ret, fuel, more); }
    case IfElse(test, yes, no) =>
      var r := Act(test, frame);
      if r.Some? { MoreFuel(if r.value.1 != 0 then yes else no, r.value.0, ret, fuel, more); }
    case While(test, body) =>
      var r := Act(test, frame);
      if r.Some? && r.value.1 != 0 {
        MoreFuel(body, r.value.0, ret, fuel, more);
        var o := Exec(body, r.value.0, ret, fuel);
        if o.Normal? { MoreFuel(s, o.frame, ret, fuel - 1, more - 1); }
      }
    case DoWhile(body, test) =>
      MoreFuel(body, frame, ret, fuel, more);
      var o := Exec(body, frame, ret, fuel);
      if o.Normal? {
        var r := Act(test, o.frame);
        if r.Some? && r.value.1 != 0 { MoreFuel(s, r.value.0, ret, fuel - 1, more - 1); }
      }
    case For(init, test, post, body) =>
      var o := Maybe(init, frame);
      if o.Normal? { MoreLoop(test, post, body, o.frame, ret, fuel, more); }
    case _ =>
  }

  lemma {:induction false} MoreLoop(test: Action, post: Option<Action>, body: Stmt, frame: Frame, ret: Type, fuel: nat, more: nat)
    requires fuel <= more && !Loop(test, post, body, frame, ret, fuel).OutOfFuel?
    ensures Loop(test, post, body, frame, ret, more) == Loop(test, post, body, frame, ret, fuel)
    decreases fuel, body, 1
  {
    var r := Act(test, frame);
    if r.Some? && r.value.1 != 0 {
      MoreFuel(body, r.value.0, ret, fuel, more);
      var o := Exec(body, r.value.0, ret, fuel);
      if o.Normal? {
        var p := Maybe(post, o.frame);
        if p.Normal? { MoreLoop(test, post, body, p.frame, ret, fuel - 1, more - 1); }
      }
    }
  }
}
