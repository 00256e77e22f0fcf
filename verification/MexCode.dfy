/** The quads for expressions: which temporaries hold which values, and that the
    value of the expression is where the result object says it is. */
module MexCode {
  import opened Wrappers
  import opened MexTypes
  import opened MexVm
  import opened MexSource

  /** What the compiler knows of a value: its type, and the literal or the place. */
  datatype Obj = Obj(t: Type, arg: Operand)

  /** Quads, the object they leave, and the temporaries in use after them. */
  datatype Part = Part(quads: seq<Quad>, obj: Obj, live: set<Reg>)

  // ---------------------------------------------------------------- temporaries

  /** The first register from k on that is not in use. */
  function FirstFree(live: set<Reg>, f: Form, k: int): (r: int)
    ensures r >= k && Reg(f, r) !in live
    decreases |live|
  {
    if Reg(f, k) in live then FirstFree(live - {Reg(f, k)}, f, k + 1) else k
  }

  function Fresh(live: set<Reg>, f: Form): (r: Reg)
    ensures r.form == f && r.k >= 1 && r !in live
  {
    Reg(f, FirstFree(live, f, 1))
  }

  /** The temporary an object is, if it is one. */
  function TempOf(o: Obj): set<Reg> {
    if o.arg.At? && o.arg.place.Temp? then {Slot(o.t.form, o.arg.place.ofs)} else {}
  }

  function InTemp(t: Type, r: Reg): Obj {
    Obj(t, At(TempAt(r)))
  }

  // ---------------------------------------------------------------- conversion

  /** An object brought to another type: a change of sign by retyping, a literal at
      compile time, anything else by a quad into a new temporary. */
  function Convert(o: Obj, t: Type, live: set<Reg>): Part
    requires o.t != t
  {
    if o.t.form == t.form then Part([], Obj(t, o.arg), live)
    else if o.arg.Lit? then Part([], Obj(t, Lit(Raw(t.form, Val(o.t, Raw(o.t.form, o.arg.v))))), live)
    else
      var r := Fresh(live, t.form);
      Part([QConvert(o.t.form, o.t.fSigned, t.form, o.arg, TempAt(r))], InTemp(t, r), live + {r} - TempOf(o))
  }

  function Coerce(o: Obj, t: Type, live: set<Reg>): Part {
    if o.t == t then Part([], o, live) else Convert(o, t, live)
  }

  // ---------------------------------------------------------------- expressions

  /** A binary operator on two objects. */
  function CodeBin(op: BinOp, o1: Obj, o2: Obj, live: set<Reg>): Part {
    var t := Common(o1.t, o2.t);
    var c1 := Coerce(o1, t, live);
    var c2 := Coerce(o2, t, c1.live);
    var r := Fresh(c2.live, ResultType(op, t).form);
    Part(c1.quads + (c2.quads + [QBin(op, t.form, t.fSigned, c1.obj.arg, c2.obj.arg, TempAt(r))]),
         InTemp(ResultType(op, t), r),
         c2.live + {r} - TempOf(c1.obj) - TempOf(c2.obj))
  }

  /** Unary minus: a literal at compile time, anything else as zero minus it. */
  function CodeNeg(o: Obj, live: set<Reg>): Part {
    var t := Type(o.t.form, true);
    if o.arg.Lit? then Part([], Obj(t, Lit(Raw(o.t.form, -Val(t, Raw(o.t.form, o.arg.v))))), live)
    else
      var r := Fresh(live, o.t.form);
      Part([QBin(Subtract, o.t.form, o.t.fSigned, Lit(0), o.arg, TempAt(r))], InTemp(t, r), live + {r} - TempOf(o))
  }

  function CodeE(e: Expr, live: set<Reg>): Part {
    match e
    case Const(f, v) => Part([], Obj(LitType(f, Raw(f, v)), Lit(Raw(f, v))), live)
    case Var(t, ofs) => Part([], Obj(t, At(Ar(ofs))), live)
    case Bin(op, a, b) =>
      var p := CodeE(a, live);
      var q := CodeE(b, p.live);
      var c := CodeBin(op, p.obj, q.obj, q.live);
      Part(p.quads + (q.quads + c.quads), c.obj, c.live)
    case Neg(a) =>
      var p := CodeE(a, live);
      var c := CodeNeg(p.obj, p.live);
      Part(p.quads + c.quads, c.obj, c.live)
    case Cast(t, a) =>
      var p := CodeE(a, live);
      var c := Coerce(p.obj, t, p.live);
      Part(p.quads + c.quads, c.obj, c.live)
  }

  // ---------------------------------------------------------------- what they mean

  /** The value an object stands for. */
  function Value(o: Obj, m: Mem): int {
    Val(o.t, Fetch(m, o.t.form, o.arg))
  }

  /** Nothing but temporaries outside live is different. */
  ghost predicate Kept(m: Mem, m2: Mem, live: set<Reg>) {
    && m2.frame == m.frame
    && m2.stack == m.stack
    && forall u: nat {:trigger Show(Keeping, u)} :: Show(Keeping, u) ==> forall r :: r in live ==> Get(m2.temps, r) == Get(m.temps, r)
  }

  lemma ValueKept(o: Obj, m: Mem, m2: Mem, live: set<Reg>)
    requires Kept(m, m2, live) && TempOf(o) <= live
    ensures Value(o, m2) == Value(o, m)
  {
    assert Show(Keeping, 0);
  }

  /** The machine after quads that succeed; the machine before them if they do not. */
  function After(qs: seq<Quad>, m: Mem): Mem {
    if AllPlain(qs) && RunQ(qs, m).Some? then RunQ(qs, m).value else m
  }

  /** As Show, for what is known of one part only. */
  predicate ShowPart(p: Part, u: nat) {
    p == p && u + 1 > u
  }

  /** The part's quads compute v, of type t, into the part's object and keep the
      temporaries in live, to which the object's own is added; or they stop the machine,
      if there is no v. */
  ghost predicate Yields(p: Part, m: Mem, live: set<Reg>, t: Type, v: Option<int>) {
    forall u: nat {:trigger ShowPart(p, u)} :: ShowPart(p, u) ==>
      && AllPlain(p.quads)
      && p.obj.t == t
      && p.live == live + TempOf(p.obj)
      && TempOf(p.obj) !! live
      && RunQ(p.quads, m).Some? == v.Some?
      && (v.Some? ==> Kept(m, After(p.quads, m), live) && Value(p.obj, After(p.quads, m)) == v.value)
  }

  lemma Shape(p: Part, m: Mem, live: set<Reg>, t: Type, v: Option<int>)
    requires Yields(p, m, live, t, v)
    ensures AllPlain(p.quads) && p.obj.t == t && p.live == live + TempOf(p.obj) && TempOf(p.obj) !! live
    ensures v.Some? ==> Kept(m, After(p.quads, m), live) && Value(p.obj, After(p.quads, m)) == v.value
    ensures RunQ(p.quads, m).Some? == v.Some?
  {
    assert ShowPart(p, 0);
  }

  lemma SlotOfTemp(r: Reg)
    ensures TempAt(r).Temp? && Slot(r.form, TempAt(r).ofs) == r
  {
  }

  /** A value put in an unused temporary is there, and disturbs no other. */
  lemma PutTemp(m: Mem, t: Type, r: Reg, live: set<Reg>, v: nat)
    requires v < Span(t.form) && r.form == t.form && r !in live
    ensures && Kept(m, Put(m, t.form, TempAt(r), v), live)
            && Value(InTemp(t, r), Put(m, t.form, TempAt(r), v)) == Val(t, v)
            && TempOf(InTemp(t, r)) == {r}
  {
    SlotOfTemp(r);
    var m2 := Put(m, t.form, TempAt(r), v);
    assert m2.temps == m.temps[r := v];
    assert Get(m2.temps, r) == v;
    forall x | x in live ensures Get(m2.temps, x) == Get(m.temps, x) {
      assert x != r;
    }
  }

  lemma LitValue(t: Type, v: nat, m: Mem)
    requires v < Span(t.form)
    ensures Value(Obj(t, Lit(v)), m) == Val(t, v)
  {
  }

  /** A value computed without quads. */
  lemma NoQuads(o: Obj, m: Mem, live: set<Reg>, v: int)
    requires TempOf(o) !! live && Value(o, m) == v
    ensures Yields(Part([], o, live + TempOf(o)), m, live, o.t, Some(v))
  {
    assert Show(Keeping, 0);
  }

  /** A value computed into an unused temporary by one quad. */
  lemma OneQuad(q: Quad, m: Mem, t: Type, r: Reg, live: set<Reg>, v: Option<nat>)
    requires Plain(q) && r.form == t.form && r !in live
    requires v.Some? ==> v.value < Span(t.form)
    requires Do(q, m) == if v.None? then None else Some(Put(m, t.form, TempAt(r), v.value))
    ensures Yields(Part([q], InTemp(t, r), live + {r}), m, live, t, if v.None? then None else Some(Val(t, v.value)))
  {
    RunOne(q, m);
    SlotOfTemp(r);
    if v.Some? { PutTemp(m, t, r, live, v.value); }
  }

  lemma ConvertMeans(o: Obj, t: Type, live: set<Reg>, m: Mem)
    requires TempOf(o) <= live
    ensures Yields(Coerce(o, t, live), m, live - TempOf(o), t, Some(Wrap(t, Value(o, m))))
  {
    var keep := live - TempOf(o);
    var bits := Fetch(m, o.t.form, o.arg);
    RawOfVal(o.t, bits);
    assert keep + TempOf(o) == live;
    if o.t == t {
      NoQuads(o, m, keep, Value(o, m));
    } else if o.arg.Lit? || o.t.form == t.form {
      var c := Convert(o, t, live).obj;
      assert Value(c, m) == Val(t, Raw(t.form, Val(o.t, bits)));
      NoQuads(c, m, keep, Wrap(t, Value(o, m)));
    } else {
      var r := Fresh(live, t.form);
      assert live + {r} - TempOf(o) == keep + {r};
      OneQuad(Convert(o, t, live).quads[0], m, t, r, keep, Some(Raw(t.form, Val(o.t, bits))));
    }
  }

  /** One part after another. */
  lemma Chain(p: Part, c: Part, whole: Part, m: Mem, live1: set<Reg>, live: set<Reg>,
              t1: Type, v1: Option<int>, t: Type, v: Option<int>, r: Option<int>)
    requires Yields(p, m, live1, t1, v1)
    requires Yields(c, After(p.quads, m), live, t, v)
    requires live <= live1
    requires whole == Part(p.quads + c.quads, c.obj, c.live) && r == if v1.None? then None else v
    ensures Yields(whole, m, live, t, r)
  {
    assert ShowPart(p, 0) && ShowPart(c, 0) && Show(Keeping, 0);
    RunSplit(p.quads, c.quads, m);
  }

  /** A binary quad on two objects of one type. */
  lemma QuadMeans(op: BinOp, o1: Obj, o2: Obj, r: Reg, keep: set<Reg>, m: Mem)
    requires o1.t == o2.t && r.form == ResultType(op, o1.t).form && r !in keep
    ensures Yields(Part([QBin(op, o1.t.form, o1.t.fSigned, o1.arg, o2.arg, TempAt(r))], InTemp(ResultType(op, o1.t), r), keep + {r}),
                   m, keep, ResultType(op, o1.t), Apply(op, o1.t, Value(o1, m), Value(o2, m)))
  {
    var t := o1.t;
    var a, b := Fetch(m, t.form, o1.arg), Fetch(m, t.form, o2.arg);
    VmOpMeans(op, t, a, b);
    VmOpBits(op, t.form, t.fSigned, a, b);
    OneQuad(QBin(op, t.form, t.fSigned, o1.arg, o2.arg, TempAt(r)), m, ResultType(op, t), r, keep,
            VmOp(op, t.form, t.fSigned, a, b));
  }

  /** Two conversions to a type and an operator on the results. */
  lemma OperatorMeans(op: BinOp, t: Type, o1: Obj, o2: Obj, c1: Part, c2: Part, r: Reg, live: set<Reg>, m: Mem, keep: set<Reg>)
    requires TempOf(o1) <= live && TempOf(o2) <= live && TempOf(o1) !! TempOf(o2)
    requires keep == live - TempOf(o1) - TempOf(o2)
    requires c1 == Coerce(o1, t, live) && c2 == Coerce(o2, t, c1.live)
    requires r.form == ResultType(op, t).form && r !in c2.live
    ensures c2.live + {r} - TempOf(c1.obj) - TempOf(c2.obj) == keep + {r}
    ensures Yields(Part(c1.quads + (c2.quads + [QBin(op, t.form, t.fSigned, c1.obj.arg, c2.obj.arg, TempAt(r))]),
                        InTemp(ResultType(op, t), r), keep + {r}),
                   m, keep, ResultType(op, t), Apply(op, t, Wrap(t, Value(o1, m)), Wrap(t, Value(o2, m))))
  {
    var v1, v2 := Wrap(t, Value(o1, m)), Wrap(t, Value(o2, m));
    ConvertMeans(o1, t, live, m);
    Shape(c1, m, live - TempOf(o1), t, Some(v1));
    var m1 := After(c1.quads, m);
    ValueKept(o2, m, m1, live - TempOf(o1));
    ConvertMeans(o2, t, c1.live, m1);
    Shape(c2, m1, c1.live - TempOf(o2), t, Some(v2));
    var m2 := After(c2.quads, m1);
    ValueKept(c1.obj, m1, m2, c1.live - TempOf(o2));
    QuadMeans(op, c1.obj, c2.obj, r, keep, m2);
    var res, v := ResultType(op, t), Apply(op, t, v1, v2);
    var q := Part([QBin(op, t.form, t.fSigned, c1.obj.arg, c2.obj.arg, TempAt(r))], InTemp(res, r), keep + {r});
    var q2 := Part(c2.quads + q.quads, q.obj, q.live);
    Chain(c2, q, q2, m1, c1.live - TempOf(o2), keep, t, Some(v2), res, v, v);
    Chain(c1, q2, Part(c1.quads + q2.quads, q.obj, q.live), m, live - TempOf(o1), keep, t, Some(v1), res, v, v);
  }

  lemma BinMeans(op: BinOp, o1: Obj, o2: Obj, live: set<Reg>, m: Mem, keep: set<Reg>)
    requires TempOf(o1) <= live && TempOf(o2) <= live && TempOf(o1) !! TempOf(o2)
    requires keep == live - TempOf(o1) - TempOf(o2)
    ensures var t := Common(o1.t, o2.t);
            Yields(CodeBin(op, o1, o2, live), m, keep, ResultType(op, t),
                   Apply(op, t, Wrap(t, Value(o1, m)), Wrap(t, Value(o2, m))))
  {
    var t := Common(o1.t, o2.t);
    var c1 := Coerce(o1, t, live);
    var c2 := Coerce(o2, t, c1.live);
    var r := Fresh(c2.live, ResultType(op, t).form);
    OperatorMeans(op, t, o1, o2, c1, c2, r, live, m, keep);
  }

  lemma NegMeans(o: Obj, live: set<Reg>, m: Mem)
    requires TempOf(o) <= live
    ensures var t := Type(o.t.form, true);
            Yields(CodeNeg(o, live), m, live - TempOf(o), t, Some(Wrap(t, -Value(o, m))))
  {
    var t := Type(o.t.form, true);
    var keep := live - TempOf(o);
    var bits := Fetch(m, o.t.form, o.arg);
    NegVal(o.t, bits);
    if o.arg.Lit? {
      var c := Obj(t, Lit(Raw(t.form, -Val(t, bits))));
      assert CodeNeg(o, live) == Part([], c, keep + TempOf(c));
      LitValue(t, Raw(t.form, -Val(t, bits)), m);
      NoQuads(c, m, keep, Wrap(t, -Value(o, m)));
    } else {
      NegTemp(o, live, m, bits, keep);
    }
  }

  lemma NegTemp(o: Obj, live: set<Reg>, m: Mem, bits: nat, keep: set<Reg>)
    requires !o.arg.Lit? && TempOf(o) <= live && keep == live - TempOf(o) && bits == Fetch(m, o.t.form, o.arg)
    ensures var t := Type(o.t.form, true);
            Yields(CodeNeg(o, live), m, keep, t, Some(Val(t, Raw(t.form, 0 - bits))))
  {
    var t := Type(o.t.form, true);
    var r := Fresh(live, o.t.form);
    var q := QBin(Subtract, o.t.form, o.t.fSigned, Lit(0), o.arg, TempAt(r));
    assert live + {r} - TempOf(o) == keep + {r};
    assert Do(q, m) == Some(Put(m, o.t.form, TempAt(r), Raw(o.t.form, 0 - bits)));
    OneQuad(q, m, t, r, keep, Some(Raw(t.form, 0 - bits)));
  }

  lemma LeafMeans(e: Expr, live: set<Reg>, m: Mem)
    requires e.Const? || e.Var?
    ensures Yields(CodeE(e, live), m, live, TypeOf(e), Eval(e, m.frame))
  {
    var o := CodeE(e, live).obj;
    if e.Const? { LitValue(o.t, Raw(e.form, e.bits), m); }
    NoQuads(o, m, live, Eval(e, m.frame).value);
  }

  /** The quads of an expression leave its value in its object, stop the machine exactly
      when it divides by zero, keep every temporary that was in use, and leave none in
      use but the object itself. */
  lemma {:induction false} ExprMeans(e: Expr, live: set<Reg>, m: Mem)
    ensures Yields(CodeE(e, live), m, live, TypeOf(e), Eval(e, m.frame))
  {
    match e
    case Const(f, bits) => LeafMeans(e, live, m);
    case Var(t, ofs) => LeafMeans(e, live, m);
    case Bin(op, a, b) =>
      ExprMeans(a, live, m);
      ExprMeans(b, CodeE(a, live).live, After(CodeE(a, live).quads, m));
      BinExpr(e, live, m);
    case Neg(a) =>
      ExprMeans(a, live, m);
      NegExpr(e, live, m);
    case Cast(t, a) =>
      ExprMeans(a, live, m);
      CastExpr(e, live, m);
  }

  lemma BinExpr(e: Expr, live: set<Reg>, m: Mem)
    requires e.Bin? && Yields(CodeE(e.a, live), m, live, TypeOf(e.a), Eval(e.a, m.frame))
    requires var p := CodeE(e.a, live);
             var m1 := After(p.quads, m);
             Yields(CodeE(e.b, p.live), m1, p.live, TypeOf(e.b), Eval(e.b, m1.frame))
    ensures Yields(CodeE(e, live), m, live, TypeOf(e), Eval(e, m.frame))
  {
    var p := CodeE(e.a, live);
    Shape(p, m, live, TypeOf(e.a), Eval(e.a, m.frame));
    BinAfter(e.op, p, CodeE(e.b, p.live), live, m, TypeOf(e.a), Eval(e.a, m.frame), TypeOf(e.b), Eval(e.b, m.frame));
  }

  lemma NegExpr(e: Expr, live: set<Reg>, m: Mem)
    requires e.Neg? && Yields(CodeE(e.e, live), m, live, TypeOf(e.e), Eval(e.e, m.frame))
    ensures Yields(CodeE(e, live), m, live, TypeOf(e), Eval(e, m.frame))
  {
    var p := CodeE(e.e, live);
    var c := CodeNeg(p.obj, p.live);
    assert Same(CodeE(e, live), Part(p.quads + c.quads, c.obj, c.live));
    NegAfter(p, live, m, TypeOf(e.e), Eval(e.e, m.frame), TypeOf(e), Eval(e, m.frame));
  }

  lemma CastExpr(e: Expr, live: set<Reg>, m: Mem)
    requires e.Cast? && Yields(CodeE(e.e, live), m, live, TypeOf(e.e), Eval(e.e, m.frame))
    ensures Yields(CodeE(e, live), m, live, TypeOf(e), Eval(e, m.frame))
  {
    CastAfter(e.to, CodeE(e.e, live), live, m, TypeOf(e.e), Eval(e.e, m.frame));
  }

  lemma BinAfter(op: BinOp, p: Part, q: Part, live: set<Reg>, m: Mem, ta: Type, va: Option<int>, tb: Type, vb: Option<int>)
    requires Yields(p, m, live, ta, va)
    requires Yields(q, After(p.quads, m), p.live, tb, vb)
    ensures var c := CodeBin(op, p.obj, q.obj, q.live);
            Yields(Part(p.quads + (q.quads + c.quads), c.obj, c.live), m, live, ResultType(op, Common(ta, tb)),
                   BinValue(op, ta, va, tb, vb))
  {
    Shape(p, m, live, ta, va);
    var m1 := After(p.quads, m);
    Shape(q, m1, p.live, tb, vb);
    var m2 := After(q.quads, m1);
    if vb.Some? { ValueKept(p.obj, m1, m2, p.live); }
    var c := CodeBin(op, p.obj, q.obj, q.live);
    BinMeans(op, p.obj, q.obj, q.live, m2, live);
    var ct := Common(ta, tb);
    var t := ResultType(op, ct);
    var v := Apply(op, ct, Wrap(ct, Value(p.obj, m2)), Wrap(ct, Value(q.obj, m2)));
    var qc := Part(q.quads + c.quads, c.obj, c.live);
    var rb := if vb.None? then None else v;
    Chain(q, c, qc, m1, p.live, live, tb, vb, t, v, rb);
    Chain(p, qc, Part(p.quads + qc.quads, c.obj, c.live), m, live, live, ta, va, t, rb, if va.None? then None else rb);
  }

  lemma NegAfter(p: Part, live: set<Reg>, m: Mem, ta: Type, va: Option<int>, t: Type, r: Option<int>)
    requires Yields(p, m, live, ta, va) && t == Type(ta.form, true)
    requires r == if va.None? then None else Some(Wrap(t, -va.value))
    ensures var c := CodeNeg(p.obj, p.live);
            Yields(Part(p.quads + c.quads, c.obj, c.live), m, live, t, r)
  {
    Shape(p, m, live, ta, va);
    var m1 := After(p.quads, m);
    var c := CodeNeg(p.obj, p.live);
    assert p.live - TempOf(p.obj) == live;
    NegMeans(p.obj, p.live, m1);
    var q := Part(p.quads + c.quads, c.obj, c.live);
    Chain(p, c, q, m, live, live, ta, va, t, Some(Wrap(t, -Value(p.obj, m1))), r);
  }

  lemma CastAfter(t: Type, p: Part, live: set<Reg>, m: Mem, ta: Type, va: Option<int>)
    requires Yields(p, m, live, ta, va)
    ensures var c := Coerce(p.obj, t, p.live);
            Yields(Part(p.quads + c.quads, c.obj, c.live), m, live, t, if va.None? then None else Some(Wrap(t, va.value)))
  {
    Shape(p, m, live, ta, va);
    var m1 := After(p.quads, m);
    var c := Coerce(p.obj, t, p.live);
    assert p.live - TempOf(p.obj) == live;
    ConvertMeans(p.obj, t, p.live, m1);
    Chain(p, c, Part(p.quads + c.quads, c.obj, c.live), m, live, live, ta, va, t, Some(Wrap(t, Value(p.obj, m1))),
          if va.None? then None else Some(Wrap(t, va.value)));
  }
}
