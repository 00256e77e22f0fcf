/** Programs whose functions call each other: what they mean, and the code of a call with
    the arguments before it and the assignment after it. */
module MexCalls {
  import opened Wrappers
  import opened MexTypes
  import opened MexVm
  import opened MexSource
  import opened MexCode
  import opened MexFlow
  import opened MexRegs
  import opened MexCall
  import opened MexReturn
  import opened MexLocal

  // ---------------------------------------------------------------- programs

  /** A piece of a function's body: a statement without calls, or a call, whose result may
      be assigned to a variable. */
  datatype Piece = Piece(s: Stmt) | Invoke(id: nat, args: seq<Expr>, dest: Option<(Type, int)>)

  /** A function: the types of its arguments and its result, its body, and the bytes of its
      locals. */
  datatype Routine = Routine(types: seq<Type>, ret: Type, isVoid: bool, body: seq<Piece>, arSize: nat)

  /** The values of the arguments; none, if one has none. */
  function EvalAll(args: seq<Expr>, frame: Frame): (v: Option<seq<int>>)
    ensures v.Some? ==> |v.value| == |args|
  {
    if args == [] then Some([])
    else
      var first, rest := Eval(args[0], frame), EvalAll(args[1..], frame);
      if first.None? || rest.None? then None else Some([first.value] + rest.value)
  }

  /** A frame with the first n arguments at their offsets and zero elsewhere. */
  function Passed(types: seq<Type>, values: seq<int>, n: nat): Frame
    requires n <= |types| == |values|
  {
    if n == 0 then map[]
    else Store(Passed(types, values, n - 1), types[n - 1].form, ArgOffset(types, n - 1), Raw(types[n - 1].form, values[n - 1]))
  }

  /** The frame after the value has been assigned, if it is to be. */
  function Assigned(frame: Frame, dest: Option<(Type, int)>, v: int): Frame {
    if dest.None? then frame else Store(frame, dest.value.0.form, dest.value.1, Raw(dest.value.0.form, v))
  }

  /** How the calling function goes on when the one it called has ended.  Nothing is said
      of the result of a function that ends without one. */
  function AfterCall(o: Outcome, frame: Frame, dest: Option<(Type, int)>): Option<Outcome> {
    match o
    case OutOfFuel => Some(OutOfFuel)
    case Fault => Some(Fault)
    case Normal(_) => if dest.None? then Some(Normal(frame)) else None
    case Returned(_, v) =>
      if dest.None? then Some(Normal(frame)) else if v.None? then None else Some(Normal(Assigned(frame, dest, v.value)))
  }

  /** The rest of a function's body, in a program whose calls are nested at most fuel deep
      and whose loops go round at most fuel times; none, where nothing is said. */
  function Execute(prog: seq<Routine>, ps: seq<Piece>, frame: Frame, ret: Type, fuel: nat): Option<Outcome>
    decreases fuel, |ps|
  {
    if ps == [] then Some(Normal(frame))
    else
      var o := ExecutePiece(prog, ps[0], frame, ret, fuel);
      if o.Some? && o.value.Normal? then Execute(prog, ps[1..], o.value.frame, ret, fuel) else o
  }

  function ExecutePiece(prog: seq<Routine>, p: Piece, frame: Frame, ret: Type, fuel: nat): Option<Outcome>
    decreases fuel, 0
  {
    match p
    case Piece(s) => Some(Exec(s, frame, ret, fuel))
    case Invoke(id, args, dest) =>
      var v := EvalAll(args, frame);
      if v.None? then Some(Fault)
      else if id >= |prog| || |args| != |prog[id].types| then None
      else if fuel == 0 then Some(OutOfFuel)
      else
        var o := ExecuteCall(prog, id, v.value, fuel - 1);
        if o.None? then None else AfterCall(o.value, frame, dest)
  }

  /** A call of a function with these values. */
  function ExecuteCall(prog: seq<Routine>, id: nat, values: seq<int>, fuel: nat): Option<Outcome>
    requires id < |prog| && |values| == |prog[id].types|
    decreases fuel, |prog[id].body| + 1
  {
    Execute(prog, prog[id].body, Passed(prog[id].types, values, |values|), prog[id].ret, fuel)
  }

  /** More fuel does not change what has ended. */
  lemma {:induction false} ExecuteMore(prog: seq<Routine>, ps: seq<Piece>, frame: Frame, ret: Type, fuel: nat, more: nat)
    requires fuel <= more && Execute(prog, ps, frame, ret, fuel) != Some(OutOfFuel)
    ensures Execute(prog, ps, frame, ret, more) == Execute(prog, ps, frame, ret, fuel)
    decreases fuel, |ps|
  {
    if ps != [] {
      PieceMore(prog, ps[0], frame, ret, fuel, more);
      var o := ExecutePiece(prog, ps[0], frame, ret, fuel);
      if o.Some? && o.value.Normal? { ExecuteMore(prog, ps[1..], o.value.frame, ret, fuel, more); }
    }
  }

  lemma {:induction false} PieceMore(prog: seq<Routine>, p: Piece, frame: Frame, ret: Type, fuel: nat, more: nat)
    requires fuel <= more && ExecutePiece(prog, p, frame, ret, fuel) != Some(OutOfFuel)
    ensures ExecutePiece(prog, p, frame, ret, more) == ExecutePiece(prog, p, frame, ret, fuel)
    decreases fuel, 0
  {
    match p
    case Piece(s) => MoreFuel(s, frame, ret, fuel, more);
    case Invoke(id, args, dest) =>
      var v := EvalAll(args, frame);
      if v.Some? && id < |prog| && |args| == |prog[id].types| {
        var r := prog[id];
        ExecuteMore(prog, r.body, Passed(r.types, v.value, |args|), r.ret, fuel - 1, more - 1);
      }
  }

  // ---------------------------------------------------------------- arguments

  datatype Args = Args(quads: seq<Quad>, objs: seq<Obj>, live: set<Reg>)

  /** The code of the arguments of a call, each held in its object while the next ones are
      computed. */
  function CodeArgs(args: seq<Expr>, live: set<Reg>): (a: Args)
    ensures |a.objs| == |args|
  {
    if args == [] then Args([], [], live)
    else
      var p := CodeE(args[0], live);
      var rest := CodeArgs(args[1..], p.live);
      Args(p.quads + rest.quads, [p.obj] + rest.objs, rest.live)
  }

  /** The code leaves the values in the objects and keeps the frame and the temporaries
      that were in use; or it stops, if there is a value missing. */
  ghost predicate Holds(qs: seq<Quad>, objs: seq<Obj>, live: set<Reg>, v: Option<seq<int>>, m: Mem) {
    && AllPlain(qs) && RunQ(qs, m).Some? == v.Some?
    && (v.Some? ==>
          && |v.value| == |objs| && Kept(m, After(qs, m), live)
          && forall i :: 0 <= i < |objs| ==> Value(objs[i], After(qs, m)) == v.value[i])
  }

  lemma {:induction false} ArgsMean(args: seq<Expr>, live: set<Reg>, m: Mem)
    ensures var a := CodeArgs(args, live);
            Holds(a.quads, a.objs, live, EvalAll(args, m.frame), m) && live <= a.live
    decreases args
  {
    if args == [] {
      assert RunQ([], m) == Some(m);
    } else {
      var p := CodeE(args[0], live);
      ExprMeans(args[0], live, m);
      Shape(p, m, live, TypeOf(args[0]), Eval(args[0], m.frame));
      var m1 := After(p.quads, m);
      var rest := CodeArgs(args[1..], p.live);
      ArgsMean(args[1..], p.live, m1);
      ArgsOn(p.quads, p.obj, live, p.live, Eval(args[0], m.frame), rest.quads, rest.objs, EvalAll(args[1..], m1.frame), m);
    }
  }

  lemma ArgsOn(qs: seq<Quad>, o: Obj, live: set<Reg>, live1: set<Reg>, v: Option<int>, rest: seq<Quad>, objs: seq<Obj>,
               vs: Option<seq<int>>, m: Mem)
    requires AllPlain(qs) && RunQ(qs, m).Some? == v.Some? && live1 == live + TempOf(o)
    requires v.Some? ==> Kept(m, After(qs, m), live) && Value(o, After(qs, m)) == v.value
    requires Holds(rest, objs, live1, vs, After(qs, m))
    ensures Holds(qs + rest, [o] + objs, live, if v.None? || vs.None? then None else Some([v.value] + vs.value), m)
  {
    RunSplit(qs, rest, m);
    if v.Some? && vs.Some? {
      var m1 := After(qs, m);
      var m2 := After(rest, m1);
      assert After(qs + rest, m) == m2;
      ValueKept(o, m1, m2, live1);
      KeptOn(m, m1, m2, live, live1);
      assert forall i :: 0 < i < |[o] + objs| ==> ([o] + objs)[i] == objs[i - 1] && ([v.value] + vs.value)[i] == vs.value[i - 1];
    }
  }

  lemma KeptOn(m: Mem, m1: Mem, m2: Mem, live: set<Reg>, live1: set<Reg>)
    requires Kept(m, m1, live) && Kept(m1, m2, live1) && live <= live1
    ensures Kept(m, m2, live)
  {
    assert Show(Keeping, 0);
  }

  lemma {:induction false} ValuesAre(objs: seq<Obj>, n: nat, m: Mem, v: seq<int>)
    requires n <= |objs| == |v| && forall i :: 0 <= i < n ==> Value(objs[i], m) == v[i]
    ensures Values(objs, n, m) == v[..n]
  {
    if n > 0 {
      ValuesAre(objs, n - 1, m, v);
      assert v[..n] == v[..n - 1] + [v[n - 1]];
    }
  }

  // ---------------------------------------------------------------- the frame of a call

  lemma LoadedByte(frame: Frame, f: Form, ofs: int, v: nat, i: int)
    requires Load(frame, f, ofs) == v && ofs <= i < ofs + Size(f)
    ensures ByteAt(frame, i) == Digit(v, i - ofs)
  {
    match f
    case FormByte =>
    case FormWord => assert v / 0x100 == ByteAt(frame, ofs + 1);
    case FormDword => FourBytes(ByteAt(frame, ofs), ByteAt(frame, ofs + 1), ByteAt(frame, ofs + 2), ByteAt(frame, ofs + 3), v);
  }

  lemma FourBytes(a: nat, b: nat, c: nat, d: nat, v: nat)
    requires a < 0x100 && b < 0x100 && c < 0x100 && d < 0x100 && v == a + 0x100 * b + 0x1_0000 * c + 0x100_0000 * d
    ensures Digit(v, 0) == a && Digit(v, 1) == b && Digit(v, 2) == c && Digit(v, 3) == d
  {
    assert v / 0x100 == b + 0x100 * c + 0x1_0000 * d;
    assert v / 0x1_0000 == c + 0x100 * d;
    assert v / 0x100_0000 == d;
  }

  /** Which argument a byte belongs to. */
  lemma {:induction false} ArgOfByte(types: seq<Type>, n: nat, i: int) returns (k: nat)
    requires n <= |types| && AR_CONTROL_DATA <= i < ArgOffset(types, n)
    ensures k < n && ArgOffset(types, k) <= i < ArgOffset(types, k) + Size(types[k].form)
  {
    k := n - 1;
    if i < ArgOffset(types, k) { k := ArgOfByte(types, k, i); }
  }

  lemma {:induction false} PassedElse(types: seq<Type>, values: seq<int>, n: nat, i: int)
    requires n <= |types| == |values| && i < AR_CONTROL_DATA
    ensures ByteAt(Passed(types, values, n), i) == 0
  {
    if n > 0 {
      var k := n - 1;
      PassedElse(types, values, k, i);
      OffsetLow(types, k);
      StoredByte(Passed(types, values, k), types[k].form, ArgOffset(types, k), Raw(types[k].form, values[k]), i);
    }
  }

  lemma {:induction false} OffsetLow(types: seq<Type>, i: nat)
    requires i <= |types|
    ensures ArgOffset(types, i) >= AR_CONTROL_DATA
  {
    if i > 0 { OffsetLow(types, i - 1); }
  }

  lemma {:induction false} OffsetsGrow(types: seq<Type>, k: nat, n: nat)
    requires k < n <= |types|
    ensures ArgOffset(types, k) + Size(types[k].form) <= ArgOffset(types, n)
  {
    if k < n - 1 { OffsetsGrow(types, k, n - 1); }
  }

  lemma {:induction false} PassedByte(types: seq<Type>, values: seq<int>, n: nat, k: nat, ofs: int, i: int)
    requires k < n <= |types| == |values| && ofs == ArgOffset(types, k) <= i < ofs + Size(types[k].form)
    ensures ByteAt(Passed(types, values, n), i) == Digit(Raw(types[k].form, values[k]), i - ofs)
  {
    var j := n - 1;
    StoredByte(Passed(types, values, j), types[j].form, ArgOffset(types, j), Raw(types[j].form, values[j]), i);
    if k < j {
      PassedByte(types, values, j, k, ofs, i);
      OffsetsGrow(types, k, j);
    }
  }

  /** A function that finds its arguments where they are declared and zero in its locals
      finds all that it can see as in the frame its meaning begins with. */
  lemma BegunAlike(c: Callee, values: seq<int>, frame: Frame)
    requires |values| == |c.types| && Begun(frame, c, values)
    ensures Alike(Area(c.arSize, ArgBytes(c.types)), Passed(c.types, values, |c.types|), frame)
  {
    var b, n := Area(c.arSize, ArgBytes(c.types)), |c.types|;
    ArgBytesAre(c.types);
    forall i | InArea(b, i)
      ensures ByteAt(Passed(c.types, values, n), i) == ByteAt(frame, i)
    {
      if i < 0 {
        PassedElse(c.types, values, n, i);
      } else {
        var k := ArgOfByte(c.types, n, i);
        PassedByte(c.types, values, n, k, ArgOffset(c.types, k), i);
        LoadedByte(frame, c.types[k].form, ArgOffset(c.types, k), Raw(c.types[k].form, values[k]), i);
      }
    }
  }

  // ---------------------------------------------------------------- the assignment

  /** The object that holds the result of a call. */
  function ResultObj(ret: Type): Obj {
    InTemp(ret, Fresh({}, ret.form))
  }

  /** The quads that assign the result of a call. */
  function DestQuads(dest: Option<(Type, int)>, ret: Type): seq<Quad> {
    if dest.None? then []
    else
      var t := dest.value.0;
      var c := Coerce(ResultObj(ret), t, TempOf(ResultObj(ret)));
      c.quads + [QAssign(t.form, c.obj.arg, Ar(dest.value.1))]
  }

  lemma DestMeans(t: Type, ofs: int, ret: Type, m: Mem, v: int) returns (m2: Mem)
    requires Value(ResultObj(ret), m) == v
    ensures var qs := DestQuads(Some((t, ofs)), ret);
            AllPlain(qs) && RunQ(qs, m) == Some(m2)
    ensures m2.frame == Store(m.frame, t.form, ofs, Raw(t.form, v)) && m2.stack == m.stack
  {
    var o, qs := ResultObj(ret), DestQuads(Some((t, ofs)), ret);
    var p := Part([], o, TempOf(o));
    var r := Some((m.frame, v));
    assert RunQ([], m) == Some(m) && After([], m) == m;
    assert Performs(p, m, ret, r);
    AssignMeans(t, ofs, p, m, ret, r);
    var c := Coerce(o, t, p.live);
    var whole := Part(p.quads + (c.quads + [QAssign(t.form, c.obj.arg, Ar(ofs))]), Obj(t, At(Ar(ofs))), c.live - TempOf(c.obj));
    assert whole.quads == qs;
    PerformShape(whole, m, t, Some((Store(m.frame, t.form, ofs, Raw(t.form, v)), Wrap(t, v))));
    m2 := RunQ(qs, m).value;
  }
}
