/** The quads of actions and statements, with every jump in place. */
module MexFlow {
  import opened Wrappers
  import opened MexTypes
  import opened MexVm
  import opened MexSource
  import opened MexCode

  /** An action starts with no temporary in use. */
  function CodeA(a: Action): Part {
    match a
    case Pure(e) => CodeE(e, {})
    case Assign(t, ofs, source) =>
      var p := CodeA(source);
      var c := Coerce(p.obj, t, p.live);
      Part(p.quads + (c.quads + [QAssign(t.form, c.obj.arg, Ar(ofs))]), Obj(t, At(Ar(ofs))), c.live - TempOf(c.obj))
  }

  /** The part is what an action is compiled to. */
  ghost predicate ActionIs(a: Action, p: Part) {
    forall u: nat {:trigger Show(Compiling, u)} :: Show(Compiling, u) ==> Same(p, CodeA(a))
  }

  function MaybeA(a: Option<Action>): seq<Quad> {
    if a.None? then [] else CodeA(a.value).quads
  }

  /** As Show, for what is known of one statement only. */
  predicate ShowOf(topic: Topic, s: Stmt, u: nat) {
    topic == topic && s == s && u + 1 > u
  }

  /** The jump after a test: taken when the test is true, for `back`, or else when it is
      false. */
  function TestQuad(o: Obj, target: nat, back: bool): (q: Quad)
    ensures Jump(q)
  {
    if back then QJnz(o.t.form, o.arg, target) else QJz(o.t.form, o.arg, target)
  }

  function Test(a: Action, target: nat, back: bool): (qs: seq<Quad>)
    ensures |qs| == TestLen(a)
  {
    CodeA(a).quads + [TestQuad(CodeA(a).obj, target, back)]
  }

  function TestLen(a: Action): nat {
    |CodeA(a).quads| + 1
  }

  /** The value of a return statement, brought to the function's type, goes to the
      register for results. */
  function Deliver(a: Action, ret: Type): seq<Quad> {
    var p := CodeA(a);
    var c := Coerce(p.obj, ret, p.live);
    p.quads + (c.quads + [QAssign(ret.form, c.obj.arg, TempAt(Reg(ret.form, 0)))])
  }

  function Len(s: Stmt, ret: Type): nat {
    match s
    case Skip => 0
    case Then(a, b) => Len(a, ret) + Len(b, ret)
    case Perform(a) => |CodeA(a).quads|
    case If(test, yes) => TestLen(test) + Len(yes, ret)
    case IfElse(test, yes, no) => TestLen(test) + Len(yes, ret) + 1 + Len(no, ret)
    case While(test, body) => TestLen(test) + Len(body, ret) + 1
    case DoWhile(body, test) => Len(body, ret) + TestLen(test)
    case For(init, test, post, body) =>
      ForLen(init, test, post, Len(body, ret))
    case Return(None) => 1
    case Return(Some(a)) => |Deliver(a, ret)| + 1
  }

  function ForLen(init: Option<Action>, test: Action, post: Option<Action>, body: nat): nat {
    |MaybeA(init)| + TestLen(test) + 1 + |MaybeA(post)| + 1 + body + 1
  }

  function IfQuads(test: Action, yes: seq<Quad>, end: nat): (c: seq<Quad>)
    ensures |c| == TestLen(test) + |yes|
  {
    Test(test, end, false) + yes
  }

  function IfElseQuads(test: Action, yes: seq<Quad>, no: seq<Quad>, other: nat, end: nat): (c: seq<Quad>)
    ensures |c| == TestLen(test) + |yes| + 1 + |no|
  {
    Test(test, other, false) + (yes + ([QJmp(end)] + no))
  }

  function WhileQuads(test: Action, body: seq<Quad>, addr: nat, end: nat): (c: seq<Quad>)
    ensures |c| == TestLen(test) + |body| + 1
  {
    Test(test, end, false) + (body + [QJmp(addr)])
  }

  function DoWhileQuads(body: seq<Quad>, test: Action, addr: nat): (c: seq<Quad>)
    ensures |c| == |body| + TestLen(test)
  {
    body + Test(test, addr, true)
  }

  /** Initial action, test, post action, body: the post action comes before the body, and
      jumps lead from the test to the body, from there to the post action, and back. */
  function ForQuads(init: Option<Action>, test: Action, post: Option<Action>, body: seq<Quad>, l: Places): (c: seq<Quad>)
    ensures |c| == ForLen(init, test, post, |body|)
  {
    MaybeA(init) + (Test(test, l.done, false) + ([QJmp(l.body)] + (MaybeA(post) + ([QJmp(l.test)] + (body + [QJmp(l.post)])))))
  }

  /** The quads of a statement placed at addr, in a function whose result has type ret
      and whose end is at fin. */
  function Code(s: Stmt, addr: nat, ret: Type, fin: nat): (c: seq<Quad>)
    ensures |c| == Len(s, ret)
  {
    match s
    case Skip => []
    case Then(a, b) => Code(a, addr, ret, fin) + Code(b, addr + Len(a, ret), ret, fin)
    case Perform(a) => CodeA(a).quads
    case If(test, yes) => IfQuads(test, Code(yes, addr + TestLen(test), ret, fin), addr + Len(s, ret))
    case IfElse(test, yes, no) =>
      var at := addr + TestLen(test);
      var other := at + Len(yes, ret) + 1;
      IfElseQuads(test, Code(yes, at, ret, fin), Code(no, other, ret, fin), other, addr + Len(s, ret))
    case While(test, body) => WhileQuads(test, Code(body, addr + TestLen(test), ret, fin), addr, addr + Len(s, ret))
    case DoWhile(body, test) => DoWhileQuads(Code(body, addr, ret, fin), test, addr)
    case For(init, test, post, body) =>
      var l := Labels(init, test, post, body, addr, ret);
      ForQuads(init, test, post, Code(body, l.body, ret, fin), l)
    case Return(None) => [QJmp(fin)]
    case Return(Some(a)) => Deliver(a, ret) + [QJmp(fin)]
  }

  /** Where the pieces of a for loop are. */
  datatype Places = Places(test: nat, post: nat, body: nat, done: nat)

  function Labels(init: Option<Action>, test: Action, post: Option<Action>, body: Stmt, addr: nat, ret: Type): Places {
    var t := addr + |MaybeA(init)|;
    var p := t + TestLen(test) + 1;
    var b := p + |MaybeA(post)| + 1;
    Places(t, p, b, b + Len(body, ret) + 1)
  }

  // ---------------------------------------------------------------- actions

  /** The part's quads have the action's effect on the frame and leave its value in the
      part's object, which alone may still be in a temporary. */
  ghost predicate Performs(p: Part, m: Mem, t: Type, r: Option<(Frame, int)>) {
    forall u: nat {:trigger Show(Performing, u)} :: Show(Performing, u) ==>
      && AllPlain(p.quads)
      && p.obj.t == t
      && p.live == TempOf(p.obj)
      && RunQ(p.quads, m).Some? == r.Some?
      && (r.Some? ==>
            && After(p.quads, m).frame == r.value.0
            && After(p.quads, m).stack == m.stack
            && Value(p.obj, After(p.quads, m)) == r.value.1)
  }

  lemma PerformShape(p: Part, m: Mem, t: Type, r: Option<(Frame, int)>)
    requires Performs(p, m, t, r)
    ensures AllPlain(p.quads) && p.obj.t == t && p.live == TempOf(p.obj) && RunQ(p.quads, m).Some? == r.Some?
    ensures r.Some? ==>
              && After(p.quads, m).frame == r.value.0
              && After(p.quads, m).stack == m.stack
              && Value(p.obj, After(p.quads, m)) == r.value.1
  {
    assert Show(Performing, 0);
  }

  /** One quad that assigns a converted value. */
  lemma AssignQuad(t: Type, o: Obj, ofs: int, m: Mem)
    requires o.t == t
    ensures var m2 := m.(frame := Store(m.frame, t.form, ofs, Raw(t.form, Value(o, m))));
            && RunQ([QAssign(t.form, o.arg, Ar(ofs))], m) == Some(m2)
            && Value(Obj(t, At(Ar(ofs))), m2) == Value(o, m)
  {
    var bits := Fetch(m, t.form, o.arg);
    RunOne(QAssign(t.form, o.arg, Ar(ofs)), m);
    RawOfVal(t, bits);
    LoadStore(m.frame, t.form, ofs, bits, t.form, ofs);
  }

  lemma WrapRaw(t: Type, v: int)
    ensures Raw(t.form, Wrap(t, v)) == Raw(t.form, v)
  {
    RawOfVal(t, Raw(t.form, v));
  }

  lemma AssignMeans(t: Type, ofs: int, p: Part, m: Mem, t1: Type, r: Option<(Frame, int)>)
    requires Performs(p, m, t1, r)
    ensures var c := Coerce(p.obj, t, p.live);
            Performs(Part(p.quads + (c.quads + [QAssign(t.form, c.obj.arg, Ar(ofs))]), Obj(t, At(Ar(ofs))), c.live - TempOf(c.obj)),
                     m, t, if r.None? then None else Some((Store(r.value.0, t.form, ofs, Raw(t.form, r.value.1)), Wrap(t, r.value.1))))
  {
    PerformShape(p, m, t1, r);
    var m1 := After(p.quads, m);
    var c := Coerce(p.obj, t, p.live);
    var v := Wrap(t, Value(p.obj, m1));
    ConvertMeans(p.obj, t, p.live, m1);
    Shape(c, m1, p.live - TempOf(p.obj), t, Some(v));
    WrapRaw(t, Value(p.obj, m1));
    StoreMeans(p, c, t, ofs, m, m1, r, v);
  }

  lemma StoreMeans(p: Part, c: Part, t: Type, ofs: int, m: Mem, m1: Mem, r: Option<(Frame, int)>, v: int)
    requires AllPlain(p.quads) && AllPlain(c.quads) && RunQ(p.quads, m).Some? == r.Some? && m1 == After(p.quads, m)
    requires r.Some? ==> m1.frame == r.value.0 && m1.stack == m.stack && Raw(t.form, v) == Raw(t.form, r.value.1) && v == Wrap(t, r.value.1)
    requires c.obj.t == t && c.live == TempOf(c.obj) && RunQ(c.quads, m1).Some?
    requires Kept(m1, After(c.quads, m1), {}) && Value(c.obj, After(c.quads, m1)) == v
    ensures Performs(Part(p.quads + (c.quads + [QAssign(t.form, c.obj.arg, Ar(ofs))]), Obj(t, At(Ar(ofs))), c.live - TempOf(c.obj)),
                     m, t, if r.None? then None else Some((Store(r.value.0, t.form, ofs, Raw(t.form, r.value.1)), Wrap(t, r.value.1))))
  {
    var m2 := After(c.quads, m1);
    var q := [QAssign(t.form, c.obj.arg, Ar(ofs))];
    AssignQuad(t, c.obj, ofs, m2);
    RunSplit(c.quads, q, m1);
    RunSplit(p.quads, c.quads + q, m);
  }

  lemma PureMeans(p: Part, m: Mem, t: Type, v: Option<int>)
    requires Yields(p, m, {}, t, v)
    ensures Performs(p, m, t, if v.None? then None else Some((m.frame, v.value)))
  {
    Shape(p, m, {}, t, v);
  }

  /** The quads of an action, run from any memory, do what the action does. */
  lemma {:induction false} ActionMeans(a: Action, m: Mem)
    ensures Performs(CodeA(a), m, ActionType(a), Act(a, m.frame))
  {
    match a
    case Pure(e) =>
      ExprMeans(e, {}, m);
      PureMeans(CodeE(e, {}), m, TypeOf(e), Eval(e, m.frame));
    case Assign(t, ofs, source) =>
      ActionMeans(source, m);
      AssignMeans(t, ofs, CodeA(source), m, ActionType(source), Act(source, m.frame));
  }
}
