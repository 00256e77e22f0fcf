/** Jumps that are emitted before their target is known: where the return statements of
    a function leave theirs, and that filling them in gives the function's code. */
module MexPatch {
  import opened Wrappers
  import opened MexTypes
  import opened MexVm
  import opened MexSource
  import opened MexCode
  import opened MexFlow

  /** The target of a jump that has not been patched. */
  const HOLE: nat := 0xffff

  /** Patching overwrites the target of an instruction that has one. */
  function Retarget(q: Quad, to: nat): (r: Quad) {
    match q
    case QJz(f, arg, _) => QJz(f, arg, to)
    case QJnz(f, arg, _) => QJnz(f, arg, to)
    case QJmp(_) => QJmp(to)
    case QFuncStart(_) => QFuncStart(to)
    case _ => q
  }

  /** The addresses of the jumps of return statements, the latest first. */
  function RetJumps(s: Stmt, addr: nat, ret: Type): seq<nat> {
    match s
    case Then(a, b) => RetJumps(b, addr + Len(a, ret), ret) + RetJumps(a, addr, ret)
    case If(test, yes) => RetJumps(yes, addr + TestLen(test), ret)
    case IfElse(test, yes, no) =>
      var at := addr + TestLen(test);
      RetJumps(no, at + Len(yes, ret) + 1, ret) + RetJumps(yes, at, ret)
    case While(test, body) => RetJumps(body, addr + TestLen(test), ret)
    case DoWhile(body, test) => RetJumps(body, addr, ret)
    case For(init, test, post, body) => RetJumps(body, Labels(init, test, post, body, addr, ret).body, ret)
    case Return(_) => [addr + Len(s, ret) - 1]
    case _ => []
  }

  /** As Show, for what is known of the patches in some code. */
  predicate ShowPatch(before: seq<Quad>, u: nat) {
    u >= 0
  }

  /** after is before, from address addr, with the instructions at js retargeted. */
  ghost predicate PatchedBy(addr: nat, before: seq<Quad>, js: seq<nat>, to: nat, after: seq<Quad>) {
    && |after| == |before|
    && forall u: nat {:trigger ShowPatch(before, u)} :: ShowPatch(before, u) ==>
         && (forall j :: j in js ==> addr <= j < addr + |before|)
         && forall i :: 0 <= i < |before| ==> after[i] == if addr + i in js then Retarget(before[i], to) else before[i]
  }

  lemma PatchNone(addr: nat, qs: seq<Quad>, to: nat)
    ensures PatchedBy(addr, qs, [], to, qs)
  {
  }

  lemma PatchBoth(addr: nat, a: seq<Quad>, ja: seq<nat>, a2: seq<Quad>, b: seq<Quad>, jb: seq<nat>, b2: seq<Quad>, to: nat)
    requires PatchedBy(addr, a, ja, to, a2) && PatchedBy(addr + |a|, b, jb, to, b2)
    ensures PatchedBy(addr, a + b, jb + ja, to, a2 + b2)
  {
    assert ShowPatch(a, 0) && ShowPatch(b, 0);
    forall i | 0 <= i < |a + b|
      ensures (a2 + b2)[i] == if addr + i in jb + ja then Retarget((a + b)[i], to) else (a + b)[i]
    {
      if i < |a| {
        assert addr + i !in jb;
      } else {
        assert addr + i !in ja;
        assert (a2 + b2)[i] == b2[i - |a|];
        assert addr + |a| + (i - |a|) == addr + i;
      }
    }
  }

  lemma PatchLeft(addr: nat, a: seq<Quad>, b: seq<Quad>, jb: seq<nat>, b2: seq<Quad>, to: nat)
    requires PatchedBy(addr + |a|, b, jb, to, b2)
    ensures PatchedBy(addr, a + b, jb, to, a + b2)
  {
    PatchNone(addr, a, to);
    PatchBoth(addr, a, [], a, b, jb, b2, to);
    assert jb + [] == jb;
  }

  lemma PatchRight(addr: nat, a: seq<Quad>, ja: seq<nat>, a2: seq<Quad>, b: seq<Quad>, to: nat)
    requires PatchedBy(addr, a, ja, to, a2)
    ensures PatchedBy(addr, a + b, ja, to, a2 + b)
  {
    PatchNone(addr + |a|, b, to);
    PatchBoth(addr, a, ja, a2, b, [], b, to);
    assert [] + ja == ja;
  }

  // ---------------------------------------------------------------- code, piece by piece

  /** The quads of the statement from addr to end, for an end of the function at fin, and
      the addresses of its return jumps. */
  ghost predicate Written(s: Stmt, addr: nat, end: nat, ret: Type, fin: nat, c: seq<Quad>, j: seq<nat>) {
    && end == addr + |c|
    && forall u: nat {:trigger ShowOf(Writing, s, u)} :: ShowOf(Writing, s, u) ==> Same(c, Code(s, addr, ret, fin)) && Same(j, RetJumps(s, addr, ret))
  }

  /** The quads of an optional action. */
  ghost predicate MaybeIs(a: Option<Action>, qs: seq<Quad>) {
    forall u: nat {:trigger Show(Compiling, u)} :: Show(Compiling, u) ==> Same(qs, MaybeA(a))
  }

  /** The quads that leave the result of a return statement. */
  ghost predicate DeliverIs(a: Action, ret: Type, qs: seq<Quad>) {
    forall u: nat {:trigger Show(Compiling, u)} :: Show(Compiling, u) ==> Same(qs, Deliver(a, ret))
  }

  lemma {:induction false} WrittenSkip(addr: nat, ret: Type, fin: nat)
    ensures Written(Skip, addr, addr, ret, fin, [], [])
  {
  }

  lemma {:induction false} WrittenPerform(s: Stmt, addr: nat, ret: Type, fin: nat, p: Part)
    requires s.Perform? && ActionIs(s.action, p)
    ensures Written(s, addr, addr + |p.quads|, ret, fin, p.quads, [])
  {
    assert Show(Compiling, 0);
  }

  lemma {:induction false} WrittenThen(s: Stmt, addr: nat, at: nat, end: nat, ret: Type, fin: nat, a: seq<Quad>, ja: seq<nat>, b: seq<Quad>, jb: seq<nat>)
    requires s.Then? && Written(s.first, addr, at, ret, fin, a, ja) && Written(s.second, at, end, ret, fin, b, jb)
    ensures Written(s, addr, end, ret, fin, a + b, jb + ja)
  {
    WrittenParts(s.first, addr, at, ret, fin, a, ja);
    WrittenParts(s.second, at, end, ret, fin, b, jb);
  }

  lemma {:induction false} WrittenIf(s: Stmt, addr: nat, end: nat, ret: Type, fin: nat, p: Part, c: seq<Quad>, j: seq<nat>)
    requires s.If? && ActionIs(s.test, p) && Written(s.yes, addr + |p.quads| + 1, end, ret, fin, c, j)
    ensures Written(s, addr, end, ret, fin, p.quads + [TestQuad(p.obj, end, false)] + c, j)
  {
    assert Show(Compiling, 0);
    var at := addr + |p.quads| + 1;
    assert addr + TestLen(s.test) == at;
    WrittenParts(s.yes, at, end, ret, fin, c, j);
    IfParts(s, addr, at, end, ret, fin);
  }

  lemma {:induction false} IfParts(s: Stmt, addr: nat, at: nat, end: nat, ret: Type, fin: nat)
    requires s.If? && at == addr + TestLen(s.test) && end == at + Len(s.yes, ret)
    ensures end == addr + Len(s, ret)
    ensures Code(s, addr, ret, fin) == IfQuads(s.test, Code(s.yes, at, ret, fin), end)
    ensures RetJumps(s, addr, ret) == RetJumps(s.yes, at, ret)
  {
  }

  lemma {:induction false} WhileParts(s: Stmt, addr: nat, at: nat, end: nat, ret: Type, fin: nat)
    requires s.While? && at == addr + TestLen(s.test) && end == at + Len(s.body, ret) + 1
    ensures end == addr + Len(s, ret)
    ensures Code(s, addr, ret, fin) == WhileQuads(s.test, Code(s.body, at, ret, fin), addr, end)
    ensures RetJumps(s, addr, ret) == RetJumps(s.body, at, ret)
  {
  }

  lemma {:induction false} WrittenIfElse(s: Stmt, addr: nat, mid: nat, end: nat, ret: Type, fin: nat, p: Part, a: seq<Quad>, ja: seq<nat>,
                      b: seq<Quad>, jb: seq<nat>)
    requires s.IfElse? && ActionIs(s.test, p)
    requires Written(s.yes, addr + |p.quads| + 1, mid, ret, fin, a, ja) && Written(s.no, mid + 1, end, ret, fin, b, jb)
    ensures Written(s, addr, end, ret, fin, p.quads + [TestQuad(p.obj, mid + 1, false)] + (a + ([QJmp(end)] + b)), jb + ja)
  {
    TestIs(s.test, p, mid + 1);
    IfElseAs(s, addr, addr + |p.quads| + 1, mid, end, ret, fin, a, ja, b, jb);
  }

  lemma {:induction false} IfElseAs(s: Stmt, addr: nat, at: nat, mid: nat, end: nat, ret: Type, fin: nat, a: seq<Quad>, ja: seq<nat>,
                 b: seq<Quad>, jb: seq<nat>)
    requires s.IfElse? && at == addr + TestLen(s.test)
    requires Written(s.yes, at, mid, ret, fin, a, ja) && Written(s.no, mid + 1, end, ret, fin, b, jb)
    ensures Written(s, addr, end, ret, fin, IfElseQuads(s.test, a, b, mid + 1, end), jb + ja)
  {
    WrittenParts(s.yes, at, mid, ret, fin, a, ja);
    WrittenParts(s.no, mid + 1, end, ret, fin, b, jb);
    IfElseParts(s, addr, at, mid + 1, end, ret, fin);
  }

  lemma {:induction false} TestIs(a: Action, p: Part, target: nat)
    requires ActionIs(a, p)
    ensures Test(a, target, false) == p.quads + [TestQuad(p.obj, target, false)] && TestLen(a) == |p.quads| + 1
  {
    assert Show(Compiling, 0);
  }

  lemma {:induction false} WrittenParts(s: Stmt, addr: nat, end: nat, ret: Type, fin: nat, c: seq<Quad>, j: seq<nat>)
    requires Written(s, addr, end, ret, fin, c, j)
    ensures end == addr + Len(s, ret) && c == Code(s, addr, ret, fin) && j == RetJumps(s, addr, ret)
  {
    assert ShowOf(Writing, s, 0);
  }

  lemma {:induction false} IfElseParts(s: Stmt, addr: nat, at: nat, other: nat, end: nat, ret: Type, fin: nat)
    requires s.IfElse? && at == addr + TestLen(s.test) && other == at + Len(s.yes, ret) + 1 && end == other + Len(s.no, ret)
    ensures end == addr + Len(s, ret)
    ensures Code(s, addr, ret, fin) == IfElseQuads(s.test, Code(s.yes, at, ret, fin), Code(s.no, other, ret, fin), other, end)
    ensures RetJumps(s, addr, ret) == RetJumps(s.no, other, ret) + RetJumps(s.yes, at, ret)
  {
    IfElseLen(s, ret);
    IfElsePieces(s, addr, at, other, end, ret, fin);
    IfElseJumps(s, addr, at, other, ret);
  }

  lemma {:induction false} IfElseLen(s: Stmt, ret: Type)
    requires s.IfElse?
    ensures Len(s, ret) == TestLen(s.test) + Len(s.yes, ret) + 1 + Len(s.no, ret)
  {
  }

  lemma {:induction false} IfElsePieces(s: Stmt, addr: nat, at: nat, other: nat, end: nat, ret: Type, fin: nat)
    requires s.IfElse? && at == addr + TestLen(s.test) && other == at + Len(s.yes, ret) + 1 && end == addr + Len(s, ret)
    ensures Code(s, addr, ret, fin) == IfElseQuads(s.test, Code(s.yes, at, ret, fin), Code(s.no, other, ret, fin), other, end)
  {
  }

  lemma {:induction false} IfElseJumps(s: Stmt, addr: nat, at: nat, other: nat, ret: Type)
    requires s.IfElse? && at == addr + TestLen(s.test) && other == at + Len(s.yes, ret) + 1
    ensures RetJumps(s, addr, ret) == RetJumps(s.no, other, ret) + RetJumps(s.yes, at, ret)
  {
  }

  lemma {:induction false} WrittenWhile(s: Stmt, addr: nat, at: nat, ret: Type, fin: nat, p: Part, c: seq<Quad>, j: seq<nat>)
    requires s.While? && ActionIs(s.test, p) && Written(s.body, addr + |p.quads| + 1, at, ret, fin, c, j)
    ensures Written(s, addr, at + 1, ret, fin, p.quads + [TestQuad(p.obj, at + 1, false)] + (c + [QJmp(addr)]), j)
  {
    assert Show(Compiling, 0);
    var body := addr + |p.quads| + 1;
    assert addr + TestLen(s.test) == body;
    WrittenParts(s.body, body, at, ret, fin, c, j);
    WhileParts(s, addr, body, at + 1, ret, fin);
  }

  lemma {:induction false} WrittenDoWhile(s: Stmt, addr: nat, at: nat, ret: Type, fin: nat, p: Part, c: seq<Quad>, j: seq<nat>)
    requires s.DoWhile? && ActionIs(s.test, p) && Written(s.body, addr, at, ret, fin, c, j)
    ensures Written(s, addr, at + |p.quads| + 1, ret, fin, c + (p.quads + [TestQuad(p.obj, addr, true)]), j)
  {
    assert Show(Compiling, 0);
    WrittenParts(s.body, addr, at, ret, fin, c, j);
  }

  lemma {:induction false} WrittenFor(s: Stmt, addr: nat, l: Places, ret: Type, fin: nat, init: seq<Quad>, p: Part, post: seq<Quad>, c: seq<Quad>, j: seq<nat>)
    requires s.For? && MaybeIs(s.init, init) && ActionIs(s.test, p) && MaybeIs(s.post, post)
    requires l.test == addr + |init| && l.post == l.test + |p.quads| + 2 && l.body == l.post + |post| + 1 && l.done > 0
    requires Written(s.body, l.body, l.done - 1, ret, fin, c, j)
    ensures Written(s, addr, l.done, ret, fin,
                    init + (p.quads + [TestQuad(p.obj, l.done, false)]
                            + ([QJmp(l.body)] + (post + ([QJmp(l.test)] + (c + [QJmp(l.post)]))))), j)
  {
    assert Show(Compiling, 0);
    WrittenParts(s.body, l.body, l.done - 1, ret, fin, c, j);
    assert l == Labels(s.init, s.test, s.post, s.body, addr, ret);
  }

  lemma {:induction false} WrittenReturn(s: Stmt, addr: nat, ret: Type, fin: nat, qs: seq<Quad>)
    requires s.Return? && if s.value.Some? then DeliverIs(s.value.value, ret, qs) else qs == []
    ensures Written(s, addr, addr + |qs| + 1, ret, fin, qs + [QJmp(fin)], [addr + |qs|])
  {
    assert Show(Compiling, 0);
    assert s.value.None? ==> qs + [QJmp(fin)] == [QJmp(fin)];
    assert RetJumps(s, addr, ret) == [addr + |qs|];
  }

  // ---------------------------------------------------------------- the end of the function

  lemma Compiled(a: Action) returns (p: Part)
    ensures ActionIs(a, p)
  {
    p := CodeA(a);
  }

  /** Patching the return jumps of a statement's code gives the code for the end of the
      function they are patched with. */
  lemma {:induction false} PatchReturns(s: Stmt, addr: nat, ret: Type, fin: nat)
    returns (end: nat, c: seq<Quad>, j: seq<nat>, c2: seq<Quad>)
    ensures Written(s, addr, end, ret, HOLE, c, j) && Written(s, addr, end, ret, fin, c2, j) && PatchedBy(addr, c, j, fin, c2)
    decreases s, 1
  {
    match s
    case Skip =>
      end, c, j, c2 := addr, [], [], [];
      WrittenSkip(addr, ret, HOLE);
      WrittenSkip(addr, ret, fin);
      PatchNone(addr, [], fin);
    case Perform(a) =>
      var p := Compiled(a);
      end, c, j, c2 := addr + |p.quads|, p.quads, [], p.quads;
      WrittenPerform(s, addr, ret, HOLE, p);
      WrittenPerform(s, addr, ret, fin, p);
      PatchNone(addr, c, fin);
    case Then(a, b) => end, c, j, c2 := PatchThen(s, addr, ret, fin);
    case If(test, yes) => end, c, j, c2 := PatchIf(s, addr, ret, fin);
    case IfElse(test, yes, no) => end, c, j, c2 := PatchIfElse(s, addr, ret, fin);
    case While(test, body) => end, c, j, c2 := PatchWhile(s, addr, ret, fin);
    case DoWhile(body, test) => end, c, j, c2 := PatchDoWhile(s, addr, ret, fin);
    case For(init, test, post, body) => end, c, j, c2 := PatchFor(s, addr, ret, fin);
    case Return(value) => end, c, j, c2 := PatchReturn(s, addr, ret, fin);
  }

  lemma {:induction false} PatchThen(s: Stmt, addr: nat, ret: Type, fin: nat) returns (end: nat, c: seq<Quad>, j: seq<nat>, c2: seq<Quad>)
    requires s.Then?
    ensures Written(s, addr, end, ret, HOLE, c, j) && Written(s, addr, end, ret, fin, c2, j) && PatchedBy(addr, c, j, fin, c2)
    decreases s, 0
  {
    var at, a, ja, a2 := PatchReturns(s.first, addr, ret, fin);
    var b, jb, b2;
    end, b, jb, b2 := PatchReturns(s.second, at, ret, fin);
    c, j, c2 := a + b, jb + ja, a2 + b2;
    WrittenThen(s, addr, at, end, ret, HOLE, a, ja, b, jb);
    WrittenThen(s, addr, at, end, ret, fin, a2, ja, b2, jb);
    PatchBoth(addr, a, ja, a2, b, jb, b2, fin);
  }

  lemma {:induction false} PatchIf(s: Stmt, addr: nat, ret: Type, fin: nat) returns (end: nat, c: seq<Quad>, j: seq<nat>, c2: seq<Quad>)
    requires s.If?
    ensures Written(s, addr, end, ret, HOLE, c, j) && Written(s, addr, end, ret, fin, c2, j) && PatchedBy(addr, c, j, fin, c2)
    decreases s, 0
  {
    var p := Compiled(s.test);
    var a, a2;
    end, a, j, a2 := PatchReturns(s.yes, addr + |p.quads| + 1, ret, fin);
    var t := p.quads + [TestQuad(p.obj, end, false)];
    c, c2 := t + a, t + a2;
    WrittenIf(s, addr, end, ret, HOLE, p, a, j);
    WrittenIf(s, addr, end, ret, fin, p, a2, j);
    PatchLeft(addr, t, a, j, a2, fin);
  }

  lemma {:induction false} PatchIfElse(s: Stmt, addr: nat, ret: Type, fin: nat) returns (end: nat, c: seq<Quad>, j: seq<nat>, c2: seq<Quad>)
    requires s.IfElse?
    ensures Written(s, addr, end, ret, HOLE, c, j) && Written(s, addr, end, ret, fin, c2, j) && PatchedBy(addr, c, j, fin, c2)
    decreases s, 0
  {
    var p := Compiled(s.test);
    var at := addr + |p.quads| + 1;
    var mid, a, ja, a2 := PatchReturns(s.yes, at, ret, fin);
    var b, jb, b2;
    end, b, jb, b2 := PatchReturns(s.no, mid + 1, ret, fin);
    var t, q := p.quads + [TestQuad(p.obj, mid + 1, false)], [QJmp(end)];
    c, j, c2 := t + (a + (q + b)), jb + ja, t + (a2 + (q + b2));
    WrittenIfElse(s, addr, mid, end, ret, HOLE, p, a, ja, b, jb);
    WrittenIfElse(s, addr, mid, end, ret, fin, p, a2, ja, b2, jb);
    PatchLeft(mid, q, b, jb, b2, fin);
    PatchBoth(at, a, ja, a2, q + b, jb, q + b2, fin);
    PatchLeft(addr, t, a + (q + b), j, a2 + (q + b2), fin);
  }

  lemma {:induction false} PatchWhile(s: Stmt, addr: nat, ret: Type, fin: nat) returns (end: nat, c: seq<Quad>, j: seq<nat>, c2: seq<Quad>)
    requires s.While?
    ensures Written(s, addr, end, ret, HOLE, c, j) && Written(s, addr, end, ret, fin, c2, j) && PatchedBy(addr, c, j, fin, c2)
    decreases s, 0
  {
    var p := Compiled(s.test);
    var at := addr + |p.quads| + 1;
    var mid, a, a2;
    mid, a, j, a2 := PatchReturns(s.body, at, ret, fin);
    end := mid + 1;
    var t, q := p.quads + [TestQuad(p.obj, end, false)], [QJmp(addr)];
    c, c2 := t + (a + q), t + (a2 + q);
    WrittenWhile(s, addr, mid, ret, HOLE, p, a, j);
    WrittenWhile(s, addr, mid, ret, fin, p, a2, j);
    PatchRight(at, a, j, a2, q, fin);
    PatchLeft(addr, t, a + q, j, a2 + q, fin);
  }

  lemma {:induction false} PatchDoWhile(s: Stmt, addr: nat, ret: Type, fin: nat) returns (end: nat, c: seq<Quad>, j: seq<nat>, c2: seq<Quad>)
    requires s.DoWhile?
    ensures Written(s, addr, end, ret, HOLE, c, j) && Written(s, addr, end, ret, fin, c2, j) && PatchedBy(addr, c, j, fin, c2)
    decreases s, 0
  {
    var p := Compiled(s.test);
    var mid, a, a2;
    mid, a, j, a2 := PatchReturns(s.body, addr, ret, fin);
    end := mid + |p.quads| + 1;
    var t := p.quads + [TestQuad(p.obj, addr, true)];
    c, c2 := a + t, a2 + t;
    WrittenDoWhile(s, addr, mid, ret, HOLE, p, a, j);
    WrittenDoWhile(s, addr, mid, ret, fin, p, a2, j);
    PatchRight(addr, a, j, a2, t, fin);
  }

  lemma {:induction false} PatchFor(s: Stmt, addr: nat, ret: Type, fin: nat) returns (end: nat, c: seq<Quad>, j: seq<nat>, c2: seq<Quad>)
    requires s.For?
    ensures Written(s, addr, end, ret, HOLE, c, j) && Written(s, addr, end, ret, fin, c2, j) && PatchedBy(addr, c, j, fin, c2)
    decreases s, 0
  {
    var init, post := MaybeA(s.init), MaybeA(s.post);
    var p := Compiled(s.test);
    var test := addr + |init|;
    var postAt := test + |p.quads| + 2;
    var body := postAt + |post| + 1;
    var mid, a, a2;
    mid, a, j, a2 := PatchReturns(s.body, body, ret, fin);
    end := mid + 1;
    var l := Places(test, postAt, body, end);
    var t, q1, q2, q3 := p.quads + [TestQuad(p.obj, end, false)], [QJmp(l.body)], [QJmp(l.test)], [QJmp(l.post)];
    c, c2 := init + (t + (q1 + (post + (q2 + (a + q3))))), init + (t + (q1 + (post + (q2 + (a2 + q3)))));
    WrittenFor(s, addr, l, ret, HOLE, init, p, post, a, j);
    WrittenFor(s, addr, l, ret, fin, init, p, post, a2, j);
    PatchInside(addr, init, t, q1, post, q2, a, j, a2, q3, fin);
  }

  /** Code patched only in its innermost piece. */
  lemma PatchInside(addr: nat, init: seq<Quad>, t: seq<Quad>, q1: seq<Quad>, post: seq<Quad>, q2: seq<Quad>,
                    a: seq<Quad>, j: seq<nat>, a2: seq<Quad>, q3: seq<Quad>, to: nat)
    requires PatchedBy(addr + |init| + |t| + |q1| + |post| + |q2|, a, j, to, a2)
    ensures PatchedBy(addr, init + (t + (q1 + (post + (q2 + (a + q3))))), j, to, init + (t + (q1 + (post + (q2 + (a2 + q3))))))
  {
    var at := addr + |init| + |t| + |q1|;
    PatchRight(at + |post| + |q2|, a, j, a2, q3, to);
    PatchLeft(at + |post|, q2, a + q3, j, a2 + q3, to);
    PatchLeft(at, post, q2 + (a + q3), j, q2 + (a2 + q3), to);
    PatchLeftThree(addr, init, t, q1, post + (q2 + (a + q3)), j, post + (q2 + (a2 + q3)), to);
  }

  lemma PatchLeftThree(addr: nat, a: seq<Quad>, b: seq<Quad>, c: seq<Quad>, d: seq<Quad>, j: seq<nat>, d2: seq<Quad>, to: nat)
    requires PatchedBy(addr + |a| + |b| + |c|, d, j, to, d2)
    ensures PatchedBy(addr, a + (b + (c + d)), j, to, a + (b + (c + d2)))
  {
    PatchLeft(addr + |a| + |b|, c, d, j, d2, to);
    PatchLeft(addr + |a|, b, c + d, j, c + d2, to);
    PatchLeft(addr, a, b + (c + d), j, b + (c + d2), to);
  }

  lemma {:induction false} PatchReturn(s: Stmt, addr: nat, ret: Type, fin: nat) returns (end: nat, c: seq<Quad>, j: seq<nat>, c2: seq<Quad>)
    requires s.Return?
    ensures Written(s, addr, end, ret, HOLE, c, j) && Written(s, addr, end, ret, fin, c2, j) && PatchedBy(addr, c, j, fin, c2)
    decreases s, 0
  {
    var qs := if s.value.None? then [] else Deliver(s.value.value, ret);
    end, c, j, c2 := addr + |qs| + 1, qs + [QJmp(HOLE)], [addr + |qs|], qs + [QJmp(fin)];
    WrittenReturn(s, addr, ret, HOLE, qs);
    WrittenReturn(s, addr, ret, fin, qs);
    PatchLeft(addr, qs, [QJmp(HOLE)], j, [QJmp(fin)], fin);
  }
}
