/** Functions and calls as the compiler emits them, with the sizes that it records, are
    what a whole call needs. */
module MexProgram {
  import opened Wrappers
  import opened MexTypes
  import opened MexVm
  import opened MexSource
  import opened MexCode
  import opened MexFlow
  import opened MexTemps
  import opened MexGen
  import opened MexRegs
  import opened MexCall
  import opened MexStack
  import opened MexReturn
  import opened MexCompiler
  import opened MexCalls
  import MexSymbols
  import MexScope

  // ---------------------------------------------------------------- functions

  lemma CallableWhen(code: seq<Quad>, c: Callee, body: Stmt)
    requires c.fin == c.f + 1 + Len(body, c.ret) < |code|
    requires code[c.f] == QFuncStart(c.arSize) && code[c.fin] == QFuncRet(ArgBytes(c.types), c.arSize)
    requires code[c.f + 1..c.fin] == Code(body, c.f + 1, c.ret, c.fin)
    requires Fits(body, 100) && StmtIn(Area(c.arSize, ArgBytes(c.types)), body)
    ensures Callable(code, c, body)
  {
    CodeTidy(Area(c.arSize, ArgBytes(c.types)), body, c.f + 1, c.ret, c.fin);
  }

  /** Compile a function: the bytes that its return takes off are those that its
      declaration lays out, and its frame has the size that its declarations came to. */
  method CompileCallable(g: Generator, types: seq<Type>, body: Stmt, ret: Type, arSize: nat) returns (ghost c: Callee)
    requires g.Valid() && g.inUse == {} && g.frPatch == []
    requires Fits(body, 100) && StmtIn(Area(arSize, ArgBytes(types)), body)
    modifies g
    ensures g.Valid() && g.inUse == {} && g.frPatch == [] && old(g.quads) <= g.quads
    ensures c == Callee(|old(g.quads)|, c.fin, ret, types, arSize) && Callable(g.quads, c, body)
  {
    ghost var f := |g.quads|;
    var offsets, argSize := FunctionArgs(types);
    ArgBytesAre(types);
    var start;
    ghost var fin;
    FitsMore(body, 100, 1000);
    start, fin := CompileFunction(g, body, ret, argSize, arSize);
    c := Callee(f, fin, ret, types, arSize);
    FinIs(g.quads, start, fin, body, ret);
    CallableWhen(g.quads, c, body);
  }

  lemma FinIs(code: seq<Quad>, start: nat, fin: nat, body: Stmt, ret: Type)
    requires start <= fin <= |code| && code[start..fin] == Code(body, start, ret, fin)
    ensures fin == start + Len(body, ret)
  {
    assert |code[start..fin]| == fin - start;
  }

  // ---------------------------------------------------------------- places in the frame

  /** A variable that is declared wherever compiling has got to lies in the area below
      the base that the frame is given. */
  lemma LocalInArea(st: MexScope.St, max: nat, i: nat, f: Form, args: nat)
    requires MexScope.Roomy(st, max) && i < |st.decls| && MexScope.Held(st.decls[i])
    requires st.decls[i].what.Variable? && st.decls[i].what.size == Size(f)
    ensures Within(Area(max, args), f, st.decls[i].what.ofs)
  {
    assert MexScope.InFrame(st.decls[i], st.offset);
  }

  /** And each argument in the area above the control data. */
  lemma {:induction false} ArgInArea(types: seq<Type>, i: nat, locals: nat)
    requires i < |types|
    ensures Within(Area(locals, ArgBytes(types)), types[i].form, ArgOffset(types, i))
    decreases |types|
  {
    var n := |types| - 1;
    ArgBytesAre(types);
    ArgBytesAre(types[..n]);
    OffsetPrefix(types, n, i);
    OffsetPrefix(types, n, n);
    OffsetLow(types, i);
    if i < n { ArgInArea(types[..n], i, locals); }
  }

  lemma {:induction false} BytesBefore(args: seq<(string, nat)>, types: seq<Type>, i: nat)
    requires i <= |args| == |types| && forall j :: 0 <= j < |args| ==> args[j].1 == Size(types[j].form)
    ensures 16 + MexScope.Bytes(args[..i]) == ArgOffset(types, i)
  {
    if i > 0 {
      BytesBefore(args, types, i - 1);
      BytesLast(args[..i - 1], args[i - 1]);
      assert args[..i] == args[..i - 1] + [args[i - 1]];
    }
  }

  lemma {:induction false} BytesLast(args: seq<(string, nat)>, last: (string, nat))
    ensures MexScope.Bytes(args + [last]) == MexScope.Bytes(args) + last.1
  {
    if args == [] {
      assert [last][1..] == [];
    } else {
      assert (args + [last])[1..] == args[1..] + [last];
      BytesLast(args[1..], last);
    }
  }

  /** The symbol table gives each argument the offset at which the caller's pushes put it. */
  lemma ArgDeclared(args: seq<(string, nat)>, types: seq<Type>, st: MexScope.St, i: nat)
    requires i < |args| == |types| && forall j :: 0 <= j < |args| ==> args[j].1 == Size(types[j].form)
    requires forall j :: 0 <= j < |args| ==> !MexSymbols.Declared(st.decls, st.scope, args[j].0)
    requires forall j, k :: 0 <= j < k < |args| ==> args[j].0 != args[k].0
    ensures
      var d := MexScope.EnterArgs(args, AR_CONTROL_DATA, st).decls;
      |d| >= |args| && d[|args| - 1 - i] == MexSymbols.Attr(args[i].0, false, st.scope, MexSymbols.Argument(ArgOffset(types, i), Size(types[i].form)))
  {
    MexScope.ArgsLaidOut(args, AR_CONTROL_DATA, st, i);
    BytesBefore(args, types, i);
  }

  // ---------------------------------------------------------------- calls

  /** Emit a call of a function, its arguments being evaluated. */
  method CompileCall(g: Generator, args: seq<Obj>, c: Callee, res: Option<Type>, id: nat) returns (o: Option<Obj>, ghost t: Site)
    requires g.Valid() && Apart(args, |args|, g.inUse) && |g.inUse| + 1 < MAX_TEMP
    requires |args| == |c.types| && (res.Some? ==> res.value == c.ret)
    modifies g`quads, g`temp, g`inUse
    ensures g.Valid() && Proper(t, c) && t.args == args && t.live == old(g.inUse) && t.id == id && t.res == res
    ensures g.quads == old(g.quads) + t.begin + [QFuncJump(id)] + t.finish
    ensures o == if res.None? then None else Some(InTemp(c.ret, Fresh(t.end, c.ret.form)))
    ensures g.inUse == t.end + if res.None? then {} else {Fresh(t.end, c.ret.form)}
    ensures t.end == t.live - ArgTemps(args, |args|)
  {
    ghost var rs, live, before := SavedOf(g.temp), g.inUse, g.quads;
    NoResultReg(g, c.ret);
    CallersRegs(g);
    t := MakeSite(rs, args, live, c, res, id);
    ghost var qs, end := ArgCode(args, c.types, |args|, live).0, ArgCode(args, c.types, |args|, live).1;
    var ok;
    ok, o := EndFuncCall(g, args, c.types, res, id);
    ArgsLive(args, c.types, |args|, live);
    Regroup(before, Pushes(rs) + qs, QFuncJump(id), Pops(rs), ResultMove(res, end));
  }

  lemma NoResultReg(g: Generator, ret: Type)
    requires g.Valid()
    ensures Reg(ret.form, 0) !in g.inUse
  {
    assert ShowLists(g.temp, 0);
    NeverResult(g.temp, ret.form);
  }

  lemma MakeSite(rs: seq<Saved>, args: seq<Obj>, live: set<Reg>, c: Callee, res: Option<Type>, id: nat) returns (t: Site)
    requires |args| == |c.types| && Apart(args, |args|, live) && Lists(rs, live) && Reg(c.ret.form, 0) !in live
    requires res.Some? ==> res.value == c.ret
    ensures Proper(t, c)
    ensures
      var a := ArgCode(args, c.types, |args|, live);
      t == Site(rs, args, live, id, res, Pushes(rs) + a.0, Pops(rs) + ResultMove(res, a.1), a.1)
  {
    var a := ArgCode(args, c.types, |args|, live);
    t := Site(rs, args, live, id, res, Pushes(rs) + a.0, Pops(rs) + ResultMove(res, a.1), a.1);
  }

  lemma Regroup(before: seq<Quad>, a: seq<Quad>, q: Quad, b: seq<Quad>, d: seq<Quad>)
    ensures before + a + [q] + b + d == before + a + [q] + (b + d)
  {
  }

  predicate LowRegs(live: set<Reg>) {
    forall r :: r in live ==> 0 <= r.k < MAX_REGS
  }

  lemma {:induction false} SavesInFile(rs: seq<Saved>, live: set<Reg>)
    requires (forall x :: x in rs ==> Slot(x.0, x.1) in live) && LowRegs(live)
    ensures AllInFile(Pushes(rs)) && AllInFile(Pops(rs)) && AllAbove(0, Pushes(rs))
  {
    if rs != [] {
      assert rs[0] in rs;
      SavesInFile(rs[1..], live);
    }
  }

  lemma {:induction false} ArgsTidy(b: Area, args: seq<Obj>, types: seq<Type>, n: nat, live: set<Reg>, qs: seq<Quad>, end: set<Reg>)
    requires b.Area? && ArgsAre(args, types, n, live, qs, end) && |live| + 1 < MAX_REGS
    requires forall i :: 0 <= i < n ==> TidyObj(b, args[i])
    ensures AllInFile(qs) && AllAbove(0 - b.locals, qs)
    decreases n
  {
    if n == 0 {
      ArgsNone(args, types, live, qs, end);
    } else {
      var o, t := args[n - 1], types[n - 1];
      var q, rest := ArgsStep(args, types, n, live, qs, end);
      SubsetCount(live - TempOf(o), live);
      ArgsTidy(b, args, types, n - 1, live - TempOf(o), rest, end);
      OneTidy(b, o, t, live, q);
    }
  }

  lemma OneTidy(b: Area, o: Obj, t: Type, live: set<Reg>, q: seq<Quad>)
    requires b.Area? && TidyObj(b, o) && OneArg(o, t, live, q) && |live| + 1 < MAX_REGS
    ensures AllInFile(q) && AllAbove(0 - b.locals, q)
  {
    assert Show(Topic.Routine, 0);
    CoerceTidy(b, o, t, live);
    CoercedForm(o, t, live);
    TidyAbove(b, Coerce(o, t, live).quads);
  }

  /** If fewer registers are in use than the machine has, the call keeps to them and to
      the caller's area. */
  lemma SiteTidy(b: Area, t: Site, c: Callee)
    requires b.Area? && Proper(t, c) && LowRegs(t.live) && |t.live| + 1 < MAX_REGS
    requires forall i :: 0 <= i < |t.args| ==> TidyObj(b, t.args[i])
    ensures AllInFile(t.begin) && AllInFile(t.finish) && AllAbove(0 - b.locals, t.begin)
  {
    assert Show(Calling, 0);
    var a := ArgCode(t.args, c.types, |t.args|, t.live);
    assert ArgsAre(t.args, c.types, |t.args|, t.live, a.0, a.1);
    ArgsTidy(b, t.args, c.types, |t.args|, t.live, a.0, a.1);
    SavesInFile(t.rs, t.live);
    ResultInFile(b, t, c);
    assert AllAbove(0 - b.locals, Pushes(t.rs));
  }

  lemma ResultInFile(b: Area, t: Site, c: Callee)
    requires Proper(t, c) && |t.live| + 1 < MAX_REGS
    requires t.res.Some? ==> t.res.value == c.ret
    ensures AllInFile(ResultMove(t.res, t.end))
  {
    EndIsLive(t, c, Mem(map[], map[], []));
    SubsetCount(t.end, t.live);
    FreshReal(t.end, c.ret.form, b);
  }

  /** A compiled call of a compiled function, from the caller's state to what comes after
      it. */
  lemma CompiledCall(code: seq<Quad>, entry: map<nat, nat>, b: Area, t: Site, c: Callee, body: Stmt, m: Mem, w: World, at: nat)
    returns (frame: Frame)
    requires b.Area? && Proper(t, c) && LowRegs(t.live) && |t.live| + 1 < MAX_REGS
    requires forall i :: 0 <= i < |t.args| ==> TidyObj(b, t.args[i])
    requires at == w.ip + |t.begin| + 1 + |t.finish| <= |code| < SPACE
    requires code[w.ip..at] == t.begin + [QFuncJump(t.id)] + t.finish
    requires Callable(code, c, body) && t.id in entry && entry[t.id] == c.f
    requires Sim(m, w, w.bp - b.locals) && 0 <= w.bp < SPACE
    ensures Begun(frame, c, Values(t.args, |t.args|, m))
    ensures forall fuel: nat :: Comes(code, entry, t, c, m, w.bp - b.locals, w, at, Exec(body, frame, c.ret, fuel))
  {
    SiteTidy(b, t, c);
    CalledWhen(code, w.ip, at, t, 0 - b.locals);
    frame := CallAcross(code, entry, t, c, body, m, w, w.bp - b.locals, at);
  }

  lemma CalledWhen(code: seq<Quad>, ip: nat, at: nat, t: Site, lo: int)
    requires at == ip + |t.begin| + 1 + |t.finish| <= |code| && code[ip..at] == t.begin + [QFuncJump(t.id)] + t.finish
    requires AllInFile(t.begin) && AllInFile(t.finish) && AllAbove(lo, t.begin)
    ensures Called(code, ip, t, lo)
  {
    var all, k := code[ip..at], |t.begin|;
    assert code[ip..ip + k] == all[..k] && code[ip + k] == all[k] && code[ip + k + 1..at] == all[k + 1..];
  }
}
