/** A program of several functions as the compiler emits it: each call among the statements
    around it, and the functions one after another, laid out as MexWhole asks. */
module MexUnit {
  import opened Wrappers
  import opened MexTypes
  import opened MexVm
  import opened MexSource
  import opened MexCode
  import opened MexFlow
  import opened MexPatch
  import opened MexTemps
  import opened MexGen
  import opened MexRegs
  import opened MexCall
  import opened MexStack
  import opened MexReturn
  import opened MexProgram
  import opened MexCalls
  import opened MexWhole

  // ---------------------------------------------------------------- arguments

  /** How many temporaries the arguments of a call can need beside those in use. */
  function NeedAll(args: seq<Expr>): nat {
    if args == [] then 0 else Max(Need(args[0]), 1 + NeedAll(args[1..]))
  }

  lemma {:induction false} NeedAllBound(args: seq<Expr>, n: nat)
    requires forall e :: e in args ==> Nesting(e) <= n
    ensures NeedAll(args) <= |args| + n + 5
  {
    if args != [] {
      NeedBound(args[0]);
      NeedAllBound(args[1..], n);
    }
  }

  /** The arguments of a call, from left to right, each held while the next ones are
      computed. */
  method GenArgs(g: Generator, args: seq<Expr>) returns (objs: seq<Obj>)
    requires g.Valid() && |g.inUse| + NeedAll(args) < MAX_TEMP
    modifies g`quads, g`temp, g`inUse
    ensures var a := CodeArgs(args, old(g.inUse));
            g.Valid() && g.quads == old(g.quads) + a.quads && objs == a.objs && g.inUse == a.live
    decreases |args|
  {
    if args == [] {
      objs := [];
    } else {
      ghost var live, before := g.inUse, g.quads;
      ghost var p;
      var o;
      o, p := g.Expression(args[0]);
      ExprShape(args[0], live, p);
      var rest := GenArgs(g, args[1..]);
      objs := [o] + rest;
      FirstArg(args, live, p, before);
    }
  }

  lemma {:induction false} FirstArg(args: seq<Expr>, live: set<Reg>, p: Part, before: seq<Quad>)
    requires args != [] && ExprIs(args[0], live, p)
    ensures var rest := CodeArgs(args[1..], p.live);
            && CodeArgs(args, live) == Args(p.quads + rest.quads, [p.obj] + rest.objs, rest.live)
            && before + p.quads + rest.quads == before + CodeArgs(args, live).quads
  {
    assert Show(Compiling, 0);
  }

  /** No temporary holds two of the arguments. */
  lemma {:induction false} ArgsShape(args: seq<Expr>, live: set<Reg>)
    ensures var a := CodeArgs(args, live);
            && live <= a.live && |a.live| <= |live| + NeedAll(args)
            && (forall i :: 0 <= i < |a.objs| ==> TempOf(a.objs[i]) <= a.live - live)
            && (forall i, k :: 0 <= i < k < |a.objs| ==> TempOf(a.objs[i]) !! TempOf(a.objs[k]))
            && forall r :: r in a.live ==> r in live || exists i :: 0 <= i < |a.objs| && r in TempOf(a.objs[i])
    decreases args
  {
    if args != [] {
      var p := CodeE(args[0], live);
      ExprShape(args[0], live, p);
      ArgsShape(args[1..], p.live);
      MoreArgs(p.obj, live, p.live, CodeArgs(args[1..], p.live));
    }
  }

  lemma MoreArgs(o: Obj, live: set<Reg>, live1: set<Reg>, a: Args)
    requires live1 == live + TempOf(o) && TempOf(o) !! live && live1 <= a.live
    requires forall i :: 0 <= i < |a.objs| ==> TempOf(a.objs[i]) <= a.live - live1
    requires forall i, k :: 0 <= i < k < |a.objs| ==> TempOf(a.objs[i]) !! TempOf(a.objs[k])
    requires forall r :: r in a.live ==> r in live1 || exists i :: 0 <= i < |a.objs| && r in TempOf(a.objs[i])
    ensures var objs := [o] + a.objs;
            && (forall i :: 0 <= i < |objs| ==> TempOf(objs[i]) <= a.live - live)
            && (forall i, k :: 0 <= i < k < |objs| ==> TempOf(objs[i]) !! TempOf(objs[k]))
            && forall r :: r in a.live ==> r in live || exists i :: 0 <= i < |objs| && r in TempOf(objs[i])
  {
    var objs := [o] + a.objs;
    assert forall i :: 1 <= i < |objs| ==> objs[i] == a.objs[i - 1];
    forall r | r in a.live
      ensures r in live || exists i :: 0 <= i < |objs| && r in TempOf(objs[i])
    {
      if r !in live {
        if r in TempOf(o) {
          assert r in TempOf(objs[0]);
        } else {
          var i :| 0 <= i < |a.objs| && r in TempOf(a.objs[i]);
          assert r in TempOf(objs[i + 1]);
        }
      }
    }
  }

  lemma {:induction false} InArgTemps(objs: seq<Obj>, n: nat, i: nat, r: Reg)
    requires i < n <= |objs| && r in TempOf(objs[i])
    ensures r in ArgTemps(objs, n)
  {
    if i < n - 1 { InArgTemps(objs, n - 1, i, r); }
  }

  /** Once they have been passed, no temporary is in use. */
  lemma {:induction false} ArgsAll(args: seq<Expr>)
    ensures var a := CodeArgs(args, {});
            Apart(a.objs, |a.objs|, a.live) && a.live - ArgTemps(a.objs, |a.objs|) == {}
  {
    var a := CodeArgs(args, {});
    ArgsShape(args, {});
    forall r | r in a.live
      ensures r in ArgTemps(a.objs, |a.objs|)
    {
      var i :| 0 <= i < |a.objs| && r in TempOf(a.objs[i]);
      InArgTemps(a.objs, |a.objs|, i, r);
    }
  }

  lemma {:induction false} ArgsInFile(b: Area, args: seq<Expr>, live: set<Reg>)
    requires (forall e :: e in args ==> VarsIn(b, e)) && |live| + NeedAll(args) < MAX_REGS
    ensures var a := CodeArgs(args, live);
            AllTidy(b, a.quads) && forall i :: 0 <= i < |a.objs| ==> TidyObj(b, a.objs[i])
    decreases args
  {
    if args != [] {
      var p := CodeE(args[0], live);
      ExprShape(args[0], live, p);
      ExprTidy(b, args[0], live);
      ArgsInFile(b, args[1..], p.live);
    }
  }

  lemma ArgsLow(b: Area, args: seq<Expr>)
    requires (forall e :: e in args ==> VarsIn(b, e)) && NeedAll(args) < MAX_REGS
    ensures LowRegs(CodeArgs(args, {}).live)
  {
    var a := CodeArgs(args, {});
    ArgsShape(args, {});
    ArgsInFile(b, args, {});
    forall r | r in a.live
      ensures 0 <= r.k < MAX_REGS
    {
      var i :| 0 <= i < |a.objs| && r in TempOf(a.objs[i]);
      assert TidyObj(b, a.objs[i]);
    }
  }

  // ---------------------------------------------------------------- a call

  /** What a call has to know of a function. */
  function Header(r: Routine): Callee {
    Callee(0, 0, r.ret, r.types, r.arSize)
  }

  /** A call of a known function whose arguments fit into the registers. */
  predicate CallFits(prog: seq<Routine>, b: Area, p: Piece) {
    p.Invoke? && PieceIn(prog, b, p) && NeedAll(p.args) + 1 < 100
  }

  /** The quads of a call: its arguments, the sequence around the jump, the assignment. */
  function CallCode(p: Piece, t: Site, ret: Type): seq<Quad>
    requires p.Invoke?
  {
    CodeArgs(p.args, {}).quads + (t.begin + ([QFuncJump(p.id)] + (t.finish + DestQuads(p.dest, ret))))
  }

  /** The sequence is that of the call, and the quads keep to the registers and the area. */
  ghost predicate SiteFits(b: Area, r: Routine, p: Piece, t: Site)
    requires b.Area? && p.Invoke?
  {
    && Proper(t, Header(r)) && t.id == p.id && t.args == CodeArgs(p.args, {}).objs && t.end == {}
    && t.res == (if r.isVoid then None else Some(r.ret))
    && AllInFile(t.begin) && AllInFile(t.finish) && AllAbove(0 - b.locals, t.begin)
    && AllTidy(b, CodeArgs(p.args, {}).quads) && AllTidy(b, DestQuads(p.dest, r.ret))
  }

  /** Emit a call and, if it is to be, the assignment of its result. */
  method GenInvoke(g: Generator, prog: seq<Routine>, ghost b: Area, p: Piece) returns (ghost t: Site)
    requires g.Valid() && g.inUse == {} && b.Area? && CallFits(prog, b, p)
    modifies g`quads, g`temp, g`inUse
    ensures g.Valid() && g.inUse == {} && SiteFits(b, prog[p.id], p, t)
    ensures g.quads == old(g.quads) + CallCode(p, t, prog[p.id].ret)
  {
    ghost var before := g.quads;
    var o;
    o, t := GenSite(g, prog, b, p);
    ghost var d := GenDest(g, p.dest, o, prog[p.id].ret);
    CallJoin(before, CodeArgs(p.args, {}).quads, t.begin, QFuncJump(p.id), t.finish, d);
  }

  /** The arguments and the calling sequence. */
  method GenSite(g: Generator, prog: seq<Routine>, ghost b: Area, p: Piece) returns (o: Option<Obj>, ghost t: Site)
    requires g.Valid() && g.inUse == {} && b.Area? && CallFits(prog, b, p)
    modifies g`quads, g`temp, g`inUse
    ensures g.Valid() && SiteFits(b, prog[p.id], p, t) && o == if prog[p.id].isVoid then None else Some(ResultObj(prog[p.id].ret))
    ensures g.inUse == if o.Some? then TempOf(ResultObj(prog[p.id].ret)) else {}
    ensures g.quads == old(g.quads) + CodeArgs(p.args, {}).quads + t.begin + [QFuncJump(p.id)] + t.finish
  {
    ArgsShape(p.args, {});
    ArgsAll(p.args);
    var r := prog[p.id];
    var res := if r.isVoid then None else Some(r.ret);
    var objs := GenArgs(g, p.args);
    o, t := CompileCall(g, objs, Header(r), res, p.id);
    SlotOfTemp(Fresh({}, r.ret.form));
    assert t.end == {} && TempOf(ResultObj(r.ret)) == {Fresh({}, r.ret.form)};
    assert g.inUse == if r.isVoid then {} else {Fresh({}, r.ret.form)};
    SiteIs(b, prog, p, t);
  }

  /** The result of the call goes to the variable, or nowhere. */
  method GenDest(g: Generator, dest: Option<(Type, int)>, o: Option<Obj>, ret: Type) returns (ghost d: seq<Quad>)
    requires g.Valid() && (dest.Some? ==> o.Some?) && (o.Some? ==> o.value == ResultObj(ret))
    requires g.inUse == if o.Some? then TempOf(ResultObj(ret)) else {}
    modifies g`quads, g`temp, g`inUse
    ensures g.Valid() && g.inUse == {} && g.quads == old(g.quads) + d && d == DestQuads(dest, ret)
  {
    d := [];
    if dest.Some? {
      var r;
      r, d := g.EvalAssign(dest.value.0, dest.value.1, o.value);
      assert d == DestQuads(dest, ret) by { assert Show(Compiling, 0); }
    } else if o.Some? {
      g.MaybeFreeTemporary(o.value);
    }
  }

  lemma CallJoin(before: seq<Quad>, a: seq<Quad>, x: seq<Quad>, q: Quad, y: seq<Quad>, d: seq<Quad>)
    ensures before + a + x + [q] + y + d == before + (a + (x + ([q] + (y + d))))
  {
  }

  lemma SiteIs(b: Area, prog: seq<Routine>, p: Piece, t: Site)
    requires b.Area? && CallFits(prog, b, p) && Proper(t, Header(prog[p.id])) && t.id == p.id
    requires t.args == CodeArgs(p.args, {}).objs && t.live == CodeArgs(p.args, {}).live && t.end == {}
    requires t.res == if prog[p.id].isVoid then None else Some(prog[p.id].ret)
    ensures SiteFits(b, prog[p.id], p, t)
  {
    ArgsShape(p.args, {});
    ArgsInFile(b, p.args, {});
    ArgsLow(b, p.args);
    SiteTidy(b, t, Header(prog[p.id]));
    DestTidy(b, p.dest, prog[p.id].ret);
  }

  lemma DestTidy(b: Area, dest: Option<(Type, int)>, ret: Type)
    requires dest.Some? ==> Within(b, dest.value.0.form, dest.value.1)
    ensures AllTidy(b, DestQuads(dest, ret))
  {
    if dest.Some? {
      var o := ResultObj(ret);
      FreshReal({}, ret.form, b);
      CountTemp(o);
      CoerceTidy(b, o, dest.value.0, TempOf(o));
      CoercedForm(o, dest.value.0, TempOf(o));
    }
  }

  /** Such quads in the code are a call as the whole program needs it. */
  lemma CallStands(code: seq<Quad>, c: Callee, k: Callee, r: Routine, p: Piece, t: Site, at: nat, end: nat)
    requires p.Invoke? && SiteFits(AreaOf(c), r, p, t) && (k.types, k.ret) == (r.types, r.ret)
    requires end == at + |CallCode(p, t, r.ret)| <= |code| && code[at..end] == CallCode(p, t, r.ret)
    requires p.dest.Some? ==> Within(AreaOf(c), p.dest.value.0.form, p.dest.value.1)
    ensures CallAt(code, c, k, r.isVoid, p, t, at, end)
  {
    var a, d := CodeArgs(p.args, {}).quads, DestQuads(p.dest, r.ret);
    var call, back := FiveParts(code, at, end, a, t.begin, QFuncJump(p.id), t.finish, d);
    assert ArgsAt(code, c, p.args, at, call);
    SiteStands(code, c, k, r, p, t, call, back);
    assert DestAt(code, c, k, p.dest, back, end);
  }

  lemma SiteStands(code: seq<Quad>, c: Callee, k: Callee, r: Routine, p: Piece, t: Site, call: nat, back: nat)
    requires p.Invoke? && SiteFits(AreaOf(c), r, p, t) && (k.types, k.ret) == (r.types, r.ret)
    requires back == call + |t.begin| + 1 + |t.finish| <= |code| && code[call..call + |t.begin|] == t.begin
    requires code[call + |t.begin|] == QFuncJump(p.id) && code[call + |t.begin| + 1..back] == t.finish
    ensures SiteAt(code, c, k, r.isVoid, p.id, p.args, t, call, back)
  {
    ProperFor(t, Header(r), k);
  }

  lemma FiveParts(code: seq<Quad>, at: nat, end: nat, a: seq<Quad>, x: seq<Quad>, q: Quad, y: seq<Quad>, d: seq<Quad>)
    returns (call: nat, back: nat)
    requires at <= end <= |code| && code[at..end] == a + (x + ([q] + (y + d)))
    ensures call == at + |a| && back == call + |x| + 1 + |y| && end == back + |d|
    ensures code[at..call] == a && code[call..call + |x|] == x && code[call + |x|] == q
    ensures code[call + |x| + 1..back] == y && code[back..end] == d
  {
    var all := code[at..end];
    assert |all| == |a| + |x| + 1 + |y| + |d|;
    call, back := at + |a|, at + |a| + |x| + 1 + |y|;
    TwoParts(code, at, end, a, x + ([q] + (y + d)));
    TwoParts(code, call, end, x, [q] + (y + d));
    TwoParts(code, call + |x|, end, [q], y + d);
    TwoParts(code, call + |x| + 1, end, y, d);
    assert code[call + |x|..call + |x| + 1][0] == q;
  }

  lemma TwoParts(code: seq<Quad>, at: nat, end: nat, a: seq<Quad>, b: seq<Quad>)
    requires at <= end <= |code| && code[at..end] == a + b
    ensures at + |a| + |b| == end && code[at..at + |a|] == a && code[at + |a|..end] == b
  {
    assert |code[at..end]| == end - at;
    assert code[at..at + |a|] == code[at..end][..|a|] && code[at + |a|..end] == code[at..end][|a|..];
  }

  lemma ProperFor(t: Site, c: Callee, k: Callee)
    requires Proper(t, c) && (k.types, k.ret) == (c.types, c.ret)
    ensures Proper(t, k)
  {
    assert Show(Calling, 0);
  }

  // ---------------------------------------------------------------- a body

  function PieceCode(prog: seq<Routine>, p: Piece, t: Site, at: nat, ret: Type, fin: nat): seq<Quad>
    requires p.Invoke? ==> p.id < |prog|
  {
    if p.Piece? then Code(p.s, at, ret, fin) else CallCode(p, t, prog[p.id].ret)
  }

  function PieceJumps(p: Piece, at: nat, ret: Type): seq<nat> {
    if p.Piece? then RetJumps(p.s, at, ret) else []
  }

  function PieceLen(prog: seq<Routine>, p: Piece, t: Site, ret: Type): nat
    requires p.Invoke? ==> p.id < |prog|
  {
    if p.Piece? then Len(p.s, ret) else |CallCode(p, t, prog[p.id].ret)|
  }

  predicate Known(prog: seq<Routine>, ps: seq<Piece>) {
    forall i :: 0 <= i < |ps| && ps[i].Invoke? ==> ps[i].id < |prog|
  }

  /** The code of the pieces of a body from an address on, for an end of the function at
      fin. */
  function BodyCode(prog: seq<Routine>, ps: seq<Piece>, ts: seq<Site>, at: nat, ret: Type, fin: nat): seq<Quad>
    requires Known(prog, ps) && |ts| == |ps|
  {
    if ps == [] then []
    else
      PieceCode(prog, ps[0], ts[0], at, ret, fin)
      + BodyCode(prog, ps[1..], ts[1..], at + PieceLen(prog, ps[0], ts[0], ret), ret, fin)
  }

  /** The return jumps in it, the latest first. */
  function BodyJumps(prog: seq<Routine>, ps: seq<Piece>, ts: seq<Site>, at: nat, ret: Type): seq<nat>
    requires Known(prog, ps) && |ts| == |ps|
  {
    if ps == [] then []
    else
      BodyJumps(prog, ps[1..], ts[1..], at + PieceLen(prog, ps[0], ts[0], ret), ret)
      + PieceJumps(ps[0], at, ret)
  }

  /** Where the pieces begin, and where the last one ends. */
  function Marks(prog: seq<Routine>, ps: seq<Piece>, ts: seq<Site>, at: nat, ret: Type): (ms: seq<nat>)
    requires Known(prog, ps) && |ts| == |ps|
    ensures |ms| == |ps| + 1 && ms[0] == at
  {
    [at] + if ps == [] then [] else Marks(prog, ps[1..], ts[1..], at + PieceLen(prog, ps[0], ts[0], ret), ret)
  }

  ghost predicate PieceIs(prog: seq<Routine>, p: Piece, t: Site, at: nat, ret: Type, fin: nat, a: seq<Quad>, ja: seq<nat>) {
    && (p.Invoke? ==> p.id < |prog|) && |a| == PieceLen(prog, p, t, ret)
    && forall u: nat {:trigger Show(Linking, u)} :: Show(Linking, u) ==>
         Same(a, PieceCode(prog, p, t, at, ret, fin)) && Same(ja, PieceJumps(p, at, ret))
  }

  /** As Show, for what is known of one list of pieces only. */
  predicate ShowPieces(ps: seq<Piece>, u: nat) {
    ps == ps && u + 1 > u
  }

  /** The code of a body, its return jumps and the places of its pieces. */
  ghost predicate BodyIs(prog: seq<Routine>, ps: seq<Piece>, ts: seq<Site>, at: nat, ret: Type, fin: nat,
                         c: seq<Quad>, j: seq<nat>, ms: seq<nat>) {
    && Known(prog, ps) && |ts| == |ps|
    && forall u: nat {:trigger ShowPieces(ps, u)} :: ShowPieces(ps, u) ==>
         && Same(c, BodyCode(prog, ps, ts, at, ret, fin)) && Same(j, BodyJumps(prog, ps, ts, at, ret))
         && Same(ms, Marks(prog, ps, ts, at, ret))
  }

  lemma {:induction false} BodyNone(prog: seq<Routine>, ts: seq<Site>, at: nat, ret: Type, fin: nat)
    requires ts == []
    ensures BodyIs(prog, [], ts, at, ret, fin, [], [], [at])
  {
    assert Marks(prog, [], ts, at, ret) == [at];
  }

  lemma {:induction false} NoneIs(prog: seq<Routine>, ts: seq<Site>, at: nat, ret: Type, fin: nat, c: seq<Quad>, j: seq<nat>, ms: seq<nat>)
    requires BodyIs(prog, [], ts, at, ret, fin, c, j, ms)
    ensures c == [] && j == [] && ms == [at]
  {
    assert ShowPieces([], 0);
  }

  /** The code of a body, taken apart after its first piece. */
  lemma {:induction false} BodyFirst(prog: seq<Routine>, ps: seq<Piece>, ts: seq<Site>, at: nat, ret: Type, fin: nat, c: seq<Quad>, j: seq<nat>, ms: seq<nat>)
    returns (a: seq<Quad>, ja: seq<nat>, next: nat, c1: seq<Quad>, j1: seq<nat>, ms1: seq<nat>)
    requires BodyIs(prog, ps, ts, at, ret, fin, c, j, ms) && ps != []
    ensures PieceIs(prog, ps[0], ts[0], at, ret, fin, a, ja) && next == at + |a|
    ensures BodyIs(prog, ps[1..], ts[1..], next, ret, fin, c1, j1, ms1)
    ensures Same(c, a + c1) && Same(j, j1 + ja) && Same(ms, [at] + ms1)
  {
    assert ShowPieces(ps, 0);
    next := at + PieceLen(prog, ps[0], ts[0], ret);
    BodyUnfold(prog, ps, ts, at, next, ret, fin);
    a := PieceCode(prog, ps[0], ts[0], at, ret, fin);
    ja := PieceJumps(ps[0], at, ret);
    c1, j1 := BodyCode(prog, ps[1..], ts[1..], next, ret, fin), BodyJumps(prog, ps[1..], ts[1..], next, ret);
    ms1 := Marks(prog, ps[1..], ts[1..], next, ret);
  }

  lemma {:induction false} BodyUnfold(prog: seq<Routine>, ps: seq<Piece>, ts: seq<Site>, at: nat, next: nat, ret: Type, fin: nat)
    requires Known(prog, ps) && |ts| == |ps| && ps != [] && next == at + PieceLen(prog, ps[0], ts[0], ret)
    ensures Same(BodyCode(prog, ps, ts, at, ret, fin),
                 PieceCode(prog, ps[0], ts[0], at, ret, fin) + BodyCode(prog, ps[1..], ts[1..], next, ret, fin))
    ensures Same(BodyJumps(prog, ps, ts, at, ret),
                 BodyJumps(prog, ps[1..], ts[1..], next, ret) + PieceJumps(ps[0], at, ret))
    ensures Same(Marks(prog, ps, ts, at, ret), [at] + Marks(prog, ps[1..], ts[1..], next, ret))
  {
    CodeUnfold(prog, ps, ts, at, next, ret, fin);
    JumpsUnfold(prog, ps, ts, at, next, ret);
  }

  lemma {:induction false} CodeUnfold(prog: seq<Routine>, ps: seq<Piece>, ts: seq<Site>, at: nat, next: nat, ret: Type, fin: nat)
    requires Known(prog, ps) && |ts| == |ps| && ps != [] && next == at + PieceLen(prog, ps[0], ts[0], ret)
    ensures Same(BodyCode(prog, ps, ts, at, ret, fin),
                 PieceCode(prog, ps[0], ts[0], at, ret, fin) + BodyCode(prog, ps[1..], ts[1..], next, ret, fin))
  {
  }

  lemma {:induction false} JumpsUnfold(prog: seq<Routine>, ps: seq<Piece>, ts: seq<Site>, at: nat, next: nat, ret: Type)
    requires Known(prog, ps) && |ts| == |ps| && ps != [] && next == at + PieceLen(prog, ps[0], ts[0], ret)
    ensures Same(BodyJumps(prog, ps, ts, at, ret),
                 BodyJumps(prog, ps[1..], ts[1..], next, ret) + PieceJumps(ps[0], at, ret))
  {
  }

  lemma {:induction false} BodyOf(prog: seq<Routine>, ps: seq<Piece>, t: Site, rest: seq<Site>, at: nat, ret: Type, fin: nat, a: seq<Quad>, ja: seq<nat>, next: nat,
               c1: seq<Quad>, j1: seq<nat>, ms1: seq<nat>)
    requires ps != [] && PieceIs(prog, ps[0], t, at, ret, fin, a, ja) && next == at + |a|
    requires BodyIs(prog, ps[1..], rest, next, ret, fin, c1, j1, ms1)
    ensures BodyIs(prog, ps, [t] + rest, at, ret, fin, a + c1, j1 + ja, [at] + ms1)
  {
    assert ([t] + rest)[0] == t && ([t] + rest)[1..] == rest;
    assert Known(prog, ps) by {
      forall i | 0 <= i < |ps| && ps[i].Invoke?
        ensures ps[i].id < |prog|
      {
        if i > 0 { assert ps[i] == ps[1..][i - 1]; }
      }
    }
    BodyUnfold(prog, ps, [t] + rest, at, next, ret, fin);
    assert Show(Linking, 0) && ShowPieces(ps[1..], 0);
  }

  /** The places of the pieces in the code. */
  lemma {:induction false} BodyParts(prog: seq<Routine>, ps: seq<Piece>, ts: seq<Site>, at: nat, ret: Type, fin: nat,
                                     c: seq<Quad>, j: seq<nat>, ms: seq<nat>, code: seq<Quad>, end: nat)
    requires BodyIs(prog, ps, ts, at, ret, fin, c, j, ms) && at <= end <= |code| && code[at..end] == c
    ensures |ms| == |ps| + 1 && ms[0] == at && ms[|ps|] == end
    ensures forall i :: 0 <= i < |ps| ==> PieceStands(prog, ps[i], ts[i], ms[i], ms[i + 1], ret, fin, code, end)
    decreases |ps|
  {
    assert |code[at..end]| == end - at;
    if ps == [] {
      NoneIs(prog, ts, at, ret, fin, c, j, ms);
    } else {
      var a, ja, next, c1, j1, ms1 := BodyFirst(prog, ps, ts, at, ret, fin, c, j, ms);
      TwoParts(code, at, end, a, c1);
      BodyParts(prog, ps[1..], ts[1..], next, ret, fin, c1, j1, ms1, code, end);
      forall i | 0 <= i < |ps|
        ensures PieceStands(prog, ps[i], ts[i], ms[i], ms[i + 1], ret, fin, code, end)
      {
        if i > 0 {
          assert PieceStands(prog, ps[1..][i - 1], ts[1..][i - 1], ms1[i - 1], ms1[i], ret, fin, code, end);
        }
      }
    }
  }

  /** The piece's code stands between two addresses. */
  ghost predicate PieceStands(prog: seq<Routine>, p: Piece, t: Site, at: nat, to: nat, ret: Type, fin: nat, code: seq<Quad>, end: nat) {
    at <= to <= end <= |code| && exists ja :: PieceIs(prog, p, t, at, ret, fin, code[at..to], ja)
  }

  /** Patching the return jumps of a body gives its code for the end that they are patched
      with. */
  lemma {:induction false} PatchBody(prog: seq<Routine>, ps: seq<Piece>, ts: seq<Site>, at: nat, ret: Type, fin: nat,
                                     c: seq<Quad>, j: seq<nat>, ms: seq<nat>) returns (c2: seq<Quad>)
    requires BodyIs(prog, ps, ts, at, ret, HOLE, c, j, ms)
    ensures BodyIs(prog, ps, ts, at, ret, fin, c2, j, ms) && PatchedBy(at, c, j, fin, c2)
    decreases |ps|
  {
    if ps == [] {
      NoneIs(prog, ts, at, ret, HOLE, c, j, ms);
      c2 := [];
      BodyNone(prog, ts, at, ret, fin);
      PatchNone(at, [], fin);
    } else {
      var a, ja, next, c1, j1, ms1 := BodyFirst(prog, ps, ts, at, ret, HOLE, c, j, ms);
      var a2 := PatchPiece(prog, ps[0], ts[0], at, ret, fin, a, ja);
      var d := PatchBody(prog, ps[1..], ts[1..], next, ret, fin, c1, j1, ms1);
      c2 := a2 + d;
      BodyOf(prog, ps, ts[0], ts[1..], at, ret, fin, a2, ja, next, d, j1, ms1);
      assert [ts[0]] + ts[1..] == ts;
      PatchBoth(at, a, ja, a2, c1, j1, d, fin);
    }
  }

  lemma PatchPiece(prog: seq<Routine>, p: Piece, t: Site, at: nat, ret: Type, fin: nat, a: seq<Quad>, ja: seq<nat>) returns (a2: seq<Quad>)
    requires PieceIs(prog, p, t, at, ret, HOLE, a, ja)
    ensures PieceIs(prog, p, t, at, ret, fin, a2, ja) && |a2| == |a| && PatchedBy(at, a, ja, fin, a2)
  {
    assert Show(Linking, 0);
    a2 := PieceCode(prog, p, t, at, ret, fin);
    if p.Piece? {
      var end, c, j, c2 := PatchReturns(p.s, at, ret, fin);
      WrittenParts(p.s, at, end, ret, HOLE, c, j);
      WrittenParts(p.s, at, end, ret, fin, c2, j);
    } else {
      PatchNone(at, a, fin);
    }
  }

  /** The pieces fit into the registers and keep to the area. */
  predicate PieceFits(prog: seq<Routine>, b: Area, p: Piece) {
    if p.Piece? then StmtIn(b, p.s) && Fits(p.s, 100) else CallFits(prog, b, p)
  }

  predicate BodyFits(prog: seq<Routine>, b: Area, ps: seq<Piece>) {
    forall i :: 0 <= i < |ps| ==> PieceFits(prog, b, ps[i])
  }

  /** Emit the pieces of a body in turn. */
  method GenBody(g: Generator, prog: seq<Routine>, ghost b: Area, ret: Type, ps: seq<Piece>)
    returns (ghost ts: seq<Site>, ghost c: seq<Quad>, ghost j: seq<nat>, ghost ms: seq<nat>)
    requires g.Valid() && g.inUse == {} && b.Area? && BodyFits(prog, b, ps)
    modifies g
    ensures g.Valid() && g.inUse == {} && g.quads == old(g.quads) + c && g.frPatch == j + old(g.frPatch)
    ensures BodyIs(prog, ps, ts, |old(g.quads)|, ret, HOLE, c, j, ms)
    ensures forall i :: 0 <= i < |ps| && ps[i].Invoke? ==> SiteFits(b, prog[ps[i].id], ps[i], ts[i])
    decreases |ps|
  {
    ghost var at := |g.quads|;
    if ps == [] {
      ts, c, j, ms := [], [], [], [at];
      BodyNone(prog, ts, at, ret, HOLE);
    } else {
      ghost var before, list := g.quads, g.frPatch;
      ghost var t, a, ja := GenPiece(g, prog, b, ret, ps[0]);
      ghost var next := |g.quads|;
      ghost var rest, c1, j1, ms1 := GenBody(g, prog, b, ret, ps[1..]);
      ts, c, j, ms := [t] + rest, a + c1, j1 + ja, [at] + ms1;
      BodyOf(prog, ps, t, rest, at, ret, HOLE, a, ja, next, c1, j1, ms1);
      Assoc(before, a, c1);
      Assoc(j1, ja, list);
      FirstFits(b, prog, ps, t, rest);
    }
  }

  lemma FirstFits(b: Area, prog: seq<Routine>, ps: seq<Piece>, t: Site, rest: seq<Site>)
    requires b.Area? && ps != [] && |rest| == |ps| - 1 && Known(prog, ps) && (ps[0].Invoke? ==> SiteFits(b, prog[ps[0].id], ps[0], t))
    requires forall i :: 0 <= i < |ps[1..]| && ps[1..][i].Invoke? ==> SiteFits(b, prog[ps[1..][i].id], ps[1..][i], rest[i])
    ensures forall i :: 0 <= i < |ps| && ps[i].Invoke? ==> SiteFits(b, prog[ps[i].id], ps[i], ([t] + rest)[i])
  {
    forall i | 0 < i < |ps| && ps[i].Invoke?
      ensures SiteFits(b, prog[ps[i].id], ps[i], ([t] + rest)[i])
    {
      assert ps[i] == ps[1..][i - 1];
    }
  }

  lemma Assoc<T>(a: seq<T>, b: seq<T>, c: seq<T>)
    ensures a + b + c == a + (b + c)
  {
  }

  method GenPiece(g: Generator, prog: seq<Routine>, ghost b: Area, ret: Type, p: Piece)
    returns (ghost t: Site, ghost a: seq<Quad>, ghost ja: seq<nat>)
    requires g.Valid() && g.inUse == {} && b.Area? && PieceFits(prog, b, p)
    modifies g
    ensures g.Valid() && g.inUse == {} && g.quads == old(g.quads) + a && g.frPatch == ja + old(g.frPatch)
    ensures PieceIs(prog, p, t, |old(g.quads)|, ret, HOLE, a, ja) && (p.Invoke? ==> SiteFits(b, prog[p.id], p, t))
  {
    if p.Piece? {
      ghost var at := |g.quads|;
      FitsMore(p.s, 100, 1000);
      a, ja := g.Statement(p.s, ret);
      WrittenParts(p.s, at, |g.quads|, ret, HOLE, a, ja);
      t := NoSite();
    } else {
      t := GenInvoke(g, prog, b, p);
      a, ja := CallCode(p, t, prog[p.id].ret), [];
    }
  }

  function NoSite(): Site {
    Site([], [], {}, 0, None, [], [], {})
  }

  // ---------------------------------------------------------------- a function

  ghost predicate PieceReady(code: seq<Quad>, prog: seq<Routine>, r: Routine, l: Layout, i: nat)
    requires i < |r.body| == |l.sites| == |l.marks| - 1
  {
    && PieceStands(prog, r.body[i], l.sites[i], l.marks[i], l.marks[i + 1], l.c.ret, l.c.fin, code, l.c.fin)
    && PieceFits(prog, AreaOf(l.c), r.body[i])
    && (r.body[i].Invoke? ==> SiteFits(AreaOf(l.c), prog[r.body[i].id], r.body[i], l.sites[i]))
  }

  /** Function k stands in the code, as far as its own quads go. */
  ghost predicate RoutineStands(code: seq<Quad>, prog: seq<Routine>, r: Routine, l: Layout) {
    var c := l.c;
    && (c.types, c.ret, c.arSize) == (r.types, r.ret, r.arSize) && Framed(code, c)
    && |r.body| == |l.sites| == |l.marks| - 1 && l.marks[0] == c.f + 1 && l.marks[|r.body|] == c.fin
    && forall i :: 0 <= i < |r.body| ==> PieceReady(code, prog, r, l, i)
  }

  /** Compile a function behind what has been compiled so far, which stays as it is. */
  method CompileRoutine(g: Generator, prog: seq<Routine>, r: Routine) returns (ghost l: Layout)
    requires g.Valid() && g.inUse == {} && g.frPatch == [] && BodyFits(prog, Area(r.arSize, ArgBytes(r.types)), r.body)
    modifies g
    ensures g.Valid() && g.inUse == {} && g.frPatch == [] && old(g.quads) <= g.quads
    ensures l.c.f == |old(g.quads)| && RoutineStands(g.quads, prog, r, l)
  {
    ghost var before, b := g.quads, Area(r.arSize, ArgBytes(r.types));
    var offsets, argSize := FunctionArgs(r.types);
    ArgBytesAre(r.types);
    var quad := [|g.quads|];
    g.Generate(QFuncStart(0));
    ghost var ts, c, j, ms := GenPatched(g, prog, b, r.ret, r.body);
    ghost var fin := |g.quads|;
    g.PatchOne(quad, r.arSize, before, QFuncStart(0), c);
    g.Generate(QFuncRet(argSize, r.arSize));
    l := Layout(Callee(|before|, fin, r.ret, r.types, r.arSize), ms, ts);
    RoutineIs(before, prog, r, l, c, j, g.quads);
  }

  /** The body, and the patches of its return jumps. */
  method GenPatched(g: Generator, prog: seq<Routine>, ghost b: Area, ret: Type, ps: seq<Piece>)
    returns (ghost ts: seq<Site>, ghost c: seq<Quad>, ghost j: seq<nat>, ghost ms: seq<nat>)
    requires g.Valid() && g.inUse == {} && g.frPatch == [] && b.Area? && BodyFits(prog, b, ps)
    modifies g
    ensures g.Valid() && g.inUse == {} && g.frPatch == [] && g.quads == old(g.quads) + c
    ensures BodyIs(prog, ps, ts, |old(g.quads)|, ret, |g.quads|, c, j, ms)
    ensures forall i :: 0 <= i < |ps| && ps[i].Invoke? ==> SiteFits(b, prog[ps[i].id], ps[i], ts[i])
  {
    ghost var before := g.quads;
    ghost var c0;
    ts, c0, j, ms := GenBody(g, prog, b, ret, ps);
    assert j + [] == j;
    var end := |g.quads|;
    c := PatchBody(prog, ps, ts, |before|, ret, end, c0, j, ms);
    PatchRange(|before|, c0, j, end, c);
    g.BackPatch(g.frPatch, end);
    g.frPatch := [];
    PatchedAll(before, c0, j, end, c, g.quads);
  }

  lemma PatchRange(at: nat, c: seq<Quad>, j: seq<nat>, to: nat, c2: seq<Quad>)
    requires PatchedBy(at, c, j, to, c2)
    ensures forall p :: p in j ==> at <= p < at + |c|
  {
    assert ShowPatch(c, 0);
  }

  lemma PatchedAll(before: seq<Quad>, c: seq<Quad>, j: seq<nat>, to: nat, c2: seq<Quad>, all: seq<Quad>)
    requires PatchedBy(|before|, c, j, to, c2) && |all| == |before + c|
    requires forall i :: 0 <= i < |all| ==> all[i] == if i in j then Retarget((before + c)[i], to) else (before + c)[i]
    ensures all == before + c2
  {
    assert ShowPatch(c, 0);
    forall i | 0 <= i < |all| ensures all[i] == (before + c2)[i] {
      if i >= |before| { assert |before| + (i - |before|) == i; }
    }
  }

  lemma RoutineIs(before: seq<Quad>, prog: seq<Routine>, r: Routine, l: Layout, c: seq<Quad>, j: seq<nat>, code: seq<Quad>)
    requires l.c == Callee(|before|, |before| + 1 + |c|, r.ret, r.types, r.arSize)
    requires code == before + [QFuncStart(r.arSize)] + c + [QFuncRet(ArgBytes(r.types), r.arSize)]
    requires BodyIs(prog, r.body, l.sites, |before| + 1, r.ret, l.c.fin, c, j, l.marks)
    requires BodyFits(prog, AreaOf(l.c), r.body)
    requires forall i :: 0 <= i < |r.body| && r.body[i].Invoke? ==> SiteFits(AreaOf(l.c), prog[r.body[i].id], r.body[i], l.sites[i])
    ensures RoutineStands(code, prog, r, l)
  {
    assert code[|before| + 1..l.c.fin] == c;
    BodyParts(prog, r.body, l.sites, |before| + 1, r.ret, l.c.fin, c, j, l.marks, code, l.c.fin);
  }

  // ---------------------------------------------------------------- the program

  /** A function stays where it is when more is compiled behind it. */
  lemma RoutineLater(code: seq<Quad>, code2: seq<Quad>, prog: seq<Routine>, r: Routine, l: Layout)
    requires RoutineStands(code, prog, r, l) && code <= code2
    ensures RoutineStands(code2, prog, r, l)
  {
    forall i | 0 <= i < |r.body|
      ensures PieceReady(code2, prog, r, l, i)
    {
      var at, to := l.marks[i], l.marks[i + 1];
      assert PieceReady(code, prog, r, l, i);
      assert code2[at..to] == code[at..to];
    }
  }

  /** Every function that is called is there to be called, and each one fits. */
  predicate ProgramFits(prog: seq<Routine>) {
    forall k :: 0 <= k < |prog| ==> BodyFits(prog, Area(prog[k].arSize, ArgBytes(prog[k].types)), prog[k].body)
  }

  /** Compile the functions of a program in turn.  Where each begins is what calls of it
      are given. */
  method CompileProgram(g: Generator, prog: seq<Routine>) returns (ghost ls: seq<Layout>, ghost entry: map<nat, nat>)
    requires g.Valid() && g.inUse == {} && g.frPatch == [] && ProgramFits(prog)
    modifies g
    ensures g.Valid() && g.inUse == {} && g.frPatch == [] && |ls| == |prog|
    ensures entry == map k: nat | k < |prog| :: ls[k].c.f
    ensures |g.quads| < SPACE ==> ProgramAt(g.quads, entry, prog, ls)
  {
    ls := [];
    var k := 0;
    while k < |prog|
      invariant k == |ls| <= |prog| && g.Valid() && g.inUse == {} && g.frPatch == []
      invariant forall i :: 0 <= i < k ==> RoutineStands(g.quads, prog, prog[i], ls[i])
    {
      ghost var before := g.quads;
      assert BodyFits(prog, Area(prog[k].arSize, ArgBytes(prog[k].types)), prog[k].body);
      ghost var l := CompileRoutine(g, prog, prog[k]);
      forall i | 0 <= i < k ensures RoutineStands(g.quads, prog, prog[i], ls[i]) { RoutineLater(before, g.quads, prog, prog[i], ls[i]); }
      ls := ls + [l];
      k := k + 1;
    }
    entry := map k: nat | k < |prog| :: ls[k].c.f;
    if |g.quads| < SPACE { ProgramStands(g.quads, entry, prog, ls); }
  }

  lemma ProgramStands(code: seq<Quad>, entry: map<nat, nat>, prog: seq<Routine>, ls: seq<Layout>)
    requires |ls| == |prog| && |code| < SPACE && forall k :: 0 <= k < |prog| ==> RoutineStands(code, prog, prog[k], ls[k])
    requires entry == map k: nat | k < |prog| :: ls[k].c.f
    ensures ProgramAt(code, entry, prog, ls)
  {
    forall k | 0 <= k < |prog|
      ensures RoutineAt(code, entry, prog, ls, k)
    {
      assert RoutineStands(code, prog, prog[k], ls[k]);
      forall i | 0 <= i < |prog[k].body|
        ensures PieceAt(code, prog, ls, k, i)
      {
        assert PieceReady(code, prog, prog[k], ls[k], i);
        if prog[k].body[i].Invoke? { assert RoutineStands(code, prog, prog[prog[k].body[i].id], ls[prog[k].body[i].id]); }
        PieceThere(code, prog, ls, k, i);
      }
    }
  }

  lemma PieceThere(code: seq<Quad>, prog: seq<Routine>, ls: seq<Layout>, k: nat, i: nat)
    requires |ls| == |prog| && k < |prog| && RoutineStands(code, prog, prog[k], ls[k]) && i < |prog[k].body|
    requires prog[k].body[i].Invoke? ==> var id := prog[k].body[i].id; id < |prog| && RoutineStands(code, prog, prog[id], ls[id])
    ensures PieceAt(code, prog, ls, k, i)
  {
    var p, t, c, at, to := prog[k].body[i], ls[k].sites[i], ls[k].c, ls[k].marks[i], ls[k].marks[i + 1];
    assert PieceReady(code, prog, prog[k], ls[k], i);
    var ja :| PieceIs(prog, p, t, at, c.ret, c.fin, code[at..to], ja);
    assert Same(code[at..to], PieceCode(prog, p, t, at, c.ret, c.fin)) by { assert Show(Linking, 0); }
    assert |code[at..to]| == to - at;
    if p.Piece? {
      StmtStands(code, c, p.s, at, to);
    } else {
      CallStands(code, c, ls[p.id].c, prog[p.id], p, t, at, to);
    }
  }

  lemma StmtStands(code: seq<Quad>, c: Callee, s: Stmt, at: nat, end: nat)
    requires at <= end <= c.fin <= |code| && code[at..end] == Code(s, at, c.ret, c.fin)
    requires StmtIn(AreaOf(c), s) && Fits(s, 100)
    ensures StmtAt(code, c, s, at, end)
  {
    var qs := Code(s, at, c.ret, c.fin);
    assert |code[at..end]| == end - at;
    CodeTidy(AreaOf(c), s, at, c.ret, c.fin);
    TidyInFile(AreaOf(c), qs);
    assert Sits(code, at, qs);
  }
}
