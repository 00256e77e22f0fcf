/** Whole programs: the compiled functions of a program, calling each other and themselves
    in one memory, come to what the program's source says. */
module MexWhole {
  import opened Wrappers
  import opened MexTypes
  import opened MexVm
  import opened MexSource
  import opened MexCode
  import opened MexFlow
  import opened MexMeaning
  import opened MexEquivalence
  import opened MexRegs
  import opened MexCall
  import opened MexStack
  import opened MexReturn
  import opened MexLocal
  import opened MexCalls

  // ---------------------------------------------------------------- where a program is

  /** Where a function is: its frame, the addresses at which its pieces begin and the last
      one ends, and its calls, by piece. */
  datatype Layout = Layout(c: Callee, marks: seq<nat>, sites: seq<Site>)

  function AreaOf(c: Callee): (b: Area)
    ensures b.Area?
  {
    Area(c.arSize, ArgBytes(c.types))
  }

  /** The piece calls functions that there are, with as many arguments as they take, and
      keeps to the area. */
  predicate PieceIn(prog: seq<Routine>, b: Area, p: Piece) {
    match p
    case Piece(s) => StmtIn(b, s)
    case Invoke(id, args, dest) =>
      && id < |prog| && |args| == |prog[id].types| && (forall e :: e in args ==> VarsIn(b, e))
      && (dest.Some? ==> !prog[id].isVoid && Within(b, dest.value.0.form, dest.value.1))
  }

  ghost predicate StmtAt(code: seq<Quad>, c: Callee, s: Stmt, at: nat, end: nat) {
    && at <= end <= c.fin <= |code| && end == at + Len(s, c.ret)
    && Sits(code, at, Code(s, at, c.ret, c.fin)) && AllTidy(AreaOf(c), code[at..end])
  }

  /** The arguments are computed between at and call. */
  ghost predicate ArgsAt(code: seq<Quad>, c: Callee, args: seq<Expr>, at: nat, call: nat) {
    var qs := CodeArgs(args, {}).quads;
    call == at + |qs| <= |code| && code[at..call] == qs && AllTidy(AreaOf(c), qs)
  }

  /** The call of function k, with those arguments, stands between call and back. */
  ghost predicate SiteAt(code: seq<Quad>, c: Callee, k: Callee, isVoid: bool, id: nat, args: seq<Expr>, t: Site, call: nat, back: nat) {
    && back == call + |t.begin| + 1 + |t.finish|
    && Proper(t, k) && t.id == id && t.args == CodeArgs(args, {}).objs && t.end == {}
    && t.res == (if isVoid then None else Some(k.ret)) && Called(code, call, t, 0 - c.arSize)
  }

  /** The assignment of the result stands between back and end. */
  ghost predicate DestAt(code: seq<Quad>, c: Callee, k: Callee, dest: Option<(Type, int)>, back: nat, end: nat) {
    var qs := DestQuads(dest, k.ret);
    && end == back + |qs| <= |code| && code[back..end] == qs && AllTidy(AreaOf(c), qs)
    && (dest.Some? ==> Within(AreaOf(c), dest.value.0.form, dest.value.1))
  }

  /** The three of them stand between at and end. */
  ghost predicate CallAt(code: seq<Quad>, c: Callee, k: Callee, isVoid: bool, p: Piece, t: Site, at: nat, end: nat)
    requires p.Invoke?
  {
    exists call, back ::
      ArgsAt(code, c, p.args, at, call) && SiteAt(code, c, k, isVoid, p.id, p.args, t, call, back) && DestAt(code, c, k, p.dest, back, end)
  }

  ghost predicate PieceAt(code: seq<Quad>, prog: seq<Routine>, ls: seq<Layout>, k: nat, i: nat)
    requires |ls| == |prog| && k < |prog| && i < |prog[k].body| == |ls[k].sites| == |ls[k].marks| - 1
  {
    var p, at, end := prog[k].body[i], ls[k].marks[i], ls[k].marks[i + 1];
    && PieceIn(prog, AreaOf(ls[k].c), p)
    && match p
       case Piece(s) => StmtAt(code, ls[k].c, s, at, end)
       case Invoke(id, args, dest) => CallAt(code, ls[k].c, ls[id].c, prog[id].isVoid, p, ls[k].sites[i], at, end)
  }

  /** Function k is in the code, with the sizes of its frame. */
  ghost predicate RoutineAt(code: seq<Quad>, entry: map<nat, nat>, prog: seq<Routine>, ls: seq<Layout>, k: nat)
    requires |ls| == |prog| && k < |prog|
  {
    var c, r := ls[k].c, prog[k];
    && (c.types, c.ret, c.arSize) == (r.types, r.ret, r.arSize) && Framed(code, c) && k in entry && entry[k] == c.f
    && |r.body| == |ls[k].sites| == |ls[k].marks| - 1 && ls[k].marks[0] == c.f + 1 && ls[k].marks[|r.body|] == c.fin
    && forall i :: 0 <= i < |r.body| ==> PieceAt(code, prog, ls, k, i)
  }

  ghost predicate ProgramAt(code: seq<Quad>, entry: map<nat, nat>, prog: seq<Routine>, ls: seq<Layout>) {
    && |ls| == |prog| && |code| < SPACE
    && forall u: nat {:trigger Show(Linking, u)} :: Show(Linking, u) ==> forall k :: 0 <= k < |prog| ==> RoutineAt(code, entry, prog, ls, k)
  }

  /** The stack stays within the addresses that there are. */
  ghost predicate Roomy(code: seq<Quad>, entry: map<nat, nat>, w: World) {
    forall n: nat, w2: World :: Reaches(code, entry, w, n, Go(w2)) ==> 0 <= w2.bp < SPACE
  }

  lemma RoomyOn(code: seq<Quad>, entry: map<nat, nat>, w: World, n: nat, w2: World)
    requires Roomy(code, entry, w) && Reaches(code, entry, w, n, Go(w2))
    ensures Roomy(code, entry, w2)
  {
    forall l: nat, w3: World | Reaches(code, entry, w2, l, Go(w3))
      ensures 0 <= w3.bp < SPACE
    {
      ReachBoth(code, entry, w, w2, n, l, Go(w3), n + l);
    }
  }

  // ---------------------------------------------------------------- within a function

  /** Nothing outside the function's locals and arguments has changed since w0. */
  ghost predicate Outside(c: Callee, w0: World, w: World) {
    forall a :: a >= w0.sp && !InArea(AreaOf(c), a - w0.bp) ==> ByteAt(w.bytes, a) == ByteAt(w0.bytes, a)
  }

  /** The frame holds in the area what memory does. */
  ghost predicate Seen(b: Area, frame: Frame, w: World)
    requires b.Area?
  {
    forall u: nat {:trigger Show(Framing, u)} :: Show(Framing, u) ==>
      forall i :: InArea(b, i) ==> ByteAt(frame, i) == ByteAt(w.bytes, w.bp + i)
  }

  /** The function that began at w0 has come to an address, and its frame is like this. */
  ghost predicate Standing(c: Callee, w0: World, w: World, at: nat, frame: Frame) {
    && w.ip == at && w.bp == w0.bp && w.sp == w0.sp == w0.bp - c.arSize
    && Outside(c, w0, w) && Seen(AreaOf(c), frame, w)
  }

  /** What a piece that ends at an address has come to. */
  ghost predicate Went(c: Callee, w0: World, end: nat, s: Move, o: Outcome) {
    match o
    case OutOfFuel => false
    case Fault => s == Stop
    case Normal(f) => s.Go? && Standing(c, w0, s.w, end, f)
    case Returned(_, _) => s.Go? && Finished(c, w0, s.w, o)
  }

  /** The simpler machine's state for the one with the function's frame. */
  lemma SimStart(b: Area, frame: Frame, w: World) returns (m: Mem)
    requires b.Area? && Seen(b, frame, w)
    ensures m.stack == [] && Sim(m, w, w.sp) && Alike(b, frame, m.frame)
  {
    m := Mem(Around(w.bytes, w.bp), w.temps, []);
    AroundAgrees(w.bytes, w.bp, w.sp);
    SeenAround(b, frame, w);
  }

  lemma SeenAround(b: Area, frame: Frame, w: World)
    requires b.Area?
    ensures Seen(b, frame, w) <==> Alike(b, frame, Around(w.bytes, w.bp))
  {
    assert Show(Framing, 0);
    forall i: int ensures ByteAt(Around(w.bytes, w.bp), i) == ByteAt(w.bytes, w.bp + i) { AroundByte(w.bytes, w.bp, i); }
  }

  lemma SimSeen(b: Area, frame: Frame, m: Mem, w: World, base: int)
    requires b.Area? && Sim(m, w, base) && base <= w.bp - b.locals && Alike(b, frame, m.frame)
    ensures Seen(b, frame, w)
  {
    assert Show(Framing, 0);
    forall i | InArea(b, i)
      ensures ByteAt(frame, i) == ByteAt(w.bytes, w.bp + i)
    {
      ByteSame(m.frame, w.bytes, w.bp, base, i);
    }
  }

  lemma OutsideOn(c: Callee, w0: World, w: World, w2: World, m: Mem, m2: Mem)
    requires Outside(c, w0, w) && w.bp == w0.bp && w.sp == w0.sp && w2.bp == w0.bp
    requires Sim(m, w, w.sp) && Sim(m2, w2, w.sp) && Untouched(AreaOf(c), m.frame, m2.frame)
    ensures Outside(c, w0, w2)
  {
    OutsideKept(AreaOf(c), m, m2, w, w2);
  }

  /** Where the code of a part has got to, seen from the function. */
  lemma StandsAt(c: Callee, w0: World, w: World, w2: World, m: Mem, m2: Mem, at: nat, frame: Frame)
    requires Outside(c, w0, w) && w.bp == w0.bp && w.sp == w0.sp == w0.bp - c.arSize && w2.bp == w0.bp && w2.ip == at
    requires Sim(m, w, w.sp) && Sim(m2, w2, w.sp) && m2.stack == [] && Untouched(AreaOf(c), m.frame, m2.frame)
    requires Alike(AreaOf(c), frame, m2.frame)
    ensures Standing(c, w0, w2, at, frame)
  {
    OutsideOn(c, w0, w, w2, m, m2);
    SimSeen(AreaOf(c), frame, m2, w2, w.sp);
  }

  // ---------------------------------------------------------------- a statement

  lemma StopsIn(code: seq<Quad>, s: Stmt, at: nat, end: nat, ret: Type, fin: nat, m: Mem, fuel: nat, o: Outcome) returns (n: nat, r: Result)
    requires end == at + Len(s, ret) <= fin && Sits(code, at, Code(s, at, ret, fin)) && o == Exec(s, m.frame, ret, fuel) && !o.OutOfFuel?
    ensures Runs(code, at, end, at, m, n, r) && Matches(r, o, m.stack, end, fin, ret)
  {
    SameProgram(code, s, at, end, ret, fin, m);
    assert ExecStops(s, m.frame, ret, fuel);
    n :| RunStops(code, at, end, m, n);
    r := RunIn(code, at, end, at, m, n);
  }

  lemma StmtRuns(code: seq<Quad>, entry: map<nat, nat>, c: Callee, s: Stmt, at: nat, end: nat, w0: World, w: World,
                 frame: Frame, fuel: nat, o: Outcome) returns (n: nat, mv: Move)
    requires StmtAt(code, c, s, at, end) && StmtIn(AreaOf(c), s) && Standing(c, w0, w, at, frame)
    requires o == Exec(s, frame, c.ret, fuel) && !o.OutOfFuel?
    ensures Reaches(code, entry, w, n, mv) && Went(c, w0, end, mv, o)
  {
    var b := AreaOf(c);
    var m := SimStart(AreaOf(c), frame, w);
    ExecAlike(b, s, frame, m.frame, c.ret, fuel);
    var p := Exec(s, m.frame, c.ret, fuel);
    var l, r := StopsIn(code, s, at, end, c.ret, c.fin, m, fuel, p);
    TidyQuiet(b, code, at, end);
    n, mv := SimRunIn(code, entry, at, end, m, w, w.sp, l, r);
    if r.Exit? {
      TidyRun(b, code, at, end, at, m, l, r);
      StandsAt(c, w0, w, mv.w, m, r.mem, mv.w.ip, o.frame);
    }
  }

  // ---------------------------------------------------------------- a call

  lemma {:induction false} AllAlike(b: Area, args: seq<Expr>, f: Frame, g: Frame)
    requires b.Area? && Alike(b, f, g) && forall e :: e in args ==> VarsIn(b, e)
    ensures EvalAll(args, f) == EvalAll(args, g)
  {
    if args != [] {
      EvalAlike(b, args[0], f, g);
      AllAlike(b, args[1..], f, g);
    }
  }

  /** Straight code of the function runs in its frame. */
  lemma TidyGo(code: seq<Quad>, entry: map<nat, nat>, c: Callee, qs: seq<Quad>, at: nat, end: nat, w: World, m: Mem, base: int)
    returns (w2: World)
    requires end == at + |qs| <= |code| && code[at..end] == qs && AllTidy(AreaOf(c), qs) && AllPlain(qs) && RunQ(qs, m).Some?
    requires w.ip == at && base == w.bp - c.arSize && Sim(m, w, base)
    ensures Reaches(code, entry, w, |qs|, Go(w2)) && w2.ip == end && w2.bp == w.bp && Sim(RunQ(qs, m).value, w2, base)
  {
    TidyAbove(AreaOf(c), qs);
    assert base - w.bp == 0 - c.arSize;
    w2 := SimRunQ(code, entry, qs, m, w, base);
  }

  ghost predicate HasValues(objs: seq<Obj>, m: Mem, values: seq<int>) {
    |objs| == |values| && Values(objs, |objs|, m) == values
  }

  /** The arguments are computed, or one of them has no value. */
  lemma ArgsGo(code: seq<Quad>, entry: map<nat, nat>, c: Callee, args: seq<Expr>, at: nat, call: nat, w: World, m: Mem,
               v: Option<seq<int>>) returns (n: nat, mv: Move, m2: Mem)
    requires w.ip == at && w.sp == w.bp - c.arSize && Sim(m, w, w.sp) && m.stack == [] && v == EvalAll(args, m.frame)
    requires ArgsAt(code, c, args, at, call)
    ensures Reaches(code, entry, w, n, mv)
    ensures if v.None? then mv == Stop
            else
              && mv.Go? && mv.w.ip == call && mv.w.bp == w.bp && Sim(m2, mv.w, w.sp)
              && m2.frame == m.frame && m2.stack == [] && HasValues(CodeArgs(args, {}).objs, m2, v.value)
  {
    var a := CodeArgs(args, {});
    var qs := a.quads;
    ArgsMean(args, {}, m);
    m2 := m;
    if v.Some? {
      var w2 := TidyGo(code, entry, c, qs, at, call, w, m, w.sp);
      n, mv, m2 := |qs|, Go(w2), RunQ(qs, m).value;
      ValuesAre(a.objs, |a.objs|, m2, v.value);
      assert v.value[..|a.objs|] == v.value;
    } else {
      n, mv := StraightStops(code, entry, c, qs, at, w, m);
    }
  }

  lemma StraightStops(code: seq<Quad>, entry: map<nat, nat>, c: Callee, qs: seq<Quad>, at: nat, w: World, m: Mem)
    returns (n: nat, mv: Move)
    requires w.ip == at && w.sp == w.bp - c.arSize && Sim(m, w, w.sp)
    requires at + |qs| <= |code| && code[at..at + |qs|] == qs && AllTidy(AreaOf(c), qs) && AllPlain(qs) && RunQ(qs, m).None?
    ensures Reaches(code, entry, w, n, mv) && mv == Stop
  {
    var end, r := at + |qs|, Crash;
    TidyInFile(AreaOf(c), qs);
    assert Sits(code, at, qs);
    Straight(code, at, end, at, qs, m, |qs|);
    assert Runs(code, at, end, at, m, |qs|, r);
    TidyQuiet(AreaOf(c), code, at, end);
    n, mv := SimRunIn(code, entry, at, end, m, w, w.sp, |qs|, r);
  }

  /** The result is assigned, if it is to be. */
  lemma DestGo(code: seq<Quad>, entry: map<nat, nat>, c: Callee, k: Callee, dest: Option<(Type, int)>, back: nat, end: nat,
               w0: World, w: World, at: nat, frame: Frame, m: Mem, w3: World, m3: Mem, v: int) returns (n: nat, w4: World)
    requires DestAt(code, c, k, dest, back, end) && Standing(c, w0, w, at, frame)
    requires Sim(m, w, w.sp) && Alike(AreaOf(c), frame, m.frame)
    requires w3.ip == back && w3.bp == w.bp && Sim(m3, w3, w.sp) && m3.frame == m.frame && m3.stack == []
    requires dest.Some? ==> Value(ResultObj(k.ret), m3) == v
    ensures Reaches(code, entry, w3, n, Go(w4)) && Standing(c, w0, w4, end, Assigned(frame, dest, v))
  {
    var b, qs := AreaOf(c), DestQuads(dest, k.ret);
    if dest.None? {
      n, w4 := 0, w3;
      ReachNow(code, entry, w3);
      StandsAt(c, w0, w, w4, m, m3, end, frame);
    } else {
      var t, ofs := dest.value.0, dest.value.1;
      var m4 := DestMeans(t, ofs, k.ret, m3, v);
      w4 := TidyGo(code, entry, c, qs, back, end, w3, m3, w.sp);
      n := |qs|;
      AlikeStore(b, frame, m.frame, t.form, ofs, Raw(t.form, v));
      TidyPut(b, m, t.form, Ar(ofs), Raw(t.form, v));
      StandsAt(c, w0, w, w4, m, m4, end, Store(frame, t.form, ofs, Raw(t.form, v)));
    }
  }

  // ---------------------------------------------------------------- what the source does

  /** The rest of the body ends with o. */
  ghost predicate BodyGives(prog: seq<Routine>, ps: seq<Piece>, frame: Frame, ret: Type, fuel: nat, o: Outcome) {
    forall u: nat {:trigger Show(Ending, u)} :: Show(Ending, u) ==> Same(Execute(prog, ps, frame, ret, fuel), Some(o))
  }

  ghost predicate PieceGives(prog: seq<Routine>, p: Piece, frame: Frame, ret: Type, fuel: nat, o: Outcome) {
    forall u: nat {:trigger Show(Ending, u)} :: Show(Ending, u) ==> Same(ExecutePiece(prog, p, frame, ret, fuel), Some(o))
  }

  ghost predicate CallGives(prog: seq<Routine>, id: nat, values: seq<int>, fuel: nat, o: Outcome)
    requires id < |prog| && |values| == |prog[id].types|
  {
    forall u: nat {:trigger Show(Ending, u)} :: Show(Ending, u) ==> Same(ExecuteCall(prog, id, values, fuel), Some(o))
  }

  lemma NoneLeft(prog: seq<Routine>, frame: Frame, ret: Type, fuel: nat, o: Outcome)
    requires BodyGives(prog, [], frame, ret, fuel, o)
    ensures o == Normal(frame)
  {
    assert Show(Ending, 0);
  }

  lemma FirstEnds(prog: seq<Routine>, ps: seq<Piece>, frame: Frame, ret: Type, fuel: nat, o: Outcome) returns (o1: Outcome)
    requires BodyGives(prog, ps, frame, ret, fuel, o) && ps != []
    ensures PieceGives(prog, ps[0], frame, ret, fuel, o1)
    ensures if o1.Normal? then BodyGives(prog, ps[1..], o1.frame, ret, fuel, o) else o1 == o
  {
    assert Show(Ending, 0);
    o1 := ExecutePiece(prog, ps[0], frame, ret, fuel).value;
  }

  lemma StmtEnds(prog: seq<Routine>, p: Piece, frame: Frame, ret: Type, fuel: nat, o: Outcome)
    requires PieceGives(prog, p, frame, ret, fuel, o) && p.Piece?
    ensures Exec(p.s, frame, ret, fuel) == o
  {
    assert Show(Ending, 0);
  }

  lemma InvokeEnds(prog: seq<Routine>, p: Piece, frame: Frame, ret: Type, fuel: nat, o: Outcome, v: Option<seq<int>>)
    returns (o2: Outcome, x: int)
    requires PieceGives(prog, p, frame, ret, fuel, o) && p.Invoke? && !o.OutOfFuel? && v == EvalAll(p.args, frame)
    requires p.id < |prog| && |p.args| == |prog[p.id].types|
    ensures v.None? ==> o == Fault
    ensures v.Some? ==> fuel > 0 && CallGives(prog, p.id, v.value, fuel - 1, o2) && !o2.OutOfFuel? && AfterSo(o2, frame, p.dest, x, o)
  {
    assert Show(Ending, 0);
    o2 := if v.Some? && fuel > 0 then ExecuteCall(prog, p.id, v.value, fuel - 1).value else Fault;
    x := if o2.Returned? && o2.value.Some? then o2.value.value else 0;
  }

  /** The outcome o of a call whose function ends with o2 and the value x. */
  ghost predicate AfterSo(o2: Outcome, frame: Frame, dest: Option<(Type, int)>, x: int, o: Outcome) {
    if o2.Fault? then o == Fault
    else o == Normal(Assigned(frame, dest, x)) && (dest.Some? ==> o2.Returned? && o2.value == Some(x))
  }

  lemma CallBody(prog: seq<Routine>, id: nat, values: seq<int>, fuel: nat, o: Outcome)
    requires id < |prog| && |values| == |prog[id].types| && CallGives(prog, id, values, fuel, o)
    ensures BodyGives(prog, prog[id].body, Passed(prog[id].types, values, |values|), prog[id].ret, fuel, o)
  {
    assert Show(Ending, 0);
  }

  // ---------------------------------------------------------------- the whole program

  lemma {:induction false} PieceRuns(code: seq<Quad>, entry: map<nat, nat>, prog: seq<Routine>, ls: seq<Layout>, k: nat, i: nat,
                                     w0: World, w: World, frame: Frame, fuel: nat, o: Outcome) returns (n: nat, mv: Move)
    requires ProgramAt(code, entry, prog, ls) && k < |prog| && i < |prog[k].body| && Roomy(code, entry, w)
    requires RoutineAt(code, entry, prog, ls, k) && Standing(ls[k].c, w0, w, ls[k].marks[i], frame)
    requires PieceGives(prog, prog[k].body[i], frame, prog[k].ret, fuel, o) && !o.OutOfFuel?
    ensures Reaches(code, entry, w, n, mv) && Went(ls[k].c, w0, ls[k].marks[i + 1], mv, o)
    decreases fuel, 1
  {
    var p, c, at, end := prog[k].body[i], ls[k].c, ls[k].marks[i], ls[k].marks[i + 1];
    assert PieceAt(code, prog, ls, k, i);
    match p
    case Piece(s) =>
      StmtEnds(prog, p, frame, prog[k].ret, fuel, o);
      n, mv := StmtRuns(code, entry, c, s, at, end, w0, w, frame, fuel, o);
    case Invoke(id, args, dest) =>
      n, mv := InvokeRuns(code, entry, prog, ls, c, p, ls[k].sites[i], at, end, w0, w, frame, prog[k].ret, fuel, o);
  }

  /** The arguments of a call are computed, or one of them has no value. */
  lemma ReadyToCall(code: seq<Quad>, entry: map<nat, nat>, c: Callee, k: Callee, isVoid: bool, p: Piece, t: Site, at: nat, end: nat,
                    w0: World, w: World, frame: Frame)
    returns (call: nat, back: nat, m: Mem, v: Option<seq<int>>, n: nat, w1: World, m2: Mem)
    requires p.Invoke? && CallAt(code, c, k, isVoid, p, t, at, end) && Standing(c, w0, w, at, frame)
    requires forall e :: e in p.args ==> VarsIn(AreaOf(c), e)
    ensures SiteAt(code, c, k, isVoid, p.id, p.args, t, call, back) && DestAt(code, c, k, p.dest, back, end)
    ensures Alike(AreaOf(c), frame, m.frame) && Sim(m, w, w.sp) && v == EvalAll(p.args, frame)
    ensures v.None? ==> Reaches(code, entry, w, n, Stop)
    ensures v.Some? ==>
              && Reaches(code, entry, w, n, Go(w1)) && w1.ip == call && w1.bp == w.bp && Sim(m2, w1, w.sp)
              && m2.frame == m.frame && m2.stack == [] && HasValues(CodeArgs(p.args, {}).objs, m2, v.value)
  {
    call, back :|
      && ArgsAt(code, c, p.args, at, call) && SiteAt(code, c, k, isVoid, p.id, p.args, t, call, back) && DestAt(code, c, k, p.dest, back, end);
    m := SimStart(AreaOf(c), frame, w);
    AllAlike(AreaOf(c), p.args, frame, m.frame);
    v := EvalAll(p.args, frame);
    var mv;
    n, mv, m2 := ArgsGo(code, entry, c, p.args, at, call, w, m, v);
    w1 := if mv.Go? then mv.w else w;
    assert v.Some? ==> mv == Go(w1);
  }

  lemma {:induction false} InvokeRuns(code: seq<Quad>, entry: map<nat, nat>, prog: seq<Routine>, ls: seq<Layout>, c: Callee, p: Piece,
                                      t: Site, at: nat, end: nat, w0: World, w: World, frame: Frame, ret: Type, fuel: nat, o: Outcome)
    returns (n: nat, mv: Move)
    requires ProgramAt(code, entry, prog, ls) && Roomy(code, entry, w) && Standing(c, w0, w, at, frame)
    requires p.Invoke? && PieceIn(prog, AreaOf(c), p) && CallAt(code, c, ls[p.id].c, prog[p.id].isVoid, p, t, at, end)
    requires PieceGives(prog, p, frame, ret, fuel, o) && !o.OutOfFuel?
    ensures Reaches(code, entry, w, n, mv) && Went(c, w0, end, mv, o)
    decreases fuel, 0
  {
    var call, back, m, v, n1, w1, m2 := ReadyToCall(code, entry, c, ls[p.id].c, prog[p.id].isVoid, p, t, at, end, w0, w, frame);
    var o2, x := InvokeEnds(prog, p, frame, ret, fuel, o, v);
    if v.None? {
      n, mv := n1, Stop;
    } else {
      RoomyOn(code, entry, w, n1, w1);
      var n2;
      n2, mv := CallAndAssign(code, entry, prog, ls, c, p.id, p.args, p.dest, t, at, call, back, end, w0, w, frame, m, w1, m2, v.value,
                              fuel - 1, o2, x, o);
      n := n1 + n2;
      ReachBoth(code, entry, w, w1, n1, n2, mv, n);
    }
  }

  lemma {:induction false} CallAndAssign(code: seq<Quad>, entry: map<nat, nat>, prog: seq<Routine>, ls: seq<Layout>, c: Callee, id: nat,
                                         args: seq<Expr>, dest: Option<(Type, int)>, t: Site, at: nat, call: nat, back: nat, end: nat,
                                         w0: World, w: World, frame: Frame, m: Mem, w1: World, m2: Mem, values: seq<int>, fuel: nat,
                                         o2: Outcome, x: int, o: Outcome) returns (n: nat, mv: Move)
    requires ProgramAt(code, entry, prog, ls) && id < |prog| && |values| == |prog[id].types| && Roomy(code, entry, w1)
    requires SiteAt(code, c, ls[id].c, prog[id].isVoid, id, args, t, call, back) && DestAt(code, c, ls[id].c, dest, back, end)
    requires Standing(c, w0, w, at, frame) && Sim(m, w, w.sp) && Alike(AreaOf(c), frame, m.frame)
    requires w1.ip == call && w1.bp == w.bp && Sim(m2, w1, w.sp) && m2.frame == m.frame && m2.stack == []
    requires HasValues(CodeArgs(args, {}).objs, m2, values) && (dest.Some? ==> !prog[id].isVoid)
    requires CallGives(prog, id, values, fuel, o2) && !o2.OutOfFuel? && AfterSo(o2, frame, dest, x, o)
    ensures Reaches(code, entry, w1, n, mv) && Went(c, w0, end, mv, o)
    decreases fuel, |prog[id].body| + 3
  {
    var n2, mv2, m3 := CallRuns(code, entry, prog, ls, id, args, t, w1, c, m2, w.sp, back, values, fuel, o2);
    if o2.Fault? {
      n, mv := n2, mv2;
    } else {
      var w3 := mv2.w;
      assert mv2 == Go(w3);
      var n3, w4 := DestGo(code, entry, c, ls[id].c, dest, back, end, w0, w, at, frame, m, w3, m3, x);
      n, mv := n2 + n3, Go(w4);
      ReachBoth(code, entry, w1, w3, n2, n3, mv, n);
    }
  }

  /** A call of function id, its arguments being computed. */
  lemma {:induction false} CallRuns(code: seq<Quad>, entry: map<nat, nat>, prog: seq<Routine>, ls: seq<Layout>, id: nat, args: seq<Expr>,
                                    t: Site, w: World, c: Callee, m: Mem, base: int, back: nat, values: seq<int>, fuel: nat, o: Outcome)
    returns (n: nat, mv: Move, m3: Mem)
    requires ProgramAt(code, entry, prog, ls) && id < |prog| && Roomy(code, entry, w) && base == w.bp - c.arSize
    requires SiteAt(code, c, ls[id].c, prog[id].isVoid, id, args, t, w.ip, back) && Sim(m, w, base) && m.stack == []
    requires |values| == |prog[id].types| && HasValues(CodeArgs(args, {}).objs, m, values)
    requires CallGives(prog, id, values, fuel, o) && !o.OutOfFuel?
    ensures Reaches(code, entry, w, n, mv)
    ensures if o.Fault? then mv == Stop
            else
              && mv.Go? && mv.w.ip == back && mv.w.bp == w.bp
              && Sim(m3, mv.w, base) && m3.frame == m.frame && m3.stack == []
              && (!prog[id].isVoid && o.Returned? && o.value.Some? ==> Value(ResultObj(ls[id].c.ret), m3) == o.value.value)
    decreases fuel, |prog[id].body| + 2
  {
    var k := ls[id].c;
    var l, w1 := CallBegun(code, entry, prog, ls, id, args, t, w, c, m, base, back, values);
    assert RoutineAt(code, entry, prog, ls, id) by { assert Show(Linking, 0); }
    RoomyOn(code, entry, w, l, w1);
    CallBody(prog, id, values, fuel, o);
    assert prog[id].body[0..] == prog[id].body;
    var r, s := RoutineRuns(code, entry, prog, ls, id, 0, w1, w1, Passed(k.types, values, |k.types|), fuel, o);
    assert BodyDoes(code, entry, k, w1, o);
    n, mv, m3 := ComesTo(code, entry, t, k, m, base, w, back, o);
  }

  lemma ComesTo(code: seq<Quad>, entry: map<nat, nat>, t: Site, k: Callee, m: Mem, base: int, w: World, back: nat, o: Outcome)
    returns (n: nat, mv: Move, m3: Mem)
    requires Comes(code, entry, t, k, m, base, w, back, o) && !o.OutOfFuel?
    ensures Reaches(code, entry, w, n, mv)
    ensures if o.Fault? then mv == Stop else mv.Go? && Back(t, k, m, base, back, w, o, mv.w, m3)
  {
    m3 := m;
    if o.Fault? {
      n :| Reaches(code, entry, w, n, Stop);
      mv := Stop;
    } else {
      var w2;
      n, w2, m3 :| Reaches(code, entry, w, n, Go(w2)) && Back(t, k, m, base, back, w, o, w2, m3);
      mv := Go(w2);
    }
  }

  /** From any piece on, a function's code comes to what the rest of its body does. */
  lemma {:induction false} RoutineRuns(code: seq<Quad>, entry: map<nat, nat>, prog: seq<Routine>, ls: seq<Layout>, k: nat, i: nat,
                                       w0: World, w: World, frame: Frame, fuel: nat, o: Outcome) returns (n: nat, mv: Move)
    requires ProgramAt(code, entry, prog, ls) && k < |prog| && i <= |prog[k].body| && Roomy(code, entry, w)
    requires RoutineAt(code, entry, prog, ls, k) && Standing(ls[k].c, w0, w, ls[k].marks[i], frame)
    requires BodyGives(prog, prog[k].body[i..], frame, prog[k].ret, fuel, o) && !o.OutOfFuel?
    ensures Reaches(code, entry, w, n, mv) && Ended(ls[k].c, w0, mv, o)
    decreases fuel, |prog[k].body| - i + 1
  {
    var ps := prog[k].body[i..];
    if ps == [] {
      NoneLeft(prog, frame, prog[k].ret, fuel, o);
      n, mv := 0, Go(w);
      ReachNow(code, entry, w);
    } else {
      assert ps[1..] == prog[k].body[i + 1..];
      var o1 := FirstEnds(prog, ps, frame, prog[k].ret, fuel, o);
      var n1, mv1 := PieceRuns(code, entry, prog, ls, k, i, w0, w, frame, fuel, o1);
      if o1.Normal? {
        var w1 := mv1.w;
        assert mv1 == Go(w1);
        RoomyOn(code, entry, w, n1, w1);
        var n2;
        n2, mv := RoutineRuns(code, entry, prog, ls, k, i + 1, w0, w1, o1.frame, fuel, o);
        n := n1 + n2;
        ReachBoth(code, entry, w, w1, n1, n2, mv, n);
      } else {
        n, mv := n1, mv1;
      }
    }
  }

  // ---------------------------------------------------------------- programs that go on for ever

  /** The rest of the body does not end, however long one waits. */
  ghost predicate GoesOn(prog: seq<Routine>, ps: seq<Piece>, frame: Frame, ret: Type) {
    forall u: nat {:trigger Show(Ending, u)} :: Show(Ending, u) ==> forall fuel: nat :: Execute(prog, ps, frame, ret, fuel) == Some(OutOfFuel)
  }

  ghost predicate PieceGoesOn(prog: seq<Routine>, p: Piece, frame: Frame, ret: Type) {
    forall u: nat {:trigger Show(Ending, u)} :: Show(Ending, u) ==> forall fuel: nat :: ExecutePiece(prog, p, frame, ret, fuel) == Some(OutOfFuel)
  }

  /** The machine takes n steps and more without stopping. */
  ghost predicate Lasts(code: seq<Quad>, entry: map<nat, nat>, w: World, n: nat) {
    exists l: nat, w2: World :: l >= n && Reaches(code, entry, w, l, Go(w2))
  }

  lemma LastsOn(code: seq<Quad>, entry: map<nat, nat>, w: World, a: nat, w1: World, n: nat, m: nat)
    requires Reaches(code, entry, w, a, Go(w1)) && Lasts(code, entry, w1, n) && m <= a + n
    ensures Lasts(code, entry, w, m)
  {
    var l: nat, w2: World :| l >= n && Reaches(code, entry, w1, l, Go(w2));
    ReachBoth(code, entry, w, w1, a, l, Go(w2), a + l);
  }

  /** Either the first piece goes on for ever, or it ends and the others do. */
  lemma FirstGoesOn(prog: seq<Routine>, ps: seq<Piece>, frame: Frame, ret: Type) returns (ends: bool, fuel: nat, f: Frame)
    requires GoesOn(prog, ps, frame, ret)
    ensures ps != []
    ensures if ends then PieceGives(prog, ps[0], frame, ret, fuel, Normal(f)) && GoesOn(prog, ps[1..], f, ret)
            else PieceGoesOn(prog, ps[0], frame, ret)
  {
    assert Show(Ending, 0);
    assert Execute(prog, ps, frame, ret, 0) == Some(OutOfFuel);
    ends, fuel, f := false, 0, frame;
    if !PieceGoesOn(prog, ps[0], frame, ret) {
      fuel :| ExecutePiece(prog, ps[0], frame, ret, fuel) != Some(OutOfFuel);
      var o := ExecutePiece(prog, ps[0], frame, ret, fuel);
      assert Execute(prog, ps, frame, ret, fuel) == Some(OutOfFuel);
      ends, f := true, o.value.frame;
      forall more: nat
        ensures Execute(prog, ps[1..], f, ret, more) == Some(OutOfFuel)
      {
        RestGoesOn(prog, ps, frame, ret, fuel, f, more);
      }
    }
  }

  lemma RestGoesOn(prog: seq<Routine>, ps: seq<Piece>, frame: Frame, ret: Type, fuel: nat, f: Frame, more: nat)
    requires GoesOn(prog, ps, frame, ret) && ps != [] && ExecutePiece(prog, ps[0], frame, ret, fuel) == Some(Normal(f))
    ensures Execute(prog, ps[1..], f, ret, more) == Some(OutOfFuel)
  {
    assert Show(Ending, 0);
    var most := if fuel < more then more else fuel;
    PieceMore(prog, ps[0], frame, ret, fuel, most);
    assert Execute(prog, ps, frame, ret, most) == Some(OutOfFuel);
    if Execute(prog, ps[1..], f, ret, more) != Some(OutOfFuel) { ExecuteMore(prog, ps[1..], f, ret, more, most); }
  }

  lemma InvokeGoesOn(prog: seq<Routine>, p: Piece, frame: Frame, ret: Type, v: Option<seq<int>>)
    requires PieceGoesOn(prog, p, frame, ret) && p.Invoke? && v == EvalAll(p.args, frame)
    requires p.id < |prog| && |p.args| == |prog[p.id].types|
    ensures v.Some? && GoesOn(prog, prog[p.id].body, Passed(prog[p.id].types, v.value, |v.value|), prog[p.id].ret)
  {
    assert Show(Ending, 0);
    assert ExecutePiece(prog, p, frame, ret, 0) == Some(OutOfFuel);
    var r := prog[p.id];
    forall fuel: nat
      ensures Execute(prog, r.body, Passed(r.types, v.value, |v.value|), r.ret, fuel) == Some(OutOfFuel)
    {
      assert ExecutePiece(prog, p, frame, ret, fuel + 1) == Some(OutOfFuel);
      var o := ExecuteCall(prog, p.id, v.value, fuel);
    }
  }

  lemma StmtGoesOn(prog: seq<Routine>, p: Piece, frame: Frame, ret: Type, fuel: nat)
    requires PieceGoesOn(prog, p, frame, ret) && p.Piece?
    ensures Exec(p.s, frame, ret, fuel) == OutOfFuel
  {
    assert Show(Ending, 0);
    assert ExecutePiece(prog, p, frame, ret, fuel) == Some(OutOfFuel);
  }

  lemma StmtLasts(code: seq<Quad>, entry: map<nat, nat>, c: Callee, s: Stmt, at: nat, end: nat, w0: World, w: World, frame: Frame, n: nat)
    requires StmtAt(code, c, s, at, end) && StmtIn(AreaOf(c), s) && Standing(c, w0, w, at, frame)
    requires forall fuel: nat :: Exec(s, frame, c.ret, fuel) == OutOfFuel
    ensures Lasts(code, entry, w, n)
  {
    var m := SimStart(AreaOf(c), frame, w);
    forall fuel: nat
      ensures !ExecStops(s, m.frame, c.ret, fuel)
    {
      assert Exec(s, frame, c.ret, fuel) == OutOfFuel;
      ExecAlike(AreaOf(c), s, frame, m.frame, c.ret, fuel);
    }
    SameProgram(code, s, at, end, c.ret, c.fin, m);
    assert !RunStops(code, at, end, m, n);
    TidyQuiet(AreaOf(c), code, at, end);
    var r := RunIn(code, at, end, at, m, n);
    var k, mv := SimRunIn(code, entry, at, end, m, w, w.sp, n, r);
  }

  lemma {:induction false} RoutineLasts(code: seq<Quad>, entry: map<nat, nat>, prog: seq<Routine>, ls: seq<Layout>, k: nat, i: nat,
                                        w0: World, w: World, frame: Frame, n: nat)
    requires ProgramAt(code, entry, prog, ls) && k < |prog| && i <= |prog[k].body| && Roomy(code, entry, w)
    requires RoutineAt(code, entry, prog, ls, k) && Standing(ls[k].c, w0, w, ls[k].marks[i], frame)
    requires GoesOn(prog, prog[k].body[i..], frame, prog[k].ret)
    ensures Lasts(code, entry, w, n)
    decreases n, |prog[k].body| - i, 1
  {
    var ps := prog[k].body[i..];
    var ends, fuel, f := FirstGoesOn(prog, ps, frame, prog[k].ret);
    if ends {
      assert ps[1..] == prog[k].body[i + 1..];
      var n1, mv1 := PieceRuns(code, entry, prog, ls, k, i, w0, w, frame, fuel, Normal(f));
      var w1 := mv1.w;
      assert mv1 == Go(w1);
      RoomyOn(code, entry, w, n1, w1);
      RoutineLasts(code, entry, prog, ls, k, i + 1, w0, w1, f, n);
      LastsOn(code, entry, w, n1, w1, n, n);
    } else {
      PieceLasts(code, entry, prog, ls, k, i, w0, w, frame, n);
    }
  }

  lemma {:induction false} PieceLasts(code: seq<Quad>, entry: map<nat, nat>, prog: seq<Routine>, ls: seq<Layout>, k: nat, i: nat,
                                      w0: World, w: World, frame: Frame, n: nat)
    requires ProgramAt(code, entry, prog, ls) && k < |prog| && i < |prog[k].body| && Roomy(code, entry, w)
    requires RoutineAt(code, entry, prog, ls, k) && Standing(ls[k].c, w0, w, ls[k].marks[i], frame)
    requires PieceGoesOn(prog, prog[k].body[i], frame, prog[k].ret)
    ensures Lasts(code, entry, w, n)
    decreases n, |prog[k].body| - i, 0
  {
    var p, c := prog[k].body[i], ls[k].c;
    assert PieceAt(code, prog, ls, k, i);
    if p.Piece? {
      forall fuel: nat ensures Exec(p.s, frame, c.ret, fuel) == OutOfFuel { StmtGoesOn(prog, p, frame, c.ret, fuel); }
      StmtLasts(code, entry, c, p.s, ls[k].marks[i], ls[k].marks[i + 1], w0, w, frame, n);
    } else if n == 0 {
      ReachNow(code, entry, w);
    } else {
      CallLasts(code, entry, prog, ls, c, p, ls[k].sites[i], ls[k].marks[i], ls[k].marks[i + 1], w0, w, frame, prog[k].ret, n);
    }
  }

  lemma {:induction false} CallLasts(code: seq<Quad>, entry: map<nat, nat>, prog: seq<Routine>, ls: seq<Layout>, c: Callee, p: Piece,
                                     t: Site, at: nat, end: nat, w0: World, w: World, frame: Frame, ret: Type, n: nat)
    requires ProgramAt(code, entry, prog, ls) && Roomy(code, entry, w) && Standing(c, w0, w, at, frame) && n > 0
    requires p.Invoke? && PieceIn(prog, AreaOf(c), p) && CallAt(code, c, ls[p.id].c, prog[p.id].isVoid, p, t, at, end)
    requires PieceGoesOn(prog, p, frame, ret)
    ensures Lasts(code, entry, w, n)
    decreases n - 1, |prog[p.id].body| + 1
  {
    var call, back, m, v, n1, w1, m2 := ReadyToCall(code, entry, c, ls[p.id].c, prog[p.id].isVoid, p, t, at, end, w0, w, frame);
    InvokeGoesOn(prog, p, frame, ret, v);
    RoomyOn(code, entry, w, n1, w1);
    var l, w2 := CallBegun(code, entry, prog, ls, p.id, p.args, t, w1, c, m2, w.sp, back, v.value);
    RoomyOn(code, entry, w1, l, w2);
    var k := ls[p.id].c;
    assert RoutineAt(code, entry, prog, ls, p.id) by { assert Show(Linking, 0); }
    assert prog[p.id].body[0..] == prog[p.id].body;
    RoutineLasts(code, entry, prog, ls, p.id, 0, w2, w2, Passed(k.types, v.value, |k.types|), n - 1);
    LastsOn(code, entry, w1, l, w2, n - 1, n);
    LastsOn(code, entry, w, n1, w1, n, n);
  }

  /** The state in which the called function's body begins. */
  lemma CallBegun(code: seq<Quad>, entry: map<nat, nat>, prog: seq<Routine>, ls: seq<Layout>, id: nat, args: seq<Expr>,
                  t: Site, w: World, c: Callee, m: Mem, base: int, back: nat, values: seq<int>) returns (l: nat, w1: World)
    requires ProgramAt(code, entry, prog, ls) && id < |prog| && Roomy(code, entry, w) && base == w.bp - c.arSize
    requires SiteAt(code, c, ls[id].c, prog[id].isVoid, id, args, t, w.ip, back) && Sim(m, w, base)
    requires |values| == |prog[id].types| && HasValues(CodeArgs(args, {}).objs, m, values)
    ensures l > 0 && Reaches(code, entry, w, l, Go(w1)) && ls[id].c.types == prog[id].types
    ensures var k := ls[id].c; Standing(k, w1, w1, k.f + 1, Passed(k.types, values, |k.types|))
    ensures forall o :: BodyDoes(code, entry, ls[id].c, w1, o) ==> Comes(code, entry, t, ls[id].c, m, base, w, back, o)
  {
    var k := ls[id].c;
    assert RoutineAt(code, entry, prog, ls, id) by { assert Show(Linking, 0); }
    ReachNow(code, entry, w);
    l, w1 := CallThrough(code, entry, t, k, m, w, base, back);
    BegunAlike(k, values, Around(w1.bytes, w1.bp));
    SeenAround(AreaOf(k), Passed(k.types, values, |k.types|), w1);
  }

  // ---------------------------------------------------------------- a function from its beginning

  /** Function id has been entered with these values. */
  ghost predicate Entering(c: Callee, values: seq<int>, w: World)
    requires |values| == |c.types|
  {
    w.ip == c.f + 1 && w.sp == w.bp - c.arSize && Begun(Around(w.bytes, w.bp), c, values)
  }

  /** A function of a compiled program, entered with some values, comes to its end, or to an
      error, as its source says; and if its source never ends, neither does the machine. */
  lemma ProgramRuns(code: seq<Quad>, entry: map<nat, nat>, prog: seq<Routine>, ls: seq<Layout>, id: nat, values: seq<int>, w: World)
    requires ProgramAt(code, entry, prog, ls) && Roomy(code, entry, w) && id < |prog| && |values| == |prog[id].types|
    requires ls[id].c.types == prog[id].types && Entering(ls[id].c, values, w)
    ensures forall fuel: nat, o :: ExecuteCall(prog, id, values, fuel) == Some(o) && !o.OutOfFuel? ==>
              exists n: nat, mv :: Reaches(code, entry, w, n, mv) && Ended(ls[id].c, w, mv, o)
    ensures (forall fuel: nat :: ExecuteCall(prog, id, values, fuel) == Some(OutOfFuel)) ==> forall n: nat :: Lasts(code, entry, w, n)
  {
    var c, r := ls[id].c, prog[id];
    assert RoutineAt(code, entry, prog, ls, id) by { assert Show(Linking, 0); }
    BegunAlike(c, values, Around(w.bytes, w.bp));
    var frame := Passed(r.types, values, |values|);
    SeenAround(AreaOf(c), frame, w);
    assert r.body[0..] == r.body;
    forall fuel: nat, o | ExecuteCall(prog, id, values, fuel) == Some(o) && !o.OutOfFuel?
      ensures exists n: nat, mv :: Reaches(code, entry, w, n, mv) && Ended(c, w, mv, o)
    {
      assert BodyGives(prog, r.body, frame, r.ret, fuel, o);
      var n, mv := RoutineRuns(code, entry, prog, ls, id, 0, w, w, frame, fuel, o);
    }
    if forall fuel: nat :: ExecuteCall(prog, id, values, fuel) == Some(OutOfFuel) {
      assert GoesOn(prog, r.body, frame, r.ret) by {
        forall fuel: nat ensures Execute(prog, r.body, frame, r.ret, fuel) == Some(OutOfFuel) {
          assert ExecuteCall(prog, id, values, fuel) == Some(OutOfFuel);
        }
      }
      forall n: nat ensures Lasts(code, entry, w, n) { RoutineLasts(code, entry, prog, ls, id, 0, w, w, frame, n); }
    }
  }
}
