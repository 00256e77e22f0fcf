/** A whole call, from the caller's first quad through the called function and back: the
    arguments are where the function looks for them, and the caller finds its memory,
    its pointers and its registers as they were, and the result in a register. */
module MexReturn {
  import opened Wrappers
  import opened MexTypes
  import opened MexVm
  import opened MexSource
  import opened MexCode
  import opened MexFlow
  import opened MexMeaning
  import opened MexEquivalence
  import opened MexRegs
  import opened MexCall
  import opened MexStack

  // ---------------------------------------------------------------- entering and leaving

  /** Memory as it is seen from bp. */
  function Around(bytes: Frame, bp: int): Frame {
    var keys := set a | a in bytes :: a - bp;
    map i | i in keys :: bytes[i + bp]
  }

  lemma AroundByte(bytes: Frame, bp: int, i: int)
    ensures ByteAt(Around(bytes, bp), i) == ByteAt(bytes, bp + i)
  {
    assert forall a :: a in bytes && a - bp == i ==> a == bp + i;
    assert bp + i in bytes ==> (bp + i) - bp == i;
  }

  lemma AroundAgrees(bytes: Frame, bp: int, base: int)
    ensures Agree(Around(bytes, bp), bytes, bp, base)
  {
    forall a: int
      ensures ByteAt(Around(bytes, bp), a - bp) == ByteAt(bytes, a)
    {
      AroundByte(bytes, bp, a - bp);
    }
  }

  lemma PowerIs()
    ensures Power(PTR_SIZE) == SPACE
  {
    assert Power(4) == 0x1_0000_0000;
    assert Power(8) == 0x100 * (0x100 * (0x100 * (0x100 * Power(4))));
  }

  /** A pushed pointer can be read back. */
  lemma PointerRead(w: World, p: int)
    requires 0 <= p < SPACE
    ensures TopPointer(PushPointer(w, p)) == p
  {
    PowerIs();
    SmallMod(p);
    LoadStoreN(w.bytes, w.sp - PTR_SIZE, p, PTR_SIZE);
  }

  lemma SmallMod(p: int)
    requires 0 <= p < SPACE
    ensures p % SPACE == p
  {
  }

  /** What lies above it has not changed. */
  lemma PointerElse(w: World, p: int)
    ensures forall a :: a >= w.sp ==> ByteAt(PushPointer(w, p).bytes, a) == ByteAt(w.bytes, a)
  {
    forall a | a >= w.sp
      ensures ByteAt(StoreN(w.bytes, w.sp - PTR_SIZE, p % SPACE, PTR_SIZE), a) == ByteAt(w.bytes, a)
    {
      StoreNElse(w.bytes, w.sp - PTR_SIZE, p % SPACE, PTR_SIZE, a);
    }
  }

  /** The state in which a function's body begins. */
  ghost predicate Entered(w: World, w2: World, start: nat, arSize: nat) {
    && w2.ip == start && w2.bp == w.sp - AR_CONTROL_DATA && w2.sp == w2.bp - arSize && w2.temps == w.temps
    && LoadN(w2.bytes, w2.bp, PTR_SIZE) == w.bp && LoadN(w2.bytes, w2.bp + PTR_SIZE, PTR_SIZE) == w.ip + 1
    && (forall a :: a >= w.sp ==> ByteAt(w2.bytes, a) == ByteAt(w.bytes, a))
    && forall a :: w2.sp <= a < w2.bp ==> ByteAt(w2.bytes, a) == 0
  }

  lemma JumpStep(code: seq<Quad>, entry: map<nat, nat>, w: World, id: nat, f: nat) returns (w1: World)
    requires w.ip < |code| < SPACE && code[w.ip] == QFuncJump(id) && id in entry && entry[id] == f
    ensures StepsTo(code, entry, w, Go(w1))
    ensures w1.ip == f && w1.bp == w.bp && w1.sp == w.sp - PTR_SIZE && w1.temps == w.temps
    ensures LoadN(w1.bytes, w1.sp, PTR_SIZE) == w.ip + 1 && forall a :: a >= w.sp ==> ByteAt(w1.bytes, a) == ByteAt(w.bytes, a)
  {
    var next := w.(ip := w.ip + 1);
    w1 := PushPointer(next, next.ip).(ip := f);
    assert Step(code, entry, w) == Go(w1);
    PointerRead(next, next.ip);
    PointerElse(next, next.ip);
  }

  lemma StartStep(code: seq<Quad>, entry: map<nat, nat>, w: World, arSize: nat) returns (w2: World)
    requires w.ip < |code| && code[w.ip] == QFuncStart(arSize) && 0 <= w.bp < SPACE
    ensures StepsTo(code, entry, w, Go(w2))
    ensures w2.ip == w.ip + 1 && w2.bp == w.sp - PTR_SIZE && w2.sp == w2.bp - arSize && w2.temps == w.temps
    ensures LoadN(w2.bytes, w2.bp, PTR_SIZE) == w.bp && forall a :: a >= w.sp ==> ByteAt(w2.bytes, a) == ByteAt(w.bytes, a)
    ensures forall a :: w2.sp <= a < w2.bp ==> ByteAt(w2.bytes, a) == 0
  {
    var next := w.(ip := w.ip + 1);
    var saved := PushPointer(next, w.bp);
    PointerRead(next, w.bp);
    PointerElse(next, w.bp);
    w2 := BaseSet(saved, arSize);
    StartIs(code, entry, w, arSize);
  }

  lemma StartIs(code: seq<Quad>, entry: map<nat, nat>, w: World, arSize: nat)
    requires w.ip < |code| && code[w.ip] == QFuncStart(arSize)
    ensures StepsTo(code, entry, w, Go(Based(PushPointer(w.(ip := w.ip + 1), w.bp), arSize)))
  {
  }

  function Based(saved: World, arSize: nat): World {
    saved.(bp := saved.sp, sp := saved.sp - arSize, bytes := Zeroed(saved.bytes, saved.sp - arSize, arSize))
  }

  lemma BaseSet(saved: World, arSize: nat) returns (w2: World)
    ensures w2 == Based(saved, arSize)
    ensures LoadN(w2.bytes, w2.bp, PTR_SIZE) == TopPointer(saved)
    ensures forall a :: a >= saved.sp ==> ByteAt(w2.bytes, a) == ByteAt(saved.bytes, a)
    ensures forall a :: w2.sp <= a < w2.bp ==> ByteAt(w2.bytes, a) == 0
  {
    w2 := Based(saved, arSize);
    AllZeroed(saved.bytes, saved.sp - arSize, arSize);
    LoadNSame(saved.bytes, w2.bytes, w2.bp, PTR_SIZE);
  }

  lemma AllZeroed(bytes: Frame, at: int, n: nat)
    ensures forall a: int :: ByteAt(Zeroed(bytes, at, n), a) == if at <= a < at + n then 0 else ByteAt(bytes, a)
  {
    forall a: int
      ensures ByteAt(Zeroed(bytes, at, n), a) == if at <= a < at + n then 0 else ByteAt(bytes, a)
    {
      ZeroedByte(bytes, at, n, a);
    }
  }

  lemma Enter(code: seq<Quad>, entry: map<nat, nat>, w: World, id: nat, f: nat, arSize: nat) returns (w2: World)
    requires w.ip < |code| < SPACE && code[w.ip] == QFuncJump(id) && id in entry && entry[id] == f
    requires f < |code| && code[f] == QFuncStart(arSize) && 0 <= w.bp < SPACE
    ensures Reaches(code, entry, w, 2, Go(w2)) && Entered(w, w2, f + 1, arSize)
  {
    var w1 := JumpStep(code, entry, w, id, f);
    w2 := StartStep(code, entry, w1, arSize);
    LoadNSame(w1.bytes, w2.bytes, w1.sp, PTR_SIZE);
    ReachNow(code, entry, w2);
    ReachOn(code, entry, w1, Go(w2), 0, Go(w2), 1);
    ReachOn(code, entry, w, Go(w1), 1, Go(w2), 2);
  }

  lemma Leave(code: seq<Quad>, entry: map<nat, nat>, w: World, argSize: nat, arSize: nat, bp: nat, ip: nat) returns (w2: World)
    requires w.ip < |code| && code[w.ip] == QFuncRet(argSize, arSize) && w.sp == w.bp - arSize
    requires LoadN(w.bytes, w.bp, PTR_SIZE) == bp && LoadN(w.bytes, w.bp + PTR_SIZE, PTR_SIZE) == ip
    ensures StepsTo(code, entry, w, Go(w2))
    ensures w2 == World(w.bytes, w.temps, bp, w.bp + AR_CONTROL_DATA + argSize, ip)
  {
    w2 := w.(bp := bp, ip := ip, sp := w.bp + AR_CONTROL_DATA + argSize);
  }

  // ---------------------------------------------------------------- the body

  /** Is the byte at the offset one of the area? */
  predicate InArea(b: Area, i: int)
    requires b.Area?
  {
    (0 <= b.locals + i && i < 0) || AR_CONTROL_DATA <= i < AR_CONTROL_DATA + b.args
  }

  ghost predicate Untouched(b: Area, frame: Frame, frame2: Frame)
    requires b.Area?
  {
    forall u: nat {:trigger Show(Acting, u)} :: Show(Acting, u) ==>
      forall i :: !InArea(b, i) ==> ByteAt(frame2, i) == ByteAt(frame, i)
  }

  lemma TidyPut(b: Area, m: Mem, f: Form, p: Place, v: nat)
    requires b.Area? && TidyPlace(b, f, p)
    ensures Untouched(b, m.frame, Put(m, f, p, v).frame)
  {
    if p.Ar? {
      forall i | !InArea(b, i)
        ensures ByteAt(Store(m.frame, f, p.ofs, v), i) == ByteAt(m.frame, i)
      {
        StoreElse(m.frame, f, p.ofs, v, i);
      }
    }
  }

  lemma TidyStep(b: Area, q: Quad, m: Mem)
    requires b.Area? && Tidy(b, q) && Plain(q) && Do(q, m).Some?
    ensures Untouched(b, m.frame, Do(q, m).value.frame)
  {
    match q {
      case QBin(op, f, fSigned, arg1, arg2, dest) =>
        var v := VmOp(op, f, fSigned, Fetch(m, f, arg1), Fetch(m, f, arg2));
        TidyPut(b, m, ResultForm(op, f), dest, v.value);
      case QConvert(from, fSigned, to, arg1, dest) =>
        TidyPut(b, m, to, dest, Raw(to, Val(Type(from, fSigned), Fetch(m, from, arg1))));
      case QAssign(f, arg1, dest) => TidyPut(b, m, f, dest, Fetch(m, f, arg1));
    }
  }

  lemma UntouchedOn(b: Area, f1: Frame, f2: Frame, f3: Frame)
    requires b.Area? && Untouched(b, f1, f2) && Untouched(b, f2, f3)
    ensures Untouched(b, f1, f3)
  {
    assert Show(Acting, 0);
  }

  /** A run of tidy code changes nothing outside its area. */
  lemma {:induction false} TidyRun(b: Area, code: seq<Quad>, lo: nat, hi: nat, pc: nat, m: Mem, n: nat, r: Result)
    requires b.Area? && hi <= |code| && (forall i :: lo <= i < hi ==> Tidy(b, code[i]))
    requires Runs(code, lo, hi, pc, m, n, r) && r.Exit?
    ensures Untouched(b, m.frame, r.mem.frame)
    decreases n
  {
    if lo <= pc < hi {
      var q := code[pc];
      var pc1, m1 := TidyNext(b, code, lo, hi, pc, q, m, n, r);
      TidyRun(b, code, lo, hi, pc1, m1, n - 1, r);
      UntouchedOn(b, m.frame, m1.frame, r.mem.frame);
    } else {
      RunsNow(code, lo, hi, m, World(map[], map[], 0, 0, pc), n, r);
    }
  }

  lemma TidyNext(b: Area, code: seq<Quad>, lo: nat, hi: nat, pc: nat, q: Quad, m: Mem, n: nat, r: Result) returns (pc1: nat, m1: Mem)
    requires b.Area? && lo <= pc < hi <= |code| && q == code[pc] && Tidy(b, q)
    requires Runs(code, lo, hi, pc, m, n, r) && r.Exit?
    ensures n > 0 && Runs(code, lo, hi, pc1, m1, n - 1, r) && Untouched(b, m.frame, m1.frame)
  {
    assert ShowAt(Topic.Run, pc, 0);
    if Jump(q) {
      pc1, m1 := Next(q, pc, m), m;
    } else {
      TidyStep(b, q, m);
      OneStep(code, lo, hi, pc, m, n);
      pc1, m1 := pc + 1, Do(q, m).value;
    }
  }

  lemma TidyQuiet(b: Area, code: seq<Quad>, lo: nat, hi: nat)
    requires b.Area? && lo <= hi <= |code| && AllTidy(b, code[lo..hi])
    ensures QuietIn(code, lo, hi, 0 - b.locals) && forall i :: lo <= i < hi ==> Tidy(b, code[i])
  {
    forall i | lo <= i < hi
      ensures Tidy(b, code[i])
    {
      assert code[i] == code[lo..hi][i - lo];
    }
  }

  lemma TidyAbove(b: Area, qs: seq<Quad>)
    requires b.Area? && AllTidy(b, qs)
    ensures AllInFile(qs) && AllAbove(0 - b.locals, qs)
  {
  }

  // ---------------------------------------------------------------- the called function

  function ArgBytes(types: seq<Type>): nat {
    if types == [] then 0 else ArgBytes(types[..|types| - 1]) + Size(types[|types| - 1].form)
  }

  /** A function's place in the code, and what it takes and returns. */
  datatype Callee = Callee(f: nat, fin: nat, ret: Type, types: seq<Type>, arSize: nat)

  /** The function begins and ends with the sizes of its frame. */
  predicate Framed(code: seq<Quad>, c: Callee) {
    && c.f < c.fin < |code|
    && code[c.f] == QFuncStart(c.arSize) && code[c.fin] == QFuncRet(ArgBytes(c.types), c.arSize)
  }

  /** The code of a body is there in between, and it keeps to its registers, its locals
      and its arguments. */
  ghost predicate Callable(code: seq<Quad>, c: Callee, body: Stmt) {
    && Framed(code, c)
    && forall u: nat {:trigger Show(Emitted, u)} :: Show(Emitted, u) ==>
         && c.fin == c.f + 1 + Len(body, c.ret)
         && code[c.f + 1..c.fin] == Code(body, c.f + 1, c.ret, c.fin)
         && AllTidy(Area(c.arSize, ArgBytes(c.types)), code[c.f + 1..c.fin])
  }

  /** What a function leaves behind, seen from the state in which its body began. */
  ghost predicate Finished(c: Callee, w: World, w2: World, o: Outcome) {
    && w2.ip == c.fin && w2.bp == w.bp && w2.sp == w.sp
    && (forall a :: a >= w.sp && !InArea(Area(c.arSize, ArgBytes(c.types)), a - w.bp) ==> ByteAt(w2.bytes, a) == ByteAt(w.bytes, a))
    && (o.Returned? && o.value.Some? ==> Val(c.ret, Get(w2.temps, Reg(c.ret.form, 0))) == o.value.value)
  }

  /** How the machine is when a function's body has ended with an outcome. */
  ghost predicate Ended(c: Callee, w: World, s: Move, o: Outcome) {
    if o.Fault? then s == Stop else s.Go? && Finished(c, w, s.w, o)
  }

  /** From the state w, in which the function's body begins, the machine comes to what the
      outcome says. */
  ghost predicate BodyDoes(code: seq<Quad>, entry: map<nat, nat>, c: Callee, w: World, o: Outcome) {
    o.OutOfFuel? || exists k: nat, s :: Reaches(code, entry, w, k, s) && Ended(c, w, s, o)
  }

  lemma BodyStops(code: seq<Quad>, c: Callee, body: Stmt, m: Mem, fuel: nat, o: Outcome) returns (n: nat, r: Result)
    requires Callable(code, c, body) && Ends(body, m.frame, c.ret, fuel, o) && !o.OutOfFuel?
    ensures Runs(code, c.f + 1, c.fin, c.f + 1, m, n, r) && Matches(r, o, m.stack, c.fin, c.fin, c.ret)
  {
    CallableBody(code, c, body);
    n, r := StopsAs(code, body, c.f + 1, c.ret, c.fin, m, fuel, o);
  }

  lemma CallableBody(code: seq<Quad>, c: Callee, body: Stmt)
    requires Callable(code, c, body)
    ensures c.fin == c.f + 1 + Len(body, c.ret) && Sits(code, c.f + 1, Code(body, c.f + 1, c.ret, c.fin))
  {
    var qs := Code(body, c.f + 1, c.ret, c.fin);
    assert c.fin == c.f + 1 + |qs| && code[c.f + 1..c.fin] == qs && AllTidy(Area(c.arSize, ArgBytes(c.types)), qs) by {
      assert Show(Emitted, 0);
    }
    TidyInFile(Area(c.arSize, ArgBytes(c.types)), qs);
    assert Sits(code, c.f + 1, qs);
  }

  lemma StopsAs(code: seq<Quad>, s: Stmt, addr: nat, ret: Type, fin: nat, m: Mem, fuel: nat, o: Outcome) returns (n: nat, r: Result)
    requires fin == addr + Len(s, ret) && Sits(code, addr, Code(s, addr, ret, fin)) && Ends(s, m.frame, ret, fuel, o) && !o.OutOfFuel?
    ensures Runs(code, addr, fin, addr, m, n, r) && Matches(r, o, m.stack, fin, fin, ret)
  {
    SameProgram(code, s, addr, fin, ret, fin, m);
    assert ExecStops(s, m.frame, ret, fuel) && Exec(s, m.frame, ret, fuel) == o by { assert ShowOf(Ending, s, 0); }
    n :| RunStops(code, addr, fin, m, n);
    r := RunIn(code, addr, fin, addr, m, n);
  }

  /** The body of a function, in the memory it finds. */
  lemma BodyRuns(code: seq<Quad>, entry: map<nat, nat>, c: Callee, body: Stmt, w: World, frame: Frame, fuel: nat, o: Outcome)
    returns (k: nat, s: Move)
    requires Callable(code, c, body) && w.ip == c.f + 1 && w.sp == w.bp - c.arSize && frame == Around(w.bytes, w.bp)
    requires Ends(body, frame, c.ret, fuel, o) && !o.OutOfFuel?
    ensures Reaches(code, entry, w, k, s) && Ended(c, w, s, o)
  {
    var b, start := Area(c.arSize, ArgBytes(c.types)), c.f + 1;
    var m := Mem(frame, w.temps, []);
    AroundAgrees(w.bytes, w.bp, w.sp);
    assert AllTidy(b, code[start..c.fin]) by { assert Show(Emitted, 0); }
    TidyQuiet(b, code, start, c.fin);
    var n, r := BodyStops(code, c, body, m, fuel, o);
    k, s := SimRunIn(code, entry, start, c.fin, m, w, w.sp, n, r);
    if r.Exit? {
      TidyRun(b, code, start, c.fin, start, m, n, r);
      OutsideKept(b, m, r.mem, w, s.w);
    }
  }

  lemma OutsideKept(b: Area, m: Mem, m2: Mem, w: World, w2: World)
    requires b.Area? && Sim(m, w, w.sp) && Sim(m2, w2, w.sp) && w2.bp == w.bp && Untouched(b, m.frame, m2.frame)
    ensures forall a :: a >= w.sp && !InArea(b, a - w.bp) ==> ByteAt(w2.bytes, a) == ByteAt(w.bytes, a)
  {
    assert Show(Acting, 0) && Show(Framing, 0);
    forall a | a >= w.sp && !InArea(b, a - w.bp)
      ensures ByteAt(w2.bytes, a) == ByteAt(w.bytes, a)
    {
      assert ByteAt(m2.frame, a - w.bp) == ByteAt(m.frame, a - w.bp);
    }
  }

  // ---------------------------------------------------------------- cells in memory

  function Total(stack: seq<(Form, nat)>): nat {
    if stack == [] then 0 else Size(stack[|stack| - 1].0) + Total(stack[..|stack| - 1])
  }

  lemma {:induction false} StackedPeel(a: seq<(Form, nat)>, b: seq<(Form, nat)>, bytes: Frame, base: int, sp: int)
    requires Stacked(a + b, bytes, base, sp)
    ensures Stacked(a, bytes, base, sp + Total(b))
    decreases |b|
  {
    if b == [] {
      assert a + b == a;
    } else {
      var n := |b| - 1;
      assert (a + b)[..|a + b| - 1] == a + b[..n] && (a + b)[|a + b| - 1] == b[n];
      StackedPeel(a, b[..n], bytes, base, sp + Size(b[n].0));
    }
  }

  lemma {:induction false} StackedAt(stack: seq<(Form, nat)>, bytes: Frame, base: int, sp: int, k: nat)
    requires Stacked(stack, bytes, base, sp) && k < |stack|
    ensures Load(bytes, stack[k].0, sp + MexCall.Above(stack, k)) == stack[k].1
    decreases |stack|
  {
    var n := |stack| - 1;
    if k < n {
      StackedAt(stack[..n], bytes, base, sp + Size(stack[n].0), k);
      AboveLast(stack, k);
    }
  }

  lemma {:induction false} AboveLast(stack: seq<(Form, nat)>, k: nat)
    requires k < |stack| - 1
    ensures MexCall.Above(stack, k) == MexCall.Above(stack[..|stack| - 1], k) + Size(stack[|stack| - 1].0)
    decreases |stack| - k
  {
    if k < |stack| - 2 { AboveLast(stack, k + 1); }
  }

  lemma {:induction false} CellsTotal(types: seq<Type>, values: seq<int>)
    requires |types| == |values|
    ensures Total(Cells(types, values)) == ArgBytes(types)
    decreases |types|
  {
    if types != [] {
      var n := |types| - 1;
      CellsLast(types, values);
      TotalFirst((types[n].form, Raw(types[n].form, values[n])), Cells(types[..n], values[..n]));
      CellsTotal(types[..n], values[..n]);
    }
  }

  lemma {:induction false} TotalFirst(x: (Form, nat), stack: seq<(Form, nat)>)
    ensures Total([x] + stack) == Size(x.0) + Total(stack)
    decreases |stack|
  {
    if stack == [] {
      assert [x] + stack == [x] && [x][..0] == [];
    } else {
      var n := |stack| - 1;
      assert ([x] + stack)[..n + 1] == [x] + stack[..n];
      TotalFirst(x, stack[..n]);
    }
  }

  lemma {:induction false} OffsetPrefix(types: seq<Type>, n: nat, i: nat)
    requires i <= n <= |types|
    ensures ArgOffset(types[..n], i) == ArgOffset(types, i)
    decreases i
  {
    if i > 0 { OffsetPrefix(types, n, i - 1); }
  }

  /** The bytes that the return takes off are those that the declaration lays out. */
  lemma {:induction false} ArgBytesAre(types: seq<Type>)
    ensures ArgOffset(types, |types|) == AR_CONTROL_DATA + ArgBytes(types)
    decreases |types|
  {
    if types != [] {
      ArgBytesAre(types[..|types| - 1]);
      OffsetPrefix(types, |types| - 1, |types| - 1);
    }
  }

  // ---------------------------------------------------------------- the call

  /** A call: the registers saved around it, its arguments, the registers in use before
      it, the function's name, the type of the result, if it has one; its quads before
      and after the jump, and the registers in use after it, the result's aside. */
  datatype Site = Site(rs: seq<Saved>, args: seq<Obj>, live: set<Reg>, id: nat, res: Option<Type>,
                       begin: seq<Quad>, finish: seq<Quad>, end: set<Reg>)

  /** The quads are those that EndFuncCall emits for a call of the function. */
  ghost predicate Proper(t: Site, c: Callee) {
    && |t.args| == |c.types|
    && forall u: nat {:trigger Show(Calling, u)} :: Show(Calling, u) ==>
         && Apart(t.args, |t.args|, t.live) && Lists(t.rs, t.live)
         && (t.res.Some? ==> t.res.value == c.ret && Reg(c.ret.form, 0) !in t.live)
         && (t.begin, t.end) == (Pushes(t.rs) + ArgCode(t.args, c.types, |t.args|, t.live).0, ArgCode(t.args, c.types, |t.args|, t.live).1)
         && t.finish == Pops(t.rs) + ResultMove(t.res, t.end)
  }

  /** The call is in the code, keeps to the registers, and touches no variable below the
      offset lo. */
  ghost predicate Called(code: seq<Quad>, at: nat, t: Site, lo: int) {
    && at + |t.begin| + 1 + |t.finish| <= |code|
    && code[at..at + |t.begin|] == t.begin && code[at + |t.begin|] == QFuncJump(t.id)
    && code[at + |t.begin| + 1..at + |t.begin| + 1 + |t.finish|] == t.finish
    && AllInFile(t.begin) && AllInFile(t.finish) && AllAbove(lo, t.begin)
  }

  lemma {:induction false} PopsAbove(rs: seq<Saved>, lo: int)
    ensures AllAbove(lo, Pops(rs))
  {
    if rs != [] { PopsAbove(rs[1..], lo); }
  }

  lemma FinishAbove(t: Site, c: Callee, lo: int)
    requires Proper(t, c)
    ensures AllAbove(lo, t.finish)
  {
    PopsAbove(t.rs, lo);
    assert Show(Calling, 0);
  }

  /** What the quads before the jump put on the stack. */
  lemma Begins(t: Site, c: Callee, m: Mem) returns (m2: Mem, saved: seq<(Form, nat)>, values: seq<int>)
    requires Proper(t, c)
    ensures AllPlain(t.begin) && RunQ(t.begin, m) == Some(m2) && m2.frame == m.frame && |values| == |c.types|
    ensures m2.stack == saved + Cells(c.types, values)
    ensures IsSaved(t, m, saved) && values == Values(t.args, |t.args|, m)
  {
    assert Show(Calling, 0);
    m2 := CallBegins(t.rs, t.args, c.types, t.live, m);
    saved, values := m.stack + SavedCells(t.rs, m), Values(t.args, |t.args|, m);
  }

  ghost predicate IsSaved(t: Site, m: Mem, saved: seq<(Form, nat)>) {
    forall u: nat {:trigger Show(Keeping, u)} :: Show(Keeping, u) ==> saved == m.stack + SavedCells(t.rs, m)
  }

  /** What those after it take off. */
  lemma Finishes(t: Site, c: Callee, m: Mem, m3: Mem, saved: seq<(Form, nat)>) returns (m5: Mem)
    requires Proper(t, c) && IsSaved(t, m, saved) && m3.frame == m.frame && m3.stack == saved
    ensures AllPlain(t.finish) && RunQ(t.finish, m3) == Some(m5) && Kept(m, m5, t.end)
    ensures t.res.Some? ==> Value(InTemp(c.ret, Fresh(t.end, c.ret.form)), m5) == Val(c.ret, Get(m3.temps, Reg(c.ret.form, 0)))
  {
    assert Show(Calling, 0) && Show(Keeping, 0);
    EndIsLive(t, c, m);
    if t.res.Some? {
      m5 := CallReturns(t.rs, t.live, t.end, c.ret, m, m3);
    } else {
      m5 := CallEnds(t.rs, t.live, m, m3);
      assert t.finish == Pops(t.rs);
      KeptLess(m, m5, t.live, t.end);
    }
  }

  lemma KeptLess(m: Mem, m2: Mem, live: set<Reg>, end: set<Reg>)
    requires Kept(m, m2, live) && end <= live
    ensures Kept(m, m2, end)
  {
    assert Show(Keeping, 0);
  }

  lemma EndIsLive(t: Site, c: Callee, m: Mem)
    requires Proper(t, c)
    ensures t.end <= t.live
  {
    assert Show(Calling, 0);
    var a := ArgCode(t.args, c.types, |t.args|, t.live);
    var m2 := ArgsRun(t.args, c.types, |t.args|, t.live, a.0, a.1, m);
  }

  /** Each argument is in the frame at its offset, and the locals are zero. */
  ghost predicate Begun(frame: Frame, c: Callee, values: seq<int>)
    requires |values| == |c.types|
  {
    && (forall i :: 0 <= i < |c.types| ==>
          Load(frame, c.types[i].form, ArgOffset(c.types, i)) == Raw(c.types[i].form, values[i]))
    && forall i :: 0 <= c.arSize + i && i < 0 ==> ByteAt(frame, i) == 0
  }

  /** Where the called function's body begins: w0 is the state at the jump, w1 the one
      after it. */
  ghost predicate Inside(c: Callee, saved: seq<(Form, nat)>, values: seq<int>, w0: World, w1: World, base: int)
    requires |values| == |c.types|
  {
    Entered(w0, w1, c.f + 1, c.arSize) && Stacked(saved + Cells(c.types, values), w0.bytes, base, w0.sp)
  }

  lemma CallEnters(code: seq<Quad>, entry: map<nat, nat>, t: Site, c: Callee, m: Mem, w: World, base: int)
    returns (n: nat, w0: World, w1: World, saved: seq<(Form, nat)>, values: seq<int>)
    requires Proper(t, c) && Called(code, w.ip, t, base - w.bp) && Framed(code, c) && t.id in entry && entry[t.id] == c.f
    requires Sim(m, w, base) && 0 <= w.bp < SPACE && |code| < SPACE
    ensures n > 0 && Reaches(code, entry, w, n, Go(w1)) && values == Values(t.args, |t.args|, m) && IsSaved(t, m, saved) && |values| == |c.types|
    ensures w0.ip == w.ip + |t.begin| && w0.bp == w.bp && Agree(m.frame, w0.bytes, w.bp, base) && Inside(c, saved, values, w0, w1, base)
  {
    var m2;
    m2, saved, values := Begins(t, c, m);
    w0 := SimRunQ(code, entry, t.begin, m, w, base);
    w1 := Enter(code, entry, w0, t.id, c.f, c.arSize);
    n := |t.begin| + 2;
    ReachBoth(code, entry, w, w0, |t.begin|, 2, Go(w1), n);
  }

  /** What the function finds in its frame. */
  lemma CalleeSees(c: Callee, saved: seq<(Form, nat)>, values: seq<int>, w0: World, w1: World, base: int, frame: Frame)
    requires |values| == |c.types| && Inside(c, saved, values, w0, w1, base) && frame == Around(w1.bytes, w1.bp)
    ensures Begun(frame, c, values)
  {
    forall i | 0 <= i < |c.types|
      ensures Load(frame, c.types[i].form, ArgOffset(c.types, i)) == Raw(c.types[i].form, values[i])
    {
      ArgSeen(saved, c.types, values, i, w0, w1, base, c.types[i].form, ArgOffset(c.types, i), frame);
    }
    forall i | 0 <= c.arSize + i && i < 0
      ensures ByteAt(frame, i) == 0
    {
      AroundByte(w1.bytes, w1.bp, i);
    }
  }

  lemma ArgSeen(stack: seq<(Form, nat)>, types: seq<Type>, values: seq<int>, i: nat, w0: World, w1: World, base: int,
                f: Form, ofs: nat, frame: Frame)
    requires |types| == |values| && i < |types| && Stacked(stack + Cells(types, values), w0.bytes, base, w0.sp)
    requires w1.bp == w0.sp - AR_CONTROL_DATA && forall a :: a >= w0.sp ==> ByteAt(w1.bytes, a) == ByteAt(w0.bytes, a)
    requires f == types[i].form && ofs == ArgOffset(types, i) && frame == Around(w1.bytes, w1.bp)
    ensures Load(frame, f, ofs) == Raw(f, values[i])
  {
    var at := ArgInMemory(stack, types, values, i, w0.bytes, base, w0.sp, f, ofs);
    LoadSame(w1.bytes, w0.bytes, f, at);
    AroundAgrees(w1.bytes, w1.bp, at);
    LoadShifted(frame, w1.bytes, w1.bp, at, f, ofs);
  }

  lemma ArgInMemory(stack: seq<(Form, nat)>, types: seq<Type>, values: seq<int>, i: nat, bytes: Frame, base: int, sp: int,
                    f: Form, ofs: nat) returns (at: int)
    requires |types| == |values| && i < |types| && Stacked(stack + Cells(types, values), bytes, base, sp)
    requires f == types[i].form && ofs == ArgOffset(types, i)
    ensures at == sp - AR_CONTROL_DATA + ofs >= sp && Load(bytes, f, at) == Raw(f, values[i])
  {
    var all := stack + Cells(types, values);
    var k := |all| - 1 - i;
    ArgsWhereDeclared(types, values, i, stack);
    StackedAt(all, bytes, base, sp, k);
    at := sp + MexCall.Above(all, k);
  }

  /** Back at the quad after the call, with everything the caller had, and the result. */
  ghost predicate Back(t: Site, c: Callee, m: Mem, base: int, at: nat, w: World, o: Outcome, w2: World, m2: Mem) {
    && w2.ip == at && w2.bp == w.bp && Sim(m2, w2, base) && Kept(m, m2, t.end)
    && (t.res.Some? && o.Returned? && o.value.Some? ==> Value(InTemp(c.ret, Fresh(t.end, c.ret.form)), m2) == o.value.value)
  }

  /** The function leaves the control data alone. */
  lemma ControlKept(c: Callee, w1: World, w4: World, o: Outcome)
    requires Finished(c, w1, w4, o) && w1.sp == w1.bp - c.arSize
    ensures LoadN(w4.bytes, w1.bp, PTR_SIZE) == LoadN(w1.bytes, w1.bp, PTR_SIZE)
    ensures LoadN(w4.bytes, w1.bp + PTR_SIZE, PTR_SIZE) == LoadN(w1.bytes, w1.bp + PTR_SIZE, PTR_SIZE)
  {
    LoadNSame(w1.bytes, w4.bytes, w1.bp, PTR_SIZE);
    LoadNSame(w1.bytes, w4.bytes, w1.bp + PTR_SIZE, PTR_SIZE);
  }

  /** And everything above its arguments. */
  lemma CallerKept(c: Callee, w0: World, w1: World, w4: World, o: Outcome)
    requires Entered(w0, w1, c.f + 1, c.arSize) && Finished(c, w1, w4, o)
    ensures forall a :: a >= w0.sp + ArgBytes(c.types) ==> ByteAt(w4.bytes, a) == ByteAt(w0.bytes, a)
  {
    forall a | a >= w0.sp + ArgBytes(c.types)
      ensures ByteAt(w4.bytes, a) == ByteAt(w0.bytes, a)
    {
      assert !InArea(Area(c.arSize, ArgBytes(c.types)), a - w1.bp);
    }
  }

  /** The return, seen from the state at the end of the body. */
  lemma Leaves(code: seq<Quad>, entry: map<nat, nat>, c: Callee, w0: World, w1: World, w4: World, o: Outcome) returns (w5: World)
    requires c.fin < |code| && code[c.fin] == QFuncRet(ArgBytes(c.types), c.arSize)
    requires Entered(w0, w1, c.f + 1, c.arSize) && Finished(c, w1, w4, o) && 0 <= w0.bp
    ensures StepsTo(code, entry, w4, Go(w5)) && w5.ip == w0.ip + 1 && w5.bp == w0.bp && w5.temps == w4.temps
    ensures w5.sp == w0.sp + ArgBytes(c.types) && forall a :: a >= w5.sp ==> ByteAt(w5.bytes, a) == ByteAt(w0.bytes, a)
  {
    ControlKept(c, w1, w4, o);
    CallerKept(c, w0, w1, w4, o);
    w5 := Leave(code, entry, w4, ArgBytes(c.types), c.arSize, w0.bp, w0.ip + 1);
  }

  /** The called function has run, and its return takes the caller back to after the jump
      with the saved registers on top of the stack. */
  lemma Returns(c: Callee, frame: Frame, base: int, w0: World, w5: World, saved: seq<(Form, nat)>, values: seq<int>)
    requires |values| == |c.types| && Stacked(saved + Cells(c.types, values), w0.bytes, base, w0.sp) && Agree(frame, w0.bytes, w0.bp, base)
    requires w5.bp == w0.bp && w5.sp == w0.sp + ArgBytes(c.types)
    requires forall a :: a >= w5.sp ==> ByteAt(w5.bytes, a) == ByteAt(w0.bytes, a)
    ensures Sim(Mem(frame, w5.temps, saved), w5, base)
  {
    CalledStack(c, base, w0, w5.sp, saved, values);
    StackedSame(saved, w0.bytes, w5.bytes, base, w5.sp);
    AgreeSame(frame, w0.bytes, w5.bytes, w0.bp, base);
  }

  lemma CalledStack(c: Callee, base: int, w0: World, sp: int, saved: seq<(Form, nat)>, values: seq<int>)
    requires |values| == |c.types| && Stacked(saved + Cells(c.types, values), w0.bytes, base, w0.sp) && sp == w0.sp + ArgBytes(c.types)
    ensures Stacked(saved, w0.bytes, base, sp) && sp <= base
  {
    CellsTotal(c.types, values);
    StackedPeel(saved, Cells(c.types, values), w0.bytes, base, w0.sp);
    StackedBelow(saved, w0.bytes, base, sp);
  }

  lemma AgreeSame(frame: Frame, bytes: Frame, bytes2: Frame, bp: int, base: int)
    requires Agree(frame, bytes, bp, base) && forall a :: a >= base ==> ByteAt(bytes2, a) == ByteAt(bytes, a)
    ensures Agree(frame, bytes2, bp, base)
  {
    assert Show(Framing, 0);
  }

  lemma CallLeaves(code: seq<Quad>, entry: map<nat, nat>, t: Site, c: Callee, m: Mem, base: int, w: World, saved: seq<(Form, nat)>,
                   m3: Mem, w5: World, o: Outcome) returns (w6: World, m5: Mem)
    requires Proper(t, c) && Called(code, w.ip, t, base - w.bp) && IsSaved(t, m, saved)
    requires w5.ip == w.ip + |t.begin| + 1 && w5.bp == w.bp && Sim(m3, w5, base) && m3.frame == m.frame && m3.stack == saved
    requires o.Returned? && o.value.Some? ==> Val(c.ret, Get(m3.temps, Reg(c.ret.form, 0))) == o.value.value
    ensures Reaches(code, entry, w5, |t.finish|, Go(w6)) && Back(t, c, m, base, w5.ip + |t.finish|, w, o, w6, m5)
  {
    m5 := Finishes(t, c, m, m3, saved);
    FinishAbove(t, c, base - w.bp);
    w6 := SimRunQ(code, entry, t.finish, m3, w5, base);
  }

  /** What becomes of a call whose function ends as the outcome says. */
  ghost predicate Comes(code: seq<Quad>, entry: map<nat, nat>, t: Site, c: Callee, m: Mem, base: int, w: World, at: nat, o: Outcome) {
    match o
    case OutOfFuel => true
    case Fault => exists n :: Reaches(code, entry, w, n, Stop)
    case _ => exists n, w2, m2 :: Reaches(code, entry, w, n, Go(w2)) && Back(t, c, m, base, at, w, o, w2, m2)
  }

  lemma CallGoesOn(code: seq<Quad>, entry: map<nat, nat>, t: Site, c: Callee, m: Mem, w: World, base: int, saved: seq<(Form, nat)>,
                   values: seq<int>, w0: World, w1: World, w4: World, o: Outcome) returns (l: nat, w6: World, m5: Mem)
    requires Proper(t, c) && Called(code, w.ip, t, base - w.bp) && Framed(code, c) && 0 <= w.bp && IsSaved(t, m, saved)
    requires |values| == |c.types| && Inside(c, saved, values, w0, w1, base) && Finished(c, w1, w4, o)
    requires w0.ip == w.ip + |t.begin| && w0.bp == w.bp && Agree(m.frame, w0.bytes, w.bp, base)
    ensures Reaches(code, entry, w4, l, Go(w6)) && Back(t, c, m, base, w.ip + |t.begin| + 1 + |t.finish|, w, o, w6, m5)
  {
    var w5 := Leaves(code, entry, c, w0, w1, w4, o);
    Returns(c, m.frame, base, w0, w5, saved, values);
    w6, m5 := CallLeaves(code, entry, t, c, m, base, w, saved, Mem(m.frame, w5.temps, saved), w5, o);
    l := |t.finish| + 1;
    ReachOn(code, entry, w4, Go(w5), |t.finish|, Go(w6), l);
  }

  lemma CallEndsSo(code: seq<Quad>, entry: map<nat, nat>, t: Site, c: Callee, m: Mem, w: World, base: int, saved: seq<(Form, nat)>,
                   values: seq<int>, n: nat, w0: World, w1: World, at: nat, o: Outcome)
    requires Proper(t, c) && Called(code, w.ip, t, base - w.bp) && Framed(code, c) && 0 <= w.bp && IsSaved(t, m, saved)
    requires |values| == |c.types| && Inside(c, saved, values, w0, w1, base) && Reaches(code, entry, w, n, Go(w1))
    requires w0.ip == w.ip + |t.begin| && w0.bp == w.bp && Agree(m.frame, w0.bytes, w.bp, base)
    requires at == w.ip + |t.begin| + 1 + |t.finish| && BodyDoes(code, entry, c, w1, o)
    ensures Comes(code, entry, t, c, m, base, w, at, o)
  {
    if !o.OutOfFuel? {
      var k: nat, s :| Reaches(code, entry, w1, k, s) && Ended(c, w1, s, o);
      var n2 := n + k;
      ReachBoth(code, entry, w, w1, n, k, s, n2);
      if !o.Fault? {
        var l, w6, m5 := CallGoesOn(code, entry, t, c, m, w, base, saved, values, w0, w1, s.w, o);
        ComesBack(code, entry, t, c, m, base, w, at, o, n2, s.w, l, w6, m5);
      }
    }
  }

  lemma ComesBack(code: seq<Quad>, entry: map<nat, nat>, t: Site, c: Callee, m: Mem, base: int, w: World, at: nat, o: Outcome,
                  n2: nat, w4: World, l: nat, w6: World, m5: Mem)
    requires Reaches(code, entry, w, n2, Go(w4)) && Reaches(code, entry, w4, l, Go(w6)) && Back(t, c, m, base, at, w, o, w6, m5)
    requires !o.OutOfFuel? && !o.Fault?
    ensures Comes(code, entry, t, c, m, base, w, at, o)
  {
    var n3 := n2 + l;
    ReachBoth(code, entry, w, w4, n2, l, Go(w6), n3);
  }

  /** A whole call, whatever is known of the function's body: the body begins in a state
      w1, with the arguments at their offsets and zero in its locals; and from whatever the
      body comes to, the caller goes on after the call with its memory, its pointers and
      every temporary that held no argument as they were, and with the result in a
      temporary of its own, or stops in an error. */
  lemma CallThrough(code: seq<Quad>, entry: map<nat, nat>, t: Site, c: Callee, m: Mem, w: World, base: int, at: nat)
    returns (n: nat, w1: World)
    requires Proper(t, c) && Called(code, w.ip, t, base - w.bp) && Framed(code, c) && t.id in entry && entry[t.id] == c.f
    requires Sim(m, w, base) && 0 <= w.bp < SPACE && |code| < SPACE && at == w.ip + |t.begin| + 1 + |t.finish|
    ensures n > 0 && Reaches(code, entry, w, n, Go(w1)) && w1.ip == c.f + 1 && w1.sp == w1.bp - c.arSize
    ensures Begun(Around(w1.bytes, w1.bp), c, Values(t.args, |t.args|, m))
    ensures forall o :: BodyDoes(code, entry, c, w1, o) ==> Comes(code, entry, t, c, m, base, w, at, o)
  {
    var w0, saved, values;
    n, w0, w1, saved, values := CallEnters(code, entry, t, c, m, w, base);
    CalleeSees(c, saved, values, w0, w1, base, Around(w1.bytes, w1.bp));
    forall o | BodyDoes(code, entry, c, w1, o)
      ensures Comes(code, entry, t, c, m, base, w, at, o)
    {
      CallEndsSo(code, entry, t, c, m, w, base, saved, values, n, w0, w1, at, o);
    }
  }

  /** The same for a function whose body is a statement: what it comes to is what the
      statement does in that frame. */
  lemma CallAcross(code: seq<Quad>, entry: map<nat, nat>, t: Site, c: Callee, body: Stmt, m: Mem, w: World, base: int, at: nat)
    returns (frame: Frame)
    requires Proper(t, c) && Called(code, w.ip, t, base - w.bp) && Callable(code, c, body) && t.id in entry && entry[t.id] == c.f
    requires Sim(m, w, base) && 0 <= w.bp < SPACE && |code| < SPACE && at == w.ip + |t.begin| + 1 + |t.finish|
    ensures Begun(frame, c, Values(t.args, |t.args|, m))
    ensures forall fuel: nat :: Comes(code, entry, t, c, m, base, w, at, Exec(body, frame, c.ret, fuel))
  {
    var n, w1 := CallThrough(code, entry, t, c, m, w, base, at);
    frame := Around(w1.bytes, w1.bp);
    forall fuel: nat
      ensures Comes(code, entry, t, c, m, base, w, at, Exec(body, frame, c.ret, fuel))
    {
      var o := Exec(body, frame, c.ret, fuel);
      if !o.OutOfFuel? { var k, s := BodyRuns(code, entry, c, body, w1, frame, fuel, o); }
      assert BodyDoes(code, entry, c, w1, o);
    }
  }
}
