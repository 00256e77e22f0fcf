/** The virtual machine with its stack in memory: activation records, saved registers,
    arguments and control data are bytes below one another, and calls and returns move
    the two pointers (vm_run.c, vm_opstk.c, vm_opfun.c).  Code that neither calls nor
    returns does here what it does in the simpler machine of MexVm. */
module MexStack {
  import opened Wrappers
  import opened MexTypes
  import opened MexVm

  /** The bytes of a saved pointer. */
  const PTR_SIZE := 8

  const SPACE := 0x1_0000_0000_0000_0000

  /** Memory, registers, base pointer, stack pointer and instruction pointer. */
  datatype World = World(bytes: Frame, temps: Temps, bp: int, sp: int, ip: nat)

  /** What a step comes to: another state, an error, or a register that the machine does
      not have. */
  datatype Move = Go(w: World) | Stop | Stray

  // ---------------------------------------------------------------- memory

  function StoreN(bytes: Frame, at: int, v: nat, n: nat): Frame
    decreases n
  {
    if n == 0 then bytes else StoreN(bytes[at := v % 0x100], at + 1, v / 0x100, n - 1)
  }

  function LoadN(bytes: Frame, at: int, n: nat): nat
    decreases n
  {
    if n == 0 then 0 else ByteAt(bytes, at) + 0x100 * LoadN(bytes, at + 1, n - 1)
  }

  function Power(n: nat): (p: nat)
    ensures p > 0
  {
    if n == 0 then 1 else 0x100 * Power(n - 1)
  }

  lemma {:induction false} StoreNElse(bytes: Frame, at: int, v: nat, n: nat, i: int)
    requires i < at || at + n <= i
    ensures ByteAt(StoreN(bytes, at, v, n), i) == ByteAt(bytes, i)
    decreases n
  {
    if n > 0 { StoreNElse(bytes[at := v % 0x100], at + 1, v / 0x100, n - 1, i); }
  }

  lemma {:induction false} LoadStoreN(bytes: Frame, at: int, v: nat, n: nat)
    requires v < Power(n)
    ensures LoadN(StoreN(bytes, at, v, n), at, n) == v
    decreases n
  {
    if n > 0 {
      var first := bytes[at := v % 0x100];
      LoadStoreN(first, at + 1, v / 0x100, n - 1);
      StoreNElse(first, at + 1, v / 0x100, n - 1, at);
    }
  }

  lemma {:induction false} LoadNSame(bytes: Frame, bytes2: Frame, at: int, n: nat)
    requires forall i :: at <= i < at + n ==> ByteAt(bytes2, i) == ByteAt(bytes, i)
    ensures LoadN(bytes2, at, n) == LoadN(bytes, at, n)
    decreases n
  {
    if n > 0 { LoadNSame(bytes, bytes2, at + 1, n - 1); }
  }

  function Zeroed(bytes: Frame, at: int, n: nat): Frame
    decreases n
  {
    if n == 0 then bytes else Zeroed(bytes[at := 0], at + 1, n - 1)
  }

  lemma {:induction false} ZeroedByte(bytes: Frame, at: int, n: nat, i: int)
    ensures ByteAt(Zeroed(bytes, at, n), i) == if at <= i < at + n then 0 else ByteAt(bytes, i)
    decreases n
  {
    if n > 0 { ZeroedByte(bytes[at := 0], at + 1, n - 1, i); }
  }

  // ---------------------------------------------------------------- steps

  function ReadAt(w: World, f: Form, a: Operand): (v: nat)
    ensures v < Span(f)
  {
    match a
    case Lit(v) => v % Span(f)
    case At(Ar(ofs)) => Load(w.bytes, f, w.bp + ofs)
    case At(Temp(ofs)) => Get(w.temps, Slot(f, ofs))
  }

  function WriteAt(w: World, f: Form, p: Place, v: nat): World {
    match p
    case Ar(ofs) => w.(bytes := Store(w.bytes, f, w.bp + ofs, v))
    case Temp(ofs) => w.(temps := w.temps[Slot(f, ofs) := v])
  }

  function PushCell(w: World, f: Form, v: nat): World {
    w.(sp := w.sp - Size(f), bytes := Store(w.bytes, f, w.sp - Size(f), v))
  }

  function PushPointer(w: World, p: int): World {
    w.(sp := w.sp - PTR_SIZE, bytes := StoreN(w.bytes, w.sp - PTR_SIZE, p % SPACE, PTR_SIZE))
  }

  function TopPointer(w: World): nat {
    LoadN(w.bytes, w.sp, PTR_SIZE)
  }

  /** One instruction.  The functions of a program are where entry says. */
  function Step(code: seq<Quad>, entry: map<nat, nat>, w: World): Move {
    if w.ip >= |code| then Stop
    else if !InFile(code[w.ip]) then Stray
    else
      var next := w.(ip := w.ip + 1);
      match code[w.ip]
      case QBin(op, f, fSigned, arg1, arg2, dest) =>
        var v := VmOp(op, f, fSigned, ReadAt(w, f, arg1), ReadAt(w, f, arg2));
        if v.None? then Stop else Go(WriteAt(next, ResultForm(op, f), dest, v.value))
      case QConvert(from, fSigned, to, arg1, dest) =>
        Go(WriteAt(next, to, dest, Raw(to, Val(Type(from, fSigned), ReadAt(w, from, arg1)))))
      case QAssign(f, arg1, dest) => Go(WriteAt(next, f, dest, ReadAt(w, f, arg1)))
      case QPush(f, ofs) => Go(PushCell(next, f, ReadAt(w, f, At(Temp(ofs)))))
      case QArgVal(f, arg1) => Go(PushCell(next, f, ReadAt(w, f, arg1)))
      case QPop(f, ofs) => Go(WriteAt(next.(sp := w.sp + Size(f)), f, Temp(ofs), Load(w.bytes, f, w.sp)))
      case QJz(f, arg1, target) => Go(if ReadAt(w, f, arg1) == 0 then w.(ip := target) else next)
      case QJnz(f, arg1, target) => Go(if ReadAt(w, f, arg1) != 0 then w.(ip := target) else next)
      case QJmp(target) => Go(w.(ip := target))
      case QFuncJump(id) => if id in entry then Go(PushPointer(next, next.ip).(ip := entry[id])) else Stop
      case QFuncStart(arSize) =>
        var saved := PushPointer(next, w.bp);
        Go(saved.(bp := saved.sp, sp := saved.sp - arSize, bytes := Zeroed(saved.bytes, saved.sp - arSize, arSize)))
      case QFuncRet(argSize, arSize) =>
        var above := w.(sp := w.sp + arSize);
        var caller := above.(sp := above.sp + PTR_SIZE);
        Go(caller.(bp := TopPointer(above), ip := TopPointer(caller), sp := caller.sp + PTR_SIZE + argSize))
  }

  /** What n steps of any machine come to. */
  function Iterate(step: World -> Move, w: World, n: nat): Move
    decreases n
  {
    if n == 0 then Go(w)
    else
      var s := step(w);
      if s.Go? then Iterate(step, s.w, n - 1) else s
  }

  lemma {:induction false} IterateBoth(step: World -> Move, w: World, w2: World, a: nat, b: nat)
    requires Iterate(step, w, a) == Go(w2)
    ensures Iterate(step, w, a + b) == Iterate(step, w2, b)
    decreases a
  {
    if a > 0 { IterateBoth(step, step(w).w, w2, a - 1, b); }
  }

  function Machine(code: seq<Quad>, entry: map<nat, nat>): World -> Move {
    w => Step(code, entry, w)
  }

  /** The state after n instructions. */
  function Later(code: seq<Quad>, entry: map<nat, nat>, w: World, n: nat): Move {
    Iterate(Machine(code, entry), w, n)
  }

  /** A step leads from w to s. */
  ghost predicate StepsTo(code: seq<Quad>, entry: map<nat, nat>, w: World, s: Move) {
    forall u: nat {:trigger Show(Topic.Steps, u)} :: Show(Topic.Steps, u) ==> Same(Step(code, entry, w), s)
  }

  /** As Show, for what is known of one run only. */
  predicate ShowReach(w: World, n: nat, u: nat) {
    w == w && n == n && u + 1 > u
  }

  /** n instructions lead from w to s. */
  ghost predicate Reaches(code: seq<Quad>, entry: map<nat, nat>, w: World, n: nat, s: Move) {
    forall u: nat {:trigger ShowReach(w, n, u)} :: ShowReach(w, n, u) ==> Same(Later(code, entry, w, n), s)
  }

  lemma ReachNow(code: seq<Quad>, entry: map<nat, nat>, w: World)
    ensures Reaches(code, entry, w, 0, Go(w))
  {
  }

  lemma ReachOn(code: seq<Quad>, entry: map<nat, nat>, w: World, s: Move, n: nat, s2: Move, all: nat)
    requires StepsTo(code, entry, w, s) && (if s.Go? then Reaches(code, entry, s.w, n, s2) else s2 == s) && all == n + 1
    ensures Reaches(code, entry, w, all, s2)
  {
    assert Show(Topic.Steps, 0);
    assert s.Go? ==> ShowReach(s.w, n, 0);
    assert Machine(code, entry)(w) == s;
  }

  lemma ReachBoth(code: seq<Quad>, entry: map<nat, nat>, w: World, w2: World, a: nat, b: nat, s2: Move, all: nat)
    requires Reaches(code, entry, w, a, Go(w2)) && Reaches(code, entry, w2, b, s2) && all == a + b
    ensures Reaches(code, entry, w, all, s2)
  {
    assert ShowReach(w, a, 0) && ShowReach(w2, b, 0);
    IterateBoth(Machine(code, entry), w, w2, a, b);
  }

  // ---------------------------------------------------------------- the simpler machine

  /** The cells lie in memory from base downward, the last at sp. */
  predicate Stacked(stack: seq<(Form, nat)>, bytes: Frame, base: int, sp: int) {
    if stack == [] then sp == base
    else
      var (f, v) := stack[|stack| - 1];
      Load(bytes, f, sp) == v && Stacked(stack[..|stack| - 1], bytes, base, sp + Size(f))
  }

  /** From base upward, the frame is what memory holds around bp. */
  ghost predicate Agree(frame: Frame, bytes: Frame, bp: int, base: int) {
    forall u: nat {:trigger Show(Framing, u)} :: Show(Framing, u) ==>
      forall a: int :: a >= base ==> ByteAt(frame, a - bp) == ByteAt(bytes, a)
  }

  /** The state of the simpler machine is that of this one, whose cells begin at base. */
  ghost predicate Sim(m: Mem, w: World, base: int) {
    m.temps == w.temps && Stacked(m.stack, w.bytes, base, w.sp) && Agree(m.frame, w.bytes, w.bp, base)
  }

  lemma {:induction false} StackedBelow(stack: seq<(Form, nat)>, bytes: Frame, base: int, sp: int)
    requires Stacked(stack, bytes, base, sp)
    ensures sp <= base
    decreases |stack|
  {
    if stack != [] { StackedBelow(stack[..|stack| - 1], bytes, base, sp + Size(stack[|stack| - 1].0)); }
  }

  lemma {:induction false} StackedSame(stack: seq<(Form, nat)>, bytes: Frame, bytes2: Frame, base: int, sp: int)
    requires Stacked(stack, bytes, base, sp) && forall a :: sp <= a < base ==> ByteAt(bytes2, a) == ByteAt(bytes, a)
    ensures Stacked(stack, bytes2, base, sp)
    decreases |stack|
  {
    if stack != [] {
      var f := stack[|stack| - 1].0;
      StackedBelow(stack[..|stack| - 1], bytes, base, sp + Size(f));
      LoadSame(bytes2, bytes, f, sp);
      StackedSame(stack[..|stack| - 1], bytes, bytes2, base, sp + Size(f));
    }
  }

  lemma StoreElse(bytes: Frame, f: Form, at: int, v: nat, a: int)
    requires a < at || at + Size(f) <= a
    ensures ByteAt(Store(bytes, f, at, v), a) == ByteAt(bytes, a)
  {
    StoredByte(bytes, f, at, v, a);
  }

  /** A place at or above base, as seen from bp. */
  predicate AbovePlace(lo: int, p: Place) {
    p.Ar? ==> lo <= p.ofs
  }

  predicate AboveArg(lo: int, a: Operand) {
    a.At? ==> AbovePlace(lo, a.place)
  }

  /** The quad touches no variable below the offset lo. */
  predicate Above(lo: int, q: Quad) {
    match q
    case QBin(_, _, _, arg1, arg2, dest) => AboveArg(lo, arg1) && AboveArg(lo, arg2) && AbovePlace(lo, dest)
    case QConvert(_, _, _, arg1, dest) => AboveArg(lo, arg1) && AbovePlace(lo, dest)
    case QAssign(_, arg1, dest) => AboveArg(lo, arg1) && AbovePlace(lo, dest)
    case QArgVal(_, arg1) => AboveArg(lo, arg1)
    case QJz(_, arg1, _) => AboveArg(lo, arg1)
    case QJnz(_, arg1, _) => AboveArg(lo, arg1)
    case _ => true
  }

  predicate AllAbove(lo: int, qs: seq<Quad>) {
    forall q :: q in qs ==> Above(lo, q)
  }

  lemma ByteSame(frame: Frame, bytes: Frame, bp: int, base: int, ofs: int)
    requires Agree(frame, bytes, bp, base) && base <= bp + ofs
    ensures ByteAt(bytes, bp + ofs) == ByteAt(frame, ofs)
  {
    var a := bp + ofs;
    assert Show(Framing, 0);
    assert ByteAt(frame, a - bp) == ByteAt(bytes, a) && a - bp == ofs;
  }

  lemma LoadShifted(frame: Frame, bytes: Frame, bp: int, base: int, f: Form, ofs: int)
    requires Agree(frame, bytes, bp, base) && base <= bp + ofs
    ensures Load(bytes, f, bp + ofs) == Load(frame, f, ofs)
  {
    ByteSame(frame, bytes, bp, base, ofs);
    ByteSame(frame, bytes, bp, base, ofs + 1);
    ByteSame(frame, bytes, bp, base, ofs + 2);
    ByteSame(frame, bytes, bp, base, ofs + 3);
    assert bp + (ofs + 1) == bp + ofs + 1 && bp + (ofs + 2) == bp + ofs + 2 && bp + (ofs + 3) == bp + ofs + 3;
  }

  lemma ReadSame(m: Mem, w: World, base: int, f: Form, a: Operand)
    requires Sim(m, w, base) && AboveArg(base - w.bp, a)
    ensures ReadAt(w, f, a) == Fetch(m, f, a)
  {
    if a.At? && a.place.Ar? {
      LoadShifted(m.frame, w.bytes, w.bp, base, f, a.place.ofs);
    }
  }

  lemma {:induction false} AgreeStore(frame: Frame, bytes: Frame, bp: int, base: int, f: Form, ofs: int, v: nat)
    requires Agree(frame, bytes, bp, base)
    ensures Agree(Store(frame, f, ofs, v), Store(bytes, f, bp + ofs, v), bp, base)
  {
    var frame2, bytes2 := Store(frame, f, ofs, v), Store(bytes, f, bp + ofs, v);
    assert Show(Framing, 0);
    forall a: int | a >= base
      ensures ByteAt(frame2, a - bp) == ByteAt(bytes2, a)
    {
      StoredByte(frame, f, ofs, v, a - bp);
      StoredByte(bytes, f, bp + ofs, v, a);
    }
  }

  lemma {:induction false} StackedStore(stack: seq<(Form, nat)>, bytes: Frame, base: int, sp: int, f: Form, at: int, v: nat)
    requires Stacked(stack, bytes, base, sp) && (base <= at || at + Size(f) <= sp)
    ensures Stacked(stack, Store(bytes, f, at, v), base, sp)
  {
    forall a | sp <= a < base
      ensures ByteAt(Store(bytes, f, at, v), a) == ByteAt(bytes, a)
    {
      StoreElse(bytes, f, at, v, a);
    }
    StackedSame(stack, bytes, Store(bytes, f, at, v), base, sp);
  }

  lemma {:induction false} WriteSame(m: Mem, w: World, base: int, f: Form, p: Place, v: nat)
    requires Sim(m, w, base) && AbovePlace(base - w.bp, p)
    ensures Sim(Put(m, f, p, v), WriteAt(w, f, p, v), base)
  {
    if p.Ar? {
      StoreSame(m, w, base, f, p.ofs, v, Put(m, f, p, v), WriteAt(w, f, p, v));
    }
  }

  lemma {:induction false} StoreSame(m: Mem, w: World, base: int, f: Form, at: int, v: nat, m2: Mem, w2: World)
    requires Sim(m, w, base) && w.bp + at >= base
    requires m2.temps == m.temps && m2.stack == m.stack && m2.frame == Store(m.frame, f, at, v)
    requires w2.temps == w.temps && w2.bp == w.bp && w2.sp == w.sp && w2.bytes == Store(w.bytes, f, w.bp + at, v)
    ensures Sim(m2, w2, base)
  {
    AgreeStore(m.frame, w.bytes, w.bp, base, f, at, v);
    StackedStore(m.stack, w.bytes, base, w.sp, f, w.bp + at, v);
  }

  lemma {:induction false} PushSame(m: Mem, w: World, base: int, f: Form, v: nat)
    requires Sim(m, w, base) && v < Span(f)
    ensures Sim(m.(stack := m.stack + [(f, v)]), PushCell(w, f, v), base)
  {
    var stack, sp := m.stack + [(f, v)], w.sp - Size(f);
    StackedBelow(m.stack, w.bytes, base, w.sp);
    StackedStore(m.stack, w.bytes, base, w.sp, f, sp, v);
    LoadStore(w.bytes, f, sp, v, f, sp + Size(f));
    assert stack[..|stack| - 1] == m.stack;
    AgreeBelow(m.frame, w.bytes, w.bp, base, f, sp, v);
  }

  lemma AgreeBelow(frame: Frame, bytes: Frame, bp: int, base: int, f: Form, at: int, v: nat)
    requires Agree(frame, bytes, bp, base) && at + Size(f) <= base
    ensures Agree(frame, Store(bytes, f, at, v), bp, base)
  {
    assert Show(Framing, 0);
    forall a: int | a >= base
      ensures ByteAt(frame, a - bp) == ByteAt(Store(bytes, f, at, v), a)
    {
      StoreElse(bytes, f, at, v, a);
    }
  }

  lemma PopSame(m: Mem, w: World, base: int, f: Form)
    requires Sim(m, w, base) && m.stack != [] && m.stack[|m.stack| - 1].0 == f
    ensures Load(w.bytes, f, w.sp) == m.stack[|m.stack| - 1].1
    ensures Sim(m.(stack := m.stack[..|m.stack| - 1]), w.(sp := w.sp + Size(f)), base)
  {
  }

  /** A step has taken w, which shows m, to a state that shows m2. */
  ghost predicate Went(s: Move, w: World, m2: Mem, base: int) {
    s.Go? && s.w.ip == w.ip + 1 && s.w.bp == w.bp && Sim(m2, s.w, base)
  }

  ghost predicate Ready(code: seq<Quad>, q: Quad, m: Mem, w: World, base: int) {
    w.ip < |code| && code[w.ip] == q && Plain(q) && InFile(q) && Above(base - w.bp, q) && Sim(m, w, base)
  }

  lemma BinStep(code: seq<Quad>, entry: map<nat, nat>, q: Quad, w: World, a: nat, b: nat)
    requires w.ip < |code| && code[w.ip] == q && q.QBin? && InFile(q)
    requires ReadAt(w, q.form, q.arg1) == a && ReadAt(w, q.form, q.arg2) == b
    ensures
      var v := VmOp(q.op, q.form, q.fSigned, a, b);
      Step(code, entry, w) == if v.None? then Stop else Go(WriteAt(w.(ip := w.ip + 1), ResultForm(q.op, q.form), q.dest, v.value))
  {
  }

  lemma SimBin(code: seq<Quad>, entry: map<nat, nat>, q: Quad, m: Mem, w: World, base: int)
    requires q.QBin? && Ready(code, q, m, w, base)
    ensures if Do(q, m).Some? then Went(Step(code, entry, w), w, Do(q, m).value, base) else Step(code, entry, w) == Stop
  {
    var a, b := Fetch(m, q.form, q.arg1), Fetch(m, q.form, q.arg2);
    ReadSame(m, w, base, q.form, q.arg1);
    ReadSame(m, w, base, q.form, q.arg2);
    BinStep(code, entry, q, w, a, b);
    var v := VmOp(q.op, q.form, q.fSigned, a, b);
    if v.Some? { WriteSame(m, w.(ip := w.ip + 1), base, ResultForm(q.op, q.form), q.dest, v.value); }
  }

  lemma SimConvert(code: seq<Quad>, entry: map<nat, nat>, q: Quad, m: Mem, w: World, base: int)
    requires q.QConvert? && Ready(code, q, m, w, base)
    ensures Do(q, m).Some? && Went(Step(code, entry, w), w, Do(q, m).value, base)
  {
    ReadSame(m, w, base, q.from, q.arg1);
    WriteSame(m, w.(ip := w.ip + 1), base, q.to, q.dest, Raw(q.to, Val(Type(q.from, q.fSigned), Fetch(m, q.from, q.arg1))));
  }

  lemma SimAssign(code: seq<Quad>, entry: map<nat, nat>, q: Quad, m: Mem, w: World, base: int)
    requires q.QAssign? && Ready(code, q, m, w, base)
    ensures Do(q, m).Some? && Went(Step(code, entry, w), w, Do(q, m).value, base)
  {
    ReadSame(m, w, base, q.form, q.arg1);
    WriteSame(m, w.(ip := w.ip + 1), base, q.form, q.dest, Fetch(m, q.form, q.arg1));
  }

  lemma SimPush(code: seq<Quad>, entry: map<nat, nat>, q: Quad, m: Mem, w: World, base: int)
    requires (q.QPush? || q.QArgVal?) && Ready(code, q, m, w, base)
    ensures Do(q, m).Some? && Went(Step(code, entry, w), w, Do(q, m).value, base)
  {
    var a := if q.QPush? then At(Temp(q.ofs)) else q.arg1;
    ReadSame(m, w, base, q.form, a);
    PushSame(m, w.(ip := w.ip + 1), base, q.form, Fetch(m, q.form, a));
  }

  lemma SimPop(code: seq<Quad>, entry: map<nat, nat>, q: Quad, m: Mem, w: World, base: int)
    requires q.QPop? && Ready(code, q, m, w, base) && Do(q, m).Some?
    ensures Went(Step(code, entry, w), w, Do(q, m).value, base)
  {
    var n := |m.stack| - 1;
    var next := w.(ip := w.ip + 1);
    PopSame(m, next, base, q.form);
    WriteSame(m.(stack := m.stack[..n]), next.(sp := w.sp + Size(q.form)), base, q.form, Temp(q.ofs), m.stack[n].1);
  }

  /** A quad that neither jumps nor calls does the same in both machines. */
  lemma SimStep(code: seq<Quad>, entry: map<nat, nat>, q: Quad, m: Mem, w: World, base: int)
    requires Ready(code, q, m, w, base)
    ensures Do(q, m).Some? ==> Went(Step(code, entry, w), w, Do(q, m).value, base)
    ensures Do(q, m).None? && !q.QPop? ==> Step(code, entry, w) == Stop
  {
    match q {
      case QBin(_, _, _, _, _, _) => SimBin(code, entry, q, m, w, base);
      case QConvert(_, _, _, _, _) => SimConvert(code, entry, q, m, w, base);
      case QAssign(_, _, _) => SimAssign(code, entry, q, m, w, base);
      case QPush(_, _) => SimPush(code, entry, q, m, w, base);
      case QArgVal(_, _) => SimPush(code, entry, q, m, w, base);
      case QPop(_, _) => if Do(q, m).Some? { SimPop(code, entry, q, m, w, base); }
    }
  }

  // ---------------------------------------------------------------- runs

  /** A straight stretch of code takes as many steps as it has quads. */
  lemma {:induction false} SimRunQ(code: seq<Quad>, entry: map<nat, nat>, qs: seq<Quad>, m: Mem, w: World, base: int) returns (w2: World)
    requires w.ip + |qs| <= |code| && code[w.ip..w.ip + |qs|] == qs && AllPlain(qs) && AllInFile(qs) && AllAbove(base - w.bp, qs)
    requires Sim(m, w, base) && RunQ(qs, m).Some?
    ensures Reaches(code, entry, w, |qs|, Go(w2))
    ensures Sim(RunQ(qs, m).value, w2, base) && w2.ip == w.ip + |qs| && w2.bp == w.bp
    decreases |qs|
  {
    w2 := w;
    if qs == [] {
      ReachNow(code, entry, w);
    } else {
      var q, rest := Head(code, w.ip, qs, base - w.bp);
      var m1 := Do(q, m).value;
      var s := PlainStep(code, entry, q, m, m1, w, base);
      w2 := SimRunQ(code, entry, rest, m1, s.w, base);
      ReachOn(code, entry, w, s, |rest|, Go(w2), |qs|);
    }
  }

  lemma PlainStep(code: seq<Quad>, entry: map<nat, nat>, q: Quad, m: Mem, m1: Mem, w: World, base: int) returns (s: Move)
    requires Ready(code, q, m, w, base) && Do(q, m) == Some(m1)
    ensures StepsTo(code, entry, w, s) && Went(s, w, m1, base)
  {
    s := Step(code, entry, w);
    SimStep(code, entry, q, m, w, base);
  }

  lemma Head(code: seq<Quad>, ip: nat, qs: seq<Quad>, lo: int) returns (q: Quad, rest: seq<Quad>)
    requires qs != [] && ip + |qs| <= |code| && code[ip..ip + |qs|] == qs && AllPlain(qs) && AllInFile(qs) && AllAbove(lo, qs)
    ensures q == qs[0] && rest == qs[1..] && code[ip] == q && code[ip + 1..ip + 1 + |rest|] == rest
    ensures Plain(q) && InFile(q) && Above(lo, q) && AllPlain(rest) && AllInFile(rest) && AllAbove(lo, rest)
  {
    q, rest := qs[0], qs[1..];
    assert code[ip] == code[ip..ip + |qs|][0];
    assert code[ip + 1..ip + 1 + |rest|] == code[ip..ip + |qs|][1..];
  }

  /** Code of a stretch that only computes and jumps. */
  predicate Quiet(q: Quad) {
    q.QBin? || q.QConvert? || q.QAssign? || Jump(q)
  }

  ghost predicate QuietIn(code: seq<Quad>, lo: nat, hi: nat, bound: int) {
    hi <= |code| && forall i :: lo <= i < hi ==> Quiet(code[i]) && InFile(code[i]) && Above(bound, code[i])
  }

  lemma SimJump(code: seq<Quad>, entry: map<nat, nat>, q: Quad, m: Mem, w: World, base: int)
    requires w.ip < |code| && code[w.ip] == q && Jump(q) && InFile(q) && Above(base - w.bp, q) && Sim(m, w, base)
    ensures Step(code, entry, w) == Go(w.(ip := Next(q, w.ip, m)))
  {
    match q {
      case QJmp(_) =>
      case QJz(f, arg1, _) => ReadSame(m, w, base, f, arg1);
      case QJnz(f, arg1, _) => ReadSame(m, w, base, f, arg1);
    }
  }

  /** What a run in the one machine says of the other after k steps. */
  ghost predicate SameEnd(r: Result, s: Move, w: World, base: int, n: nat, k: nat) {
    match r
    case Exit(pc, m2, left) => s.Go? && s.w.ip == pc && s.w.bp == w.bp && Sim(m2, s.w, base) && k + left == n
    case Crash => s == Stop
    case Wild => false
    case Out => s.Go? && k == n
  }

  lemma SameEndOn(r: Result, s: Move, w: World, w1: World, base: int, n: nat, k: nat)
    requires SameEnd(r, s, w1, base, n, k) && w1.bp == w.bp
    ensures SameEnd(r, s, w, base, n + 1, k + 1)
  {
  }

  /** A run through such a stretch takes the same steps in both machines, to the same
      end. */
  lemma {:induction false} SimRunIn(code: seq<Quad>, entry: map<nat, nat>, lo: nat, hi: nat, m: Mem, w: World, base: int, n: nat, r: Result)
    returns (k: nat, s: Move)
    requires QuietIn(code, lo, hi, base - w.bp) && Sim(m, w, base) && lo <= hi && Runs(code, lo, hi, w.ip, m, n, r)
    ensures k <= n && Reaches(code, entry, w, k, s) && SameEnd(r, s, w, base, n, k)
    decreases n
  {
    if lo <= w.ip < hi && n > 0 {
      var q := code[w.ip];
      var s1, m1 := QuietStep(code, entry, lo, hi, q, m, w, base, n, r);
      if s1.Go? {
        k, s := SimRunIn(code, entry, lo, hi, m1, s1.w, base, n - 1, r);
        SameEndOn(r, s, w, s1.w, base, n - 1, k);
      } else {
        k, s := 0, s1;
      }
      ReachOn(code, entry, w, s1, k, s, k + 1);
      k := k + 1;
    } else {
      k, s := 0, Go(w);
      ReachNow(code, entry, w);
      RunsNow(code, lo, hi, m, w, n, r);
    }
  }

  lemma RunsNow(code: seq<Quad>, lo: nat, hi: nat, m: Mem, w: World, n: nat, r: Result)
    requires Runs(code, lo, hi, w.ip, m, n, r) && (n == 0 || !(lo <= w.ip < hi)) && hi <= |code|
    requires forall i :: lo <= i < hi ==> Quiet(code[i])
    ensures r == if lo <= w.ip < hi then Out else Exit(w.ip, m, n)
  {
    assert ShowAt(Topic.Run, w.ip, 0);
  }

  lemma QuietStep(code: seq<Quad>, entry: map<nat, nat>, lo: nat, hi: nat, q: Quad, m: Mem, w: World, base: int, n: nat, r: Result)
    returns (s: Move, m1: Mem)
    requires QuietIn(code, lo, hi, base - w.bp) && Sim(m, w, base) && lo <= w.ip < hi && q == code[w.ip] && n > 0
    requires Runs(code, lo, hi, w.ip, m, n, r)
    ensures StepsTo(code, entry, w, s)
    ensures s.Go? ==> s.w.bp == w.bp && Sim(m1, s.w, base) && Runs(code, lo, hi, s.w.ip, m1, n - 1, r)
    ensures !s.Go? ==> s == Stop && r == Crash
  {
    s, m1 := Step(code, entry, w), m;
    if Jump(q) {
      SimJump(code, entry, q, m, w, base);
    } else {
      SimStep(code, entry, q, m, w, base);
      OneStep(code, lo, hi, w.ip, m, n);
      if Do(q, m).Some? { m1 := Do(q, m).value; }
    }
    assert ShowAt(Topic.Run, w.ip, 0);
  }
}
