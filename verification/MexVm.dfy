/** The MEX virtual machine, as far as the code generator's quads need it: an
    activation record of bytes, one register file per form, and a stack. */
module MexVm {
  import opened Wrappers
  import opened MexTypes

  /** Register k of the file for a form.  Register 0 carries function results. */
  datatype Reg = Reg(form: Form, k: int)

  datatype Place = Ar(ofs: int) | Temp(ofs: int)

  datatype Operand = Lit(v: nat) | At(place: Place)

  datatype Quad =
    | QBin(op: BinOp, form: Form, fSigned: bool, arg1: Operand, arg2: Operand, dest: Place)
    | QConvert(from: Form, fSigned: bool, to: Form, arg1: Operand, dest: Place)
    | QAssign(form: Form, arg1: Operand, dest: Place)
    | QPush(form: Form, ofs: int)
    | QPop(form: Form, ofs: int)
    | QArgVal(form: Form, arg1: Operand)
    | QJz(form: Form, arg1: Operand, target: nat)
    | QJnz(form: Form, arg1: Operand, target: nat)
    | QJmp(target: nat)
    | QFuncStart(target: nat)
    | QFuncJump(id: nat)
    | QFuncRet(argSize: nat, target: nat)

  type Frame = map<int, nat>

  type Temps = map<Reg, nat>

  datatype Mem = Mem(frame: Frame, temps: Temps, stack: seq<(Form, nat)>)

  /** The saved base pointer and the return address, between a function's arguments and
      its locals: two words of eight bytes. */
  const AR_CONTROL_DATA := 16

  /** How many registers of each form the machine has. */
  const MAX_REGS := 100

  // ---------------------------------------------------------------- storage

  /** Where the registers of a form begin in the numbering of temporaries. */
  function Base(f: Form): int {
    match f
    case FormByte => 1000
    case FormWord => 2000
    case FormDword => 4000
  }

  /** The register an instruction of form f reaches through a temporary's number. */
  function Slot(f: Form, ofs: int): Reg {
    Reg(f, ofs - Base(f))
  }

  function TempAt(r: Reg): Place {
    Temp(Base(r.form) + r.k)
  }

  function ByteAt(frame: Frame, i: int): nat {
    if i in frame then frame[i] % 0x100 else 0
  }

  function Load(frame: Frame, f: Form, ofs: int): (v: nat)
    ensures v < Span(f)
  {
    match f
    case FormByte => ByteAt(frame, ofs)
    case FormWord => ByteAt(frame, ofs) + 0x100 * ByteAt(frame, ofs + 1)
    case FormDword => ByteAt(frame, ofs) + 0x100 * ByteAt(frame, ofs + 1)
                      + 0x1_0000 * ByteAt(frame, ofs + 2) + 0x100_0000 * ByteAt(frame, ofs + 3)
  }

  function Store(frame: Frame, f: Form, ofs: int, v: nat): Frame {
    match f
    case FormByte => frame[ofs := v % 0x100]
    case FormWord => frame[ofs := v % 0x100][ofs + 1 := v / 0x100 % 0x100]
    case FormDword => frame[ofs := v % 0x100][ofs + 1 := v / 0x100 % 0x100]
                      [ofs + 2 := v / 0x1_0000 % 0x100][ofs + 3 := v / 0x100_0000 % 0x100]
  }

  /** Byte i of a number, the lowest first. */
  function Digit(v: nat, i: nat): nat {
    if i == 0 then v % 0x100 else if i == 1 then v / 0x100 % 0x100
    else if i == 2 then v / 0x1_0000 % 0x100 else v / 0x100_0000 % 0x100
  }

  lemma StoredByte(frame: Frame, f: Form, ofs: int, v: nat, i: int)
    ensures ByteAt(Store(frame, f, ofs, v), i)
         == if ofs <= i < ofs + Size(f) then Digit(v, i - ofs) else ByteAt(frame, i)
  {
  }

  lemma Digits(v: nat)
    requires v < 0x1_0000_0000
    ensures v == Digit(v, 0) + 0x100 * Digit(v, 1) + 0x1_0000 * Digit(v, 2) + 0x100_0000 * Digit(v, 3)
  {
    var a, b := v / 0x100, v / 0x1_0000;
    assert b == a / 0x100 && v / 0x100_0000 == b / 0x100;
  }

  lemma LoadDigits(frame: Frame, f: Form, ofs: int, v: nat)
    requires v < Span(f) && forall i :: ofs <= i < ofs + Size(f) ==> ByteAt(frame, i) == Digit(v, i - ofs)
    ensures Load(frame, f, ofs) == v
  {
    Digits(v);
  }

  lemma LoadSame(after: Frame, frame: Frame, f: Form, ofs: int)
    requires forall i :: ofs <= i < ofs + Size(f) ==> ByteAt(after, i) == ByteAt(frame, i)
    ensures Load(after, f, ofs) == Load(frame, f, ofs)
  {
  }

  /** A stored value is read back, and variables in other bytes keep theirs. */
  lemma LoadStore(frame: Frame, f: Form, ofs: int, v: nat, g: Form, other: int)
    requires v < Span(f)
    ensures Load(Store(frame, f, ofs, v), f, ofs) == v
    ensures other + Size(g) <= ofs || ofs + Size(f) <= other ==>
              Load(Store(frame, f, ofs, v), g, other) == Load(frame, g, other)
  {
    var after := Store(frame, f, ofs, v);
    forall i ensures ByteAt(after, i) == if ofs <= i < ofs + Size(f) then Digit(v, i - ofs) else ByteAt(frame, i) {
      StoredByte(frame, f, ofs, v, i);
    }
    LoadDigits(after, f, ofs, v);
    if other + Size(g) <= ofs || ofs + Size(f) <= other {
      LoadSame(after, frame, g, other);
    }
  }

  function Get(temps: Temps, r: Reg): (v: nat)
    ensures v < Span(r.form)
  {
    if r in temps then temps[r] % Span(r.form) else 0
  }

  function Fetch(m: Mem, f: Form, a: Operand): (v: nat)
    ensures v < Span(f)
  {
    match a
    case Lit(v) => v % Span(f)
    case At(Ar(ofs)) => Load(m.frame, f, ofs)
    case At(Temp(ofs)) => Get(m.temps, Slot(f, ofs))
  }

  function Put(m: Mem, f: Form, p: Place, v: nat): Mem {
    match p
    case Ar(ofs) => m.(frame := Store(m.frame, f, ofs, v))
    case Temp(ofs) => m.(temps := m.temps[Slot(f, ofs) := v])
  }

  // ---------------------------------------------------------------- instructions

  predicate Plain(q: Quad) {
    q.QBin? || q.QConvert? || q.QAssign? || q.QPush? || q.QPop? || q.QArgVal?
  }

  predicate AllPlain(qs: seq<Quad>) {
    forall q :: q in qs ==> Plain(q)
  }

  predicate Jump(q: Quad) {
    q.QJz? || q.QJnz? || q.QJmp?
  }

  /** Is the place one that the machine has? */
  predicate Real(f: Form, p: Place) {
    p.Temp? ==> 0 <= Slot(f, p.ofs).k < MAX_REGS
  }

  predicate RealArg(f: Form, a: Operand) {
    a.At? ==> Real(f, a.place)
  }

  /** Does a quad keep to the registers that the machine has?  The machine does not
      check this: another register is memory that belongs to something else. */
  predicate InFile(q: Quad) {
    match q
    case QBin(op, f, _, arg1, arg2, dest) => RealArg(f, arg1) && RealArg(f, arg2) && Real(ResultForm(op, f), dest)
    case QConvert(from, _, to, arg1, dest) => RealArg(from, arg1) && Real(to, dest)
    case QAssign(f, arg1, dest) => RealArg(f, arg1) && Real(f, dest)
    case QPush(f, ofs) => Real(f, Temp(ofs))
    case QPop(f, ofs) => Real(f, Temp(ofs))
    case QArgVal(f, arg1) => RealArg(f, arg1)
    case QJz(f, arg1, _) => RealArg(f, arg1)
    case QJnz(f, arg1, _) => RealArg(f, arg1)
    case _ => true
  }

  predicate AllInFile(qs: seq<Quad>) {
    forall q :: q in qs ==> InFile(q)
  }

  function ResultForm(op: BinOp, f: Form): Form {
    if IsLogical(op) then FormWord else f
  }

  /** One quad that does not jump; none, when the machine stops with an error. */
  function Do(q: Quad, m: Mem): Option<Mem>
    requires Plain(q)
  {
    match q
    case QBin(op, f, fSigned, arg1, arg2, dest) =>
      var v := VmOp(op, f, fSigned, Fetch(m, f, arg1), Fetch(m, f, arg2));
      if v.None? then None else Some(Put(m, ResultForm(op, f), dest, v.value))
    case QConvert(from, fSigned, to, arg1, dest) =>
      Some(Put(m, to, dest, Raw(to, Val(Type(from, fSigned), Fetch(m, from, arg1)))))
    case QAssign(f, arg1, dest) => Some(Put(m, f, dest, Fetch(m, f, arg1)))
    case QPush(f, ofs) => Some(m.(stack := m.stack + [(f, Fetch(m, f, At(Temp(ofs))))]))
    case QArgVal(f, arg1) => Some(m.(stack := m.stack + [(f, Fetch(m, f, arg1))]))
    case QPop(f, ofs) =>
      if m.stack != [] && m.stack[|m.stack| - 1].0 == f
      then Some(Put(m.(stack := m.stack[..|m.stack| - 1]), f, Temp(ofs), m.stack[|m.stack| - 1].1))
      else None
  }

  function RunQ(qs: seq<Quad>, m: Mem): Option<Mem>
    requires forall q :: q in qs ==> Plain(q)
  {
    if qs == [] then Some(m) else
    var m1 := Do(qs[0], m);
    if m1.None? then None else RunQ(qs[1..], m1.value)
  }

  lemma {:induction false} RunSplit(a: seq<Quad>, b: seq<Quad>, m: Mem)
    requires forall q :: q in a + b ==> Plain(q)
    ensures forall q :: q in a ==> q in a + b
    ensures forall q :: q in b ==> q in a + b
    ensures RunQ(a + b, m) == if RunQ(a, m).None? then None else RunQ(b, RunQ(a, m).value)
  {
    if a == [] {
      assert a + b == b;
    } else {
      assert (a + b)[0] == a[0] && (a + b)[1..] == a[1..] + b;
      if Do(a[0], m).Some? {
        RunSplit(a[1..], b, Do(a[0], m).value);
      }
    }
  }

  lemma RunOne(q: Quad, m: Mem)
    requires Plain(q)
    ensures RunQ([q], m) == Do(q, m)
  {
    assert [q][1..] == [];
  }

  // ---------------------------------------------------------------- running a stretch of code

  /** What a predicate hidden by Show is about. */
  datatype Topic = Held | Piece | Emitted | TestCode | MaybeCode | ResultCode | Steps | Run | Acting | MayActing | Ending | LoopEnding
    | Finishing | Gluing | Keeping | Performing | Compiling | Writing | Routine | Calling | Tidying | Straying | Summing | Framing | Linking | Watching

  /** Always true, like Look, but it shows only the predicates of one topic. */
  predicate Show(topic: Topic, u: nat) {
    topic == topic && u + 1 > u
  }

  /** As Show, for what is known of one place in the code only. */
  predicate ShowAt(topic: Topic, pc: nat, u: nat) {
    topic == topic && pc == pc && u + 1 > u
  }

  /** What became of a run: still going, stopped by an error, astray in a register
      that the machine does not have, or gone from the stretch, with so many steps
      left. */
  datatype Result = Out | Crash | Wild | Exit(pc: nat, mem: Mem, left: nat)

  function Next(q: Quad, pc: nat, m: Mem): nat
    requires Jump(q)
  {
    match q
    case QJmp(target) => target
    case QJz(f, arg1, target) => if Fetch(m, f, arg1) == 0 then target else pc + 1
    case QJnz(f, arg1, target) => if Fetch(m, f, arg1) != 0 then target else pc + 1
  }

  /** At most n steps from pc, for as long as it is in [lo, hi); calls and returns
      leave the stretch too. */
  function RunIn(code: seq<Quad>, lo: nat, hi: nat, pc: nat, m: Mem, n: nat): Result
    decreases n
  {
    if !(lo <= pc < hi && pc < |code| && (Plain(code[pc]) || Jump(code[pc]))) then Exit(pc, m, n)
    else if n == 0 then Out
    else if !InFile(code[pc]) then Wild
    else if Jump(code[pc]) then RunIn(code, lo, hi, Next(code[pc], pc, m), m, n - 1)
    else
      var m1 := Do(code[pc], m);
      if m1.None? then Crash else RunIn(code, lo, hi, pc + 1, m1.value, n - 1)
  }

  /** RunIn gives r. */
  ghost predicate Runs(code: seq<Quad>, lo: nat, hi: nat, pc: nat, m: Mem, n: nat, r: Result) {
    forall u: nat {:trigger ShowAt(Run, pc, u)} :: ShowAt(Run, pc, u) ==> Same(RunIn(code, lo, hi, pc, m, n), r)
  }

  /** A run through a part of a stretch goes on where the part is left. */
  lemma {:induction false} Nest(code: seq<Quad>, lo: nat, hi: nat, lo2: nat, hi2: nat, pc: nat, m: Mem, n: nat)
    requires lo <= lo2 && hi2 <= hi
    ensures var r := RunIn(code, lo2, hi2, pc, m, n);
            RunIn(code, lo, hi, pc, m, n) == (if r.Exit? then RunIn(code, lo, hi, r.pc, r.mem, r.left) else r)
    ensures var r := RunIn(code, lo2, hi2, pc, m, n); r.Exit? ==> r.left <= n
    decreases n
  {
    if n > 0 && lo2 <= pc < hi2 && pc < |code| && InFile(code[pc]) {
      if Jump(code[pc]) {
        Nest(code, lo, hi, lo2, hi2, Next(code[pc], pc, m), m, n - 1);
      } else if Plain(code[pc]) && Do(code[pc], m).Some? {
        Nest(code, lo, hi, lo2, hi2, pc + 1, Do(code[pc], m).value, n - 1);
      }
    }
  }

  /** More steps do not change a run that has ended. */
  lemma {:induction false} More(code: seq<Quad>, lo: nat, hi: nat, pc: nat, m: Mem, n: nat, extra: nat)
    requires !RunIn(code, lo, hi, pc, m, n).Out?
    ensures var r := RunIn(code, lo, hi, pc, m, n);
            RunIn(code, lo, hi, pc, m, n + extra) == (if r.Exit? then r.(left := r.left + extra) else r)
    decreases n
  {
    if n > 0 && lo <= pc < hi && pc < |code| && InFile(code[pc]) {
      if Jump(code[pc]) {
        More(code, lo, hi, Next(code[pc], pc, m), m, n - 1, extra);
      } else if Plain(code[pc]) && Do(code[pc], m).Some? {
        More(code, lo, hi, pc + 1, Do(code[pc], m).value, n - 1, extra);
      }
    }
  }

  /** The quads are in the code from addr on, and keep to the machine's registers. */
  ghost predicate Sits(code: seq<Quad>, addr: nat, qs: seq<Quad>) {
    && addr + |qs| <= |code|
    && forall u: nat {:trigger ShowAt(Held, addr, u)} :: ShowAt(Held, addr, u) ==> Same(code[addr..addr + |qs|], qs) && AllInFile(qs)
  }

  lemma SitsSplit(code: seq<Quad>, addr: nat, a: seq<Quad>, b: seq<Quad>)
    requires Sits(code, addr, a + b)
    ensures Sits(code, addr, a) && Sits(code, addr + |a|, b)
  {
    assert ShowAt(Held, addr, 0);
    assert code[addr..addr + |a|] == (a + b)[..|a|];
    assert code[addr + |a|..addr + |a| + |b|] == (a + b)[|a|..];
  }

  lemma OneStep(code: seq<Quad>, lo: nat, hi: nat, pc: nat, m: Mem, n: nat)
    requires lo <= pc < hi && pc < |code| && Plain(code[pc]) && InFile(code[pc])
    ensures RunIn(code, lo, hi, pc, m, n)
         == if n == 0 then Out
            else if Do(code[pc], m).None? then Crash
            else RunIn(code, lo, hi, pc + 1, Do(code[pc], m).value, n - 1)
  {
  }

  /** Code without jumps takes one step a quad. */
  lemma {:induction false} Straight(code: seq<Quad>, lo: nat, hi: nat, pc: nat, qs: seq<Quad>, m: Mem, n: nat)
    requires Sits(code, pc, qs) && lo <= pc && pc + |qs| <= hi
    requires forall q :: q in qs ==> Plain(q)
    ensures RunQ(qs, m).Some? ==>
              RunIn(code, lo, hi, pc, m, n) ==
              if n < |qs| then Out else RunIn(code, lo, hi, pc + |qs|, RunQ(qs, m).value, n - |qs|)
    ensures RunQ(qs, m).None? ==>
              RunIn(code, lo, hi, pc, m, n).Crash? || (n < |qs| && RunIn(code, lo, hi, pc, m, n).Out?)
    decreases |qs|
  {
    if qs != [] {
      assert ShowAt(Held, pc, 0);
      assert code[pc] == code[pc..pc + |qs|][0] == qs[0];
      OneStep(code, lo, hi, pc, m, n);
      var m1 := Do(qs[0], m);
      if n > 0 && m1.Some? {
        assert Sits(code, pc + 1, qs[1..]) by {
          assert code[pc + 1..pc + |qs|] == code[pc..pc + |qs|][1..];
        }
        Straight(code, lo, hi, pc + 1, qs[1..], m1.value, n - 1);
      }
    }
  }
}
