/** The integral types of MEX: values, how they are stored in a byte, word or
    dword, and what the virtual machine's arithmetic on stored values means. */
module MexTypes {
  import opened Wrappers

  datatype Form = FormByte | FormWord | FormDword

  datatype Type = Type(form: Form, fSigned: bool)

  datatype BinOp = Multiply | Divide | Modulus | Add | Subtract
    | Le | Lt | Equal | NotEqual | Ge | Gt | LAnd | LOr | BAnd | BOr | Shl | Shr

  /** The width of the numbers that are shifted. */
  const WIDEST := 32

  function Size(f: Form): nat {
    match f
    case FormByte => 1
    case FormWord => 2
    case FormDword => 4
  }

  /** How many values a form can hold. */
  function Span(f: Form): nat {
    match f
    case FormByte => 0x100
    case FormWord => 0x1_0000
    case FormDword => 0x1_0000_0000
  }

  function Raw(f: Form, v: int): (r: nat)
    ensures r < Span(f)
  {
    v % Span(f)
  }

  /** The value of stored bits, read as a type. */
  function Val(t: Type, r: nat): int {
    if t.fSigned && r >= Span(t.form) / 2 then r - Span(t.form) else r
  }

  predicate InRange(t: Type, v: int) {
    if t.fSigned then -(Span(t.form) as int) / 2 <= v < Span(t.form) / 2 else 0 <= v < Span(t.form)
  }

  /** A number brought into the range of a type. */
  function Wrap(t: Type, v: int): int {
    Val(t, Raw(t.form, v))
  }

  lemma WrapRange(t: Type, v: int)
    ensures InRange(t, Wrap(t, v))
    ensures InRange(t, v) ==> Wrap(t, v) == v
  {
  }

  /** In a form of one, two or four bytes a number wraps modulo 2 to the 8th, 16th or 32nd,
      to the one value that is congruent to it and in the range of the type. */
  lemma WrapIs(t: Type, v: int)
    ensures t.form == FormByte ==>
              && Size(t.form) == 1 && 0 <= Raw(t.form, v) < 256 && (Raw(t.form, v) - v) % 256 == 0
              && (if t.fSigned then -128 <= Wrap(t, v) < 128 else 0 <= Wrap(t, v) < 256) && (Wrap(t, v) - v) % 256 == 0
    ensures t.form == FormWord ==>
              && Size(t.form) == 2 && 0 <= Raw(t.form, v) < 65536 && (Raw(t.form, v) - v) % 65536 == 0
              && (if t.fSigned then -32768 <= Wrap(t, v) < 32768 else 0 <= Wrap(t, v) < 65536) && (Wrap(t, v) - v) % 65536 == 0
    ensures t.form == FormDword ==>
              && Size(t.form) == 4 && 0 <= Raw(t.form, v) < 4294967296 && (Raw(t.form, v) - v) % 4294967296 == 0
              && (if t.fSigned then -2147483648 <= Wrap(t, v) < 2147483648 else 0 <= Wrap(t, v) < 4294967296)
              && (Wrap(t, v) - v) % 4294967296 == 0
    ensures InRange(t, v) <==> Wrap(t, v) == v
  {
    WrapClass(t, v, Span(t.form));
  }

  lemma WrapClass(t: Type, v: int, m: int)
    requires m == Span(t.form)
    ensures 0 <= Raw(t.form, v) < m && (Raw(t.form, v) - v) % m == 0
    ensures InRange(t, Wrap(t, v)) && (Wrap(t, v) - v) % m == 0
    ensures InRange(t, v) ==> Wrap(t, v) == v
  {
    WrapRange(t, v);
    assert v == v / m * m + v % m;
    SameClass(v, v % m, v / m, m);
    SameClass(v, v % m - m, v / m + 1, m);
  }

  lemma SameClass(v: int, w: int, k: int, m: int)
    requires m > 0 && v == k * m + w
    ensures (w - v) % m == 0
  {
    DivUnique(w - v, m, -k, 0);
  }

  lemma RawOfVal(t: Type, r: nat)
    requires r < Span(t.form)
    ensures Raw(t.form, Val(t, r)) == r && InRange(t, Val(t, r))
  {
  }

  // ---------------------------------------------------------------- source arithmetic

  /** Division that truncates toward zero, and its remainder. */
  function TruncDiv(a: int, b: int): int
    requires b != 0
  {
    if (a < 0) == (b < 0) then Abs(a) / Abs(b) else -(Abs(a) / Abs(b))
  }

  function TruncMod(a: int, b: int): int
    requires b != 0
  {
    a - b * TruncDiv(a, b)
  }

  function Abs(a: int): nat {
    if a < 0 then -a else a
  }

  function Truth(b: bool): int {
    if b then 1 else 0
  }

  function Pow2(n: nat): (p: nat)
    ensures p > 0
  {
    if n == 0 then 1 else 2 * Pow2(n - 1)
  }

  /** The bits that two numbers have in common, in two's complement of any width. */
  function And(a: int, b: int): int
    decreases Abs(a) + Abs(b)
  {
    if a == 0 || b == 0 then 0
    else if a == -1 then b
    else if b == -1 then a
    else a % 2 * (b % 2) + 2 * And(a / 2, b / 2)
  }

  function Not(a: int): int {
    -1 - a
  }

  function Or(a: int, b: int): int {
    Not(And(Not(a), Not(b)))
  }

  /** Bit k of a number, counted from the lowest. */
  function Bit(a: int, k: nat): int {
    a / Pow2(k) % 2
  }

  lemma HalfAnd(a: int, b: int)
    ensures And(a, b) / 2 == And(a / 2, b / 2) && And(a, b) % 2 == a % 2 * (b % 2)
  {
    if a == 0 || b == 0 || a == -1 || b == -1 {
      assert a == 0 ==> a / 2 == 0;
      assert a == -1 ==> a / 2 == -1 && a % 2 == 1;
    } else {
      Digits2(a % 2 * (b % 2), And(a / 2, b / 2));
    }
  }

  lemma Digits2(p: int, h: int)
    requires 0 <= p < 2
    ensures (p + 2 * h) / 2 == h && (p + 2 * h) % 2 == p
  {
  }

  lemma NextBit(a: int, k: nat)
    ensures Bit(a, 0) == a % 2
    ensures Bit(a, k + 1) == Bit(a / 2, k)
  {
    DivDiv(a, Pow2(k));
  }

  lemma DivDiv(a: int, p: nat)
    requires p > 0
    ensures a / (2 * p) == a / 2 / p
  {
    var q, r := a / 2 / p, a / 2 % p;
    assert a == 2 * (q * p + r) + a % 2;
    assert a == q * (2 * p) + (2 * r + a % 2);
    assert 0 <= 2 * r + a % 2 < 2 * p;
    DivUnique(a, 2 * p, q, 2 * r + a % 2);
  }

  lemma DivUnique(a: int, m: nat, q: int, r: int)
    requires m > 0 && a == q * m + r && 0 <= r < m
    ensures a / m == q && a % m == r
  {
    assert (a / m - q) * m == r - a % m;
    SmallMultiple(a / m - q, m);
  }

  lemma BitStep(a: int, b: int, c: int, k: nat)
    requires Bit(c / 2, k) == Bit(a / 2, k) * Bit(b / 2, k)
    ensures Bit(c, k + 1) == Bit(a, k + 1) * Bit(b, k + 1)
  {
    NextBit(a, k);
    NextBit(b, k);
    NextBit(c, k);
  }

  /** Each bit of And is set if it is set in both, and of Or if it is set in either. */
  lemma {:induction false} AndBit(a: int, b: int, k: nat)
    ensures Bit(And(a, b), k) == Bit(a, k) * Bit(b, k)
    decreases k
  {
    HalfAnd(a, b);
    if k > 0 {
      AndBit(a / 2, b / 2, k - 1);
      BitStep(a, b, And(a, b), k - 1);
    }
  }

  lemma {:induction false} NotBit(a: int, k: nat)
    ensures Bit(Not(a), k) == 1 - Bit(a, k)
    decreases k
  {
    assert Not(a) / 2 == Not(a / 2) && Not(a) % 2 == 1 - a % 2;
    if k > 0 {
      NextBit(Not(a), k - 1);
      NextBit(a, k - 1);
      NotBit(a / 2, k - 1);
    }
  }

  lemma OrBit(a: int, b: int, k: nat)
    ensures Bit(Or(a, b), k) == if Bit(a, k) == 1 || Bit(b, k) == 1 then 1 else 0
  {
    NotBit(a, k);
    NotBit(b, k);
    AndBit(Not(a), Not(b), k);
    NotBit(And(Not(a), Not(b)), k);
  }

  predicate IsLogical(op: BinOp) {
    op.Le? || op.Lt? || op.Equal? || op.NotEqual? || op.Ge? || op.Gt? || op.LAnd? || op.LOr?
  }

  /** The result of an operator on two values of type t; none, for a division by zero
      or a shift of which C does not say what it does. */
  function Apply(op: BinOp, t: Type, a: int, b: int): Option<int> {
    match op
    case Multiply => Some(Wrap(t, a * b))
    case Divide => if b == 0 then None else Some(Wrap(t, TruncDiv(a, b)))
    case Modulus => if b == 0 then None else Some(Wrap(t, TruncMod(a, b)))
    case Add => Some(Wrap(t, a + b))
    case Subtract => Some(Wrap(t, a - b))
    case Le => Some(Truth(a <= b))
    case Lt => Some(Truth(a < b))
    case Equal => Some(Truth(a == b))
    case NotEqual => Some(Truth(a != b))
    case Ge => Some(Truth(a >= b))
    case Gt => Some(Truth(a > b))
    case LAnd => Some(Truth(a != 0 && b != 0))
    case LOr => Some(Truth(a != 0 || b != 0))
    case BAnd => Some(Wrap(t, And(a, b)))
    case BOr => Some(Wrap(t, Or(a, b)))
    case Shl => if 0 <= b < WIDEST then Some(Wrap(t, a * Pow2(b))) else None
    case Shr => if 0 <= b < WIDEST then Some(Wrap(t, a / Pow2(b))) else None
  }

  lemma ApplyRange(op: BinOp, t: Type, a: int, b: int)
    requires Apply(op, t, a, b).Some?
    ensures InRange(ResultType(op, t), Apply(op, t, a, b).value)
  {
    match op
    case Multiply => WrapRange(t, a * b);
    case Divide => WrapRange(t, TruncDiv(a, b));
    case Modulus => WrapRange(t, TruncMod(a, b));
    case Add => WrapRange(t, a + b);
    case Subtract => WrapRange(t, a - b);
    case BAnd => WrapRange(t, And(a, b));
    case BOr => WrapRange(t, Or(a, b));
    case Shl => WrapRange(t, a * Pow2(b));
    case Shr => WrapRange(t, a / Pow2(b));
    case _ =>
  }

  /** Quotient and remainder of a division that truncates: the remainder is smaller than
      the divisor and, unless it is zero, has the sign of the dividend. */
  predicate Divides(a: int, b: int, q: int, r: int) {
    a == q * b + r && (if b < 0 then b < r < -b else -b < r < b) && (r == 0 || (r < 0) == (a < 0))
  }

  lemma DividesOnce(a: int, b: int, q: int, r: int, q2: int, r2: int)
    requires b != 0 && Divides(a, b, q, r) && Divides(a, b, q2, r2)
    ensures q == q2 && r == r2
  {
    var n := if b < 0 then -b else b;
    assert (q - q2) * b == r2 - r;
    assert (if b < 0 then q2 - q else q - q2) * n == r2 - r;
    SmallMultiple(if b < 0 then q2 - q else q - q2, n);
  }

  lemma TruncDivides(a: int, b: int)
    requires b != 0
    ensures Divides(a, b, TruncDiv(a, b), TruncMod(a, b))
  {
    var q := TruncDiv(a, b);
    QuotientOf(Abs(a), Abs(b), if (a < 0) == (b < 0) then q else -q);
    Signed(a, b, q, Abs(a) % Abs(b));
  }

  lemma QuotientOf(x: nat, y: nat, k: int)
    requires y > 0 && k == x / y
    ensures x == y * k + x % y && 0 <= x % y < y
  {
  }

  lemma Signed(a: int, b: int, q: int, r: int)
    requires b != 0 && 0 <= r < Abs(b) && Abs(a) == Abs(b) * (if (a < 0) == (b < 0) then q else -q) + r
    ensures Divides(a, b, q, a - b * q)
  {
    assert b * -q == -(b * q) && -b * q == -(b * q) && q * b == b * q;
  }

  /** Division truncates toward zero, as in C, whatever the signs. */
  lemma Division(t: Type, a: int, b: int, q: int, r: int)
    requires b != 0 && Divides(a, b, q, r)
    ensures Apply(Divide, t, a, b) == Some(Wrap(t, q)) && Apply(Modulus, t, a, b) == Some(Wrap(t, r))
  {
    TruncDivides(a, b);
    DividesOnce(a, b, q, r, TruncDiv(a, b), TruncMod(a, b));
  }

  // ---------------------------------------------------------------- machine arithmetic

  /** The virtual machine's operators on stored operands of one form; fSigned if
      either operand is flagged signed.  The logical operators store a word.  A shift
      takes place in an int or a dword, whose width it must stay below. */
  function VmOp(op: BinOp, f: Form, fSigned: bool, a: nat, b: nat): Option<nat> {
    var s := Type(f, fSigned);
    match op
    case Multiply => Some(a * b % Span(f))
    case Divide => if b == 0 then None else Some(Raw(f, TruncDiv(Val(s, a), if Val(s, b) == 0 then 1 else Val(s, b))))
    case Modulus => if b == 0 then None else Some(Raw(f, TruncMod(Val(s, a), if Val(s, b) == 0 then 1 else Val(s, b))))
    case Add => Some((a + b) % Span(f))
    case Subtract => Some(Raw(f, a - b))
    case Le => Some(Truth(Val(s, a) <= Val(s, b)))
    case Lt => Some(Truth(Val(s, a) < Val(s, b)))
    case Equal => Some(Truth(a == b))
    case NotEqual => Some(Truth(a != b))
    case Ge => Some(Truth(Val(s, a) >= Val(s, b)))
    case Gt => Some(Truth(Val(s, a) > Val(s, b)))
    case LAnd => Some(Truth(a != 0 && b != 0))
    case LOr => Some(Truth(a != 0 || b != 0))
    case BAnd => Some(Raw(f, And(a, b)))
    case BOr => Some(Raw(f, Or(a, b)))
    case Shl => if b < WIDEST then Some(a * Pow2(b) % Span(f)) else None
    case Shr => if b < WIDEST then Some(Raw(f, Val(s, a) / Pow2(b))) else None
  }

  /** The type of an operator's result on operands of type t. */
  function ResultType(op: BinOp, t: Type): Type {
    if IsLogical(op) then Type(FormWord, true) else t
  }

  lemma ModShift(x: int, k: int, m: nat)
    requires m > 0
    ensures (x + k * m) % m == x % m
  {
    var q, d := x / m, (x + k * m) / m;
    assert (d - q - k) * m == x % m - (x + k * m) % m;
    SmallMultiple(d - q - k, m);
  }

  lemma SmallMultiple(k: int, m: int)
    requires -m < k * m < m
    ensures k == 0
  {
  }

  /** Multiplying stored operands multiplies what they stand for. */
  lemma MulVal(t: Type, a: nat, b: nat)
    requires a < Span(t.form) && b < Span(t.form)
    ensures a * b % Span(t.form) == Raw(t.form, Val(t, a) * Val(t, b))
  {
    var m := Span(t.form);
    var i: int, j: int := if Val(t, a) == a then 0 else 1, if Val(t, b) == b then 0 else 1;
    assert Val(t, a) == a - i * m && Val(t, b) == b - j * m;
    assert (a - i * m) * (b - j * m) == a * b + (i * j * m - a * j - b * i) * m;
    ModShift(a * b, i * j * m - a * j - b * i, m);
  }

  lemma AddVal(t: Type, a: nat, b: nat)
    requires a < Span(t.form) && b < Span(t.form)
    ensures (a + b) % Span(t.form) == Raw(t.form, Val(t, a) + Val(t, b))
    ensures Raw(t.form, a - b) == Raw(t.form, Val(t, a) - Val(t, b))
  {
    var m := Span(t.form);
    var i: int, j: int := if Val(t, a) == a then 0 else 1, if Val(t, b) == b then 0 else 1;
    assert Val(t, a) == a - i * m && Val(t, b) == b - j * m;
    ModShift(a + b, -(i + j), m);
    ModShift(a - b, j - i, m);
  }

  lemma {:induction false} AndMod(a: int, b: int, n: nat)
    ensures And(a, b) % Pow2(n) == And(a % Pow2(n), b % Pow2(n))
    decreases n
  {
    if n > 0 {
      AndMod(a / 2, b / 2, n - 1);
      AndModStep(a, b, Pow2(n - 1));
    }
  }

  lemma AndModStep(a: int, b: int, p: nat)
    requires p > 0 && And(a / 2, b / 2) % p == And(a / 2 % p, b / 2 % p)
    ensures And(a, b) % (2 * p) == And(a % (2 * p), b % (2 * p))
  {
    HalfAnd(a, b);
    HalfAnd(a % (2 * p), b % (2 * p));
    HalfMod(a, p);
    HalfMod(b, p);
    HalfMod(And(a, b), p);
    SameHalves(And(a, b) % (2 * p), And(a % (2 * p), b % (2 * p)));
  }

  lemma SameHalves(x: int, y: int)
    requires x / 2 == y / 2 && x % 2 == y % 2
    ensures x == y
  {
  }

  lemma HalfMod(a: int, p: nat)
    requires p > 0
    ensures a % (2 * p) == 2 * (a / 2 % p) + a % 2
    ensures a % (2 * p) / 2 == a / 2 % p && a % (2 * p) % 2 == a % 2
  {
    var q, r := a / 2 / p, a / 2 % p;
    assert a == q * (2 * p) + (2 * r + a % 2) by { assert a == 2 * (q * p + r) + a % 2; }
    DivUnique(a, 2 * p, q, 2 * r + a % 2);
  }

  lemma SpanIs(f: Form)
    ensures Span(f) == Pow2(8 * Size(f))
  {
    assert Pow2(8) == 0x100;
    PowSum(8, 8);
    PowSum(16, 16);
  }

  lemma {:induction false} PowSum(a: nat, b: nat)
    ensures Pow2(a + b) == Pow2(a) * Pow2(b)
    decreases a
  {
    if a > 0 {
      PowSum(a - 1, b);
      assert Pow2(a + b) == 2 * Pow2(a - 1 + b);
    }
  }

  lemma NotMod(a: int, m: nat)
    requires m > 0
    ensures Not(a) % m == m - 1 - a % m
  {
    assert Not(a) == (-1 - a / m) * m + (m - 1 - a % m) by { assert a == a / m * m + a % m; }
    DivUnique(Not(a), m, -1 - a / m, m - 1 - a % m);
  }

  lemma OrMod(a: int, b: int, n: nat)
    ensures Or(a, b) % Pow2(n) == Pow2(n) - 1 - And(Pow2(n) - 1 - a % Pow2(n), Pow2(n) - 1 - b % Pow2(n))
  {
    NotMod(a, Pow2(n));
    NotMod(b, Pow2(n));
    AndMod(Not(a), Not(b), n);
    NotMod(And(Not(a), Not(b)), Pow2(n));
  }

  lemma SameBits(a: int, b: int, c: int, d: int, n: nat)
    requires a % Pow2(n) == c % Pow2(n) && b % Pow2(n) == d % Pow2(n)
    ensures And(a, b) % Pow2(n) == And(c, d) % Pow2(n)
  {
    AndMod(a, b, n);
    AndMod(c, d, n);
  }

  lemma SameEither(a: int, b: int, c: int, d: int, n: nat)
    requires a % Pow2(n) == c % Pow2(n) && b % Pow2(n) == d % Pow2(n)
    ensures Or(a, b) % Pow2(n) == Or(c, d) % Pow2(n)
  {
    OrMod(a, b, n);
    OrMod(c, d, n);
  }

  /** Combining the bits of stored operands combines those of what they stand for. */
  lemma BitsVal(t: Type, a: nat, b: nat)
    requires a < Span(t.form) && b < Span(t.form)
    ensures Raw(t.form, And(a, b)) == Raw(t.form, And(Val(t, a), Val(t, b)))
    ensures Raw(t.form, Or(a, b)) == Raw(t.form, Or(Val(t, a), Val(t, b)))
  {
    SpanIs(t.form);
    SameRaw(t, a);
    SameRaw(t, b);
    SameBits(a, b, Val(t, a), Val(t, b), 8 * Size(t.form));
    SameEither(a, b, Val(t, a), Val(t, b), 8 * Size(t.form));
  }

  lemma SameRaw(t: Type, a: nat)
    requires a < Span(t.form)
    ensures a % Span(t.form) == Val(t, a) % Span(t.form)
  {
    RawOfVal(t, a);
  }

  lemma ShlVal(t: Type, a: nat, c: nat)
    requires a < Span(t.form)
    ensures a * Pow2(c) % Span(t.form) == Raw(t.form, Val(t, a) * Pow2(c))
  {
    var m, p := Span(t.form), Pow2(c);
    var i: int := if Val(t, a) == a then 0 else 1;
    assert (a - i * m) * p == a * p + (-(i * p)) * m;
    ModShift(a * p, -(i * p), m);
  }

  /** The machine's operators compute what the source's operators mean. */
  lemma VmOpMeans(op: BinOp, t: Type, a: nat, b: nat)
    requires a < Span(t.form) && b < Span(t.form)
    ensures VmOp(op, t.form, t.fSigned, a, b).Some? <==> Apply(op, t, Val(t, a), Val(t, b)).Some?
    ensures VmOp(op, t.form, t.fSigned, a, b).Some? ==>
              Val(ResultType(op, t), VmOp(op, t.form, t.fSigned, a, b).value) == Apply(op, t, Val(t, a), Val(t, b)).value
  {
    match op
    case Multiply => MulVal(t, a, b);
    case BAnd => BitsVal(t, a, b);
    case BOr => BitsVal(t, a, b);
    case Shl => ShlVal(t, a, b);
    case _ => AddVal(t, a, b);
  }

  /** The machine divides stored operands as the source divides what they stand for. */
  lemma VmDivision(t: Type, a: nat, b: nat, q: int, r: int)
    requires a < Span(t.form) && 0 < b < Span(t.form) && Divides(Val(t, a), Val(t, b), q, r)
    ensures VmOp(Divide, t.form, t.fSigned, a, b) == Some(Raw(t.form, q))
    ensures VmOp(Modulus, t.form, t.fSigned, a, b) == Some(Raw(t.form, r))
  {
    TruncDivides(Val(t, a), Val(t, b));
    DividesOnce(Val(t, a), Val(t, b), q, r, TruncDiv(Val(t, a), Val(t, b)), TruncMod(Val(t, a), Val(t, b)));
  }

  /** What a comparison or a logical operator gives is the word 1 or 0. */
  lemma Compares(t: Type, a: int, b: int)
    ensures Apply(Le, t, a, b) == Some(if a <= b then 1 else 0) && Apply(Lt, t, a, b) == Some(if a < b then 1 else 0)
    ensures Apply(Ge, t, a, b) == Some(if a >= b then 1 else 0) && Apply(Gt, t, a, b) == Some(if a > b then 1 else 0)
    ensures Apply(Equal, t, a, b) == Some(if a == b then 1 else 0) && Apply(NotEqual, t, a, b) == Some(if a == b then 0 else 1)
    ensures Apply(LAnd, t, a, b) == Some(if a == 0 || b == 0 then 0 else 1)
    ensures Apply(LOr, t, a, b) == Some(if a == 0 && b == 0 then 0 else 1)
    ensures forall op :: ResultType(op, t) == if op in [Le, Lt, Equal, NotEqual, Ge, Gt, LAnd, LOr] then Type(FormWord, true) else t
  {
  }

  /** So it is in the machine, on stored operands. */
  lemma VmCompares(t: Type, a: nat, b: nat)
    requires a < Span(t.form) && b < Span(t.form)
    ensures var x, y, vm := Val(t, a), Val(t, b), (op: BinOp) => VmOp(op, t.form, t.fSigned, a, b);
            && vm(Le) == Some(if x <= y then 1 else 0) && vm(Lt) == Some(if x < y then 1 else 0)
            && vm(Ge) == Some(if x >= y then 1 else 0) && vm(Gt) == Some(if x > y then 1 else 0)
            && vm(Equal) == Some(if x == y then 1 else 0) && vm(NotEqual) == Some(if x == y then 0 else 1)
            && vm(LAnd) == Some(if x == 0 || y == 0 then 0 else 1) && vm(LOr) == Some(if x == 0 && y == 0 then 0 else 1)
  {
    RawOfVal(t, a);
    RawOfVal(t, b);
  }

  /** A shift by one place more doubles, and by 32 places or more is an error. */
  lemma ShiftsLeft(t: Type, a: int, n: nat)
    ensures InRange(t, a) ==> Apply(Shl, t, a, 0) == Some(a)
    ensures Apply(Shl, t, a, n).Some? <==> n < 32
    ensures n < 31 ==> Apply(Shl, t, a, n + 1) == Some(Wrap(t, Apply(Shl, t, a, n).value * 2))
  {
    WrapRange(t, a);
    var p := Pow2(n);
    assert a * (2 * p) == a * p * 2;
    WrapDouble(t, a * p);
  }

  /** A shift to the right by one place more halves, rounding down. */
  lemma ShiftsRight(t: Type, a: int, n: nat)
    requires InRange(t, a)
    ensures Apply(Shr, t, a, 0) == Some(a)
    ensures Apply(Shr, t, a, n).Some? <==> n < 32
    ensures n < 31 ==> Apply(Shr, t, a, n + 1) == Some(Apply(Shr, t, a, n).value / 2)
  {
    var p := Pow2(n);
    WrapRange(t, a);
    HalfAgain(a, p);
    ShiftedRange(t, a, p);
    ShiftedRange(t, a, 2 * p);
    WrapRange(t, a / p);
    WrapRange(t, a / (2 * p));
  }

  lemma WrapDouble(t: Type, x: int)
    ensures Wrap(t, Wrap(t, x) * 2) == Wrap(t, x * 2)
  {
    var m: int := Span(t.form);
    var k := if Wrap(t, x) < Raw(t.form, x) then x / m + 1 else x / m;
    assert x == x / m * m + Raw(t.form, x);
    assert Wrap(t, x) == x - k * m;
    assert Wrap(t, x) * 2 == x * 2 + -(2 * k) * m;
    ModShift(x * 2, -(2 * k), m);
  }

  lemma HalfAgain(a: int, p: nat)
    requires p > 0
    ensures a / (2 * p) == a / p / 2
  {
    var q, r := a / p, a % p;
    assert a == (q / 2) * (2 * p) + (q % 2 * p + r) by { assert a == q * p + r && q == q / 2 * 2 + q % 2; }
    DivUnique(a, 2 * p, q / 2, q % 2 * p + r);
  }

  lemma ShiftedRange(t: Type, a: int, p: nat)
    requires InRange(t, a) && p > 0
    ensures InRange(t, a / p)
  {
    var q := a / p;
    assert a == q * p + a % p;
    BetweenTimes(q, p - 1, a);
  }

  lemma SameSign(x: nat, y: nat)
    ensures x * y >= 0 && -(x as int) * y == -(x * y)
  {
  }

  lemma BetweenTimes(q: int, e: nat, a: int)
    requires q * (e + 1) <= a < q * (e + 1) + e + 1
    ensures if a >= 0 then 0 <= q <= a else a <= q <= -1
  {
    assert q * (e + 1) == q * e + q && (q + 1) * (e + 1) == (q + 1) * e + q + 1;
    if q >= 0 { SameSign(q, e); } else { SameSign(-(q + 1), e); }
  }

  /** The three ways to negate stored bits agree. */
  lemma NegVal(t: Type, bits: nat)
    requires bits < Span(t.form)
    ensures var s := Type(t.form, true);
            && Wrap(s, -Val(t, bits)) == Val(s, Raw(s.form, -Val(s, bits)))
            && Wrap(s, -Val(t, bits)) == Val(s, Raw(s.form, 0 - bits))
  {
    AddVal(t, 0, bits);
    AddVal(Type(t.form, true), 0, bits);
  }

  lemma VmOpBits(op: BinOp, f: Form, fSigned: bool, a: nat, b: nat)
    ensures var v := VmOp(op, f, fSigned, a, b); v.Some? ==> v.value < Span(ResultType(op, Type(f, fSigned)).form)
  {
  }
}
