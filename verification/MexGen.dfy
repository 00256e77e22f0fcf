/** The code generator as the compiler runs it: quads are appended to the instruction
    file, jumps are written before their targets are known and patched later, and
    temporaries are taken from and given back to lists. */
module MexGen {
  import opened Wrappers
  import opened MexTypes
  import opened MexVm
  import opened MexSource
  import opened MexCode
  import opened MexFlow
  import opened MexPatch
  import opened MexTemps

  /** How many temporaries an expression can need beside those in use. */
  function Need(e: Expr): nat {
    match e
    case Const(f, v) => 0
    case Var(t, ofs) => 0
    case Bin(op, a, b) => Max(Need(a), Max(Need(b) + 1, 5))
    case Neg(a) => Max(Need(a), 2)
    case Cast(t, a) => Max(Need(a), 2)
  }

  function Max(a: nat, b: nat): nat {
    if a < b then b else a
  }

  /** How deep an expression nests to the right. */
  function Nesting(e: Expr): nat {
    match e
    case Const(_, _) => 0
    case Var(_, _) => 0
    case Bin(_, a, b) => Max(Nesting(a), 1 + Nesting(b))
    case Neg(a) => Nesting(a)
    case Cast(_, a) => Nesting(a)
  }

  /** An expression nested n deep to the right, however long, needs at most n + 5. */
  lemma {:induction false} NeedBound(e: Expr)
    ensures Need(e) <= Nesting(e) + 5
  {
    match e
    case Bin(_, a, b) => NeedBound(a); NeedBound(b);
    case Neg(a) => NeedBound(a);
    case Cast(_, a) => NeedBound(a);
    case _ =>
  }

  lemma {:induction false} CountFree(live: set<Reg>, f: Form, k: int)
    ensures FirstFree(live, f, k) <= k + |live|
    decreases |live|
  {
    if Reg(f, k) in live {
      CountFree(live - {Reg(f, k)}, f, k + 1);
    }
  }

  lemma FreshCount(live: set<Reg>, f: Form)
    ensures Fresh(live, f).k <= |live| + 1
  {
    CountFree(live, f, 1);
  }

  lemma AddThenFree(o: Obj, live: set<Reg>)
    requires TempOf(o) !! live
    ensures live + TempOf(o) - TempOf(o) == live
  {
  }

  lemma CountCoerce(o: Obj, t: Type, live: set<Reg>)
    ensures |Coerce(o, t, live).live| <= |live| + 1
  {
    var p := Coerce(o, t, live);
    if p.live != live {
      var r := Fresh(live, t.form);
      SubsetCount(p.live, live + {r});
    }
  }

  lemma SubsetCount(a: set<Reg>, b: set<Reg>)
    requires a <= b
    ensures |a| <= |b|
  {
    assert b == a + (b - a);
  }

  class Generator {
    var quads: seq<Quad>
    var temp: seq<TempList>
    var frPatch: seq<nat>
    /** The registers on the lists. */
    ghost var inUse: set<Reg>

    constructor ()
      ensures Valid() && inUse == {} && quads == [] && frPatch == []
    {
      quads, temp, frPatch, inUse := [], [], [], {};
    }

    /** The lists are in order, and hold the registers in use. */
    ghost predicate Lists()
      reads this`temp, this`inUse
    {
      forall u: nat {:trigger ShowLists(temp, u)} :: ShowLists(temp, u) ==> Good(temp) && inUse == Live(temp)
    }

    /** And each number on them stands for one register only. */
    ghost predicate Valid()
      reads this`temp, this`inUse
    {
      Lists() && forall u: nat {:trigger ShowLists(temp, u)} :: ShowLists(temp, u) ==> Tame(inUse)
    }

    method Generate(q: Quad)
      modifies this`quads
      ensures quads == old(quads) + [q]
    {
      quads := quads + [q];
    }

    // -------------------------------------------------------------- temporaries

    /** The first number missing from a form's list, and its place. */
    static method FindGap(f: Form, s: seq<int>) returns (j: nat, reg: nat)
      ensures j == Gap(f, s, 0) && reg == j + 1
    {
      j, reg := 0, 1;
      while j < |s| && s[j] == reg + Base(f)
        invariant 0 <= j <= |s| && reg == j + 1
        invariant Gap(f, s, 0) == Gap(f, s, j)
      {
        j, reg := j + 1, reg + 1;
      }
    }

    /** The list for a form, or the number of lists if it has none. */
    method FindList(f: Form) returns (i: nat)
      ensures i <= |temp| && (i < |temp| ==> temp[i].size == Size(f))
      ensures forall k :: 0 <= k < i ==> temp[k].size != Size(f)
    {
      i := 0;
      while i < |temp| && temp[i].size != Size(f)
        invariant 0 <= i <= |temp|
        invariant forall k :: 0 <= k < i ==> temp[k].size != Size(f)
      {
        i := i + 1;
      }
    }

    /** The first register of the form that is not in use. */
    method GetTemporary(f: Form) returns (r: Place)
      requires Lists()
      modifies this`temp, this`inUse
      ensures Lists() && r == TempAt(Fresh(old(inUse), f)) && inUse == old(inUse) + {Fresh(old(inUse), f)}
      ensures old(Valid()) && |old(inUse)| + 1 < MAX_TEMP ==> Valid()
    {
      assert ShowLists(temp, 0);
      FreshCount(inUse, f);
      var i := FindList(f);
      if i < |temp| {
        r := TakeFrom(i, f);
      } else {
        r := StartList(f);
      }
    }

    method TakeFrom(i: nat, f: Form) returns (r: Place)
      requires Lists() && i < |temp| && temp[i].size == Size(f)
      modifies this`temp, this`inUse
      ensures Lists() && r == TempAt(Fresh(old(inUse), f)) && inUse == old(inUse) + {Fresh(old(inUse), f)}
    {
      assert ShowLists(temp, 0);
      var s := temp[i].offsets;
      var j, reg := FindGap(f, s);
      ghost var g, ls2 := Take(temp, i, f);
      r := Temp(reg + Base(f));
      assert r == TempAt(Fresh(inUse, f));
      temp := temp[i := TempList(temp[i].size, Insert(s, j, reg + Base(f)))];
      assert temp == ls2;
      inUse := Live(temp);
    }

    method StartList(f: Form) returns (r: Place)
      requires Lists() && forall i :: 0 <= i < |temp| ==> temp[i].size != Size(f)
      modifies this`temp, this`inUse
      ensures Lists() && r == TempAt(Fresh(old(inUse), f)) && inUse == old(inUse) + {Fresh(old(inUse), f)}
    {
      assert ShowLists(temp, 0);
      ghost var ls2 := First(temp, f);
      temp := [TempList(Size(f), [1 + Base(f)])] + temp;
      inUse := Live(temp);
      r := Temp(1 + Base(f));
    }

    /** Frees the register an object is in: the first one on the lists with the
        object's number, which is the object's own if numbers stand for one register. */
    method MaybeFreeTemporary(o: Obj)
      requires Lists() && TempOf(o) <= inUse
      modifies this`temp, this`inUse
      ensures Lists() && (TempOf(o) == {} ==> inUse == old(inUse))
      ensures TempOf(o) != {} ==> exists f ::
                Slot(f, o.arg.place.ofs) in old(inUse) && inUse == old(inUse) - {Slot(f, o.arg.place.ofs)}
      ensures old(Valid()) ==> Valid() && inUse == old(inUse) - TempOf(o)
    {
      if o.arg.Lit? || o.arg.place.Ar? {
        return;
      }
      assert ShowLists(temp, 0);
      var ofs := o.arg.place.ofs;
      var i := 0;
      while i < |temp|
        invariant 0 <= i <= |temp| && temp == old(temp) && inUse == old(inUse)
        invariant forall k :: 0 <= k < i ==> ofs !in temp[k].offsets
      {
        var s := temp[i].offsets;
        var j := 0;
        while j < |s| && s[j] != ofs
          invariant 0 <= j <= |s| && ofs !in s[..j]
        {
          j := j + 1;
        }
        if j < |s| {
          ghost var f := Unlink(i, j, o.t.form);
          return;
        }
        i := i + 1;
      }
      ghost var k := Listed(temp, o.t.form, ofs);
    }

    /** Takes entry j off list i.  If numbers stand for one register, and the entry's is
        one in use of form f, it is that register's. */
    method Unlink(i: nat, j: nat, ghost f: Form) returns (ghost g: Form)
      requires Lists() && i < |temp| && j < |temp[i].offsets|
      modifies this`temp, this`inUse
      ensures Lists() && Slot(g, old(temp[i].offsets[j])) in old(inUse)
      ensures inUse == old(inUse) - {Slot(g, old(temp[i].offsets[j]))}
      ensures old(Valid()) && Slot(f, old(temp[i].offsets[j])) in old(inUse) ==> Valid() && g == f
    {
      assert ShowLists(temp, 0);
      var s := temp[i].offsets;
      g := FormOf(temp[i].size);
      if Tame(inUse) && Slot(f, s[j]) in inUse {
        Owner(temp, i, j, f, s[j]);
      }
      ghost var ls2 := Drop(temp, i, j, g);
      InUse(temp, i, g, s[j] - Base(g));
      temp := temp[i := TempList(temp[i].size, s[..j] + s[j + 1..])];
      inUse := Live(temp);
    }

    // -------------------------------------------------------------- expressions

    /** What a method has emitted and left in use is the part's. */
    ghost predicate Did(before: seq<Quad>, p: Part, o: Obj)
      reads this`quads, this`temp, this`inUse
    {
      Valid() && quads == before + p.quads && o == p.obj && inUse == p.live
    }

    /** The register of a conversion is given back at once when only the sign changes;
        doFree tells whether the caller is to free the converted object. */
    method ConvertTypes(o: Obj, t: Type) returns (r: Obj, doFree: bool)
      requires Valid() && o.t != t && TempOf(o) <= inUse && |inUse| + 1 < MAX_TEMP
      modifies this`quads, this`temp, this`inUse
      ensures var p := Convert(o, t, old(inUse));
              && Valid() && quads == old(quads) + p.quads && r == p.obj
              && doFree == (o.t.form != t.form)
              && inUse == old(inUse) + if doFree && o.arg.At? then {Fresh(old(inUse), t.form)} else {}
    {
      ghost var live := inUse;
      r := Obj(t, Lit(0));
      if o.arg.At? {
        r := NewTemp(t);
      }
      doFree := o.t.form != t.form;
      if o.t.form == t.form {
        AddThenFree(r, live);
        MaybeFreeTemporary(r);
        r := Obj(t, o.arg);
      } else if o.arg.Lit? {
        r := Obj(t, Lit(Raw(t.form, Val(o.t, Raw(o.t.form, o.arg.v)))));
      } else {
        Generate(QConvert(o.t.form, o.t.fSigned, t.form, o.arg, r.arg.place));
      }
    }

    method NewTemp(t: Type) returns (r: Obj)
      requires Valid() && |inUse| + 1 < MAX_TEMP
      modifies this`temp, this`inUse
      ensures Valid() && r == InTemp(t, Fresh(old(inUse), t.form)) && inUse == old(inUse) + TempOf(r)
      ensures TempOf(r) == {Fresh(old(inUse), t.form)}
    {
      SlotOfTemp(Fresh(inUse, t.form));
      var a := GetTemporary(t.form);
      r := Obj(t, At(a));
    }

    /** An object brought to a type, if it has not got it yet. */
    method CoerceTo(o: Obj, t: Type) returns (r: Obj)
      requires Valid() && TempOf(o) <= inUse && |inUse| + 1 < MAX_TEMP
      modifies this`quads, this`temp, this`inUse
      ensures Did(old(quads), Coerce(o, t, old(inUse)), r)
    {
      if o.t == t {
        r := o;
      } else {
        var doFree;
        r, doFree := ConvertTypes(o, t);
        ghost var mid := inUse;
        if doFree { MaybeFreeTemporary(o); }
        CoercedLive(o, t, old(inUse), mid, inUse);
      }
    }

    lemma CoercedLive(o: Obj, t: Type, live: set<Reg>, mid: set<Reg>, end: set<Reg>)
      requires o.t != t && mid == live + if o.t.form != t.form && o.arg.At? then {Fresh(live, t.form)} else {}
      requires end == if o.t.form != t.form then mid - TempOf(o) else mid
      ensures end == Coerce(o, t, live).live
    {
    }

    /** Brings two operands to their common type and picks the type of the result. */
    method SelectBinaryOperator(op: BinOp, o1: Obj, o2: Obj) returns (r1: Obj, r2: Obj, result: Type, ghost qs: seq<Quad>)
      requires Valid() && TempOf(o1) <= inUse && TempOf(o2) <= inUse && TempOf(o1) !! TempOf(o2) && |inUse| + 2 < MAX_TEMP
      modifies this`quads, this`temp, this`inUse
      ensures Valid() && quads == old(quads) + qs && Selected(op, o1, o2, old(inUse), r1, r2, result, qs, inUse)
      ensures TempOf(r1) <= inUse && TempOf(r2) <= inUse && TempOf(r1) !! TempOf(r2) && r1.t == r2.t
      ensures |inUse| <= old(|inUse|) + 2
    {
      ghost var live := inUse;
      var t := Common(o1.t, o2.t);
      CoercePair(o1, o2, t, live);
      r1 := CoerceTo(o1, t);
      ghost var mid := inUse;
      r2 := CoerceTo(o2, t);
      result := ResultType(op, t);
      qs := Coerce(o1, t, live).quads + Coerce(o2, t, mid).quads;
    }

    method EvalBinary(op: BinOp, o1: Obj, o2: Obj) returns (r: Obj, ghost c: Part)
      requires Valid() && TempOf(o1) <= inUse && TempOf(o2) <= inUse && TempOf(o1) !! TempOf(o2) && |inUse| + 3 < MAX_TEMP
      modifies this`quads, this`temp, this`inUse
      ensures BinPart(op, o1, o2, old(inUse), c) && Did(old(quads), c, r)
    {
      ghost var before := inUse;
      ghost var qs;
      var a, b, result;
      a, b, result, qs := SelectBinaryOperator(op, o1, o2);
      ghost var live, start := inUse, old(quads);
      r := EmitBinary(op, a, b, result);
      c := BinIs(op, o1, o2, before, a, b, result, qs, live);
      assert forall q: seq<Quad> {:trigger qs + q} :: start + qs + q == start + (qs + q);
    }

    /** The quad of a binary operator on operands of one type. */
    method EmitBinary(op: BinOp, a: Obj, b: Obj, result: Type) returns (r: Obj)
      requires Valid() && TempOf(a) <= inUse && TempOf(b) <= inUse && TempOf(a) !! TempOf(b) && a.t == b.t
      requires |inUse| + 1 < MAX_TEMP
      modifies this`quads, this`temp, this`inUse
      ensures var reg := Fresh(old(inUse), result.form);
              && Valid() && r == InTemp(result, reg) && inUse == old(inUse) + {reg} - TempOf(a) - TempOf(b)
              && quads == old(quads) + [QBin(op, a.t.form, a.t.fSigned, a.arg, b.arg, TempAt(reg))]
    {
      var t := GetTemporary(result.form);
      Generate(QBin(op, a.t.form, a.t.fSigned || b.t.fSigned, a.arg, b.arg, t));
      MaybeFreeTemporary(a);
      MaybeFreeTemporary(b);
      r := Obj(result, At(t));
    }

    /** An explicit conversion; none, if the object has the type already. */
    method TypeCast(o: Obj, t: Type) returns (r: Obj, ghost c: Part)
      requires Valid() && TempOf(o) <= inUse && |inUse| + 1 < MAX_TEMP
      modifies this`quads, this`temp, this`inUse
      ensures IsPart(Coerce(o, t, old(inUse)), c) && Did(old(quads), c, r)
    {
      c := Coerce(o, t, inUse);
      r := CoerceTo(o, t);
    }

    /** Unary minus: a literal is negated at once, anything else subtracted from zero. */
    method EvalUnary(o: Obj) returns (r: Obj, ghost c: Part)
      requires Valid() && TempOf(o) <= inUse && |inUse| + 1 < MAX_TEMP
      modifies this`quads, this`temp, this`inUse
      ensures IsPart(CodeNeg(o, old(inUse)), c) && Did(old(quads), c, r)
    {
      c := CodeNeg(o, inUse);
      var signed := Type(o.t.form, true);
      if o.arg.Lit? {
        r := Obj(signed, Lit(Raw(o.t.form, -Val(signed, Raw(o.t.form, o.arg.v)))));
      } else {
        var t := GetTemporary(o.t.form);
        r := Obj(signed, At(t));
        Generate(QBin(Subtract, o.t.form, o.t.fSigned, Lit(0), o.arg, t));
        MaybeFreeTemporary(o);
      }
    }

    /** The semantic actions of an expression, operands first. */
    method Expression(e: Expr) returns (r: Obj, ghost p: Part)
      requires Valid() && |inUse| + Need(e) < MAX_TEMP
      modifies this`quads, this`temp, this`inUse
      ensures ExprIs(e, old(inUse), p) && Did(old(quads), p, r)
      decreases e
    {
      ghost var live := inUse;
      match e
      case Const(f, v) =>
        r := Obj(LitType(f, Raw(f, v)), Lit(Raw(f, v)));
        p := Part([], r, live);
      case Var(t, ofs) =>
        r := Obj(t, At(Ar(ofs)));
        p := Part([], r, live);
      case Bin(op, a, b) => r, p := BinExpression(e);
      case Neg(a) => r, p := NegExpression(e);
      case Cast(t, a) => r, p := CastExpression(e);
    }

    method NegExpression(e: Expr) returns (r: Obj, ghost p: Part)
      requires e.Neg? && Valid() && |inUse| + Need(e) < MAX_TEMP
      modifies this`quads, this`temp, this`inUse
      ensures ExprIs(e, old(inUse), p) && Did(old(quads), p, r)
      decreases e, 0
    {
      ghost var live := inUse;
      ghost var c;
      var o;
      o, p := Expression(e.e);
      ExprShape(e.e, live, p);
      r, c := EvalUnary(o);
      p := NegIs(e, live, p, c);
    }

    method CastExpression(e: Expr) returns (r: Obj, ghost p: Part)
      requires e.Cast? && Valid() && |inUse| + Need(e) < MAX_TEMP
      modifies this`quads, this`temp, this`inUse
      ensures ExprIs(e, old(inUse), p) && Did(old(quads), p, r)
      decreases e, 0
    {
      ghost var live := inUse;
      ghost var c;
      var o;
      o, p := Expression(e.e);
      ExprShape(e.e, live, p);
      r, c := TypeCast(o, e.to);
      p := CastIs(e, live, p, c);
    }

    method BinExpression(e: Expr) returns (r: Obj, ghost p: Part)
      requires e.Bin? && Valid() && |inUse| + Need(e) < MAX_TEMP
      modifies this`quads, this`temp, this`inUse
      ensures ExprIs(e, old(inUse), p) && Did(old(quads), p, r)
      decreases e, 0
    {
      ghost var live := inUse;
      ghost var p1, p2, c;
      NeedBin(e);
      var o1, o2;
      o1, p1 := Expression(e.a);
      ExprShape(e.a, live, p1);
      o2, p2 := Expression(e.b);
      ExprShape(e.b, p1.live, p2);
      r, c := EvalBinary(e.op, o1, o2);
      p := BinExprIs(e, live, p1, p2, c);
      Joined(old(quads), p1.quads, p2.quads, c.quads);
    }

    // -------------------------------------------------------------- actions

    /** Assignment: the value is brought to the type of the variable. */
    method EvalAssign(t: Type, ofs: int, o: Obj) returns (r: Obj, ghost qs: seq<Quad>)
      requires Valid() && inUse == TempOf(o)
      modifies this`quads, this`temp, this`inUse
      ensures Valid() && inUse == {} && quads == old(quads) + qs && r == Obj(t, At(Ar(ofs)))
      ensures AssignQuads(t, ofs, o, qs)
    {
      ghost var c := Coerce(o, t, inUse);
      CountTemp(o);
      CoerceKeeps(o, t, inUse);
      var source := CoerceTo(o, t);
      Generate(QAssign(t.form, source.arg, Ar(ofs)));
      MaybeFreeTemporary(source);
      r := Obj(t, At(Ar(ofs)));
      qs := c.quads + [QAssign(t.form, c.obj.arg, Ar(ofs))];
    }

    /** The semantic actions of an expression at the level of a statement. */
    method Perform(a: Action) returns (r: Obj, ghost p: Part)
      requires Valid() && inUse == {} && NeedA(a) < MAX_TEMP
      modifies this`quads, this`temp, this`inUse
      ensures ActionIs(a, p) && Did(old(quads), p, r) && inUse == TempOf(r)
      decreases a
    {
      match a
      case Pure(e) =>
        r, p := Expression(e);
        p := PureIs(a, p);
      case Assign(t, ofs, source) =>
        var o;
        ghost var qs;
        o, p := Perform(source);
        r, qs := EvalAssign(t, ofs, o);
        p := AssignIs(a, p, qs);
    }

    // -------------------------------------------------------------- patches

    /** Makes the listed jumps lead to where. */
    method BackPatch(pat: seq<nat>, where: nat)
      requires forall p :: p in pat ==> p < |quads|
      modifies this`quads
      ensures |quads| == |old(quads)|
      ensures forall i :: 0 <= i < |quads| ==> quads[i] == if i in pat then Retarget(old(quads)[i], where) else old(quads)[i]
    {
      var k := 0;
      while k < |pat|
        invariant 0 <= k <= |pat| && |quads| == |old(quads)|
        invariant forall i :: 0 <= i < |quads| ==> quads[i] == if i in pat[..k] then Retarget(old(quads)[i], where) else old(quads)[i]
      {
        assert pat[k] in pat && pat[..k + 1] == pat[..k] + [pat[k]];
        RetargetTwice(old(quads)[pat[k]], where);
        quads := quads[pat[k] := Retarget(quads[pat[k]], where)];
        k := k + 1;
      }
      assert pat[..k] == pat;
    }

    /** Patches one jump between two stretches of code. */
    method PatchOne(pat: seq<nat>, where: nat, ghost a: seq<Quad>, ghost q: Quad, ghost b: seq<Quad>)
      requires quads == a + [q] + b && pat == [|a|]
      modifies this`quads
      ensures quads == a + [Retarget(q, where)] + b
    {
      BackPatch(pat, where);
    }

    // -------------------------------------------------------------- if, else

    /** A jump past the statement, taken when the test is false. */
    method IfTest(o: Obj) returns (p: seq<nat>)
      requires Valid() && inUse == TempOf(o)
      modifies this`quads, this`temp, this`inUse
      ensures Valid() && inUse == {} && p == [old(|quads|)] && quads == old(quads) + [TestQuad(o, HOLE, false)]
    {
      p := [|quads|];
      Generate(QJz(o.t.form, o.arg, HOLE));
      MaybeFreeTemporary(o);
    }

    /** The jump over an else part. */
    method ElseHandler() returns (e: ElseType)
      modifies this`quads
      ensures e == ElseType([old(|quads|)], old(|quads|) + 1) && quads == old(quads) + [QJmp(HOLE)]
    {
      var patchout := [|quads|];
      Generate(QJmp(HOLE));
      e := ElseType(patchout, |quads|);
    }

    /** The test jumps to the else label, the jump over the else part, if any, to here. */
    method IfEnd(ifTest: seq<nat>, elses: ElseType, ghost a: seq<Quad>, ghost q: Quad, ghost b: seq<Quad>, ghost j: seq<Quad>, ghost c: seq<Quad>)
      requires quads == a + [q] + b + j + c && ifTest == [|a|]
      requires elses.patchout == if j == [] then [] else [|a| + 1 + |b|]
      requires j == [] || j == [QJmp(HOLE)]
      modifies this`quads
      ensures quads == a + [Retarget(q, elses.elseLabel)] + b + (if j == [] then [] else [QJmp(|old(quads)|)]) + c
    {
      assert a + [q] + b + j + c == a + [q] + (b + j + c);
      PatchOne(ifTest, elses.elseLabel, a, q, b + j + c);
      ghost var d := a + [Retarget(q, elses.elseLabel)] + b;
      assert quads == d + j + c;
      if elses.patchout == [] {
        BackPatch(elses.patchout, |quads|);
        assert quads == d + [] + c;
      } else {
        PatchOne(elses.patchout, |quads|, d, QJmp(HOLE), c);
      }
    }

    // -------------------------------------------------------------- loops

    method WhileTest(o: Obj) returns (jump: seq<nat>)
      requires Valid() && inUse == TempOf(o)
      modifies this`quads, this`temp, this`inUse
      ensures Valid() && inUse == {} && jump == [old(|quads|)] && quads == old(quads) + [TestQuad(o, HOLE, false)]
    {
      jump := [|quads|];
      Generate(QJz(o.t.form, o.arg, HOLE));
      MaybeFreeTemporary(o);
    }

    /** The jump back to the test; the test jumps past it. */
    method GenWhileOut(jump: seq<nat>, top: nat, ghost a: seq<Quad>, ghost q: Quad, ghost b: seq<Quad>)
      requires quads == a + [q] + b && jump == [|a|]
      modifies this`quads
      ensures quads == a + [Retarget(q, |quads|)] + b + [QJmp(top)]
    {
      var here := [|quads|];
      Generate(QJmp(HOLE));
      assert a + [q] + b + [QJmp(HOLE)] == a + [q] + (b + [QJmp(HOLE)]);
      PatchOne(jump, |quads|, a, q, b + [QJmp(HOLE)]);
      ghost var c := a + [Retarget(q, |quads|)] + b;
      assert quads == c + [QJmp(HOLE)] + [];
      PatchOne(here, top, c, QJmp(HOLE), []);
    }

    /** The jump back to the top of a do loop. */
    method GenDoWhileOut(top: nat, o: Obj)
      requires Valid() && inUse == TempOf(o)
      modifies this`quads, this`temp, this`inUse
      ensures Valid() && inUse == {} && quads == old(quads) + [TestQuad(o, top, true)]
    {
      var jump := [|quads|];
      Generate(QJnz(o.t.form, o.arg, HOLE));
      assert quads == old(quads) + [TestQuad(o, HOLE, true)] + [];
      PatchOne(jump, top, old(quads), TestQuad(o, HOLE, true), []);
      MaybeFreeTemporary(o);
    }

    /** The jumps out of a for loop's test: past the loop when it is false, or else to the
        body, which is not yet known. */
    method GenForTest(fr: ForType, o: Obj) returns (r: ForType)
      requires Valid() && inUse == TempOf(o)
      modifies this`quads, this`temp, this`inUse
      ensures Valid() && inUse == {} && quads == old(quads) + ([TestQuad(o, HOLE, false)] + [QJmp(HOLE)])
      ensures r == fr.(jzDone := [old(|quads|)], jmpBody := [old(|quads|) + 1])
    {
      r := fr.(jzDone := [|quads|]);
      Generate(QJz(o.t.form, o.arg, HOLE));
      r := r.(jmpBody := [|quads|]);
      Generate(QJmp(HOLE));
      MaybeFreeTemporary(o);
    }

    method GenForJmpTest(fr: ForType) returns (r: ForType)
      modifies this`quads
      ensures quads == old(quads) + [QJmp(HOLE)] && r == fr.(jmpTest := [old(|quads|)])
    {
      r := fr.(jmpTest := [|quads|]);
      Generate(QJmp(HOLE));
    }

    /** The jump from the body to the post action; then all four jumps of the loop are
        made to lead where they should. */
    method GenForJmpPostAndCleanup(fr: ForType, ghost a: seq<Quad>, ghost q: Quad, ghost post: seq<Quad>, ghost body: seq<Quad>)
      requires quads == a + [q] + [QJmp(HOLE)] + post + [QJmp(HOLE)] + body
      requires fr.jzDone == [|a|] && fr.jmpBody == [|a| + 1] && fr.jmpTest == [|a| + 2 + |post|]
      modifies this`quads
      ensures quads == a + [Retarget(q, old(|quads|) + 1)] + [QJmp(fr.vmBody)] + post + [QJmp(fr.vmTest)] + body + [QJmp(fr.vmPost)]
    {
      var jmpPost := [|quads|];
      Generate(QJmp(HOLE));
      var done := |quads|;
      ghost var rest := [QJmp(HOLE)] + post + [QJmp(HOLE)] + body + [QJmp(HOLE)];
      assert quads == a + [q] + rest;
      PatchOne(fr.jzDone, done, a, q, rest);
      ghost var b := a + [Retarget(q, done)];
      PatchInnerJumps(fr, b, post, body);
      ghost var c := b + [QJmp(fr.vmBody)] + post + [QJmp(fr.vmTest)] + body;
      assert quads == c + [QJmp(HOLE)] + [];
      PatchOne(jmpPost, fr.vmPost, c, QJmp(HOLE), []);
    }

    method PatchInnerJumps(fr: ForType, ghost b: seq<Quad>, ghost post: seq<Quad>, ghost body: seq<Quad>)
      requires quads == b + ([QJmp(HOLE)] + post + [QJmp(HOLE)] + body + [QJmp(HOLE)])
      requires fr.jmpBody == [|b|] && fr.jmpTest == [|b| + 1 + |post|]
      modifies this`quads
      ensures quads == b + [QJmp(fr.vmBody)] + post + [QJmp(fr.vmTest)] + body + [QJmp(HOLE)]
    {
      ghost var r := post + [QJmp(HOLE)] + body + [QJmp(HOLE)];
      assert quads == b + [QJmp(HOLE)] + r;
      PatchOne(fr.jmpBody, fr.vmBody, b, QJmp(HOLE), r);
      ghost var c := b + [QJmp(fr.vmBody)] + post;
      assert quads == c + [QJmp(HOLE)] + (body + [QJmp(HOLE)]);
      PatchOne(fr.jmpTest, fr.vmTest, c, QJmp(HOLE), body + [QJmp(HOLE)]);
    }

    // -------------------------------------------------------------- return

    /** A return statement: the value goes, in the function's type, to the register for
        results, and control to the end of the function, which is not yet known. */
    method GenFuncRet(o: Option<Obj>, ret: Type) returns (ghost qs: seq<Quad>)
      requires Valid() && inUse == if o.Some? then TempOf(o.value) else {}
      modifies this
      ensures Valid() && inUse == {} && quads == old(quads) + qs + [QJmp(HOLE)]
      ensures frPatch == [|old(quads) + qs|] + old(frPatch)
      ensures if o.None? then qs == [] else ReturnQuads(o.value, ret, qs)
    {
      qs := [];
      if o.Some? {
        qs := ReturnValue(o.value, ret);
      }
      var here := |quads|;
      Generate(QJmp(HOLE));
      frPatch := [here] + frPatch;
    }

    method ReturnValue(o: Obj, ret: Type) returns (ghost qs: seq<Quad>)
      requires Valid() && inUse == TempOf(o)
      modifies this`quads, this`temp, this`inUse
      ensures Valid() && inUse == {} && quads == old(quads) + qs && ReturnQuads(o, ret, qs)
    {
      ghost var c := Coerce(o, ret, inUse);
      CountTemp(o);
      CoerceKeeps(o, ret, inUse);
      var obj := CoerceTo(o, ret);
      Generate(QAssign(ret.form, obj.arg, Temp(Base(ret.form))));
      MaybeFreeTemporary(obj);
      qs := c.quads + [QAssign(ret.form, c.obj.arg, Temp(Base(ret.form)))];
      ReturnIs(o, ret, c, qs);
    }

    // -------------------------------------------------------------- statements

    /** The semantic actions of a statement in the order in which the parser runs them. */
    method Statement(s: Stmt, ret: Type) returns (ghost c: seq<Quad>, ghost j: seq<nat>)
      requires Valid() && inUse == {} && Fits(s, MAX_TEMP)
      modifies this
      ensures Valid() && inUse == {} && quads == old(quads) + c && frPatch == j + old(frPatch)
      ensures Written(s, |old(quads)|, |quads|, ret, HOLE, c, j)
      decreases s, 2
    {
      match s
      case Skip =>
        c, j := [], [];
        WrittenSkip(|quads|, ret, HOLE);
      case Perform(a) =>
        ghost var p;
        var o;
        o, p := Perform(a);
        WrittenPerform(s, |old(quads)|, ret, HOLE, p);
        MaybeFreeTemporary(o);
        c, j := p.quads, [];
      case Then(a, b) => c, j := GenThen(s, ret);
      case If(test, yes) => c, j := GenIf(s, ret);
      case IfElse(test, yes, no) => c, j := GenIfElse(s, ret);
      case While(test, body) => c, j := GenWhile(s, ret);
      case DoWhile(body, test) => c, j := GenDoWhile(s, ret);
      case For(init, test, post, body) => c, j := GenFor(s, ret);
      case Return(value) => c, j := GenReturn(s, ret);
    }

    method GenThen(s: Stmt, ret: Type) returns (ghost c: seq<Quad>, ghost j: seq<nat>)
      requires s.Then? && Valid() && inUse == {} && Fits(s, MAX_TEMP)
      modifies this
      ensures Valid() && inUse == {} && quads == old(quads) + c && frPatch == j + old(frPatch)
      ensures Written(s, |old(quads)|, |quads|, ret, HOLE, c, j)
      decreases s, 0
    {
      ghost var addr, ja, jb, a, b := |quads|, [], [], [], [];
      a, ja := Statement(s.first, ret);
      ghost var at := |quads|;
      b, jb := Statement(s.second, ret);
      c, j := a + b, jb + ja;
      WrittenThen(s, addr, at, |quads|, ret, HOLE, a, ja, b, jb);
    }

    /** A test, its jump, and the statement for when it is true. */
    method TestThen(a: Action, yes: Stmt, ret: Type, ghost of: Stmt)
      returns (o: Obj, ifTest: seq<nat>, ghost p: Part, ghost c: seq<Quad>, ghost j: seq<nat>)
      requires Valid() && inUse == {} && NeedA(a) < MAX_TEMP && Fits(yes, MAX_TEMP) && yes < of
      modifies this
      ensures Valid() && inUse == {} && frPatch == j + old(frPatch) && ActionIs(a, p) && o == p.obj
      ensures quads == old(quads) + p.quads + [TestQuad(o, HOLE, false)] + c && ifTest == [|old(quads)| + |p.quads|]
      ensures Written(yes, |old(quads)| + |p.quads| + 1, |quads|, ret, HOLE, c, j)
      decreases of, 0
    {
      o, p := Perform(a);
      ifTest := IfTest(o);
      c, j := Statement(yes, ret);
    }

    method GenIf(s: Stmt, ret: Type) returns (ghost c: seq<Quad>, ghost j: seq<nat>)
      requires s.If? && Valid() && inUse == {} && Fits(s, MAX_TEMP)
      modifies this
      ensures Valid() && inUse == {} && quads == old(quads) + c && frPatch == j + old(frPatch)
      ensures Written(s, |old(quads)|, |quads|, ret, HOLE, c, j)
      decreases s, 1
    {
      ghost var before := quads;
      ghost var p, b;
      var o, ifTest;
      o, ifTest, p, b, j := TestThen(s.test, s.yes, ret, s);
      var elses := ElseType([], |quads|);
      NoElse(before + p.quads + [TestQuad(o, HOLE, false)] + b);
      IfEnd(ifTest, elses, before + p.quads, TestQuad(o, HOLE, false), b, [], []);
      c := IfCode(before, p.quads, TestQuad(o, |quads|, false), b, quads);
      WrittenIf(s, |before|, |quads|, ret, HOLE, p, b, j);
    }

    method GenIfElse(s: Stmt, ret: Type) returns (ghost c: seq<Quad>, ghost j: seq<nat>)
      requires s.IfElse? && Valid() && inUse == {} && Fits(s, MAX_TEMP)
      modifies this
      ensures Valid() && inUse == {} && quads == old(quads) + c && frPatch == j + old(frPatch)
      ensures Written(s, |old(quads)|, |quads|, ret, HOLE, c, j)
      decreases s, 1
    {
      ghost var before := quads;
      ghost var p, a, b, ja, jb;
      var o, ifTest;
      o, ifTest, p, a, ja := TestThen(s.test, s.yes, ret, s);
      ghost var mid := |quads|;
      ghost var list := frPatch;
      c, b, jb := ElsePart(ifTest, o, s.no, ret, before, p.quads, a, s);
      j := jb + ja;
      ListOf(jb, ja, old(frPatch), list, frPatch);
      WrittenIfElse(s, |before|, mid, |quads|, ret, HOLE, p, a, ja, b, jb);
    }

    lemma ListOf(x: seq<nat>, y: seq<nat>, z: seq<nat>, yz: seq<nat>, xyz: seq<nat>)
      requires yz == y + z && xyz == x + yz
      ensures xyz == x + y + z
    {
    }

    /** The else part, and the patches after it. */
    method ElsePart(ifTest: seq<nat>, o: Obj, no: Stmt, ret: Type, ghost before: seq<Quad>, ghost p: seq<Quad>, ghost a: seq<Quad>, ghost of: Stmt)
      returns (ghost c: seq<Quad>, ghost b: seq<Quad>, ghost j: seq<nat>)
      requires Valid() && inUse == {} && Fits(no, MAX_TEMP) && no < of
      requires quads == before + p + [TestQuad(o, HOLE, false)] + a && ifTest == [|before| + |p|]
      modifies this
      ensures Valid() && inUse == {} && frPatch == j + old(frPatch)
      ensures Written(no, |old(quads)| + 1, |quads|, ret, HOLE, b, j)
      ensures c == p + [TestQuad(o, |old(quads)| + 1, false)] + (a + ([QJmp(|quads|)] + b)) && quads == before + c
      decreases of, 0
    {
      var elses := ElseHandler();
      b, j := Statement(no, ret);
      c := EndIfElse(ifTest, elses, o, before, p, a, b);
    }

    method EndIfElse(ifTest: seq<nat>, elses: ElseType, o: Obj, ghost before: seq<Quad>, ghost p: seq<Quad>,
                     ghost a: seq<Quad>, ghost b: seq<Quad>) returns (ghost c: seq<Quad>)
      requires quads == before + p + [TestQuad(o, HOLE, false)] + a + [QJmp(HOLE)] + b
      requires ifTest == [|before| + |p|] && elses.patchout == [|before| + |p| + 1 + |a|]
      modifies this`quads
      ensures c == p + [TestQuad(o, elses.elseLabel, false)] + (a + ([QJmp(|old(quads)|)] + b)) && quads == before + c
    {
      ghost var end := |quads|;
      IfEnd(ifTest, elses, before + p, TestQuad(o, HOLE, false), a, [QJmp(HOLE)], b);
      c := IfElseCode(before, p, TestQuad(o, elses.elseLabel, false), a, QJmp(end), b, quads);
    }

    /** The test of a while statement, its jump, and the body. */
    method TestBody(s: Stmt, ret: Type) returns (o: Obj, jump: seq<nat>, ghost p: Part, ghost c: seq<Quad>, ghost j: seq<nat>)
      requires s.While? && Valid() && inUse == {} && Fits(s, MAX_TEMP)
      modifies this
      ensures Valid() && inUse == {} && frPatch == j + old(frPatch) && ActionIs(s.test, p) && o == p.obj
      ensures quads == old(quads) + p.quads + [TestQuad(o, HOLE, false)] + c && jump == [|old(quads)| + |p.quads|]
      ensures Written(s.body, |old(quads)| + |p.quads| + 1, |quads|, ret, HOLE, c, j)
      decreases s, 0
    {
      o, p := Perform(s.test);
      jump := WhileTest(o);
      c, j := Statement(s.body, ret);
    }

    method GenWhile(s: Stmt, ret: Type) returns (ghost c: seq<Quad>, ghost j: seq<nat>)
      requires s.While? && Valid() && inUse == {} && Fits(s, MAX_TEMP)
      modifies this
      ensures Valid() && inUse == {} && quads == old(quads) + c && frPatch == j + old(frPatch)
      ensures Written(s, |old(quads)|, |quads|, ret, HOLE, c, j)
      decreases s, 1
    {
      ghost var before := quads;
      ghost var p, b;
      var o, jump;
      var top := |quads|;
      o, jump, p, b, j := TestBody(s, ret);
      ghost var q, at := TestQuad(o, HOLE, false), |quads|;
      GenWhileOut(jump, top, before + p.quads, q, b);
      c := WhileCode(before, p.quads, TestQuad(o, at + 1, false), b, QJmp(top), quads);
      WrittenWhile(s, top, at, ret, HOLE, p, b, j);
    }

    method GenDoWhile(s: Stmt, ret: Type) returns (ghost c: seq<Quad>, ghost j: seq<nat>)
      requires s.DoWhile? && Valid() && inUse == {} && Fits(s, MAX_TEMP)
      modifies this
      ensures Valid() && inUse == {} && quads == old(quads) + c && frPatch == j + old(frPatch)
      ensures Written(s, |old(quads)|, |quads|, ret, HOLE, c, j)
      decreases s, 0
    {
      ghost var before := quads;
      ghost var p, b;
      var o;
      var top := |quads|;
      b, j := Statement(s.body, ret);
      ghost var at := |quads|;
      o, p := Perform(s.test);
      GenDoWhileOut(top, o);
      c := b + (p.quads + [TestQuad(o, top, true)]);
      assert quads == before + c;
      WrittenDoWhile(s, top, at, ret, HOLE, p, b, j);
    }

    /** An optional action of a for loop; its value is not needed. */
    method Optional(a: Option<Action>) returns (ghost qs: seq<Quad>)
      requires Valid() && inUse == {} && (a.Some? ==> NeedA(a.value) < MAX_TEMP)
      modifies this`quads, this`temp, this`inUse
      ensures Valid() && inUse == {} && quads == old(quads) + qs && MaybeIs(a, qs)
    {
      qs := [];
      if a.Some? {
        ghost var p;
        var o;
        o, p := Perform(a.value);
        MaybeFreeTemporary(o);
        qs := p.quads;
        assert MaybeIs(a, qs) by { assert Show(Compiling, 0); }
      }
    }

    method GenFor(s: Stmt, ret: Type) returns (ghost c: seq<Quad>, ghost j: seq<nat>)
      requires s.For? && Valid() && inUse == {} && Fits(s, MAX_TEMP)
      modifies this
      ensures Valid() && inUse == {} && quads == old(quads) + c && frPatch == j + old(frPatch)
      ensures Written(s, |old(quads)|, |quads|, ret, HOLE, c, j)
      decreases s, 0
    {
      ghost var before := quads;
      ghost var p, b;
      var o;
      ghost var init := Optional(s.init);
      var fr := ForType(|quads|, 0, 0, [], [], []);
      o, p := Perform(s.test);
      fr := GenForTest(fr, o);
      fr := fr.(vmPost := |quads|);
      ghost var post := Optional(s.post);
      fr := GenForJmpTest(fr);
      fr := fr.(vmBody := |quads|);
      b, j := Statement(s.body, ret);
      ghost var l := Places(fr.vmTest, fr.vmPost, fr.vmBody, |quads| + 1);
      c := EndFor(fr, o, before, init, p.quads, post, b);
      WrittenFor(s, |before|, l, ret, HOLE, init, p, post, b, j);
    }

    /** The end of a for loop, with its quads as they are from then on. */
    method EndFor(fr: ForType, o: Obj, ghost before: seq<Quad>, ghost init: seq<Quad>, ghost p: seq<Quad>, ghost post: seq<Quad>,
                  ghost b: seq<Quad>) returns (ghost c: seq<Quad>)
      requires quads == before + init + p + [TestQuad(o, HOLE, false), QJmp(HOLE)] + post + [QJmp(HOLE)] + b
      requires var at := |before + init + p|;
               fr.jzDone == [at] && fr.jmpBody == [at + 1] && fr.jmpTest == [at + 2 + |post|]
      modifies this`quads
      ensures var done := old(|quads|) + 1;
              && c == init + (p + [TestQuad(o, done, false)]
                              + ([QJmp(fr.vmBody)] + (post + ([QJmp(fr.vmTest)] + (b + [QJmp(fr.vmPost)])))))
              && quads == before + c && |quads| == done
    {
      ghost var a, q, done := before + init + p, TestQuad(o, HOLE, false), |quads| + 1;
      TestThenJump(a, q, QJmp(HOLE));
      GenForJmpPostAndCleanup(fr, a, q, post, b);
      c := ForCode(before, init, p, TestQuad(o, done, false), Places(fr.vmTest, fr.vmPost, fr.vmBody, done), post, b, quads);
    }

    method GenReturn(s: Stmt, ret: Type) returns (ghost c: seq<Quad>, ghost j: seq<nat>)
      requires s.Return? && Valid() && inUse == {} && Fits(s, MAX_TEMP)
      modifies this
      ensures Valid() && inUse == {} && quads == old(quads) + c && frPatch == j + old(frPatch)
      ensures Written(s, |old(quads)|, |quads|, ret, HOLE, c, j)
      decreases s, 0
    {
      ghost var before := quads;
      ghost var qs;
      if s.value.Some? {
        ghost var p;
        var o;
        o, p := Perform(s.value.value);
        ghost var r := GenFuncRet(Some(o), ret);
        qs := p.quads + r;
        ResultIs(s.value.value, ret, p, r);
        assert before + p.quads + r == before + qs;
      } else {
        qs := GenFuncRet(None, ret);
      }
      c, j := qs + [QJmp(HOLE)], [|before| + |qs|];
      assert quads == before + c;
      WrittenReturn(s, |before|, ret, HOLE, qs);
    }

    // -------------------------------------------------------------- functions

    /** A function with a body: its frame size goes into its first quad, the end of its
        body into the jumps of its return statements. */
    method Function(body: Stmt, ret: Type, argSize: nat, arSize: nat) returns (ghost fin: nat)
      requires Valid() && inUse == {} && frPatch == [] && Fits(body, MAX_TEMP)
      modifies this
      ensures Valid() && inUse == {} && frPatch == []
      ensures fin == |old(quads)| + 1 + Len(body, ret)
      ensures quads == old(quads) + [QFuncStart(arSize)] + Code(body, |old(quads)| + 1, ret, fin) + [QFuncRet(argSize, arSize)]
    {
      ghost var before := quads;
      var quad := [|quads|];
      Generate(QFuncStart(0));
      ghost var c;
      fin, c := FunctionBody(body, ret);
      PatchOne(quad, arSize, before, QFuncStart(0), c);
      Generate(QFuncRet(argSize, arSize));
    }

    /** The body of a function, and the patches of its return jumps. */
    method FunctionBody(body: Stmt, ret: Type) returns (ghost fin: nat, ghost c: seq<Quad>)
      requires Valid() && inUse == {} && frPatch == [] && Fits(body, MAX_TEMP)
      modifies this
      ensures Valid() && inUse == {} && frPatch == []
      ensures fin == |old(quads)| + Len(body, ret) && c == Code(body, |old(quads)|, ret, fin)
      ensures quads == old(quads) + c
    {
      ghost var before := quads;
      ghost var c0, j := Statement(body, ret);
      assert j + [] == j;
      var endQuad := |quads|;
      JumpsInside(body, |before|, endQuad, ret, c0, j);
      BackPatch(frPatch, endQuad);
      frPatch := [];
      fin := endQuad;
      c := AllPatched(body, before, ret, fin, c0, j, quads);
    }
  }

  /** Every expression can do with fewer than max registers in use at once. */
  predicate Fits(s: Stmt, max: nat) {
    match s
    case Skip => true
    case Then(a, b) => Fits(a, max) && Fits(b, max)
    case Perform(a) => NeedA(a) < max
    case If(test, yes) => NeedA(test) < max && Fits(yes, max)
    case IfElse(test, yes, no) => NeedA(test) < max && Fits(yes, max) && Fits(no, max)
    case While(test, body) => NeedA(test) < max && Fits(body, max)
    case DoWhile(body, test) => NeedA(test) < max && Fits(body, max)
    case For(init, test, post, body) =>
      && (init.Some? ==> NeedA(init.value) < max) && NeedA(test) < max
      && (post.Some? ==> NeedA(post.value) < max) && Fits(body, max)
    case Return(value) => value.Some? ==> NeedA(value.value) < max
  }

  lemma {:induction false} FitsMore(s: Stmt, max: nat, more: nat)
    requires Fits(s, max) && max <= more
    ensures Fits(s, more)
  {
    match s
    case Then(a, b) => FitsMore(a, max, more); FitsMore(b, max, more);
    case If(test, yes) => FitsMore(yes, max, more);
    case IfElse(test, yes, no) => FitsMore(yes, max, more); FitsMore(no, max, more);
    case While(test, body) => FitsMore(body, max, more);
    case DoWhile(body, test) => FitsMore(body, max, more);
    case For(init, test, post, body) => FitsMore(body, max, more);
    case _ =>
  }

  lemma NoElse(qs: seq<Quad>)
    ensures qs + [] + [] == qs
  {
  }

  lemma TestThenJump(a: seq<Quad>, q: Quad, j: Quad)
    ensures a + ([q] + [j]) == a + [q] + [j]
  {
  }

  lemma IfCode(before: seq<Quad>, p: seq<Quad>, t: Quad, b: seq<Quad>, all: seq<Quad>) returns (c: seq<Quad>)
    requires all == before + p + [t] + b + [] + []
    ensures c == p + [t] + b && all == before + c
  {
    c := p + [t] + b;
  }

  lemma IfElseCode(before: seq<Quad>, p: seq<Quad>, t: Quad, a: seq<Quad>, j: Quad, b: seq<Quad>, all: seq<Quad>) returns (c: seq<Quad>)
    requires all == before + p + [t] + a + [j] + b
    ensures c == p + [t] + (a + ([j] + b)) && all == before + c
  {
    c := p + [t] + (a + ([j] + b));
  }

  lemma WhileCode(before: seq<Quad>, p: seq<Quad>, t: Quad, b: seq<Quad>, j: Quad, all: seq<Quad>) returns (c: seq<Quad>)
    requires all == before + p + [t] + b + [j]
    ensures c == p + [t] + (b + [j]) && all == before + c
  {
    c := p + [t] + (b + [j]);
  }

  lemma ForCode(before: seq<Quad>, init: seq<Quad>, p: seq<Quad>, t: Quad, l: Places, post: seq<Quad>, b: seq<Quad>, all: seq<Quad>)
    returns (c: seq<Quad>)
    requires all == before + init + p + [t] + [QJmp(l.body)] + post + [QJmp(l.test)] + b + [QJmp(l.post)]
    ensures c == init + (p + [t] + ([QJmp(l.body)] + (post + ([QJmp(l.test)] + (b + [QJmp(l.post)])))))
    ensures all == before + c
  {
    c := init + (p + [t] + ([QJmp(l.body)] + (post + ([QJmp(l.test)] + (b + [QJmp(l.post)])))));
  }

  lemma ResultIs(a: Action, ret: Type, p: Part, r: seq<Quad>)
    requires ActionIs(a, p) && ReturnQuads(p.obj, ret, r)
    ensures DeliverIs(a, ret, p.quads + r)
  {
    ActionShape(a, p);
    assert Show(Compiling, 0);
  }

  lemma JumpsInside(s: Stmt, addr: nat, end: nat, ret: Type, c: seq<Quad>, j: seq<nat>)
    requires Written(s, addr, end, ret, HOLE, c, j)
    ensures forall p :: p in j ==> addr <= p < end
  {
    var e, c0, j0, c2 := PatchReturns(s, addr, ret, HOLE);
    assert c0 == c && j0 == j by { assert ShowOf(Writing, s, 0); }
    assert ShowPatch(c, 0);
  }

  /** The body of a function after its return jumps have been patched. */
  lemma AllPatched(s: Stmt, before: seq<Quad>, ret: Type, fin: nat, c: seq<Quad>, j: seq<nat>, all: seq<Quad>) returns (c2: seq<Quad>)
    requires Written(s, |before|, fin, ret, HOLE, c, j) && |all| == |before + c|
    requires forall i :: 0 <= i < |all| ==> all[i] == if i in j then Retarget((before + c)[i], fin) else (before + c)[i]
    ensures c2 == Code(s, |before|, ret, fin) && all == before + c2 && fin == |before| + Len(s, ret)
  {
    var end, c0, j0;
    end, c0, j0, c2 := PatchReturns(s, |before|, ret, fin);
    assert c0 == c && j0 == j && c2 == Code(s, |before|, ret, fin) by { assert ShowOf(Writing, s, 0); }
    assert ShowPatch(c, 0);
    forall i | 0 <= i < |all| ensures all[i] == (before + c2)[i] {
      if i >= |before| { assert |before| + (i - |before|) == i; }
    }
  }

  /** The labels and the unpatched jumps of a for loop. */
  datatype ForType = ForType(vmTest: nat, vmPost: nat, vmBody: nat, jzDone: seq<nat>, jmpBody: seq<nat>, jmpTest: seq<nat>)

  ghost predicate ReturnQuads(o: Obj, ret: Type, qs: seq<Quad>) {
    forall u: nat {:trigger Show(Compiling, u)} :: Show(Compiling, u) ==>
      qs == Coerce(o, ret, TempOf(o)).quads + [QAssign(ret.form, Coerce(o, ret, TempOf(o)).obj.arg, TempAt(Reg(ret.form, 0)))]
  }

  lemma ReturnIs(o: Obj, ret: Type, c: Part, qs: seq<Quad>)
    requires c == Coerce(o, ret, TempOf(o)) && qs == c.quads + [QAssign(ret.form, c.obj.arg, TempAt(Reg(ret.form, 0)))]
    ensures ReturnQuads(o, ret, qs)
  {
  }

  /** A jump over an else part, and where the else part begins. */
  datatype ElseType = ElseType(patchout: seq<nat>, elseLabel: nat)

  lemma RetargetTwice(q: Quad, to: nat)
    ensures Retarget(Retarget(q, to), to) == Retarget(q, to)
  {
  }

  function NeedA(a: Action): nat {
    match a
    case Pure(e) => Need(e)
    case Assign(t, ofs, source) => NeedA(source)
  }

  lemma NeedBin(e: Expr)
    requires e.Bin?
    ensures Need(e) >= Need(e.a) && Need(e) >= Need(e.b) + 1 && Need(e) >= 5
  {
  }

  lemma CountTemp(o: Obj)
    ensures |TempOf(o)| <= 1
  {
  }

  ghost predicate AssignQuads(t: Type, ofs: int, o: Obj, qs: seq<Quad>) {
    forall u: nat {:trigger Show(Compiling, u)} :: Show(Compiling, u) ==>
      qs == Coerce(o, t, TempOf(o)).quads + [QAssign(t.form, Coerce(o, t, TempOf(o)).obj.arg, Ar(ofs))]
  }

  lemma PureIs(a: Action, p: Part) returns (r: Part)
    requires a.Pure? && ExprIs(a.e, {}, p)
    ensures r == p && ActionIs(a, r) && r.live == TempOf(r.obj)
  {
    ExprShape(a.e, {}, p);
    r := p;
    assert p == CodeE(a.e, {}) by { assert Show(Compiling, 0); }
  }

  lemma ActionShape(a: Action, p: Part)
    requires ActionIs(a, p)
    ensures p.live == TempOf(p.obj)
  {
    var m := Mem(map[], map[], []);
    assert p == CodeA(a) by { assert Show(Compiling, 0); }
    ActionMeans(a, m);
    PerformShape(p, m, ActionType(a), Act(a, m.frame));
  }

  lemma AssignIs(a: Action, p: Part, qs: seq<Quad>) returns (r: Part)
    requires a.Assign? && ActionIs(a.source, p) && AssignQuads(a.t, a.ofs, p.obj, qs)
    ensures r == Part(p.quads + qs, Obj(a.t, At(Ar(a.ofs))), {}) && ActionIs(a, r)
  {
    ActionShape(a.source, p);
    assert Show(Compiling, 0);
    CoerceKeeps(p.obj, a.t, p.live);
    r := CodeA(a);
  }

  lemma Joined(a: seq<Quad>, b: seq<Quad>, c: seq<Quad>, d: seq<Quad>)
    ensures a + b + c + d == a + (b + (c + d))
  {
  }

  /** The part is what an expression is compiled to. */
  ghost predicate ExprIs(e: Expr, live: set<Reg>, p: Part) {
    forall u: nat {:trigger Show(Compiling, u)} :: Show(Compiling, u) ==> Same(p, CodeE(e, live))
  }

  /** What the semantic routines do with the objects of operands. */
  ghost predicate IsPart(c: Part, p: Part) {
    forall u: nat {:trigger Show(Routine, u)} :: Show(Routine, u) ==> Same(p, c)
  }

  /** The part is what a binary operator on two objects is compiled to. */
  ghost predicate BinPart(op: BinOp, o1: Obj, o2: Obj, live: set<Reg>, p: Part) {
    forall u: nat {:trigger Show(Routine, u)} :: Show(Routine, u) ==> Same(p, CodeBin(op, o1, o2, live))
  }

  lemma BinExprIs(e: Expr, live: set<Reg>, p: Part, q: Part, c: Part) returns (r: Part)
    requires e.Bin? && ExprIs(e.a, live, p) && ExprIs(e.b, p.live, q) && BinPart(e.op, p.obj, q.obj, q.live, c)
    ensures r == Part(p.quads + (q.quads + c.quads), c.obj, c.live) && ExprIs(e, live, r)
  {
    assert Show(Compiling, 0) && Show(Routine, 0);
    r := CodeE(e, live);
  }

  lemma NegIs(e: Expr, live: set<Reg>, p: Part, c: Part) returns (r: Part)
    requires e.Neg? && ExprIs(e.e, live, p) && IsPart(CodeNeg(p.obj, p.live), c)
    ensures r == Part(p.quads + c.quads, c.obj, c.live) && ExprIs(e, live, r)
  {
    assert Show(Compiling, 0) && Show(Routine, 0);
    r := CodeE(e, live);
  }

  lemma CastIs(e: Expr, live: set<Reg>, p: Part, c: Part) returns (r: Part)
    requires e.Cast? && ExprIs(e.e, live, p) && IsPart(Coerce(p.obj, e.to, p.live), c)
    ensures r == Part(p.quads + c.quads, c.obj, c.live) && ExprIs(e, live, r)
  {
    assert Show(Compiling, 0) && Show(Routine, 0);
    r := CodeE(e, live);
  }

  lemma ExprShape(e: Expr, live: set<Reg>, p: Part)
    requires ExprIs(e, live, p)
    ensures p.live == live + TempOf(p.obj) && TempOf(p.obj) !! live && |p.live| <= |live| + 1
  {
    var m := Mem(map[], map[], []);
    assert p == CodeE(e, live) by { assert Show(Compiling, 0); }
    ExprMeans(e, live, m);
    Shape(p, m, live, TypeOf(e), Eval(e, m.frame));
  }

  /** The operands of a binary operator have been converted by these quads. */
  ghost predicate Selected(op: BinOp, o1: Obj, o2: Obj, live: set<Reg>, r1: Obj, r2: Obj, result: Type, qs: seq<Quad>, after: set<Reg>) {
    var t := Common(o1.t, o2.t);
    var c1 := Coerce(o1, t, live);
    var c2 := Coerce(o2, t, c1.live);
    r1 == c1.obj && r2 == c2.obj && r1.t == t && result == ResultType(op, t) && qs == c1.quads + c2.quads && after == c2.live
  }

  lemma CoercePair(o1: Obj, o2: Obj, t: Type, live: set<Reg>)
    requires TempOf(o1) <= live && TempOf(o2) <= live && TempOf(o1) !! TempOf(o2)
    ensures var c1 := Coerce(o1, t, live);
            var c2 := Coerce(o2, t, c1.live);
            && c1.obj.t == t && c2.obj.t == t && TempOf(o2) <= c1.live
            && TempOf(c1.obj) <= c2.live && TempOf(c2.obj) <= c2.live && TempOf(c1.obj) !! TempOf(c2.obj)
            && |c1.live| <= |live| + 1 && |c2.live| <= |live| + 2
  {
    var c1 := Coerce(o1, t, live);
    CoerceKeeps(o1, t, live);
    CountCoerce(o1, t, live);
    CoerceKeeps(o2, t, c1.live);
    CountCoerce(o2, t, c1.live);
  }

  lemma BinIs(op: BinOp, o1: Obj, o2: Obj, live: set<Reg>, r1: Obj, r2: Obj, result: Type, qs: seq<Quad>, after: set<Reg>)
    returns (c: Part)
    requires Selected(op, o1, o2, live, r1, r2, result, qs, after)
    ensures BinPart(op, o1, o2, live, c)
    ensures var reg := Fresh(after, result.form);
            c == Part(qs + [QBin(op, r1.t.form, r1.t.fSigned, r1.arg, r2.arg, TempAt(reg))],
                                              InTemp(result, reg), after + {reg} - TempOf(r1) - TempOf(r2))
  {
    var t := Common(o1.t, o2.t);
    var c1 := Coerce(o1, t, live);
    var q := [QBin(op, r1.t.form, r1.t.fSigned, r1.arg, r2.arg, TempAt(Fresh(after, result.form)))];
    assert c1.quads + (Coerce(o2, t, c1.live).quads + q) == qs + q;
    c := CodeBin(op, o1, o2, live);
  }

  /** Converting one object does not touch the temporaries of others. */
  lemma CoerceKeeps(o: Obj, t: Type, live: set<Reg>)
    requires TempOf(o) <= live
    ensures var c := Coerce(o, t, live);
            c.obj.t == t && c.live == live - TempOf(o) + TempOf(c.obj) && TempOf(c.obj) !! live - TempOf(o)
  {
    var m := Mem(map[], map[], []);
    ConvertMeans(o, t, live, m);
    Shape(Coerce(o, t, live), m, live - TempOf(o), t, Some(Wrap(t, Value(o, m))));
  }

  /** The list that has a number is the one of the form whose register it is. */
  lemma Owner(ls: seq<TempList>, i: nat, j: nat, f: Form, ofs: int)
    requires Good(ls) && i < |ls| && j < |ls[i].offsets| && ls[i].offsets[j] == ofs && Slot(f, ofs) in Live(ls)
    requires Tame(Live(ls))
    ensures ls[i].size == Size(f)
  {
    var g := FormOf(ls[i].size);
    var k := Listed(ls, f, ofs);
    InUse(ls, i, g, ofs - Base(g));
    assert Slot(g, ofs) in Live(ls);
    NumbersApart(f, g, ofs);
  }

  lemma Listed(ls: seq<TempList>, f: Form, ofs: int) returns (k: nat)
    requires Good(ls) && Slot(f, ofs) in Live(ls)
    ensures k < |ls| && ofs in ls[k].offsets && Numbers(f, ofs)
  {
    var r := Slot(f, ofs);
    InLive(ls, r);
    k :| 0 <= k < |ls| && r in Regs(ls[k]);
    var i :| 0 <= i < |ls[k].offsets| && Slot(FormOf(ls[k].size), ls[k].offsets[i]) == r;
  }
}
