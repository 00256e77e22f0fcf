/** The other direction: when the statement ends, so does the run of its quads.  With
    MexMeaning this makes the quads and the statement the same program. */
module MexEquivalence {
  import opened Wrappers
  import opened MexTypes
  import opened MexVm
  import opened MexSource
  import opened MexCode
  import opened MexFlow
  import opened MexMeaning

  // ---------------------------------------------------------------- runs that end

  /** n steps are enough to leave the stretch or stop. */
  ghost predicate Finishes(code: seq<Quad>, lo: nat, hi: nat, pc: nat, m: Mem, n: nat) {
    forall u: nat {:trigger ShowAt(Finishing, pc, u)} :: ShowAt(Finishing, pc, u) ==> !RunIn(code, lo, hi, pc, m, n).Out?
  }

  lemma FinishAfter(code: seq<Quad>, lo: nat, hi: nat, pc: nat, m: Mem, len: nat, ok: bool, pc2: nat, m2: Mem, n: nat)
    requires Leads(code, lo, hi, pc, m, len, ok, pc2, m2)
    requires ok ==> Finishes(code, lo, hi, pc2, m2, n)
    ensures Finishes(code, lo, hi, pc, m, len + n)
  {
    assert ok ==> ShowAt(Finishing, pc2, 0);
    LeadsAt(code, lo, hi, pc, m, len, ok, pc2, m2, len + n);
  }

  lemma FinishJump(code: seq<Quad>, lo: nat, hi: nat, pc: nat, target: nat, m: Mem, n: nat)
    requires Sits(code, pc, [QJmp(target)]) && lo <= pc < hi && Finishes(code, lo, hi, target, m, n)
    ensures Finishes(code, lo, hi, pc, m, n + 1)
  {
    RunJump(code, lo, hi, pc, QJmp(target), m);
    FinishAfter(code, lo, hi, pc, m, 1, true, target, m, n);
  }

  lemma FinishEnd(code: seq<Quad>, lo: nat, hi: nat, pc: nat, m: Mem, n: nat)
    requires pc >= hi
    ensures Finishes(code, lo, hi, pc, m, n)
  {
  }

  /** Whatever finishes from pc2 and m2 finishes from pc and m, n steps later. */
  ghost predicate Glued(code: seq<Quad>, lo: nat, hi: nat, pc: nat, m: Mem, n: nat, pc2: nat, m2: Mem) {
    forall u: nat {:trigger ShowAt(Gluing, pc, u)} :: ShowAt(Gluing, pc, u) ==>
      forall k: nat :: Finishes(code, lo, hi, pc2, m2, k) ==> Finishes(code, lo, hi, pc, m, n + k)
  }

  lemma Glue(code: seq<Quad>, lo: nat, hi: nat, pc: nat, m: Mem, n: nat, pc2: nat, m2: Mem, k: nat)
    requires Glued(code, lo, hi, pc, m, n, pc2, m2) && Finishes(code, lo, hi, pc2, m2, k)
    ensures Finishes(code, lo, hi, pc, m, n + k)
  {
    assert ShowAt(Gluing, pc, 0);
  }

  /** A run through a part that exits, followed by a run of the rest. */
  lemma PartThenRest(code: seq<Quad>, lo: nat, hi: nat, lo2: nat, hi2: nat, pc: nat, m: Mem, n: nat, p: Result, k: nat)
    requires lo <= lo2 && hi2 <= hi && Runs(code, lo2, hi2, pc, m, n, p) && p.Exit?
    requires Finishes(code, lo, hi, p.pc, p.mem, k)
    ensures Finishes(code, lo, hi, pc, m, n + k)
  {
    assert ShowAt(Run, pc, 0) && ShowAt(Finishing, p.pc, 0);
    More(code, lo2, hi2, pc, m, n, k);
    Nest(code, lo, hi, lo2, hi2, pc, m, n + k);
    More(code, lo, hi, p.pc, p.mem, k, p.left);
  }

  lemma PartAlone(code: seq<Quad>, lo: nat, hi: nat, lo2: nat, hi2: nat, pc: nat, m: Mem, n: nat, p: Result)
    requires lo <= lo2 && hi2 <= hi && Runs(code, lo2, hi2, pc, m, n, p) && (p.Crash? || (p.Exit? && p.pc >= hi))
    ensures Finishes(code, lo, hi, pc, m, n)
  {
    assert ShowAt(Run, pc, 0);
    Nest(code, lo, hi, lo2, hi2, pc, m, n);
  }

  // ---------------------------------------------------------------- the rules, read backwards

  lemma SplitThen(s: Stmt, frame: Frame, ret: Type, fuel: nat, o: Outcome) returns (o1: Outcome)
    requires s.Then? && Ends(s, frame, ret, fuel, o)
    ensures Ends(s.first, frame, ret, fuel, o1)
    ensures if o1.Normal? then Ends(s.second, o1.frame, ret, fuel, o) else o == o1
  {
    assert ShowOf(Ending, s, 0);
    o1 := Exec(s.first, frame, ret, fuel);
  }

  lemma SplitIf(s: Stmt, frame: Frame, ret: Type, fuel: nat, r: Option<(Frame, int)>, o: Outcome)
    requires (s.If? || s.IfElse?) && Acts(s.test, frame, r) && Ends(s, frame, ret, fuel, o)
    ensures r.Some? && r.value.1 != 0 ==> Ends(s.yes, r.value.0, ret, fuel, o)
    ensures r.Some? && r.value.1 == 0 && s.IfElse? ==> Ends(s.no, r.value.0, ret, fuel, o)
  {
    assert ShowOf(Ending, s, 0) && Show(Acting, 0);
  }

  lemma SplitWhile(s: Stmt, frame: Frame, ret: Type, fuel: nat, r: Option<(Frame, int)>, o: Outcome) returns (o1: Outcome)
    requires s.While? && Acts(s.test, frame, r) && Ends(s, frame, ret, fuel, o) && !o.OutOfFuel?
    ensures r.Some? && r.value.1 != 0 ==>
              && Ends(s.body, r.value.0, ret, fuel, o1)
              && if o1.Normal? then fuel > 0 && Ends(s, o1.frame, ret, fuel - 1, o) else o == o1
  {
    assert ShowOf(Ending, s, 0) && Show(Acting, 0);
    o1 := if r.Some? then Exec(s.body, r.value.0, ret, fuel) else o;
  }

  lemma SplitDoWhile(s: Stmt, frame: Frame, ret: Type, fuel: nat, o: Outcome) returns (o1: Outcome)
    requires s.DoWhile? && Ends(s, frame, ret, fuel, o) && !o.OutOfFuel?
    ensures Ends(s.body, frame, ret, fuel, o1) && !o1.OutOfFuel?
  {
    assert ShowOf(Ending, s, 0);
    o1 := Exec(s.body, frame, ret, fuel);
  }

  lemma SplitAgain(s: Stmt, frame: Frame, ret: Type, fuel: nat, o1: Outcome, r: Option<(Frame, int)>, o: Outcome)
    requires s.DoWhile? && Ends(s, frame, ret, fuel, o) && !o.OutOfFuel?
    requires Ends(s.body, frame, ret, fuel, o1) && o1.Normal? && Acts(s.test, o1.frame, r)
    ensures r.Some? && r.value.1 != 0 ==> fuel > 0 && Ends(s, r.value.0, ret, fuel - 1, o)
  {
    assert ShowOf(Ending, s, 0) && ShowOf(Ending, s.body, 0) && Show(Acting, 0);
  }

  lemma SplitFor(s: Stmt, frame: Frame, ret: Type, fuel: nat, o1: Outcome, o: Outcome)
    requires s.For? && MayEnd(s.init, frame, o1) && Ends(s, frame, ret, fuel, o)
    ensures o1.Normal? ==> LoopEnds(s.test, s.post, s.body, o1.frame, ret, fuel, o)
  {
    assert ShowOf(Ending, s, 0) && Show(MayActing, 0);
  }

  lemma SplitLoop(test: Action, post: Option<Action>, body: Stmt, frame: Frame, ret: Type, fuel: nat,
                  r: Option<(Frame, int)>, o: Outcome) returns (o1: Outcome)
    requires Acts(test, frame, r) && LoopEnds(test, post, body, frame, ret, fuel, o) && !o.OutOfFuel?
    ensures r.Some? && r.value.1 != 0 ==> Ends(body, r.value.0, ret, fuel, o1) && !o1.OutOfFuel?
  {
    assert Show(LoopEnding, 0) && Show(Acting, 0);
    o1 := if r.Some? then Exec(body, r.value.0, ret, fuel) else o;
  }

  lemma SplitPost(test: Action, post: Option<Action>, body: Stmt, frame: Frame, ret: Type, fuel: nat,
                  r: Option<(Frame, int)>, o1: Outcome, o2: Outcome, o: Outcome)
    requires Acts(test, frame, r) && LoopEnds(test, post, body, frame, ret, fuel, o) && !o.OutOfFuel?
    requires r.Some? && r.value.1 != 0 && Ends(body, r.value.0, ret, fuel, o1) && o1.Normal? && MayEnd(post, o1.frame, o2)
    ensures o2.Normal? ==> fuel > 0 && LoopEnds(test, post, body, o2.frame, ret, fuel - 1, o)
  {
    assert Show(LoopEnding, 0) && Show(Acting, 0) && ShowOf(Ending, body, 0) && Show(MayActing, 0);
  }

  lemma EndsSame(s: Stmt, frame: Frame, ret: Type, fuel: nat, o: Outcome, fuel2: nat, o2: Outcome)
    requires Ends(s, frame, ret, fuel, o) && Ends(s, frame, ret, fuel2, o2) && !o.OutOfFuel? && !o2.OutOfFuel?
    ensures o == o2
  {
    var most := if fuel < fuel2 then fuel2 else fuel;
    EndsMore(s, frame, ret, fuel, most, o);
    EndsMore(s, frame, ret, fuel2, most, o2);
    assert ShowOf(Ending, s, 0);
  }

  // ---------------------------------------------------------------- statements that end

  /** A part of a statement that ends: either that is all, or a run goes on from its end. */
  lemma {:induction false} Through(code: seq<Quad>, lo: nat, hi: nat, s: Stmt, addr: nat, end: nat, ret: Type, fin: nat,
                                   m: Mem, fuel: nat, o: Outcome) returns (n: nat, m2: Mem)
    requires Placed(code, lo, hi, s, addr, end, ret, fin) && Ends(s, m.frame, ret, fuel, o) && !o.OutOfFuel?
    ensures if o.Normal? then m2.frame == o.frame && Glued(code, lo, hi, addr, m, n, end, m2)
            else Finishes(code, lo, hi, addr, m, n)
    decreases fuel, s, 2
  {
    n := Halts(code, s, addr, end, ret, fin, m, fuel, o);
    var p := RunIn(code, addr, end, addr, m, n);
    assert !p.Out? by { assert ShowAt(Finishing, addr, 0); }
    assert Runs(code, addr, end, addr, m, n, p);
    var o2 := Follows(code, s, addr, end, ret, fin, m, n, p);
    EndsSame(s, m.frame, ret, fuel, o, n, o2);
    m2 := m;
    if o.Normal? {
      m2 := p.mem;
      forall k: nat | Finishes(code, lo, hi, end, m2, k) ensures Finishes(code, lo, hi, addr, m, n + k) {
        PartThenRest(code, lo, hi, addr, end, addr, m, n, p, k);
      }
    } else {
      PartAlone(code, lo, hi, addr, end, addr, m, n, p);
    }
  }

  /** When a statement ends, the run of its quads ends. */
  lemma {:induction false} Halts(code: seq<Quad>, s: Stmt, addr: nat, end: nat, ret: Type, fin: nat, m: Mem, fuel: nat, o: Outcome)
    returns (n: nat)
    requires Placed(code, addr, end, s, addr, end, ret, fin) && Ends(s, m.frame, ret, fuel, o) && !o.OutOfFuel?
    ensures Finishes(code, addr, end, addr, m, n)
    decreases fuel, s, 1
  {
    match s
    case Skip =>
      n := 0;
      assert addr == end by { assert ShowOf(Piece, s, 0); }
      FinishEnd(code, addr, end, end, m, n);
    case Perform(a) =>
      n := HaltsPerform(code, s, addr, end, ret, fin, m, fuel, o);
    case Then(a, b) => n := HaltsThen(code, s, addr, end, ret, fin, m, fuel, o);
    case If(test, yes) => n := HaltsIf(code, s, addr, end, ret, fin, m, fuel, o);
    case IfElse(test, yes, no) => n := HaltsIfElse(code, s, addr, end, ret, fin, m, fuel, o);
    case While(test, body) => n := HaltsWhile(code, s, addr, end, ret, fin, m, fuel, o);
    case DoWhile(body, test) => n := HaltsDoWhile(code, s, addr, end, ret, fin, m, fuel, o);
    case For(init, test, post, body) => n := HaltsFor(code, s, addr, end, ret, fin, m, fuel, o);
    case Return(value) => n := HaltsReturn(code, s, addr, end, ret, fin, m, fuel, o);
  }

  /** A part of a statement that ends where the whole does. */
  lemma {:induction false} HaltsLast(code: seq<Quad>, lo: nat, hi: nat, s: Stmt, addr: nat, ret: Type, fin: nat, m: Mem, fuel: nat, o: Outcome)
    returns (n: nat)
    requires Placed(code, lo, hi, s, addr, hi, ret, fin) && Ends(s, m.frame, ret, fuel, o) && !o.OutOfFuel?
    ensures Finishes(code, lo, hi, addr, m, n)
    decreases fuel, s, 3
  {
    var m2;
    n, m2 := Through(code, lo, hi, s, addr, hi, ret, fin, m, fuel, o);
    if o.Normal? {
      FinishEnd(code, lo, hi, hi, m2, 0);
      Glue(code, lo, hi, addr, m, n, hi, m2, 0);
    }
  }

  lemma HaltsPerform(code: seq<Quad>, s: Stmt, addr: nat, end: nat, ret: Type, fin: nat, m: Mem, fuel: nat, o: Outcome)
    returns (n: nat)
    requires s.Perform? && Placed(code, addr, end, s, addr, end, ret, fin) && Ends(s, m.frame, ret, fuel, o) && !o.OutOfFuel?
    ensures Finishes(code, addr, end, addr, m, n)
  {
    n := end - addr;
    assert n == |CodeA(s.action).quads| && Sits(code, addr, CodeA(s.action).quads) by { assert ShowOf(Piece, s, 0); }
    var m2, r := RunAction(code, addr, end, addr, s.action, m);
    FinishEnd(code, addr, end, end, m2, 0);
    FinishAfter(code, addr, end, addr, m, n, r.Some?, end, m2, 0);
  }

  lemma {:induction false} HaltsThen(code: seq<Quad>, s: Stmt, addr: nat, end: nat, ret: Type, fin: nat, m: Mem, fuel: nat, o: Outcome)
    returns (n: nat)
    requires s.Then? && Placed(code, addr, end, s, addr, end, ret, fin) && Ends(s, m.frame, ret, fuel, o) && !o.OutOfFuel?
    ensures Finishes(code, addr, end, addr, m, n)
    decreases fuel, s, 0
  {
    var at := PlacedThen(code, addr, end, s, addr, end, ret, fin);
    var o1 := SplitThen(s, m.frame, ret, fuel, o);
    var m2;
    n, m2 := Through(code, addr, end, s.first, addr, at, ret, fin, m, fuel, o1);
    if o1.Normal? {
      var k := HaltsLast(code, addr, end, s.second, at, ret, fin, m2, fuel, o);
      Glue(code, addr, end, addr, m, n, at, m2, k);
      n := n + k;
    }
  }

  lemma {:induction false} HaltsIf(code: seq<Quad>, s: Stmt, addr: nat, end: nat, ret: Type, fin: nat, m: Mem, fuel: nat, o: Outcome)
    returns (n: nat)
    requires s.If? && Placed(code, addr, end, s, addr, end, ret, fin) && Ends(s, m.frame, ret, fuel, o) && !o.OutOfFuel?
    ensures Finishes(code, addr, end, addr, m, n)
    decreases fuel, s, 0
  {
    var at := PlacedIf(code, addr, end, s, addr, end, ret, fin);
    var m2, t, pc := RunTest(code, addr, end, addr, at, s.test, end, false, m);
    SplitIf(s, m.frame, ret, fuel, t, o);
    n := 0;
    if t.Some? && t.value.1 != 0 {
      n := HaltsLast(code, addr, end, s.yes, at, ret, fin, m2, fuel, o);
    } else if t.Some? {
      FinishEnd(code, addr, end, end, m2, 0);
    }
    FinishAfter(code, addr, end, addr, m, at - addr, t.Some?, pc, m2, n);
    n := at - addr + n;
  }

  lemma {:induction false} HaltsIfElse(code: seq<Quad>, s: Stmt, addr: nat, end: nat, ret: Type, fin: nat, m: Mem, fuel: nat, o: Outcome)
    returns (n: nat)
    requires s.IfElse? && Placed(code, addr, end, s, addr, end, ret, fin) && Ends(s, m.frame, ret, fuel, o) && !o.OutOfFuel?
    ensures Finishes(code, addr, end, addr, m, n)
    decreases fuel, s, 0
  {
    var at, other := PlacedIfElse(code, addr, end, s, addr, end, ret, fin);
    var m2, t, pc := RunTest(code, addr, end, addr, at, s.test, other, false, m);
    SplitIf(s, m.frame, ret, fuel, t, o);
    n := 0;
    if t.Some? && t.value.1 != 0 {
      var m3;
      n, m3 := Through(code, addr, end, s.yes, at, other - 1, ret, fin, m2, fuel, o);
      if o.Normal? {
        FinishEnd(code, addr, end, end, m3, 0);
        FinishJump(code, addr, end, other - 1, end, m3, 0);
        Glue(code, addr, end, at, m2, n, other - 1, m3, 1);
        n := n + 1;
      }
    } else if t.Some? {
      n := HaltsLast(code, addr, end, s.no, other, ret, fin, m2, fuel, o);
    }
    FinishAfter(code, addr, end, addr, m, at - addr, t.Some?, pc, m2, n);
    n := at - addr + n;
  }

  lemma {:induction false} HaltsWhile(code: seq<Quad>, s: Stmt, addr: nat, end: nat, ret: Type, fin: nat, m: Mem, fuel: nat, o: Outcome)
    returns (n: nat)
    requires s.While? && Placed(code, addr, end, s, addr, end, ret, fin) && Ends(s, m.frame, ret, fuel, o) && !o.OutOfFuel?
    ensures Finishes(code, addr, end, addr, m, n)
    decreases fuel, s, 0
  {
    var at := PlacedWhile(code, addr, end, s, addr, end, ret, fin);
    var m2, t, pc := RunTest(code, addr, end, addr, at, s.test, end, false, m);
    var o1 := SplitWhile(s, m.frame, ret, fuel, t, o);
    n := 0;
    if t.Some? && t.value.1 != 0 {
      var m3;
      n, m3 := Through(code, addr, end, s.body, at, end - 1, ret, fin, m2, fuel, o1);
      if o1.Normal? {
        var k := Halts(code, s, addr, end, ret, fin, m3, fuel - 1, o);
        FinishJump(code, addr, end, end - 1, addr, m3, k);
        Glue(code, addr, end, at, m2, n, end - 1, m3, k + 1);
        n := n + (k + 1);
      }
    } else if t.Some? {
      FinishEnd(code, addr, end, end, m2, 0);
    }
    FinishAfter(code, addr, end, addr, m, at - addr, t.Some?, pc, m2, n);
    n := at - addr + n;
  }

  lemma {:induction false} HaltsDoWhile(code: seq<Quad>, s: Stmt, addr: nat, end: nat, ret: Type, fin: nat, m: Mem, fuel: nat, o: Outcome)
    returns (n: nat)
    requires s.DoWhile? && Placed(code, addr, end, s, addr, end, ret, fin) && Ends(s, m.frame, ret, fuel, o) && !o.OutOfFuel?
    ensures Finishes(code, addr, end, addr, m, n)
    decreases fuel, s, 0
  {
    var at := PlacedDoWhile(code, addr, end, s, addr, end, ret, fin);
    var o1 := SplitDoWhile(s, m.frame, ret, fuel, o);
    var m2;
    n, m2 := Through(code, addr, end, s.body, addr, at, ret, fin, m, fuel, o1);
    if o1.Normal? {
      var m3, t, pc := RunTest(code, addr, end, at, end, s.test, addr, true, m2);
      SplitAgain(s, m.frame, ret, fuel, o1, t, o);
      var k := 0;
      if t.Some? && t.value.1 != 0 {
        k := Halts(code, s, addr, end, ret, fin, m3, fuel - 1, o);
      } else if t.Some? {
        FinishEnd(code, addr, end, end, m3, 0);
      }
      FinishAfter(code, addr, end, at, m2, end - at, t.Some?, pc, m3, k);
      Glue(code, addr, end, addr, m, n, at, m2, end - at + k);
      n := n + (end - at + k);
    }
  }

  lemma {:induction false} HaltsFor(code: seq<Quad>, s: Stmt, addr: nat, end: nat, ret: Type, fin: nat, m: Mem, fuel: nat, o: Outcome)
    returns (n: nat)
    requires s.For? && Placed(code, addr, end, s, addr, end, ret, fin) && Ends(s, m.frame, ret, fuel, o) && !o.OutOfFuel?
    ensures Finishes(code, addr, end, addr, m, n)
    decreases fuel, s, 0
  {
    var l := PlacedFor(code, addr, end, s, addr, end, ret, fin);
    var m2, o1 := RunMaybe(code, addr, end, addr, l.test, s.init, m);
    SplitFor(s, m.frame, ret, fuel, o1, o);
    n := 0;
    if o1.Normal? { n := HaltsLoop(code, addr, end, l, s.test, s.post, s.body, ret, fin, m2, fuel, o); }
    FinishAfter(code, addr, end, addr, m, l.test - addr, o1.Normal?, l.test, m2, n);
    n := l.test - addr + n;
  }

  lemma {:induction false} HaltsLoop(code: seq<Quad>, lo: nat, hi: nat, l: Places, test: Action, post: Option<Action>, body: Stmt,
                                     ret: Type, fin: nat, m: Mem, fuel: nat, o: Outcome) returns (n: nat)
    requires LoopPlaced(code, lo, hi, l, test, post, body, ret, fin) && hi == l.done
    requires LoopEnds(test, post, body, m.frame, ret, fuel, o) && !o.OutOfFuel?
    ensures Finishes(code, lo, hi, l.test, m, n)
    decreases fuel, body, 5
  {
    var m2, t, pc := RunTest(code, lo, hi, l.test, l.post - 1, test, l.done, false, m);
    var o1 := SplitLoop(test, post, body, m.frame, ret, fuel, t, o);
    n := 0;
    if t.Some? && t.value.1 != 0 {
      n := HaltsTurn(code, lo, hi, l, test, post, body, ret, fin, m, m2, fuel, t, o1, o);
    } else if t.Some? {
      FinishEnd(code, lo, hi, l.done, m2, 0);
    }
    var len := l.post - 1 - l.test;
    FinishAfter(code, lo, hi, l.test, m, len, t.Some?, pc, m2, n);
    n := len + n;
  }

  lemma {:induction false} HaltsTurn(code: seq<Quad>, lo: nat, hi: nat, l: Places, test: Action, post: Option<Action>, body: Stmt,
                                     ret: Type, fin: nat, m: Mem, m2: Mem, fuel: nat, t: Option<(Frame, int)>, o1: Outcome, o: Outcome)
    returns (n: nat)
    requires LoopPlaced(code, lo, hi, l, test, post, body, ret, fin) && hi == l.done
    requires LoopEnds(test, post, body, m.frame, ret, fuel, o) && !o.OutOfFuel?
    requires Acts(test, m.frame, t) && t.Some? && t.value.1 != 0 && m2.frame == t.value.0
    requires Ends(body, m2.frame, ret, fuel, o1) && !o1.OutOfFuel?
    ensures Finishes(code, lo, hi, l.post - 1, m2, n)
    decreases fuel, body, 4
  {
    var m3;
    n, m3 := Through(code, lo, hi, body, l.body, l.done - 1, ret, fin, m2, fuel, o1);
    if o1.Normal? {
      var k := HaltsPost(code, lo, hi, l, test, post, body, ret, fin, m, m2, m3, fuel, t, o1, o);
      Glue(code, lo, hi, l.body, m2, n, l.done - 1, m3, k);
      n := n + k;
    }
    FinishJump(code, lo, hi, l.post - 1, l.body, m2, n);
    n := n + 1;
  }

  lemma {:induction false} HaltsPost(code: seq<Quad>, lo: nat, hi: nat, l: Places, test: Action, post: Option<Action>, body: Stmt,
                                     ret: Type, fin: nat, m: Mem, m2: Mem, m3: Mem, fuel: nat, t: Option<(Frame, int)>,
                                     o1: Outcome, o: Outcome) returns (n: nat)
    requires LoopPlaced(code, lo, hi, l, test, post, body, ret, fin) && hi == l.done
    requires LoopEnds(test, post, body, m.frame, ret, fuel, o) && !o.OutOfFuel?
    requires Acts(test, m.frame, t) && t.Some? && t.value.1 != 0 && m2.frame == t.value.0
    requires Ends(body, m2.frame, ret, fuel, o1) && o1.Normal? && m3.frame == o1.frame
    ensures Finishes(code, lo, hi, l.done - 1, m3, n)
    decreases fuel, body, 3
  {
    var m4, o2 := RunMaybe(code, lo, hi, l.post, l.body - 1, post, m3);
    SplitPost(test, post, body, m.frame, ret, fuel, t, o1, o2, o);
    n := 0;
    if o2.Normal? {
      n := HaltsLoop(code, lo, hi, l, test, post, body, ret, fin, m4, fuel - 1, o);
      FinishJump(code, lo, hi, l.body - 1, l.test, m4, n);
      n := n + 1;
    }
    var len := l.body - 1 - l.post;
    FinishAfter(code, lo, hi, l.post, m3, len, o2.Normal?, l.body - 1, m4, n);
    FinishJump(code, lo, hi, l.done - 1, l.post, m3, len + n);
    n := len + n + 1;
  }

  lemma HaltsReturn(code: seq<Quad>, s: Stmt, addr: nat, end: nat, ret: Type, fin: nat, m: Mem, fuel: nat, o: Outcome)
    returns (n: nat)
    requires s.Return? && Placed(code, addr, end, s, addr, end, ret, fin) && Ends(s, m.frame, ret, fuel, o) && !o.OutOfFuel?
    ensures Finishes(code, addr, end, addr, m, n)
  {
    PlacedReturn(code, addr, end, s, addr, end, ret, fin);
    n := 1;
    if s.value.None? {
      FinishEnd(code, addr, end, fin, m, 0);
      FinishJump(code, addr, end, end - 1, fin, m, 0);
    } else {
      var m2, r := RunDeliver(code, addr, end, addr, end - 1, s.value.value, ret, m);
      if r.Some? {
        FinishEnd(code, addr, end, fin, m2, 0);
        FinishJump(code, addr, end, end - 1, fin, m2, 0);
      }
      FinishAfter(code, addr, end, addr, m, end - 1 - addr, r.Some?, end - 1, m2, 1);
      n := end - 1 - addr + 1;
    }
  }

  // ---------------------------------------------------------------- the theorem

  /** n steps from lo are enough for the run to leave [lo, hi) or stop. */
  predicate RunStops(code: seq<Quad>, lo: nat, hi: nat, m: Mem, n: nat) {
    !RunIn(code, lo, hi, lo, m, n).Out?
  }

  predicate ExecStops(s: Stmt, frame: Frame, ret: Type, fuel: nat) {
    !Exec(s, frame, ret, fuel).OutOfFuel?
  }

  /** For a statement's quads anywhere in a program: their run ends if and only if the
      statement does, and then in the same way, with the same frame and result. */
  lemma SameProgram(code: seq<Quad>, s: Stmt, addr: nat, end: nat, ret: Type, fin: nat, m: Mem)
    requires Sits(code, addr, Code(s, addr, ret, fin)) && addr + Len(s, ret) == end <= fin
    ensures (exists n: nat :: RunStops(code, addr, end, m, n)) <==> (exists fuel: nat :: ExecStops(s, m.frame, ret, fuel))
    ensures forall n: nat, fuel: nat :: RunStops(code, addr, end, m, n) && ExecStops(s, m.frame, ret, fuel) ==>
              Matches(RunIn(code, addr, end, addr, m, n), Exec(s, m.frame, ret, fuel), m.stack, end, fin, ret)
  {
    assert Placed(code, addr, end, s, addr, end, ret, fin);
    forall n: nat | RunStops(code, addr, end, m, n) ensures ExecStops(s, m.frame, ret, n) {
      RunEnds(code, s, addr, end, ret, fin, m, n, n);
    }
    forall fuel: nat | ExecStops(s, m.frame, ret, fuel) ensures exists n: nat :: RunStops(code, addr, end, m, n) {
      var n := ExecEnds(code, s, addr, end, ret, fin, m, fuel);
    }
    forall n: nat, fuel: nat | RunStops(code, addr, end, m, n) && ExecStops(s, m.frame, ret, fuel)
      ensures Matches(RunIn(code, addr, end, addr, m, n), Exec(s, m.frame, ret, fuel), m.stack, end, fin, ret)
    {
      RunEnds(code, s, addr, end, ret, fin, m, n, fuel);
    }
  }

  /** The quads of a function: from the first quad of its body the run comes to the quad
      that returns if and only if the body ends without an error, and then with the
      frame and the result the body gives. */
  lemma FunctionMeans(before: seq<Quad>, body: Stmt, ret: Type, argSize: nat, arSize: nat, after: seq<Quad>, m: Mem,
                      code: seq<Quad>, start: nat, fin: nat)
    requires start == |before| + 1 && fin == start + Len(body, ret)
    requires code == before + [QFuncStart(arSize)] + Code(body, start, ret, fin) + [QFuncRet(argSize, arSize)] + after
    requires AllInFile(Code(body, start, ret, fin))
    ensures code[fin] == QFuncRet(argSize, arSize)
    ensures (exists n: nat :: RunStops(code, start, fin, m, n)) <==> (exists fuel: nat :: ExecStops(body, m.frame, ret, fuel))
    ensures forall n: nat, fuel: nat :: RunStops(code, start, fin, m, n) && ExecStops(body, m.frame, ret, fuel) ==>
              Matches(RunIn(code, start, fin, start, m, n), Exec(body, m.frame, ret, fuel), m.stack, fin, fin, ret)
  {
    assert code[start..start + Len(body, ret)] == Code(body, start, ret, fin);
    SameProgram(code, body, start, fin, ret, fin, m);
  }

  lemma RunEnds(code: seq<Quad>, s: Stmt, addr: nat, end: nat, ret: Type, fin: nat, m: Mem, n: nat, fuel: nat)
    requires Placed(code, addr, end, s, addr, end, ret, fin) && RunStops(code, addr, end, m, n)
    ensures ExecStops(s, m.frame, ret, n)
    ensures ExecStops(s, m.frame, ret, fuel) ==>
              Matches(RunIn(code, addr, end, addr, m, n), Exec(s, m.frame, ret, fuel), m.stack, end, fin, ret)
  {
    var r := RunIn(code, addr, end, addr, m, n);
    assert Runs(code, addr, end, addr, m, n, r);
    var o := Follows(code, s, addr, end, ret, fin, m, n, r);
    assert Exec(s, m.frame, ret, n) == o by { assert ShowOf(Ending, s, 0); }
    if ExecStops(s, m.frame, ret, fuel) {
      EndsSame(s, m.frame, ret, fuel, Exec(s, m.frame, ret, fuel), n, o);
    }
  }

  lemma ExecEnds(code: seq<Quad>, s: Stmt, addr: nat, end: nat, ret: Type, fin: nat, m: Mem, fuel: nat) returns (n: nat)
    requires Placed(code, addr, end, s, addr, end, ret, fin) && ExecStops(s, m.frame, ret, fuel)
    ensures RunStops(code, addr, end, m, n)
  {
    var o := Exec(s, m.frame, ret, fuel);
    assert Ends(s, m.frame, ret, fuel, o);
    n := Halts(code, s, addr, end, ret, fin, m, fuel, o);
    assert ShowAt(Finishing, addr, 0);
  }
}
