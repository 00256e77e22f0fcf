/** Gotos (sem_goto.c): each is settled exactly once, by a patch that leads to a label
    of its name or by a report, and where a label is the only thing of its name in a
    scope, every goto of that name inside the scope leads to it. */
module MexGoto {
  import opened Wrappers
  import opened MexVm
  import opened MexPatch
  import opened MexSymbols
  import opened MexScope

  // ---------------------------------------------------------------- what the source says

  function Size(item: Item): nat {
    match item
    case Jump(_) => 1
    case Plain(qs) => |qs|
    case Block(items) => AllSize(items)
    case _ => 0
  }

  function AllSize(items: seq<Item>): nat {
    if items == [] then 0 else Size(items[0]) + AllSize(items[1..])
  }

  /** The gotos of a part of the source that begins at a quad and in a scope. */
  function Jumps(item: Item, at: nat, scope: nat): seq<Goto> {
    match item
    case Jump(name) => [Goto(name, at, scope)]
    case Block(items) => AllJumps(items, at, scope + 1)
    case _ => []
  }

  function AllJumps(items: seq<Item>, at: nat, scope: nat): seq<Goto> {
    if items == [] then [] else Jumps(items[0], at, scope) + AllJumps(items[1..], at + Size(items[0]), scope)
  }

  /** Its labels, with the quads they stand at. */
  function Labels(item: Item, at: nat): set<(string, nat)> {
    match item
    case LabelAt(name) => {(name, at)}
    case Block(items) => AllLabels(items, at)
    case _ => {}
  }

  function AllLabels(items: seq<Item>, at: nat): set<(string, nat)> {
    if items == [] then {} else Labels(items[0], at) + AllLabels(items[1..], at + Size(items[0]))
  }

  lemma {:induction false} SizeIs(item: Item, st: St)
    ensures |Compile(item, st).quads| == |st.quads| + Size(item)
    decreases item
  {
    match item {
      case Block(items) => AllSizeIs(items, OpenScope(st));
      case _ =>
    }
  }

  lemma {:induction false} AllSizeIs(items: seq<Item>, st: St)
    ensures |CompileAll(items, st).quads| == |st.quads| + AllSize(items)
    decreases items
  {
    if items != [] {
      SizeIs(items[0], st);
      AllSizeIs(items[1..], Compile(items[0], st));
    }
  }

  // ---------------------------------------------------------------- each goto once

  function Gotos(ps: seq<(Goto, nat)>): (r: seq<Goto>)
    ensures |r| == |ps|
  {
    if ps == [] then [] else Gotos(ps[..|ps| - 1]) + [ps[|ps| - 1].0]
  }

  function Refused(rs: seq<Report>): seq<Goto> {
    if rs == [] then []
    else
      var last := rs[|rs| - 1];
      Refused(rs[..|rs| - 1]) + if last.Redeclared? then [] else [last.g]
  }

  function Bag3(gs: seq<Goto>, ps: seq<(Goto, nat)>, rs: seq<Report>): multiset<Goto> {
    multiset(gs) + multiset(Gotos(ps)) + multiset(Refused(rs))
  }

  /** The gotos seen so far: waiting, patched and refused ones. */
  function Bag(st: St): multiset<Goto> {
    Bag3(st.gstack, st.patches, st.reports)
  }

  lemma OneWaits(gs: seq<Goto>, ps: seq<(Goto, nat)>, rs: seq<Report>, g: Goto)
    ensures Bag3(gs + [g], ps, rs) == Bag3(gs, ps, rs) + multiset{g}
    ensures Bag3([g] + gs, ps, rs) == Bag3(gs, ps, rs) + multiset{g}
  {
  }

  lemma OnePatched(gs: seq<Goto>, ps: seq<(Goto, nat)>, rs: seq<Report>, g: Goto, to: nat)
    ensures Bag3(gs, ps + [(g, to)], rs) == Bag3(gs, ps, rs) + multiset{g}
  {
    assert (ps + [(g, to)])[..|ps|] == ps;
  }

  lemma OneReport(gs: seq<Goto>, ps: seq<(Goto, nat)>, rs: seq<Report>, r: Report)
    ensures Refused(rs + [r]) == Refused(rs) + if r.Redeclared? then [] else [r.g]
    ensures Bag3(gs, ps, rs + [r]) == Bag3(gs, ps, rs) + if r.Redeclared? then multiset{} else multiset{r.g}
  {
    assert (rs + [r])[..|rs + [r]| - 1] == rs;
  }

  lemma NoneWaits(gs: seq<Goto>, ps: seq<(Goto, nat)>, rs: seq<Report>)
    ensures Bag3(gs, ps, rs) == Bag3([], ps, rs) + multiset(gs)
  {
  }

  /** r has seen the gotos js besides those that st has.  The quantifier only keeps
      the bags out of the way of proofs that do not mention Look. */
  ghost predicate Sees(st: St, r: St, js: seq<Goto>) {
    forall u: nat {:trigger Look(u)} :: Look(u) ==> Same(Bag(r), Bag(st) + multiset(js))
  }

  lemma SeesSame(st: St, r: St)
    requires r.gstack == st.gstack && r.patches == st.patches && r.reports == st.reports
    ensures Sees(st, r, [])
  {
    assert Bag(st) + multiset([]) == Bag(st);
  }

  lemma SeesEnter(st: St, name: string, what: Entity)
    ensures Sees(st, Enter(st, name, what), [])
  {
    assert Bag(st) + multiset([]) == Bag(st);
    OneReport(st.gstack, st.patches, st.reports, Redeclared(name));
  }

  lemma SeesVar(st: St, name: string, size: nat)
    ensures Sees(st, DeclareVar(st, name, size), [])
  {
    assert Bag(st) + multiset([]) == Bag(st);
    OneReport(st.gstack, st.patches, st.reports, Redeclared(name));
  }

  lemma SeesGoto(st: St, name: string)
    ensures Sees(st, ProcessGoto(st, name), [Goto(name, |st.quads|, st.scope)])
  {
    OneWaits(st.gstack, st.patches, st.reports, Goto(name, |st.quads|, st.scope));
  }

  lemma SeesBoth(st: St, st1: St, st2: St, a: seq<Goto>, b: seq<Goto>)
    requires Sees(st, st1, a) && Sees(st1, st2, b)
    ensures Sees(st, st2, a + b)
  {
    assert Look(0);
    assert Bag(st) + multiset(a) + multiset(b) == Bag(st) + multiset(a + b);
  }

  lemma BagPatchOne(g: Goto, st: St)
    ensures Bag(PatchOne(g, st)) == Bag(st) + multiset{g}
  {
    var a := Lookup(st.decls, g.name);
    if g.scope < st.scope || a.None? {
      OneWaits(st.gstack, st.patches, st.reports, g);
    } else if !a.value.what.Label? {
      OneReport(st.gstack, st.patches, st.reports, NotALabel(g));
    } else {
      OnePatched(st.gstack, st.patches, st.reports, g, a.value.what.quad);
    }
  }

  lemma Shift(a: multiset<Goto>, b: multiset<Goto>, c: multiset<Goto>, gs: seq<Goto>)
    requires gs != [] && b == a + multiset{gs[0]} && c == b + multiset(gs[1..])
    ensures c == a + multiset(gs)
  {
    assert gs == [gs[0]] + gs[1..];
  }

  lemma {:induction false} BagPatchAll(gs: seq<Goto>, st: St)
    ensures Bag(PatchAll(gs, st)) == Bag(st) + multiset(gs)
    decreases gs
  {
    if gs != [] {
      var st1 := PatchOne(gs[0], st);
      BagPatchOne(gs[0], st);
      BagPatchAll(gs[1..], st1);
      Shift(Bag(st), Bag(st1), Bag(PatchAll(gs[1..], st1)), gs);
    }
  }

  lemma {:induction false} RefusedUndefined(rs: seq<Report>, gs: seq<Goto>)
    ensures Refused(rs + AllUndefined(gs)) == Refused(rs) + gs
    decreases gs
  {
    if gs == [] {
      assert rs + AllUndefined(gs) == rs;
    } else {
      var one := rs + [Undefined(gs[0])];
      assert rs + AllUndefined(gs) == one + AllUndefined(gs[1..]);
      assert one[..|one| - 1] == rs;
      RefusedUndefined(one, gs[1..]);
    }
  }

  lemma Flushed(gs: seq<Goto>, ps: seq<(Goto, nat)>, rs: seq<Report>)
    ensures Bag3([], ps, rs + AllUndefined(gs)) == Bag3(gs, ps, rs)
  {
    RefusedUndefined(rs, gs);
  }

  lemma BagClose(st: St)
    requires st.scope >= 1
    ensures Bag(CloseScope(st)) == Bag(st)
    ensures st.scope == 1 ==> CloseScope(st).gstack == []
  {
    var st0 := st.(gstack := []);
    var r := PatchAll(st.gstack, st0);
    BagPatchAll(st.gstack, st0);
    NoneWaits(st.gstack, st.patches, st.reports);
    Flushed(r.gstack, r.patches, r.reports);
  }

  lemma SeesClose(st: St, mid: St, offset: nat, js: seq<Goto>)
    requires mid.scope >= 1 && Sees(OpenScope(st), mid, js)
    ensures Sees(st, CloseScope(mid.(offset := offset)), js)
  {
    assert Look(0);
    BagClose(mid.(offset := offset));
  }

  /** Compiling a part of the source adds its gotos to those seen, and nothing else. */
  lemma {:induction false} SeesItem(item: Item, st: St)
    ensures Sees(st, Compile(item, st), Jumps(item, |st.quads|, st.scope))
    decreases item, 0
  {
    match item {
      case Var(name, size) => SeesVar(st, name, size);
      case LabelAt(name) => SeesEnter(st, name, Label(|st.quads|));
      case Jump(name) => SeesGoto(st, name);
      case Block(items) => SeesBlock(items, st);
      case Plain(qs) => SeesSame(st, st.(quads := st.quads + qs));
    }
  }

  lemma {:induction false} SeesBlock(items: seq<Item>, st: St)
    ensures Sees(st, Compile(Block(items), st), AllJumps(items, |st.quads|, st.scope + 1))
    decreases items, 1
  {
    var st1 := OpenScope(st);
    SeesAll(items, st1);
    var mid := BlockIs(items, st);
    SeesClose(st, mid, Compile(Block(items), st).offset, AllJumps(items, |st.quads|, st.scope + 1));
  }

  lemma {:induction false} SeesAll(items: seq<Item>, st: St)
    ensures Sees(st, CompileAll(items, st), AllJumps(items, |st.quads|, st.scope))
    decreases items, 0
  {
    if items == [] {
      SeesSame(st, st);
    } else {
      var st1 := Compile(items[0], st);
      SeesItem(items[0], st);
      SizeIs(items[0], st);
      SeesAll(items[1..], st1);
      SeesBoth(st, st1, CompileAll(items[1..], st1), Jumps(items[0], |st.quads|, st.scope),
               AllJumps(items[1..], |st.quads| + Size(items[0]), st.scope));
    }
  }

  // ---------------------------------------------------------------- where the patches lead

  /** Every label known, and every patch made, is one of the labels l. */
  predicate Right(st: St, l: set<(string, nat)>) {
    && (forall i :: 0 <= i < |st.decls| && st.decls[i].what.Label? ==> (st.decls[i].name, st.decls[i].what.quad) in l)
    && (forall i :: 0 <= i < |st.patches| ==> (st.patches[i].0.name, st.patches[i].1) in l)
  }

  lemma {:induction false} RightPatchAll(gs: seq<Goto>, st: St, l: set<(string, nat)>)
    requires Right(st, l)
    ensures Right(PatchAll(gs, st), l)
    decreases gs
  {
    if gs != [] {
      if Lookup(st.decls, gs[0].name).Some? {
        var k := LookupFirst(st.decls, gs[0].name);
      }
      RightPatchAll(gs[1..], PatchOne(gs[0], st), l);
    }
  }

  lemma {:induction false} KilledLabel(d: seq<Attr>, scope: nat, i: nat) returns (k: nat)
    requires i < |Killed(d, scope)| && Killed(d, scope)[i].what.Label?
    ensures k < |d| && d[k] == Killed(d, scope)[i]
  {
    var n := |Left(d[0], scope)|;
    if i < n {
      k := 0;
    } else {
      k := KilledLabel(d[1..], scope, i - n);
      k := k + 1;
    }
  }

  lemma RightClose(st: St, l: set<(string, nat)>)
    requires st.scope >= 1 && Right(st, l)
    ensures Right(CloseScope(st), l)
  {
    RightPatchAll(st.gstack, st.(gstack := []), l);
    var d := Killed(st.decls, st.scope);
    forall i | 0 <= i < |d| && d[i].what.Label?
      ensures (d[i].name, d[i].what.quad) in l
    {
      var k := KilledLabel(st.decls, st.scope, i);
    }
  }

  lemma {:induction false} RightItem(item: Item, st: St, l: set<(string, nat)>)
    requires Right(st, l)
    ensures Right(Compile(item, st), l + Labels(item, |st.quads|))
    decreases item
  {
    match item {
      case Block(items) =>
        RightAll(items, OpenScope(st), l);
        RightClose(CompileAll(items, OpenScope(st)).(offset := st.offset % WORD), l + AllLabels(items, |st.quads|));
      case _ =>
    }
  }

  lemma {:induction false} RightAll(items: seq<Item>, st: St, l: set<(string, nat)>)
    requires Right(st, l)
    ensures Right(CompileAll(items, st), l + AllLabels(items, |st.quads|))
    decreases items
  {
    if items != [] {
      RightItem(items[0], st, l);
      SizeIs(items[0], st);
      var l1 := l + Labels(items[0], |st.quads|);
      RightAll(items[1..], Compile(items[0], st), l1);
      assert l + AllLabels(items, |st.quads|) == l1 + AllLabels(items[1..], |st.quads| + Size(items[0]));
    }
  }

  // ---------------------------------------------------------------- what the patches write

  /** The gotos have quads of their own among the first n. */
  predicate Uniq(b: multiset<Goto>, n: nat) {
    && (forall g :: g in b ==> g.quad < n && b[g] == 1)
    && (forall g, h :: g in b && h in b && g.quad == h.quad ==> g == h)
  }

  /** A patched goto jumps to its target, any other one still jumps nowhere. */
  predicate Wrote(st: St, more: multiset<Goto>) {
    && (forall i :: 0 <= i < |st.patches| ==>
          st.patches[i].0.quad < |st.quads| && st.quads[st.patches[i].0.quad] == QJmp(st.patches[i].1))
    && (forall g :: g in multiset(st.gstack) + multiset(Refused(st.reports)) + more ==>
          g.quad < |st.quads| && st.quads[g.quad] == QJmp(HOLE))
  }

  lemma {:induction false} InGotos(ps: seq<(Goto, nat)>, i: nat)
    requires i < |ps|
    ensures ps[i].0 in multiset(Gotos(ps))
  {
    if i < |ps| - 1 {
      InGotos(ps[..|ps| - 1], i);
    }
  }

  /** Patching one goto leaves the quads of all the others alone. */
  lemma WritePatched(g: Goto, st: St, to: nat, more: multiset<Goto>, r: St)
    requires Uniq(Bag(st) + multiset{g} + more, |st.quads|) && Wrote(st, multiset{g} + more)
    requires r == st.(quads := Patched(st.quads, g.quad, to), patches := st.patches + [(g, to)])
    ensures Wrote(r, more)
  {
    var all := Bag(st) + multiset{g} + more;
    assert g in all && all[g] == 1;
    forall i | 0 <= i < |r.patches|
      ensures r.patches[i].0.quad < |r.quads| && r.quads[r.patches[i].0.quad] == QJmp(r.patches[i].1)
    {
      if i < |st.patches| {
        InGotos(st.patches, i);
        assert st.patches[i].0 in all;
      }
    }
    forall h | h in multiset(r.gstack) + multiset(Refused(r.reports)) + more
      ensures h.quad < |r.quads| && r.quads[h.quad] == QJmp(HOLE)
    {
      assert h in all;
      assert h in multiset(st.gstack) + multiset(Refused(st.reports)) + (multiset{g} + more);
    }
  }

  lemma WritePatchOne(g: Goto, st: St, more: multiset<Goto>)
    requires Uniq(Bag(st) + multiset{g} + more, |st.quads|) && Wrote(st, multiset{g} + more)
    ensures Wrote(PatchOne(g, st), more)
  {
    var a := Lookup(st.decls, g.name);
    if g.scope < st.scope || a.None? {
      assert multiset(st.gstack + [g]) == multiset(st.gstack) + multiset{g};
    } else if !a.value.what.Label? {
      OneReport(st.gstack, st.patches, st.reports, NotALabel(g));
    } else {
      WritePatched(g, st, a.value.what.quad, more, PatchOne(g, st));
    }
  }

  /** The gotos gs, taken off the stack, are still to be dealt with. */
  ghost predicate Sorting(gs: seq<Goto>, st: St) {
    forall u: nat {:trigger Look(u)} :: Look(u) ==>
      Uniq(Bag(st) + multiset(gs), |st.quads|) && Wrote(st, multiset(gs))
  }

  lemma SortOne(gs: seq<Goto>, st: St)
    requires gs != [] && Sorting(gs, st)
    ensures Sorting(gs[1..], PatchOne(gs[0], st))
  {
    assert Look(0);
    var more := HeadBag(Bag(st), gs);
    var r := PatchOne(gs[0], st);
    WritePatchOne(gs[0], st, more);
    BagPatchOne(gs[0], st);
    assert Bag(r) + more == Bag(st) + multiset(gs);
    PatchOneLength(gs[0], st);
  }

  lemma PatchOneLength(g: Goto, st: St)
    ensures |PatchOne(g, st).quads| == |st.quads|
  {
  }

  lemma HeadBag(b: multiset<Goto>, gs: seq<Goto>) returns (more: multiset<Goto>)
    requires gs != []
    ensures more == multiset(gs[1..]) && multiset(gs) == multiset{gs[0]} + more
    ensures b + multiset(gs) == b + multiset{gs[0]} + more
  {
    more := multiset(gs[1..]);
    assert gs == [gs[0]] + gs[1..];
  }

  lemma {:induction false} SortAll(gs: seq<Goto>, st: St)
    requires Sorting(gs, st)
    ensures Sorting([], PatchAll(gs, st))
    decreases gs
  {
    if gs != [] {
      SortOne(gs, st);
      SortAll(gs[1..], PatchOne(gs[0], st));
    }
  }

  lemma WriteClose(st: St)
    requires st.scope >= 1 && Uniq(Bag(st), |st.quads|) && Wrote(st, multiset{})
    ensures Wrote(CloseScope(st), multiset{})
  {
    var st0 := st.(gstack := []);
    assert Bag(st0) + multiset(st.gstack) == Bag(st);
    SortAll(st.gstack, st0);
    var r := PatchAll(st.gstack, st0);
    assert Wrote(r, multiset{}) by { assert Look(0); }
    if st.scope == 1 {
      RefusedUndefined(r.reports, r.gstack);
    }
  }

  /** The gotos seen are on file as they should be. */
  ghost predicate Filed(st: St) {
    forall u: nat {:trigger Look(u)} :: Look(u) ==> Uniq(Bag(st), |st.quads|) && Wrote(st, multiset{})
  }

  lemma FiledOn(st: St, r: St, qs: seq<Quad>)
    requires Filed(st) && r.quads == st.quads + qs
    requires r.gstack == st.gstack && r.patches == st.patches && Refused(r.reports) == Refused(st.reports)
    ensures Filed(r)
  {
    assert Look(0);
    assert Bag(r) == Bag(st);
    forall i | 0 <= i < |r.patches|
      ensures r.patches[i].0.quad < |r.quads| && r.quads[r.patches[i].0.quad] == QJmp(r.patches[i].1)
    {
      assert st.quads[st.patches[i].0.quad] == QJmp(st.patches[i].1);
    }
  }

  lemma FiledEnter(st: St, name: string, what: Entity)
    requires Filed(st)
    ensures Filed(Enter(st, name, what))
  {
    if Declared(st.decls, st.scope, name) {
      FiledReport(st, st.(reports := st.reports + [Redeclared(name)]), name);
    } else {
      FiledOn(st, Enter(st, name, what), []);
    }
  }

  lemma FiledReport(st: St, r: St, name: string)
    requires Filed(st) && r == st.(reports := st.reports + [Redeclared(name)])
    ensures Filed(r)
  {
    OneReport(st.gstack, st.patches, st.reports, Redeclared(name));
    FiledOn(st, r, []);
  }

  lemma UniqAdd(b: multiset<Goto>, n: nat, g: Goto)
    requires Uniq(b, n) && g.quad == n
    ensures Uniq(b + multiset{g}, n + 1)
  {
    assert g !in b;
  }

  lemma WroteGoto(st: St, r: St, g: Goto)
    requires Wrote(st, multiset{}) && g.quad == |st.quads|
    requires r == st.(gstack := [g] + st.gstack, quads := st.quads + [QJmp(HOLE)])
    ensures Wrote(r, multiset{})
  {
    assert multiset(r.gstack) == multiset{g} + multiset(st.gstack);
    forall i | 0 <= i < |r.patches|
      ensures r.patches[i].0.quad < |r.quads| && r.quads[r.patches[i].0.quad] == QJmp(r.patches[i].1)
    {
      assert st.quads[st.patches[i].0.quad] == QJmp(st.patches[i].1);
    }
    forall h | h in multiset(r.gstack) + multiset(Refused(r.reports))
      ensures h.quad < |r.quads| && r.quads[h.quad] == QJmp(HOLE)
    {
      assert h != g ==> h in multiset(st.gstack) + multiset(Refused(st.reports)) + multiset{};
    }
  }

  lemma FiledGoto(st: St, name: string)
    requires Filed(st)
    ensures Filed(ProcessGoto(st, name))
  {
    assert Look(0);
    var g := Goto(name, |st.quads|, st.scope);
    OneWaits(st.gstack, st.patches, st.reports, g);
    UniqAdd(Bag(st), |st.quads|, g);
    WroteGoto(st, ProcessGoto(st, name), g);
  }

  lemma FiledClose(st: St)
    requires st.scope >= 1 && Filed(st)
    ensures Filed(CloseScope(st))
  {
    assert Look(0);
    BagClose(st);
    WriteClose(st);
  }

  lemma {:induction false} FiledItem(item: Item, st: St)
    requires Filed(st)
    ensures Filed(Compile(item, st))
    decreases item, 0
  {
    match item {
      case Var(name, size) =>
        FiledEnter(st, name, Variable(-(st.offset + size), size));
        FiledOn(Enter(st, name, Variable(-(st.offset + size), size)), DeclareVar(st, name, size), []);
      case LabelAt(name) => FiledEnter(st, name, Label(|st.quads|));
      case Jump(name) => FiledGoto(st, name);
      case Plain(qs) => FiledOn(st, Compile(item, st), qs);
      case Block(items) => FiledBlock(items, st);
    }
  }

  lemma {:induction false} FiledBlock(items: seq<Item>, st: St)
    requires Filed(st)
    ensures Filed(Compile(Block(items), st))
    decreases items, 1
  {
    FiledOn(st, OpenScope(st), []);
    FiledAll(items, OpenScope(st));
    var mid := BlockIs(items, st);
    var mid2 := mid.(offset := Compile(Block(items), st).offset);
    FiledOn(mid, mid2, []);
    FiledClose(mid2);
  }

  lemma {:induction false} FiledAll(items: seq<Item>, st: St)
    requires Filed(st)
    ensures Filed(CompileAll(items, st))
    decreases items, 0
  {
    if items != [] {
      FiledItem(items[0], st);
      FiledAll(items[1..], Compile(items[0], st));
    }
  }

  // ---------------------------------------------------------------- what was there before

  /** The state with patches and reports on file before its own. */
  function Onto(st: St, ps: seq<(Goto, nat)>, rs: seq<Report>): St {
    st.(patches := ps + st.patches, reports := rs + st.reports)
  }

  lemma OntoEnter(st: St, ps: seq<(Goto, nat)>, rs: seq<Report>, name: string, what: Entity)
    ensures Enter(Onto(st, ps, rs), name, what) == Onto(Enter(st, name, what), ps, rs)
  {
    assert rs + st.reports + [Redeclared(name)] == rs + (st.reports + [Redeclared(name)]);
  }

  lemma OntoVar(st: St, ps: seq<(Goto, nat)>, rs: seq<Report>, name: string, size: nat)
    ensures DeclareVar(Onto(st, ps, rs), name, size) == Onto(DeclareVar(st, name, size), ps, rs)
  {
    OntoEnter(st, ps, rs, name, Variable(-(st.offset + size), size));
  }

  lemma OntoPatchOne(g: Goto, st: St, ps: seq<(Goto, nat)>, rs: seq<Report>)
    ensures PatchOne(g, Onto(st, ps, rs)) == Onto(PatchOne(g, st), ps, rs)
  {
    var a := Lookup(st.decls, g.name);
    if a.Some? && a.value.what.Label? {
      assert ps + st.patches + [(g, a.value.what.quad)] == ps + (st.patches + [(g, a.value.what.quad)]);
    }
    assert rs + st.reports + [NotALabel(g)] == rs + (st.reports + [NotALabel(g)]);
  }

  lemma {:induction false} OntoPatchAll(gs: seq<Goto>, st: St, ps: seq<(Goto, nat)>, rs: seq<Report>)
    ensures PatchAll(gs, Onto(st, ps, rs)) == Onto(PatchAll(gs, st), ps, rs)
    decreases gs
  {
    if gs != [] {
      OntoPatchOne(gs[0], st, ps, rs);
      OntoPatchAll(gs[1..], PatchOne(gs[0], st), ps, rs);
    }
  }

  lemma OntoClose(st: St, ps: seq<(Goto, nat)>, rs: seq<Report>)
    requires st.scope >= 1
    ensures CloseScope(Onto(st, ps, rs)) == Onto(CloseScope(st), ps, rs)
  {
    var st0 := st.(gstack := []);
    var r := PatchAll(st.gstack, st0);
    assert Onto(st, ps, rs).(gstack := []) == Onto(st0, ps, rs);
    OntoPatchAll(st.gstack, st0, ps, rs);
    assert rs + r.reports + AllUndefined(r.gstack) == rs + (r.reports + AllUndefined(r.gstack));
  }

  lemma {:induction false} OntoItem(item: Item, st: St, ps: seq<(Goto, nat)>, rs: seq<Report>)
    ensures Compile(item, Onto(st, ps, rs)) == Onto(Compile(item, st), ps, rs)
    decreases item, 0
  {
    match item {
      case Var(name, size) => OntoVar(st, ps, rs, name, size);
      case LabelAt(name) => OntoEnter(st, ps, rs, name, Label(|st.quads|));
      case Jump(name) =>
      case Plain(qs) =>
      case Block(items) => OntoBlock(items, st, ps, rs);
    }
  }

  lemma {:induction false} OntoBlock(items: seq<Item>, st: St, ps: seq<(Goto, nat)>, rs: seq<Report>)
    ensures Compile(Block(items), Onto(st, ps, rs)) == Onto(Compile(Block(items), st), ps, rs)
    decreases items, 1
  {
    var mid := CompileAll(items, OpenScope(st)).(offset := st.offset % WORD);
    OntoAll(items, OpenScope(st), ps, rs);
    assert OpenScope(Onto(st, ps, rs)) == Onto(OpenScope(st), ps, rs);
    assert CompileAll(items, OpenScope(Onto(st, ps, rs))).(offset := st.offset % WORD) == Onto(mid, ps, rs);
    OntoClose(mid, ps, rs);
  }

  lemma {:induction false} OntoAll(items: seq<Item>, st: St, ps: seq<(Goto, nat)>, rs: seq<Report>)
    ensures CompileAll(items, Onto(st, ps, rs)) == Onto(CompileAll(items, st), ps, rs)
    decreases items, 0
  {
    if items != [] {
      OntoItem(items[0], st, ps, rs);
      OntoAll(items[1..], Compile(items[0], st), ps, rs);
    }
  }

  lemma {:induction false} OntoArgs(args: seq<(string, nat)>, ofs: nat, st: St, ps: seq<(Goto, nat)>, rs: seq<Report>)
    ensures EnterArgs(args, ofs, Onto(st, ps, rs)) == Onto(EnterArgs(args, ofs, st), ps, rs)
    decreases args
  {
    if args != [] {
      var r := Enter(st, args[0].0, Argument(ofs, args[0].1));
      OntoEnter(st, ps, rs, args[0].0, Argument(ofs, args[0].1));
      OntoArgs(args[1..], if r.decls == st.decls then ofs else ofs + args[0].1, r, ps, rs);
    }
  }

  /** What is on file when a function begins only stays in front of what the function
      adds to it. */
  lemma FunctionOnto(args: seq<(string, nat)>, body: seq<Item>, st: St, ps: seq<(Goto, nat)>, rs: seq<Report>)
    ensures Inside(args, body, Onto(st, ps, rs)) == Onto(Inside(args, body, st), ps, rs)
    ensures Function(args, body, Onto(st, ps, rs)) == Onto(Function(args, body, st), ps, rs)
  {
    var st1 := OpenScope(st.(offset := 0, maxoffset := 0));
    assert OpenScope(Onto(st, ps, rs).(offset := 0, maxoffset := 0)) == Onto(st1, ps, rs);
    OntoArgs(args, AR_CONTROL_DATA, st1, ps, rs);
    OntoAll(body, EnterArgs(args, AR_CONTROL_DATA, st1), ps, rs);
    var mid := Inside(args, body, st).(offset := 0);
    assert Inside(args, body, Onto(st, ps, rs)).(offset := 0) == Onto(mid, ps, rs);
    OntoClose(mid, ps, rs);
  }

  /** No goto that waits is among the first n quads. */
  predicate Beyond(st: St, n: nat) {
    n <= |st.quads| && forall g :: g in st.gstack ==> g.quad >= n
  }

  /** The first n quads are the same, and still none of them waits. */
  predicate SameBelow(st: St, r: St, n: nat) {
    Beyond(r, n) && n <= |st.quads| && r.quads[..n] == st.quads[..n]
  }

  lemma {:induction false} PatchBelow(gs: seq<Goto>, st: St, n: nat)
    requires Beyond(st, n) && forall g :: g in gs ==> g.quad >= n
    ensures SameBelow(st, PatchAll(gs, st), n)
    decreases gs
  {
    if gs != [] {
      var st1 := PatchOne(gs[0], st);
      assert st1.quads[..n] == st.quads[..n];
      assert st1.gstack == st.gstack || st1.gstack == st.gstack + [gs[0]];
      PatchBelow(gs[1..], st1, n);
    }
  }

  lemma CloseBelow(st: St, n: nat)
    requires st.scope >= 1 && Beyond(st, n)
    ensures SameBelow(st, CloseScope(st), n)
  {
    PatchBelow(st.gstack, st.(gstack := []), n);
  }

  lemma {:induction false} ItemBelow(item: Item, st: St, n: nat)
    requires Beyond(st, n)
    ensures SameBelow(st, Compile(item, st), n)
    decreases item
  {
    match item {
      case Block(items) =>
        BodyBelow(items, OpenScope(st), n);
        CloseBelow(CompileAll(items, OpenScope(st)).(offset := st.offset % WORD), n);
      case _ =>
    }
  }

  lemma {:induction false} BodyBelow(items: seq<Item>, st: St, n: nat)
    requires Beyond(st, n)
    ensures SameBelow(st, CompileAll(items, st), n)
    decreases items
  {
    if items != [] {
      ItemBelow(items[0], st, n);
      BodyBelow(items[1..], Compile(items[0], st), n);
    }
  }

  /** A function changes none of the quads emitted before it. */
  lemma FunctionBelow(args: seq<(string, nat)>, body: seq<Item>, st: St)
    requires st.scope == 0 && st.gstack == []
    ensures
      var r := Function(args, body, st);
      |r.quads| >= |st.quads| && r.quads[..|st.quads|] == st.quads
  {
    var n, st2 := |st.quads|, EnterArgs(args, AR_CONTROL_DATA, OpenScope(st.(offset := 0, maxoffset := 0)));
    BodyBelow(body, st2, n);
    CloseBelow(Inside(args, body, st).(offset := 0), n);
  }

  // ---------------------------------------------------------------- a whole function

  /** No goto waits, and no label is known. */
  predicate Idle(st: St) {
    st.gstack == [] && forall i :: 0 <= i < |st.decls| ==> !st.decls[i].what.Label?
  }

  /** And nothing is on file. */
  predicate Clean(st: St) {
    Idle(st) && st.patches == [] && st.reports == []
  }

  lemma {:induction false} ArgsIdle(args: seq<(string, nat)>, ofs: nat, st: St)
    requires Idle(st) && Refused(st.reports) == []
    ensures Idle(EnterArgs(args, ofs, st)) && Refused(EnterArgs(args, ofs, st).reports) == []
    decreases args
  {
    if args != [] {
      var what := Argument(ofs, args[0].1);
      var r := Enter(st, args[0].0, what);
      OneReport(st.gstack, st.patches, st.reports, Redeclared(args[0].0));
      ArgsIdle(args[1..], if r.decls == st.decls then ofs else ofs + args[0].1, r);
    }
  }

  lemma IdleFiled(st: St)
    requires Idle(st) && st.patches == [] && Refused(st.reports) == []
    ensures Filed(st) && Right(st, {}) && Bag(st) == multiset{}
  {
  }

  /** A function that has been compiled leaves no goto waiting and no label known, so
      that the next one begins as it did. */
  lemma FunctionIdle(args: seq<(string, nat)>, body: seq<Item>, st: St)
    requires st.scope == 0 && Outside(st.decls) && Idle(st)
    ensures Idle(Function(args, body, st)) && Outside(Function(args, body, st).decls) && Function(args, body, st).scope == 0
  {
    var locals, a := InsideHolds(args, body, st);
    var g := KilledFunction(locals, a, st.decls);
  }

  /** Each goto of the list has been patched or refused, once, and each patch makes it a
      jump to one of the labels. */
  ghost predicate Settles(r: St, ps: seq<(Goto, nat)>, rs: seq<Report>, all: multiset<Goto>, l: set<(string, nat)>) {
    && Uniq(all, |r.quads|) && multiset(Gotos(ps)) + multiset(Refused(rs)) == all
    && forall i :: 0 <= i < |ps| ==>
         (ps[i].0.name, ps[i].1) in l && ps[i].0.quad < |r.quads| && r.quads[ps[i].0.quad] == QJmp(ps[i].1)
  }

  /** When a function's scope has closed, whatever came before it, no goto waits: each goto
      of its body has been patched or refused, once, and each patch makes it a jump to a
      label of its name in that body.  What was on file stays, and so do the quads. */
  lemma FunctionGotos(args: seq<(string, nat)>, body: seq<Item>, st: St) returns (ps: seq<(Goto, nat)>, rs: seq<Report>)
    requires st.scope == 0 && Idle(st)
    ensures
      var r := Function(args, body, st);
      && r.gstack == [] && r.patches == st.patches + ps && r.reports == st.reports + rs
      && Refused(r.reports) == Refused(st.reports) + Refused(rs)
      && Settles(r, ps, rs, multiset(AllJumps(body, |st.quads|, 1)), AllLabels(body, |st.quads|))
      && |r.quads| >= |st.quads| && r.quads[..|st.quads|] == st.quads
  {
    var st0 := st.(patches := [], reports := []);
    var r0 := Function(args, body, st0);
    assert Onto(st0, st.patches, st.reports) == st;
    FunctionOnto(args, body, st0, st.patches, st.reports);
    FunctionBelow(args, body, st);
    FirstFunction(args, body, st0);
    ps, rs := r0.patches, r0.reports;
    RefusedJoin(st.reports, rs);
  }

  lemma {:induction false} RefusedJoin(a: seq<Report>, b: seq<Report>)
    ensures Refused(a + b) == Refused(a) + Refused(b)
    decreases b
  {
    if b == [] {
      assert a + b == a;
    } else {
      assert (a + b)[..|a + b| - 1] == a + b[..|b| - 1];
      RefusedJoin(a, b[..|b| - 1]);
    }
  }

  lemma FirstFunction(args: seq<(string, nat)>, body: seq<Item>, st: St)
    requires st.scope == 0 && Clean(st)
    ensures
      var r := Function(args, body, st);
      && r.gstack == []
      && Settles(r, r.patches, r.reports, multiset(AllJumps(body, |st.quads|, 1)), AllLabels(body, |st.quads|))
  {
    var st1 := OpenScope(st.(offset := 0, maxoffset := 0));
    ArgsIdle(args, AR_CONTROL_DATA, st1);
    var st2 := EnterArgs(args, AR_CONTROL_DATA, st1);
    IdleFiled(st2);
    SeesAll(body, st2);
    FiledAll(body, st2);
    RightAll(body, st2, {});
    FunctionEnds(st2, Inside(args, body, st), AllJumps(body, |st.quads|, 1), AllLabels(body, |st.quads|));
  }

  lemma FunctionEnds(st2: St, mid: St, js: seq<Goto>, l: set<(string, nat)>)
    requires mid.scope == 1 && Bag(st2) == multiset{} && Sees(st2, mid, js) && Filed(mid) && Right(mid, {} + l)
    ensures
      var r := CloseScope(mid.(offset := 0));
      r.gstack == [] && Settles(r, r.patches, r.reports, multiset(js), l)
  {
    var mid2 := mid.(offset := 0);
    FiledOn(mid, mid2, []);
    FiledClose(mid2);
    BagClose(mid2);
    RightClose(mid2, l);
    assert Bag(mid2) == multiset(js) by { assert Look(0); }
    AllSettled(CloseScope(mid2), js, l);
  }

  lemma AllSettled(r: St, js: seq<Goto>, l: set<(string, nat)>)
    requires r.gstack == [] && Bag(r) == multiset(js) && Filed(r) && Right(r, l)
    ensures Settles(r, r.patches, r.reports, multiset(js), l)
  {
    assert Look(0);
  }

  // ---------------------------------------------------------------- which label

  /** Is the name declared anywhere in this part of the source? */
  predicate Declares(item: Item, name: string) {
    match item
    case Var(other, _) => other == name
    case LabelAt(other) => other == name
    case Block(items) => AllDeclares(items, name)
    case _ => false
  }

  predicate AllDeclares(items: seq<Item>, name: string) {
    items != [] && (Declares(items[0], name) || AllDeclares(items[1..], name))
  }

  /** A goto of the name is waiting, or leads to the quad if there is one. */
  predicate Settling(st: St, g: Goto, to: Option<nat>) {
    g in st.gstack || (to.Some? && (g, to.value) in st.patches)
  }

  /** The name stands for a label at the quad, or for nothing. */
  predicate Stands(d: seq<Attr>, name: string, to: Option<nat>) {
    var a := Lookup(d, name);
    if to.Some? then a.Some? && a.value.what == Label(to.value) else a.None?
  }

  /** From st to r, the gotos of the name, and those of js, still wait or lead to the
      quad. */
  ghost predicate Keeps(st: St, r: St, name: string, to: Option<nat>, js: seq<Goto>) {
    forall u: nat {:trigger Look(u)} :: Look(u) ==>
      && (forall g: Goto :: g.name == name && Settling(st, g, to) ==> Settling(r, g, to))
      && (forall g: Goto :: g in js && g.name == name ==> Settling(r, g, to))
  }

  lemma GotoKeeps(st: St, name: string, to: Option<nat>, other: string)
    ensures Keeps(st, ProcessGoto(st, other), name, to, [Goto(other, |st.quads|, st.scope)])
  {
  }

  lemma SameKeeps(st: St, r: St, name: string, to: Option<nat>)
    requires r.gstack == st.gstack && r.patches == st.patches
    ensures Keeps(st, r, name, to, [])
  {
    assert forall g: Goto :: Settling(st, g, to) == Settling(r, g, to);
  }

  lemma {:induction false} PatchKeeps(gs: seq<Goto>, st: St, name: string, to: Option<nat>)
    requires Stands(st.decls, name, to)
    ensures forall g: Goto :: g.name == name && (g in gs || Settling(st, g, to)) ==> Settling(PatchAll(gs, st), g, to)
    decreases gs
  {
    if gs != [] {
      var st1 := PatchOne(gs[0], st);
      PatchKeeps(gs[1..], st1, name, to);
    }
  }

  /** Closing an inner scope keeps the gotos of the name. */
  lemma CloseKeeps(st: St, name: string, to: Option<nat>)
    requires st.scope > 1 && Stands(st.decls, name, to)
    ensures forall g: Goto :: g.name == name && Settling(st, g, to) ==> Settling(CloseScope(st), g, to)
  {
    PatchKeeps(st.gstack, st.(gstack := []), name, to);
  }

  lemma EnterStands(st: St, name: string, to: Option<nat>, other: string, what: Entity)
    requires Stands(st.decls, name, to) && other != name
    ensures Stands(Enter(st, other, what).decls, name, to)
  {
    var d := [Attr(other, false, st.scope, what)] + st.decls;
    assert d[1..] == st.decls;
  }

  lemma KeepsBoth(st: St, st1: St, st2: St, name: string, to: Option<nat>, a: seq<Goto>, b: seq<Goto>)
    requires Keeps(st, st1, name, to, a) && Keeps(st1, st2, name, to, b)
    ensures Keeps(st, st2, name, to, a + b)
  {
    assert Look(0);
  }

  lemma {:induction false} ItemKeeps(item: Item, st: St, name: string, to: Option<nat>)
    requires st.scope >= 1 && Under(st.decls, st.scope) && Stands(st.decls, name, to) && !Declares(item, name)
    ensures Keeps(st, Compile(item, st), name, to, Jumps(item, |st.quads|, st.scope))
    ensures Stands(Compile(item, st).decls, name, to)
    decreases item
  {
    match item {
      case Var(other, size) =>
        EnterStands(st, name, to, other, Variable(-(st.offset + size), size));
        SameKeeps(st, Compile(item, st), name, to);
      case LabelAt(other) =>
        EnterStands(st, name, to, other, Label(|st.quads|));
        SameKeeps(st, Compile(item, st), name, to);
      case Jump(other) => GotoKeeps(st, name, to, other);
      case Plain(_) => SameKeeps(st, Compile(item, st), name, to);
      case Block(items) =>
        ItemGrows(item, st);
        BodyKeeps(items, OpenScope(st), name, to);
        BlockKeeps(st, CompileAll(items, OpenScope(st)), Compile(item, st), name, to, Jumps(item, |st.quads|, st.scope));
    }
  }

  lemma BlockKeeps(st: St, mid: St, r: St, name: string, to: Option<nat>, js: seq<Goto>)
    requires mid.scope > 1 && r == CloseScope(mid.(offset := r.offset))
    requires Stands(mid.decls, name, to) && Keeps(OpenScope(st), mid, name, to, js)
    ensures Keeps(st, r, name, to, js)
  {
    assert Look(0);
    CloseKeeps(mid.(offset := r.offset), name, to);
    assert forall g: Goto :: Settling(OpenScope(st), g, to) == Settling(st, g, to);
    assert forall g: Goto :: Settling(mid.(offset := r.offset), g, to) == Settling(mid, g, to);
  }

  lemma {:induction false} BodyKeeps(items: seq<Item>, st: St, name: string, to: Option<nat>)
    requires st.scope >= 1 && Under(st.decls, st.scope) && Stands(st.decls, name, to) && !AllDeclares(items, name)
    ensures Keeps(st, CompileAll(items, st), name, to, AllJumps(items, |st.quads|, st.scope))
    ensures Stands(CompileAll(items, st).decls, name, to)
    decreases items
  {
    if items == [] {
      SameKeeps(st, st, name, to);
    } else {
      var st1 := Compile(items[0], st);
      ItemKeeps(items[0], st, name, to);
      ItemGrows(items[0], st);
      GrownUnder(st.decls, st1.decls, st.scope);
      SizeIs(items[0], st);
      BodyKeeps(items[1..], st1, name, to);
      KeepsBoth(st, st1, CompileAll(items[1..], st1), name, to, Jumps(items[0], |st.quads|, st.scope),
                AllJumps(items[1..], |st1.quads|, st.scope));
    }
  }

  lemma {:induction false} CompileJoin(a: seq<Item>, b: seq<Item>, st: St)
    ensures CompileAll(a + b, st) == CompileAll(b, CompileAll(a, st))
    decreases a
  {
    if a == [] {
      assert a + b == b;
    } else {
      assert (a + b)[0] == a[0] && (a + b)[1..] == a[1..] + b;
      CompileJoin(a[1..], b, Compile(a[0], st));
    }
  }

  lemma {:induction false} JumpsJoin(a: seq<Item>, b: seq<Item>, at: nat, scope: nat)
    ensures AllJumps(a + b, at, scope) == AllJumps(a, at, scope) + AllJumps(b, at + AllSize(a), scope)
    decreases a
  {
    if a == [] {
      assert a + b == b;
    } else {
      assert (a + b)[0] == a[0] && (a + b)[1..] == a[1..] + b;
      JumpsJoin(a[1..], b, at + Size(a[0]), scope);
    }
  }

  lemma {:induction false} JumpsDeep(item: Item, at: nat, scope: nat)
    ensures forall g :: g in Jumps(item, at, scope) ==> g.scope >= scope
    decreases item
  {
    match item {
      case Block(items) => AllJumpsDeep(items, at, scope + 1);
      case _ =>
    }
  }

  lemma {:induction false} AllJumpsDeep(items: seq<Item>, at: nat, scope: nat)
    ensures forall g :: g in AllJumps(items, at, scope) ==> g.scope >= scope
    decreases items
  {
    if items != [] {
      JumpsDeep(items[0], at, scope);
      AllJumpsDeep(items[1..], at + Size(items[0]), scope);
    }
  }

  lemma {:induction false} PatchesStay(gs: seq<Goto>, st: St, p: (Goto, nat))
    requires p in st.patches
    ensures p in PatchAll(gs, st).patches
    decreases gs
  {
    if gs != [] {
      PatchesStay(gs[1..], PatchOne(gs[0], st), p);
    }
  }

  lemma {:induction false} PatchReaches(gs: seq<Goto>, st: St, g: Goto, to: nat)
    requires g in gs && g.scope >= st.scope && Stands(st.decls, g.name, Some(to))
    ensures (g, to) in PatchAll(gs, st).patches
    decreases gs
  {
    if gs[0] == g {
      PatchesStay(gs[1..], PatchOne(g, st), (g, to));
    } else {
      PatchReaches(gs[1..], PatchOne(gs[0], st), g, to);
    }
  }

  /** A scope whose own label is the only thing of its name, and in which the name
      means nothing before. */
  predicate Alone(pre: seq<Item>, name: string, post: seq<Item>, st: St) {
    st.scope >= 1 && Under(st.decls, st.scope) && Lookup(st.decls, name).None?
    && !AllDeclares(pre, name) && !AllDeclares(post, name)
  }

  function Around(pre: seq<Item>, name: string, post: seq<Item>): seq<Item> {
    pre + ([LabelAt(name)] + post)
  }

  /** The gotos of the name in js wait or lead to the quad. */
  ghost predicate Pending(st: St, name: string, to: Option<nat>, js: seq<Goto>) {
    forall u: nat {:trigger Look(u)} :: Look(u) ==> forall g: Goto :: g in js && g.name == name ==> Settling(st, g, to)
  }

  lemma PendingOn(st: St, r: St, name: string, to: Option<nat>, a: seq<Goto>, b: seq<Goto>)
    requires Pending(st, name, to, a) && Keeps(st, r, name, to, b)
    ensures Pending(r, name, to, a + b)
  {
    assert Look(0);
  }

  lemma PendingLabel(st: St, r: St, name: string, to: nat, a: seq<Goto>)
    requires Pending(st, name, None, a) && r.gstack == st.gstack
    ensures Pending(r, name, Some(to), a)
  {
    assert Look(0);
  }

  /** At the end of such a scope, its gotos of that name wait for the label or have it. */
  lemma LabelKeeps(pre: seq<Item>, name: string, post: seq<Item>, st: St) returns (to: nat, r: St, js: seq<Goto>)
    requires Alone(pre, name, post, st)
    ensures to == |st.quads| + AllSize(pre)
    ensures r == CompileAll(Around(pre, name, post), st) && js == AllJumps(Around(pre, name, post), |st.quads|, st.scope)
    ensures Stands(r.decls, name, Some(to)) && Pending(r, name, Some(to), js)
  {
    var st1, a;
    st1, a, to, r, js := LabelParts(pre, name, post, st);
    BodyKeeps(pre, st, name, None);
    BodyGrows(pre, st);
    GrownUnder(st.decls, st1.decls, st.scope);
    assert Pending(st1, name, None, a) by { PendingNone(st, name); PendingOn(st, st1, name, None, [], a); }
    AfterLabel(name, post, st1, a);
  }

  lemma LabelParts(pre: seq<Item>, name: string, post: seq<Item>, st: St) returns (st1: St, a: seq<Goto>, to: nat, r: St, js: seq<Goto>)
    ensures st1 == CompileAll(pre, st) && a == AllJumps(pre, |st.quads|, st.scope) && to == |st1.quads| == |st.quads| + AllSize(pre)
    ensures st1.scope == st.scope && r == CompileAll([LabelAt(name)] + post, st1) == CompileAll(Around(pre, name, post), st)
    ensures js == a + AllJumps([LabelAt(name)] + post, to, st.scope) && js == AllJumps(Around(pre, name, post), |st.quads|, st.scope)
  {
    var rest := [LabelAt(name)] + post;
    st1, a := CompileAll(pre, st), AllJumps(pre, |st.quads|, st.scope);
    AllSizeIs(pre, st);
    to := |st1.quads|;
    CompileJoin(pre, rest, st);
    JumpsJoin(pre, rest, |st.quads|, st.scope);
    r, js := CompileAll(rest, st1), a + AllJumps(rest, to, st.scope);
  }

  lemma PendingNone(st: St, name: string)
    ensures Pending(st, name, None, [])
  {
  }

  lemma LabelDeclared(st: St, name: string)
    requires Lookup(st.decls, name).None? && Under(st.decls, st.scope)
    ensures DeclareLabel(st, name) == st.(decls := [Attr(name, false, st.scope, Label(|st.quads|))] + st.decls)
    ensures Stands(DeclareLabel(st, name).decls, name, Some(|st.quads|)) && Under(DeclareLabel(st, name).decls, st.scope)
  {
    if Declared(st.decls, st.scope, name) {
      var i :| 0 <= i < |st.decls| && Named(st.decls[i], name) && st.decls[i].scope == st.scope;
      Found(st.decls, name, i);
    }
  }

  lemma AfterLabel(name: string, post: seq<Item>, st1: St, a: seq<Goto>)
    requires st1.scope >= 1 && Under(st1.decls, st1.scope) && Lookup(st1.decls, name).None? && !AllDeclares(post, name)
    requires Pending(st1, name, None, a)
    ensures
      var r := CompileAll([LabelAt(name)] + post, st1);
      && Stands(r.decls, name, Some(|st1.quads|))
      && Pending(r, name, Some(|st1.quads|), a + AllJumps([LabelAt(name)] + post, |st1.quads|, st1.scope))
  {
    var st2, to := DeclareLabel(st1, name), |st1.quads|;
    LabelDeclared(st1, name);
    LabelFirst(name, post, st1);
    NoJump(name, post, to, st1.scope);
    PendingLabel(st1, st2, name, to, a);
    BodyKeeps(post, st2, name, Some(to));
    PendingOn(st2, CompileAll(post, st2), name, Some(to), a, AllJumps(post, to, st1.scope));
  }

  lemma LabelFirst(name: string, post: seq<Item>, st: St)
    ensures CompileAll([LabelAt(name)] + post, st) == CompileAll(post, DeclareLabel(st, name))
  {
    var items := [LabelAt(name)] + post;
    assert items[0] == LabelAt(name) && items[1..] == post;
    assert Compile(items[0], st) == DeclareLabel(st, name);
  }

  lemma NoJump(name: string, post: seq<Item>, at: nat, scope: nat)
    ensures AllJumps([LabelAt(name)] + post, at, scope) == AllJumps(post, at, scope)
  {
    var items := [LabelAt(name)] + post;
    assert items[0] == LabelAt(name) && items[1..] == post;
    assert Jumps(items[0], at, scope) == [] && Size(items[0]) == 0;
  }

  /** When such a scope closes, every goto of the name inside it, at whatever depth and
      on whichever side of the label, has been given the label. */
  lemma LabelReached(pre: seq<Item>, name: string, post: seq<Item>, st: St, offset: nat, g: Goto)
    requires Alone(pre, name, post, st)
    requires g in AllJumps(Around(pre, name, post), |st.quads|, st.scope) && g.name == name
    ensures (g, |st.quads| + AllSize(pre)) in CloseScope(CompileAll(Around(pre, name, post), st).(offset := offset)).patches
  {
    var to, r, js := LabelKeeps(pre, name, post, st);
    AllJumpsDeep(Around(pre, name, post), |st.quads|, st.scope);
    assert Look(0);
    LabelCloses(CompileAll(Around(pre, name, post), st).(offset := offset), g, to);
  }

  lemma LabelCloses(st: St, g: Goto, to: nat)
    requires st.scope >= 1 && g.scope >= st.scope && Stands(st.decls, g.name, Some(to)) && Settling(st, g, Some(to))
    ensures (g, to) in CloseScope(st).patches
  {
    var st0 := st.(gstack := []);
    if g in st.gstack {
      PatchReaches(st.gstack, st0, g, to);
    } else {
      PatchesStay(st.gstack, st0, (g, to));
    }
  }

  /** Why the name must mean nothing else: a goto that finds no label at the end of its
      block takes one from a later block beside it, where it could not have named it. */
  lemma SiblingLabel(st: St)
    requires st.scope == 1 && st.decls == [] && st.gstack == [] && st.patches == []
    ensures
      var body := [Block([Jump("x")]), Block([LabelAt("x")])];
      CompileAll(body, st).patches == [(Goto("x", |st.quads|, 2), |st.quads| + 1)]
  {
    var one, two := Block([Jump("x")]), Block([LabelAt("x")]);
    var g, st1 := JumpAlone(st);
    var st2 := LabelAfter(st1, g);
    assert [one, two] == [one] + [two];
    CompileJoin([one], [two], st);
    CompileOne(one, st);
    CompileOne(two, st1);
  }

  lemma JumpAlone(st: St) returns (g: Goto, st1: St)
    requires st.scope == 1 && st.decls == [] && st.gstack == [] && st.patches == []
    ensures g == Goto("x", |st.quads|, 2) && st1 == Compile(Block([Jump("x")]), st)
    ensures st1.gstack == [g] && st1.patches == [] && st1.decls == [] && st1.scope == 1 && |st1.quads| == |st.quads| + 1
  {
    g := Goto("x", |st.quads|, 2);
    var in1 := ProcessGoto(OpenScope(st), "x");
    CompileOne(Jump("x"), OpenScope(st));
    st1 := Compile(Block([Jump("x")]), st);
    OnePatch(g, in1.(gstack := [], offset := st.offset % WORD));
  }

  lemma LabelAfter(st: St, g: Goto) returns (st2: St)
    requires st.scope == 1 && st.decls == [] && st.gstack == [g] && st.patches == [] && g.name == "x" && g.scope == 2
    ensures st2 == Compile(Block([LabelAt("x")]), st) && st2.patches == [(g, |st.quads|)]
  {
    var in2 := DeclareLabel(OpenScope(st), "x");
    CompileOne(LabelAt("x"), OpenScope(st));
    assert in2.decls == [Attr("x", false, 2, Label(|st.quads|))];
    OnePatch(g, in2.(gstack := [], offset := st.offset % WORD));
    st2 := Compile(Block([LabelAt("x")]), st);
  }

  lemma CompileOne(item: Item, st: St)
    ensures CompileAll([item], st) == Compile(item, st)
  {
    assert [item][1..] == [];
  }

  lemma OnePatch(g: Goto, st: St)
    ensures PatchAll([g], st) == PatchOne(g, st)
  {
    assert [g][1..] == [];
  }
}
