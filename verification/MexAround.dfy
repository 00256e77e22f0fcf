/** Does a goto lead to a block around it?  Each block is numbered when it opens, and the
    compiler's run is watched: which blocks are open, which are around each goto, and how
    low the scope has fallen since the goto. */
module MexAround {
  import opened Wrappers
  import opened MexVm
  import opened MexSymbols
  import opened MexScope
  import opened MexGoto

  /** A goto that has been given a label: the block that the label is in, the scope it was
      found in, and how low the scope had fallen since the goto. */
  datatype Settled = Settled(g: Goto, to: nat, home: nat, found: nat, low: nat)

  /** The open blocks, outermost first; how many have been opened; by its quad, the blocks
      around each goto and the lowest scope since; and the gotos settled. */
  datatype Watch = Watch(open: seq<nat>, count: nat, around: map<nat, seq<nat>>, low: map<nat, nat>, settled: seq<Settled>)

  function Min(a: nat, b: nat): nat {
    if a < b then a else b
  }

  // ---------------------------------------------------------------- watching

  function WatchOpen(v: Watch): Watch {
    v.(open := v.open + [v.count], count := v.count + 1)
  }

  function WatchGoto(st: St, v: Watch): Watch {
    v.(around := v.around[|st.quads| := v.open], low := v.low[|st.quads| := st.scope])
  }

  function WatchOne(g: Goto, st: St, v: Watch): Watch {
    var a := Lookup(st.decls, g.name);
    if g.scope < st.scope || a.None? || !a.value.what.Label? then v
    else
      var home := if 1 <= a.value.scope <= |v.open| then v.open[a.value.scope - 1] else 0;
      var low := if g.quad in v.low then v.low[g.quad] else 0;
      v.(settled := v.settled + [Settled(g, a.value.what.quad, home, a.value.scope, low)])
  }

  function WatchAll(gs: seq<Goto>, st: St, v: Watch): Watch
    decreases gs
  {
    if gs == [] then v else WatchAll(gs[1..], PatchOne(gs[0], st), WatchOne(gs[0], st, v))
  }

  function WatchClose(st: St, v: Watch): Watch {
    var v1 := WatchAll(st.gstack, st.(gstack := []), v);
    v1.(open := if v1.open == [] then [] else v1.open[..|v1.open| - 1],
        low := map q | q in v1.low :: Min(v1.low[q], if st.scope > 0 then st.scope - 1 else 0))
  }

  function WatchItem(item: Item, st: St, v: Watch): Watch
    decreases item
  {
    match item
    case Jump(name) => WatchGoto(st, v)
    case Block(items) =>
      WatchClose(CompileAll(items, OpenScope(st)).(offset := st.offset % WORD), WatchBody(items, OpenScope(st), WatchOpen(v)))
    case _ => v
  }

  function WatchBody(items: seq<Item>, st: St, v: Watch): Watch
    decreases items
  {
    if items == [] then v else WatchBody(items[1..], Compile(items[0], st), WatchItem(items[0], st, v))
  }

  // ---------------------------------------------------------------- what holds throughout

  /** Blocks that opened later have higher numbers. */
  predicate Numbered(v: Watch) {
    && (forall j :: 0 <= j < |v.open| ==> v.open[j] < v.count)
    && forall q, j :: q in v.around && 0 <= j < |v.around[q]| ==> v.around[q][j] < v.count
  }

  /** Down to the lowest scope since, the blocks around the goto are still open, and no
      other open block is around it. */
  predicate Tracked(v: Watch, q: nat) {
    && q in v.around && q in v.low && v.low[q] <= |v.open| && v.low[q] <= |v.around[q]|
    && v.open[..v.low[q]] == v.around[q][..v.low[q]]
    && forall j :: v.low[q] <= j < |v.open| ==> v.open[j] !in v.around[q]
  }

  ghost predicate Watched(st: St, v: Watch) {
    && |v.open| == st.scope && Numbered(v) && Under(st.decls, st.scope)
    && (forall i :: 0 <= i < |st.decls| && st.decls[i].what.Label? ==> st.decls[i].scope >= 1)
    && v.around.Keys == v.low.Keys && (forall q :: q in v.around ==> Tracked(v, q))
    && forall g :: g in st.gstack ==> g.quad in v.around
  }

  /** The goto's target is in a block around it exactly if its label was found no deeper
      than the scope had fallen. */
  ghost predicate Explained(v: Watch, s: Settled) {
    s.g.quad in v.around && (s.home in v.around[s.g.quad] <==> s.found <= s.low)
  }

  ghost predicate AllExplained(v: Watch) {
    forall i :: 0 <= i < |v.settled| ==> Explained(v, v.settled[i])
  }

  lemma {:induction false} LabelScope(d: seq<Attr>, name: string, scope: nat)
    requires Under(d, scope) && Lookup(d, name).Some? && Lookup(d, name).value.what.Label?
    requires forall i :: 0 <= i < |d| && d[i].what.Label? ==> d[i].scope >= 1
    ensures 1 <= Lookup(d, name).value.scope <= scope
  {
    var k := LookupFirst(d, name);
  }

  lemma ExplainOne(g: Goto, st: St, v: Watch)
    requires Watched(st, v) && g.quad in v.around && AllExplained(v)
    ensures AllExplained(WatchOne(g, st, v))
  {
    var a := Lookup(st.decls, g.name);
    if g.scope >= st.scope && a.Some? && a.value.what.Label? {
      LabelScope(st.decls, g.name, st.scope);
      var e, low := a.value.scope, v.low[g.quad];
      assert Tracked(v, g.quad);
      if e <= low {
        assert v.open[e - 1] == v.open[..low][e - 1] == v.around[g.quad][..low][e - 1];
      }
    }
  }

  lemma WatchOneSame(g: Goto, st: St, v: Watch)
    ensures
      var v1 := WatchOne(g, st, v);
      v1.open == v.open && v1.count == v.count && v1.around == v.around && v1.low == v.low
  {
  }

  lemma {:induction false} ExplainAll(gs: seq<Goto>, st: St, v: Watch)
    requires Watched(st, v) && AllExplained(v) && forall g :: g in gs ==> g.quad in v.around
    ensures
      var v1 := WatchAll(gs, st, v);
      Watched(PatchAll(gs, st), v1) && AllExplained(v1) && v1.open == v.open && v1.count == v.count
    decreases gs
  {
    if gs != [] {
      ExplainOne(gs[0], st, v);
      WatchOneSame(gs[0], st, v);
      ExplainAll(gs[1..], PatchOne(gs[0], st), WatchOne(gs[0], st, v));
    }
  }

  lemma WatchOpens(st: St, v: Watch)
    requires Watched(st, v)
    ensures Watched(OpenScope(st), WatchOpen(v))
  {
    var v1 := WatchOpen(v);
    forall q | q in v1.around
      ensures Tracked(v1, q)
    {
      assert Tracked(v, q);
      assert v1.open[..v1.low[q]] == v.open[..v.low[q]];
    }
  }

  lemma WatchGotos(st: St, v: Watch, name: string)
    requires Watched(st, v)
    ensures Watched(ProcessGoto(st, name), WatchGoto(st, v))
  {
    var v1 := WatchGoto(st, v);
    forall q | q in v1.around
      ensures Tracked(v1, q)
    {
      if q != |st.quads| { assert Tracked(v, q); }
    }
  }

  /** The gotos settled stay explained when a goto is seen whose quad is new. */
  lemma GotoExplained(st: St, v: Watch)
    requires AllExplained(v) && |st.quads| !in v.around
    ensures AllExplained(WatchGoto(st, v))
  {
    forall i | 0 <= i < |v.settled|
      ensures Explained(WatchGoto(st, v), v.settled[i])
    {
      assert Explained(v, v.settled[i]);
    }
  }

  /** Each goto seen stands at a quad that has been emitted. */
  predicate Behind(st: St, v: Watch) {
    forall q :: q in v.around ==> q < |st.quads|
  }

  /** The gotos settled are those patched. */
  predicate Paired(ps: seq<(Goto, nat)>, ss: seq<Settled>) {
    |ss| == |ps| && forall i :: 0 <= i < |ps| ==> (ss[i].g, ss[i].to) == ps[i]
  }

  lemma {:induction false} PairedAll(gs: seq<Goto>, st: St, v: Watch)
    requires Paired(st.patches, v.settled)
    ensures Paired(PatchAll(gs, st).patches, WatchAll(gs, st, v).settled)
    decreases gs
  {
    if gs != [] { PairedAll(gs[1..], PatchOne(gs[0], st), WatchOne(gs[0], st, v)); }
  }

  lemma LowFalls(v: Watch, scope: nat)
    requires |v.open| == scope >= 1 && v.around.Keys == v.low.Keys && forall q :: q in v.around ==> Tracked(v, q)
    ensures
      var v1 := v.(open := v.open[..scope - 1], low := map q | q in v.low :: Min(v.low[q], scope - 1));
      v1.around.Keys == v1.low.Keys && forall q :: q in v1.around ==> Tracked(v1, q)
  {
    var v1 := v.(open := v.open[..scope - 1], low := map q | q in v.low :: Min(v.low[q], scope - 1));
    forall q | q in v1.around
      ensures Tracked(v1, q)
    {
      assert Tracked(v, q);
      var n := v1.low[q];
      assert v1.open[..n] == v.open[..v.low[q]][..n];
      assert v1.around[q][..n] == v.around[q][..v.low[q]][..n];
    }
  }

  /** Closing a scope leaves the settled gotos explained, and those it settles. */
  lemma CloseExplains(st: St, v: Watch)
    requires Watched(st, v) && AllExplained(v)
    ensures AllExplained(WatchClose(st, v))
    ensures WatchClose(st, v).around == v.around
  {
    var st0 := st.(gstack := []);
    ExplainAll(st.gstack, st0, v);
    WatchAllSame(st.gstack, st0, v);
    var v1, v2 := WatchAll(st.gstack, st0, v), WatchClose(st, v);
    forall i | 0 <= i < |v2.settled|
      ensures Explained(v2, v2.settled[i])
    {
      assert Explained(v1, v1.settled[i]);
    }
  }

  lemma WatchCloses(st: St, v: Watch, outer: seq<Attr>)
    requires st.scope >= 1 && Watched(st, v) && AllExplained(v)
    requires Killed(st.decls, st.scope) == outer && Under(outer, st.scope - 1)
    requires forall i :: 0 <= i < |outer| && outer[i].what.Label? ==> outer[i].scope >= 1
    ensures Watched(CloseScope(st), WatchClose(st, v))
  {
    var v2 := ClosedWatch(st, v);
    LowFalls(v, st.scope);
    StackFalls(st, v.around.Keys);
    assert forall q :: q in v2.around ==> Tracked(v2, q);
  }

  lemma ClosedWatch(st: St, v: Watch) returns (v2: Watch)
    requires st.scope >= 1 && Watched(st, v) && AllExplained(v)
    ensures v2 == WatchClose(st, v) && v2.count == v.count && v2.around == v.around
    ensures v2.open == v.open[..st.scope - 1] && v2.low == map q | q in v.low :: Min(v.low[q], st.scope - 1)
    ensures forall g :: g in PatchAll(st.gstack, st.(gstack := [])).gstack ==> g.quad in v.around
  {
    var st0 := st.(gstack := []);
    ExplainAll(st.gstack, st0, v);
    WatchAllSame(st.gstack, st0, v);
    v2 := WatchClose(st, v);
  }

  lemma StackFalls(st: St, qs: set<nat>)
    requires st.scope >= 1 && forall g :: g in PatchAll(st.gstack, st.(gstack := [])).gstack ==> g.quad in qs
    ensures forall g :: g in CloseScope(st).gstack ==> g.quad in qs
  {
  }

  lemma {:induction false} WatchAllSame(gs: seq<Goto>, st: St, v: Watch)
    ensures
      var v1 := WatchAll(gs, st, v);
      v1.open == v.open && v1.around == v.around && v1.low == v.low
    decreases gs
  {
    if gs != [] {
      WatchOneSame(gs[0], st, v);
      WatchAllSame(gs[1..], PatchOne(gs[0], st), WatchOne(gs[0], st, v));
    }
  }

  /** All that holds while a body is compiled. */
  ghost predicate Sound(st: St, v: Watch) {
    forall u: nat {:trigger Show(Watching, u)} :: Show(Watching, u) ==>
      Watched(st, v) && AllExplained(v) && Behind(st, v) && Paired(st.patches, v.settled)
  }

  lemma SoundWith(st: St, st2: St, v: Watch)
    requires Sound(st, v) && st2.scope == st.scope && st2.gstack == st.gstack && st2.patches == st.patches && |st2.quads| >= |st.quads|
    requires st2.decls == st.decls || (exists a: Attr :: st2.decls == [a] + st.decls && a.scope == st.scope >= 1)
    ensures Sound(st2, v)
  {
    assert Show(Watching, 0);
  }

  lemma EnterSound(st: St, v: Watch, name: string, what: Entity)
    requires st.scope >= 1 && Sound(st, v)
    ensures Sound(Enter(st, name, what), v)
  {
    SoundWith(st, Enter(st, name, what), v);
  }

  lemma VarSound(st: St, v: Watch, name: string, size: nat)
    requires st.scope >= 1 && Sound(st, v)
    ensures Sound(DeclareVar(st, name, size), v)
  {
    EnterSound(st, v, name, Variable(-(st.offset + size), size));
    SoundWith(Enter(st, name, Variable(-(st.offset + size), size)), DeclareVar(st, name, size), v);
  }

  lemma GotoSound(st: St, v: Watch, name: string)
    requires Sound(st, v)
    ensures Sound(ProcessGoto(st, name), WatchGoto(st, v))
  {
    assert Show(Watching, 0);
    WatchGotos(st, v, name);
    GotoExplained(st, v);
  }

  lemma OpenSound(st: St, v: Watch)
    requires Sound(st, v)
    ensures Sound(OpenScope(st), WatchOpen(v))
  {
    assert Show(Watching, 0);
    WatchOpens(st, v);
    forall i | 0 <= i < |v.settled|
      ensures Explained(WatchOpen(v), v.settled[i])
    {
      assert Explained(v, v.settled[i]);
    }
  }

  lemma CloseSound(st: St, v: Watch, outer: seq<Attr>)
    requires st.scope >= 1 && Sound(st, v) && Killed(st.decls, st.scope) == outer && Under(outer, st.scope - 1)
    requires forall i :: 0 <= i < |outer| && outer[i].what.Label? ==> outer[i].scope >= 1
    ensures Sound(CloseScope(st), WatchClose(st, v))
  {
    assert Show(Watching, 0);
    WatchCloses(st, v, outer);
    CloseExplains(st, v);
    PairedClose(st, v);
  }

  lemma PairedClose(st: St, v: Watch)
    requires st.scope >= 1 && Paired(st.patches, v.settled)
    ensures Paired(CloseScope(st).patches, WatchClose(st, v).settled)
  {
    PairedAll(st.gstack, st.(gstack := []), v);
  }

  lemma {:induction false} ItemSound(item: Item, st: St, v: Watch)
    requires st.scope >= 1 && Sound(st, v)
    ensures Sound(Compile(item, st), WatchItem(item, st, v))
    decreases item, 0
  {
    match item {
      case Var(name, size) => VarSound(st, v, name, size);
      case LabelAt(name) => EnterSound(st, v, name, Label(|st.quads|));
      case Jump(name) => GotoSound(st, v, name);
      case Plain(_) => SoundWith(st, Compile(item, st), v);
      case Block(items) => BlockSound(items, st, v);
    }
  }

  lemma WatchBlockIs(items: seq<Item>, st: St, v: Watch) returns (mid: St, mid2: St, v1: Watch)
    ensures mid == CompileAll(items, OpenScope(st)) && v1 == WatchBody(items, OpenScope(st), WatchOpen(v))
    ensures mid2 == mid.(offset := mid2.offset) && mid2.scope == st.scope + 1
    ensures Compile(Block(items), st) == CloseScope(mid2) && WatchItem(Block(items), st, v) == WatchClose(mid2, v1)
  {
    mid, v1 := CompileAll(items, OpenScope(st)), WatchBody(items, OpenScope(st), WatchOpen(v));
    mid2 := mid.(offset := st.offset % WORD);
  }

  lemma {:induction false} BlockSound(items: seq<Item>, st: St, v: Watch)
    requires st.scope >= 1 && Sound(st, v)
    ensures Sound(Compile(Block(items), st), WatchItem(Block(items), st, v))
    decreases items, 1
  {
    OpenSound(st, v);
    BodySound(items, OpenScope(st), WatchOpen(v));
    var mid, mid2, v1 := WatchBlockIs(items, st, v);
    SoundWith(mid, mid2, v1);
    SoundDecls(st, v);
    BlockKeeps(items, st, mid2);
    CloseSound(mid2, v1, st.decls);
  }

  lemma SoundDecls(st: St, v: Watch)
    requires Sound(st, v)
    ensures Under(st.decls, st.scope) && forall i :: 0 <= i < |st.decls| && st.decls[i].what.Label? ==> st.decls[i].scope >= 1
  {
    assert Show(Watching, 0);
  }

  lemma BlockKeeps(items: seq<Item>, st: St, mid2: St)
    requires st.scope >= 1 && Under(st.decls, st.scope) && mid2.scope == st.scope + 1 && Compile(Block(items), st) == CloseScope(mid2)
    ensures Killed(mid2.decls, mid2.scope) == st.decls
  {
    ItemGrows(Block(items), st);
  }

  lemma {:induction false} BodySound(items: seq<Item>, st: St, v: Watch)
    requires st.scope >= 1 && Sound(st, v)
    ensures Sound(CompileAll(items, st), WatchBody(items, st, v))
    decreases items, 0
  {
    if items != [] {
      ItemSound(items[0], st, v);
      BodySound(items[1..], Compile(items[0], st), WatchItem(items[0], st, v));
    }
  }

  // ---------------------------------------------------------------- a whole function

  /** The watch over a function, from an empty one. */
  function WatchFunction(args: seq<(string, nat)>, body: seq<Item>, st: St): Watch {
    var st1 := OpenScope(st.(offset := 0, maxoffset := 0));
    var st2 := EnterArgs(args, AR_CONTROL_DATA, st1);
    WatchClose(Inside(args, body, st).(offset := 0), WatchBody(body, st2, Watch([0], 1, map[], map[], [])))
  }

  lemma {:induction false} ArgsSound(args: seq<(string, nat)>, ofs: nat, st: St, v: Watch)
    requires st.scope >= 1 && Sound(st, v)
    ensures Sound(EnterArgs(args, ofs, st), v)
    decreases args
  {
    if args != [] {
      var r := Enter(st, args[0].0, Argument(ofs, args[0].1));
      EnterSound(st, v, args[0].0, Argument(ofs, args[0].1));
      ArgsSound(args[1..], if r.decls == st.decls then ofs else ofs + args[0].1, r, v);
    }
  }

  /** For each goto to which a function's closing gives a target, whatever came before the
      function: the target lies in a block around the goto if and only if its label was
      found, when the goto was settled, in a scope no deeper than the lowest one since the
      goto. */
  lemma FunctionAround(args: seq<(string, nat)>, body: seq<Item>, st: St) returns (v: Watch)
    requires st.scope == 0 && Outside(st.decls) && Idle(st)
    ensures v == WatchFunction(args, body, st.(patches := [], reports := []))
    ensures var r := Function(args, body, st);
            |r.patches| >= |st.patches| && r.patches[..|st.patches|] == st.patches && Paired(r.patches[|st.patches|..], v.settled)
    ensures AllExplained(v)
  {
    var st0 := st.(patches := [], reports := []);
    assert Onto(st0, st.patches, st.reports) == st;
    FunctionOnto(args, body, st0, st.patches, st.reports);
    v := FirstAround(args, body, st0);
  }

  lemma FirstAround(args: seq<(string, nat)>, body: seq<Item>, st: St) returns (v: Watch)
    requires st.scope == 0 && Outside(st.decls) && Clean(st)
    ensures v == WatchFunction(args, body, st)
    ensures Paired(Function(args, body, st).patches, v.settled) && AllExplained(v)
  {
    v := WatchFunction(args, body, st);
    var st1 := OpenScope(st.(offset := 0, maxoffset := 0));
    var v1 := Watch([0], 1, map[], map[], []);
    var st2 := EnterArgs(args, AR_CONTROL_DATA, st1);
    assert Sound(st1, v1);
    ArgsSound(args, AR_CONTROL_DATA, st1, v1);
    BodySound(body, st2, v1);
    LastClose(Inside(args, body, st), WatchBody(body, st2, v1));
  }

  lemma LastClose(mid: St, v: Watch)
    requires mid.scope == 1 && Sound(mid, v)
    ensures
      var v2 := WatchClose(mid.(offset := 0), v);
      Paired(CloseScope(mid.(offset := 0)).patches, v2.settled) && AllExplained(v2)
  {
    var mid2 := mid.(offset := 0);
    SoundWith(mid, mid2, v);
    assert Show(Watching, 0);
    CloseExplains(mid2, v);
    PairedClose(mid2, v);
  }
}
