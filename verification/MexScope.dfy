/** Scopes of the compiler: declarations and their places in the activation record
    (sem_decl.c, sem_scop.c), and gotos, which are patched when the scopes around
    them close (sem_goto.c).  The order of the calls is that of the grammar's
    actions for blocks and functions (mex_tab.c). */
module MexScope {
  import opened Wrappers
  import opened MexVm
  import opened MexPatch
  import opened MexSymbols

  /** Where a block keeps the offset it began with is 16 bits wide. */
  const WORD := 0x1_0000

  datatype Goto = Goto(name: string, quad: nat, scope: nat)

  datatype Report = NotALabel(g: Goto) | Undefined(g: Goto) | Redeclared(name: string)

  /** What the compiler keeps.  The patches are the gotos that have been given a
      target, with the target, in the order in which that was done. */
  datatype St = St(decls: seq<Attr>, scope: nat, offset: nat, maxoffset: nat, gstack: seq<Goto>, quads: seq<Quad>,
                   patches: seq<(Goto, nat)>, reports: seq<Report>)

  /** The body of a function, as far as scopes are concerned. */
  datatype Item = Var(name: string, size: nat) | LabelAt(name: string) | Jump(name: string) | Plain(qs: seq<Quad>)
    | Block(items: seq<Item>)

  // ---------------------------------------------------------------- the compiler's steps

  function Enter(st: St, name: string, what: Entity): (r: St) {
    if Declared(st.decls, st.scope, name) then st.(reports := st.reports + [Redeclared(name)])
    else st.(decls := [Attr(name, false, st.scope, what)] + st.decls)
  }

  function Max(a: nat, b: nat): nat {
    if a < b then b else a
  }

  function DeclareVar(st: St, name: string, size: nat): (r: St) {
    var r := Enter(st, name, Variable(-(st.offset + size), size));
    if r.decls == st.decls then r else r.(offset := st.offset + size, maxoffset := Max(st.maxoffset, st.offset + size))
  }

  function DeclareLabel(st: St, name: string): (r: St) {
    Enter(st, name, Label(|st.quads|))
  }

  function ProcessGoto(st: St, name: string): (r: St) {
    st.(gstack := [Goto(name, |st.quads|, st.scope)] + st.gstack, quads := st.quads + [QJmp(HOLE)])
  }

  function Patched(quads: seq<Quad>, i: nat, to: nat): (r: seq<Quad>)
    ensures |r| == |quads|
  {
    if i < |quads| then quads[i := Retarget(quads[i], to)] else quads
  }

  /** Resolve one goto if its name is known by now, or keep it. */
  function PatchOne(g: Goto, st: St): (r: St) {
    var a := Lookup(st.decls, g.name);
    if g.scope < st.scope || a.None? then st.(gstack := st.gstack + [g])
    else if !a.value.what.Label? then st.(reports := st.reports + [NotALabel(g)])
    else st.(quads := Patched(st.quads, g.quad, a.value.what.quad), patches := st.patches + [(g, a.value.what.quad)])
  }

  function PatchAll(gs: seq<Goto>, st: St): (r: St)
    ensures r.scope == st.scope && r.decls == st.decls && r.offset == st.offset && r.maxoffset == st.maxoffset
    ensures |r.quads| == |st.quads|
    decreases gs
  {
    if gs == [] then st else PatchAll(gs[1..], PatchOne(gs[0], st))
  }

  function AllUndefined(gs: seq<Goto>): seq<Report> {
    if gs == [] then [] else [Undefined(gs[0])] + AllUndefined(gs[1..])
  }

  function PatchGotos(st: St): (r: St)
    ensures r.scope == st.scope && r.decls == st.decls && r.offset == st.offset && r.maxoffset == st.maxoffset
    ensures |r.quads| == |st.quads|
  {
    var r := PatchAll(st.gstack, st.(gstack := []));
    if st.scope == 1 then r.(gstack := [], reports := r.reports + AllUndefined(r.gstack)) else r
  }

  function OpenScope(st: St): (r: St) {
    st.(scope := st.scope + 1)
  }

  function CloseScope(st: St): (r: St)
    requires st.scope >= 1
    ensures r.decls == Killed(st.decls, st.scope) && r.scope == st.scope - 1
    ensures r.offset == st.offset && r.maxoffset == st.maxoffset && |r.quads| == |st.quads|
  {
    var r := PatchGotos(st);
    r.(decls := Killed(r.decls, r.scope), scope := r.scope - 1)
  }

  function Compile(item: Item, st: St): (r: St)
    ensures r.scope == st.scope && r.maxoffset >= st.maxoffset
    decreases item
  {
    match item
    case Var(name, size) => DeclareVar(st, name, size)
    case LabelAt(name) => DeclareLabel(st, name)
    case Jump(name) => ProcessGoto(st, name)
    case Plain(qs) => st.(quads := st.quads + qs)
    case Block(items) => CloseScope(CompileAll(items, OpenScope(st)).(offset := st.offset % WORD))
  }

  function CompileAll(items: seq<Item>, st: St): (r: St)
    ensures r.scope == st.scope && r.maxoffset >= st.maxoffset
    decreases items
  {
    if items == [] then st else CompileAll(items[1..], Compile(items[0], st))
  }

  /** The arguments of a function, which lie above the control data. */
  function EnterArgs(args: seq<(string, nat)>, ofs: nat, st: St): (r: St)
    ensures r.scope == st.scope && r.quads == st.quads && r.gstack == st.gstack && r.patches == st.patches
    ensures r.offset == st.offset && r.maxoffset == st.maxoffset
    decreases args
  {
    if args == [] then st
    else
      var r := Enter(st, args[0].0, Argument(ofs, args[0].1));
      EnterArgs(args[1..], if r.decls == st.decls then ofs else ofs + args[0].1, r)
  }

  /** A function's scope just before it closes. */
  function Inside(args: seq<(string, nat)>, body: seq<Item>, st: St): (r: St)
    ensures r.scope == st.scope + 1
  {
    CompileAll(body, EnterArgs(args, AR_CONTROL_DATA, OpenScope(st.(offset := 0, maxoffset := 0))))
  }

  function Function(args: seq<(string, nat)>, body: seq<Item>, st: St): (r: St) {
    CloseScope(Inside(args, body, st).(offset := 0))
  }

  // ---------------------------------------------------------------- what closing a scope restores

  predicate Under(d: seq<Attr>, scope: nat) {
    forall i :: 0 <= i < |d| ==> d[i].scope <= scope
  }

  /** An entry that does not outlive its scope. */
  predicate Passing(a: Attr, scope: nat) {
    a.scope == scope && !a.gone && (a.what.Variable? || a.what.Label?)
  }

  /** d2 is d with passing entries of the scope in front. */
  ghost predicate Grown(d: seq<Attr>, d2: seq<Attr>, scope: nat) {
    && |d| <= |d2| && d2[|d2| - |d|..] == d
    && forall i :: 0 <= i < |d2| - |d| ==> Passing(d2[i], scope)
  }

  lemma GrownOn(d: seq<Attr>, d2: seq<Attr>, d3: seq<Attr>, scope: nat)
    requires Grown(d, d2, scope) && Grown(d2, d3, scope)
    ensures Grown(d, d3, scope)
  {
    var k, n := |d3| - |d2|, |d3| - |d|;
    assert d3[n..] == d3[k..][n - k..];
    forall i | 0 <= i < n
      ensures Passing(d3[i], scope)
    {
      assert i >= k ==> d3[i] == d3[k..][i - k];
    }
  }

  lemma GrownUnder(d: seq<Attr>, d2: seq<Attr>, scope: nat)
    requires Grown(d, d2, scope) && Under(d, scope)
    ensures Under(d2, scope)
  {
    var k := |d2| - |d|;
    forall i | 0 <= i < |d2|
      ensures d2[i].scope <= scope
    {
      assert i >= k ==> d2[i] == d2[k..][i - k];
      assert i < k ==> Passing(d2[i], scope);
    }
  }

  lemma {:induction false} KilledNone(d: seq<Attr>, scope: nat)
    requires forall i :: 0 <= i < |d| ==> d[i].scope < scope
    ensures Killed(d, scope) == d
  {
    if d != [] {
      KilledNone(d[1..], scope);
    }
  }

  lemma {:induction false} KilledPassing(d: seq<Attr>, scope: nat)
    requires forall i :: 0 <= i < |d| ==> Passing(d[i], scope)
    ensures Killed(d, scope) == []
  {
    if d != [] {
      KilledPassing(d[1..], scope);
    }
  }

  lemma KilledGrown(d: seq<Attr>, d2: seq<Attr>, scope: nat)
    requires Under(d, scope) && Grown(d, d2, scope + 1)
    ensures Killed(d2, scope + 1) == d
  {
    var k := |d2| - |d|;
    assert d2 == d2[..k] + d2[k..];
    KilledPassing(d2[..k], scope + 1);
    KilledNone(d, scope + 1);
    KilledJoin(d2[..k], d2[k..], scope + 1);
  }

  lemma BlockIs(items: seq<Item>, st: St) returns (mid: St)
    ensures mid == CompileAll(items, OpenScope(st)) && mid.scope == st.scope + 1
    ensures Compile(Block(items), st).offset == st.offset % WORD
    ensures Compile(Block(items), st) == CloseScope(mid.(offset := Compile(Block(items), st).offset))
  {
    mid := CompileAll(items, OpenScope(st));
  }

  /** A part of a function's body only adds declarations of the open scope. */
  lemma {:induction false} ItemGrows(item: Item, st: St)
    requires st.scope >= 1 && Under(st.decls, st.scope)
    ensures Grown(st.decls, Compile(item, st).decls, st.scope)
    ensures item.Block? ==> Compile(item, st).decls == st.decls
    decreases item, 0
  {
    match item {
      case Var(name, size) => EnterGrows(st, name, Variable(-(st.offset + size), size));
      case LabelAt(name) => EnterGrows(st, name, Label(|st.quads|));
      case Jump(_) =>
      case Plain(_) =>
      case Block(items) => BlockGrows(items, st);
    }
  }

  lemma EnterGrows(st: St, name: string, what: Entity)
    requires what.Variable? || what.Label?
    ensures Grown(st.decls, Enter(st, name, what).decls, st.scope)
  {
  }

  lemma {:induction false} BlockGrows(items: seq<Item>, st: St)
    requires st.scope >= 1 && Under(st.decls, st.scope)
    ensures Compile(Block(items), st).decls == st.decls
    decreases items, 1
  {
    var inner := BlockDecls(items, st);
    BodyGrows(items, OpenScope(st));
    KilledGrown(st.decls, inner, st.scope);
  }

  lemma BlockDecls(items: seq<Item>, st: St) returns (inner: seq<Attr>)
    ensures inner == CompileAll(items, OpenScope(st)).decls
    ensures Same(Compile(Block(items), st).decls, Killed(inner, st.scope + 1))
  {
    var mid := BlockIs(items, st);
    inner := mid.decls;
  }

  lemma {:induction false} BodyGrows(items: seq<Item>, st: St)
    requires st.scope >= 1 && Under(st.decls, st.scope)
    ensures Grown(st.decls, CompileAll(items, st).decls, st.scope)
    decreases items, 0
  {
    if items != [] {
      var st1 := Compile(items[0], st);
      ItemGrows(items[0], st);
      GrownUnder(st.decls, st1.decls, st.scope);
      BodyGrows(items[1..], st1);
      GrownOn(st.decls, st1.decls, CompileAll(items, st).decls, st.scope);
    }
  }

  /** A block leaves the declarations and the scope as they were, and so every answer
      of the symbol table.  The offset comes back exactly when it fits in 16 bits. */
  lemma BlockRestores(items: seq<Item>, st: St)
    requires st.scope >= 1 && Under(st.decls, st.scope)
    ensures
      var r := Compile(Block(items), st);
      && r.decls == st.decls && r.scope == st.scope
      && (r.offset == st.offset <==> st.offset < 65536)
  {
    ItemGrows(Block(items), st);
  }

  /** Between functions, the table holds global names and cleared arguments. */
  predicate Outside(d: seq<Attr>) {
    forall i :: 0 <= i < |d| ==> d[i].scope == 0 || (d[i].scope == 1 && d[i].gone && d[i].what.Argument?)
  }

  lemma {:induction false} KilledOutside(d: seq<Attr>)
    requires Outside(d)
    ensures Killed(d, 1) == d
  {
    if d != [] {
      KilledOutside(d[1..]);
    }
  }

  lemma {:induction false} LookupJoin(a: seq<Attr>, d: seq<Attr>, name: string)
    ensures Lookup(a + d, name) == if Lookup(a, name).Some? then Lookup(a, name) else Lookup(d, name)
  {
    if a == [] {
      assert a + d == d;
    } else {
      assert (a + d)[0] == a[0] && (a + d)[1..] == a[1..] + d;
      LookupJoin(a[1..], d, name);
    }
  }

  lemma {:induction false} GoneUnfound(a: seq<Attr>, name: string)
    requires forall i :: 0 <= i < |a| ==> a[i].gone
    ensures Lookup(a, name).None?
  {
    if a != [] {
      GoneUnfound(a[1..], name);
    }
  }

  /** The entries that the arguments add. */
  lemma {:induction false} ArgsAdded(args: seq<(string, nat)>, ofs: nat, st: St) returns (a: seq<Attr>)
    ensures EnterArgs(args, ofs, st).decls == a + st.decls
    ensures forall i :: 0 <= i < |a| ==> a[i].scope == st.scope && !a[i].gone && a[i].what.Argument?
    decreases args
  {
    a := [];
    if args != [] {
      var r := Enter(st, args[0].0, Argument(ofs, args[0].1));
      var b := ArgsAdded(args[1..], if r.decls == st.decls then ofs else ofs + args[0].1, r);
      if r.decls == st.decls {
        a := b;
      } else {
        a := b + r.decls[..1];
        assert a + st.decls == b + r.decls;
      }
    }
  }

  lemma {:induction false} KilledArgs(a: seq<Attr>) returns (g: seq<Attr>)
    requires forall i :: 0 <= i < |a| ==> a[i].scope == 1 && a[i].what.Argument?
    ensures g == Killed(a, 1) && |g| == |a|
    ensures forall i :: 0 <= i < |g| ==> g[i].scope == 1 && g[i].gone && g[i].what.Argument?
  {
    g := Killed(a, 1);
    if a != [] {
      var rest := KilledArgs(a[1..]);
      assert g == Left(a[0], 1) + rest;
    }
  }

  /** What a function's scope holds when its body begins. */
  lemma ArgsHeld(args: seq<(string, nat)>, st: St) returns (st2: St, a: seq<Attr>)
    requires st.scope == 0 && Outside(st.decls)
    ensures st2 == EnterArgs(args, AR_CONTROL_DATA, OpenScope(st.(offset := 0, maxoffset := 0)))
    ensures st2.decls == a + st.decls && st2.scope == 1 && Under(st2.decls, 1)
    ensures forall i :: 0 <= i < |a| ==> a[i].scope == 1 && a[i].what.Argument?
    ensures Packed(st2.decls, 0) && st2.offset == st2.maxoffset == 0
  {
    var st1 := OpenScope(st.(offset := 0, maxoffset := 0));
    st2 := EnterArgs(args, AR_CONTROL_DATA, st1);
    a := ArgsAdded(args, AR_CONTROL_DATA, st1);
    OutsidePacked(st.decls);
    ArgsPacked(args, AR_CONTROL_DATA, st1);
    ArgsUnder(a, st.decls);
  }

  lemma OutsidePacked(d: seq<Attr>)
    requires Outside(d)
    ensures Packed(d, 0) && Beneath(d, AR_CONTROL_DATA)
  {
    assert forall i :: 0 <= i < |d| ==> !Held(d[i]);
  }

  lemma ArgsUnder(a: seq<Attr>, d: seq<Attr>)
    requires Outside(d) && forall i :: 0 <= i < |a| ==> a[i].scope == 1
    ensures Under(a + d, 1)
  {
  }

  /** What it holds when it closes. */
  lemma InsideHolds(args: seq<(string, nat)>, body: seq<Item>, st: St) returns (locals: seq<Attr>, a: seq<Attr>)
    requires st.scope == 0 && Outside(st.decls)
    ensures Inside(args, body, st).decls == locals + (a + st.decls)
    ensures forall i :: 0 <= i < |locals| ==> Passing(locals[i], 1)
    ensures forall i :: 0 <= i < |a| ==> a[i].scope == 1 && a[i].what.Argument?
  {
    var st2;
    st2, a := ArgsHeld(args, st);
    BodyGrows(body, st2);
    locals := GrownFront(st2.decls, Inside(args, body, st).decls, 1);
  }

  lemma GrownFront(d: seq<Attr>, d2: seq<Attr>, scope: nat) returns (front: seq<Attr>)
    requires Grown(d, d2, scope)
    ensures d2 == front + d && forall i :: 0 <= i < |front| ==> Passing(front[i], scope)
  {
    front := d2[..|d2| - |d|];
  }

  lemma KilledFunction(locals: seq<Attr>, a: seq<Attr>, d: seq<Attr>) returns (g: seq<Attr>)
    requires forall i :: 0 <= i < |locals| ==> Passing(locals[i], 1)
    requires forall i :: 0 <= i < |a| ==> a[i].scope == 1 && a[i].what.Argument?
    requires Outside(d)
    ensures Killed(locals + (a + d), 1) == g + d && Outside(g + d)
    ensures forall i :: 0 <= i < |g| ==> g[i].gone && g[i].what.Argument?
  {
    KilledPassing(locals, 1);
    g := KilledArgs(a);
    KilledOutside(d);
    KilledJoin(locals, a + d, 1);
    KilledJoin(a, d, 1);
  }

  /** A function's arguments and body leave every answer of the symbol table as it was. */
  lemma BodyRestores(args: seq<(string, nat)>, body: seq<Item>, st: St, name: string)
    requires st.scope == 0 && Outside(st.decls)
    ensures
      var r := Function(args, body, st);
      Outside(r.decls) && r.scope == 0 && Lookup(r.decls, name) == Lookup(st.decls, name)
  {
    var locals, a := InsideHolds(args, body, st);
    var g := KilledFunction(locals, a, st.decls);
    GoneUnfound(g, name);
    LookupJoin(g, st.decls, name);
  }

  /** The name of a function is entered at the global scope, unless it is known. */
  function BeginFunction(st: St, name: string, known: bool): (r: St) {
    if known then st else st.(decls := [Attr(name, false, 0, Func)] + st.decls)
  }

  /** A function leaves every answer of the symbol table as it was but that for its own
      name, which stands for the function from then on. */
  lemma FunctionRestores(name: string, known: bool, args: seq<(string, nat)>, body: seq<Item>, st: St, other: string)
    requires st.scope == 0 && Outside(st.decls)
    ensures
      var r := Function(args, body, BeginFunction(st, name, known));
      && Outside(r.decls) && r.scope == 0
      && Lookup(r.decls, other) == if other == name && !known then Some(Attr(name, false, 0, Func)) else Lookup(st.decls, other)
  {
    var st1 := BeginFunction(st, name, known);
    BodyRestores(args, body, st1, other);
    assert !known ==> st1.decls[1..] == st.decls;
  }

  // ---------------------------------------------------------------- the activation record

  /** An entry with a place in the activation record of the current function. */
  predicate Held(a: Attr) {
    !a.gone && a.scope >= 1 && (a.what.Variable? || a.what.Argument?)
  }

  predicate Apart(a: Attr, b: Attr)
    requires Held(a) && Held(b)
  {
    a.what.ofs + a.what.size <= b.what.ofs || b.what.ofs + b.what.size <= a.what.ofs
  }

  predicate InFrame(a: Attr, offset: nat)
    requires Held(a)
  {
    if a.what.Variable? then 0 <= offset + a.what.ofs && a.what.ofs + a.what.size <= 0 else a.what.ofs >= AR_CONTROL_DATA
  }

  /** Variables and arguments have places of their own, variables among the first
      offset bytes below the base of the frame. */
  predicate Packed(d: seq<Attr>, offset: nat) {
    && (forall i :: 0 <= i < |d| && Held(d[i]) ==> InFrame(d[i], offset))
    && (forall i, j :: 0 <= i < j < |d| && Held(d[i]) && Held(d[j]) ==> Apart(d[i], d[j]))
  }

  /** Every state that compiling goes through. */
  function Trace(item: Item, st: St): seq<St>
    decreases item
  {
    (if item.Block? then TraceAll(item.items, OpenScope(st)) else []) + [Compile(item, st)]
  }

  function TraceAll(items: seq<Item>, st: St): seq<St>
    decreases items
  {
    [st] + if items == [] then [] else Trace(items[0], st) + TraceAll(items[1..], Compile(items[0], st))
  }

  /** Every block of this part of the source begins with less than 65536 bytes in use. */
  predicate BlocksBelow(item: Item, st: St)
    decreases item
  {
    item.Block? ==> st.offset < 65536 && AllBelow(item.items, OpenScope(st))
  }

  predicate AllBelow(items: seq<Item>, st: St)
    decreases items
  {
    items == [] || (BlocksBelow(items[0], st) && AllBelow(items[1..], Compile(items[0], st)))
  }

  predicate Roomy(st: St, max: nat) {
    Packed(st.decls, st.offset) && st.offset <= st.maxoffset <= max
  }

  predicate AllRoomy(t: seq<St>, max: nat) {
    forall k :: 0 <= k < |t| ==> Roomy(t[k], max)
  }

  predicate Beneath(d: seq<Attr>, ofs: int) {
    forall i :: 0 <= i < |d| && Held(d[i]) ==> d[i].what.ofs + d[i].what.size <= ofs
  }

  lemma PackedEnter(st: St, name: string, what: Entity, offset: nat)
    requires Packed(st.decls, st.offset) && st.offset <= offset && st.scope >= 1
    requires what.Variable? ==> what.ofs + offset == 0 && what.size == offset - st.offset
    requires what.Argument? ==> what.ofs >= AR_CONTROL_DATA && Beneath(st.decls, what.ofs)
    ensures Packed(Enter(st, name, what).decls, offset)
  {
    var a := Attr(name, false, st.scope, what);
    var d := [a] + st.decls;
    forall i | 0 <= i < |d| && Held(d[i])
      ensures InFrame(d[i], offset)
    {
      assert i > 0 ==> InFrame(st.decls[i - 1], st.offset);
    }
    forall i, j | 0 <= i < j < |d| && Held(d[i]) && Held(d[j])
      ensures Apart(d[i], d[j])
    {
      assert d[j] == st.decls[j - 1] && InFrame(st.decls[j - 1], st.offset);
    }
  }

  lemma {:induction false} ItemPacked(item: Item, st: St)
    requires st.scope >= 1 && Under(st.decls, st.scope) && Roomy(st, st.maxoffset) && BlocksBelow(item, st)
    ensures
      var r := Compile(item, st);
      Roomy(r, r.maxoffset) && AllRoomy(Trace(item, st), r.maxoffset)
    decreases item, 0
  {
    match item {
      case Var(name, size) => VarPacked(st, name, size);
      case LabelAt(name) => PackedEnter(st, name, Label(|st.quads|), st.offset);
      case Block(items) => BlockPacked(items, st);
      case _ =>
    }
  }

  lemma VarPacked(st: St, name: string, size: nat)
    requires st.scope >= 1 && Roomy(st, st.maxoffset)
    ensures Roomy(DeclareVar(st, name, size), DeclareVar(st, name, size).maxoffset)
  {
    PackedEnter(st, name, Variable(-(st.offset + size), size), st.offset + size);
  }

  lemma {:induction false} BlockPacked(items: seq<Item>, st: St)
    requires st.scope >= 1 && Under(st.decls, st.scope) && Roomy(st, st.maxoffset) && BlocksBelow(Block(items), st)
    ensures
      var r := Compile(Block(items), st);
      Roomy(r, r.maxoffset) && AllRoomy(TraceAll(items, OpenScope(st)) + [r], r.maxoffset)
    decreases items, 1
  {
    var mid := BlockIs(items, st);
    var r := Compile(Block(items), st);
    ItemGrows(Block(items), st);
    BodyPacked(items, OpenScope(st));
    BlockRoomy(st, r, TraceAll(items, OpenScope(st)));
  }

  lemma BlockRoomy(st: St, r: St, t: seq<St>)
    requires Roomy(st, st.maxoffset) && AllRoomy(t, r.maxoffset)
    requires r.decls == st.decls && r.offset == st.offset && st.maxoffset <= r.maxoffset
    ensures Roomy(r, r.maxoffset) && AllRoomy(t + [r], r.maxoffset)
  {
  }

  /** Through a whole function body whose blocks each begin below 64K, variables alive
      together never overlap and lie within the frame. */
  lemma {:induction false} BodyPacked(items: seq<Item>, st: St)
    requires st.scope >= 1 && Under(st.decls, st.scope) && Roomy(st, st.maxoffset) && AllBelow(items, st)
    ensures
      var r := CompileAll(items, st);
      Roomy(r, r.maxoffset) && AllRoomy(TraceAll(items, st), r.maxoffset)
    decreases items, 0
  {
    if items != [] {
      var st1 := Compile(items[0], st);
      ItemPacked(items[0], st);
      ItemGrows(items[0], st);
      GrownUnder(st.decls, st1.decls, st.scope);
      BodyPacked(items[1..], st1);
      RoomyJoin(st, Trace(items[0], st), TraceAll(items[1..], st1), st1.maxoffset, CompileAll(items[1..], st1).maxoffset);
      TraceCut(items, st);
    }
  }

  lemma TraceCut(items: seq<Item>, st: St)
    requires items != []
    ensures TraceAll(items, st) == [st] + (Trace(items[0], st) + TraceAll(items[1..], Compile(items[0], st)))
  {
  }

  lemma RoomyJoin(st: St, t1: seq<St>, t2: seq<St>, mid: nat, max: nat)
    requires Roomy(st, st.maxoffset) && st.maxoffset <= mid <= max && AllRoomy(t1, mid) && AllRoomy(t2, max)
    ensures AllRoomy([st] + (t1 + t2), max)
  {
  }

  lemma {:induction false} ArgsPacked(args: seq<(string, nat)>, ofs: nat, st: St)
    requires st.scope == 1 && Packed(st.decls, st.offset) && ofs >= AR_CONTROL_DATA
    requires Beneath(st.decls, ofs)
    ensures Packed(EnterArgs(args, ofs, st).decls, st.offset)
    decreases args
  {
    if args != [] {
      var r := Enter(st, args[0].0, Argument(ofs, args[0].1));
      PackedEnter(st, args[0].0, Argument(ofs, args[0].1), st.offset);
      ArgsPacked(args[1..], if r.decls == st.decls then ofs else ofs + args[0].1, r);
    }
  }

  /** Wherever compiling a function has got to, its variables and arguments have
      places of their own, and those of the variables lie within the frame that the
      function will be given, provided that each block begins below 64K. */
  lemma FunctionPacked(args: seq<(string, nat)>, body: seq<Item>, st: St)
    requires st.scope == 0 && Outside(st.decls)
    requires AllBelow(body, EnterArgs(args, AR_CONTROL_DATA, OpenScope(st.(offset := 0, maxoffset := 0))))
    ensures
      var st2 := EnterArgs(args, AR_CONTROL_DATA, OpenScope(st.(offset := 0, maxoffset := 0)));
      AllRoomy(TraceAll(body, st2), Inside(args, body, st).maxoffset)
  {
    var st2, a := ArgsHeld(args, st);
    BodyPacked(body, st2);
  }

  // ---------------------------------------------------------------- no byte unused

  /** The bytes of the variables that are alive. */
  function Taken(d: seq<Attr>): nat {
    if d == [] then 0 else (if Held(d[0]) && d[0].what.Variable? then d[0].what.size else 0) + Taken(d[1..])
  }

  predicate Tight(st: St) {
    Taken(st.decls) == st.offset
  }

  predicate AllTight(t: seq<St>) {
    forall k :: 0 <= k < |t| ==> Tight(t[k])
  }

  /** The frame has grown from low to max only as far as it had to. */
  predicate Peaks(t: seq<St>, low: nat, max: nat) {
    max == low || exists k :: 0 <= k < |t| && t[k].offset == max
  }

  lemma {:induction false} NoneTaken(d: seq<Attr>)
    requires forall i :: 0 <= i < |d| && Held(d[i]) ==> !d[i].what.Variable?
    ensures Taken(d) == 0
  {
    if d != [] { NoneTaken(d[1..]); }
  }

  lemma EnterTaken(st: St, name: string, what: Entity)
    requires st.scope >= 1
    ensures
      var r := Enter(st, name, what);
      Taken(r.decls) == Taken(st.decls) + if r.decls != st.decls && what.Variable? then what.size else 0
  {
    assert ([Attr(name, false, st.scope, what)] + st.decls)[1..] == st.decls;
  }

  lemma {:induction false} ItemTight(item: Item, st: St)
    requires st.scope >= 1 && Under(st.decls, st.scope) && Tight(st) && BlocksBelow(item, st)
    ensures
      var r := Compile(item, st);
      Tight(r) && AllTight(Trace(item, st)) && Peaks(Trace(item, st), st.maxoffset, r.maxoffset)
    decreases item, 0
  {
    match item {
      case Var(name, size) =>
        EnterTaken(st, name, Variable(-(st.offset + size), size));
        assert Trace(item, st)[0] == Compile(item, st);
      case LabelAt(name) => EnterTaken(st, name, Label(|st.quads|));
      case Block(items) => BlockTight(items, st);
      case _ =>
    }
  }

  lemma {:induction false} BlockTight(items: seq<Item>, st: St)
    requires st.scope >= 1 && Under(st.decls, st.scope) && Tight(st) && BlocksBelow(Block(items), st)
    ensures
      var r := Compile(Block(items), st);
      Tight(r) && AllTight(Trace(Block(items), st)) && Peaks(Trace(Block(items), st), st.maxoffset, r.maxoffset)
    decreases items, 1
  {
    var mid := BlockIs(items, st);
    var r := Compile(Block(items), st);
    ItemGrows(Block(items), st);
    BodyTight(items, OpenScope(st));
    var t := TraceAll(items, OpenScope(st));
    assert Trace(Block(items), st) == t + [r];
    PeaksJoin(t, [r], st.maxoffset, r.maxoffset, r.maxoffset);
  }

  lemma PeaksJoin(t1: seq<St>, t2: seq<St>, low: nat, mid: nat, max: nat)
    requires Peaks(t1, low, mid) && Peaks(t2, mid, max)
    ensures Peaks(t1 + t2, low, max)
  {
    if exists k :: 0 <= k < |t2| && t2[k].offset == max {
      var k :| 0 <= k < |t2| && t2[k].offset == max;
      assert (t1 + t2)[|t1| + k].offset == max;
    } else if max != low {
      var k :| 0 <= k < |t1| && t1[k].offset == mid;
      assert (t1 + t2)[k].offset == max;
    }
  }

  lemma {:induction false} BodyTight(items: seq<Item>, st: St)
    requires st.scope >= 1 && Under(st.decls, st.scope) && Tight(st) && AllBelow(items, st)
    ensures AllTight(TraceAll(items, st)) && Peaks(TraceAll(items, st), st.maxoffset, CompileAll(items, st).maxoffset)
    decreases items, 0
  {
    if items != [] {
      var st1, max := Compile(items[0], st), CompileAll(items, st).maxoffset;
      ItemTight(items[0], st);
      ItemGrows(items[0], st);
      GrownUnder(st.decls, st1.decls, st.scope);
      BodyTight(items[1..], st1);
      TraceCut(items, st);
      PeaksJoin(Trace(items[0], st), TraceAll(items[1..], st1), st.maxoffset, st1.maxoffset, max);
      PeaksJoin([st], Trace(items[0], st) + TraceAll(items[1..], st1), st.maxoffset, st.maxoffset, max);
    }
  }

  /** The frame wastes nothing: wherever compiling has got to, the bytes in use below the
      base are those of the variables alive, and the frame is as large as it once had to be. */
  lemma FunctionTight(args: seq<(string, nat)>, body: seq<Item>, st: St)
    requires st.scope == 0 && Outside(st.decls)
    requires AllBelow(body, EnterArgs(args, AR_CONTROL_DATA, OpenScope(st.(offset := 0, maxoffset := 0))))
    ensures
      var st2 := EnterArgs(args, AR_CONTROL_DATA, OpenScope(st.(offset := 0, maxoffset := 0)));
      var t := TraceAll(body, st2);
      AllTight(t) && exists k :: 0 <= k < |t| && t[k].offset == Inside(args, body, st).maxoffset
  {
    var st2, a := ArgsHeld(args, st);
    NoneTaken(st2.decls);
    BodyTight(body, st2);
    assert TraceAll(body, st2)[0] == st2;
  }

  /** The bytes of these arguments. */
  function Bytes(args: seq<(string, nat)>): nat {
    if args == [] then 0 else args[0].1 + Bytes(args[1..])
  }

  /** Arguments with names of their own follow one another, the first one at ofs. */
  lemma {:induction false} ArgsLaidOut(args: seq<(string, nat)>, ofs: nat, st: St, i: nat)
    requires i < |args| && forall j :: 0 <= j < |args| ==> !Declared(st.decls, st.scope, args[j].0)
    requires forall j, k :: 0 <= j < k < |args| ==> args[j].0 != args[k].0
    ensures
      var d := EnterArgs(args, ofs, st).decls;
      && |d| == |args| + |st.decls| && d[|args|..] == st.decls
      && d[|args| - 1 - i] == Attr(args[i].0, false, st.scope, Argument(ofs + Bytes(args[..i]), args[i].1))
    decreases args
  {
    var a := Attr(args[0].0, false, st.scope, Argument(ofs, args[0].1));
    var r := Enter(st, args[0].0, Argument(ofs, args[0].1));
    assert r.decls == [a] + st.decls;
    assert EnterArgs(args, ofs, st) == EnterArgs(args[1..], ofs + args[0].1, r);
    if |args| == 1 {
      assert args[1..] == [] && EnterArgs(args, ofs, st) == r;
    } else {
      forall j | 0 <= j < |args[1..]| ensures !Declared(r.decls, r.scope, args[1..][j].0) {
        OthersDeclared(a, st.decls, st.scope, args[j + 1].0);
      }
      ArgsLaidOut(args[1..], ofs + args[0].1, r, if i == 0 then 0 else i - 1);
      var d, n := EnterArgs(args, ofs, st).decls, |args| - 1;
      assert d[n..] == r.decls && d[n + 1..] == d[n..][1..] && d[n] == d[n..][0];
      if i > 0 { assert args[..i][1..] == args[1..][..i - 1]; }
    }
  }

  lemma OthersDeclared(a: Attr, d: seq<Attr>, scope: nat, name: string)
    requires a.name != name
    ensures Declared([a] + d, scope, name) <==> Declared(d, scope, name)
  {
    if Declared([a] + d, scope, name) {
      var i :| 0 <= i < |[a] + d| && ([a] + d)[i].scope == scope && Named(([a] + d)[i], name);
      assert d[i - 1] == ([a] + d)[i];
    }
    if Declared(d, scope, name) {
      var i :| 0 <= i < |d| && d[i].scope == scope && Named(d[i], name);
      assert ([a] + d)[i + 1] == d[i];
    }
  }

  /** Why 64K: a block that begins beyond them loses the offset, and the next variable
      is laid over the first. */
  lemma LargeFrameOverlaps(st: St)
    requires st.scope == 0 && st.decls == []
    ensures
      var d := Inside([], [Var("a", 65536), Block([]), Var("b", 2)], st).decls;
      |d| == 2 && Held(d[0]) && Held(d[1]) && !Apart(d[0], d[1])
  {
    var st1 := OpenScope(st.(offset := 0, maxoffset := 0));
    var body := [Var("a", 65536), Block([]), Var("b", 2)];
    var st2 := DeclareVar(st1, "a", 65536);
    ItemGrows(Block([]), st2);
    var st3 := Compile(Block([]), st2);
    assert body[1..][0] == Block([]) && body[1..][1..] == [Var("b", 2)] && body[1..][1..][1..] == [];
    assert st2.decls == [Attr("a", false, 1, Variable(-65536, 65536))];
    assert !Declared(st3.decls, 1, "b") by {
      assert forall i :: 0 <= i < |st3.decls| ==> st3.decls[i].name == "a";
      assert "a"[0] != "b"[0];
    }
    assert CompileAll(body[1..][1..], st3) == DeclareVar(st3, "b", 2);
    assert CompileAll(body, st1) == DeclareVar(st3, "b", 2);
  }
}
