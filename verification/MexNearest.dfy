/** Which declaration a goto meets: the condition for its target to lie in a block around
    it, read off the source before it is compiled. */
module MexNearest {
  import opened Wrappers
  import opened MexVm
  import opened MexSymbols
  import opened MexScope
  import opened MexGoto
  import opened MexAround

  // ---------------------------------------------------------------- on the source

  /** What a name stands for: a label or something else, in a block around the goto or in
      another one. */
  datatype Known = Known(isLabel: bool, near: bool)

  /** What becomes of a goto while a part of the source behind it is compiled: it is settled
      by a declaration, or still waits; and then, what its name stands for in the block that
      the part is in, if that block declares it. */
  datatype Sight = Caught(k: Known) | Waiting(own: Option<bool>)

  /** The name stands for what the block itself declares, or for what is outside. */
  function Visible(outer: Option<Known>, own: Option<bool>, near: bool): Option<Known> {
    if own.Some? then Some(Known(own.value, near)) else outer
  }

  /** The first declaration of a name in a block is the one that counts. */
  function Own(item: Item, name: string, own: Option<bool>): Option<bool> {
    match item
    case Var(n, _) => if n == name && own.None? then Some(false) else own
    case LabelAt(n) => if n == name && own.None? then Some(true) else own
    case _ => own
  }

  function OwnAll(items: seq<Item>, name: string, own: Option<bool>): Option<bool> {
    if items == [] then own else OwnAll(items[1..], name, Own(items[0], name, own))
  }

  /** Going on behind the goto in a block, which is around it or not, and room levels above
      its own: wherever a block no deeper than the goto's closes, the goto takes what its
      name stands for there. */
  function Scan(items: seq<Item>, name: string, outer: Option<Known>, own: Option<bool>, near: bool, room: nat): Sight
    decreases items
  {
    if items == [] then Waiting(own)
    else
      var s := ScanItem(items[0], name, outer, own, near, room);
      if s.Caught? then s else Scan(items[1..], name, outer, s.own, near, room)
  }

  function ScanItem(item: Item, name: string, outer: Option<Known>, own: Option<bool>, near: bool, room: nat): Sight
    decreases item
  {
    match item
    case Block(items) =>
      if room == 0 then Waiting(own)
      else
        var vis := Visible(outer, own, near);
        var s := AtClose(Scan(items, name, vis, None, false, room - 1), vis, false);
        if s.Some? then Caught(s.value) else Waiting(own)
    case _ => Waiting(Own(item, name, own))
  }

  /** When the block closes. */
  function AtClose(s: Sight, outer: Option<Known>, near: bool): Option<Known> {
    match s
    case Caught(k) => Some(k)
    case Waiting(own) => Visible(outer, own, near)
  }

  /** A goto within blocks: what comes before and after it in each, the innermost first. */
  type Nest = seq<(seq<Item>, seq<Item>)>

  /** The items of the outermost of the blocks. */
  function Whole(fs: Nest, name: string): seq<Item>
    requires fs != []
  {
    var n := |fs| - 1;
    fs[n].0 + ([if n == 0 then Jump(name) else Block(Whole(fs[..n], name))] + fs[n].1)
  }

  /** What the goto meets until the outermost of the blocks is about to close. */
  function Meets(fs: Nest, name: string, outer: Option<Known>, own: Option<bool>): Sight
    requires fs != []
  {
    var n := |fs| - 1;
    var before := OwnAll(fs[n].0, name, own);
    var vis := Visible(outer, before, true);
    var s := if n == 0 then None else AtClose(Meets(fs[..n], name, vis, None), vis, true);
    if s.Some? then Caught(s.value) else Scan(fs[n].1, name, outer, before, true, n)
  }

  /** Where the goto stands, counted in quads from the beginning of the outermost block. */
  function Depth(fs: Nest): nat {
    if fs == [] then 0 else AllSize(fs[|fs| - 1].0) + Depth(fs[..|fs| - 1])
  }

  // ---------------------------------------------------------------- on the compiler's state

  /** The table says of the name what is known of it, low being the lowest scope since the
      goto. */
  predicate Tells(d: seq<Attr>, scope: nat, name: string, outer: Option<Known>, own: Option<bool>, low: nat) {
    && Under(d, scope) && (Declared(d, scope, name) <==> own.Some?)
    && var a := Lookup(d, name);
       if own.Some? then a.Some? && a.value.scope == scope && a.value.what.Label? == own.value
       else if outer.Some? then
         && a.Some? && a.value.scope < scope && a.value.what.Label? == outer.value.isLabel
         && (a.value.scope <= low <==> outer.value.near)
       else a.None?
  }

  /** The goto still waits, and low is the lowest scope since. */
  predicate Waits(st: St, v: Watch, g: Goto, low: nat) {
    g in st.gstack && g.quad < |st.quads| && g.quad in v.low && v.low[g.quad] == low
  }

  /** The goto has been settled by such a declaration. */
  ghost predicate Took(st: St, v: Watch, g: Goto, k: Known) {
    if !k.isLabel then NotALabel(g) in st.reports
    else exists i :: 0 <= i < |v.settled| && v.settled[i].g == g && (v.settled[i].found <= v.settled[i].low <==> k.near)
  }

  ghost predicate Stands(st: St, v: Watch, g: Goto, s: Sight, name: string, outer: Option<Known>, low: nat) {
    match s
    case Caught(k) => Took(st, v, g, k)
    case Waiting(own) => Waits(st, v, g, low) && Tells(st.decls, st.scope, name, outer, own, low)
  }

  // ---------------------------------------------------------------- closing a scope

  lemma {:induction false} TookAll(gs: seq<Goto>, st: St, v: Watch, g: Goto, k: Known)
    requires Took(st, v, g, k)
    ensures Took(PatchAll(gs, st), WatchAll(gs, st, v), g, k)
    decreases gs
  {
    if gs != [] {
      TookOne(gs[0], st, v, g, k);
      TookAll(gs[1..], PatchOne(gs[0], st), WatchOne(gs[0], st, v), g, k);
    }
  }

  lemma TookOne(h: Goto, st: St, v: Watch, g: Goto, k: Known)
    requires Took(st, v, g, k)
    ensures Took(PatchOne(h, st), WatchOne(h, st, v), g, k)
  {
    if k.isLabel {
      var i :| 0 <= i < |v.settled| && v.settled[i].g == g && (v.settled[i].found <= v.settled[i].low <==> k.near);
      assert WatchOne(h, st, v).settled[i] == v.settled[i];
    }
  }

  /** What the table holds of its name when a scope closes is what the goto takes. */
  lemma {:induction false} TakesAll(gs: seq<Goto>, st: St, v: Watch, g: Goto, a: Attr, k: Known)
    requires g in gs && g.scope >= st.scope && Lookup(st.decls, g.name) == Some(a) && g.quad in v.low
    requires k == Known(a.what.Label?, a.scope <= v.low[g.quad])
    ensures Took(PatchAll(gs, st), WatchAll(gs, st, v), g, k)
    decreases gs
  {
    var st1, v1 := PatchOne(gs[0], st), WatchOne(gs[0], st, v);
    if gs[0] == g {
      if k.isLabel {
        assert v1.settled[|v.settled|].g == g;
      }
      TookAll(gs[1..], st1, v1, g, k);
    } else {
      WatchOneSame(gs[0], st, v);
      TakesAll(gs[1..], st1, v1, g, a, k);
    }
  }

  lemma {:induction false} KeepsAll(gs: seq<Goto>, st: St, g: Goto)
    requires g in gs || g in st.gstack
    requires g.scope < st.scope || Lookup(st.decls, g.name).None?
    ensures g in PatchAll(gs, st).gstack
    decreases gs
  {
    if gs != [] {
      KeepsAll(gs[1..], PatchOne(gs[0], st), g);
    }
  }

  lemma TookClose(st: St, v: Watch, g: Goto, k: Known)
    requires st.scope >= 1 && Took(st, v, g, k)
    ensures Took(CloseScope(st), WatchClose(st, v), g, k)
  {
    var st0 := st.(gstack := []);
    TookAll(st.gstack, st0, v, g, k);
    if k.isLabel {
      var v1 := WatchAll(st.gstack, st0, v);
      var i :| 0 <= i < |v1.settled| && v1.settled[i].g == g && (v1.settled[i].found <= v1.settled[i].low <==> k.near);
      assert WatchClose(st, v).settled[i] == v1.settled[i];
    }
  }

  lemma TakesClose(st: St, v: Watch, g: Goto, a: Attr, k: Known)
    requires st.scope >= 1 && g in st.gstack && g.scope >= st.scope && Lookup(st.decls, g.name) == Some(a) && g.quad in v.low
    requires k == Known(a.what.Label?, a.scope <= v.low[g.quad])
    ensures Took(CloseScope(st), WatchClose(st, v), g, k)
  {
    var st0 := st.(gstack := []);
    TakesAll(st.gstack, st0, v, g, a, k);
    if k.isLabel {
      var v1 := WatchAll(st.gstack, st0, v);
      var i :| 0 <= i < |v1.settled| && v1.settled[i].g == g && (v1.settled[i].found <= v1.settled[i].low <==> k.near);
      assert WatchClose(st, v).settled[i] == v1.settled[i];
    }
  }

  /** A goto whose name means nothing yet, or that is too far out, stays on the list. */
  lemma KeepsClose(st: St, v: Watch, g: Goto)
    requires st.scope >= 2 && g in st.gstack && g.quad in v.low && (g.scope < st.scope || Lookup(st.decls, g.name).None?)
    ensures var v2 := WatchClose(st, v);
            g in CloseScope(st).gstack && g.quad in v2.low && v2.low[g.quad] == Min(v.low[g.quad], st.scope - 1)
  {
    KeepsAll(st.gstack, st.(gstack := []), g);
    WatchAllSame(st.gstack, st.(gstack := []), v);
  }

  /** A scope that closes inside a function, for a goto no further out. */
  lemma Closes(st: St, v: Watch, g: Goto, s: Sight, outer: Option<Known>, near: bool, low: nat)
    requires st.scope >= 2 && g.scope >= st.scope && Stands(st, v, g, s, g.name, outer, low) && (near <==> st.scope <= low)
    ensures var c := AtClose(s, outer, near);
            if c.Some? then Took(CloseScope(st), WatchClose(st, v), g, c.value)
            else Waits(CloseScope(st), WatchClose(st, v), g, Min(low, st.scope - 1))
  {
    match s
    case Caught(k) => TookClose(st, v, g, k);
    case Waiting(own) =>
      var a := Lookup(st.decls, g.name);
      if a.Some? {
        TakesClose(st, v, g, a.value, Known(a.value.what.Label?, a.value.scope <= low));
      } else {
        KeepsClose(st, v, g);
      }
  }

  // ---------------------------------------------------------------- what does not concern the goto

  lemma {:induction false} TookItem(item: Item, st: St, v: Watch, g: Goto, k: Known)
    requires Took(st, v, g, k)
    ensures Took(Compile(item, st), WatchItem(item, st, v), g, k)
    decreases item
  {
    match item {
      case Block(items) =>
        TookBody(items, OpenScope(st), WatchOpen(v), g, k);
        var mid, mid2, v1 := WatchBlockIs(items, st, v);
        TookClose(mid2, v1, g, k);
      case _ =>
    }
  }

  lemma {:induction false} TookBody(items: seq<Item>, st: St, v: Watch, g: Goto, k: Known)
    requires Took(st, v, g, k)
    ensures Took(CompileAll(items, st), WatchBody(items, st, v), g, k)
    decreases items
  {
    if items != [] {
      TookItem(items[0], st, v, g, k);
      TookBody(items[1..], Compile(items[0], st), WatchItem(items[0], st, v), g, k);
    }
  }

  /** In a block deeper than its own the goto just waits. */
  lemma {:induction false} DeepItem(item: Item, st: St, v: Watch, g: Goto, low: nat)
    requires Waits(st, v, g, low) && g.scope < st.scope && 1 <= low < st.scope
    ensures Waits(Compile(item, st), WatchItem(item, st, v), g, low)
    decreases item
  {
    match item {
      case Block(items) =>
        DeepBody(items, OpenScope(st), WatchOpen(v), g, low);
        var mid, mid2, v1 := WatchBlockIs(items, st, v);
        KeepsClose(mid2, v1, g);
      case _ =>
    }
  }

  lemma {:induction false} DeepBody(items: seq<Item>, st: St, v: Watch, g: Goto, low: nat)
    requires Waits(st, v, g, low) && g.scope < st.scope && 1 <= low < st.scope
    ensures Waits(CompileAll(items, st), WatchBody(items, st, v), g, low)
    decreases items
  {
    if items != [] {
      DeepItem(items[0], st, v, g, low);
      DeepBody(items[1..], Compile(items[0], st), WatchItem(items[0], st, v), g, low);
    }
  }

  // ---------------------------------------------------------------- what the table tells

  lemma TellsEnter(st: St, name: string, outer: Option<Known>, own: Option<bool>, low: nat, other: string, what: Entity)
    requires Tells(st.decls, st.scope, name, outer, own, low)
    ensures Tells(Enter(st, other, what).decls, st.scope, name, outer,
                  if other == name && own.None? then Some(what.Label?) else own, low)
  {
    var r := Enter(st, other, what);
    if !Declared(st.decls, st.scope, other) {
      assert Named(r.decls[0], other) && r.decls[1..] == st.decls;
      assert Declared(r.decls, st.scope, name) <==> other == name || Declared(st.decls, st.scope, name) by {
        if Declared(st.decls, st.scope, name) {
          var i :| 0 <= i < |st.decls| && Named(st.decls[i], name) && st.decls[i].scope == st.scope;
          assert r.decls[i + 1] == st.decls[i];
        }
      }
    }
  }

  lemma TellsItem(item: Item, st: St, name: string, outer: Option<Known>, own: Option<bool>, low: nat)
    requires st.scope >= 1 && Tells(st.decls, st.scope, name, outer, own, low)
    ensures Tells(Compile(item, st).decls, st.scope, name, outer, Own(item, name, own), low)
  {
    match item {
      case Var(n, size) => TellsEnter(st, name, outer, own, low, n, Variable(-(st.offset + size), size));
      case LabelAt(n) => TellsEnter(st, name, outer, own, low, n, Label(|st.quads|));
      case Block(items) => ItemGrows(item, st);
      case _ =>
    }
  }

  lemma {:induction false} TellsAll(items: seq<Item>, st: St, name: string, outer: Option<Known>, own: Option<bool>, low: nat)
    requires st.scope >= 1 && Tells(st.decls, st.scope, name, outer, own, low)
    ensures Tells(CompileAll(items, st).decls, st.scope, name, outer, OwnAll(items, name, own), low)
    decreases items
  {
    if items != [] {
      TellsItem(items[0], st, name, outer, own, low);
      TellsAll(items[1..], Compile(items[0], st), name, outer, Own(items[0], name, own), low);
    }
  }

  /** What the table tells at the beginning of a block. */
  lemma TellsOpen(d: seq<Attr>, scope: nat, name: string, outer: Option<Known>, own: Option<bool>, near: bool, low: nat, low2: nat)
    requires Tells(d, scope, name, outer, own, low) && (near <==> scope <= low)
    requires low2 == low || (low2 == scope + 1 && near && (outer.Some? ==> outer.value.near))
    ensures Tells(d, scope + 1, name, Visible(outer, own, near), None, low2)
  {
  }

  // ---------------------------------------------------------------- behind the goto

  lemma {:induction false} ScanItemRight(item: Item, st: St, v: Watch, g: Goto, outer: Option<Known>, own: Option<bool>, near: bool,
                                         room: nat, low: nat)
    requires 1 <= low <= st.scope && g.scope == st.scope + room && Waits(st, v, g, low) && (near <==> st.scope <= low)
    requires Tells(st.decls, st.scope, g.name, outer, own, low)
    ensures Stands(Compile(item, st), WatchItem(item, st, v), g, ScanItem(item, g.name, outer, own, near, room), g.name, outer, low)
    decreases item, 0
  {
    TellsItem(item, st, g.name, outer, own, low);
    match item {
      case Block(items) => ScanBlockRight(items, st, v, g, outer, own, near, room, low);
      case _ =>
    }
  }

  lemma {:induction false} ScanBlockRight(items: seq<Item>, st: St, v: Watch, g: Goto, outer: Option<Known>, own: Option<bool>, near: bool,
                                          room: nat, low: nat)
    requires 1 <= low <= st.scope && g.scope == st.scope + room && Waits(st, v, g, low) && (near <==> st.scope <= low)
    requires Tells(st.decls, st.scope, g.name, outer, own, low)
    ensures var item := Block(items);
            Stands(Compile(item, st), WatchItem(item, st, v), g, ScanItem(item, g.name, outer, own, near, room), g.name, outer, low)
    decreases items, 2
  {
    ItemGrows(Block(items), st);
    var r, w := Compile(Block(items), st), WatchItem(Block(items), st, v);
    assert Tells(r.decls, r.scope, g.name, outer, own, low);
    var c: Option<Known> := None;
    if room == 0 {
      DeepBlock(items, st, v, g, low);
    } else {
      c := NearBlock(items, st, v, g, outer, own, near, room, low);
    }
    StandsSo(r, w, g, c, outer, own, low);
    ScanOfBlock(items, g.name, outer, own, near, room, c);
  }

  lemma StandsSo(r: St, w: Watch, g: Goto, c: Option<Known>, outer: Option<Known>, own: Option<bool>, low: nat)
    requires if c.Some? then Took(r, w, g, c.value) else Waits(r, w, g, low) && Tells(r.decls, r.scope, g.name, outer, own, low)
    ensures Stands(r, w, g, if c.Some? then Caught(c.value) else Waiting(own), g.name, outer, low)
  {
  }

  lemma {:induction false} ScanOfBlock(items: seq<Item>, name: string, outer: Option<Known>, own: Option<bool>, near: bool, room: nat,
                                       c: Option<Known>)
    requires var vis := Visible(outer, own, near);
             c == if room == 0 then None else AtClose(Scan(items, name, vis, None, false, room - 1), vis, false)
    ensures ScanItem(Block(items), name, outer, own, near, room) == if c.Some? then Caught(c.value) else Waiting(own)
  {
  }

  /** A block deeper than the goto's own, behind it. */
  lemma DeepBlock(items: seq<Item>, st: St, v: Watch, g: Goto, low: nat)
    requires Waits(st, v, g, low) && g.scope == st.scope && 1 <= low <= st.scope
    ensures Waits(Compile(Block(items), st), WatchItem(Block(items), st, v), g, low)
  {
    DeepBody(items, OpenScope(st), WatchOpen(v), g, low);
    var mid, mid2, v1 := WatchBlockIs(items, st, v);
    KeepsClose(mid2, v1, g);
  }

  /** A block no deeper than the goto's own, behind it. */
  lemma {:induction false} NearBlock(items: seq<Item>, st: St, v: Watch, g: Goto, outer: Option<Known>, own: Option<bool>, near: bool,
                                     room: nat, low: nat) returns (c: Option<Known>)
    requires 1 <= low <= st.scope && g.scope == st.scope + room && Waits(st, v, g, low) && (near <==> st.scope <= low) && room > 0
    requires Tells(st.decls, st.scope, g.name, outer, own, low)
    ensures var vis := Visible(outer, own, near);
            c == AtClose(Scan(items, g.name, vis, None, false, room - 1), vis, false)
    ensures var item := Block(items);
            if c.Some? then Took(Compile(item, st), WatchItem(item, st, v), g, c.value)
            else Waits(Compile(item, st), WatchItem(item, st, v), g, low)
    decreases items, 1
  {
    var vis := Visible(outer, own, near);
    TellsOpen(st.decls, st.scope, g.name, outer, own, near, low, low);
    ScanRight(items, OpenScope(st), WatchOpen(v), g, vis, None, false, room - 1, low);
    var mid, mid2, v1 := WatchBlockIs(items, st, v);
    ScanClose(items, mid, mid2, v1, g, vis, room, low);
    c := AtClose(Scan(items, g.name, vis, None, false, room - 1), vis, false);
  }

  lemma ScanClose(items: seq<Item>, mid: St, mid2: St, v: Watch, g: Goto, vis: Option<Known>, room: nat, low: nat)
    requires room > 0 && mid.scope >= 2 && g.scope >= mid.scope && low < mid.scope && mid2 == mid.(offset := mid2.offset)
    requires Stands(mid, v, g, Scan(items, g.name, vis, None, false, room - 1), g.name, vis, low)
    ensures var c := AtClose(Scan(items, g.name, vis, None, false, room - 1), vis, false);
            if c.Some? then Took(CloseScope(mid2), WatchClose(mid2, v), g, c.value)
            else Waits(CloseScope(mid2), WatchClose(mid2, v), g, low)
  {
    Closes(mid2, v, g, Scan(items, g.name, vis, None, false, room - 1), vis, false, low);
  }

  lemma {:induction false} ScanRight(items: seq<Item>, st: St, v: Watch, g: Goto, outer: Option<Known>, own: Option<bool>, near: bool,
                                     room: nat, low: nat)
    requires 1 <= low <= st.scope && g.scope == st.scope + room && Waits(st, v, g, low) && (near <==> st.scope <= low)
    requires Tells(st.decls, st.scope, g.name, outer, own, low)
    ensures Stands(CompileAll(items, st), WatchBody(items, st, v), g, Scan(items, g.name, outer, own, near, room), g.name, outer, low)
    decreases items, 0
  {
    if items != [] {
      ScanItemRight(items[0], st, v, g, outer, own, near, room, low);
      var s := ScanItem(items[0], g.name, outer, own, near, room);
      if s.Caught? {
        TookBody(items[1..], Compile(items[0], st), WatchItem(items[0], st, v), g, s.k);
      } else {
        ScanRight(items[1..], Compile(items[0], st), WatchItem(items[0], st, v), g, outer, s.own, near, room, low);
      }
    }
  }

  // ---------------------------------------------------------------- the goto and the blocks around it

  lemma {:induction false} WatchJoin(a: seq<Item>, b: seq<Item>, st: St, v: Watch)
    ensures WatchBody(a + b, st, v) == WatchBody(b, CompileAll(a, st), WatchBody(a, st, v))
    decreases a
  {
    if a == [] {
      assert a + b == b;
    } else {
      assert (a + b)[0] == a[0] && (a + b)[1..] == a[1..] + b;
      WatchJoin(a[1..], b, Compile(a[0], st), WatchItem(a[0], st, v));
    }
  }

  lemma OneThen(x: Item, post: seq<Item>, st: St, v: Watch)
    ensures CompileAll([x] + post, st) == CompileAll(post, Compile(x, st))
    ensures WatchBody([x] + post, st, v) == WatchBody(post, Compile(x, st), WatchItem(x, st, v))
  {
    assert ([x] + post)[0] == x && ([x] + post)[1..] == post;
  }

  /** Wherever the goto is, the compiler does with it what the source says, up to the close
      of the outermost block. */
  lemma {:induction false} MeetsRight(fs: Nest, st: St, v: Watch, name: string, outer: Option<Known>, own: Option<bool>, g: Goto)
    requires fs != [] && st.scope >= 1 && Tells(st.decls, st.scope, name, outer, own, st.scope)
    requires outer.Some? ==> outer.value.near
    requires g == Goto(name, |st.quads| + Depth(fs), st.scope + |fs| - 1)
    ensures Stands(CompileAll(Whole(fs, name), st), WatchBody(Whole(fs, name), st, v), g, Meets(fs, name, outer, own), name, outer, st.scope)
    decreases |fs|
  {
    var n, d := |fs| - 1, st.scope;
    var pre, post := fs[n].0, fs[n].1;
    var x := if n == 0 then Jump(name) else Block(Whole(fs[..n], name));
    var st1, v1 := CompileAll(pre, st), WatchBody(pre, st, v);
    var before := OwnAll(pre, name, own);
    TellsAll(pre, st, name, outer, own, d);
    AllSizeIs(pre, st);
    CompileJoin(pre, [x] + post, st);
    WatchJoin(pre, [x] + post, st, v);
    OneThen(x, post, st1, v1);
    var st2, v2 := Compile(x, st1), WatchItem(x, st1, v1);
    var s: Option<Known> := None;
    if n > 0 {
      s := InnerRight(fs, st1, v1, name, outer, before, g);
      ItemGrows(x, st1);
    }
    PostRight(post, st2, v2, g, outer, before, n, s);
  }

  /** What follows in the outermost block. */
  lemma PostRight(post: seq<Item>, st: St, v: Watch, g: Goto, outer: Option<Known>, own: Option<bool>, n: nat, s: Option<Known>)
    requires st.scope >= 1 && g.scope == st.scope + n
    requires if s.Some? then Took(st, v, g, s.value) else Waits(st, v, g, st.scope) && Tells(st.decls, st.scope, g.name, outer, own, st.scope)
    ensures Stands(CompileAll(post, st), WatchBody(post, st, v), g,
                   if s.Some? then Caught(s.value) else Scan(post, g.name, outer, own, true, n), g.name, outer, st.scope)
  {
    if s.Some? {
      TookBody(post, st, v, g, s.value);
    } else {
      ScanRight(post, st, v, g, outer, own, true, n, st.scope);
    }
  }

  /** The block that the goto is in, up to its close. */
  lemma {:induction false} InnerRight(fs: Nest, st: St, v: Watch, name: string, outer: Option<Known>, own: Option<bool>, g: Goto)
    returns (s: Option<Known>)
    requires |fs| > 1 && st.scope >= 1 && Tells(st.decls, st.scope, name, outer, own, st.scope) && (outer.Some? ==> outer.value.near)
    requires g == Goto(name, |st.quads| + Depth(fs[..|fs| - 1]), st.scope + |fs| - 1)
    ensures var inner, vis := fs[..|fs| - 1], Visible(outer, own, true);
            && s == AtClose(Meets(inner, name, vis, None), vis, true)
            && var x := Block(Whole(inner, name));
               if s.Some? then Took(Compile(x, st), WatchItem(x, st, v), g, s.value)
               else Waits(Compile(x, st), WatchItem(x, st, v), g, st.scope)
    decreases |fs|, 0
  {
    var inner, d := fs[..|fs| - 1], st.scope;
    var vis := Visible(outer, own, true);
    TellsOpen(st.decls, d, name, outer, own, true, d, d + 1);
    MeetsRight(inner, OpenScope(st), WatchOpen(v), name, vis, None, g);
    var mid, mid2, v1 := WatchBlockIs(Whole(inner, name), st, v);
    var m := Meets(inner, name, vis, None);
    s := AtClose(m, vis, true);
    Closes(mid2, v1, g, m, vis, true, d + 1);
  }

  // ---------------------------------------------------------------- a whole function

  /** What a global name stands for, which is never a label. */
  function Global(d: seq<Attr>, name: string): Option<Known> {
    if Lookup(d, name).Some? then Some(Known(false, true)) else None
  }

  function OwnArgs(args: seq<(string, nat)>, name: string, own: Option<bool>): Option<bool> {
    if args == [] then own else OwnArgs(args[1..], name, if args[0].0 == name && own.None? then Some(false) else own)
  }

  /** What a goto within the blocks of a function's body takes, if anything. */
  function MeetsInFunction(args: seq<(string, nat)>, fs: Nest, name: string, d: seq<Attr>): Option<Known>
    requires fs != []
  {
    var outer := Global(d, name);
    AtClose(Meets(fs, name, outer, OwnArgs(args, name, None)), outer, true)
  }

  lemma {:induction false} TellsArgs(args: seq<(string, nat)>, ofs: nat, st: St, name: string, outer: Option<Known>, own: Option<bool>)
    requires st.scope == 1 && Tells(st.decls, 1, name, outer, own, 1)
    ensures Tells(EnterArgs(args, ofs, st).decls, 1, name, outer, OwnArgs(args, name, own), 1)
    decreases args
  {
    if args != [] {
      var what := Argument(ofs, args[0].1);
      var r := Enter(st, args[0].0, what);
      TellsEnter(st, name, outer, own, 1, args[0].0, what);
      TellsArgs(args[1..], if r.decls == st.decls then ofs else ofs + args[0].1, r, name, outer,
                if args[0].0 == name && own.None? then Some(false) else own);
    }
  }

  lemma TellsFirst(st: St, name: string)
    requires Outside(st.decls) && Idle(st)
    ensures Tells(st.decls, 1, name, Global(st.decls, name), None, 1)
  {
    if Lookup(st.decls, name).Some? { var k := LookupFirst(st.decls, name); }
  }

  lemma {:induction false} InUndefined(gs: seq<Goto>, g: Goto)
    requires g in gs
    ensures Undefined(g) in AllUndefined(gs)
  {
    if gs[0] != g { InUndefined(gs[1..], g); }
  }

  /** The function's own scope closes. */
  lemma LastCloses(st: St, v: Watch, g: Goto, s: Sight, outer: Option<Known>)
    requires st.scope == 1 && g.scope >= 1 && Stands(st, v, g, s, g.name, outer, 1)
    ensures var c := AtClose(s, outer, true);
            if c.Some? then Took(CloseScope(st), WatchClose(st, v), g, c.value) else Undefined(g) in CloseScope(st).reports
  {
    match s
    case Caught(k) => TookClose(st, v, g, k);
    case Waiting(own) =>
      var a := Lookup(st.decls, g.name);
      if a.Some? {
        TakesClose(st, v, g, a.value, Known(a.value.what.Label?, a.value.scope <= 1));
      } else {
        KeepsAll(st.gstack, st.(gstack := []), g);
        InUndefined(PatchAll(st.gstack, st.(gstack := [])).gstack, g);
      }
  }

  lemma FirstMeets(args: seq<(string, nat)>, fs: Nest, name: string, st: St, g: Goto)
    requires st.scope == 0 && Outside(st.decls) && Idle(st) && fs != [] && g == Goto(name, |st.quads| + Depth(fs), |fs|)
    ensures var body, c := Whole(fs, name), MeetsInFunction(args, fs, name, st.decls);
            if c.Some? then Took(Function(args, body, st), WatchFunction(args, body, st), g, c.value)
            else Undefined(g) in Function(args, body, st).reports
  {
    var st1 := OpenScope(st.(offset := 0, maxoffset := 0));
    var st2 := EnterArgs(args, AR_CONTROL_DATA, st1);
    var v1 := Watch([0], 1, map[], map[], []);
    var outer, own := Global(st.decls, name), OwnArgs(args, name, None);
    TellsFirst(st, name);
    TellsArgs(args, AR_CONTROL_DATA, st1, name, outer, None);
    MeetsRight(fs, st2, v1, name, outer, own, g);
    var mid, v2 := Inside(args, Whole(fs, name), st), WatchBody(Whole(fs, name), st2, v1);
    LastCloses(mid.(offset := 0), v2, g, Meets(fs, name, outer, own), outer);
  }

  /** What becomes of a goto, wherever it is in a function, and whatever came before.  If it
      meets a label, it is given that label, which is in a block around it if and only if
      the source says so; if it meets another declaration, or none, it is refused. */
  lemma FunctionMeets(args: seq<(string, nat)>, fs: Nest, name: string, st: St, g: Goto) returns (v: Watch)
    requires st.scope == 0 && Outside(st.decls) && Idle(st) && fs != [] && g == Goto(name, |st.quads| + Depth(fs), |fs|)
    ensures var r := Function(args, Whole(fs, name), st);
            var c := MeetsInFunction(args, fs, name, st.decls);
            && |r.patches| >= |st.patches| && Paired(r.patches[|st.patches|..], v.settled)
            && (c.None? ==> Undefined(g) in r.reports)
            && (c.Some? && !c.value.isLabel ==> NotALabel(g) in r.reports)
            && (c.Some? && c.value.isLabel ==>
                  exists i :: 0 <= i < |v.settled| && v.settled[i].g == g && g.quad in v.around
                              && (v.settled[i].home in v.around[g.quad] <==> c.value.near))
  {
    var body, st0 := Whole(fs, name), st.(patches := [], reports := []);
    v := FunctionAround(args, body, st);
    assert Onto(st0, st.patches, st.reports) == st;
    FunctionOnto(args, body, st0, st.patches, st.reports);
    FirstMeets(args, fs, name, st0, g);
    var c := MeetsInFunction(args, fs, name, st.decls);
    if c.Some? && c.value.isLabel {
      var i :| 0 <= i < |v.settled| && v.settled[i].g == g && (v.settled[i].found <= v.settled[i].low <==> c.value.near);
      assert Explained(v, v.settled[i]);
    }
  }
}
