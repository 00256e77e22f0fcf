/** Names declared twice: which ones the compiler reports, read off the source. */
module MexRepeats {
  import opened Wrappers
  import opened MexVm
  import opened MexSymbols
  import opened MexScope

  // ---------------------------------------------------------------- the source

  /** The repeated names in a part of a block in which these names are declared so far, in
      order.  Variables, arguments and labels share the names of a block. */
  function Told(item: Item, names: set<string>): seq<string>
    decreases item
  {
    match item
    case Var(name, _) => if name in names then [name] else []
    case LabelAt(name) => if name in names then [name] else []
    case Block(items) => AllTold(items, {})
    case _ => []
  }

  function Grow(item: Item, names: set<string>): set<string> {
    match item
    case Var(name, _) => names + {name}
    case LabelAt(name) => names + {name}
    case _ => names
  }

  function AllTold(items: seq<Item>, names: set<string>): seq<string>
    decreases items
  {
    if items == [] then [] else Told(items[0], names) + AllTold(items[1..], Grow(items[0], names))
  }

  /** Arguments are declared like the variables of the function's own block. */
  function ArgItems(args: seq<(string, nat)>): seq<Item> {
    if args == [] then [] else [Var(args[0].0, args[0].1)] + ArgItems(args[1..])
  }

  // ---------------------------------------------------------------- the reports

  /** The names reported to be repeated. */
  function Dupes(rs: seq<Report>): seq<string> {
    if rs == [] then []
    else Dupes(rs[..|rs| - 1]) + if rs[|rs| - 1].Redeclared? then [rs[|rs| - 1].name] else []
  }

  ghost predicate Names(st: St, names: set<string>) {
    forall n :: n in names <==> Declared(st.decls, st.scope, n)
  }

  lemma DupesOne(rs: seq<Report>, r: Report)
    ensures Dupes(rs + [r]) == Dupes(rs) + if r.Redeclared? then [r.name] else []
  {
    assert (rs + [r])[..|rs|] == rs;
  }

  lemma {:induction false} DupesUndefined(rs: seq<Report>, gs: seq<Goto>)
    ensures Dupes(rs + AllUndefined(gs)) == Dupes(rs)
    decreases gs
  {
    if gs == [] {
      assert rs + [] == rs;
    } else {
      assert rs + AllUndefined(gs) == rs + [Undefined(gs[0])] + AllUndefined(gs[1..]);
      DupesUndefined(rs + [Undefined(gs[0])], gs[1..]);
      DupesOne(rs, Undefined(gs[0]));
    }
  }

  lemma {:induction false} DupesPatched(gs: seq<Goto>, st: St)
    ensures Dupes(PatchAll(gs, st).reports) == Dupes(st.reports)
    decreases gs
  {
    if gs != [] {
      DupesOne(st.reports, NotALabel(gs[0]));
      DupesPatched(gs[1..], PatchOne(gs[0], st));
    }
  }

  /** Closing a scope reports gotos only. */
  lemma DupesClosed(st: St)
    requires st.scope >= 1
    ensures Dupes(CloseScope(st).reports) == Dupes(st.reports)
  {
    var r := PatchAll(st.gstack, st.(gstack := []));
    DupesPatched(st.gstack, st.(gstack := []));
    DupesUndefined(r.reports, r.gstack);
  }

  lemma EnterNames(st: St, name: string, what: Entity, names: set<string>)
    requires Names(st, names)
    ensures
      var r := Enter(st, name, what);
      && Names(r, names + {name})
      && Dupes(r.reports) == Dupes(st.reports) + if name in names then [name] else []
  {
    DupesOne(st.reports, Redeclared(name));
    var r, a := Enter(st, name, what), Attr(name, false, st.scope, what);
    forall n | n != name ensures Declared(r.decls, st.scope, n) <==> Declared(st.decls, st.scope, n) {
      OthersDeclared(a, st.decls, st.scope, n);
    }
    if name !in names { assert Named(r.decls[0], name); }
  }

  // ---------------------------------------------------------------- compiling

  lemma {:induction false} ItemTold(item: Item, st: St, names: set<string>)
    requires st.scope >= 1 && Under(st.decls, st.scope) && Names(st, names)
    ensures Dupes(Compile(item, st).reports) == Dupes(st.reports) + Told(item, names)
    ensures Names(Compile(item, st), Grow(item, names))
    decreases item, 0
  {
    match item {
      case Var(name, size) => EnterNames(st, name, Variable(-(st.offset + size), size), names);
      case LabelAt(name) => EnterNames(st, name, Label(|st.quads|), names);
      case Block(items) => BlockTold(items, st, names);
      case _ =>
    }
  }

  lemma {:induction false} BlockTold(items: seq<Item>, st: St, names: set<string>)
    requires st.scope >= 1 && Under(st.decls, st.scope) && Names(st, names)
    ensures Dupes(Compile(Block(items), st).reports) == Dupes(st.reports) + AllTold(items, {})
    ensures Names(Compile(Block(items), st), names)
    decreases items, 1
  {
    var mid := BlockIs(items, st);
    ItemGrows(Block(items), st);
    BodyTold(items, OpenScope(st), {});
    DupesClosed(mid.(offset := Compile(Block(items), st).offset));
  }

  lemma {:induction false} FirstTold(told: seq<string>, item: Item, rest: seq<Item>, names: set<string>)
    ensures told + AllTold([item] + rest, names) == told + Told(item, names) + AllTold(rest, Grow(item, names))
  {
    assert ([item] + rest)[1..] == rest;
  }

  lemma {:induction false} BodyTold(items: seq<Item>, st: St, names: set<string>)
    requires st.scope >= 1 && Under(st.decls, st.scope) && Names(st, names)
    ensures Dupes(CompileAll(items, st).reports) == Dupes(st.reports) + AllTold(items, names)
    decreases items, 0
  {
    if items != [] {
      var st1 := Compile(items[0], st);
      ItemTold(items[0], st, names);
      ItemGrows(items[0], st);
      GrownUnder(st.decls, st1.decls, st.scope);
      BodyTold(items[1..], st1, Grow(items[0], names));
      assert items == [items[0]] + items[1..];
      FirstTold(Dupes(st.reports), items[0], items[1..], names);
    }
  }

  lemma {:induction false} ArgsFirst(args: seq<(string, nat)>, body: seq<Item>)
    requires args != []
    ensures ArgItems(args) + body == [Var(args[0].0, args[0].1)] + (ArgItems(args[1..]) + body)
  {
  }

  lemma {:induction false} ArgsTold(args: seq<(string, nat)>, ofs: nat, st: St, names: set<string>, body: seq<Item>)
    returns (names2: set<string>)
    requires Names(st, names)
    ensures Names(EnterArgs(args, ofs, st), names2)
    ensures Dupes(EnterArgs(args, ofs, st).reports) + AllTold(body, names2) == Dupes(st.reports) + AllTold(ArgItems(args) + body, names)
    decreases args
  {
    if args == [] {
      names2 := names;
      assert [] + body == body;
    } else {
      var r, item := Enter(st, args[0].0, Argument(ofs, args[0].1)), Var(args[0].0, args[0].1);
      EnterNames(st, args[0].0, Argument(ofs, args[0].1), names);
      var ofs2 := if r.decls == st.decls then ofs else ofs + args[0].1;
      names2 := ArgsTold(args[1..], ofs2, r, Grow(item, names), body);
      assert EnterArgs(args, ofs, st) == EnterArgs(args[1..], ofs2, r);
      ArgsFirst(args, body);
      FirstTold(Dupes(st.reports), item, ArgItems(args[1..]) + body, names);
    }
  }

  /** A name is reported exactly where a block, a function's arguments counting as part of
      its own, declares it again, whatever the blocks around it and inside it declare. */
  lemma RepeatsReported(args: seq<(string, nat)>, body: seq<Item>, st: St)
    requires st.scope == 0 && Outside(st.decls)
    ensures Dupes(Function(args, body, st).reports) == Dupes(st.reports) + AllTold(ArgItems(args) + body, {})
  {
    var st1 := OpenScope(st.(offset := 0, maxoffset := 0));
    var st2, a := ArgsHeld(args, st);
    var names := ArgsTold(args, AR_CONTROL_DATA, st1, {}, body);
    BodyTold(body, st2, names);
    DupesClosed(Inside(args, body, st).(offset := 0));
  }
}
