/** The compiler's routines for blocks, declarations, labels and gotos, as they change
    the symbol table, the counters and the code. */
module MexBlocks {
  import opened Wrappers
  import opened MexVm
  import opened MexPatch
  import opened MexGen
  import opened MexSymbols
  import opened MexScope

  // ---------------------------------------------------------------- order in the table

  /** Entries of an inner scope lie before those of an outer one, but for the nameless
      arguments of earlier functions. */
  predicate Layered(d: seq<Attr>, scope: nat) {
    && Under(d, scope)
    && forall i, j :: 0 <= i < j < |d| && !d[j].gone && d[j].scope >= 1 ==> d[i].scope >= d[j].scope
  }

  lemma LayeredGrown(d: seq<Attr>, d2: seq<Attr>, scope: nat)
    requires Layered(d, scope) && Grown(d, d2, scope)
    ensures Layered(d2, scope)
  {
    GrownUnder(d, d2, scope);
    var k := |d2| - |d|;
    forall i, j | 0 <= i < j < |d2| && !d2[j].gone && d2[j].scope >= 1
      ensures d2[i].scope >= d2[j].scope
    {
      if i < k {
        assert Passing(d2[i], scope);
      } else {
        assert d2[i] == d2[k..][i - k] && d2[j] == d2[k..][j - k];
      }
    }
  }

  lemma LayeredItem(item: Item, st: St)
    requires st.scope >= 1 && Layered(st.decls, st.scope)
    ensures Layered(Compile(item, st).decls, st.scope)
  {
    ItemGrows(item, st);
    LayeredGrown(st.decls, Compile(item, st).decls, st.scope);
  }

  class Blocks {
    const symtab: SymTab
    const gen: Generator
    var scope: nat
    var offset: nat
    var maxoffset: nat
    var gstack: seq<Goto>
    var reports: seq<Report>
    ghost var patches: seq<(Goto, nat)>

    constructor (symtab: SymTab, gen: Generator)
      requires symtab.Valid()
      ensures this.symtab == symtab && this.gen == gen && Valid()
      ensures S() == St(symtab.decls, 0, 0, 0, [], gen.quads, [], [])
    {
      this.symtab, this.gen := symtab, gen;
      scope, offset, maxoffset := 0, 0, 0;
      gstack, reports, patches := [], [], [];
    }

    ghost function S(): St
      reads this, symtab, gen
    {
      St(symtab.decls, scope, offset, maxoffset, gstack, gen.quads, patches, reports)
    }

    ghost predicate Valid()
      reads this, symtab, gen
    {
      symtab.Valid() && forall i :: 0 <= i < |gstack| ==> gstack[i].quad < |gen.quads|
    }

    /** Within a function, the table is searched as it should be. */
    ghost predicate Within()
      reads this, symtab, gen
    {
      Valid() && scope >= 1 && Layered(symtab.decls, scope)
    }

    method EnterName(name: string, what: Entity) returns (present: bool)
      requires Within()
      modifies this`reports, symtab
      ensures Valid() && S() == Enter(old(S()), name, what)
      ensures present <==> old(Declared(symtab.decls, scope, name))
    {
      present := symtab.StEnter(name, scope, what);
      if present {
        reports := reports + [Redeclared(name)];
      }
    }

    method DeclareVars(name: string, size: nat)
      requires Within()
      modifies this`reports, this`offset, this`maxoffset, symtab
      ensures Valid() && S() == DeclareVar(old(S()), name, size)
    {
      var present := EnterName(name, Variable(-(offset + size), size));
      if !present {
        offset := offset + size;
        if offset > maxoffset {
          maxoffset := offset;
        }
      }
    }

    method DeclareLabelHere(name: string)
      requires Within()
      modifies this`reports, symtab
      ensures Valid() && S() == DeclareLabel(old(S()), name)
    {
      var present := EnterName(name, Label(|gen.quads|));
    }

    method ProcessGotoHere(name: string)
      requires Valid()
      modifies this`gstack, gen`quads
      ensures Valid() && S() == ProcessGoto(old(S()), name)
    {
      gstack := [Goto(name, |gen.quads|, scope)] + gstack;
      gen.Generate(QJmp(HOLE));
    }

    /** Walk along the list of gotos, taking out those that are settled. */
    method PatchGotosHere()
      requires Valid()
      modifies this`gstack, this`reports, this`patches, gen`quads
      ensures Valid() && S() == PatchGotos(old(S()))
    {
      var k := 0;
      ghost var target := PatchAll(gstack, S().(gstack := []));
      while k < |gstack|
        invariant 0 <= k <= |gstack| && Valid()
        invariant PatchAll(gstack[k..], S().(gstack := gstack[..k])) == target
        decreases |gstack| - k
      {
        k := PatchNext(k);
      }
      assert gstack[k..] == [] && gstack[..k] == gstack;
      if scope == 1 {
        FlushGotos();
      }
    }

    /** Look at the goto at place k. */
    method PatchNext(k: nat) returns (next: nat)
      requires Valid() && k < |gstack|
      modifies this`gstack, this`reports, this`patches, gen`quads
      ensures Valid() && next <= |gstack| && |gstack| - next < |old(gstack)| - k
      ensures gstack[next..] == old(gstack)[k + 1..]
      ensures S().(gstack := gstack[..next]) == PatchOne(old(gstack)[k], old(S()).(gstack := old(gstack)[..k]))
    {
      var g := gstack[k];
      var a := symtab.StFind(g.name);
      if g.scope >= scope && a.Some? {
        if !a.value.what.Label? {
          reports := reports + [NotALabel(g)];
        } else {
          gen.BackPatch([g.quad], a.value.what.quad);
          patches := patches + [(g, a.value.what.quad)];
          assert gen.quads == Patched(old(gen.quads), g.quad, a.value.what.quad);
        }
        gstack := gstack[..k] + gstack[k + 1..];
        next := k;
      } else {
        next := k + 1;
        assert gstack[..next] == gstack[..k] + [g];
      }
    }

    /** At the end of a function, no goto may be left. */
    method FlushGotos()
      requires Valid()
      modifies this`gstack, this`reports
      ensures Valid() && S() == old(S()).(gstack := [], reports := old(reports) + AllUndefined(old(gstack)))
    {
      var g := 0;
      assert gstack[g..] == gstack;
      while g < |gstack|
        invariant 0 <= g <= |gstack| && gstack == old(gstack)
        invariant reports + AllUndefined(gstack[g..]) == old(reports) + AllUndefined(gstack)
        modifies this`reports
      {
        reports := reports + [Undefined(gstack[g])];
        g := g + 1;
      }
      gstack := [];
    }

    method ScopeOpen()
      requires Valid()
      modifies this`scope
      ensures Valid() && S() == OpenScope(old(S()))
    {
      scope := scope + 1;
    }

    method ScopeClose()
      requires Valid() && scope >= 1
      modifies this`scope, this`gstack, this`reports, this`patches, symtab, gen`quads
      ensures Valid() && S() == CloseScope(old(S()))
    {
      PatchGotosHere();
      symtab.StKillScope(scope);
      scope := scope - 1;
    }

    /** A part of a function's body, as the parser comes upon it. */
    method Statement(item: Item)
      requires Within()
      modifies this, symtab, gen`quads
      ensures Within() && S() == Compile(item, old(S()))
      decreases item, 0
    {
      LayeredItem(item, S());
      match item {
        case Var(name, size) => DeclareVars(name, size);
        case LabelAt(name) => DeclareLabelHere(name);
        case Jump(name) => ProcessGotoHere(name);
        case Plain(qs) => gen.quads := gen.quads + qs;
        case Block(items) => BlockStatement(items);
      }
    }

    method BlockStatement(items: seq<Item>)
      requires Within()
      modifies this, symtab, gen`quads
      ensures Valid() && S() == Compile(Block(items), old(S()))
      decreases items, 1
    {
      ScopeOpen();
      var size := offset % WORD;
      Statements(items);
      offset := size;
      ScopeClose();
    }

    method Statements(items: seq<Item>)
      requires Within()
      modifies this, symtab, gen`quads
      ensures Within() && S() == CompileAll(items, old(S()))
      decreases items, 0
    {
      if items != [] {
        Statement(items[0]);
        Statements(items[1..]);
      }
    }

    /** Declare the arguments of a function, the first next to the control data. */
    method EnterArguments(args: seq<(string, nat)>)
      requires Within() && scope == 1
      modifies this`reports, symtab
      ensures Within() && S() == EnterArgs(args, AR_CONTROL_DATA, old(S()))
    {
      var arOfs: nat := AR_CONTROL_DATA;
      var i := 0;
      while i < |args|
        invariant 0 <= i <= |args| && Within()
        invariant EnterArgs(args[i..], arOfs, S()) == EnterArgs(args, AR_CONTROL_DATA, old(S()))
      {
        ghost var st := S();
        var present := EnterName(args[i].0, Argument(arOfs, args[i].1));
        assert args[i..][1..] == args[i + 1..];
        if !present {
          arOfs := arOfs + args[i].1;
          LayeredEnter(st.decls, Attr(args[i].0, false, 1, Argument(arOfs - args[i].1, args[i].1)));
        }
        i := i + 1;
      }
    }

    /** A function's name, arguments and body, and the size that its frame needs.  A
        name that is known already is a function's. */
    method FunctionBody(name: string, args: seq<(string, nat)>, body: seq<Item>) returns (known: bool, arSize: nat)
      requires Valid() && scope == 0 && Outside(symtab.decls)
      requires forall i :: 0 <= i < |symtab.decls| && Named(symtab.decls[i], name) ==> symtab.decls[i].what.Func?
      modifies this, symtab, gen`quads
      ensures Valid() && Outside(symtab.decls)
      ensures known == old(Repeats(symtab.table[Bucket(symtab.hash, |symtab.table|, name)], 0, name))
      ensures S() == Function(args, body, BeginFunction(old(S()), name, known))
      ensures arSize == Inside(args, body, BeginFunction(old(S()), name, known)).maxoffset
    {
      known := symtab.StEnter(name, 0, Func);
      arSize := ArgsAndBody(args, body);
    }

    method ArgsAndBody(args: seq<(string, nat)>, body: seq<Item>) returns (arSize: nat)
      requires Valid() && scope == 0 && Outside(symtab.decls)
      modifies this, symtab, gen`quads
      ensures Valid() && Outside(symtab.decls) && S() == Function(args, body, old(S()))
      ensures arSize == Inside(args, body, old(S())).maxoffset
    {
      BodyRestores(args, body, S(), "");
      offset, maxoffset := 0, 0;
      ScopeOpen();
      EnterArguments(args);
      Statements(body);
      offset := 0;
      arSize := maxoffset;
      ScopeClose();
    }
  }

  lemma LayeredEnter(d: seq<Attr>, a: Attr)
    requires Layered(d, a.scope)
    ensures Layered([a] + d, a.scope)
  {
  }

  /** Within a function, the answer to a search is an innermost declaration. */
  lemma InnermostFound(d: seq<Attr>, scope: nat, name: string, i: nat)
    requires Layered(d, scope) && i < |d| && Named(d[i], name)
    ensures Lookup(d, name).Some? && Named(Lookup(d, name).value, name) && Lookup(d, name).value.scope >= d[i].scope
  {
    Found(d, name, i);
    var k := LookupFirst(d, name);
    assert k <= i;
  }
}
