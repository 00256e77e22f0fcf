/** The compiler's symbol table (mex_symt.c): a hash table of chains, searched as if
    it were one list of declarations with the latest first. */
module MexSymbols {
  import opened Wrappers

  /** What a name stands for.  Offsets of variables and arguments are relative to
      the activation record. */
  datatype Entity = Variable(ofs: int, size: nat) | Label(quad: nat) | Argument(ofs: int, size: nat) | Func

  /** An entry.  That it is gone means that its name was cleared. */
  datatype Attr = Attr(name: string, gone: bool, scope: nat, what: Entity)

  // ---------------------------------------------------------------- one list

  predicate Named(a: Attr, name: string) {
    !a.gone && a.name == name
  }

  /** The latest entry of a name. */
  function Lookup(d: seq<Attr>, name: string): (r: Option<Attr>) {
    if d == [] then None else if Named(d[0], name) then Some(d[0]) else Lookup(d[1..], name)
  }

  lemma {:induction false} Found(d: seq<Attr>, name: string, i: nat)
    requires i < |d| && Named(d[i], name)
    ensures Lookup(d, name).Some?
  {
    if i > 0 {
      Found(d[1..], name, i - 1);
    }
  }

  lemma {:induction false} LookupFirst(d: seq<Attr>, name: string) returns (k: nat)
    requires Lookup(d, name).Some?
    ensures k < |d| && d[k] == Lookup(d, name).value && Named(d[k], name)
    ensures forall i :: 0 <= i < k ==> !Named(d[i], name)
  {
    k := 0;
    if !Named(d[0], name) {
      k := LookupFirst(d[1..], name);
      k := k + 1;
      assert forall i :: 0 < i < k ==> d[i] == d[1..][i - 1];
    }
  }

  predicate Declared(d: seq<Attr>, scope: nat, name: string) {
    exists i :: 0 <= i < |d| && Named(d[i], name) && d[i].scope == scope
  }

  /** What is left of an entry when a scope is closed. */
  function Left(a: Attr, scope: nat): (r: seq<Attr>) {
    if a.scope < scope || a.what.Func? then [a] else if a.what.Argument? then [a.(gone := true)] else []
  }

  function Killed(d: seq<Attr>, scope: nat): seq<Attr> {
    if d == [] then [] else Left(d[0], scope) + Killed(d[1..], scope)
  }

  lemma {:induction false} KilledJoin(a: seq<Attr>, b: seq<Attr>, scope: nat)
    ensures Killed(a + b, scope) == Killed(a, scope) + Killed(b, scope)
  {
    if a == [] {
      assert a + b == b;
    } else {
      assert (a + b)[0] == a[0] && (a + b)[1..] == a[1..] + b;
      KilledJoin(a[1..], b, scope);
    }
  }

  /** Does the search for a repeated name, which stops at the first entry of
      another scope, find one? */
  function Repeats(c: seq<Attr>, scope: nat, name: string): bool {
    c != [] && c[0].scope == scope && (Named(c[0], name) || Repeats(c[1..], scope, name))
  }

  lemma {:induction false} RepeatsAt(c: seq<Attr>, scope: nat, name: string, j: nat)
    requires j < |c| && Named(c[j], name) && c[j].scope == scope && forall i :: 0 <= i < j ==> c[i].scope == scope
    ensures Repeats(c, scope, name)
  {
    if j > 0 {
      RepeatsAt(c[1..], scope, name, j - 1);
    }
  }

  lemma {:induction false} RepeatsFound(c: seq<Attr>, scope: nat, name: string) returns (j: nat)
    requires Repeats(c, scope, name)
    ensures j < |c| && Named(c[j], name) && c[j].scope == scope && forall i :: 0 <= i < j ==> c[i].scope == scope
  {
    if Named(c[0], name) {
      j := 0;
    } else {
      var k := RepeatsFound(c[1..], scope, name);
      j := k + 1;
      forall i | 0 <= i < j
        ensures c[i].scope == scope
      {
        assert i == 0 || c[i] == c[1..][i - 1];
      }
    }
  }

  /** Exactly when that search succeeds. */
  lemma RepeatsWhen(c: seq<Attr>, scope: nat, name: string)
    ensures Repeats(c, scope, name) <==>
      exists j :: 0 <= j < |c| && Named(c[j], name) && c[j].scope == scope && forall i :: 0 <= i < j ==> c[i].scope == scope
  {
    if Repeats(c, scope, name) {
      var j := RepeatsFound(c, scope, name);
    } else {
      forall j | 0 <= j < |c| && Named(c[j], name) && c[j].scope == scope
        ensures exists i :: 0 <= i < j && c[i].scope != scope
      {
        if forall i :: 0 <= i < j ==> c[i].scope == scope {
          RepeatsAt(c, scope, name, j);
        }
      }
    }
  }

  /** Nothing of another scope lies before an entry of this scope. */
  predicate Innermost(d: seq<Attr>, scope: nat) {
    forall i, j :: 0 <= i < j < |d| && !d[j].gone && d[j].scope == scope ==> d[i].scope == scope
  }

  /** At the global scope a repeated name can be missed: the nameless argument of an
      earlier function hides the entry behind it from the search. */
  lemma GlobalNameMissed()
    ensures exists d: seq<Attr>, name :: Declared(d, 0, name) && !Repeats(d, 0, name)
  {
    var d := [Attr("a", true, 1, Argument(16, 2)), Attr("x", false, 0, Func)];
    assert Named(d[1], "x");
    assert Declared(d, 0, "x") && !Repeats(d, 0, "x");
  }

  // ---------------------------------------------------------------- chains

  function Bucket(hash: string -> nat, len: nat, name: string): (h: nat)
    requires len > 0
    ensures h < len
  {
    hash(name) % len
  }

  /** The entries of one chain. */
  function Chain(d: seq<Attr>, hash: string -> nat, len: nat, h: nat): seq<Attr>
    requires len > 0
  {
    if d == [] then [] else (if Bucket(hash, len, d[0].name) == h then [d[0]] else []) + Chain(d[1..], hash, len, h)
  }

  lemma {:induction false} ChainLookup(d: seq<Attr>, hash: string -> nat, len: nat, name: string)
    requires len > 0
    ensures Lookup(Chain(d, hash, len, Bucket(hash, len, name)), name) == Lookup(d, name)
  {
    if d != [] {
      var c := Chain(d, hash, len, Bucket(hash, len, name));
      var rest := Chain(d[1..], hash, len, Bucket(hash, len, name));
      ChainLookup(d[1..], hash, len, name);
      if Bucket(hash, len, d[0].name) == Bucket(hash, len, name) {
        assert c == [d[0]] + rest && c[1..] == rest;
      } else {
        assert c == rest;
      }
    }
  }

  lemma {:induction false} ChainKilled(d: seq<Attr>, hash: string -> nat, len: nat, h: nat, scope: nat)
    requires len > 0
    ensures Chain(Killed(d, scope), hash, len, h) == Killed(Chain(d, hash, len, h), scope)
  {
    if d != [] {
      ChainKilled(d[1..], hash, len, h, scope);
      var rest, left := Killed(d[1..], scope), Left(d[0], scope);
      if left == [] {
        assert Killed(d, scope) == rest;
      } else {
        assert (left + rest)[0] == left[0] && (left + rest)[1..] == rest;
      }
      var c := Chain(d[1..], hash, len, h);
      if Bucket(hash, len, d[0].name) == h {
        assert ([d[0]] + c)[1..] == c;
      } else {
        assert [] + c == c;
      }
    }
  }

  lemma {:induction false} ChainMembers(d: seq<Attr>, hash: string -> nat, len: nat, h: nat, i: nat) returns (k: nat)
    requires len > 0 && i < |Chain(d, hash, len, h)|
    ensures k < |d| && d[k] == Chain(d, hash, len, h)[i]
  {
    if Bucket(hash, len, d[0].name) == h && i == 0 {
      k := 0;
    } else {
      k := ChainMembers(d[1..], hash, len, h, if Bucket(hash, len, d[0].name) == h then i - 1 else i);
      k := k + 1;
    }
  }

  /** In the scope where it is innermost, the search for repeated names is exact. */
  lemma {:induction false} ChainRepeats(d: seq<Attr>, hash: string -> nat, len: nat, scope: nat, name: string)
    requires len > 0 && Innermost(d, scope)
    ensures Repeats(Chain(d, hash, len, Bucket(hash, len, name)), scope, name) <==> Declared(d, scope, name)
  {
    var h := Bucket(hash, len, name);
    var c := Chain(d, hash, len, h);
    if d == [] {
      return;
    }
    var rest := Chain(d[1..], hash, len, h);
    if d[0].scope == scope {
      ChainRepeats(d[1..], hash, len, scope, name);
      assert Declared(d, scope, name) <==> Named(d[0], name) || Declared(d[1..], scope, name) by {
        if Declared(d[1..], scope, name) {
          var i :| 0 <= i < |d[1..]| && Named(d[1..][i], name) && d[1..][i].scope == scope;
          assert Named(d[i + 1], name);
        }
        if i :| 0 < i < |d| && Named(d[i], name) && d[i].scope == scope {
          assert Named(d[1..][i - 1], name);
        }
      }
      assert c == if Bucket(hash, len, d[0].name) == h then [d[0]] + rest else rest;
      if Bucket(hash, len, d[0].name) == h {
        assert c[1..] == rest;
      }
    } else {
      if Repeats(c, scope, name) {
        var j := RepeatsFound(c, scope, name);
        var k := ChainMembers(d, hash, len, h, j);
        assert false;
      }
    }
  }

  lemma ChainEntered(d: seq<Attr>, hash: string -> nat, len: nat, h: nat, a: Attr)
    requires len > 0
    ensures Chain([a] + d, hash, len, h) == (if Bucket(hash, len, a.name) == h then [a] else []) + Chain(d, hash, len, h)
  {
    assert ([a] + d)[1..] == d;
  }

  // ---------------------------------------------------------------- the table

  class SymTab {
    const hash: string -> nat
    var table: seq<seq<Attr>>
    ghost var decls: seq<Attr>

    constructor (len: nat, hash: string -> nat)
      requires len > 0
      ensures Valid() && decls == [] && |table| == len && this.hash == hash
    {
      this.hash := hash;
      table, decls := seq(len, i => []), [];
    }

    ghost predicate Valid()
      reads this
    {
      |table| > 0 && forall h :: 0 <= h < |table| ==> table[h] == Chain(decls, hash, |table|, h)
    }

    /** Enter a name in the current scope, unless it is there. */
    method StEnter(name: string, scope: nat, what: Entity) returns (present: bool)
      requires Valid()
      modifies this
      ensures Valid()
      ensures present == old(Repeats(table[Bucket(hash, |table|, name)], scope, name))
      ensures Innermost(old(decls), scope) ==> (present <==> Declared(old(decls), scope, name))
      ensures decls == if present then old(decls) else [Attr(name, false, scope, what)] + old(decls)
    {
      var pos := Bucket(hash, |table|, name);
      present := InChain(table[pos], scope, name);
      if Innermost(decls, scope) {
        ChainRepeats(decls, hash, |table|, scope, name);
      }
      if !present {
        var a := Attr(name, false, scope, what);
        forall h | 0 <= h < |table|
          ensures Chain([a] + decls, hash, |table|, h) == if h == pos then [a] + table[h] else table[h]
        {
          ChainEntered(decls, hash, |table|, h, a);
        }
        table := table[pos := [a] + table[pos]];
        decls := [a] + decls;
      }
    }

    static method InChain(c: seq<Attr>, scope: nat, name: string) returns (present: bool)
      ensures present == Repeats(c, scope, name)
    {
      var i := 0;
      while i < |c| && c[i].scope == scope
        invariant 0 <= i <= |c| && Repeats(c, scope, name) == Repeats(c[i..], scope, name)
      {
        if Named(c[i], name) {
          return true;
        }
        i := i + 1;
      }
      present := false;
    }

    method StFind(name: string) returns (r: Option<Attr>)
      requires Valid()
      ensures r == Lookup(decls, name)
    {
      var c := table[Bucket(hash, |table|, name)];
      ChainLookup(decls, hash, |table|, name);
      var i := 0;
      while i < |c|
        invariant 0 <= i <= |c| && Lookup(c[i..], name) == Lookup(decls, name)
      {
        if Named(c[i], name) {
          return Some(c[i]);
        }
        i := i + 1;
      }
      r := None;
    }

    /** Remove the entries of a scope, but keep arguments without their names. */
    method StKillScope(scope: nat)
      requires Valid()
      modifies this
      ensures Valid() && decls == Killed(old(decls), scope)
    {
      ghost var d := decls;
      var h := 0;
      while h < |table|
        invariant 0 <= h <= |table| && |table| == |old(table)|
        invariant forall k :: 0 <= k < h ==> table[k] == Killed(old(table)[k], scope)
        invariant forall k :: h <= k < |table| ==> table[k] == old(table)[k]
        invariant decls == d
      {
        var c := KillChain(table[h], scope);
        table := table[h := c];
        h := h + 1;
      }
      decls := Killed(decls, scope);
      forall k | 0 <= k < |table|
        ensures table[k] == Chain(decls, hash, |table|, k)
      {
        ChainKilled(d, hash, |table|, k, scope);
      }
    }

    static method KillChain(chain: seq<Attr>, scope: nat) returns (c: seq<Attr>)
      ensures c == Killed(chain, scope)
    {
      c := chain;
      var i := 0;
      ghost var kept, rest := [], chain;
      while i < |c|
        invariant c == kept + rest && i == |kept|
        invariant kept + Killed(rest, scope) == Killed(chain, scope)
        decreases |rest|
      {
        KilledStep(c, kept, rest, scope);
        if c[i].scope < scope || c[i].what.Func? {
          i := i + 1;
        } else if c[i].what.Argument? {
          c := c[i := c[i].(gone := true)];
          i := i + 1;
        } else {
          c := c[..i] + c[i + 1..];
        }
        kept, rest := kept + Left(rest[0], scope), rest[1..];
      }
      assert kept + [] == kept;
    }
  }

  lemma KilledStep(c: seq<Attr>, kept: seq<Attr>, rest: seq<Attr>, scope: nat)
    requires c == kept + rest && rest != []
    ensures c[|kept|] == rest[0]
    ensures c == kept + [rest[0]] + rest[1..]
    ensures c[..|kept|] + c[|kept| + 1..] == kept + rest[1..]
    ensures c[|kept| := rest[0].(gone := true)] == kept + [rest[0].(gone := true)] + rest[1..]
    ensures kept + Killed(rest, scope) == kept + Left(rest[0], scope) + Killed(rest[1..], scope)
  {
    assert c[|kept| + 1..] == rest[1..] && c[..|kept|] == kept;
  }
}
