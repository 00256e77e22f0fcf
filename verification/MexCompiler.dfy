/** The code generator and the machine together: what the compiler emits for a function
    does what the function's source says. */
module MexCompiler {
  import opened MexTypes
  import opened MexVm
  import opened MexSource
  import opened MexFlow
  import opened MexMeaning
  import opened MexEquivalence
  import opened MexTemps
  import opened MexGen
  import opened MexRegs

  /** From a memory, running the code between two quads stops exactly if executing the
      statement does, and both then agree on the result. */
  ghost predicate FaithfulFrom(code: seq<Quad>, start: nat, fin: nat, body: Stmt, ret: Type, m: Mem) {
    && ((exists n: nat :: RunStops(code, start, fin, m, n)) <==> (exists fuel: nat :: ExecStops(body, m.frame, ret, fuel)))
    && (forall n: nat, fuel: nat :: RunStops(code, start, fin, m, n) && ExecStops(body, m.frame, ret, fuel) ==>
          Matches(RunIn(code, start, fin, start, m, n), Exec(body, m.frame, ret, fuel), m.stack, fin, fin, ret))
  }

  /** Compile a function behind what has been compiled so far, which stays as it is.  If
      its code keeps to the machine's registers, it does what the source says, and it
      does keep to them if no expression needs 100 of them. */
  method CompileFunction(g: Generator, body: Stmt, ret: Type, argSize: nat, arSize: nat) returns (start: nat, ghost fin: nat)
    requires g.Valid() && g.inUse == {} && g.frPatch == [] && Fits(body, 1000)
    modifies g
    ensures g.Valid() && g.inUse == {} && g.frPatch == []
    ensures start == |old(g.quads)| + 1 <= fin && |g.quads| == fin + 1 && old(g.quads) <= g.quads
    ensures g.quads[start - 1] == QFuncStart(arSize) && g.quads[fin] == QFuncRet(argSize, arSize)
    ensures g.quads[start..fin] == Code(body, start, ret, fin)
    ensures AllInFile(g.quads[start..fin]) ==> forall m: Mem :: FaithfulFrom(g.quads, start, fin, body, ret, m)
    ensures Fits(body, 100) ==> AllInFile(g.quads[start..fin])
  {
    ghost var before := g.quads;
    start := |g.quads| + 1;
    fin := g.Function(body, ret, argSize, arSize);
    ghost var c := Code(body, start, ret, fin);
    assert g.quads[start..fin] == c;
    if AllInFile(c) {
      forall m: Mem
        ensures FaithfulFrom(g.quads, start, fin, body, ret, m)
      {
        assert g.quads == g.quads + [];
        FunctionMeans(before, body, ret, argSize, arSize, [], m, g.quads, start, fin);
      }
    }
    if Fits(body, 100) {
      FewRegisters(body, start, ret, fin, c);
    }
  }

  lemma FewRegisters(body: Stmt, start: nat, ret: Type, fin: nat, c: seq<Quad>)
    requires Fits(body, 100) && c == Code(body, start, ret, fin)
    ensures AllInFile(c)
  {
    AnyArea(body);
    CodeTidy(Anywhere, body, start, ret, fin);
    TidyInFile(Anywhere, c);
  }
}
