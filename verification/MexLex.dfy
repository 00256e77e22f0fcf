/** Conditional text: the ifdef directives of the scanner (mex_lex.c).  The two
    arrays and the counter of the scanner are shown to follow the nesting of the
    text: a line reaches the parser exactly when every group around it is on its
    first true branch. */
module MexLex {
  import opened Wrappers

  const MAX_IFBLKS := 32

  // ---------------------------------------------------------------- lines

  /** A line of text, with comments and blanks removed. */
  datatype Line = IfDef(name: string, which: bool) | ElIfDef(name: string) | Else | EndIf
    | Define(name: string) | Undef(name: string) | Text(text: string)

  /** What the scanner keeps from line to line, and what it has passed on. */
  datatype State = State(status: seq<bool>, done: seq<bool>, top: int, macros: set<string>, text: seq<string>, errors: nat)

  predicate Wide(st: State) {
    |st.status| == MAX_IFBLKS && |st.done| == MAX_IFBLKS && -1 <= st.top < MAX_IFBLKS
  }

  predicate Active(st: State)
    requires Wide(st)
  {
    st.top < 0 || st.status[st.top]
  }

  /** Are the n outermost groups all on a branch that is read? */
  predicate Open(status: seq<bool>, n: int)
    requires n <= |status|
  {
    forall i :: 0 <= i < n ==> status[i]
  }

  function If(st: State, inblock: bool, name: string, which: bool): (r: State)
    requires Wide(st)
    ensures Wide(r)
  {
    var over := st.top + 1 >= MAX_IFBLKS;
    var top := if over then st.top else st.top + 1;
    var on := inblock && (name in st.macros) == which;
    st.(status := st.status[top := on], done := st.done[top := on], top := top, errors := st.errors + if over then 1 else 0)
  }

  function Otherwise(st: State): (r: State)
    requires Wide(st)
    ensures Wide(r)
  {
    if st.top == -1 then st.(errors := st.errors + 1)
    else
      var flip := !st.status[st.top] && !st.done[st.top];
      var on := flip && Open(st.status, st.top);
      st.(status := st.status[st.top := on], done := if flip then st.done[st.top := on] else st.done)
  }

  function Step(st: State, line: Line): (r: State)
    requires Wide(st)
    ensures Wide(r)
  {
    match line
    case IfDef(name, which) => If(st, Active(st), name, which)
    case EndIf => if st.top == -1 then st.(top := 0, errors := st.errors + 1) else st.(top := st.top - 1)
    case Else => Otherwise(st)
    case ElIfDef(name) =>
      var st2 := Otherwise(st);
      if st.top != -1 && st2.status[st.top] then If(st2.(top := st.top - 1), true, name, true) else st2
    case Define(name) => if Active(st) then st.(macros := st.macros + {name}) else st
    case Undef(name) => if Active(st) then st.(macros := st.macros - {name}) else st
    case Text(text) => if Active(st) then st.(text := st.text + [text]) else st
  }

  function Run(st: State, lines: seq<Line>): (r: State)
    requires Wide(st)
    ensures Wide(r)
    decreases lines
  {
    if lines == [] then st else Run(Step(st, lines[0]), lines[1..])
  }

  lemma {:induction false} RunSplit(st: State, a: seq<Line>, b: seq<Line>)
    requires Wide(st)
    ensures Run(st, a + b) == Run(Run(st, a), b)
    decreases a
  {
    if a == [] {
      assert a + b == b;
    } else {
      assert (a + b)[0] == a[0] && (a + b)[1..] == a[1..] + b;
      RunSplit(Step(st, a[0]), a[1..], b);
    }
  }

  // ---------------------------------------------------------------- nested text

  datatype Part = Words(text: string) | Defines(name: string) | Forgets(name: string)
    | Group(name: string, which: bool, body: seq<Part>, rest: Rest)

  /** What follows a branch of a group: its end, or another branch, with a test or without
      one.  Nothing keeps an else from being followed by further branches. */
  datatype Rest = End | Or(test: Option<string>, body: seq<Part>, rest: Rest)

  function Lines(p: Part): seq<Line> {
    match p
    case Words(text) => [Text(text)]
    case Defines(name) => [Define(name)]
    case Forgets(name) => [Undef(name)]
    case Group(name, which, body, rest) => [IfDef(name, which)] + AllLines(body) + RestLines(rest)
  }

  function RestLines(rest: Rest): seq<Line> {
    match rest
    case End => [EndIf]
    case Or(test, body, more) => [BranchLine(test)] + AllLines(body) + RestLines(more)
  }

  function BranchLine(test: Option<string>): Line {
    if test.Some? then ElIfDef(test.value) else Else
  }

  predicate Passes(test: Option<string>, macros: set<string>) {
    test.Some? ==> test.value in macros
  }

  function AllLines(ps: seq<Part>): seq<Line> {
    if ps == [] then [] else Lines(ps[0]) + AllLines(ps[1..])
  }

  /** What is read of a text, and the macros defined after it. */
  function Read(p: Part, macros: set<string>): (seq<string>, set<string>) {
    match p
    case Words(text) => ([text], macros)
    case Defines(name) => ([], macros + {name})
    case Forgets(name) => ([], macros - {name})
    case Group(name, which, body, rest) => if (name in macros) == which then ReadAll(body, macros) else ReadRest(rest, macros)
  }

  function ReadRest(rest: Rest, macros: set<string>): (seq<string>, set<string>) {
    match rest
    case End => ([], macros)
    case Or(test, body, more) => if Passes(test, macros) then ReadAll(body, macros) else ReadRest(more, macros)
  }

  function ReadAll(ps: seq<Part>, macros: set<string>): (seq<string>, set<string>) {
    if ps == [] then ([], macros)
    else
      var (a, m1) := Read(ps[0], macros);
      var (b, m2) := ReadAll(ps[1..], m1);
      (a + b, m2)
  }

  function Max(a: nat, b: nat): nat {
    if a < b then b else a
  }

  /** How deep the groups of a text nest. */
  function Depth(p: Part): nat {
    if p.Group? then 1 + Max(AllDepth(p.body), RestDepth(p.rest)) else 0
  }

  function RestDepth(rest: Rest): nat {
    match rest
    case End => 0
    case Or(_, body, more) => Max(AllDepth(body), RestDepth(more))
  }

  function AllDepth(ps: seq<Part>): nat {
    if ps == [] then 0 else Max(Depth(ps[0]), AllDepth(ps[1..]))
  }

  // ---------------------------------------------------------------- the theorem

  /** A group that is read lies only in groups that are read. */
  predicate Nested(st: State)
    requires Wide(st)
  {
    forall i :: 0 <= i <= st.top && st.status[i] ==> Open(st.status, i)
  }

  /** The same groups are open, in the same condition, and no error was found. */
  predicate SameGroups(st: State, st2: State)
    requires Wide(st) && Wide(st2)
  {
    st2.top == st.top && st2.status[..st.top + 1] == st.status[..st.top + 1]
    && st2.done[..st.top + 1] == st.done[..st.top + 1] && st2.errors == st.errors
  }

  /** Reading has added r to what was read. */
  predicate Added(st: State, st2: State, on: bool, r: (seq<string>, set<string>)) {
    st2.text == st.text + (if on then r.0 else []) && st2.macros == if on then r.1 else st.macros
  }

  predicate Reads(st: State, st2: State, r: (seq<string>, set<string>))
    requires Wide(st) && Wide(st2)
  {
    Nested(st2) && SameGroups(st, st2) && Added(st, st2, Active(st), r)
  }

  /** A branch: its first line, its text, and what follows. */
  lemma RunBranch(st: State, line: Line, a: seq<Line>, b: seq<Line>)
    requires Wide(st)
    ensures Run(st, [line] + a + b) == Run(Run(Step(st, line), a), b)
  {
    var all := [line] + a + b;
    assert all[0] == line && all[1..] == a + b;
    RunSplit(Step(st, line), a, b);
  }

  lemma RunOne(st: State, line: Line)
    requires Wide(st)
    ensures Run(st, [line]) == Step(st, line)
  {
    assert [line][1..] == [];
  }

  /** The groups below the top one are as they were. */
  predicate SameOuter(st: State, st2: State, n: nat)
    requires Wide(st) && Wide(st2) && n <= MAX_IFBLKS
  {
    st2.status[..n] == st.status[..n] && st2.done[..n] == st.done[..n] && st2.errors == st.errors
  }

  /** Between two branches: if one was read, the group's surroundings are read,
      and otherwise the group is not being read. */
  predicate Between(st: State)
    requires Wide(st) && 0 <= st.top
  {
    if st.done[st.top] then Open(st.status, st.top) else !st.status[st.top]
  }

  /** Could the rest of the group be read? */
  predicate Waiting(st: State)
    requires Wide(st) && 0 <= st.top
  {
    !st.done[st.top] && Open(st.status, st.top)
  }

  lemma OpenNested(st: State)
    requires Wide(st) && Nested(st)
    ensures Active(st) <==> Open(st.status, st.top + 1)
  {
  }

  lemma IfStep(st: State, name: string, which: bool)
    requires Wide(st) && Nested(st) && st.top + 1 < MAX_IFBLKS
    ensures Entered(st, Step(st, IfDef(name, which)), (name in st.macros) == which)
  {
    OpenNested(st);
  }

  /** A group has begun, and its first branch is read if yes holds. */
  predicate Entered(st: State, st1: State, yes: bool)
    requires Wide(st) && Wide(st1)
  {
    && Nested(st1) && st1.top == st.top + 1 && SameOuter(st, st1, st.top + 1) && Between(st1)
    && st1.text == st.text && st1.macros == st.macros
    && (Active(st1) <==> Active(st) && yes)
    && (Waiting(st1) <==> Active(st) && !yes)
  }

  /** A whole group: its first branch and the rest of it. */
  lemma GroupThen(p: Part, st: State, st1: State, st2: State, st3: State)
    requires p.Group? && Wide(st) && Wide(st1) && Wide(st2) && Wide(st3)
    requires Entered(st, st1, (p.name in st.macros) == p.which)
    requires st2.top == st1.top && SameOuter(st1, st2, st1.top) && (Waiting(st2) <==> Waiting(st1))
    requires Added(st1, st2, Active(st1), ReadAll(p.body, st1.macros))
    requires Nested(st3) && st3.top == st2.top - 1 && SameOuter(st2, st3, st2.top)
    requires Added(st2, st3, Waiting(st2), ReadRest(p.rest, st2.macros))
    ensures Reads(st, st3, Read(p, st.macros))
  {
  }

  lemma BranchStep(st: State, test: Option<string>)
    requires Wide(st) && Nested(st) && 0 <= st.top && Between(st)
    ensures
      var st1 := Step(st, BranchLine(test));
      && Nested(st1) && st1.top == st.top && SameOuter(st, st1, st.top) && Between(st1)
      && st1.text == st.text && st1.macros == st.macros
      && (Active(st1) <==> Waiting(st) && Passes(test, st.macros))
      && (Waiting(st1) <==> Waiting(st) && !Passes(test, st.macros))
  {
  }

  /** A branch read as it should be leaves the group between branches. */
  lemma BranchRead(st1: State, st2: State, r: (seq<string>, set<string>))
    requires Wide(st1) && Wide(st2) && Nested(st1) && 0 <= st1.top && Reads(st1, st2, r)
    ensures 0 <= st2.top && SameOuter(st1, st2, st1.top)
    ensures Between(st1) ==> Between(st2) && (Waiting(st2) <==> Waiting(st1))
  {
    var n := st1.top;
    assert forall i :: 0 <= i <= n ==> st2.status[i] == st2.status[..n + 1][i] == st1.status[i];
    assert forall i :: 0 <= i <= n ==> st2.done[i] == st2.done[..n + 1][i] == st1.done[i];
  }

  /** A text read after another. */
  lemma ReadsThen(st: State, st1: State, st2: State, a: (seq<string>, set<string>), b: (seq<string>, set<string>))
    requires Wide(st) && Wide(st1) && Wide(st2) && Nested(st)
    requires Reads(st, st1, a) && (Active(st) ==> Reads(st1, st2, b))
    requires !Active(st) ==> exists r :: Reads(st1, st2, r)
    ensures Reads(st, st2, (a.0 + b.0, b.1))
  {
    assert Active(st1) == Active(st) by {
      if st.top >= 0 {
        var n := st.top + 1;
        assert st1.status[st.top] == st1.status[..n][st.top] == st.status[st.top];
      }
    }
  }

  lemma {:induction false} PartRead(p: Part, st: State)
    requires Wide(st) && Nested(st) && st.top + Depth(p) < MAX_IFBLKS
    ensures Reads(st, Run(st, Lines(p)), Read(p, st.macros))
    decreases p, 0
  {
    if p.Group? {
      RunBranch(st, IfDef(p.name, p.which), AllLines(p.body), RestLines(p.rest));
      IfStep(st, p.name, p.which);
      var st1 := Step(st, IfDef(p.name, p.which));
      var st2 := BodyRead(p.body, st1);
      RestRead(p.rest, st2);
      GroupThen(p, st, st1, st2, Run(st2, RestLines(p.rest)));
    } else {
      RunOne(st, Lines(p)[0]);
    }
  }

  /** The rest of the top group has been read as it should be, to its end. */
  predicate RestDone(rest: Rest, st: State, st2: State)
    requires Wide(st) && Wide(st2) && 0 <= st.top
  {
    && Nested(st2) && st2.top == st.top - 1 && SameOuter(st, st2, st.top)
    && Added(st, st2, Waiting(st), ReadRest(rest, st.macros))
  }

  lemma OrThen(rest: Rest, st: State, st1: State, st2: State, st3: State)
    requires rest.Or? && Wide(st) && Wide(st1) && Wide(st2) && Wide(st3) && 0 <= st.top == st1.top == st2.top
    requires SameOuter(st, st1, st.top) && SameOuter(st1, st2, st1.top)
    requires st1.text == st.text && st1.macros == st.macros
    requires Active(st1) <==> Waiting(st) && Passes(rest.test, st.macros)
    requires Waiting(st2) <==> Waiting(st) && !Passes(rest.test, st.macros)
    requires Added(st1, st2, Active(st1), ReadAll(rest.body, st1.macros))
    requires RestDone(rest.rest, st2, st3)
    ensures RestDone(rest, st, st3)
  {
  }

  /** The rest of a group, after one of its branches. */
  lemma {:induction false} RestRead(rest: Rest, st: State)
    requires Wide(st) && Nested(st) && 0 <= st.top && st.top + RestDepth(rest) < MAX_IFBLKS && Between(st)
    ensures RestDone(rest, st, Run(st, RestLines(rest)))
    decreases rest, 0
  {
    match rest {
      case End =>
        RunOne(st, EndIf);
      case Or(test, body, more) =>
        RunBranch(st, BranchLine(test), AllLines(body), RestLines(more));
        BranchStep(st, test);
        var st1 := Step(st, BranchLine(test));
        var st2 := BodyRead(body, st1);
        RestRead(more, st2);
        OrThen(rest, st, st1, st2, Run(st2, RestLines(more)));
    }
  }

  /** The text of one branch of the top group. */
  lemma {:induction false} BodyRead(body: seq<Part>, st: State) returns (st2: State)
    requires Wide(st) && Nested(st) && 0 <= st.top && st.top + AllDepth(body) < MAX_IFBLKS
    ensures Wide(st2) && st2 == Run(st, AllLines(body)) && Nested(st2) && st2.top == st.top && SameOuter(st, st2, st.top)
    ensures Between(st) ==> Between(st2) && (Waiting(st2) <==> Waiting(st))
    ensures Added(st, st2, Active(st), ReadAll(body, st.macros))
    decreases body, 1
  {
    AllRead(body, st);
    st2 := Run(st, AllLines(body));
    BranchRead(st, st2, ReadAll(body, st.macros));
  }

  /** The lines of a nested text leave exactly what is to be read of it. */
  lemma {:induction false} AllRead(ps: seq<Part>, st: State)
    requires Wide(st) && Nested(st) && st.top + AllDepth(ps) < MAX_IFBLKS
    ensures Reads(st, Run(st, AllLines(ps)), ReadAll(ps, st.macros))
    decreases ps, 0
  {
    if ps != [] {
      var a, b := Lines(ps[0]), AllLines(ps[1..]);
      RunSplit(st, a, b);
      PartRead(ps[0], st);
      var st1 := Run(st, a);
      AllRead(ps[1..], st1);
      ReadsThen(st, st1, Run(st1, b), Read(ps[0], st.macros), ReadAll(ps[1..], if Active(st) then Read(ps[0], st.macros).1 else st.macros));
    }
  }

  // ---------------------------------------------------------------- too deep

  lemma {:induction false} ErrorsStay(st: State, lines: seq<Line>)
    requires Wide(st)
    ensures Run(st, lines).errors >= st.errors
    decreases lines
  {
    if lines != [] {
      ErrorsStay(Step(st, lines[0]), lines[1..]);
    }
  }

  lemma {:induction false} PartTooDeep(p: Part, st: State)
    requires Wide(st) && Nested(st) && st.top + Depth(p) >= MAX_IFBLKS
    ensures Run(st, Lines(p)).errors > st.errors
    decreases p, 0
  {
    var st1 := Step(st, Lines(p)[0]);
    RunBranch(st, Lines(p)[0], AllLines(p.body), RestLines(p.rest));
    var st2 := Run(st1, AllLines(p.body));
    ErrorsStay(st1, AllLines(p.body));
    ErrorsStay(st2, RestLines(p.rest));
    if st.top + 1 < MAX_IFBLKS {
      IfStep(st, p.name, p.which);
      if st1.top + AllDepth(p.body) >= MAX_IFBLKS {
        AllTooDeep(p.body, st1);
      } else {
        st2 := BodyRead(p.body, st1);
        RestTooDeep(p.rest, st2);
      }
    }
  }

  lemma {:induction false} RestTooDeep(rest: Rest, st: State)
    requires Wide(st) && Nested(st) && 0 <= st.top && st.top + RestDepth(rest) >= MAX_IFBLKS && Between(st)
    ensures Run(st, RestLines(rest)).errors > st.errors
    decreases rest, 0
  {
    match rest {
      case Or(test, body, more) =>
        RunBranch(st, BranchLine(test), AllLines(body), RestLines(more));
        BranchStep(st, test);
        var st1 := Step(st, BranchLine(test));
        if st1.top + AllDepth(body) >= MAX_IFBLKS {
          AllTooDeep(body, st1);
          ErrorsStay(Run(st1, AllLines(body)), RestLines(more));
        } else {
          var st2 := BodyRead(body, st1);
          RestTooDeep(more, st2);
        }
    }
  }

  /** Groups nested beyond the room for them are reported. */
  lemma {:induction false} AllTooDeep(ps: seq<Part>, st: State)
    requires Wide(st) && Nested(st) && st.top + AllDepth(ps) >= 32
    ensures Run(st, AllLines(ps)).errors > st.errors
    decreases ps, 0
  {
    var a, b := Lines(ps[0]), AllLines(ps[1..]);
    RunSplit(st, a, b);
    if st.top + Depth(ps[0]) >= MAX_IFBLKS {
      PartTooDeep(ps[0], st);
      ErrorsStay(Run(st, a), b);
    } else {
      PartRead(ps[0], st);
      AllTooDeep(ps[1..], Run(st, a));
    }
  }

  /** The state before the first line. */
  function Start(macros: set<string>): (st: State)
    ensures Wide(st) && Nested(st)
  {
    State(seq(MAX_IFBLKS, i => false), seq(MAX_IFBLKS, i => false), -1, macros, [], 0)
  }

  /** A whole text: it is read without an error exactly when its groups nest no
      deeper than 32, and then as its nesting says. */
  lemma TextRead(ps: seq<Part>, macros: set<string>)
    ensures
      var st := Run(Start(macros), AllLines(ps));
      && (st.errors == 0 <==> AllDepth(ps) <= 32)
      && (st.errors == 0 ==> st.top == -1 && st.text == ReadAll(ps, macros).0 && st.macros == ReadAll(ps, macros).1)
  {
    if AllDepth(ps) <= 32 {
      AllRead(ps, Start(macros));
    } else {
      AllTooDeep(ps, Start(macros));
    }
  }

  // ---------------------------------------------------------------- any text

  /** How many groups are open at the end of these lines, begun in d groups; none, if a
      directive belongs to no group or the groups nest deeper than 32. */
  function OpenAt(lines: seq<Line>, d: nat): Option<nat> {
    if lines == [] then Some(d)
    else match lines[0]
      case IfDef(_, _) => if d < 32 then OpenAt(lines[1..], d + 1) else None
      case EndIf => if d > 0 then OpenAt(lines[1..], d - 1) else None
      case Else => if d > 0 then OpenAt(lines[1..], d) else None
      case ElIfDef(_) => if d > 0 then OpenAt(lines[1..], d) else None
      case _ => OpenAt(lines[1..], d)
  }

  lemma {:induction false} ErrorsFound(st: State, lines: seq<Line>)
    requires Wide(st)
    ensures Run(st, lines).errors == st.errors <==> OpenAt(lines, st.top + 1).Some?
    ensures OpenAt(lines, st.top + 1).Some? ==> Run(st, lines).top == OpenAt(lines, st.top + 1).value - 1
    decreases lines
  {
    if lines != [] {
      var st1 := Step(st, lines[0]);
      ErrorsStay(st1, lines[1..]);
      if st1.errors == st.errors { ErrorsFound(st1, lines[1..]); }
    }
  }

  /** A line that ends a branch. */
  predicate Ends(line: Line) {
    line.EndIf? || line.Else? || line.ElIfDef?
  }

  /** Lines that close all their groups are a nested text, up to where a branch ends. */
  lemma {:induction false} Parsed(lines: seq<Line>, d: nat) returns (ps: seq<Part>, tail: seq<Line>)
    requires OpenAt(lines, d) == Some(0)
    ensures lines == AllLines(ps) + tail && OpenAt(tail, d) == Some(0)
    ensures if tail == [] then d == 0 else Ends(tail[0])
    decreases |lines|
  {
    if lines == [] || Ends(lines[0]) {
      ps, tail := [], lines;
    } else {
      var p, next := FirstParsed(lines, d);
      var more;
      more, tail := Parsed(next, d);
      ps := [p] + more;
      assert ps[1..] == more && lines == Lines(p) + (AllLines(more) + tail);
    }
  }

  lemma {:induction false} FirstParsed(lines: seq<Line>, d: nat) returns (p: Part, next: seq<Line>)
    requires OpenAt(lines, d) == Some(0) && lines != [] && !Ends(lines[0])
    ensures lines == Lines(p) + next && OpenAt(next, d) == Some(0) && |next| < |lines|
    decreases |lines|, 0
  {
    next := lines[1..];
    match lines[0]
    case Define(name) => p := Defines(name);
    case Undef(name) => p := Forgets(name);
    case Text(text) => p := Words(text);
    case IfDef(name, which) =>
      var body, tail := Parsed(lines[1..], d + 1);
      var rest;
      rest, next := RestParsed(tail, d + 1);
      p := Group(name, which, body, rest);
      Branches(lines, AllLines(body), RestLines(rest), next, tail);
  }

  lemma Branches(lines: seq<Line>, body: seq<Line>, rest: seq<Line>, next: seq<Line>, tail: seq<Line>)
    requires lines != [] && lines[1..] == body + tail && tail == rest + next
    ensures lines == [lines[0]] + body + rest + next
  {
    assert lines == [lines[0]] + (body + (rest + next));
  }

  lemma {:induction false} RestParsed(lines: seq<Line>, d: nat) returns (rest: Rest, next: seq<Line>)
    requires OpenAt(lines, d) == Some(0) && d > 0 && lines != [] && Ends(lines[0])
    ensures lines == RestLines(rest) + next && OpenAt(next, d - 1) == Some(0) && |next| < |lines|
    decreases |lines|
  {
    if lines[0].EndIf? {
      rest, next := End, lines[1..];
    } else {
      var body, tail := Parsed(lines[1..], d);
      var more;
      more, next := RestParsed(tail, d);
      rest := Or(if lines[0].Else? then None else Some(lines[0].name), body, more);
      Branches(lines, AllLines(body), RestLines(more), next, tail);
    }
  }

  /** Any text at all: it is scanned without an error, and its groups are all closed, if and
      only if each directive belongs to a group and the groups nest no deeper than 32; and
      then it is a nested text and read as one. */
  lemma AnyTextRead(lines: seq<Line>, macros: set<string>) returns (ps: seq<Part>)
    ensures
      var st := Run(Start(macros), lines);
      && (st.errors == 0 && st.top == -1 <==> OpenAt(lines, 0) == Some(0))
      && (OpenAt(lines, 0) == Some(0) ==> lines == AllLines(ps) && st.text == ReadAll(ps, macros).0 && st.macros == ReadAll(ps, macros).1)
  {
    ps := [];
    ErrorsFound(Start(macros), lines);
    if OpenAt(lines, 0) == Some(0) {
      var tail;
      ps, tail := Parsed(lines, 0);
      assert tail == [];
      assert lines == AllLines(ps);
      TextRead(ps, macros);
    }
  }

  // ---------------------------------------------------------------- the scanner

  class Scanner {
    const ifstatus: array<bool>
    const ifdone: array<bool>
    var iBlock: int
    var macList: set<string>     // the names on the list of macros
    var passed: seq<string>      // the text handed to the parser
    var errors: nat

    constructor (macros: set<string>)
      ensures Valid() && fresh(ifstatus) && fresh(ifdone) && S() == Start(macros)
    {
      ifstatus := new bool[MAX_IFBLKS](i => false);
      ifdone := new bool[MAX_IFBLKS](i => false);
      iBlock, macList, passed, errors := -1, macros, [], 0;
      new;
      assert ifstatus[..] == Start(macros).status && ifdone[..] == Start(macros).done;
    }

    ghost predicate Valid()
      reads this, ifstatus, ifdone
    {
      ifstatus != ifdone && Wide(S())
    }

    ghost function S(): State
      reads this, ifstatus, ifdone
    {
      State(ifstatus[..], ifdone[..], iBlock, macList, passed, errors)
    }

    method ProcessIfdef(name: string, inblock: bool, which: bool)
      requires Valid()
      modifies this, ifstatus, ifdone
      ensures Valid() && S() == If(old(S()), inblock, name, which)
    {
      iBlock := iBlock + 1;
      if iBlock >= MAX_IFBLKS {
        errors := errors + 1;
        iBlock := iBlock - 1;
      }
      if !inblock {
        ifstatus[iBlock] := false;
      } else {
        ifstatus[iBlock] := if name in macList then which else !which;
      }
      ifdone[iBlock] := ifstatus[iBlock];
    }

    method ProcessEndif()
      requires Valid()
      modifies this`iBlock, this`errors
      ensures Valid() && S() == Step(old(S()), EndIf)
    {
      if iBlock == -1 {
        errors := errors + 1;
        iBlock := 0;
      } else {
        iBlock := iBlock - 1;
      }
    }

    method ProcessElse()
      requires Valid()
      modifies this`errors, ifstatus, ifdone
      ensures Valid() && S() == Step(old(S()), Else)
    {
      ghost var st := S();
      if iBlock == -1 {
        errors := errors + 1;
        return;
      }
      ifstatus[iBlock] := !ifstatus[iBlock];
      if ifdone[iBlock] {
        ifstatus[iBlock] := false;
      }
      ghost var flip := ifstatus[iBlock];
      assert ifstatus[..] == old(ifstatus[..])[iBlock := flip] && ifdone[..] == old(ifdone[..]);
      assert flip <==> !st.status[iBlock] && !st.done[iBlock];
      if ifstatus[iBlock] {
        var i := iBlock;
        while i > 0
          modifies ifstatus
          invariant 0 <= i <= iBlock
          invariant ifstatus[iBlock] <==> forall k :: i <= k < iBlock ==> st.status[k]
          invariant ifstatus[..] == old(ifstatus[..])[iBlock := ifstatus[iBlock]]
        {
          i := i - 1;
          if !ifstatus[i] {
            ifstatus[iBlock] := false;
            assert ifstatus[..] == old(ifstatus[..])[iBlock := false];
          }
        }
        ifdone[iBlock] := ifstatus[iBlock];
        assert ifdone[..] == old(ifdone[..])[iBlock := ifstatus[iBlock]];
      }
    }

    method ProcessElseifdef(name: string)
      requires Valid()
      modifies this, ifstatus, ifdone
      ensures Valid() && S() == Step(old(S()), ElIfDef(name))
    {
      if iBlock == -1 {
        errors := errors + 1;
      } else {
        ProcessElse();
        if ifstatus[iBlock] {
          iBlock := iBlock - 1;
          ProcessIfdef(name, true, true);
        }
      }
    }

    /** One line, either read or skipped. */
    method ProcessLine(line: Line)
      requires Valid()
      modifies this, ifstatus, ifdone
      ensures Valid() && S() == Step(old(S()), line)
    {
      var inblock := !(iBlock >= 0 && !ifstatus[iBlock]);
      match line {
        case IfDef(name, which) => ProcessIfdef(name, inblock, which);
        case ElIfDef(name) => ProcessElseifdef(name);
        case Else => ProcessElse();
        case EndIf => ProcessEndif();
        case Define(name) =>
          if inblock { macList := macList + {name}; }
        case Undef(name) =>
          if inblock { macList := macList - {name}; }
        case Text(text) =>
          if inblock { passed := passed + [text]; }
      }
    }

    /** Scan a text to its end, where every group must be closed. */
    method Scan(lines: seq<Line>)
      requires Valid()
      modifies this, ifstatus, ifdone
      ensures Valid()
      ensures
        var st := Run(old(S()), lines);
        S() == st.(errors := st.errors + if st.top != -1 then 1 else 0)
    {
      var i := 0;
      while i < |lines|
        invariant 0 <= i <= |lines| && Valid() && S() == Run(old(S()), lines[..i])
      {
        RunSplit(old(S()), lines[..i], [lines[i]]);
        RunOne(S(), lines[i]);
        assert lines[..i + 1] == lines[..i] + [lines[i]];
        ProcessLine(lines[i]);
        i := i + 1;
      }
      assert lines[..i] == lines;
      if iBlock != -1 {
        errors := errors + 1;
      }
    }
  }

  /** The scanner on any text. */
  method ScanText(lines: seq<Line>, macros: set<string>) returns (passed: seq<string>, ok: bool, ghost ps: seq<Part>)
    ensures ok <==> OpenAt(lines, 0) == Some(0)
    ensures ok ==> lines == AllLines(ps) && AllDepth(ps) <= 32 && passed == ReadAll(ps, macros).0
  {
    var s := new Scanner(macros);
    s.Scan(lines);
    ps := AnyTextRead(lines, macros);
    if OpenAt(lines, 0) == Some(0) { TextRead(ps, macros); }
    passed, ok := s.passed, s.errors == 0;
  }
}
