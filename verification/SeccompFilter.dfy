/** Building a whole filter, and the end-to-end theorem: the validated program,
    run by the interpreter, decides as the rule sets say. */
module SeccompFilter {
  import opened Words
  import opened Bpf
  import opened ProgramBuilders
  import opened LabelledCode
  import opened SeccompRules
  import opened SeccompCode
  import opened SeccompExec
  import opened SeccompSearch
  import opened SeccompLabels
  import opened SeccompBuild

  // ----- the call numbers -----

  function Syscalls(sets: seq<RuleSet>): set<u64> {
    if sets == [] then {} else sets[0].rules.Keys + Syscalls(sets[1..])
  }

  lemma {:induction false} InSyscalls(sets: seq<RuleSet>, x: u64)
    ensures x in Syscalls(sets) <==> exists j :: 0 <= j < |sets| && x in sets[j].rules
  {
    if sets != [] {
      InSyscalls(sets[1..], x);
      if exists j :: 0 <= j < |sets| && x in sets[j].rules {
        var j :| 0 <= j < |sets| && x in sets[j].rules;
        if j > 0 { assert sets[1..][j - 1] == sets[j]; }
      }
      if x in Syscalls(sets[1..]) {
        var j :| 0 <= j < |sets[1..]| && x in sets[1..][j].rules;
        assert sets[j + 1] == sets[1..][j];
      }
    }
  }

  /** s lists the elements of xs in increasing order. */
  ghost predicate Lists(s: seq<u64>, xs: set<u64>) {
    StrictlySorted(s) && forall x :: x in s <==> x in xs
  }

  lemma {:induction false} ListIsUnique(s: seq<u64>, s': seq<u64>, xs: set<u64>)
    requires Lists(s, xs) && Lists(s', xs)
    ensures s == s'
    decreases |s|
  {
    if s == [] {
      assert forall i :: 0 <= i < |s'| ==> s'[i] in s';
    } else {
      assert s[0] in s && s[0] in s';
      assert s'[0] in s' && s'[0] in s;
      assert s[0] == s'[0];
      var ys := xs - {s[0]};
      Rest(s, xs);
      Rest(s', xs);
      ListIsUnique(s[1..], s'[1..], ys);
      assert s == [s[0]] + s[1..] && s' == [s'[0]] + s'[1..];
    }
  }

  lemma Rest(s: seq<u64>, xs: set<u64>)
    requires Lists(s, xs) && s != []
    ensures Lists(s[1..], xs - {s[0]})
  {
    var t := s[1..];
    forall x ensures x in t <==> x in xs - {s[0]} {
      if x in s && x != s[0] {
        var i :| 0 <= i < |s| && s[i] == x;
        assert t[i - 1] == x;
      }
      if x in t {
        var i :| 0 <= i < |t| && t[i] == x;
        assert s[i + 1] == x;
      }
    }
  }

  lemma SplicedMembers(s: seq<u64>, i: nat, x: u64, y: u64)
    requires i <= |s|
    ensures y in s[..i] + [x] + s[i..] <==> y in s || y == x
  {
    assert s == s[..i] + s[i..];
  }

  /** Insert into a sorted list. */
  method InsertSorted(s: seq<u64>, x: u64) returns (r: seq<u64>)
    requires StrictlySorted(s) && x !in s
    ensures StrictlySorted(r) && forall y :: y in r <==> y in s || y == x
  {
    var i := 0;
    while i < |s| && s[i] < x
      invariant 0 <= i <= |s| && forall j :: 0 <= j < i ==> s[j] < x
    {
      i := i + 1;
    }
    r := s[..i] + [x] + s[i..];
    forall y ensures y in r <==> y in s || y == x { SplicedMembers(s, i, x, y); }
  }

  /** All call numbers of the rule sets, sorted. */
  method SortedSyscalls(sets: seq<RuleSet>) returns (r: seq<u64>)
    ensures Lists(r, Syscalls(sets))
  {
    r := [];
    var todo := Syscalls(sets);
    while todo != {}
      invariant todo <= Syscalls(sets)
      invariant Lists(r, Syscalls(sets) - todo)
      decreases todo
    {
      var x :| x in todo;
      r := InsertSorted(r, x);
      todo := todo - {x};
    }
  }

  // ----- building -----

  /** No rule has an entry of an unknown type, and no rule set is shadowed by a
      blanket one. */
  ghost predicate CleanSets(sets: seq<RuleSet>) {
    forall x :: x in Syscalls(sets) ==> Clean(sets, x)
  }

  lemma {:induction false} AllCleanIff(sets: seq<RuleSet>, n: Tree)
    ensures AllClean(sets, n) <==> forall x :: x in Values(n) ==> Clean(sets, x)
  {
    hide Clean;
    if n.Node? {
      AllCleanIff(sets, n.left);
      AllCleanIff(sets, n.right);
    }
  }

  /** What BuildProgram makes of rule sets whose call numbers are listed by s. */
  ghost predicate Built(r: Option<seq<Insn>>, sets: seq<RuleSet>, s: seq<u64>, arch: u32, defaultAction: u32,
                        badArchAction: u32) {
    var t := ProgramCode(sets, s, arch, defaultAction, badArchAction);
    && (r.Some? <==> CleanSets(sets) && Resolvable(t))
    && (r.Some? ==> Assembled(r.value, t))
  }

  /** Emit the search tree over all call numbers. */
  method BuildIndex(p: Builder, sets: seq<RuleSet>, s: seq<u64>) returns (ok: bool)
    requires p.Valid() && Lists(s, Syscalls(sets)) && (sets != [] ==> s != [])
    requires Unique(p.calls + IndexCode(sets, s))
    modifies p
    ensures p.Valid() && (ok <==> CleanSets(sets))
    ensures ok ==> p.calls == old(p.calls) + IndexCode(sets, s)
  {
    hide Labels, ProgramBuilders.Code, TreeCode, Unique, Clean;
    if sets == [] {
      return true;
    }
    var root := CreateBST(s);
    BSTValues(s);
    AllCleanIff(sets, root);
    hide CreateBST;
    assert p.calls + IndexCode(sets, s) == p.calls + [Load(OFFSET_NR)] + TreeCode(sets, root, true);
    p.AddStmt(LD | ABS | W, OFFSET_NR);
    ok := Traverse(p, root, true, sets);
  }

  /** Build the filter program. It can fail on a rule entry of an unknown type, a
      shadowed rule set, or a jump too long for its field. */
  method BuildProgram(sets: seq<RuleSet>, arch: u32, defaultAction: u32, badArchAction: u32)
    returns (r: Option<seq<Insn>>)
    requires sets != [] ==> Syscalls(sets) != {}
    ensures forall s :: Lists(s, Syscalls(sets)) ==> Built(r, sets, s, arch, defaultAction, badArchAction)
  {
    hide Labels, ProgramBuilders.Code, IndexCode, Unique, CleanSets, Syscalls;
    var s := SortedSyscalls(sets);
    forall s' | Lists(s', Syscalls(sets)) ensures s' == s { ListIsUnique(s', s, Syscalls(sets)); }
    ghost var t := ProgramCode(sets, s, arch, defaultAction, badArchAction);
    ghost var f, g := ArchCode(arch, badArchAction), IndexCode(sets, s);
    ProgramMarks(sets, s, arch, defaultAction, badArchAction);
    NonEmptyList(s, Syscalls(sets));
    hide Lists;
    var program := new ProgramBuilder<Label>();
    program.AddStmt(LD | ABS | W, OFFSET_ARCH);
    program.AddJump(JEQ_K, arch, 1, 0);
    program.AddStmt(RET | SRC_K, badArchAction);
    assert program.calls == f;
    assert t == f + g + [Mark(DefaultAction), RetK(defaultAction)];
    UniquePrefix(f + g, [Mark(DefaultAction), RetK(defaultAction)]);
    var ok := BuildIndex(program, sets, s);
    if !ok {
      return None;
    }
    assert t == program.calls + ([Mark(DefaultAction)] + [RetK(defaultAction)]);
    PlaceMark(program, DefaultAction, [RetK(defaultAction)]);
    program.AddStmt(RET | SRC_K, defaultAction);
    assert program.calls == t;
    ok := program.ResolveLabels();
    r := if ok then Some(program.instructions) else None;
  }

  lemma NonEmptyList(s: seq<u64>, xs: set<u64>)
    requires Lists(s, xs)
    ensures xs != {} ==> s != []
  {
    if xs != {} {
      var x :| x in xs;
      assert x in s;
    }
  }

  // ----- running -----

  /** What the filter returns, exactly. */
  function FilterResult(sets: seq<RuleSet>, s: seq<u64>, arch: u32, defaultAction: u32, badArchAction: u32,
                        d: SeccompData): u32 {
    if Arch(d) != arch then badArchAction
    else if sets == [] || s == [] then defaultAction
    else Search(sets, [CreateBST(s)], Nr(d), d, defaultAction)
  }

  lemma ArchRuns(t: Code, arch: u32, badArchAction: u32, d: SeccompData)
    requires |t| > 3 && At(t, 0, ArchCode(arch, badArchAction))
    ensures Go(t, 0, d, ZERO_MACHINE) == if Arch(d) != arch then Some(badArchAction)
                                        else Go(t, 3, d, ZERO_MACHINE.(a := Arch(d)))
  {
    var f := ArchCode(arch, badArchAction);
    assert t[0 + 0] == f[0] && t[0 + 1] == f[1] && t[0 + 2] == f[2];
    var m := ZERO_MACHINE.(a := Arch(d));
    AtLoad(t, 0, OFFSET_ARCH, d, ZERO_MACHINE);
    TestIsCondition(JEQ_K, arch, m);
    ConditionalStep(Jump(JEQ_K, arch, 1, 0), In(d), m, Line(t, 1));
    hide Step;
    assert Skip(t, 2, 0) == 2;
    assert Skip(t, 2, 1) == Skip(t, 3, 0) == 3;
    AtRet(t, 2, badArchAction, d, m);
  }

  /** The labelled program returns FilterResult. */
  lemma ProgramParts(sets: seq<RuleSet>, s: seq<u64>, arch: u32, defaultAction: u32, badArchAction: u32)
    ensures var t, g := ProgramCode(sets, s, arch, defaultAction, badArchAction), IndexCode(sets, s);
            && At(t, 0, ArchCode(arch, badArchAction)) && At(t, 3, g) && |t| == 3 + |g| + 2
            && t[3 + |g|] == Mark(DefaultAction) && t[3 + |g| + 1] == RetK(defaultAction)
  {
    hide IndexCode;
    var t := ProgramCode(sets, s, arch, defaultAction, badArchAction);
    var f, g, h := ArchCode(arch, badArchAction), IndexCode(sets, s), [Mark(DefaultAction), RetK(defaultAction)];
    assert At(t, 0, f + g + h);
    AtSplit(t, 0, f + g, h);
    AtSplit(t, 0, f, g);
    var e := 3 + |g|;
    assert |f| == 3 && |f + g| == e;
    assert t[e + 0] == h[0] && t[e + 1] == h[1];
  }

  lemma ProgramRuns(sets: seq<RuleSet>, s: seq<u64>, arch: u32, defaultAction: u32, badArchAction: u32, d: SeccompData)
    requires Lists(s, Syscalls(sets)) && CleanSets(sets)
    ensures Go(ProgramCode(sets, s, arch, defaultAction, badArchAction), 0, d, ZERO_MACHINE)
         == Some(FilterResult(sets, s, arch, defaultAction, badArchAction, d))
  {
    hide Unique, Search, At, CreateBST, ProgramCode, ArchCode, TreeCode;
    var t := ProgramCode(sets, s, arch, defaultAction, badArchAction);
    ProgramParts(sets, s, arch, defaultAction, badArchAction);
    ProgramMarks(sets, s, arch, defaultAction, badArchAction);
    ArchRuns(t, arch, badArchAction, d);
    var m := ZERO_MACHINE.(a := Arch(d));
    if Arch(d) == arch {
      if sets == [] || s == [] {
        DefaultRuns(t, 3, defaultAction, d, m);
      } else {
        IndexRuns(t, sets, s, defaultAction, d, m);
      }
    }
  }

  lemma IndexLayout(t: Code, sets: seq<RuleSet>, s: seq<u64>)
    requires sets != [] && s != [] && At(t, 3, IndexCode(sets, s))
    ensures t[3] == Load(OFFSET_NR) && At(t, 4, TreeCode(sets, CreateBST(s), true))
    ensures 3 + |IndexCode(sets, s)| == 4 + |TreeCode(sets, CreateBST(s), true)|
  {
    hide TreeCode, CreateBST;
    var f := TreeCode(sets, CreateBST(s), true);
    AtSplit(t, 3, [Load(OFFSET_NR)], f);
    assert t[3 + 0] == [Load(OFFSET_NR)][0];
  }

  lemma IndexRuns(t: Code, sets: seq<RuleSet>, s: seq<u64>, defaultAction: u32, d: SeccompData, m: Machine)
    requires Lists(s, Syscalls(sets)) && CleanSets(sets) && sets != [] && s != []
    requires Unique(t) && At(t, 3, IndexCode(sets, s)) && DefaultAt(t, 3 + |IndexCode(sets, s)|, defaultAction)
    ensures Go(t, 3, d, m) == Some(Search(sets, [CreateBST(s)], Nr(d), d, defaultAction))
  {
    hide Unique, Search, At, Go, Clean, CreateBST, TreeCode;
    hide BodyCode, TreesCode, AllClean, Values, Bst, Syscalls, StrictlySorted;
    var n := CreateBST(s);
    BSTValues(s);
    AllCleanIff(sets, n);
    IndexLayout(t, sets, s);
    RootCode(sets, n);
    assert [n.left, n.right] + [] == [n.left, n.right] && [n] + [] == [n];
    AtLoad(t, 3, OFFSET_NR, d, m);
    NodeRuns(t, 4, sets, n, [], defaultAction, d, m.(a := Nr(d)));
  }

  lemma Regroup(f: Code, l: Code, r: Code)
    ensures [] + f + l + r == f + (l + (r + []))
  {
  }

  lemma RootCode(sets: seq<RuleSet>, n: Tree)
    requires n.Node?
    ensures TreeCode(sets, n, true) == BodyCode(sets, n) + TreesCode(sets, [n.left, n.right])
  {
    hide BodyCode;
    Regroup(BodyCode(sets, n), TreeCode(sets, n.left, false), TreeCode(sets, n.right, false));
    assert TreesCode(sets, [n.right]) == TreeCode(sets, n.right, false) + TreesCode(sets, []) by {
      assert [n.right][1..] == [];
    }
    assert TreesCode(sets, [n.left, n.right]) == TreeCode(sets, n.left, false) + TreesCode(sets, [n.right]) by {
      assert [n.left, n.right][1..] == [n.right];
    }
  }

  /** The built filter, run by the interpreter, returns FilterResult. */
  lemma FilterRuns(p: seq<Insn>, sets: seq<RuleSet>, s: seq<u64>, arch: u32, defaultAction: u32, badArchAction: u32,
                   d: SeccompData)
    requires Lists(s, Syscalls(sets)) && Built(Some(p), sets, s, arch, defaultAction, badArchAction)
    ensures Run(p, In(d), 0, ZERO_MACHINE) == Return(FilterResult(sets, s, arch, defaultAction, badArchAction, d))
  {
    hide Run, RunLabelled, FilterResult, CleanSets, Lists, Resolvable, Assembled;
    ProgramRuns(sets, s, arch, defaultAction, badArchAction, d);
    ResolvedProgram(ProgramCode(sets, s, arch, defaultAction, badArchAction), p, In(d), ZERO_MACHINE);
  }
}
