/** The emitted code marks every label at most once. */
module SeccompLabels {
  import opened Words
  import opened Bpf
  import opened ProgramBuilders
  import opened SeccompRules
  import opened SeccompCode
  import opened SeccompExec

  lemma UniqueConcat(f: Code, g: Code)
    requires Unique(f) && Unique(g)
    requires forall i, j :: 0 <= i < |f| && 0 <= j < |g| && f[i].Mark? ==> f[i] != g[j]
    ensures Unique(f + g)
  {
    var h := f + g;
    forall i, j | 0 <= i < j < |h| && h[i].Mark? ensures h[i] != h[j] {
      if j < |f| {
        assert h[i] == f[i] && h[j] == f[j];
      } else if i < |f| {
        assert h[i] == f[i] && h[j] == g[j - |f|];
      } else {
        assert h[i] == g[i - |f|] && h[j] == g[j - |f|];
      }
    }
  }

  // ----- which labels a fragment may mark -----

  predicate ArgMark(l: Label, set_: nat, sysno: u64, rule: nat, i: nat) {
    l.RuleLabel? && l.set_ == set_ && l.sysno == sysno && l.rule == rule && l.arg >= i
  }

  predicate RuleMark(l: Label, set_: nat, sysno: u64, j: nat) {
    (l.RuleLabel? || l.RuleViolation?) && l.set_ == set_ && l.sysno == sysno && l.rule >= j
  }

  predicate SetMark(l: Label, sysno: u64, j: nat) {
    (l.RuleLabel? || l.RuleViolation? || l.VsyscallViolation?) && l.sysno == sysno && l.set_ >= j
  }

  predicate NodeMark(l: Label, sysno: u64) { !l.DefaultAction? && l.sysno == sysno }

  lemma ArgMarks(arg: ArgRule, i: nat, set_: nat, sysno: u64, rule: nat)
    requires i < RULE_SIZE
    ensures var f := ArgCode(arg, i, set_, sysno, rule);
            && Unique(f)
            && forall j :: 0 <= j < |f| && f[j].Mark? ==> ArgMark(f[j].l, set_, sysno, rule, i) && f[j].l.arg == i
  {
  }

  lemma {:induction false} ArgsMarks(r: Rule, i: nat, set_: nat, sysno: u64, rule: nat)
    requires i <= RULE_SIZE
    ensures var f := ArgsCode(r, i, set_, sysno, rule);
            Unique(f) && forall j :: 0 <= j < |f| && f[j].Mark? ==> ArgMark(f[j].l, set_, sysno, rule, i)
    decreases RULE_SIZE - i
  {
    if i < RULE_SIZE {
      ArgsMarks(r, i + 1, set_, sysno, rule);
      ArgMarks(r[i], i, set_, sysno, rule);
      hide ArgCode, Unique;
      UniqueConcat(ArgCode(r[i], i, set_, sysno, rule), ArgsCode(r, i + 1, set_, sysno, rule));
    }
  }

  lemma RuleMarks(r: Rule, action: u32, set_: nat, sysno: u64, rule: nat)
    ensures var f := RuleCode(r, action, set_, sysno, rule);
            && Unique(f)
            && forall j :: 0 <= j < |f| && f[j].Mark? ==> RuleMark(f[j].l, set_, sysno, rule) && f[j].l.rule == rule
  {
    ArgsMarks(r, 0, set_, sysno, rule);
    var tail := if Labelled(r, 0) then [Mark(RuleViolation(set_, sysno, rule))] else [];
    var f := ArgsCode(r, 0, set_, sysno, rule);
    assert Unique([RetK(action)]) && Unique(tail);
    hide ArgsCode, Unique, Labelled;
    UniqueConcat(f, [RetK(action)]);
    UniqueConcat(f + [RetK(action)], tail);
  }

  lemma {:induction false} RulesMarks(rules: seq<Rule>, j: nat, action: u32, set_: nat, sysno: u64)
    requires j <= |rules|
    ensures var f := RulesCode(rules, j, action, set_, sysno);
            Unique(f) && forall i :: 0 <= i < |f| && f[i].Mark? ==> RuleMark(f[i].l, set_, sysno, j)
    decreases |rules| - j
  {
    if j < |rules| {
      RuleMarks(rules[j], action, set_, sysno, j);
      RulesMarks(rules, j + 1, action, set_, sysno);
      hide RuleCode, Unique;
      UniqueConcat(RuleCode(rules[j], action, set_, sysno, j), RulesCode(rules, j + 1, action, set_, sysno));
    }
  }

  lemma MatchersMarks(rs: RuleSet, set_: nat, sysno: u64)
    requires sysno in rs.rules
    ensures var f := MatchersCode(rs, set_, sysno);
            Unique(f) && forall i :: 0 <= i < |f| && f[i].Mark? ==> RuleMark(f[i].l, set_, sysno, 0)
  {
    RulesMarks(rs.rules[sysno], 0, rs.action, set_, sysno);
  }

  lemma SetMarks(rs: RuleSet, set_: nat, sysno: u64)
    ensures var f := SetCode(rs, set_, sysno);
            && Unique(f)
            && forall i :: 0 <= i < |f| && f[i].Mark? ==> SetMark(f[i].l, sysno, set_) && f[i].l.set_ == set_
  {
    if sysno in rs.rules {
      MatchersMarks(rs, set_, sysno);
      var l := VsyscallViolation(set_, sysno);
      var test, f := [Load(OFFSET_IP_HIGH), False(JSET_K, TWO_31, 0, l)], MatchersCode(rs, set_, sysno);
      assert Unique(test) && Unique([Mark(l)]);
      hide MatchersCode, Unique;
      UniqueConcat(test, f);
      UniqueConcat(test + f, [Mark(l)]);
    }
  }

  lemma {:induction false} SetsMarks(sets: seq<RuleSet>, j: nat, sysno: u64)
    requires j <= |sets|
    ensures var f := SetsCode(sets, j, sysno);
            Unique(f) && forall i :: 0 <= i < |f| && f[i].Mark? ==> SetMark(f[i].l, sysno, j)
    decreases |sets| - j
  {
    if j < |sets| {
      SetMarks(sets[j], j, sysno);
      SetsMarks(sets, j + 1, sysno);
      hide SetCode, Unique;
      UniqueConcat(SetCode(sets[j], j, sysno), SetsCode(sets, j + 1, sysno));
    }
  }

  lemma ChecksMarks(sets: seq<RuleSet>, v: u64)
    ensures var f := ChecksCode(sets, v);
            Unique(f) && forall i :: 0 <= i < |f| && f[i].Mark? ==> NodeMark(f[i].l, v) && !f[i].l.Index?
  {
    SetsMarks(sets, 0, v);
    var mark, f := [Mark(CheckArgs(v))], SetsCode(sets, 0, v);
    var tail := if Emitted(sets, 0, v) then [] else [Direct(DefaultAction)];
    assert Unique(mark) && Unique(tail);
    hide SetsCode, Unique, Emitted;
    UniqueConcat(mark, f);
    UniqueConcat(mark + f, tail);
  }

  lemma NodeMarks(sets: seq<RuleSet>, n: Tree)
    requires n.Node?
    ensures var f := BodyCode(sets, n);
            Unique(f) && forall i :: 0 <= i < |f| && f[i].Mark? ==> NodeMark(f[i].l, n.value) && !f[i].l.Index?
  {
    ChecksMarks(sets, n.value);
    var turn := TurnCode(n);
    assert Unique(turn) && forall i :: 0 <= i < |turn| ==> !turn[i].Mark?;
    hide Unique, TurnCode, ChecksCode;
    UniqueConcat(turn, ChecksCode(sets, n.value));
  }

  // ----- trees -----

  function Values(n: Tree): set<u64> {
    if n.Nil? then {} else Values(n.left) + {n.value} + Values(n.right)
  }

  /** Values to the left are smaller, values to the right larger. */
  ghost predicate Bst(n: Tree) {
    n.Node? ==>
      && (forall x :: x in Values(n.left) ==> x < n.value)
      && (forall x :: x in Values(n.right) ==> n.value < x)
      && Bst(n.left) && Bst(n.right)
  }

  predicate TreeMark(l: Label, values: set<u64>) { !l.DefaultAction? && l.sysno in values }

  lemma {:induction false} TreeMarks(sets: seq<RuleSet>, n: Tree, root: bool)
    requires Bst(n)
    ensures var f := TreeCode(sets, n, root);
            Unique(f) && forall i :: 0 <= i < |f| && f[i].Mark? ==> TreeMark(f[i].l, Values(n))
  {
    if n.Node? {
      TreeMarks(sets, n.left, false);
      TreeMarks(sets, n.right, false);
      NodeMarks(sets, n);
      var mark := if root then [] else [Mark(Index(n.value))];
      var f, l, r := BodyCode(sets, n), TreeCode(sets, n.left, false), TreeCode(sets, n.right, false);
      assert Unique(mark);
      hide BodyCode, Unique;
      UniqueConcat(mark, f);
      assert forall i :: 0 <= i < |mark + f| && (mark + f)[i].Mark? ==> NodeMark((mark + f)[i].l, n.value);
      UniqueConcat(mark + f, l);
      UniqueConcat(mark + f + l, r);
    }
  }

  predicate StrictlySorted(s: seq<u64>) { forall i, j :: 0 <= i < j < |s| ==> s[i] < s[j] }

  lemma SortedParts(s: seq<u64>, i: nat, below: seq<u64>, above: seq<u64>)
    requires StrictlySorted(s) && i < |s| && below == s[..i] && above == s[i + 1..]
    ensures forall x :: x in below ==> x < s[i]
    ensures forall x :: x in above ==> s[i] < x
    ensures forall x :: x in s <==> x in below || x == s[i] || x in above
    ensures StrictlySorted(below) && StrictlySorted(above)
  {
    assert s == below + [s[i]] + above;
  }

  /** The tree over a sorted list is a search tree with the list's elements. */
  lemma {:induction false} BSTValues(s: seq<u64>)
    requires |s| > 0 && StrictlySorted(s)
    ensures forall x :: x in Values(CreateBST(s)) <==> x in s
    ensures Bst(CreateBST(s))
    decreases |s|
  {
    var i := |s| / 2;
    SortedParts(s, i, s[..i], s[i + 1..]);
    hide StrictlySorted;
    if i > 0 { BSTValues(s[..i]); }
    if i + 1 < |s| { BSTValues(s[i + 1..]); }
  }

  /** The whole program marks no label twice. */
  lemma ProgramMarks(sets: seq<RuleSet>, syscalls: seq<u64>, arch: u32, defaultAction: u32, badArchAction: u32)
    requires StrictlySorted(syscalls)
    ensures Unique(ProgramCode(sets, syscalls, arch, defaultAction, badArchAction))
  {
    var f, g, h := ArchCode(arch, badArchAction), IndexCode(sets, syscalls), [Mark(DefaultAction), RetK(defaultAction)];
    IndexMarks(sets, syscalls);
    assert Unique(f) && Unique(h);
    assert forall i :: 0 <= i < |f| ==> !f[i].Mark?;
    hide Unique, ArchCode, IndexCode;
    UniqueConcat(f, g);
    UniqueConcat(f + g, h);
  }

  lemma IndexMarks(sets: seq<RuleSet>, syscalls: seq<u64>)
    requires StrictlySorted(syscalls)
    ensures var g := IndexCode(sets, syscalls);
            Unique(g) && forall i :: 0 <= i < |g| && g[i].Mark? ==> !g[i].l.DefaultAction?
  {
    if sets != [] && syscalls != [] {
      BSTValues(syscalls);
      TreeMarks(sets, CreateBST(syscalls), true);
      assert Unique([Load(OFFSET_NR)]);
      hide Unique, CreateBST, TreeCode;
      UniqueConcat([Load(OFFSET_NR)], TreeCode(sets, CreateBST(syscalls), true));
    }
  }
}
