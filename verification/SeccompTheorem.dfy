/** When the built filter decides as the rule sets say. */
module SeccompTheorem {
  import opened Words
  import opened Bpf
  import opened ProgramBuilders
  import opened LabelledCode
  import opened SeccompRules
  import opened SeccompCode
  import opened SeccompExec
  import opened SeccompSearch
  import opened SeccompLabels
  import opened SeccompBuild
  import opened SeccompFilter
  import opened SeccompResolve
  import opened SeccompAccept

  // ----- searching -----

  /** Every call number fits the 32 bits the filter compares. */
  ghost predicate Narrow(values: set<u64>) { forall x :: x in values ==> x < TWO_32 }

  /** The call number whose node a search for key ends at. */
  function Reached(n: Tree, key: u32): Option<u64> {
    if n.Nil? then None
    else if key == Number(n.value) then Some(n.value)
    else if key > Number(n.value) then Reached(n.right, key)
    else Reached(n.left, key)
  }

  /** What follows the node a search for key ends at, in the code of n and rest. */
  function Behind(n: Tree, rest: seq<Tree>, key: u32): seq<Tree> {
    if n.Nil? then rest
    else if key == Number(n.value) then [n.left, n.right] + rest
    else if key > Number(n.value) then Behind(n.right, rest, key)
    else Behind(n.left, [n.right] + rest, key)
  }

  /** What a search answers, for call numbers of any width. */
  lemma {:induction false} SearchReaches(sets: seq<RuleSet>, n: Tree, rest: seq<Tree>, key: u32, d: SeccompData,
                                         defaultAction: u32)
    requires n.Node?
    ensures Search(sets, [n] + rest, key, d, defaultAction) ==
              var v := Reached(n, key);
              if v.None? then defaultAction
              else if Decide(sets, v.value, d, 0).Some? then Decide(sets, v.value, d, 0).value
              else if Emitted(sets, 0, v.value)
                then Search(sets, Behind(n, rest, key), Word(d, OFFSET_IP_HIGH), d, defaultAction)
              else defaultAction
    decreases n
  {
    hide Decide, Emitted, Word;
    var Node(l, v, r) := n;
    assert ([n] + rest)[1..] == rest && ([n] + rest)[0] == n;
    assert [l, r] + rest == [l] + ([r] + rest);
    if key > Number(v) {
      if r.Node? { SearchReaches(sets, r, rest, key, d, defaultAction); }
    } else if key < Number(v) {
      if l.Node? { SearchReaches(sets, l, [r] + rest, key, d, defaultAction); }
    }
  }

  /** A search tree of 32-bit numbers leads to the number searched for. */
  lemma {:induction false} NarrowReached(n: Tree, key: u32)
    requires Bst(n) && Narrow(Values(n))
    ensures Reached(n, key) == if key in Values(n) then Some(key) else None
  {
    if n.Node? {
      assert n.value in Values(n) && Number(n.value) == n.value;
      if key > n.value { NarrowReached(n.right, key); }
      if key < n.value { NarrowReached(n.left, key); }
    }
  }

  /** Search trees of 32-bit numbers with no number in common. */
  ghost predicate Tidy(trees: seq<Tree>) {
    && (forall i :: 0 <= i < |trees| ==> Bst(trees[i]) && Narrow(Values(trees[i])))
    && forall i, j :: 0 <= i < j < |trees| ==> Values(trees[i]) !! Values(trees[j])
  }

  lemma TidyChildren(n: Tree, rest: seq<Tree>)
    requires n.Node? && Tidy([n] + rest)
    ensures Tidy([n.left, n.right] + rest) && Tidy([n.right] + rest)
    ensures n.value !in Values(n.left) + Values(n.right) && forall i :: 0 <= i < |rest| ==> n.value !in Values(rest[i])
  {
    hide Bst, Narrow;
    var a, b, c := [n] + rest, [n.left, n.right] + rest, [n.right] + rest;
    assert a[0] == n && Bst(a[0]) && Narrow(Values(a[0]));
    assert Bst(n.left) && Bst(n.right) && n.value in Values(n) && Values(n.left) !! Values(n.right)
        && n.value !in Values(n.left) + Values(n.right) by { BstParts(n); }
    assert Narrow(Values(n.left)) && Narrow(Values(n.right)) by { NarrowParts(n); }
    forall i | 0 <= i < |rest| ensures Bst(rest[i]) && Narrow(Values(rest[i])) && Values(n) !! Values(rest[i]) {
      assert a[i + 1] == rest[i] && Values(a[0]) !! Values(a[i + 1]);
    }
    forall i, j | 0 <= i < j < |rest| ensures Values(rest[i]) !! Values(rest[j]) {
      assert a[i + 1] == rest[i] && a[j + 1] == rest[j] && Values(a[i + 1]) !! Values(a[j + 1]);
    }
  }

  lemma BstParts(n: Tree)
    requires n.Node? && Bst(n)
    ensures Bst(n.left) && Bst(n.right) && n.value in Values(n) && Values(n.left) !! Values(n.right)
    ensures n.value !in Values(n.left) + Values(n.right)
  {
  }

  lemma NarrowParts(n: Tree)
    requires n.Node? && Narrow(Values(n))
    ensures Narrow(Values(n.left)) && Narrow(Values(n.right))
  {
  }

  /** The trees behind a number found do not hold it again. */
  lemma {:induction false} BehindLacks(n: Tree, rest: seq<Tree>, key: u32)
    requires Tidy([n] + rest) && key in Values(n)
    ensures Tidy(Behind(n, rest, key))
    ensures forall i :: 0 <= i < |Behind(n, rest, key)| ==> key !in Values(Behind(n, rest, key)[i])
    decreases n
  {
    hide Tidy;
    TidyChildren(n, rest);
    TidyFirst(n, rest);
    BstSide(n, key);
    assert [n.left, n.right] + rest == [n.left] + ([n.right] + rest);
    if key > n.value {
      BehindLacks(n.right, rest, key);
    } else if key < n.value {
      BehindLacks(n.left, [n.right] + rest, key);
    } else {
      forall i | 0 <= i < |[n.left, n.right] + rest| ensures key !in Values(([n.left, n.right] + rest)[i]) {}
    }
  }

  lemma TidyFirst(n: Tree, rest: seq<Tree>)
    requires Tidy([n] + rest)
    ensures Bst(n) && Narrow(Values(n))
  {
    hide Bst, Narrow, Values;
    assert ([n] + rest)[0] == n;
  }

  lemma BstSide(n: Tree, k: u64)
    requires n.Node? && Bst(n) && Narrow(Values(n)) && k in Values(n)
    ensures Number(n.value) == n.value
    ensures (k > n.value ==> k in Values(n.right)) && (k < n.value ==> k in Values(n.left))
  {
    assert n.value in Values(n);
  }

  /** The list from its first tree that is not empty. */
  function SkipNils(trees: seq<Tree>): (r: seq<Tree>)
    ensures r != [] ==> r[0].Node?
    ensures TotalSize(r) <= TotalSize(trees)
  {
    if trees == [] then [] else if trees[0].Nil? then SkipNils(trees[1..]) else trees
  }

  /** The subtree whose code comes first. */
  function FirstNode(trees: seq<Tree>): Tree { var r := SkipNils(trees); if r == [] then Nil else r[0] }

  lemma {:induction false} SearchSkips(sets: seq<RuleSet>, trees: seq<Tree>, key: u32, d: SeccompData,
                                       defaultAction: u32)
    ensures Search(sets, trees, key, d, defaultAction) == Search(sets, SkipNils(trees), key, d, defaultAction)
  {
    if trees != [] && trees[0].Nil? { SearchSkips(sets, trees[1..], key, d, defaultAction); }
  }

  lemma {:induction false} SkippedAre(trees: seq<Tree>)
    ensures |SkipNils(trees)| <= |trees| && SkipNils(trees) == trees[|trees| - |SkipNils(trees)|..]
  {
    if trees != [] && trees[0].Nil? {
      SkippedAre(trees[1..]);
      var n := |trees| - |SkipNils(trees)|;
      assert trees[1..][n - 1..] == trees[n..];
    }
  }

  lemma TidyTail(trees: seq<Tree>, k: nat)
    requires Tidy(trees) && k <= |trees|
    ensures Tidy(trees[k..])
  {
  }

  /** A number that no tree holds is not found. */
  lemma SearchMisses(sets: seq<RuleSet>, trees: seq<Tree>, key: u32, d: SeccompData, defaultAction: u32)
    requires Tidy(trees) && forall i :: 0 <= i < |trees| ==> key !in Values(trees[i])
    ensures Search(sets, trees, key, d, defaultAction) == defaultAction
  {
    hide Bst, Narrow, Values, Reached, Decide, Emitted, Word;
    SearchSkips(sets, trees, key, d, defaultAction);
    SkippedAre(trees);
    var r := SkipNils(trees);
    if r != [] {
      assert r[0] == trees[|trees| - |r|] && r == [r[0]] + r[1..];
      NarrowReached(r[0], key);
      SearchReaches(sets, r[0], r[1..], key, d, defaultAction);
    }
  }

  /** Only the first subtree's code matters, and only for a number it holds. */
  lemma SearchFirst(sets: seq<RuleSet>, trees: seq<Tree>, d: SeccompData, defaultAction: u32)
    requires Tidy(trees)
    ensures var key := Word(d, OFFSET_IP_HIGH);
            Search(sets, trees, key, d, defaultAction) ==
              if key in Values(FirstNode(trees)) && Decide(sets, key, d, 0).Some? then Decide(sets, key, d, 0).value
              else defaultAction
  {
    hide Tidy, Decide, Emitted, Word, Search, Behind;
    var key := Word(d, OFFSET_IP_HIGH);
    SearchSkips(sets, trees, key, d, defaultAction);
    SkippedAre(trees);
    var r := SkipNils(trees);
    TidyTail(trees, |trees| - |r|);
    if r == [] {
      NothingToSearch(sets, key, d, defaultAction);
    } else {
      var n, rest := r[0], r[1..];
      assert r == [n] + rest;
      TidyFirst(n, rest);
      NarrowReached(n, key);
      SearchReaches(sets, n, rest, key, d, defaultAction);
      if key in Values(n) {
        BehindLacks(n, rest, key);
        SearchMisses(sets, Behind(n, rest, key), key, d, defaultAction);
      }
    }
  }

  lemma NothingToSearch(sets: seq<RuleSet>, key: u32, d: SeccompData, defaultAction: u32)
    ensures Search(sets, [], key, d, defaultAction) == defaultAction
  {
  }

  lemma {:induction false} BehindIsSmaller(n: Tree, rest: seq<Tree>, key: u32)
    ensures TotalSize(Behind(n, rest, key)) < TotalSize([n] + rest)
    decreases n
  {
    assert ([n] + rest)[1..] == rest;
    if n.Node? {
      ChildrenAreSmaller(n.left, n.value, n.right, rest);
      assert [n.left, n.right] + rest == [n.left] + ([n.right] + rest);
      if key > Number(n.value) {
        assert ([n.right] + rest)[1..] == rest;
        BehindIsSmaller(n.right, rest, key);
      } else if key < Number(n.value) {
        BehindIsSmaller(n.left, [n.right] + rest, key);
      }
    }
  }

  /** The call number whose rules answer a call, for numbers of any width: the one
      a search leads to, or, where the run falls through the code of that one, the
      one a search behind it for the high word of the instruction pointer does. */
  function Answered(sets: seq<RuleSet>, trees: seq<Tree>, key: u32, d: SeccompData): Option<u64>
    decreases TotalSize(trees)
  {
    var r := SkipNils(trees);
    if r == [] then None
    else
      assert r == [r[0]] + r[1..];
      BehindIsSmaller(r[0], r[1..], key);
      var v := Reached(r[0], key);
      if v.None? || !Falls(sets, v.value, d) then v
      else Answered(sets, Behind(r[0], r[1..], key), Word(d, OFFSET_IP_HIGH), d)
  }

  /** A run that gets to the code of call number x falls through it. */
  predicate Falls(sets: seq<RuleSet>, x: u64, d: SeccompData) {
    Emitted(sets, 0, x) && Decide(sets, x, d, 0).None?
  }

  /** What a search returns is what the rules of the number that answers say. */
  lemma {:induction false} SearchAnswers(sets: seq<RuleSet>, trees: seq<Tree>, key: u32, d: SeccompData,
                                         defaultAction: u32)
    ensures Search(sets, trees, key, d, defaultAction) == Outcome(sets, Answered(sets, trees, key, d), d, defaultAction)
    decreases TotalSize(trees)
  {
    hide Decide, Emitted, Word, Search, Behind, TotalSize, SkipNils, Reached;
    SearchSkips(sets, trees, key, d, defaultAction);
    var r := SkipNils(trees);
    if r == [] {
      NothingToSearch(sets, key, d, defaultAction);
    } else {
      var n, rest := r[0], r[1..];
      assert r == [n] + rest;
      SearchReaches(sets, n, rest, key, d, defaultAction);
      BehindIsSmaller(n, rest, key);
      SearchAnswers(sets, Behind(n, rest, key), Word(d, OFFSET_IP_HIGH), d, defaultAction);
    }
  }

  // ----- the reference matcher -----

  /** The call is listed and ends in a blanket rule set, but nothing matches it:
      that rule set is behind a vsyscall check, and the check fails. */
  predicate FallsThrough(sets: seq<RuleSet>, d: SeccompData) {
    Falls(sets, Nr(d), d)
  }

  lemma {:induction false} UnlistedCall(sets: seq<RuleSet>, x: u64, d: SeccompData, j: nat)
    requires j <= |sets| && forall i :: j <= i < |sets| ==> x !in sets[i].rules
    ensures Decide(sets, x, d, j).None?
    decreases |sets| - j
  {
    if j < |sets| { UnlistedCall(sets, x, d, j + 1); }
  }

  /** What the rules of a call number, if any, say of a call. */
  function Outcome(sets: seq<RuleSet>, v: Option<u64>, d: SeccompData, defaultAction: u32): u32 {
    if v.Some? && Decide(sets, v.value, d, 0).Some? then Decide(sets, v.value, d, 0).value else defaultAction
  }

  lemma VerdictIsOutcome(sets: seq<RuleSet>, arch: u32, defaultAction: u32, badArchAction: u32, d: SeccompData)
    ensures Verdict(sets, defaultAction, badArchAction, arch, d)
         == if Arch(d) != arch then badArchAction else Outcome(sets, Some(Nr(d)), d, defaultAction)
    ensures Nr(d) !in Syscalls(sets) ==>
              Outcome(sets, Some(Nr(d)), d, defaultAction) == defaultAction && !Emitted(sets, 0, Nr(d))
  {
    hide Word, SetMatches;
    var x: u64 := Nr(d);
    InSyscalls(sets, x);
    if x !in Syscalls(sets) {
      UnlistedCall(sets, x, d, 0);
      NotEmitted(sets, 0, x);
    }
  }

  /** The call falls through into the code of another call that is not answered
      by default: the high word of the instruction pointer is a number that the
      next subtree holds, and whose rules match. */
  predicate Diverted(sets: seq<RuleSet>, s: seq<u64>, d: SeccompData, defaultAction: u32)
    requires s != []
  {
    var key := Word(d, OFFSET_IP_HIGH);
    && FallsThrough(sets, d)
    && key in Values(FirstNode(Behind(CreateBST(s), [], Nr(d))))
    && Outcome(sets, Some(key), d, defaultAction) != defaultAction
  }

  /** The filter's result for call numbers that fit 32 bits. */
  lemma NarrowResult(sets: seq<RuleSet>, s: seq<u64>, arch: u32, defaultAction: u32, badArchAction: u32, d: SeccompData)
    requires Lists(s, Syscalls(sets)) && Narrow(Syscalls(sets)) && Arch(d) == arch && s != []
    ensures FilterResult(sets, s, arch, defaultAction, badArchAction, d) ==
              if Diverted(sets, s, d, defaultAction) then Outcome(sets, Some(Word(d, OFFSET_IP_HIGH)), d, defaultAction)
              else Outcome(sets, Some(Nr(d)), d, defaultAction)
  {
    hide Decide, Word, Search, Behind, CreateBST, Emitted, FirstNode, Tidy;
    var n := CreateBST(s);
    BSTValues(s);
    if sets == [] { NoSyscalls(); }
    assert [n] + [] == [n];
    VerdictIsOutcome(sets, arch, defaultAction, badArchAction, d);
    NarrowReached(n, Nr(d));
    SearchReaches(sets, n, [], Nr(d), d, defaultAction);
    assert Tidy([n]) by { OneIsTidy(n); }
    if Nr(d) in Values(n) {
      BehindLacks(n, [], Nr(d));
      SearchFirst(sets, Behind(n, [], Nr(d)), d, defaultAction);
    }
  }

  lemma OneIsTidy(n: Tree)
    requires Bst(n) && Narrow(Values(n))
    ensures Tidy([n])
  {
  }

  /** No rule set that needs a vsyscall check has an empty list of rules. */
  ghost predicate NoVsyscallBlanket(sets: seq<RuleSet>) {
    forall j, x :: 0 <= j < |sets| && Blanket(sets[j], x) ==> !sets[j].vsyscall
  }

  lemma {:induction false} BlanketDecides(sets: seq<RuleSet>, x: u64, d: SeccompData, j: nat)
    requires j <= |sets| && NoVsyscallBlanket(sets) && Emitted(sets, j, x)
    ensures Decide(sets, x, d, j).Some?
    decreases |sets| - j
  {
    hide RulesMatch;
    if Blanket(sets[j], x) {
      BlanketMatches(sets[j], x, d);
    } else {
      BlanketDecides(sets, x, d, j + 1);
    }
  }

  /** The tree over s leads every call to its own rules, if it has any. */
  ghost predicate Straight(s: seq<u64>) {
    s != [] ==> forall x :: x in s ==> Leads(s, Number(x))
  }

  predicate Leads(s: seq<u64>, key: u32)
    requires s != []
  {
    Reached(CreateBST(s), key) == if key in s then Some(key) else None
  }

  /** Checking the low words of the listed numbers is enough. */
  lemma StraightIff(s: seq<u64>)
    requires s != [] && StrictlySorted(s)
    ensures Straight(s) <==> forall key: u32 :: Leads(s, key)
  {
    hide CreateBST, StrictlySorted, Leads;
    BSTValues(s);
    LowOfLow();
    if Straight(s) {
      forall key: u32 ensures Leads(s, key) {
        if v :| v in s && Number(v) == key {
          assert Leads(s, Number(v));
        } else {
          ReachedIsListed(CreateBST(s), key);
          NotReached(s, key);
        }
      }
    }
  }

  lemma LowOfLow()
    ensures forall key: u32 :: Number(key) == key
  {
  }

  lemma NotReached(s: seq<u64>, key: u32)
    requires s != [] && Reached(CreateBST(s), key).None? && key !in s
    ensures Leads(s, key)
  {
  }

  lemma {:induction false} ReachedIsListed(n: Tree, key: u32)
    ensures Reached(n, key).Some? ==> Reached(n, key).value in Values(n) && Number(Reached(n, key).value) == key
  {
    if n.Node? {
      ReachedIsListed(n.left, key);
      ReachedIsListed(n.right, key);
    }
  }

  /** Call numbers that fit 32 bits are reached. Wider ones may be harmless. */
  lemma NarrowIsStraight(s: seq<u64>)
    requires StrictlySorted(s) && forall x :: x in s ==> x < TWO_32
    ensures Straight(s)
  {
    hide CreateBST, StrictlySorted;
    if s != [] {
      BSTValues(s);
      forall x | x in s ensures Leads(s, Number(x)) { NarrowReached(CreateBST(s), Number(x)); }
    }
  }

  /** Without vsyscall blankets, the result is what the rules of the number the
      tree leads to say. */
  lemma ReachedResult(sets: seq<RuleSet>, s: seq<u64>, arch: u32, defaultAction: u32, badArchAction: u32,
                      d: SeccompData)
    requires Lists(s, Syscalls(sets)) && NoVsyscallBlanket(sets) && Arch(d) == arch && s != []
    ensures FilterResult(sets, s, arch, defaultAction, badArchAction, d)
         == Outcome(sets, Reached(CreateBST(s), Nr(d)), d, defaultAction)
  {
    hide Decide, Word, Search, Behind, CreateBST, Emitted, NoVsyscallBlanket;
    var n := CreateBST(s);
    assert s[0] in s;
    if sets == [] { NoSyscalls(); }
    assert [n] + [] == [n];
    SearchReaches(sets, n, [], Nr(d), d, defaultAction);
    var v := Reached(n, Nr(d));
    if v.Some? && Emitted(sets, 0, v.value) { BlanketDecides(sets, v.value, d, 0); }
  }

  /** The filter over s decides a call as the rule sets say. */
  predicate Right(sets: seq<RuleSet>, s: seq<u64>, defaultAction: u32, d: SeccompData) {
    FilterResult(sets, s, Arch(d), defaultAction, 0, d) == Verdict(sets, defaultAction, 0, Arch(d), d)
  }

  /** Whatever rules the listed calls get, every call is decided right. */
  ghost predicate AlwaysRight(s: seq<u64>) {
    forall sets, defaultAction, d :: Lists(s, Syscalls(sets)) && NoVsyscallBlanket(sets) ==>
      Right(sets, s, defaultAction, d)
  }

  /** Which call numbers can be filtered, exactly: those that the search tree leads
      to. This can be told from the numbers alone. */
  lemma StraightExact(s: seq<u64>)
    requires s != [] && StrictlySorted(s)
    ensures Straight(s) <==> AlwaysRight(s)
  {
    hide Straight, Leads, Lists, NoVsyscallBlanket, Right, StrictlySorted;
    StraightIff(s);
    if Straight(s) {
      forall sets, defaultAction, d | Lists(s, Syscalls(sets)) && NoVsyscallBlanket(sets)
        ensures Right(sets, s, defaultAction, d)
      {
        assert Leads(s, Nr(d));
        LeadsIsRight(sets, s, defaultAction, d);
      }
    } else {
      var key: u32 :| !Leads(s, key);
      var sets, d := CrookedExample(s, key);
    }
  }

  lemma LeadsIsRight(sets: seq<RuleSet>, s: seq<u64>, defaultAction: u32, d: SeccompData)
    requires Lists(s, Syscalls(sets)) && NoVsyscallBlanket(sets) && s != [] && Leads(s, Nr(d))
    ensures Right(sets, s, defaultAction, d)
  {
    hide Leads, Lists, NoVsyscallBlanket, Outcome, Reached, CreateBST, FilterResult, Verdict, Word;
    ReachedResult(sets, s, Arch(d), defaultAction, 0, d);
    LeadsAnswers(sets, s, defaultAction, d);
    VerdictIsOutcome(sets, Arch(d), defaultAction, 0, d);
  }

  /** A call with the given number. */
  function CallOf(key: u32): SeccompData {
    seq(DATA_SIZE, i => if i == 0 then key % TWO_8 else if i == 1 then key / 0x100 % TWO_8
                       else if i == 2 then key / 0x1_0000 % TWO_8 else if i == 3 then key / 0x100_0000 % TWO_8 else 0)
  }

  lemma CallOfNumber(key: u32)
    ensures Nr(CallOf(key)) == key
  {
    var d := CallOf(key);
    var k1, k2, k3 := key / 0x100, key / 0x1_0000, key / 0x100_0000;
    assert d[0] == key % TWO_8 && d[1] == k1 % TWO_8 && d[2] == k2 % TWO_8 && d[3] == k3 % TWO_8;
    BytesOf(key, k1, k2, k3);
  }

  lemma BytesOf(key: u32, k1: nat, k2: nat, k3: nat)
    requires k1 == key / 0x100 && k2 == key / 0x1_0000 && k3 == key / 0x100_0000
    ensures key % TWO_8 + TWO_8 * (k1 % TWO_8 + TWO_8 * (k2 % TWO_8 + TWO_8 * (k3 % TWO_8))) == key
  {
    assert k2 == k1 / TWO_8 && k3 == k2 / TWO_8 && k3 < TWO_8;
    assert key == key % TWO_8 + TWO_8 * k1 && k1 == k1 % TWO_8 + TWO_8 * k2 && k2 == k2 % TWO_8 + TWO_8 * k3;
  }

  /** One call of s has an action of its own, all others have another. */
  function OneApart(s: seq<u64>, v: u64): seq<RuleSet> {
    [RuleSet(map[v := []], 1, false), RuleSet(map x | x in s && x != v :: [], 2, false)]
  }

  lemma OneApartDecides(s: seq<u64>, v: u64, x: u64, d: SeccompData)
    ensures Outcome(OneApart(s, v), Some(x), d, 0) == if x == v then 1 else if x in s then 2 else 0
  {
    var sets := OneApart(s, v);
    assert Decide(sets, x, d, 2).None?;
    assert Decide(sets, x, d, 1) == if x in s && x != v then Some(2) else None;
  }

  lemma OneApartLists(s: seq<u64>, v: u64)
    requires StrictlySorted(s) && v in s
    ensures Lists(s, Syscalls(OneApart(s, v))) && NoVsyscallBlanket(OneApart(s, v))
  {
    var sets := OneApart(s, v);
    forall x ensures x in s <==> x in Syscalls(sets) {
      if x in s || x in Syscalls(sets) {
        InSyscalls(sets, x);
        assert x in s ==> x in sets[if x == v then 0 else 1].rules;
      }
    }
  }

  lemma CrookedExample(s: seq<u64>, key: u32) returns (sets: seq<RuleSet>, d: SeccompData)
    requires s != [] && StrictlySorted(s) && !Leads(s, key)
    ensures Lists(s, Syscalls(sets)) && NoVsyscallBlanket(sets) && !Right(sets, s, 0, d)
  {
    hide StrictlySorted, Lists, NoVsyscallBlanket, Outcome, Reached, CreateBST, FilterResult, Verdict, Word, OneApart;
    BSTValues(s);
    ReachedIsListed(CreateBST(s), key);
    var r := Reached(CreateBST(s), key);
    var v: u64 := if r.Some? then r.value else key;
    sets, d := OneApart(s, v), CallOf(key);
    CallOfNumber(key);
    OneApartLists(s, v);
    ReachedResult(sets, s, Arch(d), 0, 0, d);
    VerdictIsOutcome(sets, Arch(d), 0, 0, d);
    OneApartDecides(s, v, v, d);
    OneApartDecides(s, v, key, d);
    NoOutcome(sets, d);
  }

  lemma NoOutcome(sets: seq<RuleSet>, d: SeccompData)
    ensures Outcome(sets, None, d, 0) == 0
  {
  }

  /** The end-to-end theorem. For all rule sets that can be built and all calls,
      the interpreter's result on the built program is the verdict of the rule
      sets. Two limits: the search tree must lead to each call's own number,
      which it does if all numbers fit 32 bits, and a vsyscall rule set must not
      have an empty list of rules. */
  lemma FilterCorrect(p: seq<Insn>, sets: seq<RuleSet>, s: seq<u64>, arch: u32, defaultAction: u32, badArchAction: u32,
                      d: SeccompData)
    requires Lists(s, Syscalls(sets)) && Built(Some(p), sets, s, arch, defaultAction, badArchAction)
    requires Straight(s) && NoVsyscallBlanket(sets)
    ensures Run(p, In(d), 0, ZERO_MACHINE) == Return(Verdict(sets, defaultAction, badArchAction, arch, d))
  {
    hide Run, Built, Straight, NoVsyscallBlanket, Outcome, Reached, Word, Leads, CreateBST;
    FilterCorrectWide(p, sets, s, arch, defaultAction, badArchAction, d);
    if s != [] {
      StraightIff(s);
      assert Leads(s, Nr(d));
      LeadsAnswers(sets, s, defaultAction, d);
    }
  }

  lemma LeadsAnswers(sets: seq<RuleSet>, s: seq<u64>, defaultAction: u32, d: SeccompData)
    requires Lists(s, Syscalls(sets)) && s != [] && Leads(s, Nr(d))
    ensures Outcome(sets, Reached(CreateBST(s), Nr(d)), d, defaultAction)
              == Outcome(sets, Some(Nr(d)), d, defaultAction)
  {
    hide Reached, CreateBST, Word;
    VerdictIsOutcome(sets, 0, defaultAction, 0, d);
  }

  /** For call numbers of any width, the exact condition: the result is the verdict
      unless the tree, which compares low words in the order of the full numbers,
      leads the call to another number's rules, or past its own, and those
      decide otherwise. */
  lemma FilterCorrectWide(p: seq<Insn>, sets: seq<RuleSet>, s: seq<u64>, arch: u32, defaultAction: u32,
                          badArchAction: u32,
                          d: SeccompData)
    requires Lists(s, Syscalls(sets)) && Built(Some(p), sets, s, arch, defaultAction, badArchAction)
    requires NoVsyscallBlanket(sets)
    ensures Run(p, In(d), 0, ZERO_MACHINE) == Return(Verdict(sets, defaultAction, badArchAction, arch, d)) <==>
            (Arch(d) == arch && s != [] ==>
               Outcome(sets, Reached(CreateBST(s), Nr(d)), d, defaultAction)
               == Outcome(sets, Some(Nr(d)), d, defaultAction))
  {
    hide Run, Built, Narrow, Outcome, Verdict, Reached, CreateBST, NoVsyscallBlanket, Search;
    FilterRuns(p, sets, s, arch, defaultAction, badArchAction, d);
    VerdictIsOutcome(sets, arch, defaultAction, badArchAction, d);
    if Arch(d) == arch && s != [] { ReachedResult(sets, s, arch, defaultAction, badArchAction, d); }
  }

  /** For all rule sets, the exact condition: the result is the verdict if and only
      if the number that answers, in the tree over s, is the call's own or says the
      same of the call. If all numbers fit 32 bits, that is unless the call falls
      through into the code of another listed number, which is the high word of the
      instruction pointer. */
  lemma FilterCorrectIff(p: seq<Insn>, sets: seq<RuleSet>, s: seq<u64>, arch: u32, defaultAction: u32,
                         badArchAction: u32,
                         d: SeccompData)
    requires Lists(s, Syscalls(sets)) && Built(Some(p), sets, s, arch, defaultAction, badArchAction)
    ensures Run(p, In(d), 0, ZERO_MACHINE) == Return(Verdict(sets, defaultAction, badArchAction, arch, d)) <==>
            (Arch(d) == arch && s != [] ==>
               Outcome(sets, Answered(sets, [CreateBST(s)], Nr(d), d), d, defaultAction)
               == Outcome(sets, Some(Nr(d)), d, defaultAction))
    ensures Narrow(Syscalls(sets)) ==>
              (Run(p, In(d), 0, ZERO_MACHINE) == Return(Verdict(sets, defaultAction, badArchAction, arch, d)) <==>
               !(Arch(d) == arch && s != [] && Diverted(sets, s, d, defaultAction)))
  {
    hide Run, Built, Narrow, Verdict, CreateBST, Search, Behind, FirstNode, Decide, Word, Emitted, Answered;
    FilterRuns(p, sets, s, arch, defaultAction, badArchAction, d);
    VerdictIsOutcome(sets, arch, defaultAction, badArchAction, d);
    if Arch(d) == arch && s != [] {
      AnsweredResult(sets, s, arch, defaultAction, badArchAction, d);
      if Narrow(Syscalls(sets)) { NarrowResult(sets, s, arch, defaultAction, badArchAction, d); }
    }
  }

  lemma AnsweredResult(sets: seq<RuleSet>, s: seq<u64>, arch: u32, defaultAction: u32, badArchAction: u32,
                       d: SeccompData)
    requires Lists(s, Syscalls(sets)) && Arch(d) == arch && s != []
    ensures FilterResult(sets, s, arch, defaultAction, badArchAction, d)
         == Outcome(sets, Answered(sets, [CreateBST(s)], Nr(d), d), d, defaultAction)
  {
    hide Word, Search, CreateBST, Answered, Outcome;
    assert s[0] in s;
    if sets == [] { NoSyscalls(); }
    SearchAnswers(sets, [CreateBST(s)], Nr(d), d, defaultAction);
  }

  /** Build a filter, validate it and run it on a call. None if it cannot be built;
      a failure if it is too long. */
  method FilterCall(sets: seq<RuleSet>, arch: u32, defaultAction: u32, badArchAction: u32, d: SeccompData)
    returns (r: Option<Result>, ghost lines: nat)
    requires sets != [] ==> Syscalls(sets) != {}
    requires forall s :: Lists(s, Syscalls(sets)) ==> Straight(s)
    requires NoVsyscallBlanket(sets)
    ensures lines <= TWO_32 ==> (r.Some? <==> CleanSets(sets) && ShortSets(sets))
    ensures r.Some? ==>
              r.value == if lines <= MAX_INSTRUCTIONS then Return(Verdict(sets, defaultAction, badArchAction, arch, d))
                         else Failure(InvalidInstructionCount, lines)
    ensures forall s :: Lists(s, Syscalls(sets)) ==>
              lines == Lines(ProgramCode(sets, s, arch, defaultAction, badArchAction))
  {
    hide Run, Straight, NoVsyscallBlanket, CleanSets, ShortSets, Verdict, Accepted, ProgramCode, Lists, Built;
    ghost var s := SyscallList(sets);
    var built := BuildProgram(sets, arch, defaultAction, badArchAction);
    ghost var t := ProgramCode(sets, s, arch, defaultAction, badArchAction);
    lines := Lines(t);
    forall s' | Lists(s', Syscalls(sets)) ensures s' == s { ListIsUnique(s', s, Syscalls(sets)); }
    if lines <= TWO_32 { BuildsIff(built, sets, s, arch, defaultAction, badArchAction); }
    if built.None? { return None, lines; }
    BuiltLength(built.value, sets, s, arch, defaultAction, badArchAction);
    FilterAccepted(built.value, sets, s, arch, defaultAction, badArchAction);
    var c := Compile(built.value);
    if c.Err? {
      TooLong(built.value, sets, s, arch, defaultAction, badArchAction);
      return Some(Failure(c.code, c.pc)), lines;
    }
    FilterCorrect(built.value, sets, s, arch, defaultAction, badArchAction, d);
    var e := Exec(c.program, In(d));
    r := Some(e);
  }

  lemma {:induction false} SyscallList(sets: seq<RuleSet>) returns (s: seq<u64>)
    ensures Lists(s, Syscalls(sets))
  {
    s := ListOf(Syscalls(sets));
  }

  lemma {:induction false} ListOf(xs: set<u64>) returns (s: seq<u64>)
    ensures Lists(s, xs)
    decreases |xs|
  {
    if xs == {} {
      s := [];
    } else {
      var x :| x in xs;
      var most := Largest(xs, x);
      var rest := ListOf(xs - {most});
      s := rest + [most];
      forall i | 0 <= i < |rest| ensures rest[i] < most { assert rest[i] in rest; }
    }
  }

  lemma {:induction false} Largest(xs: set<u64>, x: u64) returns (most: u64)
    requires x in xs
    ensures most in xs && forall y :: y in xs ==> y <= most
    decreases |xs|
  {
    var rest := xs - {x};
    if rest == {} {
      assert xs == {x};
      return x;
    }
    var z :| z in rest;
    var m := Largest(rest, z);
    most := if m > x then m else x;
    forall y | y in xs ensures y <= most { if y != x { assert y in xs - {x}; } }
  }

  lemma BuiltLength(p: seq<Insn>, sets: seq<RuleSet>, s: seq<u64>, arch: u32, defaultAction: u32, badArchAction: u32)
    requires Built(Some(p), sets, s, arch, defaultAction, badArchAction)
    ensures |p| == Lines(ProgramCode(sets, s, arch, defaultAction, badArchAction))
  {
  }

  lemma TooLong(p: seq<Insn>, sets: seq<RuleSet>, s: seq<u64>, arch: u32, defaultAction: u32, badArchAction: u32)
    requires Built(Some(p), sets, s, arch, defaultAction, badArchAction) && !Accepted(p)
    ensures |p| > MAX_INSTRUCTIONS
  {
    FilterAccepted(p, sets, s, arch, defaultAction, badArchAction);
  }

  // ----- where it is false -----

  const GET_TIME_OF_DAY: u64 := 96
  const READ: u64 := 0

  /** A blanket vsyscall rule for one call, and an action for another. */
  function VsyscallExample(allow: u32, other: u32): seq<RuleSet> {
    [RuleSet(map[GET_TIME_OF_DAY := []], allow, true), RuleSet(map[READ := []], other, false)]
  }

  /** A call to GET_TIME_OF_DAY on architecture 0 from outside the vsyscall page. */
  const ORDINARY_CALL: SeccompData := seq(DATA_SIZE, i => if i == 0 then GET_TIME_OF_DAY else 0)

  /** A blanket vsyscall rule set makes the filter answer an ordinary call with
      the action of another call, where the rule sets say the default action. */
  lemma FallThroughExample(allow: u32, other: u32, defaultAction: u32, badArchAction: u32) returns (p: seq<Insn>)
    ensures Built(Some(p), VsyscallExample(allow, other), [READ, GET_TIME_OF_DAY], 0, defaultAction, badArchAction)
    ensures Verdict(VsyscallExample(allow, other), defaultAction, badArchAction, 0, ORDINARY_CALL) == defaultAction
    ensures Run(p, In(ORDINARY_CALL), 0, ZERO_MACHINE) == Return(other)
  {
    hide Run, Built, Verdict, Outcome, CreateBST, Behind;
    hide Search, FallsThrough, CleanSets, ShortSets, ProgramCode, FirstNode;
    var sets, s, d := VsyscallExample(allow, other), [READ, GET_TIME_OF_DAY], ORDINARY_CALL;
    ExampleSyscalls(allow, other);
    ExampleIsClean(allow, other);
    ExampleTree(allow, other);
    BlanketLength(sets, CreateBST(s));
    p := BlanketsBuild(sets, s, 0, defaultAction, badArchAction);
    FilterRuns(p, sets, s, 0, defaultAction, badArchAction, d);
    ExampleFallsThrough(allow, other, defaultAction);
    VerdictIsOutcome(sets, 0, defaultAction, badArchAction, d);
    NarrowResult(sets, s, 0, defaultAction, badArchAction, d);
  }

  lemma ExampleSyscalls(allow: u32, other: u32)
    ensures Syscalls(VsyscallExample(allow, other)) == {READ, GET_TIME_OF_DAY}
  {
    forall x: u64 ensures x in Syscalls(VsyscallExample(allow, other)) <==> x in {READ, GET_TIME_OF_DAY} {
      InSyscalls(VsyscallExample(allow, other), x);
    }
  }

  lemma ExampleIsClean(allow: u32, other: u32)
    ensures CleanSets(VsyscallExample(allow, other)) && OnlyBlankets(VsyscallExample(allow, other))
  {
    var sets := VsyscallExample(allow, other);
    ExampleSyscalls(allow, other);
    forall x | x in Syscalls(sets) ensures Clean(sets, x) {
      assert Reachable(sets, 2, x);
      assert Reachable(sets, 1, x);
    }
  }

  lemma ExampleTree(allow: u32, other: u32)
    ensures CreateBST([READ, GET_TIME_OF_DAY]) == Node(Node(Nil, READ, Nil), GET_TIME_OF_DAY, Nil)
  {
    assert [READ, GET_TIME_OF_DAY][..1] == [READ];
    assert CreateBST([READ]) == Node(Nil, READ, Nil);
  }

  lemma ExampleFallsThrough(allow: u32, other: u32, defaultAction: u32)
    ensures FallsThrough(VsyscallExample(allow, other), ORDINARY_CALL) && Arch(ORDINARY_CALL) == 0
    ensures Nr(ORDINARY_CALL) == GET_TIME_OF_DAY && Word(ORDINARY_CALL, OFFSET_IP_HIGH) == READ
    ensures Outcome(VsyscallExample(allow, other), Some(READ), ORDINARY_CALL, defaultAction) == other
    ensures Outcome(VsyscallExample(allow, other), Some(GET_TIME_OF_DAY), ORDINARY_CALL, defaultAction) == defaultAction
    ensures READ in Values(FirstNode(Behind(CreateBST([READ, GET_TIME_OF_DAY]), [], GET_TIME_OF_DAY)))
  {
    var sets, s, d := VsyscallExample(allow, other), [READ, GET_TIME_OF_DAY], ORDINARY_CALL;
    assert Nr(d) == GET_TIME_OF_DAY && Word(d, OFFSET_IP_HIGH) == 0;
    ExampleTree(allow, other);
    var n := Node(Nil, READ, Nil);
    assert Number(GET_TIME_OF_DAY) == GET_TIME_OF_DAY;
    assert Behind(CreateBST(s), [], Nr(d)) == [n, Nil] + [];
    assert SkipNils([n, Nil] + []) == [n, Nil] + [];
    assert Decide(sets, READ, d, 1) == Some(other);
    assert Decide(sets, READ, d, 0) == Some(other);
    assert Emitted(sets, 0, GET_TIME_OF_DAY) by { assert Blanket(sets[0], GET_TIME_OF_DAY); }
    assert Decide(sets, GET_TIME_OF_DAY, d, 2).None?;
    assert Decide(sets, GET_TIME_OF_DAY, d, 1).None?;
    assert !FromVsyscall(d);
  }

  /** The filter compares only the low 32 bits of a call number, so a rule for a
      wider number lets another call through. */
  lemma WideExample(wide: u64, allow: u32, defaultAction: u32, badArchAction: u32) returns (p: seq<Insn>)
    requires wide == TWO_32 + GET_TIME_OF_DAY
    ensures Built(Some(p), [RuleSet(map[wide := []], allow, false)], [wide], 0, defaultAction, badArchAction)
    ensures Verdict([RuleSet(map[wide := []], allow, false)], defaultAction, badArchAction, 0, ORDINARY_CALL)
              == defaultAction
    ensures Run(p, In(ORDINARY_CALL), 0, ZERO_MACHINE) == Return(allow)
  {
    hide Run, Built, ShortSets, ProgramCode;
    var sets, s, d := [RuleSet(map[wide := []], allow, false)], [wide], ORDINARY_CALL;
    forall x: u64 ensures x in Syscalls(sets) <==> x in {wide} { InSyscalls(sets, x); }
    assert Syscalls(sets) == {wide};
    var n := Node(Nil, wide, Nil);
    assert CreateBST(s) == n;
    BlanketLength(sets, n);
    assert Clean(sets, wide) by { assert Reachable(sets, 1, wide); }
    p := BlanketsBuild(sets, s, 0, defaultAction, badArchAction);
    FilterRuns(p, sets, s, 0, defaultAction, badArchAction, d);
    assert Nr(d) == GET_TIME_OF_DAY && Arch(d) == 0;
    assert Decide(sets, wide, d, 0) == Some(allow);
    assert Number(wide) == GET_TIME_OF_DAY;
    assert Search(sets, [n], GET_TIME_OF_DAY, d, defaultAction) == allow;
    assert Decide(sets, GET_TIME_OF_DAY, d, 1).None?;
  }

  // ----- rule sets of blanket actions can be built -----

  predicate OnlyBlankets(sets: seq<RuleSet>) {
    forall j, x :: 0 <= j < |sets| && x in sets[j].rules ==> Blanket(sets[j], x)
  }

  function Count(n: Tree): nat { if n.Nil? then 0 else 1 + Count(n.left) + Count(n.right) }

  lemma {:induction false} BlanketSetsLength(sets: seq<RuleSet>, j: nat, x: u64)
    requires OnlyBlankets(sets) && j <= |sets|
    ensures |SetsCode(sets, j, x)| <= 4 * (|sets| - j)
    decreases |sets| - j
  {
    if j < |sets| {
      BlanketSetsLength(sets, j + 1, x);
      assert x in sets[j].rules ==> Blanket(sets[j], x);
    }
  }

  lemma {:induction false} BlanketTreeLength(sets: seq<RuleSet>, n: Tree, root: bool)
    requires OnlyBlankets(sets) && |sets| <= 2
    ensures |TreeCode(sets, n, root)| <= 15 * Count(n)
  {
    if n.Node? {
      BlanketSetsLength(sets, 0, n.value);
      BlanketTreeLength(sets, n.left, false);
      BlanketTreeLength(sets, n.right, false);
    }
  }

  /** Two blanket rule sets for a few calls make a small program. */
  lemma BlanketLength(sets: seq<RuleSet>, n: Tree)
    requires OnlyBlankets(sets) && |sets| <= 2
    ensures |TreeCode(sets, n, true)| <= 15 * Count(n)
  {
    BlanketTreeLength(sets, n, true);
  }

  lemma BlanketsBuild(sets: seq<RuleSet>, s: seq<u64>, arch: u32, defaultAction: u32, badArchAction: u32)
    returns (p: seq<Insn>)
    requires Lists(s, Syscalls(sets)) && CleanSets(sets) && OnlyBlankets(sets) && s != []
    requires |TreeCode(sets, CreateBST(s), true)| <= 1000
    ensures Built(Some(p), sets, s, arch, defaultAction, badArchAction)
  {
    hide CleanSets, Resolvable, Assembled, TreeCode, CreateBST, Lists, DirectsFit;
    var t := ProgramCode(sets, s, arch, defaultAction, badArchAction);
    assert |t| <= 1006;
    SmallProgram(t);
    assert ShortSets(sets) by { BlanketsAreShort(sets); }
    ProgramResolves(sets, s, arch, defaultAction, badArchAction);
    p := AssembledExists(t);
  }

  lemma BlanketsAreShort(sets: seq<RuleSet>)
    requires OnlyBlankets(sets)
    ensures ShortSets(sets)
  {
    hide Syscalls;
    forall i, x | 0 <= i < |sets| && x in sets[i].rules ensures Short(sets[i], x) { assert Blanket(sets[i], x); }
    forall x, i | 0 <= i < |sets| ensures Short(sets[i], x) {}
  }
}
