/** Seccomp rules and what they match: the reference the compiled filter is held
    against. */
module SeccompRules {
  import opened Words
  import opened Bpf

  // Offsets into struct seccomp_data.
  const OFFSET_NR: u32 := 0
  const OFFSET_ARCH: u32 := 4
  const OFFSET_IP_LOW: u32 := 8
  const OFFSET_IP_HIGH: u32 := 12
  const OFFSET_ARGS: u32 := 16
  const DATA_SIZE := 64

  const RULE_IP := 6
  const RULE_SIZE := 7

  /** One entry of a rule. Unknown stands for a value of any other type. */
  datatype ArgRule =
    | NoRule
    | MatchAny
    | EqualTo(v: u64)
    | NotEqual(v: u64)
    | GreaterThan(v: u64)
    | GreaterThanOrEqual(v: u64)
    | LessThan(v: u64)
    | LessThanOrEqual(v: u64)
    | MaskedEqual(mask: u64, v: u64)
    | Unknown

  /** Six argument entries and one for the instruction pointer. */
  type Rule = r: seq<ArgRule> | |r| == RULE_SIZE witness seq(RULE_SIZE, i => NoRule)

  const EMPTY_RULE: Rule := [NoRule, NoRule, NoRule, NoRule, NoRule, NoRule, NoRule]

  type SyscallRules = map<u64, seq<Rule>>

  datatype RuleSet = RuleSet(rules: SyscallRules, action: u32, vsyscall: bool)

  /** A seccomp_data structure, as the bytes the filter reads. */
  type SeccompData = d: seq<u8> | |d| == DATA_SIZE witness seq(DATA_SIZE, i => 0)

  function Word(d: SeccompData, off: u32): u32
    requires off + 4 <= DATA_SIZE
  {
    d[off] + TWO_8 * (d[off + 1] + TWO_8 * (d[off + 2] + TWO_8 * d[off + 3]))
  }

  /** A little-endian 64-bit field. */
  function DoubleWord(d: SeccompData, off: u32): (r: u64)
    requires off + 8 <= DATA_SIZE
  {
    d[off] + TWO_8 * (d[off + 1] + TWO_8 * (d[off + 2] + TWO_8 * (d[off + 3]
      + TWO_8 * (d[off + 4] + TWO_8 * (d[off + 5] + TWO_8 * (d[off + 6] + TWO_8 * d[off + 7]))))))
  }

  lemma DoubleWordParts(d: SeccompData, off: u32)
    requires off + 8 <= DATA_SIZE
    ensures Low(DoubleWord(d, off)) == Word(d, off)
    ensures High(DoubleWord(d, off)) == Word(d, off + 4)
  {
    assert DoubleWord(d, off) == Word(d, off) + TWO_32 * Word(d, off + 4);
  }

  function Nr(d: SeccompData): u32 { Word(d, OFFSET_NR) }
  function Arch(d: SeccompData): u32 { Word(d, OFFSET_ARCH) }
  function InstructionPointer(d: SeccompData): u64 { DoubleWord(d, OFFSET_IP_LOW) }

  /** The value entry i of a rule looks at. */
  function Operand(d: SeccompData, i: nat): u64
    requires i < RULE_SIZE
  {
    if i == RULE_IP then InstructionPointer(d) else DoubleWord(d, OFFSET_ARGS + 8 * i)
  }

  predicate ArgMatches(arg: ArgRule, x: u64) {
    match arg
    case NoRule => true
    case MatchAny => true
    case EqualTo(v) => x == v
    case NotEqual(v) => x != v
    case GreaterThan(v) => x > v
    case GreaterThanOrEqual(v) => x >= v
    case LessThan(v) => x < v
    case LessThanOrEqual(v) => x <= v
    case MaskedEqual(mask, v) => And(x, mask) == v
    case Unknown => false
  }

  predicate RuleMatches(rule: Rule, d: SeccompData) {
    forall i :: 0 <= i < RULE_SIZE ==> ArgMatches(rule[i], Operand(d, i))
  }

  /** An empty list of rules lets every call through. */
  predicate RulesMatch(rules: seq<Rule>, d: SeccompData) {
    rules == [] || exists r :: r in rules && RuleMatches(r, d)
  }

  /** A call was dispatched from the vsyscall page: the top bit of the
      instruction pointer is set. */
  predicate FromVsyscall(d: SeccompData) { InstructionPointer(d) >= TWO_63 }

  predicate SetMatches(rs: RuleSet, sysno: u64, d: SeccompData) {
    && sysno in rs.rules
    && (rs.vsyscall ==> FromVsyscall(d))
    && RulesMatch(rs.rules[sysno], d)
  }

  /** The action of the first matching rule set from the j-th on, if any. */
  function Decide(sets: seq<RuleSet>, sysno: u64, d: SeccompData, j: nat): Option<u32>
    requires j <= |sets|
    decreases |sets| - j
  {
    if j == |sets| then None
    else if SetMatches(sets[j], sysno, d) then Some(sets[j].action)
    else Decide(sets, sysno, d, j + 1)
  }

  /** The reference matcher. */
  function Verdict(sets: seq<RuleSet>, defaultAction: u32, badArchAction: u32, arch: u32, d: SeccompData): u32 {
    if Arch(d) != arch then badArchAction
    else
      match Decide(sets, Nr(d), d, 0)
      case Some(action) => action
      case None => defaultAction
  }

  // ----- combining rules -----

  /** What a rule map lets through for one call. */
  predicate Allows(rules: SyscallRules, sysno: u64, d: SeccompData) {
    sysno in rules && RulesMatch(rules[sysno], d)
  }

  /** Rules to append to, with the blanket empty list made explicit. */
  function Explicit(rules: seq<Rule>): (r: seq<Rule>)
    ensures r != []
  {
    if rules == [] then [EMPTY_RULE] else rules
  }

  /** The rules for one call after adding r to them. */
  function AddRule(sr: SyscallRules, sysno: u64, r: Rule): SyscallRules {
    sr[sysno := if sysno in sr then Explicit(sr[sysno]) + [r] else [r]]
  }

  /** The rules for one call after merging. */
  function MergedRules(sr: SyscallRules, rules: SyscallRules, sysno: u64): seq<Rule>
    requires sysno in sr || sysno in rules
  {
    if sysno !in rules then sr[sysno]
    else if sysno !in sr then rules[sysno]
    else Explicit(sr[sysno]) + Explicit(rules[sysno])
  }

  predicate IsMerge(sr: SyscallRules, rules: SyscallRules, todo: set<u64>, sr': SyscallRules) {
    && sr'.Keys == sr.Keys + (rules.Keys - todo)
    && forall s :: s in sr'.Keys ==> sr'[s] == if s in todo then sr[s] else MergedRules(sr, rules, s)
  }

  method Merge(sr: SyscallRules, rules: SyscallRules) returns (sr': SyscallRules)
    ensures IsMerge(sr, rules, {}, sr')
  {
    sr' := sr;
    var todo := rules.Keys;
    while todo != {}
      invariant todo <= rules.Keys && IsMerge(sr, rules, todo, sr')
      decreases todo
    {
      var sysno :| sysno in todo;
      var rs := rules[sysno];
      if sysno in sr' {
        sr' := sr'[sysno := Explicit(sr'[sysno]) + Explicit(rs)];
      } else {
        sr' := sr'[sysno := rs];
      }
      todo := todo - {sysno};
    }
  }

  lemma ExplicitMatches(rules: seq<Rule>, d: SeccompData)
    ensures RulesMatch(Explicit(rules), d) <==> RulesMatch(rules, d)
  {
    if rules == [] {
      assert EMPTY_RULE in Explicit(rules);
    }
  }

  lemma ConcatMatches(a: seq<Rule>, b: seq<Rule>, d: SeccompData)
    requires a != [] && b != []
    ensures RulesMatch(a + b, d) <==> RulesMatch(a, d) || RulesMatch(b, d)
  {
    var ab := a + b;
    assert forall r :: r in ab <==> r in a || r in b;
  }

  /** Adding a rule lets exactly the calls it matches through as well, even when
      the map let every call through. */
  lemma AddRuleAllows(sr: SyscallRules, sysno: u64, r: Rule, s: u64, d: SeccompData)
    ensures Allows(AddRule(sr, sysno, r), s, d) <==> Allows(sr, s, d) || (s == sysno && RuleMatches(r, d))
  {
    assert r in [r];
    if sysno in sr {
      ConcatMatches(Explicit(sr[sysno]), [r], d);
      ExplicitMatches(sr[sysno], d);
    }
  }

  /** Merging lets through exactly what either rule map lets through. */
  lemma MergeAllows(sr: SyscallRules, rules: SyscallRules, sr': SyscallRules, s: u64, d: SeccompData)
    requires IsMerge(sr, rules, {}, sr')
    ensures Allows(sr', s, d) <==> Allows(sr, s, d) || Allows(rules, s, d)
  {
    if s in sr && s in rules {
      assert s in sr'.Keys;
      ConcatMatches(Explicit(sr[s]), Explicit(rules[s]), d);
      ExplicitMatches(sr[s], d);
      ExplicitMatches(rules[s], d);
    }
  }
}
