/** The labelled code the rule compiler emits, piece by piece. */
module SeccompCode {
  import opened Words
  import opened Bpf
  import opened ProgramBuilders
  import opened SeccompRules

  datatype GoodKind = Ne | Gt | Ge | Lt | Le

  /** Jump targets; each constructor stands for one of the label formats. */
  datatype Label =
    | DefaultAction
    | VsyscallViolation(set_: nat, sysno: u64)
    | RuleViolation(set_: nat, sysno: u64, rule: nat)
    | RuleLabel(set_: nat, sysno: u64, rule: nat, kind: GoodKind, arg: nat)
    | CheckArgs(sysno: u64)
    | Index(sysno: u64)

  type Code = seq<Item<Label>>

  /** uint32(sysno): the low word of a system call number. */
  function Number(sysno: u64): u32 { Low(sysno) }

  const JEQ_K: bv16 := JMP | JEQ | SRC_K
  const JGT_K: bv16 := JMP | JGT | SRC_K
  const JGE_K: bv16 := JMP | JGE | SRC_K
  const JSET_K: bv16 := JMP | JSET | SRC_K

  function Load(off: u32): Item<Label> { Plain(Stmt(LD | ABS | W, off)) }
  function Mask(m: u32): Item<Label> { Plain(Stmt(ALU | AND_OP | SRC_K, m)) }
  function RetK(action: u32): Item<Label> { Plain(Stmt(RET | SRC_K, action)) }

  function LowOffset(i: nat): u32
    requires i < RULE_SIZE
  {
    if i == RULE_IP then OFFSET_IP_LOW else OFFSET_ARGS + 8 * i
  }

  function HighOffset(i: nat): u32
    requires i < RULE_SIZE
  {
    if i == RULE_IP then OFFSET_IP_HIGH else LowOffset(i) + 4
  }

  /** No instructions are needed for these entries. */
  predicate Trivial(arg: ArgRule) { arg.NoRule? || arg.MatchAny? }

  /** The check of one entry: fall through on a match, else jump to bad. Values
      are 64 bits wide, comparisons 32, hence the two halves. */
  function ArgCode(arg: ArgRule, i: nat, set_: nat, sysno: u64, rule: nat): Code
    requires i < RULE_SIZE
  {
    var lo, hi := LowOffset(i), HighOffset(i);
    var bad := RuleViolation(set_, sysno, rule);
    match arg
    case NoRule => []
    case MatchAny => []
    case EqualTo(v) =>
      [Load(lo), False(JEQ_K, Low(v), 0, bad), Load(hi), False(JEQ_K, High(v), 0, bad)]
    case NotEqual(v) =>
      var good := RuleLabel(set_, sysno, rule, Ne, i);
      [Load(lo), False(JEQ_K, Low(v), 0, good), Load(hi), True(JEQ_K, High(v), bad, 0), Mark(good)]
    case GreaterThan(v) =>
      var good := RuleLabel(set_, sysno, rule, Gt, i);
      [Load(hi), False(JGE_K, High(v), 0, bad), False(JEQ_K, High(v), 0, good),
       Load(lo), False(JGT_K, Low(v), 0, bad), Mark(good)]
    case GreaterThanOrEqual(v) =>
      var good := RuleLabel(set_, sysno, rule, Ge, i);
      [Load(hi), False(JGE_K, High(v), 0, bad), False(JEQ_K, High(v), 0, good),
       Load(lo), False(JGE_K, Low(v), 0, bad), Mark(good)]
    case LessThan(v) =>
      var good := RuleLabel(set_, sysno, rule, Lt, i);
      [Load(hi), True(JGT_K, High(v), bad, 0), False(JEQ_K, High(v), 0, good),
       Load(lo), True(JGE_K, Low(v), bad, 0), Mark(good)]
    case LessThanOrEqual(v) =>
      var good := RuleLabel(set_, sysno, rule, Le, i);
      [Load(hi), True(JGT_K, High(v), bad, 0), False(JEQ_K, High(v), 0, good),
       Load(lo), True(JGT_K, Low(v), bad, 0), Mark(good)]
    case MaskedEqual(mask, v) =>
      [Load(lo), Mask(Low(mask)), False(JEQ_K, Low(v), 0, bad),
       Load(hi), Mask(High(mask)), False(JEQ_K, High(v), 0, bad)]
    case Unknown => []
  }

  lemma TrivialCode(arg: ArgRule, i: nat, set_: nat, sysno: u64, rule: nat)
    requires i < RULE_SIZE && Trivial(arg)
    ensures ArgCode(arg, i, set_, sysno, rule) == []
  {
  }

  /** The checks of entries i and up. */
  function ArgsCode(r: Rule, i: nat, set_: nat, sysno: u64, rule: nat): Code
    requires i <= RULE_SIZE
    decreases RULE_SIZE - i
  {
    if i == RULE_SIZE then [] else ArgCode(r[i], i, set_, sysno, rule) + ArgsCode(r, i + 1, set_, sysno, rule)
  }

  /** Some entry from i on needs a check, so the rule's end needs a label. */
  predicate Labelled(r: Rule, i: nat)
    requires i <= RULE_SIZE
    decreases RULE_SIZE - i
  {
    i < RULE_SIZE && (!Trivial(r[i]) || Labelled(r, i + 1))
  }

  /** One rule: return the action when every entry matches, else fall through. */
  function RuleCode(r: Rule, action: u32, set_: nat, sysno: u64, rule: nat): Code {
    ArgsCode(r, 0, set_, sysno, rule) + [RetK(action)]
      + (if Labelled(r, 0) then [Mark(RuleViolation(set_, sysno, rule))] else [])
  }

  /** Rules j and up of one list. */
  function RulesCode(rules: seq<Rule>, j: nat, action: u32, set_: nat, sysno: u64): Code
    requires j <= |rules|
    decreases |rules| - j
  {
    if j == |rules| then []
    else RuleCode(rules[j], action, set_, sysno, j) + RulesCode(rules, j + 1, action, set_, sysno)
  }

  /** The body of one rule set for one call. */
  function MatchersCode(rs: RuleSet, set_: nat, sysno: u64): Code
    requires sysno in rs.rules
  {
    if rs.rules[sysno] == [] then [RetK(rs.action)] else RulesCode(rs.rules[sysno], 0, rs.action, set_, sysno)
  }

  /** One rule set for one call, with its vsyscall check. */
  function SetCode(rs: RuleSet, set_: nat, sysno: u64): Code {
    if sysno !in rs.rules then []
    else if !rs.vsyscall then MatchersCode(rs, set_, sysno)
    else [Load(OFFSET_IP_HIGH), False(JSET_K, TWO_31, 0, VsyscallViolation(set_, sysno))]
           + MatchersCode(rs, set_, sysno) + [Mark(VsyscallViolation(set_, sysno))]
  }

  /** Rule sets j and up for one call. */
  function SetsCode(sets: seq<RuleSet>, j: nat, sysno: u64): Code
    requires j <= |sets|
    decreases |sets| - j
  {
    if j == |sets| then [] else SetCode(sets[j], j, sysno) + SetsCode(sets, j + 1, sysno)
  }

  /** Some rule set has an empty list for the call: a blanket action. */
  predicate Blanket(rs: RuleSet, sysno: u64) { sysno in rs.rules && rs.rules[sysno] == [] }

  predicate Emitted(sets: seq<RuleSet>, j: nat, sysno: u64)
    requires j <= |sets|
    decreases |sets| - j
  {
    j < |sets| && (Blanket(sets[j], sysno) || Emitted(sets, j + 1, sysno))
  }

  // ----- the search tree -----

  datatype Tree = Nil | Node(left: Tree, value: u64, right: Tree)

  /** A balanced tree over a sorted list. */
  function CreateBST(syscalls: seq<u64>): (r: Tree)
    requires |syscalls| > 0
    ensures r.Node?
    decreases |syscalls|
  {
    var i := |syscalls| / 2;
    Node(if i > 0 then CreateBST(syscalls[..i]) else Nil,
         syscalls[i],
         if i + 1 < |syscalls| then CreateBST(syscalls[i + 1..]) else Nil)
  }

  function NodeLabel(n: Tree): Label { if n.Nil? then DefaultAction else Index(n.value) }

  /** The turn taken at a node, up to its argument checks. */
  function TurnCode(n: Tree): Code
    requires n.Node?
  {
    [True(JEQ_K, Number(n.value), CheckArgs(n.value), 0)]
      + (if n.left.Nil? && n.right.Nil? then [Direct(DefaultAction)]
         else [Plain(Jump(JGT_K, Number(n.value), 0, 1)), Direct(NodeLabel(n.right)), Direct(NodeLabel(n.left))])
  }

  /** The argument checks of a node's call. */
  function ChecksCode(sets: seq<RuleSet>, sysno: u64): Code {
    [Mark(CheckArgs(sysno))] + SetsCode(sets, 0, sysno)
      + (if Emitted(sets, 0, sysno) then [] else [Direct(DefaultAction)])
  }

  /** A node's code, without its own label. */
  function BodyCode(sets: seq<RuleSet>, n: Tree): Code
    requires n.Node?
  {
    TurnCode(n) + ChecksCode(sets, n.value)
  }

  /** A subtree's code in preorder. The root has no label. */
  function TreeCode(sets: seq<RuleSet>, n: Tree, root: bool): Code {
    if n.Nil? then []
    else (if root then [] else [Mark(Index(n.value))]) + BodyCode(sets, n)
           + TreeCode(sets, n.left, false) + TreeCode(sets, n.right, false)
  }

  /** The prologue: reject other architectures, then load the call number. */
  function ArchCode(arch: u32, badArchAction: u32): Code {
    [Load(OFFSET_ARCH), Plain(Jump(JEQ_K, arch, 1, 0)), RetK(badArchAction)]
  }

  function IndexCode(sets: seq<RuleSet>, syscalls: seq<u64>): Code {
    if sets == [] || syscalls == [] then [] else [Load(OFFSET_NR)] + TreeCode(sets, CreateBST(syscalls), true)
  }

  function ProgramCode(sets: seq<RuleSet>, syscalls: seq<u64>, arch: u32, defaultAction: u32,
                       badArchAction: u32): Code {
    ArchCode(arch, badArchAction) + IndexCode(sets, syscalls) + [Mark(DefaultAction), RetK(defaultAction)]
  }
}
