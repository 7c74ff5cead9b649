/** Building a BPF program with symbolic forward jumps, and resolving the labels
    to relative offsets. */
module ProgramBuilders {
  import opened Words
  import opened Bpf

  const LABEL_TARGET: u8 := 0xff
  const LABEL_DIRECT_TARGET: u32 := 0xffff_ffff

  datatype JmpType = JDirect | JTrue | JFalse

  /** One reference to a label: the line of the jump and the field to fill in. */
  datatype Source = Source(line: nat, jt: JmpType)

  /** What is known of a label: who refers to it, and its line (-1 while unset). */
  datatype LabelInfo = LabelInfo(sources: seq<Source>, target: int)

  /** One call on a builder. A builder's state is a function of its calls. */
  datatype Item<L> =
    | Plain(insn: Insn)
    | Direct(l: L)
    | True(op: bv16, k: u32, l: L, jf: u8)
    | False(op: bv16, k: u32, jt: u8, l: L)
    | Both(op: bv16, k: u32, lt: L, lf: L)
    | Mark(l: L)

  /** The labels an item refers to, with the field each reference fills. */
  function Refs<L>(item: Item<L>): seq<(L, JmpType)> {
    match item
    case Plain(_) => []
    case Direct(l) => [(l, JDirect)]
    case True(_, _, l, _) => [(l, JTrue)]
    case False(_, _, _, l) => [(l, JFalse)]
    case Both(_, _, lt, lf) => [(lt, JTrue), (lf, JFalse)]
    case Mark(_) => []
  }

  /** The instruction appended for an item, label fields holding placeholders. */
  function Placeholder<L>(item: Item<L>): Insn
    requires !item.Mark?
  {
    match item
    case Plain(i) => i
    case Direct(l) => Jump(JMP | JA, LABEL_DIRECT_TARGET, 0, 0)
    case True(op, k, l, jf) => Jump(op, k, LABEL_TARGET, jf)
    case False(op, k, jt, l) => Jump(op, k, jt, LABEL_TARGET)
    case Both(op, k, lt, lf) => Jump(op, k, LABEL_TARGET, LABEL_TARGET)
  }

  // ----- lines and labels of a call sequence -----

  /** The number of instructions the first n calls append. */
  function Line<L>(t: seq<Item<L>>, n: nat): (r: nat)
    requires n <= |t|
    ensures r <= n
  {
    if n == 0 then 0 else Line(t, n - 1) + (if t[n - 1].Mark? then 0 else 1)
  }

  /** The instructions the first n calls append. */
  function Code<L>(t: seq<Item<L>>, n: nat): (r: seq<Insn>)
    requires n <= |t|
    ensures |r| == Line(t, n)
  {
    if n == 0 then []
    else if t[n - 1].Mark? then Code(t, n - 1)
    else Code(t, n - 1) + [Placeholder(t[n - 1])]
  }

  function AddSources<L>(labels: map<L, LabelInfo>, line: nat, refs: seq<(L, JmpType)>): map<L, LabelInfo>
    decreases |refs|
  {
    if refs == [] then labels
    else
      var (l, jt) := refs[0];
      var info := if l in labels then labels[l] else LabelInfo([], -1);
      AddSources(labels[l := info.(sources := info.sources + [Source(line, jt)])], line, refs[1..])
  }

  datatype Table<L> = Table(labels: map<L, LabelInfo>, unusable: set<L>)

  function AddMark<L>(tab: Table<L>, l: L, line: nat): Table<L> {
    if l !in tab.labels then tab.(unusable := tab.unusable + {l})
    else if tab.labels[l].target != -1 then tab
    else tab.(labels := tab.labels[l := tab.labels[l].(target := line)])
  }

  /** The label tables after the first n calls. */
  function Labels<L>(t: seq<Item<L>>, n: nat): Table<L>
    requires n <= |t|
  {
    if n == 0 then Table(map[], {})
    else
      var tab, line := Labels(t, n - 1), Line(t, n - 1);
      if t[n - 1].Mark? then AddMark(tab, t[n - 1].l, line)
      else tab.(labels := AddSources(tab.labels, line, Refs(t[n - 1])))
  }

  /** Whether a mark fails: its label is set already. */
  predicate MarkFails<L>(tab: Table<L>, l: L) {
    if l in tab.labels then tab.labels[l].target != -1 else l in tab.unusable
  }

  // ----- what the tables say, read off the call sequence -----

  /** The first of the first n calls that marks l, or n. */
  function FirstMark<L(==)>(t: seq<Item<L>>, l: L, n: nat): (r: nat)
    requires n <= |t|
    ensures r <= n && (r < n ==> t[r] == Mark(l))
    ensures forall i :: 0 <= i < r ==> t[i] != Mark(l)
  {
    if n == 0 then 0
    else
      var r := FirstMark(t, l, n - 1);
      if r < n - 1 then r else if t[n - 1] == Mark(l) then n - 1 else n
  }

  predicate RefersTo<L(==)>(item: Item<L>, l: L) {
    match item
    case Plain(_) => false
    case Direct(l') => l' == l
    case True(_, _, l', _) => l' == l
    case False(_, _, _, l') => l' == l
    case Both(_, _, lt, lf) => lt == l || lf == l
    case Mark(_) => false
  }

  /** The first of the first n calls that refers to l, or n. */
  function FirstRef<L(==)>(t: seq<Item<L>>, l: L, n: nat): (r: nat)
    requires n <= |t|
    ensures r <= n && (r < n ==> RefersTo(t[r], l))
    ensures forall i :: 0 <= i < r ==> !RefersTo(t[i], l)
  {
    if n == 0 then 0
    else
      var r := FirstRef(t, l, n - 1);
      if r < n - 1 then r else if RefersTo(t[n - 1], l) then n - 1 else n
  }

  /** The references among refs to l, as sources on the given line. */
  function SourcesIn<L(==)>(refs: seq<(L, JmpType)>, l: L, line: nat): seq<Source> {
    if refs == [] then []
    else (if refs[0].0 == l then [Source(line, refs[0].1)] else []) + SourcesIn(refs[1..], l, line)
  }

  function SourcesOf<L(==)>(t: seq<Item<L>>, l: L, n: nat): seq<Source>
    requires n <= |t|
  {
    if n == 0 then [] else SourcesOf(t, l, n - 1) + SourcesIn(Refs(t[n - 1]), l, Line(t, n - 1))
  }

  lemma {:induction false} AddSourcesAt<L>(labels: map<L, LabelInfo>, line: nat, refs: seq<(L, JmpType)>, l: L)
    ensures var labels' := AddSources(labels, line, refs);
            var old' := if l in labels then labels[l] else LabelInfo([], -1);
            && (l in labels' <==> l in labels || SourcesIn(refs, l, line) != [])
            && (l in labels' ==> labels'[l] == LabelInfo(old'.sources + SourcesIn(refs, l, line), old'.target))
    decreases |refs|
  {
    if refs != [] {
      var (l0, jt) := refs[0];
      var info := if l0 in labels then labels[l0] else LabelInfo([], -1);
      AddSourcesAt(labels[l0 := info.(sources := info.sources + [Source(line, jt)])], line, refs[1..], l);
      if l0 == l {
        assert info.sources + [Source(line, jt)] + SourcesIn(refs[1..], l, line)
            == info.sources + SourcesIn(refs, l, line);
      }
    }
  }

  lemma {:induction false} SourcesInIff<L>(refs: seq<(L, JmpType)>, l: L, line: nat, s: Source)
    ensures s in SourcesIn(refs, l, line) <==> s.line == line && (l, s.jt) in refs
    ensures SourcesIn(refs, l, line) == [] ==> forall jt: JmpType :: (l, jt) !in refs
    decreases |refs|
  {
    if refs != [] {
      assert refs == [refs[0]] + refs[1..];
      SourcesInIff(refs[1..], l, line, s);
    }
  }

  /** What a table says of label l after n calls, if those mark l first at call
      mark on line target, refer to it first at call ref, and from sources. */
  predicate Says<L(==)>(tab: Table<L>, l: L, n: nat, mark: nat, ref: nat, sources: seq<Source>, target: int) {
    && (l in tab.labels <==> ref < n)
    && (l in tab.unusable <==> mark < n && mark < ref)
    && (l in tab.labels ==> tab.labels[l].sources == sources)
    && (l !in tab.labels ==> sources == [])
    && (l in tab.labels && l !in tab.unusable ==> tab.labels[l].target == if mark < n then target else -1)
  }

  predicate Describes<L(==)>(tab: Table<L>, t: seq<Item<L>>, l: L, n: nat)
    requires n <= |t|
  {
    Says(tab, l, n, FirstMark(t, l, n), FirstRef(t, l, n), SourcesOf(t, l, n), Line(t, FirstMark(t, l, n)))
  }

  lemma NoSourcesIff<L>(item: Item<L>, l: L, line: nat)
    ensures SourcesIn(Refs(item), l, line) == [] <==> !RefersTo(item, l)
  {
    if item.Both? {
      assert Refs(item)[1..] == [(item.lf, JFalse)];
      assert SourcesIn([(item.lf, JFalse)], l, line) == if item.lf == l then [Source(line, JFalse)] else [];
    }
  }

  lemma SaysMark<L>(tab: Table<L>, l: L, n: nat, mark: nat, ref: nat, sources: seq<Source>, target: int,
                    l': L, line: nat, mark': nat, ref': nat, target': int)
    requires Says(tab, l, n, mark, ref, sources, target) && mark <= n && ref <= n
    requires mark' == if mark < n then mark else if l' == l then n else n + 1
    requires ref' == if ref < n then ref else n + 1
    requires (mark < n ==> target' == target >= 0) && (mark == n && l' == l ==> target' == line)
    ensures Says(AddMark(tab, l', line), l, n + 1, mark', ref', sources, target')
  {
  }

  lemma SaysRefs<L>(tab: Table<L>, l: L, n: nat, mark: nat, ref: nat, sources: seq<Source>, target: int,
                    refs: seq<(L, JmpType)>, line: nat, mark': nat, ref': nat, target': int)
    requires Says(tab, l, n, mark, ref, sources, target) && mark <= n && ref <= n
    requires mark' == if mark < n then mark else n + 1
    requires ref' == if ref < n then ref else if SourcesIn(refs, l, line) != [] then n else n + 1
    requires mark < n ==> target' == target
    ensures Says(tab.(labels := AddSources(tab.labels, line, refs)), l, n + 1, mark', ref',
                 sources + SourcesIn(refs, l, line), target')
  {
    AddSourcesAt(tab.labels, line, refs, l);
  }

  /** How one more call moves the first mark and the first reference. */
  lemma FirstAtNext<L>(t: seq<Item<L>>, l: L, n: nat)
    requires n < |t|
    ensures var mark := FirstMark(t, l, n);
            FirstMark(t, l, n + 1) == if mark < n then mark else if t[n] == Mark(l) then n else n + 1
    ensures var ref := FirstRef(t, l, n);
            FirstRef(t, l, n + 1) == if ref < n then ref else if RefersTo(t[n], l) then n else n + 1
    ensures SourcesOf(t, l, n + 1) == SourcesOf(t, l, n) + SourcesIn(Refs(t[n]), l, Line(t, n))
    ensures t[n].Mark? ==> SourcesOf(t, l, n + 1) == SourcesOf(t, l, n) && !RefersTo(t[n], l)
  {
  }

  lemma DescribesMark<L>(tab: Table<L>, t: seq<Item<L>>, l: L, n: nat)
    requires n < |t| && t[n].Mark? && Describes(tab, t, l, n)
    ensures Describes(AddMark(tab, t[n].l, Line(t, n)), t, l, n + 1)
  {
    FirstAtNext(t, l, n);
    var mark, mark' := FirstMark(t, l, n), FirstMark(t, l, n + 1);
    SaysMark(tab, l, n, mark, FirstRef(t, l, n), SourcesOf(t, l, n), Line(t, mark),
             t[n].l, Line(t, n), mark', FirstRef(t, l, n + 1), Line(t, mark'));
  }

  lemma DescribesRefs<L>(tab: Table<L>, t: seq<Item<L>>, l: L, n: nat)
    requires n < |t| && !t[n].Mark? && Describes(tab, t, l, n)
    ensures Describes(tab.(labels := AddSources(tab.labels, Line(t, n), Refs(t[n]))), t, l, n + 1)
  {
    FirstAtNext(t, l, n);
    NoSourcesIff(t[n], l, Line(t, n));
    var mark, mark' := FirstMark(t, l, n), FirstMark(t, l, n + 1);
    SaysRefs(tab, l, n, mark, FirstRef(t, l, n), SourcesOf(t, l, n), Line(t, mark),
             Refs(t[n]), Line(t, n), mark', FirstRef(t, l, n + 1), Line(t, mark'));
  }

  /** The tables of a call sequence, in closed form. */
  lemma {:induction false} LabelsAt<L>(t: seq<Item<L>>, l: L, n: nat)
    requires n <= |t|
    ensures Describes(Labels(t, n), t, l, n)
  {
    if n > 0 {
      LabelsAt(t, l, n - 1);
      if t[n - 1].Mark? {
        DescribesMark(Labels(t, n - 1), t, l, n - 1);
      } else {
        DescribesRefs(Labels(t, n - 1), t, l, n - 1);
      }
    }
  }

  /** Sources are exactly the references of the call sequence. */
  lemma {:induction false} SourcesOfIff<L>(t: seq<Item<L>>, l: L, n: nat, s: Source)
    requires n <= |t|
    ensures s in SourcesOf(t, l, n) <==> exists k :: 0 <= k < n && s.line == Line(t, k) && (l, s.jt) in Refs(t[k])
  {
    hide SourcesIn, Refs, Line;
    if n > 0 {
      SourcesOfIff(t, l, n - 1, s);
      SourcesInIff(Refs(t[n - 1]), l, Line(t, n - 1), s);
    }
  }

  lemma {:induction false} LineMonotone<L>(t: seq<Item<L>>, j: nat, k: nat)
    requires j <= k <= |t|
    ensures Line(t, j) <= Line(t, k)
    ensures j < k && !t[j].Mark? ==> Line(t, j) < Line(t, k)
    decreases k
  {
    if j < k { LineMonotone(t, j, k - 1); }
  }

  // ----- assembling -----

  /** The jump offset from the reference at call k to label l. */
  function Offset<L(==)>(t: seq<Item<L>>, k: nat, l: L): int
    requires k < |t|
  {
    Line(t, FirstMark(t, l, |t|)) - Line(t, k) - 1
  }

  /** A reference can be resolved: its label is marked later, an instruction
      follows the mark, and the distance fits the field. */
  predicate RefOk<L(==)>(t: seq<Item<L>>, k: nat, l: L, jt: JmpType)
    requires k < |t|
  {
    && FirstMark(t, l, |t|) < |t|
    && Line(t, FirstMark(t, l, |t|)) < Line(t, |t|)
    && 0 <= Offset(t, k, l) <= (if jt == JDirect then LABEL_DIRECT_TARGET else LABEL_TARGET)
  }

  ghost predicate Resolvable<L>(t: seq<Item<L>>) {
    forall k, p :: 0 <= k < |t| && p in Refs(t[k]) ==> RefOk(t, k, p.0, p.1)
  }

  function Clip8(x: int): u8 { if 0 <= x < TWO_8 then x else LABEL_TARGET }
  function Clip32(x: int): u32 { if 0 <= x < TWO_32 then x else LABEL_DIRECT_TARGET }

  /** The instruction of item k, with the fields of the sources in done filled. */
  function Fill<L(==)>(t: seq<Item<L>>, k: nat, done: set<Source>): Insn
    requires k < |t| && !t[k].Mark?
  {
    var i, at := Placeholder(t[k]), Line(t, k);
    match t[k]
    case Plain(_) => i
    case Direct(l) => if Source(at, JDirect) in done then i.(k := Clip32(Offset(t, k, l))) else i
    case True(_, _, l, _) => if Source(at, JTrue) in done then i.(jt := Clip8(Offset(t, k, l))) else i
    case False(_, _, _, l) => if Source(at, JFalse) in done then i.(jf := Clip8(Offset(t, k, l))) else i
    case Both(_, _, lt, lf) =>
      var i' := if Source(at, JTrue) in done then i.(jt := Clip8(Offset(t, k, lt))) else i;
      if Source(at, JFalse) in done then i'.(jf := Clip8(Offset(t, k, lf))) else i'
  }

  /** Program p is the calls' code with exactly the sources in done filled. */
  ghost predicate Filled<L>(p: seq<Insn>, t: seq<Item<L>>, done: set<Source>) {
    && |p| == Line(t, |t|)
    && forall k {:trigger Fill(t, k, done)} :: 0 <= k < |t| && !t[k].Mark? ==>
         Line(t, k) < |p| && p[Line(t, k)] == Fill(t, k, done)
  }

  function SourcesOn(line: nat): set<Source> { {Source(line, JDirect), Source(line, JTrue), Source(line, JFalse)} }

  /** Program p is the calls' code with every label resolved. */
  ghost predicate Assembled<L>(p: seq<Insn>, t: seq<Item<L>>) {
    && |p| == Line(t, |t|)
    && forall k {:trigger Fill(t, k, SourcesOn(Line(t, k)))} :: 0 <= k < |t| && !t[k].Mark? ==>
         Line(t, k) < |p| && p[Line(t, k)] == Fill(t, k, SourcesOn(Line(t, k)))
  }

  lemma {:induction false} CodeIsFilled<L>(t: seq<Item<L>>, n: nat)
    requires n <= |t|
    ensures forall k :: 0 <= k < n && !t[k].Mark? ==>
              Line(t, k) < Line(t, n) && Code(t, n)[Line(t, k)] == Placeholder(t[k])
  {
    if n > 0 { CodeIsFilled(t, n - 1); }
  }

  /** A source belongs to one call and one label. */
  lemma SourceIsUnique<L>(t: seq<Item<L>>, j: nat, k: nat, p: (L, JmpType), q: (L, JmpType))
    requires j < |t| && k < |t| && p in Refs(t[j]) && q in Refs(t[k])
    requires Line(t, j) == Line(t, k) && p.1 == q.1
    ensures j == k && p == q
  {
    LineMonotone(t, if j < k then j else k, if j < k then k else j);
  }

  predicate Distinct(ss: seq<Source>) {
    forall i, j :: 0 <= i < j < |ss| ==> ss[i] != ss[j]
  }

  lemma {:induction false} SourcesAreDistinct<L>(t: seq<Item<L>>, l: L, n: nat)
    requires n <= |t|
    ensures Distinct(SourcesOf(t, l, n))
  {
    if n > 0 {
      SourcesAreDistinct(t, l, n - 1);
      var old', new' := SourcesOf(t, l, n - 1), SourcesIn(Refs(t[n - 1]), l, Line(t, n - 1));
      assert SourcesOf(t, l, n) == old' + new';
      forall i, j | 0 <= i < |old'| && 0 <= j < |new'| ensures old'[i] != new'[j] {
        SourcesOfIff(t, l, n - 1, old'[i]);
        var k :| 0 <= k < n - 1 && old'[i].line == Line(t, k) && (l, old'[i].jt) in Refs(t[k]);
        LineMonotone(t, k, n - 1);
        SourcesInIff(Refs(t[n - 1]), l, Line(t, n - 1), new'[j]);
      }
      RefsAreDistinct(t[n - 1], l, Line(t, n - 1));
      DistinctConcat(old', new');
    }
  }

  lemma DistinctConcat(a: seq<Source>, b: seq<Source>)
    requires Distinct(a) && Distinct(b)
    requires forall i, j :: 0 <= i < |a| && 0 <= j < |b| ==> a[i] != b[j]
    ensures Distinct(a + b)
  {
  }

  lemma RefsAreDistinct<L>(item: Item<L>, l: L, line: nat)
    ensures Distinct(SourcesIn(Refs(item), l, line))
  {
    if item.Both? {
      assert Refs(item)[1..] == [(item.lf, JFalse)];
      assert SourcesIn([(item.lf, JFalse)], l, line) == if item.lf == l then [Source(line, JFalse)] else [];
    }
  }

  /** The instruction with one more label field filled in. */
  function SetField(i: Insn, jt: JmpType, offset: int): Insn {
    match jt
    case JDirect => i.(k := Clip32(offset))
    case JTrue => i.(jt := Clip8(offset))
    case JFalse => i.(jf := Clip8(offset))
  }

  /** The field still holds the placeholder that stands for a label. */
  predicate IsLabelField(i: Insn, jt: JmpType) {
    match jt
    case JDirect => i.k == LABEL_DIRECT_TARGET
    case JTrue => i.jt == LABEL_TARGET
    case JFalse => i.jf == LABEL_TARGET
  }

  lemma FillItem<L>(t: seq<Item<L>>, k: nat, done: set<Source>, r: (L, JmpType))
    requires k < |t| && r in Refs(t[k]) && Source(Line(t, k), r.1) !in done
    ensures IsLabelField(Fill(t, k, done), r.1)
    ensures Fill(t, k, done + {Source(Line(t, k), r.1)}) == SetField(Fill(t, k, done), r.1, Offset(t, k, r.0))
  {
    hide Line, Offset, Clip8, Clip32;
    match t[k]
    case Direct(l) => assert r == (l, JDirect);
    case True(_, _, l, _) => assert r == (l, JTrue);
    case False(_, _, _, l) => assert r == (l, JFalse);
    case Both(_, _, lt, lf) => assert r == (lt, JTrue) || r == (lf, JFalse);
  }

  lemma FillElsewhere<L>(t: seq<Item<L>>, k: nat, done: set<Source>, s: Source)
    requires k < |t| && !t[k].Mark? && s.line != Line(t, k)
    ensures Fill(t, k, done + {s}) == Fill(t, k, done)
  {
  }

  lemma FillOneAt<L>(p: seq<Insn>, t: seq<Item<L>>, done: set<Source>, k: nat, r: (L, JmpType), i: Insn, j: nat)
    requires Filled(p, t, done) && k < |t| && r in Refs(t[k])
    requires Line(t, k) < |p| && i == Fill(t, k, done + {Source(Line(t, k), r.1)})
    requires j < |t| && !t[j].Mark?
    ensures Line(t, j) < |p| && p[Line(t, k) := i][Line(t, j)] == Fill(t, j, done + {Source(Line(t, k), r.1)})
  {
    if j != k {
      LineMonotone(t, if j < k then j else k, if j < k then k else j);
      FillElsewhere(t, j, done, Source(Line(t, k), r.1));
    }
  }

  /** Filling one more source in. */
  lemma FillOne<L>(p: seq<Insn>, t: seq<Item<L>>, done: set<Source>, k: nat, r: (L, JmpType))
    requires Filled(p, t, done) && k < |t| && r in Refs(t[k]) && Source(Line(t, k), r.1) !in done
    ensures var at := Line(t, k);
            && at < |p| && IsLabelField(p[at], r.1)
            && Filled(p[at := SetField(p[at], r.1, Offset(t, k, r.0))], t, done + {Source(at, r.1)})
  {
    FillItem(t, k, done, r);
    var i := SetField(p[Line(t, k)], r.1, Offset(t, k, r.0));
    forall j | 0 <= j < |t| && !t[j].Mark?
      ensures Line(t, j) < |p| && p[Line(t, k) := i][Line(t, j)] == Fill(t, j, done + {Source(Line(t, k), r.1)})
    {
      FillOneAt(p, t, done, k, r, i, j);
    }
  }

  // ----- resolution -----

  /** Exactly the references to the labels in keys have been filled in. */
  ghost predicate DoneBy<L>(t: seq<Item<L>>, keys: set<L>, done: set<Source>) {
    forall k, p :: 0 <= k < |t| && p in Refs(t[k]) ==> (Source(Line(t, k), p.1) in done <==> p.0 in keys)
  }

  /** Every reference to l can be resolved. */
  ghost predicate LabelOk<L>(t: seq<Item<L>>, l: L) {
    forall k, p :: 0 <= k < |t| && p in Refs(t[k]) && p.0 == l ==> RefOk(t, k, p.0, p.1)
  }

  function AsSet(ss: seq<Source>): set<Source> { set s | s in ss }

  lemma DoneByOneMore<L>(t: seq<Item<L>>, keys: set<L>, done: set<Source>, l: L)
    requires DoneBy(t, keys, done)
    ensures DoneBy(t, keys + {l}, done + AsSet(SourcesOf(t, l, |t|)))
  {
    forall k, p | 0 <= k < |t| && p in Refs(t[k])
      ensures Source(Line(t, k), p.1) in done + AsSet(SourcesOf(t, l, |t|)) <==> p.0 in keys + {l}
    {
      var s := Source(Line(t, k), p.1);
      SourcesOfIff(t, l, |t|, s);
      if s in SourcesOf(t, l, |t|) {
        var j :| 0 <= j < |t| && s.line == Line(t, j) && (l, s.jt) in Refs(t[j]);
        SourceIsUnique(t, j, k, (l, s.jt), p);
      }
    }
  }

  /** An item that refers to l has a reference to it. */
  lemma RefersToRef<L>(item: Item<L>, l: L) returns (jt: JmpType)
    requires RefersTo(item, l)
    ensures (l, jt) in Refs(item)
  {
    match item
    case Direct(_) => jt := JDirect; assert Refs(item)[0] == (l, jt);
    case True(_, _, _, _) => jt := JTrue; assert Refs(item)[0] == (l, jt);
    case False(_, _, _, _) => jt := JFalse; assert Refs(item)[0] == (l, jt);
    case Both(_, _, lt, lf) =>
      if lt == l { jt := JTrue; assert Refs(item)[0] == (l, jt); }
      else { jt := JFalse; assert Refs(item)[1] == (l, jt); }
  }

  lemma RefMeansRefersTo<L>(item: Item<L>, p: (L, JmpType))
    requires p in Refs(item)
    ensures RefersTo(item, p.0)
  {
  }

  /** A label that is unusable, unset or set at the end cannot be resolved. */
  lemma BadLabel<L>(t: seq<Item<L>>, l: L)
    requires FirstRef(t, l, |t|) < |t|
    requires var mark := FirstMark(t, l, |t|);
             mark < FirstRef(t, l, |t|) || mark == |t| || Line(t, mark) >= Line(t, |t|)
    ensures !LabelOk(t, l) && !Resolvable(t)
  {
    var k := FirstRef(t, l, |t|);
    var jt := RefersToRef(t[k], l);
    var mark := FirstMark(t, l, |t|);
    if mark < k { LineMonotone(t, mark, k); }
    assert !RefOk(t, k, l, jt);
    assert (l, jt).0 == l && (l, jt) in Refs(t[k]);
  }

  lemma AllDone<L>(p: seq<Insn>, t: seq<Item<L>>, keys: set<L>, done: set<Source>)
    requires Filled(p, t, done) && DoneBy(t, keys, done)
    requires forall k, r :: 0 <= k < |t| && r in Refs(t[k]) ==> r.0 in keys
    ensures Assembled(p, t)
  {
    forall k | 0 <= k < |t| && !t[k].Mark?
      ensures Line(t, k) < |p| && p[Line(t, k)] == Fill(t, k, SourcesOn(Line(t, k)))
    {
      FillAll(t, k, done);
    }
  }

  lemma FillAll<L>(t: seq<Item<L>>, k: nat, done: set<Source>)
    requires k < |t| && !t[k].Mark?
    requires forall r :: r in Refs(t[k]) ==> Source(Line(t, k), r.1) in done
    ensures Fill(t, k, done) == Fill(t, k, SourcesOn(Line(t, k)))
  {
    match t[k]
    case Plain(_) =>
    case Direct(l) => assert Refs(t[k])[0] == (l, JDirect);
    case True(_, _, l, _) => assert Refs(t[k])[0] == (l, JTrue);
    case False(_, _, _, l) => assert Refs(t[k])[0] == (l, JFalse);
    case Both(_, _, lt, lf) => assert Refs(t[k])[0] == (lt, JTrue) && Refs(t[k])[1] == (lf, JFalse);
  }

  /** A label no call has marked yet can be marked. */
  lemma UnmarkedSucceeds<L>(t: seq<Item<L>>, l: L)
    requires Mark(l) !in t
    ensures !MarkFails(Labels(t, |t|), l)
  {
    LabelsAt(t, l, |t|);
  }

  /** The checks made on one reference: the jump goes forward and its distance
      fits the field. */
  predicate SourceOk(s: Source, target: int) {
    && s.line < target
    && target - s.line - 1 <= (if s.jt == JDirect then LABEL_DIRECT_TARGET else LABEL_TARGET)
  }

  /** The call a source of l stems from. */
  lemma SourceHome<L>(t: seq<Item<L>>, l: L, s: Source) returns (k: nat)
    requires s in SourcesOf(t, l, |t|)
    ensures k < |t| && s.line == Line(t, k) && (l, s.jt) in Refs(t[k])
  {
    SourcesOfIff(t, l, |t|, s);
    k :| 0 <= k < |t| && s.line == Line(t, k) && (l, s.jt) in Refs(t[k]);
  }

  lemma SourceIsFresh<L>(t: seq<Item<L>>, keys: set<L>, done: set<Source>, ss: seq<Source>, j: nat, k: nat, l: L)
    requires DoneBy(t, keys, done) && l !in keys && Distinct(ss) && j < |ss|
    requires k < |t| && ss[j].line == Line(t, k) && (l, ss[j].jt) in Refs(t[k])
    ensures ss[j] !in done + AsSet(ss[..j])
  {
    assert ss[j] == Source(Line(t, k), (l, ss[j].jt).1);
    assert ss[j] !in done;
  }

  lemma AsSetNext(done: set<Source>, ss: seq<Source>, j: nat)
    requires j < |ss|
    ensures done + AsSet(ss[..j + 1]) == done + AsSet(ss[..j]) + {ss[j]}
  {
  }

  /** One round of the resolution loop. */
  lemma ResolveSource<L>(p: seq<Insn>, t: seq<Item<L>>, done: set<Source>, l: L, s: Source, k: nat, target: int)
    requires k < |t| && s.line == Line(t, k) && (l, s.jt) in Refs(t[k])
    requires Filled(p, t, done) && s !in done
    requires FirstMark(t, l, |t|) < |t| && target == Line(t, FirstMark(t, l, |t|))
    ensures s.line < |p| && IsLabelField(p[s.line], s.jt)
    ensures Filled(p[s.line := SetField(p[s.line], s.jt, target - s.line - 1)], t, done + {s})
    ensures !SourceOk(s, target) ==> !Resolvable(t)
  {
    FillOne(p, t, done, k, (l, s.jt));
    if !SourceOk(s, target) {
      assert !RefOk(t, k, (l, s.jt).0, (l, s.jt).1);
    }
  }

  lemma SourcesMakeLabelOk<L>(t: seq<Item<L>>, l: L, target: int)
    requires var mark := FirstMark(t, l, |t|); mark < |t| && target == Line(t, mark) < Line(t, |t|)
    requires forall i :: 0 <= i < |SourcesOf(t, l, |t|)| ==> SourceOk(SourcesOf(t, l, |t|)[i], target)
    ensures LabelOk(t, l)
  {
    forall k, p | 0 <= k < |t| && p in Refs(t[k]) && p.0 == l ensures RefOk(t, k, p.0, p.1) {
      var s := Source(Line(t, k), p.1);
      assert (l, s.jt) == p;
      SourcesOfIff(t, l, |t|, s);
      assert s in SourcesOf(t, l, |t|);
    }
  }

  lemma NothingFilled<L>(p: seq<Insn>, t: seq<Item<L>>)
    requires p == Code(t, |t|)
    ensures Filled(p, t, {}) && DoneBy(t, {}, {})
  {
    CodeIsFilled(t, |t|);
  }

  lemma AllRefsHaveLabels<L>(t: seq<Item<L>>)
    ensures forall k, r :: 0 <= k < |t| && r in Refs(t[k]) ==> r.0 in Labels(t, |t|).labels
  {
    forall k, r | 0 <= k < |t| && r in Refs(t[k]) ensures r.0 in Labels(t, |t|).labels {
      LabelsAt(t, r.0, |t|);
      RefMeansRefersTo(t[k], r);
    }
  }

  lemma AllLabelsOk<L>(t: seq<Item<L>>, keys: set<L>)
    requires forall l :: l in keys ==> LabelOk(t, l)
    requires forall k, r :: 0 <= k < |t| && r in Refs(t[k]) ==> r.0 in keys
    ensures Resolvable(t)
  {
    forall k, p | 0 <= k < |t| && p in Refs(t[k]) ensures RefOk(t, k, p.0, p.1) {
      assert LabelOk(t, p.0);
    }
  }

  // ----- the builder -----

  lemma {:induction false} PrefixSame<L>(t: seq<Item<L>>, item: Item<L>, n: nat)
    requires n <= |t|
    ensures Line(t + [item], n) == Line(t, n)
    ensures Code(t + [item], n) == Code(t, n)
    ensures Labels(t + [item], n) == Labels(t, n)
  {
    if n > 0 { PrefixSame(t, item, n - 1); }
  }

  /** Fill in the references to one label. */
  method FillSources<L(==)>(p: seq<Insn>, v: LabelInfo, ghost l: L, ghost t: seq<Item<L>>, ghost keys: set<L>,
                            ghost done: set<Source>)
    returns (ok: bool, p': seq<Insn>)
    requires Filled(p, t, done) && DoneBy(t, keys, done) && l !in keys
    requires v.sources == SourcesOf(t, l, |t|)
    requires FirstMark(t, l, |t|) < |t| && v.target == Line(t, FirstMark(t, l, |t|)) < Line(t, |t|)
    ensures ok ==> Filled(p', t, done + AsSet(v.sources)) && LabelOk(t, l)
    ensures !ok ==> !Resolvable(t)
  {
    hide Filled, DoneBy, Distinct, LabelOk, Resolvable, FirstMark;
    hide Line, SourcesOf, Refs, SourceOk, IsLabelField, SetField;
    SourcesAreDistinct(t, l, |t|);
    p' := p;
    var j := 0;
    ghost var cur := done;
    while j < |v.sources|
      invariant 0 <= j <= |v.sources|
      invariant cur == done + AsSet(v.sources[..j])
      invariant Filled(p', t, cur)
      invariant forall i :: 0 <= i < j ==> SourceOk(v.sources[i], v.target)
    {
      var s := v.sources[j];
      ghost var k := SourceHome(t, l, s);
      SourceIsFresh(t, keys, done, v.sources, j, k, l);
      ResolveSource(p', t, cur, l, s, k, v.target);
      if !SourceOk(s, v.target) {
        return false, p';
      }
      assert IsLabelField(p'[s.line], s.jt);
      p' := p'[s.line := SetField(p'[s.line], s.jt, v.target - s.line - 1)];
      AsSetNext(done, v.sources, j);
      j, cur := j + 1, cur + {s};
    }
    assert v.sources[..|v.sources|] == v.sources;
    SourcesMakeLabelOk(t, l, v.target);
    ok := true;
  }

  class ProgramBuilder<L(==)> {
    var labels: map<L, LabelInfo>
    var unusableLabels: set<L>
    var instructions: seq<Insn>

    /** The calls made so far. */
    ghost var calls: seq<Item<L>>

    ghost predicate Valid()
      reads this
    {
      && Labels(calls, |calls|) == Table(labels, unusableLabels)
      && instructions == Code(calls, |calls|)
    }

    constructor ()
      ensures Valid() && calls == []
    {
      labels, unusableLabels, instructions, calls := map[], {}, [], [];
    }

    method AddLabelSource(l: L, jt: JmpType)
      modifies this`labels
      ensures labels == AddSources(old(labels), |instructions|, [(l, jt)])
    {
      var info := if l in labels then labels[l] else LabelInfo([], -1);
      labels := labels[l := info.(sources := info.sources + [Source(|instructions|, jt)])];
    }

    /** Append the instruction of an item whose label sources were added. */
    method AddInsn(i: Insn, ghost item: Item<L>)
      requires !item.Mark? && i == Placeholder(item)
      requires var tab := Labels(calls, |calls|);
               labels == AddSources(tab.labels, |instructions|, Refs(item)) && unusableLabels == tab.unusable
      requires instructions == Code(calls, |calls|)
      modifies this
      ensures Valid() && calls == old(calls) + [item]
    {
      instructions := instructions + [i];
      PrefixSame(calls, item, |calls|);
      calls := calls + [item];
    }

    method AddStmt(code: bv16, k: u32)
      requires Valid()
      modifies this
      ensures Valid() && calls == old(calls) + [Plain(Stmt(code, k))]
    {
      AddInsn(Stmt(code, k), Plain(Stmt(code, k)));
    }

    method AddJump(code: bv16, k: u32, jt: u8, jf: u8)
      requires Valid()
      modifies this
      ensures Valid() && calls == old(calls) + [Plain(Jump(code, k, jt, jf))]
    {
      AddInsn(Jump(code, k, jt, jf), Plain(Jump(code, k, jt, jf)));
    }

    method AddDirectJumpLabel(l: L)
      requires Valid()
      modifies this
      ensures Valid() && calls == old(calls) + [Direct(l)]
    {
      AddLabelSource(l, JDirect);
      AddInsn(Jump(JMP | JA, LABEL_DIRECT_TARGET, 0, 0), Direct(l));
    }

    method AddJumpTrueLabel(code: bv16, k: u32, l: L, jf: u8)
      requires Valid()
      modifies this
      ensures Valid() && calls == old(calls) + [True(code, k, l, jf)]
    {
      AddLabelSource(l, JTrue);
      AddInsn(Jump(code, k, LABEL_TARGET, jf), True(code, k, l, jf));
    }

    method AddJumpFalseLabel(code: bv16, k: u32, jt: u8, l: L)
      requires Valid()
      modifies this
      ensures Valid() && calls == old(calls) + [False(code, k, jt, l)]
    {
      AddLabelSource(l, JFalse);
      AddInsn(Jump(code, k, jt, LABEL_TARGET), False(code, k, jt, l));
    }

    method AddJumpLabels(code: bv16, k: u32, lt: L, lf: L)
      requires Valid()
      modifies this
      ensures Valid() && calls == old(calls) + [Both(code, k, lt, lf)]
    {
      AddLabelSource(lt, JTrue);
      AddLabelSource(lf, JFalse);
      assert Refs(Both(code, k, lt, lf))[1..] == [(lf, JFalse)];
      AddInsn(Jump(code, k, LABEL_TARGET, LABEL_TARGET), Both(code, k, lt, lf));
    }

    /** Set a label here. Fails when it is set already; a label set before any
        jump refers to it becomes unusable. */
    method AddLabel(l: L) returns (ok: bool)
      requires Valid()
      modifies this
      ensures Valid() && calls == old(calls) + [Mark(l)]
      ensures ok == !MarkFails(Labels(old(calls), |old(calls)|), l)
      ensures Mark(l) !in old(calls) ==> ok
    {
      ghost var before := calls;
      ok := true;
      if l !in labels {
        ok := l !in unusableLabels;
        unusableLabels := unusableLabels + {l};
      } else if labels[l].target != -1 {
        ok := false;
      } else {
        labels := labels[l := labels[l].(target := |instructions|)];
      }
      PrefixSame(calls, Mark(l), |calls|);
      calls := calls + [Mark(l)];
      if Mark(l) !in before {
        UnmarkedSucceeds(before, l);
      }
    }

    /** Resolve the references to one label. */
    method ResolveLabel(key: L, ghost keys: set<L>, ghost done: set<Source>) returns (ok: bool)
      requires key in labels && Labels(calls, |calls|) == Table(labels, unusableLabels)
      requires Filled(instructions, calls, done) && DoneBy(calls, keys, done) && key !in keys
      modifies this`instructions
      ensures ok ==> Filled(instructions, calls, done + AsSet(SourcesOf(calls, key, |calls|)))
      ensures ok ==> LabelOk(calls, key)
      ensures !ok ==> !Resolvable(calls)
    {
      LabelsAt(calls, key, |calls|);
      var v := labels[key];
      if key in unusableLabels || v.target == -1 || v.target >= |instructions| {
        BadLabel(calls, key);
        return false;
      }
      ok, instructions := FillSources(instructions, v, key, calls, keys, done);
    }

    /** Resolve every label. Succeeds exactly when every reference can be
        resolved; the labels are taken in an arbitrary order. */
    method ResolveLabels() returns (ok: bool)
      requires Valid()
      modifies this
      ensures calls == old(calls)
      ensures ok <==> Resolvable(calls)
      ensures ok ==> Assembled(instructions, calls)
    {
      ghost var done: set<Source> := {};
      CodeIsFilled(calls, |calls|);
      NothingFilled(instructions, calls);
      var remaining := labels.Keys;
      while remaining != {}
        invariant remaining <= labels.Keys && Table(labels, unusableLabels) == Labels(calls, |calls|)
        invariant calls == old(calls)
        invariant Filled(instructions, calls, done) && DoneBy(calls, labels.Keys - remaining, done)
        invariant forall l :: l in labels.Keys - remaining ==> LabelOk(calls, l)
        decreases remaining
      {
        var key :| key in remaining;
        var resolved := ResolveLabel(key, labels.Keys - remaining, done);
        if !resolved {
          return false;
        }
        DoneByOneMore(calls, labels.Keys - remaining, done, key);
        done := done + AsSet(SourcesOf(calls, key, |calls|));
        assert labels.Keys - (remaining - {key}) == labels.Keys - remaining + {key};
        remaining := remaining - {key};
      }
      assert labels.Keys - remaining == labels.Keys;
      AllRefsHaveLabels(calls);
      AllDone(instructions, calls, labels.Keys, done);
      AllLabelsOk(calls, labels.Keys);
      labels := map[];
      return true;
    }
  }
}
