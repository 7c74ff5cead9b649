/** When a message succeeds, requirement by requirement instead of message by
    message. */
module FidNeeds {
  import opened Words
  import opened PathNodes
  import opened FidState
  import opened FidSteps
  import opened FidWalk
  import opened FidLemmas
  import opened FidMessages

  /** The FIDs that a message uses. */
  function Uses(m: Request): set<Fid> {
    match m
    case Attach(_, _, _, _) => {}
    case Rename(fid, dir, _) => {fid, dir}
    case RenameAt(fid, _, dir, _) => {fid, dir}
    case Hangup(_) => {}
    case _ => {m.fid}
  }

  /** The names that it gives. */
  function Gives(m: Request): seq<string> {
    match m
    case Attach(_, names, _, _) => names
    case Walk(_, _, names, _) => names
    case Create(_, name, _) => [name]
    case Unlink(_, name, _) => [name]
    case Rename(_, _, name) => [name]
    case RenameAt(_, name, _, newName) => [name, newName]
    case _ => []
  }

  /** Those of its FIDs that have to be at directories. */
  function InDirectories(m: Request): set<Fid> {
    match m
    case Walk(fid, _, names, _) => if names == [] then {} else {fid}
    case Create(fid, _, _) => {fid}
    case Unlink(fid, _, _) => {fid}
    case Rename(_, dir, _) => {dir}
    case RenameAt(fid, _, dir, _) => {fid, dir}
    case _ => {}
  }

  /** Those whose files may be deleted: their FID is only dropped or cloned. */
  predicate AllowsDeleted(m: Request) { m.Clunk? || (m.Walk? && m.names == []) }

  /** Those whose files may not be open. */
  function NotOpened(m: Request): set<Fid> {
    match m
    case Walk(fid, _, _, _) => {fid}
    case Open(fid, _, _, _) => {fid}
    case Create(fid, _, _) => {fid}
    case Unlink(fid, _, _) => {fid}
    case RenameAt(fid, _, _, _) => {fid}
    case _ => {}
  }

  /** Those whose files are taken from their place, and so may not be roots. */
  function Displaces(m: Request): set<Fid> { if m.Remove? || m.Rename? then {m.fid} else {} }

  /** The backend does its part. A rename to the same place needs nothing of it. */
  predicate BackendAgrees(m: Request, renames: Renames, s: State)
    requires forall f :: f in Uses(m) ==> f in s.fids
  {
    match m
    case Attach(_, names, attached, answers) =>
      attached.Some? && (names != [] ==> attached == Some(Directory)) && Finds(names, answers)
    case Walk(_, _, names, answers) => if names == [] then answers(0).Some? else Finds(names, answers)
    case Open(_, _, _, ok) => ok
    case Create(_, _, ok) => ok
    case Remove(_, ok) => ok
    case Unlink(_, _, ok) => ok
    case Rename(fid, dir, name) => renames(s, m) || SamePlace(s, s.fids[fid], s.fids[dir], name)
    case RenameAt(fid, name, dir, newName) => renames(s, m) || SameEntry(s, fid, name, dir, newName)
    case _ => true
  }

  /** It finds a file for every name, and a directory for all but the last. */
  predicate Finds(names: seq<string>, answers: nat -> Option<Mode>) {
    forall i :: 0 <= i < |names| ==> answers(i).Some? && (i + 1 < |names| ==> answers(i).value.Directory?)
  }

  /** The file may be opened in the way that is asked for. */
  predicate Opens(m: Request, mode: Mode) {
    m.Open? ==> mode.Openable? || (mode.Directory? && m.readOnly && !m.truncate)
  }

  predicate MeetsNeeds(m: Request, s: State, f: Fid)
    requires f in s.fids && s.fids[f] < |s.refs|
  {
    var ref := s.refs[s.fids[f]];
    && (f in InDirectories(m) ==> ref.mode.Directory?)
    && (!AllowsDeleted(m) ==> !ref.deleted)
    && (f in NotOpened(m) ==> !ref.open)
    && (f in Displaces(m) ==> ref.parent.Some?)
    && Opens(m, ref.mode)
  }

  /** A message succeeds exactly if its names are accepted ones, its FIDs are there, each
      of them meets what it needs of it, and the backend agrees. */
  lemma SucceedsExactly(m: Request, renames: Renames, s: State, rank: seq<nat>, depth: seq<nat>)
    requires Good(s, NO_HANDS, rank, depth)
    ensures Succeeds(m, renames, s) <==>
            && (forall i :: 0 <= i < |Gives(m)| ==> SafeName(Gives(m)[i]))
            && (forall f :: f in Uses(m) ==> f in s.fids && s.fids[f] < |s.refs| && MeetsNeeds(m, s, f))
            && BackendAgrees(m, renames, s)
  {
    hide Inv, Tidy, Ranked, SafeName;
    FidsInRange(s, rank, depth);
    forall f | f in s.fids ensures Live(s, s.fids[f]) { GoodFidLives(s, NO_HANDS, rank, depth, f); }
    match m
    case Attach(_, names, attached, answers) =>
      assert Gives(m) == names;
      FindsIs(names, answers);
    case Walk(fid, _, names, answers) =>
      assert fid in Uses(m) && Gives(m) == names;
      FindsIs(names, answers);
    case Rename(fid, dir, name) =>
      assert fid in Uses(m) && dir in Uses(m) && Gives(m)[0] == name;
    case RenameAt(fid, name, dir, newName) =>
      assert fid in Uses(m) && dir in Uses(m) && Gives(m)[0] == name && Gives(m)[1] == newName;
    case Create(fid, name, _) => assert fid in Uses(m) && Gives(m)[0] == name;
    case Unlink(fid, name, _) => assert fid in Uses(m) && Gives(m)[0] == name;
    case _ =>
  }

  lemma FindsIs(names: seq<string>, answers: nat -> Option<Mode>)
    ensures Finds(names, answers) <==>
            && (forall i :: 0 <= i < |names| ==> answers(i).Some?)
            && forall i :: 0 <= i < |names| - 1 ==> answers(i) == Some(Directory)
  {
  }
}
