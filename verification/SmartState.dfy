/** Changes of the smart-rule state: four files, every step of which may fail, a snapshot and its restoration. */
module SmartState {
  import opened Bytes
  import opened PolicyLines

  datatype Path = Rules | Policy | Yaml | Type

  type Files = map<Path, Content>

  /** A write that is not atomic may leave anything behind when it fails. */
  datatype Write = Done | Broken(left: Option<Content>)

  /** What a snapshot holds of one file: nothing, or a `.path` marker and perhaps a copy. */
  datatype Saved = Nothing | Marked(copy: Option<Content>)

  type Copy = Path -> Saved

  function Put(fs: Files, p: Path, c: Option<Content>): Files {
    if c.Some? then fs[p := c.value] else fs - {p}
  }

  function Get(fs: Files, p: Path): Option<Content> {
    if p in fs then Some(fs[p]) else None
  }

  function Written(fs: Files, p: Path, c: Content, w: Write): Files {
    Put(fs, p, if w.Done? then Some(c) else w.left)
  }

  // ----- snapshot_smart_state and restore_smart_state ------------------------------

  /** The steps on one file: cp -a, then the marker. */
  datatype Snap = Snap(cp: Write, mark: bool)

  predicate SnapOk(fs: Files, p: Path, s: Snap) {
    p in fs ==> s.cp.Done? && s.mark
  }

  function SavedFile(fs: Files, p: Path, s: Snap): Saved {
    if p !in fs || !s.mark then Nothing
    else Marked(if s.cp.Done? then Some(fs[p]) else s.cp.left)
  }

  function Snapshot(fs: Files, steps: Path -> Snap): Copy {
    p => SavedFile(fs, p, steps(p))
  }

  predicate SnapshotOk(fs: Files, steps: Path -> Snap) {
    forall p: Path :: SnapOk(fs, p, steps(p))
  }

  predicate RestoreOk(saved: Saved, w: Write) {
    w.Done? && !(saved.Marked? && saved.copy.None?)
  }

  function RestoredFile(fs: Files, p: Path, saved: Saved, w: Write): Files {
    match saved
    case Nothing => if w.Done? then fs - {p} else fs
    case Marked(None) => fs
    case Marked(Some(c)) => Written(fs, p, c, w)
  }

  /** With errexit in force the first failing write is the last. */
  function Restored(fs: Files, copy: Copy, writes: Path -> Write, errexit: bool, order: seq<Path>): Files
    decreases |order|
  {
    if order == [] then fs
    else
      var p := order[0];
      var fs1 := RestoredFile(fs, p, copy(p), writes(p));
      if errexit && !RestoreOk(copy(p), writes(p)) then fs1
      else Restored(fs1, copy, writes, errexit, order[1..])
  }

  const ORDER: seq<Path> := [Rules, Policy, Yaml, Type]

  predicate AllDone(writes: Path -> Write) {
    forall p: Path :: writes(p).Done?
  }

  lemma {:induction false} RestoredGet(fs: Files, before: Files, steps: Path -> Snap, writes: Path -> Write,
                                       errexit: bool, order: seq<Path>, p: Path)
    requires SnapshotOk(before, steps) && AllDone(writes)
    ensures var fs' := Restored(fs, Snapshot(before, steps), writes, errexit, order);
            Get(fs', p) == if p in order then Get(before, p) else Get(fs, p)
    decreases |order|
  {
    var copy := Snapshot(before, steps);
    if order != [] {
      var q := order[0];
      assert SnapOk(before, q, steps(q)) && writes(q).Done?;
      var fs1 := RestoredFile(fs, q, copy(q), writes(q));
      assert Get(fs1, q) == Get(before, q) && (p != q ==> Get(fs1, p) == Get(fs, p));
      RestoredGet(fs1, before, steps, writes, errexit, order[1..], p);
    }
  }

  lemma EveryPath(p: Path)
    ensures p in ORDER
  {
    assert ORDER[0] == Rules && ORDER[1] == Policy && ORDER[2] == Yaml && ORDER[3] == Type;
  }

  /** Restoring a good snapshot undoes whatever was done to the files in between. */
  lemma RestoreUndoes(fs: Files, before: Files, steps: Path -> Snap, writes: Path -> Write, errexit: bool)
    requires SnapshotOk(before, steps) && AllDone(writes)
    ensures Restored(fs, Snapshot(before, steps), writes, errexit, ORDER) == before
  {
    var fs' := Restored(fs, Snapshot(before, steps), writes, errexit, ORDER);
    hide Restored, Snapshot;
    forall p: Path
      ensures Get(fs', p) == Get(before, p)
    {
      RestoredGet(fs, before, steps, writes, errexit, ORDER, p);
      EveryPath(p);
    }
    SameFiles(fs', before);
  }

  /** What becomes of one file when its step of the restoration is taken. */
  function PutBackAs(now: Option<Content>, saved: Saved, w: Write): Option<Content> {
    match saved
    case Nothing => if w.Done? then None else now
    case Marked(None) => now
    case Marked(Some(c)) => if w.Done? then Some(c) else w.left
  }

  /** With errexit in force, a write that fails, or a copy that is missing, ends the restoration. */
  predicate StopsRestoring(saved: Saved, w: Write) {
    w.Broken? || saved == Marked(None)
  }

  /** Every file is put back, in the order rules, map, config, type, up to the first failure if errexit is in force. */
  ghost predicate PutBackInOrder(fs: Files, fs': Files, copy: Copy, writes: Path -> Write, errexit: bool) {
    forall i :: 0 <= i < |ORDER| ==>
      var p := ORDER[i];
      Get(fs', p) ==
      if errexit && exists j :: 0 <= j < i && StopsRestoring(copy(ORDER[j]), writes(ORDER[j])) then Get(fs, p)
      else PutBackAs(Get(fs, p), copy(p), writes(p))
  }

  lemma OneFile(fs: Files, p: Path, saved: Saved, w: Write)
    ensures Get(RestoredFile(fs, p, saved, w), p) == PutBackAs(Get(fs, p), saved, w)
    ensures forall q :: q != p ==> Get(RestoredFile(fs, p, saved, w), q) == Get(fs, q)
    ensures RestoreOk(saved, w) <==> !StopsRestoring(saved, w)
  {
  }

  lemma {:induction false} RestoredFrom(fs: Files, copy: Copy, writes: Path -> Write, errexit: bool, k: nat, i: nat)
    requires k <= |ORDER| && i < |ORDER|
    ensures var fs', p := Restored(fs, copy, writes, errexit, ORDER[k..]), ORDER[i];
            Get(fs', p) ==
            if i < k || (errexit && exists j :: k <= j < i && StopsRestoring(copy(ORDER[j]), writes(ORDER[j])))
            then Get(fs, p) else PutBackAs(Get(fs, p), copy(p), writes(p))
    decreases |ORDER| - k
  {
    hide RestoredFile, RestoreOk, PutBackAs, StopsRestoring;
    assert forall a, b :: 0 <= a < b < |ORDER| ==> ORDER[a] != ORDER[b];
    if k < |ORDER| {
      var q := ORDER[k];
      assert ORDER[k..][1..] == ORDER[k + 1..];
      OneFile(fs, q, copy(q), writes(q));
      RestoredFrom(RestoredFile(fs, q, copy(q), writes(q)), copy, writes, errexit, k + 1, i);
    }
  }

  /** The restoration, whatever its writes do. */
  lemma RestoresInOrder(fs: Files, copy: Copy, writes: Path -> Write, errexit: bool)
    ensures PutBackInOrder(fs, Restored(fs, copy, writes, errexit, ORDER), copy, writes, errexit)
  {
    assert ORDER[0..] == ORDER;
    forall i | 0 <= i < |ORDER|
      ensures var p := ORDER[i];
              Get(Restored(fs, copy, writes, errexit, ORDER), p) ==
              if errexit && exists j :: 0 <= j < i && StopsRestoring(copy(ORDER[j]), writes(ORDER[j])) then Get(fs, p)
              else PutBackAs(Get(fs, p), copy(p), writes(p))
    {
      RestoredFrom(fs, copy, writes, errexit, 0, i);
    }
  }

  // ----- regen_smart and set_rules --------------------------------------------------

  /** The state a command leaves, and whether it succeeded. */
  datatype End = End(files: Files, ok: bool)

  const ROUTER: Content := ["router"]

  /** The steps of one regen_smart: build is the checked candidate, active whether smart is the current exit. */
  datatype Regen = Regen(build: Option<Content>, backup: Write, install: Write, echo: Write, active: bool,
                         restart: bool, putBack: Write)

  function RegenEnd(g: Regen, fs: Files): End {
    if Rules !in fs || g.build.None? then End(fs, false)
    else
      var fs1 := Written(Written(fs, Yaml, g.build.value, g.install), Type, ROUTER, g.echo);
      if !g.active || g.restart then End(fs1, true)
      else if Yaml !in fs then End(fs1, false)
      else End(Written(fs1, Yaml, if g.backup.Done? then fs[Yaml] else g.backup.left.GetOr([]), g.putBack), false)
  }

  /** The steps of one set_rules. errexit is off when import_rules is the caller. */
  datatype RulesRun = RulesRun(
    errexit: bool, lock: bool, source: Option<Content>, touch: bool, init: Option<Content>, build: Option<Content>,
    snaps: Path -> Snap, rules: bool, policy: bool, yaml: bool, typeTmp: bool, typeMove: bool, active: bool,
    restart: bool, restores: Path -> Write)

  /** init_policy_map touches the live map before anything is saved. */
  function Touched(fs: Files): Files {
    if Policy in fs then fs else fs[Policy := []]
  }

  function CommitEnd(r: RulesRun, fs: Files): End
    requires r.source.Some? && r.init.Some? && r.build.Some?
  {
    if !r.rules then End(fs, false)
    else if !r.policy then End(fs[Rules := r.source.value], false)
    else
      var fs2 := fs[Rules := r.source.value][Policy := r.init.value];
      if !r.yaml then End(fs2, false)
      else
        var fs3 := fs2[Yaml := r.build.value];
        if !r.typeTmp || !r.typeMove then End(fs3, false) else End(fs3[Type := ROUTER], true)
  }

  function SetRulesEnd(r: RulesRun, fs: Files): End {
    if !r.lock || r.source.None? || r.source.value == [] then End(fs, false)
    else if !r.touch && r.errexit then End(fs, false)
    else
      var fs1 := if r.touch then Touched(fs) else fs;
      if r.init.None? || r.build.None? || (r.errexit && !SnapshotOk(fs1, r.snaps)) then End(fs1, false)
      else
        var committed := CommitEnd(r, fs1);
        if committed.ok && (!r.active || r.restart) then committed
        else End(Restored(committed.files, Snapshot(fs1, r.snaps), r.restores, r.errexit, ORDER), false)
  }

  /** set_rules succeeds iff it gets the lock and rules that are not empty, the policy map and the config can be
      built, all five steps of the commit work, the router restarts if it is the exit in use, and, with errexit in
      force, touch and snapshot work. */
  lemma SetRulesOkIff(r: RulesRun, fs: Files)
    ensures SetRulesEnd(r, fs).ok <==>
            && r.lock && r.source.Some? && r.source.value != [] && r.init.Some? && r.build.Some?
            && (r.errexit ==> r.touch && SnapshotOk(Touched(fs), r.snaps))
            && r.rules && r.policy && r.yaml && r.typeTmp && r.typeMove
            && (r.active ==> r.restart)
  {
    hide Restored, SnapshotOk, Snapshot;
  }

  /** A set_rules that fails after its snapshot puts back what it saved; errexit is in force there unless import_rules
      is the caller. */
  lemma SetRulesPutsBack(r: RulesRun, fs: Files)
    requires r.lock && r.source.Some? && r.source.value != [] && r.init.Some? && r.build.Some?
    requires !SetRulesEnd(r, fs).ok && (r.errexit ==> r.touch && SnapshotOk(Touched(fs), r.snaps))
    ensures var before := if r.touch then Touched(fs) else fs;
            PutBackInOrder(CommitEnd(r, before).files, SetRulesEnd(r, fs).files, Snapshot(before, r.snaps), r.restores,
                           r.errexit)
  {
    var before := if r.touch then Touched(fs) else fs;
    RestoresInOrder(CommitEnd(r, before).files, Snapshot(before, r.snaps), r.restores, r.errexit);
    hide Restored, SnapshotOk, Snapshot, CommitEnd, PutBackInOrder;
  }

  /** What a commit has written when it stops, file by file: the rules, then the map, then the config, then the type. */
  lemma CommitWrites(r: RulesRun, fs: Files)
    requires r.source.Some? && r.init.Some? && r.build.Some?
    ensures var e := CommitEnd(r, fs);
            && Get(e.files, Rules) == (if r.rules then r.source else Get(fs, Rules))
            && Get(e.files, Policy) == (if r.rules && r.policy then r.init else Get(fs, Policy))
            && Get(e.files, Yaml) == (if r.rules && r.policy && r.yaml then r.build else Get(fs, Yaml))
            && Get(e.files, Type) == (if e.ok then Some(["router"]) else Get(fs, Type))
            && (e.ok <==> r.rules && r.policy && r.yaml && r.typeTmp && r.typeMove)
  {
  }

  /** regen_smart succeeds iff there are rules, the config can be built, and the router restarts if it is the exit in
      use. */
  lemma RegenOkIff(g: Regen, fs: Files)
    ensures RegenEnd(g, fs).ok <==> Rules in fs && g.build.Some? && (g.active ==> g.restart)
  {
  }

  /** A config that does not restart makes way for the one before, if that could be saved and written back. */
  lemma RegenPutsBack(g: Regen, fs: Files)
    requires Yaml in fs && g.backup.Done? && g.putBack.Done? && !RegenEnd(g, fs).ok
    ensures Get(RegenEnd(g, fs).files, Yaml) == Some(fs[Yaml])
    ensures forall p :: p == Rules || p == Policy ==> Get(RegenEnd(g, fs).files, p) == Get(fs, p)
  {
  }

  /** All four files new, or all four as before. (The policy map may newly exist, empty: the touch comes before the
      snapshot.) This needs a complete snapshot, which errexit enforces, and a restoration whose writes succeed. */
  lemma SetRulesAllOrNothing(r: RulesRun, fs: Files)
    requires AllDone(r.restores) && (r.errexit || SnapshotOk(if r.touch then Touched(fs) else fs, r.snaps))
    ensures var e := SetRulesEnd(r, fs);
            if e.ok then
              r.source.Some? && r.init.Some? && r.build.Some?
              && e.files == map[Rules := r.source.value, Policy := r.init.value, Yaml := r.build.value, Type := ROUTER]
            else e.files == fs || (Policy !in fs && e.files == fs[Policy := []])
  {
    var fs1 := if r.touch then Touched(fs) else fs;
    if SnapshotOk(fs1, r.snaps) && r.source.Some? && r.init.Some? && r.build.Some? {
      RestoreUndoes(CommitEnd(r, fs1).files, fs1, r.snaps, r.restores, r.errexit);
    }
    hide Restored, Snapshot, SnapshotOk;
    var e := SetRulesEnd(r, fs);
    if e.ok {
      OnlyFour(e.files);
    }
  }

  lemma SameFiles(a: Files, b: Files)
    requires forall p: Path :: Get(a, p) == Get(b, p)
    ensures a == b
  {
    assert forall p: Path :: p in a <==> Get(a, p).Some?;
    assert forall p: Path :: p in b <==> Get(b, p).Some?;
  }

  lemma OnlyFour(fs: Files)
    ensures Rules in fs && Policy in fs && Yaml in fs && Type in fs ==>
            fs == map[Rules := fs[Rules], Policy := fs[Policy], Yaml := fs[Yaml], Type := fs[Type]]
  {
    if Rules in fs && Policy in fs && Yaml in fs && Type in fs {
      var four := map[Rules := fs[Rules], Policy := fs[Policy], Yaml := fs[Yaml], Type := fs[Type]];
      forall p: Path
        ensures Get(fs, p) == Get(four, p)
      {
        match p
        case Rules =>
        case Policy =>
        case Yaml =>
        case Type =>
      }
      SameFiles(fs, four);
    }
  }

  /** What the rollback leaves of a file, without errexit: the copy if it is marked, nothing if it is not, and what the
      commit left if there is a marker but no copy. */
  function GivenBack(committed: Files, before: Files, p: Path, s: Snap): Option<Content> {
    if p !in before || !s.mark then None
    else if s.cp.Done? then Some(before[p])
    else if s.cp.left.Some? then s.cp.left
    else Get(committed, p)
  }

  lemma {:induction false} RestoredGives(fs: Files, before: Files, steps: Path -> Snap, writes: Path -> Write,
                                         order: seq<Path>, p: Path)
    requires AllDone(writes) && forall i, j :: 0 <= i < j < |order| ==> order[i] != order[j]
    ensures var fs' := Restored(fs, Snapshot(before, steps), writes, false, order);
            Get(fs', p) == if p in order then GivenBack(fs, before, p, steps(p)) else Get(fs, p)
    decreases |order|
  {
    var copy := Snapshot(before, steps);
    if order != [] {
      var q := order[0];
      assert writes(q).Done?;
      var fs1 := RestoredFile(fs, q, copy(q), writes(q));
      assert Get(fs1, q) == GivenBack(fs, before, q, steps(q)) && (p != q ==> Get(fs1, p) == Get(fs, p));
      RestoredGives(fs1, before, steps, writes, order[1..], p);
    }
  }

  /** On the outcomes of cp and of the marker: if the file existed, it has its marker, and a copy that is all of it, or
      no copy and no change by the commit. */
  predicate KeepsFile(committed: Files, before: Files, p: Path, s: Snap) {
    p in before ==>
      s.mark
      && match s.cp
         case Done => true
         case Broken(Some(c)) => c == before[p]
         case Broken(None) => Get(committed, p) == Some(before[p])
  }

  /** set_rules gets as far as its snapshot. */
  predicate Snaps(r: RulesRun) {
    r.lock && r.source.Some? && r.source.value != [] && r.init.Some? && r.build.Some? && (r.errexit ==> r.touch)
  }

  /** Under import_rules a failed set_rules leaves the files as before iff each was saved well enough in this sense. */
  lemma ImportUndoneIff(r: RulesRun, fs: Files)
    requires AllDone(r.restores) && !r.errexit && Snaps(r) && !SetRulesEnd(r, fs).ok
    ensures var before := if r.touch then Touched(fs) else fs;
            SetRulesEnd(r, fs).files == before <==>
            forall p: Path :: KeepsFile(CommitEnd(r, before).files, before, p, r.snaps(p))
  {
    var before := if r.touch then Touched(fs) else fs;
    var committed := CommitEnd(r, before).files;
    var after := SetRulesEnd(r, fs).files;
    assert after == Restored(committed, Snapshot(before, r.snaps), r.restores, false, ORDER);
    hide Restored, Snapshot, CommitEnd, SetRulesEnd;
    forall p: Path
      ensures Get(after, p) == GivenBack(committed, before, p, r.snaps(p))
      ensures KeepsFile(committed, before, p, r.snaps(p)) <==> Get(after, p) == Get(before, p)
    {
      EveryPath(p);
      RestoredGives(committed, before, r.snaps, r.restores, ORDER, p);
      KeepsIff(committed, before, p, r.snaps(p));
    }
    if forall p: Path :: KeepsFile(committed, before, p, r.snaps(p)) {
      SameFiles(after, before);
    }
  }

  lemma KeepsIff(committed: Files, before: Files, p: Path, s: Snap)
    ensures KeepsFile(committed, before, p, s) <==> GivenBack(committed, before, p, s) == Get(before, p)
  {
  }

  /** For one: a marker that could not be written, and the rollback deletes the live rules. */
  lemma ImportMayLoseRules(fs: Files) returns (r: RulesRun)
    requires Rules in fs
    ensures AllDone(r.restores) && !r.errexit
    ensures !SetRulesEnd(r, fs).ok && Rules !in SetRulesEnd(r, fs).files
  {
    r := RulesRun(false, true, Some(["FINAL,direct"]), true, Some([]), Some([]), _ => Snap(Done, false), false, true,
                  true, true, true, true, true, _ => Done);
    var before := Touched(fs);
    EveryPath(Rules);
    forall p: Path
      ensures r.restores(p).Done?
    {
    }
    RestoredGives(before, before, r.snaps, r.restores, ORDER, Rules);
    hide Restored, Snapshot;
    assert !r.snaps(Rules).mark;
  }

  // ----- set_policy, del_policy, rename_policy ------------------------------------------

  /** The steps of a policy command. edit and ruleEdit write the temporary files, move and ruleMove put them in
      place. */
  datatype PolicyRun = PolicyRun(
    lock: bool, snaps: Path -> Snap, touch: bool, edit: Write, move: bool, append: Write, ruleEdit: Write,
    ruleMove: bool, regen: Regen, restores: Path -> Write)

  /** The common tail: rebuild, or put the snapshot back. */
  function Guarded(r: PolicyRun, before: Files, edited: Files): End {
    var e := RegenEnd(r.regen, edited);
    if e.ok then e else End(Restored(e.files, Snapshot(before, r.snaps), r.restores, true, ORDER), false)
  }

  /** The temporary file of set_policy; a failing grep goes unnoticed. */
  function Remaining(r: PolicyRun, lines: Content, group: string): Option<Content> {
    if r.edit.Done? then Some(WithoutText(lines, group)) else r.edit.left
  }

  /** valid: both arguments are there, and the target exists. */
  function SetPolicyEnd(r: PolicyRun, fs: Files, valid: bool, group: string, target: string): End {
    if !r.lock || !valid || !SnapshotOk(fs, r.snaps) || !r.touch then End(fs, false)
    else
      var fs1 := Touched(fs);
      var rest := Remaining(r, fs1[Policy], group);
      if rest.None? || !r.move then End(fs1, false)
      else if r.append.Done? then Guarded(r, fs, fs1[Policy := rest.value + [Entry(group, target)]])
      else End(Put(fs1, Policy, r.append.left), false)
  }

  function DelPolicyEnd(r: PolicyRun, fs: Files, valid: bool, group: string): End {
    if !r.lock || !valid || Policy !in fs || !SnapshotOk(fs, r.snaps) then End(fs, false)
    else if r.edit.Broken? then Guarded(r, fs, fs)
    else if !r.move then End(fs, false)
    else Guarded(r, fs, fs[Policy := WithoutKey(fs[Policy], group)])
  }

  /** One `if [[ -f ]]; then awk > tmp && mv` of rename_policy: a failing awk skips the move, a failing move exits. */
  function Replace(fs: Files, p: Path, edit: Write, move: bool, lines: Content): End {
    if p !in fs || edit.Broken? then End(fs, true)
    else if !move then End(fs, false)
    else End(fs[p := lines], true)
  }

  function RenamePolicyEnd(r: PolicyRun, fs: Files, valid: bool, old_: string, new_: string): End {
    if !r.lock || !valid || !SnapshotOk(fs, r.snaps) then End(fs, false)
    else
      var e1 := Replace(fs, Policy, r.edit, r.move, RenameEntries(Get(fs, Policy).GetOr([]), old_, new_));
      if !e1.ok then e1
      else
        var e2 := Replace(e1.files, Rules, r.ruleEdit, r.ruleMove, RenameRules(Get(fs, Rules).GetOr([]), old_, new_));
        if !e2.ok then e2 else Guarded(r, fs, e2.files)
  }

  /** Whenever regen_smart fails, all four files are as before the command. */
  lemma RegenFailureUndone(r: PolicyRun, before: Files, edited: Files)
    requires SnapshotOk(before, r.snaps) && AllDone(r.restores)
    ensures var e := Guarded(r, before, edited);
            e.ok == RegenEnd(r.regen, edited).ok && (!e.ok ==> e.files == before)
  {
    RestoreUndoes(RegenEnd(r.regen, edited).files, before, r.snaps, r.restores, true);
  }

  /** A policy command whose regen_smart fails puts back what it saved, with errexit in force. */
  lemma GuardedPutsBack(r: PolicyRun, before: Files, edited: Files)
    requires !RegenEnd(r.regen, edited).ok
    ensures PutBackInOrder(RegenEnd(r.regen, edited).files, Guarded(r, before, edited).files,
                           Snapshot(before, r.snaps), r.restores, true)
  {
    RestoresInOrder(RegenEnd(r.regen, edited).files, Snapshot(before, r.snaps), r.restores, true);
    hide Restored, Snapshot, RegenEnd, PutBackInOrder;
  }

  /** set_policy exits without rolling back when it cannot put the new entry in place. */
  predicate SetStuck(r: PolicyRun, fs: Files, group: string) {
    var rest := Remaining(r, Touched(fs)[Policy], group);
    && SnapshotOk(fs, r.snaps) && r.touch
    && if rest.None? || !r.move then Policy !in fs else r.append.Broken? && r.append.left != Get(fs, Policy)
  }

  /** A set_policy that fails leaves the four files alone iff it did not get stuck between two writes. */
  lemma SetPolicyUndoneIff(r: PolicyRun, fs: Files, group: string, target: string)
    requires r.lock && AllDone(r.restores) && !SetPolicyEnd(r, fs, true, group, target).ok
    ensures SetPolicyEnd(r, fs, true, group, target).files == fs <==> !SetStuck(r, fs, group)
  {
    hide WithoutText, SnapshotOk, Restored, Snapshot, RegenEnd;
    var fs1 := Touched(fs);
    var rest := Remaining(r, fs1[Policy], group);
    if SnapshotOk(fs, r.snaps) && rest.Some? {
      RegenFailureUndone(r, fs, fs1[Policy := rest.value + [Entry(group, target)]]);
    }
    if r.append.Broken? {
      assert Get(Put(fs1, Policy, r.append.left), Policy) == r.append.left;
      assert r.append.left == Get(fs, Policy) ==> Put(fs1, Policy, r.append.left) == fs;
    }
  }

  /** A del_policy that fails always leaves the four files alone. */
  lemma DelPolicyUndone(r: PolicyRun, fs: Files, valid: bool, group: string)
    requires AllDone(r.restores) && !DelPolicyEnd(r, fs, valid, group).ok
    ensures DelPolicyEnd(r, fs, valid, group).files == fs
  {
    hide WithoutKey, SnapshotOk, Restored, Snapshot, RegenEnd;
    if Policy in fs && SnapshotOk(fs, r.snaps) {
      RegenFailureUndone(r, fs, fs);
      RegenFailureUndone(r, fs, fs[Policy := WithoutKey(fs[Policy], group)]);
    }
  }

  /** rename_policy exits without rolling back when the map is renamed and the rules file cannot be. */
  predicate RenameStuck(r: PolicyRun, fs: Files, old_: string, new_: string) {
    && SnapshotOk(fs, r.snaps)
    && Policy in fs && r.edit.Done? && r.move && RenameEntries(fs[Policy], old_, new_) != fs[Policy]
    && Rules in fs && r.ruleEdit.Done? && !r.ruleMove
  }

  lemma RenamePolicyUndoneIff(r: PolicyRun, fs: Files, old_: string, new_: string)
    requires r.lock && AllDone(r.restores) && !RenamePolicyEnd(r, fs, true, old_, new_).ok
    ensures RenamePolicyEnd(r, fs, true, old_, new_).files == fs <==> !RenameStuck(r, fs, old_, new_)
  {
    hide RenameEntries, RenameRules, SnapshotOk, Restored, Snapshot, RegenEnd;
    if SnapshotOk(fs, r.snaps) {
      var e1 := Replace(fs, Policy, r.edit, r.move, RenameEntries(Get(fs, Policy).GetOr([]), old_, new_));
      var e2 := Replace(e1.files, Rules, r.ruleEdit, r.ruleMove, RenameRules(Get(fs, Rules).GetOr([]), old_, new_));
      RegenFailureUndone(r, fs, e2.files);
      if RenameStuck(r, fs, old_, new_) {
        assert e1.files[Policy] != fs[Policy];
      }
    }
  }

  /** set_policy succeeds iff it gets the lock, its arguments are valid, snapshot and touch work, the new map is
      written, moved and appended to, there are rules, and regen_smart succeeds. */
  lemma SetPolicyOkIff(r: PolicyRun, fs: Files, valid: bool, group: string, target: string)
    ensures SetPolicyEnd(r, fs, valid, group, target).ok <==>
            && r.lock && valid && SnapshotOk(fs, r.snaps) && r.touch
            && (r.edit.Done? || r.edit.left.Some?) && r.move && r.append.Done?
            && Rules in fs && r.regen.build.Some? && (r.regen.active ==> r.regen.restart)
  {
    hide Restored, Snapshot, SnapshotOk, WithoutText;
  }

  /** del_policy succeeds iff it gets the lock, its argument is valid, there is a map, the snapshot works, the edited
      map, if awk made one, can be moved, and regen_smart succeeds. */
  lemma DelPolicyOkIff(r: PolicyRun, fs: Files, valid: bool, group: string)
    ensures DelPolicyEnd(r, fs, valid, group).ok <==>
            && r.lock && valid && Policy in fs && SnapshotOk(fs, r.snaps)
            && (r.edit.Done? ==> r.move)
            && Rules in fs && r.regen.build.Some? && (r.regen.active ==> r.regen.restart)
  {
    hide Restored, Snapshot, SnapshotOk, WithoutKey;
  }

  /** rename_policy succeeds iff it gets the lock, its arguments are valid, the snapshot works, what awk made of map and
      rules can be moved, and regen_smart succeeds. */
  lemma RenamePolicyOkIff(r: PolicyRun, fs: Files, valid: bool, old_: string, new_: string)
    ensures RenamePolicyEnd(r, fs, valid, old_, new_).ok <==>
            && r.lock && valid && SnapshotOk(fs, r.snaps)
            && (Policy in fs && r.edit.Done? ==> r.move) && (Rules in fs && r.ruleEdit.Done? ==> r.ruleMove)
            && Rules in fs && r.regen.build.Some? && (r.regen.active ==> r.regen.restart)
  {
    hide Restored, Snapshot, SnapshotOk, RenameEntries, RenameRules;
  }

  // ----- What success means ------------------------------------------------------------------

  /** regen_smart ignores failing writes of the config and the type file: after a success they are current iff both
      writes succeeded, or left the new content all the same. */
  lemma RegenCurrentIff(g: Regen, fs: Files)
    requires RegenEnd(g, fs).ok
    ensures g.build.Some?
    ensures var fs' := RegenEnd(g, fs).files;
            (Get(fs', Yaml) == g.build && Get(fs', Type) == Some(ROUTER)) <==>
            (g.install.Done? || g.install.left == g.build) && (g.echo.Done? || g.echo.left == Some(ROUTER))
  {
  }

  /** A successful set_policy: the map is what the edit left of it with the new entry behind, and the rules are
      untouched. */
  lemma SetPolicyEntry(r: PolicyRun, fs: Files, valid: bool, group: string, target: string)
    requires SetPolicyEnd(r, fs, valid, group, target).ok
    ensures var fs', rest := SetPolicyEnd(r, fs, valid, group, target).files, Remaining(r, Touched(fs)[Policy], group);
            && Get(fs', Rules) == Get(fs, Rules) && rest.Some?
            && Get(fs', Policy) == Some(rest.value + [Entry(group, target)])
  {
    hide WithoutText, Restored, Snapshot, SnapshotOk;
  }

  /** A successful del_policy whose awk did its work. */
  lemma DelPolicyEntry(r: PolicyRun, fs: Files, valid: bool, group: string)
    requires DelPolicyEnd(r, fs, valid, group).ok && r.edit.Done?
    ensures var fs' := DelPolicyEnd(r, fs, valid, group).files;
            Policy in fs && Get(fs', Rules) == Get(fs, Rules) && Get(fs', Policy) == Some(WithoutKey(fs[Policy], group))
  {
    hide WithoutKey, Restored, Snapshot, SnapshotOk;
  }

  /** A successful rename whose two awk runs did their work renames in both files. */
  lemma RenameInBothFiles(r: PolicyRun, fs: Files, valid: bool, old_: string, new_: string)
    requires RenamePolicyEnd(r, fs, valid, old_, new_).ok && r.edit.Done? && r.ruleEdit.Done?
    requires Policy in fs && Rules in fs
    ensures var fs' := RenamePolicyEnd(r, fs, valid, old_, new_).files;
            && Get(fs', Policy) == Some(RenameEntries(fs[Policy], old_, new_))
            && Get(fs', Rules) == Some(RenameRules(fs[Rules], old_, new_))
  {
    hide RenameEntries, RenameRules, Restored, Snapshot, SnapshotOk;
  }
}
