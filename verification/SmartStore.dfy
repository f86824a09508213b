/** The smart-rule commands as methods that rewrite the files step by step. */
module SmartStore {
  import opened Bytes
  import opened PolicyLines
  import opened SmartState

  class Store {
    var files: Files

    constructor (fs: Files)
      ensures files == fs
    {
      files := fs;
    }

    /** restore_smart_state */
    method Restore(copy: Copy, writes: Path -> Write, errexit: bool) returns (ok: bool)
      modifies this
      ensures files == Restored(old(files), copy, writes, errexit, ORDER)
    {
      ok := true;
      for i := 0 to |ORDER|
        invariant Restored(files, copy, writes, errexit, ORDER[i..])
                  == Restored(old(files), copy, writes, errexit, ORDER)
      {
        var p := ORDER[i];
        files := RestoredFile(files, p, copy(p), writes(p));
        if !RestoreOk(copy(p), writes(p)) {
          ok := false;
          if errexit {
            return;
          }
        }
        assert ORDER[i..][1..] == ORDER[i + 1..];
      }
    }

    /** regen_smart, run in a subshell: its own failures do not stop it. */
    method Regenerate(g: Regen) returns (ok: bool)
      modifies this
      ensures End(files, ok) == RegenEnd(g, old(files))
    {
      if Rules !in files || g.build.None? {
        return false;
      }
      var backup: Option<Content> := None;
      if Yaml in files {
        backup := Some(if g.backup.Done? then files[Yaml] else g.backup.left.GetOr([]));
      }
      files := Written(files, Yaml, g.build.value, g.install);
      files := Written(files, Type, ROUTER, g.echo);
      if g.active && !g.restart {
        if backup.Some? {
          files := Written(files, Yaml, backup.value, g.putBack);
        }
        return false;
      }
      return true;
    }

    method Commit(r: RulesRun) returns (ok: bool)
      requires r.source.Some? && r.init.Some? && r.build.Some?
      modifies this
      ensures End(files, ok) == CommitEnd(r, old(files))
    {
      if !r.rules {
        return false;
      }
      files := files[Rules := r.source.value];
      if !r.policy {
        return false;
      }
      files := files[Policy := r.init.value];
      if !r.yaml {
        return false;
      }
      files := files[Yaml := r.build.value];
      if !r.typeTmp || !r.typeMove {
        return false;
      }
      files := files[Type := ROUTER];
      return true;
    }

    method SetRules(r: RulesRun) returns (ok: bool)
      modifies this
      ensures End(files, ok) == SetRulesEnd(r, old(files))
    {
      hide Restored, Snapshot, SnapshotOk, CommitEnd;
      if !r.lock || r.source.None? || r.source.value == [] {
        return false;
      }
      if r.touch {
        files := Touched(files);
      } else if r.errexit {
        return false;
      }
      if r.init.None? || r.build.None? {
        return false;
      }
      var copy := Snapshot(files, r.snaps);
      if r.errexit && !SnapshotOk(files, r.snaps) {
        return false;
      }
      ok := Commit(r);
      if !ok || (r.active && !r.restart) {
        var _ := Restore(copy, r.restores, r.errexit);
        return false;
      }
    }

    method RegenerateOrRestore(r: PolicyRun, copy: Copy, ghost before: Files) returns (ok: bool)
      requires copy == Snapshot(before, r.snaps)
      modifies this
      ensures End(files, ok) == Guarded(r, before, old(files))
    {
      hide Restored, Snapshot, RegenEnd;
      ok := Regenerate(r.regen);
      if !ok {
        var _ := Restore(copy, r.restores, true);
      }
    }

    method SetPolicy(r: PolicyRun, valid: bool, group: string, target: string) returns (ok: bool)
      modifies this
      ensures End(files, ok) == SetPolicyEnd(r, old(files), valid, group, target)
    {
      hide Guarded, Snapshot, SnapshotOk, WithoutText;
      if !r.lock || !valid || !SnapshotOk(files, r.snaps) {
        return false;
      }
      var copy := Snapshot(files, r.snaps);
      if !r.touch {
        return false;
      }
      files := Touched(files);
      var tmp := Remaining(r, files[Policy], group);
      if tmp.None? || !r.move {
        return false;
      }
      files := files[Policy := tmp.value];
      if r.append.Broken? {
        files := Put(files, Policy, r.append.left);
        assert files == Put(Touched(old(files)), Policy, r.append.left);
        return false;
      }
      files := files[Policy := files[Policy] + [Entry(group, target)]];
      assert files == Touched(old(files))[Policy := tmp.value + [Entry(group, target)]];
      ok := RegenerateOrRestore(r, copy, old(files));
    }

    method DelPolicy(r: PolicyRun, valid: bool, group: string) returns (ok: bool)
      modifies this
      ensures End(files, ok) == DelPolicyEnd(r, old(files), valid, group)
    {
      hide Guarded, Snapshot, SnapshotOk, WithoutKey;
      if !r.lock || !valid || Policy !in files || !SnapshotOk(files, r.snaps) {
        return false;
      }
      var copy := Snapshot(files, r.snaps);
      if r.edit.Done? {
        if !r.move {
          return false;
        }
        files := files[Policy := WithoutKey(files[Policy], group)];
      }
      ok := RegenerateOrRestore(r, copy, old(files));
    }

    method RenamePolicy(r: PolicyRun, valid: bool, old_: string, new_: string) returns (ok: bool)
      modifies this
      ensures End(files, ok) == RenamePolicyEnd(r, old(files), valid, old_, new_)
    {
      hide Guarded, Snapshot, SnapshotOk, RenameEntries, RenameRules;
      if !r.lock || !valid || !SnapshotOk(files, r.snaps) {
        return false;
      }
      var copy := Snapshot(files, r.snaps);
      if Policy in files && r.edit.Done? {
        if !r.move {
          return false;
        }
        files := files[Policy := RenameEntries(files[Policy], old_, new_)];
      }
      if Rules in files && r.ruleEdit.Done? {
        if !r.ruleMove {
          return false;
        }
        files := files[Rules := RenameRules(files[Rules], old_, new_)];
      }
      ok := RegenerateOrRestore(r, copy, old(files));
    }
  }
}
