/** The update's transaction: back up, change, and on a failing exit put everything back. */
module ListUpdate {
  import opened Bytes

  type Content = seq<string>

  /** The DNS directory: plain files by name, and the chunk directory. */
  datatype Dns = Dns(files: map<string, Content>, chunks: Option<Content>)

  datatype Write = Done | Broken(left: Option<Content>)

  const LISTED: seq<string> := ["gfwlist.raw", "gfwlist.lua", "chinalist.raw", "chinalist.lua", "dnsdist.conf"]

  function Put(fs: map<string, Content>, f: string, c: Option<Content>): map<string, Content> {
    if c.Some? then fs[f := c.value] else fs - {f}
  }

  function Get(fs: map<string, Content>, f: string): Option<Content> {
    if f in fs then Some(fs[f]) else None
  }

  function After(c: Content, w: Write): Option<Content> {
    if w.Done? then Some(c) else w.left
  }

  /** The copies begin_transaction adds to those made so far, up to the first that fails. */
  function Copies(fs: map<string, Content>, names: seq<string>, cp: string -> Write, made: map<string, Content>)
    : (r: (map<string, Content>, bool))
    decreases |names|
  {
    if names == [] then (made, true)
    else
      var f := names[0];
      if f !in fs then Copies(fs, names[1..], cp, made)
      else if cp(f).Broken? then (Put(made, f, cp(f).left), false)
      else Copies(fs, names[1..], cp, made[f := fs[f]])
  }

  /** What begin_transaction leaves in the backup, and whether the update goes on. Its last command tests for the chunk
      directory, so without one it fails with a complete backup. */
  datatype Begun = Begun(files: map<string, Content>, chunks: Option<Content>, ok: bool)

  function Begin(d: Dns, cp: string -> Write, cpDir: Write): Begun {
    var copies := Copies(d.files, LISTED, cp, map[]);
    if !copies.1 then Begun(copies.0, None, false)
    else if d.chunks.None? then Begun(copies.0, None, false)
    else Begun(copies.0, After(d.chunks.value, cpDir), cpDir.Done?)
  }

  /** cp, or rm when there is no copy. */
  function PutBackOne(fs: map<string, Content>, backup: map<string, Content>, f: string, w: string -> Write)
    : map<string, Content>
  {
    if f in backup then Put(fs, f, After(backup[f], w(f))) else if w(f).Done? then fs - {f} else fs
  }

  /** rollback_transaction on the listed files; a failing write ends it. */
  function PutBack(fs: map<string, Content>, backup: map<string, Content>, names: seq<string>, w: string -> Write)
    : (r: (map<string, Content>, bool))
    decreases |names|
  {
    if names == [] then (fs, true)
    else
      var f := names[0];
      var fs1 := PutBackOne(fs, backup, f, w);
      if w(f).Broken? then (fs1, false) else PutBack(fs1, backup, names[1..], w)
  }

  function Rollback(d: Dns, b: Begun, w: string -> Write, rm: bool, cpDir: Write): Dns {
    var files := PutBack(d.files, b.files, LISTED, w);
    if !files.1 then Dns(files.0, d.chunks)
    else if !rm then Dns(files.0, d.chunks)
    else Dns(files.0, if b.chunks.Some? then After(b.chunks.value, cpDir) else None)
  }

  /** The steps of one update that fails: begin, arbitrary changes, exit. */
  datatype Failure = Failure(cp: string -> Write, cpDir: Write, changed: Dns, w: string -> Write, rm: bool,
                             backDir: Write)

  /** A failing begin leaves nothing else changed; after it the update may have done anything. */
  function FailedUpdate(d: Dns, x: Failure): Dns {
    var b := Begin(d, x.cp, x.cpDir);
    Rollback(if b.ok then x.changed else d, b, x.w, x.rm, x.backDir)
  }

  ghost predicate RestoreWorks(x: Failure) {
    (forall f :: x.w(f).Done?) && x.rm && x.backDir.Done?
  }

  ghost predicate AllCopied(d: Dns, cp: string -> Write, names: seq<string>) {
    forall f <- names :: f in d.files ==> cp(f).Done?
  }

  lemma {:induction false} CopiesComplete(fs: map<string, Content>, names: seq<string>, cp: string -> Write,
                                          made: map<string, Content>, g: string)
    ensures var r := Copies(fs, names, cp, made);
            && (r.1 <==> forall f <- names :: f in fs ==> cp(f).Done?)
            && (r.1 ==> Get(r.0, g) == if g in names && g in fs then Get(fs, g) else Get(made, g))
    decreases |names|
  {
    if names != [] {
      var f := names[0];
      CopiesComplete(fs, names[1..], cp, if f in fs then made[f := fs[f]] else made, g);
      assert forall h :: h in names <==> h == f || h in names[1..];
    }
  }

  lemma {:induction false} PutBackGet(fs: map<string, Content>, backup: map<string, Content>, names: seq<string>,
                                      w: string -> Write, f: string)
    requires forall g :: w(g).Done?
    ensures var r := PutBack(fs, backup, names, w);
            r.1 && Get(r.0, f) == if f in names then Get(backup, f) else Get(fs, f)
    decreases |names|
  {
    if names != [] {
      var g := names[0];
      assert w(g).Done?;
      var fs1 := if g in backup then Put(fs, g, Some(backup[g])) else fs - {g};
      PutBackGet(fs1, backup, names[1..], w, f);
      assert f in names <==> f == g || f in names[1..];
    }
  }

  /** What one name holds after its turn. */
  function PutBackAs(now: Option<Content>, saved: Option<Content>, w: Write): Option<Content> {
    match w
    case Done => saved
    case Broken(left) => if saved.Some? then left else now
  }

  lemma {:induction false} PutBackUpTo(fs: map<string, Content>, backup: map<string, Content>, names: seq<string>,
                                       w: string -> Write, i: nat)
    requires i < |names| && forall j, k :: 0 <= j < k < |names| ==> names[j] != names[k]
    ensures var f := names[i];
            Get(PutBack(fs, backup, names, w).0, f) ==
            if exists j :: 0 <= j < i && w(names[j]).Broken? then Get(fs, f)
            else PutBackAs(Get(fs, f), Get(backup, f), w(f))
    decreases |names|
  {
    var g, rest, fs1 := names[0], names[1..], PutBackOne(fs, backup, names[0], w);
    assert forall k :: 0 <= k < |rest| ==> rest[k] == names[k + 1];
    PutBackFirst(fs, backup, g, w, names[i]);
    hide PutBackOne, PutBackAs, Put, Get, After;
    if w(g).Done? {
      if i > 0 {
        PutBackUpTo(fs1, backup, rest, w, i - 1);
        assert (exists j :: 0 <= j < i && w(names[j]).Broken?) <==> exists j :: 0 <= j < i - 1 && w(rest[j]).Broken?;
      } else {
        PutBackKeeps(fs1, backup, rest, w, g);
      }
    } else if i > 0 {
      assert w(names[0]).Broken?;
    }
  }

  lemma PutBackFirst(fs: map<string, Content>, backup: map<string, Content>, g: string, w: string -> Write, f: string)
    ensures Get(PutBackOne(fs, backup, g, w), f) ==
            if f == g then PutBackAs(Get(fs, f), Get(backup, f), w(f)) else Get(fs, f)
  {
  }

  lemma {:induction false} PutsBackIff(fs: map<string, Content>, backup: map<string, Content>, names: seq<string>,
                                       w: string -> Write)
    ensures PutBack(fs, backup, names, w).1 <==> forall g <- names :: w(g).Done?
    decreases |names|
  {
    if names != [] {
      PutsBackIff(PutBackOne(fs, backup, names[0], w), backup, names[1..], w);
      assert forall h :: h in names <==> h == names[0] || h in names[1..];
    }
  }

  lemma {:induction false} PutBackKeeps(fs: map<string, Content>, backup: map<string, Content>, names: seq<string>,
                                        w: string -> Write, f: string)
    requires f !in names
    ensures Get(PutBack(fs, backup, names, w).0, f) == Get(fs, f)
    decreases |names|
  {
    if names != [] {
      var g := names[0];
      PutBackKeeps(PutBackOne(fs, backup, g, w), backup, names[1..], w, f);
    }
  }

  /** Whatever fails in a rollback: the five files are put back in order up to the first failing write; only behind
      the last is the chunk directory removed and copied back; no other file changes. */
  lemma RollbackInOrder(d: Dns, b: Begun, w: string -> Write, rm: bool, cpDir: Write, i: nat, other: string)
    requires i < 5 && other !in LISTED
    ensures var d', f := Rollback(d, b, w, rm, cpDir), LISTED[i];
            && (Get(d'.files, f) == if exists j :: 0 <= j < i && w(LISTED[j]).Broken? then Get(d.files, f)
                                    else PutBackAs(Get(d.files, f), Get(b.files, f), w(f)))
            && (d'.chunks == if !rm || exists g <- LISTED :: w(g).Broken? then d.chunks
                             else if b.chunks.None? then None
                             else if cpDir.Done? then b.chunks else cpDir.left)
            && Get(d'.files, other) == Get(d.files, other)
  {
    ListedDiffer();
    hide PutBack;
    PutBackUpTo(d.files, b.files, LISTED, w, i);
    PutsBackIff(d.files, b.files, LISTED, w);
    PutBackKeeps(d.files, b.files, LISTED, w, other);
  }

  /** A failing exit after a completed backup restores every listed file and the chunk directory, whatever the update
      had done to them; other files stay as the update left them. */
  lemma CompletedBackupRestores(d: Dns, x: Failure, f: string)
    requires Begin(d, x.cp, x.cpDir).ok && RestoreWorks(x)
    ensures var d' := FailedUpdate(d, x);
            && d'.chunks == d.chunks
            && Get(d'.files, f) == if f in LISTED then Get(d.files, f) else Get(x.changed.files, f)
  {
    hide Copies, PutBack;
    CopiesComplete(d.files, LISTED, x.cp, map[], f);
    PutBackGet(x.changed.files, Begin(d, x.cp, x.cpDir).files, LISTED, x.w, f);
  }

  /** Without a chunk directory every update fails at once, and changes nothing. */
  lemma MissingChunksFail(d: Dns, x: Failure, f: string)
    requires d.chunks.None? && AllCopied(d, x.cp, LISTED) && RestoreWorks(x)
    ensures !Begin(d, x.cp, x.cpDir).ok
    ensures FailedUpdate(d, x).chunks == None && Get(FailedUpdate(d, x).files, f) == Get(d.files, f)
  {
    hide Copies, PutBack;
    CopiesComplete(d.files, LISTED, x.cp, map[], f);
    PutBackGet(d.files, Begin(d, x.cp, x.cpDir).files, LISTED, x.w, f);
  }

  /** The update gets past its backup iff there is a chunk directory and every copy succeeds. */
  lemma BeginsIff(d: Dns, cp: string -> Write, cpDir: Write)
    ensures Begin(d, cp, cpDir).ok <==> d.chunks.Some? && AllCopied(d, cp, LISTED) && cpDir.Done?
  {
    hide Copies;
    CopiesComplete(d.files, LISTED, cp, map[], "");
  }

  /** Where copying stops: the first name whose file is there and whose cp fails. */
  function StopsAt(fs: map<string, Content>, names: seq<string>, cp: string -> Write): (n: nat)
    ensures n <= |names| && (n < |names| ==> names[n] in fs && cp(names[n]).Broken?)
  {
    if names == [] then 0
    else if names[0] in fs && cp(names[0]).Broken? then 0
    else 1 + StopsAt(fs, names[1..], cp)
  }

  /** The backup holds the files in front of that name, and what its cp left of the file itself. */
  lemma {:induction false} CopiesUpTo(fs: map<string, Content>, names: seq<string>, cp: string -> Write,
                                      made: map<string, Content>, i: nat)
    requires i < |names| && forall k :: 0 <= k < |names| ==> names[k] !in made
    requires forall j, k :: 0 <= j < k < |names| ==> names[j] != names[k]
    ensures var r, n := Copies(fs, names, cp, made), StopsAt(fs, names, cp);
            && (r.1 <==> n == |names|)
            && Get(r.0, names[i]) == if i < n then Get(fs, names[i]) else if i == n then cp(names[n]).left else None
    decreases |names|
  {
    var f := names[0];
    var rest := names[1..];
    assert forall k :: 0 <= k < |rest| ==> rest[k] == names[k + 1];
    if !(f in fs && cp(f).Broken?) {
      var made1 := if f in fs then made[f := fs[f]] else made;
      if i > 0 {
        CopiesUpTo(fs, rest, cp, made1, i - 1);
      } else {
        CopiesKeep(fs, rest, cp, made1, f);
        if rest != [] {
          CopiesUpTo(fs, rest, cp, made1, 0);
        }
      }
    }
  }

  lemma {:induction false} CopiesKeep(fs: map<string, Content>, names: seq<string>, cp: string -> Write,
                                      made: map<string, Content>, f: string)
    requires f !in names
    ensures Get(Copies(fs, names, cp, made).0, f) == Get(made, f)
    decreases |names|
  {
    if names != [] {
      var g := names[0];
      CopiesKeep(fs, names[1..], cp, if g in fs then made[g := fs[g]] else made, f);
    }
  }

  lemma ListedDiffer()
    ensures forall j, k :: 0 <= j < k < |LISTED| ==> LISTED[j] != LISTED[k]
  {
    assert |LISTED[0]| == 11 && |LISTED[1]| == 11 && |LISTED[2]| == 13 && |LISTED[3]| == 13 && |LISTED[4]| == 12;
    assert LISTED[0][8] == 'r' && LISTED[1][8] == 'l' && LISTED[2][10] == 'r' && LISTED[3][10] == 'l';
  }

  /** The rollback also runs when the backup itself fails, and takes what was not yet copied for absent. A listed file
      then comes through iff it was absent, or stands before the place where copying stopped, or stands there with
      a torn copy that is all of it. */
  lemma FailedBackupKeepsIff(d: Dns, x: Failure, i: nat)
    requires !Begin(d, x.cp, x.cpDir).ok && RestoreWorks(x) && i < |LISTED|
    ensures var f, n := LISTED[i], StopsAt(d.files, LISTED, x.cp);
            Get(FailedUpdate(d, x).files, f) == Get(d.files, f) <==>
            f !in d.files || i < n || (i == n && x.cp(f).left == Some(d.files[f]))
  {
    ListedDiffer();
    hide Copies, PutBack, StopsAt;
    var f := LISTED[i];
    CopiesUpTo(d.files, LISTED, x.cp, map[], i);
    PutBackGet(d.files, Begin(d, x.cp, x.cpDir).files, LISTED, x.w, f);
  }

  /** And the chunk directory iff there was none, or all files were copied and the torn copy is all of it. */
  lemma FailedBackupKeepsChunksIff(d: Dns, x: Failure)
    requires !Begin(d, x.cp, x.cpDir).ok && RestoreWorks(x)
    ensures FailedUpdate(d, x).chunks == d.chunks <==>
            d.chunks.None?
            || (StopsAt(d.files, LISTED, x.cp) == |LISTED| && x.cpDir.Broken? && x.cpDir.left == d.chunks)
  {
    ListedDiffer();
    hide Copies, PutBack, StopsAt;
    CopiesUpTo(d.files, LISTED, x.cp, map[], 0);
    PutBackGet(d.files, Begin(d, x.cp, x.cpDir).files, LISTED, x.w, "");
  }

  /** If the first copy fails with nothing written, every listed file and the chunk directory are deleted. */
  lemma FirstCopyFailingDeletesAll(d: Dns, x: Failure, f: string)
    requires LISTED[0] in d.files && x.cp(LISTED[0]) == Broken(None) && RestoreWorks(x) && f in LISTED
    ensures f !in FailedUpdate(d, x).files && FailedUpdate(d, x).chunks == None
  {
    hide PutBack;
    assert Begin(d, x.cp, x.cpDir).files == map[];
    PutBackGet(d.files, map[], LISTED, x.w, f);
  }

  // ----- Step by step ---------------------------------------------------------------------

  class Directory {
    var files: map<string, Content>
    var chunks: Option<Content>

    constructor (d: Dns)
      ensures View() == d
    {
      files, chunks := d.files, d.chunks;
    }

    function View(): Dns
      reads this
    {
      Dns(files, chunks)
    }

    method BeginTransaction(cp: string -> Write, cpDir: Write) returns (b: Begun)
      ensures b == Begin(View(), cp, cpDir)
    {
      var made: map<string, Content> := map[];
      assert LISTED[0..] == LISTED;
      for i := 0 to |LISTED|
        invariant Copies(files, LISTED, cp, map[]) == Copies(files, LISTED[i..], cp, made)
      {
        assert LISTED[i..][1..] == LISTED[i + 1..];
        var f := LISTED[i];
        if f in files {
          if cp(f).Broken? {
            return Begun(Put(made, f, cp(f).left), None, false);
          }
          made := made[f := files[f]];
        }
      }
      if chunks.None? {
        return Begun(made, None, false);
      }
      return Begun(made, After(chunks.value, cpDir), cpDir.Done?);
    }

    method RollbackTransaction(b: Begun, w: string -> Write, rm: bool, cpDir: Write)
      modifies this
      ensures View() == Rollback(old(View()), b, w, rm, cpDir)
    {
      assert LISTED[0..] == LISTED;
      for i := 0 to |LISTED|
        invariant chunks == old(chunks)
        invariant PutBack(old(files), b.files, LISTED, w) == PutBack(files, b.files, LISTED[i..], w)
      {
        assert LISTED[i..][1..] == LISTED[i + 1..];
        var f := LISTED[i];
        if f in b.files {
          files := Put(files, f, After(b.files[f], w(f)));
        } else if w(f).Done? {
          files := files - {f};
        }
        if w(f).Broken? {
          return;
        }
      }
      if rm {
        chunks := None;
        if b.chunks.Some? {
          chunks := After(b.chunks.value, cpDir);
        }
      }
    }
  }
}
