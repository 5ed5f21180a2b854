/**
 Transactional patches: agent_core/patch_manager.py.

 The file system is a map from path to text.  A change may be hit by an I/O fault, which
 fails it and leaves its own path in any state whatever.
 */
module PatchManager {
  import opened Wrappers

  type Path = string
  type Files = map<Path, string>

  datatype FileChange = FileChange(
    path: Path,
    oldContent: Option<string>,
    newContent: Option<string>,
    kind: string)

  const MODIFIED := "modified"
  const ADDED := "added"
  const DELETED := "deleted"

  /** An exception while a change is applied; its path is left with this content, or absent. */
  datatype Fault = NoFault | Raise(leaves: Option<string>)

  /** What the outside world does to the i-th change of a plan. */
  type Faults = nat -> Fault

  function SetPath(fs: Files, p: Path, content: Option<string>): Files {
    match content
    case Some(text) => fs[p := text]
    case None => fs - {p}
  }

  function Content(fs: Files, p: Path): Option<string> {
    if p in fs then Some(fs[p]) else None
  }

  // ---------------------------------------------------------------------------
  // One change
  // ---------------------------------------------------------------------------

  /** When the code accepts a change. */
  predicate Accepts(fs: Files, c: FileChange) {
    if c.kind == MODIFIED then
      c.oldContent.Some? && c.newContent.Some? && Content(fs, c.path) == c.oldContent
    else if c.kind == ADDED then
      c.newContent.Some? && c.path !in fs
    else if c.kind == DELETED then
      c.oldContent.Some? ==> Content(fs, c.path) == c.oldContent
    else
      false
  }

  /** What an accepted change is for. */
  function Effect(fs: Files, c: FileChange): Files {
    SetPath(fs, c.path, if c.kind == DELETED then None else c.newContent)
  }

  /** A whole plan, as the fold of its changes. */
  function Fold(fs: Files, changes: seq<FileChange>): Files
    decreases |changes|
  {
    if changes == [] then fs else Fold(Effect(fs, changes[0]), changes[1..])
  }

  /** Every change is accepted in the state its predecessors leave, and none meets a fault. */
  predicate Applicable(fs: Files, changes: seq<FileChange>, faults: Faults, i: nat)
    decreases |changes|
  {
    changes == [] ||
    (faults(i).NoFault? && Accepts(fs, changes[0]) && Applicable(Effect(fs, changes[0]), changes[1..], faults, i + 1))
  }

  predicate Touches(changes: seq<FileChange>, p: Path) {
    exists i :: 0 <= i < |changes| && changes[i].path == p
  }

  ghost predicate AgreeOutside(a: Files, b: Files, changes: seq<FileChange>) {
    forall p :: !Touches(changes, p) ==> Content(a, p) == Content(b, p)
  }

  ghost predicate AgreeOn(a: Files, b: Files, changes: seq<FileChange>) {
    forall p :: Touches(changes, p) ==> Content(a, p) == Content(b, p)
  }

  lemma SameContents(a: Files, b: Files)
    requires forall p :: Content(a, p) == Content(b, p)
    ensures a == b
  {
    assert forall p :: p in a <==> Content(a, p).Some?;
    assert forall p :: p in b <==> Content(b, p).Some?;
    assert forall p :: p in a ==> Content(a, p) == Some(a[p]) == Content(b, p);
  }

  // ---------------------------------------------------------------------------
  // Snapshots
  // ---------------------------------------------------------------------------

  /** Where a path is backed up below the snapshot root: leading slashes are stripped. */
  function BackupKey(p: Path): Path {
    if p != "" && p[0] == '/' then BackupKey(p[1..]) else p
  }

  /** The key is the path from its first character that is no slash. */
  lemma {:induction false} BackupKeyIs(p: Path) returns (n: nat)
    ensures n <= |p| && BackupKey(p) == p[n..]
    ensures forall i :: 0 <= i < n ==> p[i] == '/'
    ensures n < |p| ==> p[n] != '/'
  {
    if p != "" && p[0] == '/' {
      var m := BackupKeyIs(p[1..]);
      n := m + 1;
      assert p[1..][m..] == p[n..];
      assert forall i :: 0 < i < n ==> p[i] == p[1..][i - 1];
    } else {
      n := 0;
    }
  }

  /** Backups of the files of a plan; a later file with the same key overwrites an earlier one. */
  function Snapshot(fs: Files, changes: seq<FileChange>): Files {
    if changes == [] then map[]
    else
      var last := changes[|changes| - 1].path;
      var before := Snapshot(fs, changes[..|changes| - 1]);
      if last in fs then before[BackupKey(last) := fs[last]] else before
  }

  function Existing(fs: Files, changes: seq<FileChange>): set<Path> {
    set i | 0 <= i < |changes| && changes[i].path in fs :: changes[i].path
  }

  /** What the restore makes of one path. */
  function RestoredContent(fs: Files, snapshot: Files, existing: set<Path>, p: Path): Option<string> {
    if p in existing then
      if BackupKey(p) in snapshot then Some(snapshot[BackupKey(p)]) else Content(fs, p)
    else None
  }

  function Restore(fs: Files, snapshot: Files, changes: seq<FileChange>, existing: set<Path>): Files
    decreases |changes|
  {
    if changes == [] then fs
    else
      var p := changes[0].path;
      Restore(SetPath(fs, p, RestoredContent(fs, snapshot, existing, p)), snapshot, changes[1..], existing)
  }

  /** Two files of the plan that share a backup key have the same text.  Holds of any plan
      whose paths have different keys, and in particular of canonical absolute paths. */
  ghost predicate BackupsFaithful(fs: Files, changes: seq<FileChange>) {
    forall p, q :: p in Existing(fs, changes) && q in Existing(fs, changes) && BackupKey(p) == BackupKey(q) ==> fs[p] == fs[q]
  }

  lemma {:induction false} SnapshotHolds(fs: Files, changes: seq<FileChange>)
    ensures forall p :: p in Existing(fs, changes) ==> BackupKey(p) in Snapshot(fs, changes)
    ensures forall k :: k in Snapshot(fs, changes) ==>
              exists q :: q in Existing(fs, changes) && BackupKey(q) == k && fs[q] == Snapshot(fs, changes)[k]
    decreases |changes|
  {
    if changes != [] {
      var front := changes[..|changes| - 1];
      var last := changes[|changes| - 1].path;
      SnapshotHolds(fs, front);
      assert changes == front + [changes[|changes| - 1]];
      assert Existing(fs, changes) == Existing(fs, front) + (if last in fs then {last} else {}) by {
        assert last in fs ==> last in Existing(fs, changes);
        forall p | p in Existing(fs, front)
          ensures p in Existing(fs, changes)
        {
          var i :| 0 <= i < |front| && front[i].path == p;
          assert changes[i].path == p;
        }
      }
      var snap := Snapshot(fs, changes);
      forall k | k in snap
        ensures exists q :: q in Existing(fs, changes) && BackupKey(q) == k && fs[q] == snap[k]
      {
        if last in fs && k == BackupKey(last) {
          assert fs[last] == snap[k];
        } else {
          assert k in Snapshot(fs, front);
          var q :| q in Existing(fs, front) && BackupKey(q) == k && fs[q] == Snapshot(fs, front)[k];
          assert fs[q] == snap[k];
        }
      }
    }
  }

  /** Restoring writes exactly the plan's paths, each to its restored content. */
  lemma {:induction false} RestoreContents(fs: Files, snapshot: Files, changes: seq<FileChange>, existing: set<Path>, p: Path)
    requires forall q :: q in existing ==> BackupKey(q) in snapshot
    ensures Content(Restore(fs, snapshot, changes, existing), p) ==
            if Touches(changes, p) then RestoredContent(fs, snapshot, existing, p) else Content(fs, p)
    decreases |changes|
  {
    if changes != [] {
      var q := changes[0].path;
      var gs := SetPath(fs, q, RestoredContent(fs, snapshot, existing, q));
      RestoreContents(gs, snapshot, changes[1..], existing, p);
      assert RestoredContent(gs, snapshot, existing, p) == RestoredContent(fs, snapshot, existing, p);
      if Touches(changes[1..], p) {
        var i :| 0 <= i < |changes[1..]| && changes[1..][i].path == p;
        assert changes[i + 1].path == p;
      } else if p == q {
        assert changes[0].path == p;
      } else {
        forall i | 0 <= i < |changes|
          ensures changes[i].path != p
        {
          assert i > 0 ==> changes[1..][i - 1] == changes[i];
        }
      }
    }
  }

  /** Restoring from the snapshot undoes any damage confined to the plan's paths exactly when
      no two of its files with different texts were backed up to one place. */
  lemma RestoreUndoes(fs0: Files, fs: Files, changes: seq<FileChange>)
    requires AgreeOutside(fs0, fs, changes)
    ensures Restore(fs, Snapshot(fs0, changes), changes, Existing(fs0, changes)) == fs0
            <==> BackupsFaithful(fs0, changes)
  {
    var snap, existing := Snapshot(fs0, changes), Existing(fs0, changes);
    var end := Restore(fs, snap, changes, existing);
    SnapshotHolds(fs0, changes);
    forall p
      ensures Content(end, p) == if Touches(changes, p) then RestoredContent(fs, snap, existing, p) else Content(fs0, p)
    {
      RestoreContents(fs, snap, changes, existing, p);
    }
    forall p | p in existing
      ensures Touches(changes, p) && Content(end, p) == Some(snap[BackupKey(p)])
    {
      var i :| 0 <= i < |changes| && changes[i].path == p;
    }
    if BackupsFaithful(fs0, changes) {
      forall p
        ensures Content(end, p) == Content(fs0, p)
      {
        if p in existing {
          var q :| q in existing && BackupKey(q) == BackupKey(p) && fs0[q] == snap[BackupKey(p)];
        } else if Touches(changes, p) {
          var i :| 0 <= i < |changes| && changes[i].path == p;
        }
      }
      SameContents(end, fs0);
    }
    if end == fs0 {
      forall p, q | p in existing && q in existing && BackupKey(p) == BackupKey(q)
        ensures fs0[p] == fs0[q]
      {
        assert Content(end, p) == Content(end, q);
      }
    }
  }

  /** Canonical absolute paths: one leading slash. */
  predicate Canonical(p: Path) {
    |p| >= 2 && p[0] == '/' && p[1] != '/'
  }

  lemma CanonicalPathsAreFaithful(fs: Files, changes: seq<FileChange>)
    requires forall i :: 0 <= i < |changes| ==> Canonical(changes[i].path)
    ensures BackupsFaithful(fs, changes)
  {
    forall p, q | p in Existing(fs, changes) && q in Existing(fs, changes) && BackupKey(p) == BackupKey(q)
      ensures p == q
    {
      assert Canonical(p) && Canonical(q);
      assert BackupKey(p) == p[1..] && BackupKey(q) == q[1..];
      assert p == ['/'] + p[1..] && q == ['/'] + q[1..];
    }
  }

  // ---------------------------------------------------------------------------
  // Sequential application
  // ---------------------------------------------------------------------------

  /** One change, as the code carries it out: its new files and whether it succeeded. */
  function ApplyOne(fs: Files, c: FileChange, fault: Fault): (Files, bool) {
    match fault
    case Raise(leaves) => (SetPath(fs, c.path, leaves), false)
    case NoFault => if Accepts(fs, c) then (Effect(fs, c), true) else (fs, false)
  }

  lemma {:induction false} FoldSnoc(fs: Files, changes: seq<FileChange>, c: FileChange)
    ensures Fold(fs, changes + [c]) == Effect(Fold(fs, changes), c)
    decreases |changes|
  {
    if changes == [] {
      assert [] + [c] == [c];
      assert [c][1..] == [];
    } else {
      FoldSnoc(Effect(fs, changes[0]), changes[1..], c);
      assert (changes + [c])[1..] == changes[1..] + [c];
    }
  }

  lemma {:induction false} ApplicableSnoc(fs: Files, changes: seq<FileChange>, c: FileChange, faults: Faults, i: nat)
    ensures Applicable(fs, changes + [c], faults, i) <==>
            && Applicable(fs, changes, faults, i)
            && faults(i + |changes|).NoFault? && Accepts(Fold(fs, changes), c)
    decreases |changes|
  {
    if changes == [] {
      assert [] + [c] == [c];
      assert [c][1..] == [];
    } else {
      ApplicableSnoc(Effect(fs, changes[0]), changes[1..], c, faults, i + 1);
      assert (changes + [c])[1..] == changes[1..] + [c];
    }
  }

  /** A plan that fails early fails. */
  lemma {:induction false} ApplicablePrefix(fs: Files, changes: seq<FileChange>, faults: Faults, n: nat)
    requires n <= |changes| && Applicable(fs, changes, faults, 0)
    ensures Applicable(fs, changes[..n], faults, 0)
    decreases |changes| - n
  {
    if n == |changes| {
      assert changes[..n] == changes;
    } else {
      ApplicablePrefix(fs, changes, faults, n + 1);
      assert changes[..n + 1] == changes[..n] + [changes[n]];
      ApplicableSnoc(fs, changes[..n], changes[n], faults, 0);
    }
  }

  /** A plan leaves every path alone that it has no change for. */
  lemma {:induction false} OthersUntouched(fs: Files, changes: seq<FileChange>, p: Path)
    requires !Touches(changes, p)
    ensures Content(Fold(fs, changes), p) == Content(fs, p)
    decreases |changes|
  {
    if changes != [] {
      assert changes[0].path != p;
      assert forall i :: 0 <= i < |changes[1..]| ==> changes[1..][i] == changes[i + 1];
      OthersUntouched(Effect(fs, changes[0]), changes[1..], p);
    }
  }

  /** A plan leaves each path it changes as the last change to it says. */
  lemma {:induction false} LastChangeWins(fs: Files, changes: seq<FileChange>, i: nat)
    requires i < |changes| && !Touches(changes[i + 1..], changes[i].path)
    ensures Content(Fold(fs, changes), changes[i].path) ==
            if changes[i].kind == DELETED then None else changes[i].newContent
    decreases |changes|
  {
    var gs, rest := Effect(fs, changes[0]), changes[1..];
    if i == 0 {
      OthersUntouched(gs, rest, changes[0].path);
    } else {
      assert rest[i..] == changes[i + 1..] && rest[i - 1] == changes[i];
      LastChangeWins(gs, rest, i - 1);
    }
  }

  /** Exactly which plans apply: at its turn, a modification finds the old content it names, an
      addition finds nothing, a deletion finds the content it names if it names one, what has to
      be written is given, no other kind occurs and no fault strikes. */
  lemma {:induction false} PlanAppliesIff(fs: Files, changes: seq<FileChange>, faults: Faults)
    ensures Applicable(fs, changes, faults, 0) <==>
            forall i :: 0 <= i < |changes| ==>
              var gs, c := Fold(fs, changes[..i]), changes[i];
              && faults(i).NoFault?
              && (|| (c.kind == "modified" && c.path in gs && c.oldContent == Some(gs[c.path]) && c.newContent.Some?)
                  || (c.kind == "added" && c.path !in gs && c.newContent.Some?)
                  || (c.kind == "deleted" && (c.oldContent.None? || (c.path in gs && c.oldContent == Some(gs[c.path])))))
    decreases |changes|
  {
    if changes != [] {
      var n := |changes| - 1;
      var front, last := changes[..n], changes[n];
      assert changes == front + [last];
      ApplicableSnoc(fs, front, last, faults, 0);
      PlanAppliesIff(fs, front, faults);
      assert forall i :: 0 <= i <= n ==> changes[..i] == front[..i];
      assert forall i :: 0 <= i < n ==> changes[i] == front[i];
      assert front[..n] == front;
    }
  }

  /** The change that takes its path from what it is in fs0 to what it is in fs1. */
  ghost predicate IsStep(fs0: Files, fs1: Files, c: FileChange) {
    || (&& c.kind == "modified" && c.path in fs0 && c.path in fs1
        && c.oldContent == Some(fs0[c.path]) && c.newContent == Some(fs1[c.path]))
    || (&& c.kind == "added" && c.path !in fs0 && c.path in fs1
        && c.newContent == Some(fs1[c.path]))
    || (&& c.kind == "deleted" && c.path in fs0 && c.path !in fs1
        && (c.oldContent.None? || c.oldContent == Some(fs0[c.path])))
  }

  /** The plan lists what fs0 and fs1 differ in: one true change for each path, in any order. */
  ghost predicate IsDiff(fs0: Files, fs1: Files, changes: seq<FileChange>) {
    && (forall i :: 0 <= i < |changes| ==> IsStep(fs0, fs1, changes[i]))
    && (forall i, j :: 0 <= i < j < |changes| ==> changes[i].path != changes[j].path)
    && (forall p :: Content(fs0, p) != Content(fs1, p) ==> Touches(changes, p))
  }

  lemma DiffRest(fs0: Files, fs1: Files, changes: seq<FileChange>)
    requires changes != [] && IsDiff(fs0, fs1, changes)
    ensures Accepts(fs0, changes[0]) && IsDiff(Effect(fs0, changes[0]), fs1, changes[1..])
  {
    var c, rest := changes[0], changes[1..];
    var gs := Effect(fs0, c);
    assert IsStep(fs0, fs1, c);
    forall i | 0 <= i < |rest|
      ensures IsStep(gs, fs1, rest[i])
    {
      assert rest[i] == changes[i + 1] && IsStep(fs0, fs1, changes[i + 1]);
    }
    forall p | Content(gs, p) != Content(fs1, p)
      ensures Touches(rest, p)
    {
      assert Content(gs, c.path) == Content(fs1, c.path);
      assert Content(gs, p) == Content(fs0, p);
      var i :| 0 <= i < |changes| && changes[i].path == p;
      assert rest[i - 1].path == p;
    }
  }

  /** A plan that lists the differences of two file systems turns one into the other. */
  lemma {:induction false} DiffApplies(fs0: Files, fs1: Files, changes: seq<FileChange>, faults: Faults, i: nat)
    requires IsDiff(fs0, fs1, changes)
    requires forall k: nat :: i <= k < i + |changes| ==> faults(k).NoFault?
    ensures Applicable(fs0, changes, faults, i) && Fold(fs0, changes) == fs1
    decreases |changes|
  {
    if changes == [] {
      forall p
        ensures Content(fs0, p) == Content(fs1, p)
      {
        assert !Touches(changes, p);
      }
      SameContents(fs0, fs1);
    } else {
      DiffRest(fs0, fs1, changes);
      DiffApplies(Effect(fs0, changes[0]), fs1, changes[1..], faults, i + 1);
    }
  }

  lemma TouchesPrefix(changes: seq<FileChange>, n: nat, p: Path)
    requires n <= |changes| && !Touches(changes, p)
    ensures !Touches(changes[..n], p)
  {
    forall i | 0 <= i < n
      ensures changes[..n][i].path != p
    {
      assert changes[..n][i] == changes[i];
    }
  }

  /** Applying a change touches only its own path. */
  lemma ApplyOneLocal(fs: Files, c: FileChange, fault: Fault, p: Path)
    requires p != c.path
    ensures Content(ApplyOne(fs, c, fault).0, p) == Content(fs, p)
  {
  }

  // ---------------------------------------------------------------------------
  // Rollback
  // ---------------------------------------------------------------------------

  function Reverse(c: FileChange): FileChange {
    FileChange(c.path, c.newContent, c.oldContent,
               if c.kind == MODIFIED then MODIFIED
               else if c.kind == DELETED then ADDED
               else if c.kind == ADDED then DELETED
               else c.kind)
  }

  /** The reverse changes from last to first; a failing one is reported and skipped. */
  function Rollback(fs: Files, changes: seq<FileChange>): (Files, bool)
    decreases |changes|
  {
    if changes == [] then (fs, true)
    else
      var (gs, ok) := ApplyOne(fs, Reverse(changes[|changes| - 1]), NoFault);
      var (hs, rest) := Rollback(gs, changes[..|changes| - 1]);
      (hs, ok && rest)
  }

  ghost predicate DeletesCarryContent(changes: seq<FileChange>) {
    forall i :: 0 <= i < |changes| && changes[i].kind == DELETED ==> changes[i].oldContent.Some?
  }

  function NoFaults(): Faults {
    _ => NoFault
  }

  lemma {:induction false} RollbackLocal(fs: Files, changes: seq<FileChange>, p: Path)
    requires !Touches(changes, p)
    ensures Content(Rollback(fs, changes).0, p) == Content(fs, p)
    decreases |changes|
  {
    if changes != [] {
      var front, c := changes[..|changes| - 1], changes[|changes| - 1];
      assert c.path != p;
      var gs := ApplyOne(fs, Reverse(c), NoFault).0;
      ApplyOneLocal(fs, Reverse(c), NoFault, p);
      forall i | 0 <= i < |front|
        ensures front[i].path != p
      {
        assert front[i] == changes[i];
      }
      RollbackLocal(gs, front, p);
    }
  }

  /** Undoing the last change of a plan. */
  lemma ReverseUndoes(gs: Files, c: FileChange, fs: Files)
    requires Accepts(gs, c) && Content(fs, c.path) == Content(Effect(gs, c), c.path)
    ensures ApplyOne(fs, Reverse(c), NoFault).1 <==> !(c.kind == DELETED && c.oldContent.None?)
    ensures ApplyOne(fs, Reverse(c), NoFault).1 ==>
              Content(ApplyOne(fs, Reverse(c), NoFault).0, c.path) == Content(gs, c.path)
  {
  }

  /** Undoing the last change brings the plan's files back to where the front left them. */
  lemma LastUndone(gs: Files, fs: Files, front: seq<FileChange>, c: FileChange)
    requires Accepts(gs, c) && AgreeOn(Effect(gs, c), fs, front + [c])
    requires ApplyOne(fs, Reverse(c), NoFault).1
    ensures AgreeOn(gs, ApplyOne(fs, Reverse(c), NoFault).0, front)
    ensures Content(gs, c.path) == Content(ApplyOne(fs, Reverse(c), NoFault).0, c.path)
  {
    TouchesEnd(front, c);
    ReverseUndoes(gs, c, fs);
    forall p | Touches(front, p)
      ensures Content(gs, p) == Content(ApplyOne(fs, Reverse(c), NoFault).0, p)
    {
      TouchesMore(front, c, p);
      if p != c.path {
        ApplyOneLocal(fs, Reverse(c), NoFault, p);
      }
    }
  }

  lemma FrontRestored(fs0: Files, hs: Files, front: seq<FileChange>, c: FileChange)
    requires AgreeOn(fs0, Rollback(hs, front).0, front)
    requires Content(Fold(fs0, front), c.path) == Content(hs, c.path)
    ensures AgreeOn(fs0, Rollback(hs, front).0, front + [c])
  {
    forall p | Touches(front + [c], p)
      ensures Content(fs0, p) == Content(Rollback(hs, front).0, p)
    {
      if !Touches(front, p) {
        TouchesLast(front, c, p);
        OthersUntouched(fs0, front, p);
        RollbackLocal(hs, front, p);
      }
    }
  }

  lemma CarrySnoc(front: seq<FileChange>, c: FileChange)
    ensures DeletesCarryContent(front + [c]) <==>
            DeletesCarryContent(front) && !(c.kind == DELETED && c.oldContent.None?)
  {
    var changes := front + [c];
    assert changes[|front|] == c;
    assert forall i :: 0 <= i < |front| ==> front[i] == changes[i];
  }

  lemma RollbackSnoc(fs: Files, front: seq<FileChange>, c: FileChange)
    ensures var (gs, ok) := ApplyOne(fs, Reverse(c), NoFault);
            Rollback(fs, front + [c]) == (Rollback(gs, front).0, ok && Rollback(gs, front).1)
  {
    assert (front + [c])[..|front|] == front;
  }

  /** After a successful apply, with the plan's files untouched since, `rollback_patch` reports
      success exactly when every delete carries its old content, and then it gives the plan's
      files their initial contents, or absence, back. */
  lemma {:induction false} RollbackRestores(fs0: Files, fs: Files, changes: seq<FileChange>, faults: Faults)
    requires Applicable(fs0, changes, faults, 0)
    requires AgreeOn(Fold(fs0, changes), fs, changes)
    ensures Rollback(fs, changes).1 <==> DeletesCarryContent(changes)
    ensures Rollback(fs, changes).1 ==> AgreeOn(fs0, Rollback(fs, changes).0, changes)
    decreases |changes|
  {
    if changes != [] {
      var front, c := changes[..|changes| - 1], changes[|changes| - 1];
      assert changes == front + [c];
      var gs := Fold(fs0, front);
      FoldSnoc(fs0, front, c);
      ApplicableSnoc(fs0, front, c, faults, 0);
      TouchesEnd(front, c);
      ReverseUndoes(gs, c, fs);
      RollbackSnoc(fs, front, c);
      CarrySnoc(front, c);
      var (hs, ok) := ApplyOne(fs, Reverse(c), NoFault);
      if ok {
        LastUndone(gs, fs, front, c);
        RollbackRestores(fs0, hs, front, faults);
        if Rollback(hs, front).1 {
          FrontRestored(fs0, hs, front, c);
        }
      }
    }
  }

  lemma RollbackNext(fs: Files, changes: seq<FileChange>, i: nat)
    requires i < |changes|
    ensures var (gs, ok) := ApplyOne(fs, Reverse(changes[i]), NoFault);
            Rollback(fs, changes[..i + 1]) == (Rollback(gs, changes[..i]).0, ok && Rollback(gs, changes[..i]).1)
  {
    assert changes[..i + 1] == changes[..i] + [changes[i]];
    RollbackSnoc(fs, changes[..i], changes[i]);
  }

  ghost predicate Deletes(changes: seq<FileChange>, p: Path) {
    exists i :: 0 <= i < |changes| && changes[i].path == p && changes[i].kind == DELETED
  }

  /** The first delete of p carries no content. */
  ghost predicate FirstDeleteIsBare(changes: seq<FileChange>, p: Path) {
    exists i :: 0 <= i < |changes| && changes[i].path == p && changes[i].kind == DELETED && changes[i].oldContent.None?
                && !Deletes(changes[..i], p)
  }

  lemma DeletesSnoc(front: seq<FileChange>, c: FileChange, p: Path)
    ensures Deletes(front + [c], p) <==> Deletes(front, p) || (c.path == p && c.kind == DELETED)
    ensures FirstDeleteIsBare(front + [c], p) <==>
            FirstDeleteIsBare(front, p)
            || (!Deletes(front, p) && c.path == p && c.kind == DELETED && c.oldContent.None?)
  {
    var changes := front + [c];
    assert changes[|front|] == c && changes[..|front|] == front;
    assert forall i :: 0 <= i < |front| ==> changes[i] == front[i] && changes[..i] == front[..i];
  }

  /** Without a delete a file that is there stays there. */
  lemma {:induction false} StaysWithoutDelete(fs: Files, changes: seq<FileChange>, faults: Faults, p: Path)
    requires Applicable(fs, changes, faults, 0) && p in fs && !Deletes(changes, p)
    ensures p in Fold(fs, changes)
    decreases |changes|
  {
    if changes != [] {
      var front, c := changes[..|changes| - 1], changes[|changes| - 1];
      assert changes == front + [c];
      DeletesSnoc(front, c, p);
      FoldSnoc(fs, front, c);
      ApplicableSnoc(fs, front, c, faults, 0);
      StaysWithoutDelete(fs, front, faults, p);
    }
  }

  /** The content a rollback gives p, from a state where p is as the plan left it or, a bare
      delete having been skipped, is missing. */
  function RolledBack(fs0: Files, p: Path, missing: bool, deletes: bool, bare: bool): Option<string> {
    if p in fs0 && (bare || (missing && !deletes)) then None else Content(fs0, p)
  }

  /** What undoing the last change makes of its path. */
  lemma UndoLast(gs: Files, c: FileChange, fs: Files)
    requires Accepts(gs, c) && (Content(fs, c.path) == Content(Effect(gs, c), c.path) || c.path !in fs)
    ensures var now := Content(ApplyOne(fs, Reverse(c), NoFault).0, c.path);
            now == if (c.kind == DELETED && c.oldContent.None?) || Content(fs, c.path) != Content(Effect(gs, c), c.path)
                   then None else Content(gs, c.path)
  {
  }

  lemma {:induction false} RollbackOfPath(fs0: Files, fs: Files, changes: seq<FileChange>, faults: Faults, p: Path)
    requires Applicable(fs0, changes, faults, 0)
    requires Content(fs, p) == Content(Fold(fs0, changes), p) || p !in fs
    ensures Content(Rollback(fs, changes).0, p) ==
            RolledBack(fs0, p, Content(fs, p) != Content(Fold(fs0, changes), p), Deletes(changes, p), FirstDeleteIsBare(changes, p))
    decreases |changes|
  {
    if changes != [] {
      var front, c := changes[..|changes| - 1], changes[|changes| - 1];
      assert changes == front + [c];
      var gs, hs := Fold(fs0, front), ApplyOne(fs, Reverse(c), NoFault).0;
      FoldSnoc(fs0, front, c);
      ApplicableSnoc(fs0, front, c, faults, 0);
      RollbackSnoc(fs, front, c);
      DeletesSnoc(front, c, p);
      if c.path == p {
        UndoLast(gs, c, fs);
      } else {
        ApplyOneLocal(fs, Reverse(c), NoFault, p);
      }
      RollbackOfPath(fs0, hs, front, faults, p);
      if p in fs0 && !Deletes(front, p) {
        StaysWithoutDelete(fs0, front, faults, p);
      }
    }
  }

  /** After a successful apply, with the plan's files untouched since, rollback gives them
      their initial contents, or absence, back exactly when no file that was there at the
      start has a first delete without content; whether it reports success or not. */
  lemma RollbackRestoresIff(fs0: Files, fs: Files, changes: seq<FileChange>, faults: Faults)
    requires Applicable(fs0, changes, faults, 0) && AgreeOn(Fold(fs0, changes), fs, changes)
    ensures AgreeOn(fs0, Rollback(fs, changes).0, changes) <==>
            forall p :: Touches(changes, p) && p in fs0 ==> !FirstDeleteIsBare(changes, p)
  {
    forall p | Touches(changes, p)
      ensures Content(fs0, p) == Content(Rollback(fs, changes).0, p) <==> !(p in fs0 && FirstDeleteIsBare(changes, p))
    {
      RollbackOfPath(fs0, fs, changes, faults, p);
    }
  }

  lemma TouchesEnd(front: seq<FileChange>, c: FileChange)
    ensures Touches(front + [c], c.path)
  {
    assert (front + [c])[|front|].path == c.path;
  }

  lemma TouchesMore(front: seq<FileChange>, c: FileChange, p: Path)
    requires Touches(front, p)
    ensures Touches(front + [c], p)
  {
    var i :| 0 <= i < |front| && front[i].path == p;
    assert (front + [c])[i].path == p;
  }

  lemma TouchesLast(front: seq<FileChange>, c: FileChange, p: Path)
    requires Touches(front + [c], p) && !Touches(front, p)
    ensures p == c.path
  {
    assert forall k :: 0 <= k < |front| ==> (front + [c])[k] == front[k] && front[k].path != p;
  }

  // ---------------------------------------------------------------------------
  // The manager
  // ---------------------------------------------------------------------------

  datatype AppliedPatch = AppliedPatch(planId: string, changes: seq<FileChange>, success: bool)

  class PatchManager {
    var files: Files
    var appliedPatches: seq<AppliedPatch>
    var failedPatches: seq<AppliedPatch>

    constructor (files: Files)
      ensures this.files == files && appliedPatches == [] && failedPatches == []
    {
      this.files := files;
      appliedPatches, failedPatches := [], [];
    }

    method ApplyFileChange(change: FileChange, fault: Fault) returns (ok: bool)
      modifies this`files
      ensures (files, ok) == ApplyOne(old(files), change, fault)
      ensures ok <==>
              && fault.NoFault?
              && (|| (change.kind == "modified" && change.newContent.Some?
                      && change.path in old(files) && change.oldContent == Some(old(files)[change.path]))
                  || (change.kind == "added" && change.newContent.Some? && change.path !in old(files))
                  || (change.kind == "deleted" && (change.oldContent.None? ||
                      (change.path in old(files) && change.oldContent == Some(old(files)[change.path])))))
      ensures ok ==> files == if change.kind == "deleted" then old(files) - {change.path}
                              else old(files)[change.path := change.newContent.value]
      ensures !ok && fault.NoFault? ==> files == old(files)
    {
      if fault.Raise? {
        files := SetPath(files, change.path, fault.leaves);
        return false;
      }
      if change.kind == MODIFIED {
        if change.oldContent.None? || change.newContent.None? {
          return false;
        }
        if change.path in files {
          var current := files[change.path];
          if current != change.oldContent.value {
            return false;
          }
        } else {
          return false;
        }
        files := files[change.path := change.newContent.value];
        return true;
      } else if change.kind == ADDED {
        if change.newContent.None? {
          return false;
        }
        if change.path in files {
          return false;
        }
        files := files[change.path := change.newContent.value];
        return true;
      } else if change.kind == DELETED {
        if change.oldContent.Some? {
          if change.path !in files {
            return false;
          }
          var current := files[change.path];
          if current != change.oldContent.value {
            return false;
          }
        }
        if change.path in files {
          files := files - {change.path};
        }
        assert files == old(files) - {change.path};
        return true;
      } else {
        return false;
      }
    }

    method CreateRollbackSnapshot(changes: seq<FileChange>) returns (snapshot: Files)
      ensures snapshot == Snapshot(files, changes)
    {
      snapshot := map[];
      var i := 0;
      while i < |changes|
        invariant 0 <= i <= |changes|
        invariant snapshot == Snapshot(files, changes[..i])
      {
        assert changes[..i + 1][..i] == changes[..i];
        if changes[i].path in files {
          snapshot := snapshot[BackupKey(changes[i].path) := files[changes[i].path]];
        }
        i := i + 1;
      }
      assert changes[..|changes|] == changes;
    }

    method RestoreFromSnapshot(snapshot: Files, changes: seq<FileChange>, existing: set<Path>)
      modifies this`files
      ensures files == Restore(old(files), snapshot, changes, existing)
    {
      var i := 0;
      while i < |changes|
        invariant 0 <= i <= |changes|
        invariant Restore(files, snapshot, changes[i..], existing) == Restore(old(files), snapshot, changes, existing)
      {
        var p := changes[i].path;
        ghost var before := files;
        if p in existing {
          if BackupKey(p) in snapshot {
            files := files[p := snapshot[BackupKey(p)]];
          }
        } else if p in files {
          files := files - {p};
        }
        assert files == SetPath(before, p, RestoredContent(before, snapshot, existing, p));
        assert changes[i..][1..] == changes[i + 1..];
        i := i + 1;
      }
    }

    /** All or nothing.  The plan succeeds exactly when every change is accepted in turn and no
        fault strikes, and then the files are the fold of its changes; when it fails, at
        whatever change and with whatever damage to that change's path, the files are as
        before exactly when the backups were faithful, as they are for canonical paths.  A plan
        that lists the differences to some other files turns the files into those. */
    method TransactionalApply(changes: seq<FileChange>, faults: Faults) returns (ok: bool)
      modifies this`files
      ensures ok <==> Applicable(old(files), changes, faults, 0)
      ensures ok ==> files == Fold(old(files), changes)
      ensures !ok ==> (files == old(files) <==> BackupsFaithful(old(files), changes))
      ensures forall fs1 :: IsDiff(old(files), fs1, changes) && (forall k: nat :: k < |changes| ==> faults(k).NoFault?) ==>
                ok && files == fs1
    {
      forall fs1 | IsDiff(files, fs1, changes) && (forall k: nat :: k < |changes| ==> faults(k).NoFault?)
        ensures Applicable(files, changes, faults, 0) && Fold(files, changes) == fs1
      {
        DiffApplies(files, fs1, changes, faults, 0);
      }
      ghost var before := files;
      var snapshot := CreateRollbackSnapshot(changes);
      var existing := set i | 0 <= i < |changes| && changes[i].path in files :: changes[i].path;
      ok := true;
      var i := 0;
      while i < |changes|
        invariant 0 <= i <= |changes|
        invariant ok && files == Fold(before, changes[..i])
        invariant Applicable(before, changes[..i], faults, 0)
      {
        NextChange(before, changes, faults, i);
        var success := ApplyFileChange(changes[i], faults(i));
        if !success {
          DamageIsLocal(before, changes, i, faults(i));
          RestoreUndoes(before, files, changes);
          RestoreFromSnapshot(snapshot, changes, existing);
          return false;
        }
        i := i + 1;
      }
      assert changes[..|changes|] == changes;
    }

    method ApplyPatchPlan(planId: string, changes: seq<FileChange>, faults: Faults) returns (record: AppliedPatch)
      modifies this
      ensures record == AppliedPatch(planId, changes, Applicable(old(files), changes, faults, 0))
      ensures record.success ==>
                && files == Fold(old(files), changes)
                && appliedPatches == old(appliedPatches) + [record] && failedPatches == old(failedPatches)
      ensures !record.success ==>
                && (files == old(files) <==> BackupsFaithful(old(files), changes))
                && appliedPatches == old(appliedPatches) && failedPatches == old(failedPatches) + [record]
    {
      var success := TransactionalApply(changes, faults);
      record := AppliedPatch(planId, changes, success);
      if success {
        appliedPatches := appliedPatches + [record];
      } else {
        failedPatches := failedPatches + [record];
      }
    }

    method RollbackPatch(patch: AppliedPatch) returns (ok: bool)
      modifies this`files
      ensures !patch.success ==> !ok && files == old(files)
      ensures patch.success ==> (files, ok) == Rollback(old(files), patch.changes)
    {
      if !patch.success {
        return false;
      }
      ok := true;
      var i := |patch.changes|;
      assert patch.changes[..i] == patch.changes;
      ghost var goal := Rollback(files, patch.changes);
      while i > 0
        invariant 0 <= i <= |patch.changes|
        invariant Rollback(files, patch.changes[..i]).0 == goal.0
        invariant (ok && Rollback(files, patch.changes[..i]).1) == goal.1
      {
        i := i - 1;
        RollbackNext(files, patch.changes, i);
        var success := ApplyFileChange(Reverse(patch.changes[i]), NoFault);
        ok := ok && success;
      }
    }
  }

  /** Change i is applied where its predecessors leave the files, and the plan goes on exactly
      when it succeeds. */
  lemma NextChange(fs: Files, changes: seq<FileChange>, faults: Faults, i: nat)
    requires i < |changes| && Applicable(fs, changes[..i], faults, 0)
    ensures var (gs, ok) := ApplyOne(Fold(fs, changes[..i]), changes[i], faults(i));
            && (ok ==> gs == Fold(fs, changes[..i + 1]) && Applicable(fs, changes[..i + 1], faults, 0))
            && (!ok ==> !Applicable(fs, changes, faults, 0))
  {
    assert changes[..i + 1] == changes[..i] + [changes[i]];
    FoldSnoc(fs, changes[..i], changes[i]);
    ApplicableSnoc(fs, changes[..i], changes[i], faults, 0);
    if !ApplyOne(Fold(fs, changes[..i]), changes[i], faults(i)).1 {
      NotApplicable(fs, changes, faults, i + 1);
    }
  }

  /** Whatever happened up to and including change i stayed on the plan's paths. */
  lemma DamageIsLocal(fs: Files, changes: seq<FileChange>, i: nat, fault: Fault)
    requires i < |changes|
    ensures AgreeOutside(fs, ApplyOne(Fold(fs, changes[..i]), changes[i], fault).0, changes)
  {
    forall p | !Touches(changes, p)
      ensures Content(fs, p) == Content(ApplyOne(Fold(fs, changes[..i]), changes[i], fault).0, p)
    {
      assert changes[i].path != p;
      TouchesPrefix(changes, i, p);
      OthersUntouched(fs, changes[..i], p);
      ApplyOneLocal(Fold(fs, changes[..i]), changes[i], fault, p);
    }
  }

  lemma NotApplicable(fs: Files, changes: seq<FileChange>, faults: Faults, n: nat)
    requires n <= |changes| && !Applicable(fs, changes[..n], faults, 0)
    ensures !Applicable(fs, changes, faults, 0)
  {
    if Applicable(fs, changes, faults, 0) {
      ApplicablePrefix(fs, changes, faults, n);
    }
  }

  /** Relative and absolute spellings share a backup: after the second change of
      this plan fails, restoring leaves "/a" with the text of "a". */
  lemma SharedBackupKeyClobbers(x: string, y: string, z: string)
    requires x != y
    ensures var fs: Files := map["/a" := x, "a" := y];
            var plan := [FileChange("/a", Some(x), Some(z), MODIFIED), FileChange("a", None, None, MODIFIED)];
            && !Applicable(fs, plan, NoFaults(), 0)
            && !BackupsFaithful(fs, plan)
            && Content(Restore(Fold(fs, plan[..1]), Snapshot(fs, plan), plan, Existing(fs, plan)), "/a") == Some(y)
  {
    var fs: Files := map["/a" := x, "a" := y];
    var c0, c1 := FileChange("/a", Some(x), Some(z), MODIFIED), FileChange("a", None, None, MODIFIED);
    var plan := [c0, c1];
    assert plan[1..] == [c1];
    assert plan[0].path == "/a" && plan[1].path == "a";
    assert "/a" in Existing(fs, plan) && "a" in Existing(fs, plan);
    assert "/a"[1..] == "a";
    assert BackupKey("/a") == BackupKey("a");
    SnapshotOfTwo(fs, c0, c1);
    RestoreContents(Fold(fs, plan[..1]), Snapshot(fs, plan), plan, Existing(fs, plan), "/a");
  }

  lemma SnapshotOfTwo(fs: Files, c0: FileChange, c1: FileChange)
    requires c1.path in fs
    ensures BackupKey(c1.path) in Snapshot(fs, [c0, c1]) && Snapshot(fs, [c0, c1])[BackupKey(c1.path)] == fs[c1.path]
  {
    assert [c0, c1][..1] == [c0];
  }
}
