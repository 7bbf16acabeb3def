/** The transactional file writer: staging, commit and rollback over a file map
    (crates/agentium/src/transaction.rs). */
module Transaction {
  import opened Options

  type Path = string
  type Bytes = seq<bv8>
  type Files = map<Path, Bytes>

  datatype PendingWrite = PendingWrite(path: Path, content: Bytes, isNew: bool)

  function Get(files: Files, p: Path): Option<Bytes> {
    if p in files then Some(files[p]) else None
  }

  function Put(files: Files, p: Path, c: Option<Bytes>): Files {
    match c case Some(b) => files[p := b] case None => files - {p}
  }

  /** Files are the same exactly when every path reads the same. */
  lemma SameReads(a: Files, b: Files)
    requires forall p :: Get(a, p) == Get(b, p)
    ensures a == b
  {
    forall p ensures p in a <==> p in b {
      assert Get(a, p) == Get(b, p);
    }
    forall p | p in a ensures a[p] == b[p] {
      assert Get(a, p) == Get(b, p);
    }
  }

  function Paths(ws: seq<PendingWrite>): (ps: seq<Path>)
    ensures |ps| == |ws| && forall i :: 0 <= i < |ws| ==> ps[i] == ws[i].path
  {
    seq(|ws|, i requires 0 <= i < |ws| => ws[i].path)
  }

  function ApplyWrites(files: Files, ws: seq<PendingWrite>): Files {
    if ws == [] then files
    else ApplyWrites(files, ws[..|ws| - 1])[ws[|ws| - 1].path := ws[|ws| - 1].content]
  }

  /** What becomes of undoing one write: it works, or it fails, which is ignored, and leaves `left`. */
  datatype Undo = Undone | Stuck(left: Option<Bytes>)

  function UndoneTo(undo: Undo, snapshot: Option<Bytes>): Option<Bytes> {
    match undo case Undone => snapshot case Stuck(left) => left
  }

  /** The loop of `rollback_files` over the paths written so far. */
  function Restore(files: Files, snapshots: map<Path, Option<Bytes>>, written: seq<Path>, undos: seq<Undo>): Files
    requires |undos| == |written|
  {
    if written == [] then files
    else
      var last := |written| - 1;
      var p := written[last];
      var before := Restore(files, snapshots, written[..last], undos[..last]);
      if p in snapshots then Put(before, p, UndoneTo(undos[last], snapshots[p])) else before
  }

  /** The last attempt at undoing a write to `p`. */
  function LastUndo(written: seq<Path>, undos: seq<Undo>, p: Path): (u: Option<Undo>)
    requires |undos| == |written|
    ensures u.Some? <==> p in written
    ensures u.Some? ==> u.value in undos
  {
    if written == [] then None
    else
      var last := |written| - 1;
      assert written == written[..last] + [written[last]];
      if written[last] == p then Some(undos[last]) else LastUndo(written[..last], undos[..last], p)
  }

  /** The last content staged for `p`. */
  function LastWrite(ws: seq<PendingWrite>, p: Path): Option<Bytes> {
    if ws == [] then None
    else if ws[|ws| - 1].path == p then Some(ws[|ws| - 1].content)
    else LastWrite(ws[..|ws| - 1], p)
  }

  /** Applying the staged writes in order leaves on each path the last content staged for it and
      changes no other path. */
  lemma {:induction false} ApplyWritesReads(files: Files, ws: seq<PendingWrite>, p: Path)
    ensures Get(ApplyWrites(files, ws), p) == (if p in Paths(ws) then LastWrite(ws, p) else Get(files, p))
    ensures p in Paths(ws) <==> LastWrite(ws, p).Some?
  {
    if ws != [] {
      var front := ws[..|ws| - 1];
      ApplyWritesReads(files, front, p);
      assert Paths(ws) == Paths(front) + [ws[|ws| - 1].path];
    }
  }

  /** Rolling back leaves on each written path what the last attempt at it came to. */
  lemma {:induction false} RestoreReads(files: Files, snapshots: map<Path, Option<Bytes>>, written: seq<Path>, undos: seq<Undo>, p: Path)
    requires |undos| == |written|
    ensures Get(Restore(files, snapshots, written, undos), p)
         == (if p in written && p in snapshots then UndoneTo(LastUndo(written, undos, p).value, snapshots[p]) else Get(files, p))
  {
    if written != [] {
      var last := |written| - 1;
      RestoreReads(files, snapshots, written[..last], undos[..last], p);
      assert written == written[..last] + [written[last]];
    }
  }

  /** What happens at one staged write: it succeeds; its parent directory cannot be created; or
      the write fails and leaves `left` at its path. */
  datatype Fault = NoFault | DirFault | WriteFault(left: Option<Bytes>)

  datatype Result = Committed | DirError | WriteError

  /** The number of writes before the first fault. */
  function FirstFault(faults: seq<Fault>): (k: nat)
    ensures k <= |faults|
    ensures forall i :: 0 <= i < k ==> faults[i] == NoFault
    ensures k < |faults| ==> faults[k] != NoFault
  {
    if faults == [] || faults[0] != NoFault then 0 else 1 + FirstFault(faults[1..])
  }

  /** The files after a write fault at position `k` and the rollback. */
  function AfterWriteFault(files: Files, snapshots: map<Path, Option<Bytes>>, pending: seq<PendingWrite>, k: nat, left: Option<Bytes>,
                           undos: seq<Undo>): Files
    requires k == |undos| < |pending|
  {
    Restore(Put(ApplyWrites(files, pending[..k]), pending[k].path, left), snapshots, Paths(pending[..k]), undos)
  }

  ghost predicate Covered(snapshots: map<Path, Option<Bytes>>, pending: seq<PendingWrite>) {
    forall i :: 0 <= i < |pending| ==> pending[i].path in snapshots
  }

  /** The snapshot of `p` is what the file was before the commit. */
  ghost predicate SnapshotTrue(files: Files, snapshots: map<Path, Option<Bytes>>, p: Path)
    requires p in snapshots
  {
    snapshots[p] == Get(files, p)
  }

  /** The last attempt at undoing a write to `p` brings back what the file was: it works and the
      snapshot is true, or it fails and yet leaves that. */
  ghost predicate BroughtBack(files: Files, snapshots: map<Path, Option<Bytes>>, pending: seq<PendingWrite>, undos: seq<Undo>, p: Path)
    requires |undos| < |pending| && p in Paths(pending[..|undos|]) && p in snapshots
  {
    match LastUndo(Paths(pending[..|undos|]), undos, p).value
    case Undone => SnapshotTrue(files, snapshots, p)
    case Stuck(left) => left == Get(files, p)
  }

  lemma WriteFaultReads(files: Files, snapshots: map<Path, Option<Bytes>>, pending: seq<PendingWrite>, k: nat, left: Option<Bytes>,
                        undos: seq<Undo>, p: Path)
    requires k == |undos| < |pending| && Covered(snapshots, pending)
    ensures Get(AfterWriteFault(files, snapshots, pending, k, left, undos), p)
         == (if p in Paths(pending[..k]) then UndoneTo(LastUndo(Paths(pending[..k]), undos, p).value, snapshots[p])
             else if p == pending[k].path then left
             else Get(files, p))
  {
    var broken := Put(ApplyWrites(files, pending[..k]), pending[k].path, left);
    RestoreReads(broken, snapshots, Paths(pending[..k]), undos, p);
    ApplyWritesReads(files, pending[..k], p);
  }

  lemma PathOf(pending: seq<PendingWrite>, k: nat, i: nat)
    requires i < k <= |pending|
    ensures pending[i].path in Paths(pending[..k])
  {
    assert Paths(pending[..k])[i] == pending[i].path;
  }

  /** A failed write restores the whole file map exactly when every path written before it is brought
      back and the failing write did not change its target, or its target had been written before
      anyway. */
  lemma FailedWriteRestoresIff(files: Files, snapshots: map<Path, Option<Bytes>>, pending: seq<PendingWrite>, k: nat, left: Option<Bytes>,
                               undos: seq<Undo>)
    requires k == |undos| < |pending| && Covered(snapshots, pending)
    ensures forall i :: 0 <= i < k ==> pending[i].path in Paths(pending[..k])
    ensures AfterWriteFault(files, snapshots, pending, k, left, undos) == files
       <==> (&& (forall i :: 0 <= i < k ==> BroughtBack(files, snapshots, pending, undos, pending[i].path))
             && (pending[k].path in Paths(pending[..k]) || left == Get(files, pending[k].path)))
  {
    var after := AfterWriteFault(files, snapshots, pending, k, left, undos);
    forall p { WriteFaultReads(files, snapshots, pending, k, left, undos, p); }
    forall i | 0 <= i < k ensures pending[i].path in Paths(pending[..k]) { PathOf(pending, k, i); }
    if after != files {
      if forall p :: Get(after, p) == Get(files, p) { SameReads(after, files); }
      var p :| Get(after, p) != Get(files, p);
      if p in Paths(pending[..k]) {
        var i :| 0 <= i < k && Paths(pending[..k])[i] == p;
        assert !BroughtBack(files, snapshots, pending, undos, pending[i].path);
      }
    }
  }

  /** A directory that cannot be created ends the commit without rollback: the writes made so far
      stay, so nothing changed exactly when each of them wrote what was already there. */
  lemma DirFaultKeepsEarlierWrites(files: Files, pending: seq<PendingWrite>, k: nat)
    requires k <= |pending|
    ensures ApplyWrites(files, pending[..k]) == files
       <==> forall p :: p in Paths(pending[..k]) ==> LastWrite(pending[..k], p) == Get(files, p)
  {
    var after := ApplyWrites(files, pending[..k]);
    forall p { ApplyWritesReads(files, pending[..k], p); }
    if forall p :: p in Paths(pending[..k]) ==> LastWrite(pending[..k], p) == Get(files, p) {
      SameReads(after, files);
    }
  }

  // Staging.

  datatype Staging = Edit(path: Path, content: Bytes) | Create(path: Path, content: Bytes)

  datatype Staged = Staged(snapshots: map<Path, Option<Bytes>>, pending: seq<PendingWrite>)

  /** One staging call: an edit of a file that is neither staged nor there is refused. */
  function StageOne(files: Files, st: Staged, op: Staging): Staged {
    match op
    case Edit(p, c) =>
      if p in st.snapshots then Staged(st.snapshots, st.pending + [PendingWrite(p, c, false)])
      else if p in files then Staged(st.snapshots[p := Some(files[p])], st.pending + [PendingWrite(p, c, false)])
      else st
    case Create(p, c) =>
      Staged(if p in st.snapshots then st.snapshots else st.snapshots[p := None], st.pending + [PendingWrite(p, c, true)])
  }

  function StageAll(files: Files, ops: seq<Staging>): Staged {
    if ops == [] then Staged(map[], []) else StageOne(files, StageAll(files, ops[..|ops| - 1]), ops[|ops| - 1])
  }

  /** The first call that names `p` stages its creation. */
  ghost predicate CreatedFirst(ops: seq<Staging>, p: Path) {
    exists i :: 0 <= i < |ops| && ops[i].Create? && ops[i].path == p && forall j :: 0 <= j < i ==> ops[j].path != p
  }

  /** What staging records of each path. */
  lemma {:induction false} StagedSnapshots(files: Files, ops: seq<Staging>, p: Path)
    ensures var st := StageAll(files, ops);
            && Covered(st.snapshots, st.pending)
            && (p in st.snapshots ==> st.snapshots[p] == if CreatedFirst(ops, p) then None else Get(files, p))
            && ((exists j :: 0 <= j < |ops| && ops[j].path == p) && p in files ==> p in st.snapshots)
            && ((exists j :: 0 <= j < |ops| && ops[j].path == p && ops[j].Create?) ==> p in st.snapshots)
            && (p in st.snapshots ==> exists j :: 0 <= j < |ops| && ops[j].path == p)
  {
    if ops != [] {
      var front, last := ops[..|ops| - 1], ops[|ops| - 1];
      StagedSnapshots(files, front, p);
      assert forall j :: 0 <= j < |front| ==> front[j] == ops[j];
      CreatedFirstStep(ops, p);
    }
  }

  lemma CreatedFirstStep(ops: seq<Staging>, p: Path)
    requires ops != []
    ensures var front, last := ops[..|ops| - 1], ops[|ops| - 1];
            CreatedFirst(ops, p) <==>
              CreatedFirst(front, p) || (last.Create? && last.path == p && forall j :: 0 <= j < |front| ==> front[j].path != p)
  {
    var front := ops[..|ops| - 1];
    assert forall j :: 0 <= j < |front| ==> front[j] == ops[j];
    if CreatedFirst(front, p) {
      var i :| 0 <= i < |front| && front[i].Create? && front[i].path == p && forall j :: 0 <= j < i ==> front[j].path != p;
      assert ops[i].Create? && ops[i].path == p && forall j :: 0 <= j < i ==> ops[j].path != p;
    }
  }

  /** For every sequence of staging calls on unchanged files: when a later write of the commit fails
      and the rollback works, it restores all files exactly when no file written before existed
      although its creation was staged first, and the failing write left its target alone or had it
      rolled back. Where undoing a write fails, it has to leave what the file was. */
  lemma StagedCommitRestoresIff(files: Files, ops: seq<Staging>, k: nat, left: Option<Bytes>, undos: seq<Undo>)
    requires k == |undos| < |StageAll(files, ops).pending|
    ensures var st := StageAll(files, ops);
            && (forall i :: 0 <= i < k ==> st.pending[i].path in Paths(st.pending[..k]))
            && (AfterWriteFault(files, st.snapshots, st.pending, k, left, undos) == files <==>
                (&& (forall i :: 0 <= i < k ==>
                       match LastUndo(Paths(st.pending[..k]), undos, st.pending[i].path).value
                       case Undone => !(st.pending[i].path in files && CreatedFirst(ops, st.pending[i].path))
                       case Stuck(rest) => rest == Get(files, st.pending[i].path))
                 && (st.pending[k].path in Paths(st.pending[..k]) || left == Get(files, st.pending[k].path))))
  {
    var st := StageAll(files, ops);
    StagedSnapshots(files, ops, "");
    FailedWriteRestoresIff(files, st.snapshots, st.pending, k, left, undos);
    forall i | 0 <= i < k
      ensures SnapshotTrue(files, st.snapshots, st.pending[i].path)
         <==> !(st.pending[i].path in files && CreatedFirst(ops, st.pending[i].path))
    {
      StagedSnapshots(files, ops, st.pending[i].path);
    }
  }

  // What a commit without faults leaves.

  /** The call is accepted: it creates the file, or the file is there or created by an earlier call. */
  ghost predicate Accepts(files: Files, ops: seq<Staging>, i: nat)
    requires i < |ops|
  {
    ops[i].Create? || ops[i].path in files || exists j :: 0 <= j < i && ops[j].Create? && ops[j].path == ops[i].path
  }

  /** `i` is the last accepted call for `p`. */
  ghost predicate LastCall(files: Files, ops: seq<Staging>, p: Path, i: nat) {
    && i < |ops| && ops[i].path == p && Accepts(files, ops, i)
    && forall j :: i < j < |ops| && ops[j].path == p ==> !Accepts(files, ops, j)
  }

  lemma {:induction false} SnapshotIff(files: Files, ops: seq<Staging>, p: Path)
    ensures p in StageAll(files, ops).snapshots <==> exists i :: 0 <= i < |ops| && ops[i].path == p && Accepts(files, ops, i)
  {
    if ops != [] {
      var last := |ops| - 1;
      SnapshotIff(files, ops[..last], p);
      SnapshotIff(files, ops[..last], ops[last].path);
      forall i | 0 <= i < last ensures Accepts(files, ops[..last], i) <==> Accepts(files, ops, i) { AcceptsInFront(files, ops, i); }
      LastAccepted(files, ops);
    }
  }

  lemma AcceptsInFront(files: Files, ops: seq<Staging>, i: nat)
    requires i < |ops| - 1
    ensures Accepts(files, ops[..|ops| - 1], i) <==> Accepts(files, ops, i)
  {
    assert forall j :: 0 <= j < |ops| - 1 ==> ops[..|ops| - 1][j] == ops[j];
  }

  /** The last call is accepted exactly when staging accepts it. */
  lemma LastAccepted(files: Files, ops: seq<Staging>)
    requires ops != []
    requires var last := |ops| - 1; var p := ops[last].path;
             p in StageAll(files, ops[..last]).snapshots <==> exists i :: 0 <= i < last && ops[..last][i].path == p && Accepts(files, ops[..last], i)
    ensures var last := |ops| - 1;
            Accepts(files, ops, last) <==> ops[last].Create? || ops[last].path in files || ops[last].path in StageAll(files, ops[..last]).snapshots
  {
    var last := |ops| - 1;
    if j :| 0 <= j < last && ops[j].Create? && ops[j].path == ops[last].path {
      assert ops[..last][j] == ops[j] && Accepts(files, ops[..last], j);
    }
    if i :| 0 <= i < last && ops[..last][i].path == ops[last].path && Accepts(files, ops[..last], i) {
      AcceptsInFront(files, ops, i);
    }
  }

  lemma {:induction false} StagedLast(files: Files, ops: seq<Staging>, p: Path)
    ensures var w := LastWrite(StageAll(files, ops).pending, p);
            && (w.Some? ==> exists i: nat :: LastCall(files, ops, p, i) && w.value == ops[i].content)
            && (w.None? ==> forall i: nat :: !LastCall(files, ops, p, i))
  {
    if ops != [] {
      var last := |ops| - 1;
      var front := ops[..last];
      StagedLast(files, front, p);
      SnapshotIff(files, front, ops[last].path);
      LastAccepted(files, ops);
      StagedStep(files, ops, p);
      if ops[last].path == p && Accepts(files, ops, last) {
        assert LastCall(files, ops, p, last);
      } else {
        forall i: nat ensures LastCall(files, ops, p, i) <==> LastCall(files, front, p, i) { LastCallInFront(files, ops, p, i); }
      }
    }
  }

  lemma StagedStep(files: Files, ops: seq<Staging>, p: Path)
    requires ops != []
    requires var last := |ops| - 1;
             Accepts(files, ops, last) <==> ops[last].Create? || ops[last].path in files || ops[last].path in StageAll(files, ops[..last]).snapshots
    ensures var last := |ops| - 1;
            LastWrite(StageAll(files, ops).pending, p) ==
              if ops[last].path == p && Accepts(files, ops, last) then Some(ops[last].content)
              else LastWrite(StageAll(files, ops[..last]).pending, p)
  {
    var before := StageAll(files, ops[..|ops| - 1]).pending;
    var w := PendingWrite(ops[|ops| - 1].path, ops[|ops| - 1].content, ops[|ops| - 1].Create?);
    assert (before + [w])[..|before|] == before;
  }

  lemma LastCallInFront(files: Files, ops: seq<Staging>, p: Path, i: nat)
    requires ops != [] && !(ops[|ops| - 1].path == p && Accepts(files, ops, |ops| - 1))
    ensures LastCall(files, ops, p, i) <==> LastCall(files, ops[..|ops| - 1], p, i)
  {
    var last := |ops| - 1;
    forall j: nat | j < last ensures Accepts(files, ops[..last], j) <==> Accepts(files, ops, j) { AcceptsInFront(files, ops, j); }
  }

  lemma OneLastCall(files: Files, ops: seq<Staging>, p: Path, i: nat, j: nat)
    requires LastCall(files, ops, p, i) && LastCall(files, ops, p, j)
    ensures i == j
  {
  }

  /** After any staging calls and a commit that meets no fault, a path reads the content of the last
      accepted call that names it, and what it read before if there is none. */
  lemma CommitDeliversCalls(files: Files, ops: seq<Staging>, p: Path)
    ensures var after := ApplyWrites(files, StageAll(files, ops).pending);
            && (forall i: nat :: LastCall(files, ops, p, i) ==> Get(after, p) == Some(ops[i].content))
            && ((forall i: nat :: !LastCall(files, ops, p, i)) ==> Get(after, p) == Get(files, p))
  {
    StagedLast(files, ops, p);
    ApplyWritesReads(files, StageAll(files, ops).pending, p);
    forall i: nat, j: nat | LastCall(files, ops, p, i) && LastCall(files, ops, p, j) ensures i == j { OneLastCall(files, ops, p, i, j); }
  }

  class FileSystem {
    var files: Files

    constructor (initial: Files)
      ensures files == initial
    {
      files := initial;
    }

    method Write(p: Path, c: Bytes, fault: Fault) returns (ok: bool)
      modifies this
      ensures ok == !fault.WriteFault?
      ensures files == (match fault case WriteFault(left) => Put(old(files), p, left) case _ => old(files)[p := c])
    {
      match fault
      case WriteFault(left) =>
        files := Put(files, p, left);
        ok := false;
      case _ =>
        files := files[p := c];
        ok := true;
    }
  }

  class TransactionalWriter {
    var snapshots: map<Path, Option<Bytes>>
    var pending: seq<PendingWrite>
    var committed: bool

    ghost predicate Valid()
      reads this
    {
      Covered(snapshots, pending)
    }

    /** Every snapshot tells what the file holds now. */
    ghost predicate Faithful(files: Files)
      reads this
    {
      forall p :: p in snapshots ==> SnapshotTrue(files, snapshots, p)
    }

    constructor ()
      ensures Valid() && pending == [] && snapshots == map[] && !committed
    {
      snapshots, pending, committed := map[], [], false;
    }

    method StageEdit(fs: FileSystem, path: Path, content: Bytes) returns (ok: bool)
      requires Valid()
      modifies this
      ensures Valid() && committed == old(committed)
      ensures Staged(snapshots, pending) == StageOne(fs.files, old(Staged(snapshots, pending)), Edit(path, content))
      ensures ok == (path in old(snapshots) || path in fs.files)
      ensures ok ==> pending == old(pending) + [PendingWrite(path, content, false)]
      ensures !ok ==> pending == old(pending) && snapshots == old(snapshots)
      ensures path in old(snapshots) ==> snapshots == old(snapshots)
      ensures old(Faithful(fs.files)) ==> Faithful(fs.files)
    {
      if path !in snapshots {
        if path !in fs.files { return false; }
        snapshots := snapshots[path := Some(fs.files[path])];
      }
      pending := pending + [PendingWrite(path, content, false)];
      ok := true;
    }

    /** Records that the file did not exist, without looking. */
    method StageCreate(path: Path, content: Bytes, ghost files: Files)
      requires Valid()
      modifies this
      ensures Valid() && committed == old(committed)
      ensures Staged(snapshots, pending) == StageOne(files, old(Staged(snapshots, pending)), Create(path, content))
      ensures pending == old(pending) + [PendingWrite(path, content, true)]
      ensures snapshots == (if path in old(snapshots) then old(snapshots) else old(snapshots)[path := None])
      ensures old(Faithful(files)) ==> (Faithful(files) <==> path in old(snapshots) || path !in files)
    {
      if path !in snapshots {
        snapshots := snapshots[path := None];
        assert snapshots[path] == None;
      }
      pending := pending + [PendingWrite(path, content, true)];
    }

    /** `rollback_files`, given what becomes of each attempt: a failure does not end the loop. */
    method RollbackFiles(fs: FileSystem, written: seq<Path>, undos: seq<Undo>)
      requires |undos| == |written|
      modifies fs
      ensures fs.files == Restore(old(fs.files), snapshots, written, undos)
    {
      for i := 0 to |written|
        invariant fs.files == Restore(old(fs.files), snapshots, written[..i], undos[..i])
      {
        assert written[..i + 1][..i] == written[..i] && undos[..i + 1][..i] == undos[..i];
        var p := written[i];
        if p in snapshots {
          match undos[i]
          case Undone => fs.files := Put(fs.files, p, snapshots[p]);
          case Stuck(left) => fs.files := Put(fs.files, p, left);
        }
      }
      assert written[..|written|] == written && undos[..|undos|] == undos;
    }

    /** `commit`, given what goes wrong: `stagedDirFault` for the directories made first, then one
        fault per staged write, and what undoing that write would come to. */
    method Commit(fs: FileSystem, stagedDirFault: bool, faults: seq<Fault>, undos: seq<Undo>) returns (result: Result)
      requires Valid() && |faults| == |undos| == |pending|
      modifies this, fs
      ensures snapshots == old(snapshots) && pending == old(pending)
      ensures committed == (result == Committed || old(committed))
      ensures stagedDirFault ==> result == DirError && fs.files == old(fs.files)
      ensures !stagedDirFault ==>
        var k := FirstFault(faults);
        if k == |faults| then result == Committed && fs.files == ApplyWrites(old(fs.files), pending)
        else if faults[k] == DirFault then result == DirError && fs.files == ApplyWrites(old(fs.files), pending[..k])
        else result == WriteError && fs.files == AfterWriteFault(old(fs.files), snapshots, pending, k, faults[k].left, undos[..k])
      ensures old(Faithful(fs.files)) && result == WriteError && (forall i :: 0 <= i < |undos| ==> undos[i] == Undone)
        && (forall i :: 0 <= i < |faults| && faults[i].WriteFault? ==> faults[i].left == Get(ApplyWrites(old(fs.files), pending[..i]), pending[i].path))
        ==> fs.files == old(fs.files)
    {
      if stagedDirFault { return DirError; }
      ghost var before := fs.files;
      ghost var k := FirstFault(faults);
      var written: seq<Path> := [];
      for i := 0 to |pending|
        invariant i <= k && committed == old(committed)
        invariant snapshots == old(snapshots) && pending == old(pending)
        invariant fs.files == ApplyWrites(before, pending[..i]) && written == Paths(pending[..i])
      {
        if faults[i] == DirFault { return DirError; }
        var ok := fs.Write(pending[i].path, pending[i].content, faults[i]);
        if !ok {
          RollbackFiles(fs, written, undos[..i]);
          FailedWriteRestoresIff(before, snapshots, pending, i, faults[i].left, undos[..i]);
          ApplyWritesReads(before, pending[..i], pending[i].path);
          return WriteError;
        }
        assert pending[..i + 1][..i] == pending[..i];
        assert Paths(pending[..i + 1]) == Paths(pending[..i]) + [pending[i].path];
        written := written + [pending[i].path];
      }
      assert pending[..|pending|] == pending;
      committed := true;
      result := Committed;
    }
  }

  /** Staging a creation over an existing file breaks the promise: the rollback deletes the file. */
  lemma CreateOverExistingIsDeleted(was: Bytes, staged: Bytes)
    ensures var files: Files := map["a" := was];
            var pending := [PendingWrite("a", staged, true), PendingWrite("b", staged, true)];
            AfterWriteFault(files, map["a" := None, "b" := None], pending, 1, None, [Undone]) == map[]
  {
    var files: Files := map["a" := was];
    var pending := [PendingWrite("a", staged, true), PendingWrite("b", staged, true)];
    var snapshots: map<Path, Option<Bytes>> := map["a" := None, "b" := None];
    var after := AfterWriteFault(files, snapshots, pending, 1, None, [Undone]);
    forall p ensures Get(after, p) == None {
      WriteFaultReads(files, snapshots, pending, 1, None, [Undone], p);
      assert Paths(pending[..1]) == ["a"];
    }
    SameReads(after, map[]);
  }

  /** An attempt at undoing that fails is ignored: the first write stays though the second failed. */
  lemma FailedUndoIsIgnored(was: Bytes, staged: Bytes)
    ensures var pending := [PendingWrite("a", staged, false), PendingWrite("b", staged, true)];
            AfterWriteFault(map["a" := was], map["a" := Some(was), "b" := None], pending, 1, None, [Stuck(Some(staged))]) == map["a" := staged]
  {
    var pending := [PendingWrite("a", staged, false), PendingWrite("b", staged, true)];
    var snapshots: map<Path, Option<Bytes>> := map["a" := Some(was), "b" := None];
    var undos := [Stuck(Some(staged))];
    var after := AfterWriteFault(map["a" := was], snapshots, pending, 1, None, undos);
    forall p ensures Get(after, p) == Get(map["a" := staged], p) {
      WriteFaultReads(map["a" := was], snapshots, pending, 1, None, undos, p);
      assert Paths(pending[..1]) == ["a"];
    }
    SameReads(after, map["a" := staged]);
  }

  /** A write that fails half way leaves its own target as it got it: it is not rolled back. */
  lemma FailedTargetIsNotRestored(was: Bytes, staged: Bytes, half: Bytes)
    ensures AfterWriteFault(map["a" := was], map["a" := Some(was)], [PendingWrite("a", staged, false)], 0, Some(half), []) == map["a" := half]
  {
    var pending := [PendingWrite("a", staged, false)];
    assert Paths(pending[..0]) == [] && pending[..0] == [];
  }

  /** A directory that cannot be created for the second file leaves the first one written. */
  lemma DirFaultIsNotRolledBack(was: Bytes, staged: Bytes)
    ensures var pending := [PendingWrite("a", staged, false), PendingWrite("d/b", staged, true)];
            ApplyWrites(map["a" := was], pending[..1]) == map["a" := staged]
  {
    var pending := [PendingWrite("a", staged, false), PendingWrite("d/b", staged, true)];
    assert pending[..1][..0] == [] && pending[..1][0] == pending[0];
  }
}
