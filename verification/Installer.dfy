/** `QuadletInstaller`: snapshot, atomic write and removal of one Quadlet, as loops over fallible system calls. */
module Installer {
  import opened Text
  import opened Machine
  import opened Environment

  /** `write_all`: on success the file holds the contents; on failure a prefix of them. */
  method WriteAll(w: Host, d: nat, contents: string) returns (ok: bool)
    requires w.Valid() && d < |w.s.ds| && w.s.ds[d].phase.Filling? && w.s.ds[d].phase.ino in w.s.fs.data
    requires w.s.fs.data[w.s.ds[d].phase.ino] == "" && contents == TextFor(w.s.ds[d], w.s.ds[d].phase.goal)
    modifies w`s, w`run, w`interrupts, w`faults, w`taken
    ensures w.Valid() && d < |w.s.ds| && w.s.ds[d] == old(w.s.ds[d]) && w.s.ds[d].phase.ino in w.s.fs.data
    ensures w.s.fs.data[w.s.ds[d].phase.ino] <= contents
    ensures ok <==> w.s.fs.data[w.s.ds[d].phase.ino] == contents
    ensures w.faults == old(w.faults) + (if ok then 0 else 1) && w.taken == old(w.taken)
  {
    var rest := contents;
    ghost var x, done := w.s.ds[d], "";
    while rest != ""
      invariant w.Valid() && d < |w.s.ds| && w.s.ds[d] == x && x.phase.ino in w.s.fs.data
      invariant w.s.fs.data[x.phase.ino] == done && done + rest == contents
      invariant w.faults == old(w.faults) && w.taken == old(w.taken)
      decreases |rest| + w.interrupts
    {
      var r := w.Write(d, rest);
      match r {
        case WriteInterrupted =>
        case WriteFailed => return false;
        case Wrote(n) =>
          MoveOver(done, rest, n);
          done, rest := done + rest[..n], rest[n..];
      }
    }
    ok := true;
  }

  lemma MoveOver(done: string, rest: string, n: nat)
    requires n <= |rest|
    ensures done + rest[..n] + rest[n..] == done + rest
  {
    assert rest == rest[..n] + rest[n..];
  }

  /** The loop over candidate names of `atomic_write_file`. */
  method OpenTemp(w: Host, d: nat) returns (ok: bool)
    requires w.Valid() && d < |w.s.ds| && w.s.ds[d].phase.Opening? && w.s.ds[d].phase.attempt == 0
    modifies w`s, w`run, w`interrupts, w`faults, w`taken
    ensures w.Valid() && d < |w.s.ds|
    ensures var x, y := old(w.s.ds[d]), w.s.ds[d];
      if ok then
        && y.phase.Filling? && y == x.(phase := Filling(x.phase.goal, y.phase.attempt, y.phase.ino))
        && y.phase.ino in w.s.fs.data && w.s.fs.data[y.phase.ino] == ""
      else y == FailWrite(x, x.phase.goal) && AtReturn(w.s, d)
    ensures if ok then w.faults == old(w.faults) else w.faults > old(w.faults) || w.taken == old(w.taken) + 100
    ensures w.faults >= old(w.faults) && w.taken >= old(w.taken)
  {
    var attempt := 0;
    ghost var goal := w.s.ds[d].phase.goal;
    while attempt < MAX_ATTEMPTS
      invariant 0 <= attempt <= MAX_ATTEMPTS
      invariant w.Valid() && d < |w.s.ds|
      invariant w.faults == old(w.faults) && w.taken == old(w.taken) + attempt
      invariant w.s.ds[d] == if attempt < MAX_ATTEMPTS then old(w.s.ds[d]).(phase := Opening(goal, attempt))
                             else FailWrite(old(w.s.ds[d]), goal)
      invariant attempt == MAX_ATTEMPTS ==> AtReturn(w.s, d)
    {
      var r := w.OpenExclusive(d);
      match r {
        case Opened => return true;
        case OpenFailed => return false;
        case NameTaken => attempt := attempt + 1;
      }
    }
    ok := false;
  }

  /** `atomic_write_file`: success only with the new text in place and the directory fsynced. */
  method AtomicWriteFile(w: Host, d: nat, contents: string) returns (ok: bool)
    requires w.Valid() && d < |w.s.ds| && w.s.ds[d].phase.Opening? && w.s.ds[d].phase.attempt == 0
    requires contents == TextFor(w.s.ds[d], w.s.ds[d].phase.goal)
    modifies w`s, w`run, w`interrupts, w`faults, w`taken
    ensures w.Valid() && d < |w.s.ds|
    ensures var x := old(w.s.ds[d]); var goal := x.phase.goal;
      && (ok ==> w.s.ds[d] == x.(phase := Reloading(goal)))
      && (!ok ==> AtReturn(w.s, d))
      && (!ok ==>
            || w.s.ds[d] == FailWrite(x, goal)
            || w.s.ds[d] == x.(phase := Done(if goal.Install? then InstallUnsynced else RestoreFailed(false))))
    ensures if ok then w.faults == old(w.faults) else w.faults > old(w.faults) || w.taken >= old(w.taken) + 100
    ensures w.faults >= old(w.faults) && w.taken >= old(w.taken)
  {
    var created := OpenTemp(w, d);
    if !created {
      return false;
    }
    var written := WriteAll(w, d, contents);
    if !written {
      w.DiscardTemp(d);
      return false;
    }
    var synced := w.FsyncFile(d);
    if !synced {
      w.DiscardTemp(d);
      return false;
    }
    var renamed := w.RenameToFinal(d);
    if !renamed {
      w.DiscardTemp(d);
      return false;
    }
    ok := w.FsyncDirectory(d);
  }

  /** `read_regular_file_no_symlink`: the whole file, or an error. */
  method ReadWhole(w: Host, d: nat, size: nat) returns (r: Option<string>)
    requires w.Valid() && d < |w.s.ds| && w.s.ds[d].phase.Holding?
    requires w.s.ds[d].entry.Some? && size == |w.s.ds[d].entry.value|
    modifies w`s, w`run, w`interrupts, w`faults, w`taken
    ensures w.Valid() && d < |w.s.ds| && w.s.ds[d] == old(w.s.ds[d])
    ensures r.Some? ==> r == w.s.ds[d].entry && size <= w.c.maxBytes
    ensures if r.Some? then w.faults == old(w.faults) else w.faults > old(w.faults) || size > w.c.maxBytes
    ensures w.faults >= old(w.faults) && w.taken == old(w.taken)
  {
    if size > w.c.maxBytes {
      return None;
    }
    var out := "";
    while |out| < size
      invariant |out| <= size
      invariant w.Valid() && d < |w.s.ds| && w.s.ds[d] == old(w.s.ds[d])
      invariant out == w.s.ds[d].entry.value[..|out|]
      invariant w.faults == old(w.faults) && w.taken == old(w.taken)
      decreases size - |out| + w.interrupts
    {
      var chunk := w.ReadFile(d, |out|, size - |out|);
      match chunk {
        case ReadInterrupted =>
        case ReadFailed => return None;
        case Got(bytes) => out := out + bytes;
      }
    }
    assert out == w.s.ds[d].entry.value;
    r := Some(out);
  }

  /** `snapshot_for_user`: absence, or the complete contents, of the installed Quadlet. */
  method SnapshotForUser(w: Host, d: nat) returns (ok: bool, snapshot: Option<string>)
    requires w.Valid() && d < |w.s.ds| && w.s.ds[d].phase.Holding?
    modifies w`s, w`run, w`interrupts, w`faults, w`taken
    ensures w.Valid() && d < |w.s.ds|
    ensures ok ==> snapshot == old(w.s.ds[d].entry)
    ensures ok ==> w.s.ds[d] == old(w.s.ds[d]).(phase := Opening(Install, 0), snapshot := snapshot)
    ensures ok ==> w.faults == old(w.faults)
    ensures !ok ==>
      w.faults > old(w.faults) || (old(w.s.ds[d].entry).Some? && |old(w.s.ds[d].entry).value| > w.c.maxBytes)
    ensures w.faults >= old(w.faults) && w.taken == old(w.taken)
    ensures !ok ==> w.s.ds[d] == old(w.s.ds[d]).(phase := Done(Untouched)) && AtReturn(w.s, d)
  {
    snapshot := None;
    var fails := w.Fails();   // ensure_admin_tree
    if fails {
      w.Abandon(d);
      return false, None;
    }
    var stat, size := w.Lstat(d);
    if !stat {
      w.Abandon(d);
      return false, None;
    }
    if size.Some? {
      snapshot := ReadWhole(w, d, size.value);
      if snapshot.None? {
        w.Abandon(d);
        return false, None;
      }
    }
    w.NoteSnapshot(d);
    ok := true;
  }

  /** `unlink_quadlet_file`, restoring the absence of a Quadlet. */
  method UnlinkQuadletFile(w: Host, d: nat) returns (ok: bool)
    requires w.Valid() && d < |w.s.ds| && w.s.ds[d].phase.Removing?
    modifies w`s, w`run, w`interrupts, w`faults, w`taken
    ensures w.Valid() && d < |w.s.ds|
    ensures if ok then w.s.ds[d] == old(w.s.ds[d]).(phase := Reloading(Restore))
            else AtReturn(w.s, d) && exists applied :: w.s.ds[d] == old(w.s.ds[d]).(phase := Done(RestoreFailed(applied)))
    ensures if ok then w.faults == old(w.faults) else w.faults > old(w.faults) || w.taken >= old(w.taken) + 100
    ensures w.faults >= old(w.faults) && w.taken >= old(w.taken)
  {
    ok := w.UnlinkFinal(d);
    if ok {
      ok := w.FsyncDirectory(d);
    }
  }

  /** `restore_for_user`. */
  method RestoreForUser(w: Host, d: nat, snapshot: Option<string>) returns (ok: bool)
    requires w.Valid() && d < |w.s.ds| && snapshot == w.s.ds[d].snapshot
    requires w.s.ds[d].phase == if snapshot.Some? then Opening(Restore, 0) else Removing
    modifies w`s, w`run, w`interrupts, w`faults, w`taken
    ensures w.Valid() && d < |w.s.ds|
    ensures if ok then w.s.ds[d] == old(w.s.ds[d]).(phase := Reloading(Restore))
            else AtReturn(w.s, d) && exists applied :: w.s.ds[d] == old(w.s.ds[d]).(phase := Done(RestoreFailed(applied)))
    ensures if ok then w.faults == old(w.faults) else w.faults > old(w.faults) || w.taken >= old(w.taken) + 100
    ensures w.faults >= old(w.faults) && w.taken >= old(w.taken)
  {
    match snapshot {
      case None => ok := UnlinkQuadletFile(w, d);
      case Some(text) => ok := AtomicWriteFile(w, d, text);
    }
  }
}
