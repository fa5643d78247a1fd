/** Two layers of one file system: what running processes see, and what a power cut may leave.

    File data survives once the file was fsynced after its last write.  A directory entry survives once the
    directory was fsynced after its last change; until then a crash may bring back any entry the name had
    since that fsync, independently for every name. */
module Disk {
  import opened Text

  type Inode = nat

  datatype Path = Path(uid: nat, name: string)

  datatype Fs = Fs(
    entries: map<Path, Inode>,              // the visible directory entries
    past: map<Path, set<Option<Inode>>>,    // superseded entries not yet ruled out by a directory fsync
    data: map<Inode, string>,               // the visible contents of every inode ever created
    synced: set<Inode>,                     // inodes whose contents are on stable storage
    next: Inode)                            // the inode the next file created gets

  function Lookup(fs: Fs, p: Path): Option<Inode> {
    if p in fs.entries then Some(fs.entries[p]) else None
  }

  function TextOf(fs: Fs, c: Option<Inode>): Option<string> {
    if c.Some? && c.value in fs.data then Some(fs.data[c.value]) else None
  }

  /** The contents a reader sees at `p`, `None` when there is no file. */
  function Read(fs: Fs, p: Path): Option<string> {
    TextOf(fs, Lookup(fs, p))
  }

  function Past(fs: Fs, p: Path): set<Option<Inode>> {
    if p in fs.past then fs.past[p] else {}
  }

  /** Every entry `p` may have after a crash. */
  function Candidates(fs: Fs, p: Path): set<Option<Inode>> {
    Past(fs, p) + {Lookup(fs, p)}
  }

  /** Every text `p` may have after a crash, provided the candidates' data is synced. */
  function Survivors(fs: Fs, p: Path): set<Option<string>> {
    set c | c in Candidates(fs, p) :: TextOf(fs, c)
  }

  /** Changes one directory entry; the old one stays a candidate. */
  function SetEntry(fs: Fs, p: Path, c: Option<Inode>): Fs {
    fs.(entries := if c.Some? then fs.entries[p := c.value] else fs.entries - {p},
        past := fs.past[p := Candidates(fs, p)])
  }

  /** The inode `openat` with O_CREAT opens: that of the name if there is one, else a fresh one. */
  function InodeFor(fs: Fs, p: Path): Inode {
    if p in fs.entries then fs.entries[p] else fs.next
  }

  /** `openat` with O_CREAT.  That it is never done on a name that exists is O_EXCL, which the caller adds. */
  function Create(fs: Fs, p: Path): Fs {
    if p in fs.entries then fs else
    SetEntry(fs, p, Some(fs.next)).(data := fs.data[fs.next := ""], synced := fs.synced - {fs.next}, next := fs.next + 1)
  }

  /** One `write` that transferred `bytes`. */
  function Append(fs: Fs, i: Inode, bytes: string): Fs
    requires i in fs.data
  {
    fs.(data := fs.data[i := fs.data[i] + bytes], synced := fs.synced - {i})
  }

  /** `fsync` of a file. */
  function SyncFile(fs: Fs, i: Inode): Fs {
    fs.(synced := fs.synced + {i})
  }

  /** `renameat` within one directory, atomic for readers. */
  function Rename(fs: Fs, from: Path, to: Path): Fs {
    SetEntry(SetEntry(fs, to, Lookup(fs, from)), from, None)
  }

  function Unlink(fs: Fs, p: Path): Fs {
    SetEntry(fs, p, None)
  }

  /** `fsync` of the directory of one user. */
  function SyncDirectory(fs: Fs, uid: nat): Fs {
    fs.(past := map p | p in fs.past && p.uid != uid :: fs.past[p])
  }

  /** No entry, visible or resurrectable, names an inode that was never created. */
  ghost predicate WellFormed(fs: Fs) {
    && (forall p, i :: Some(i) in Candidates(fs, p) ==> i in fs.data)
    && (forall i <- fs.data :: i < fs.next)
  }

  /** `after` may be what a system crash of `fs` leaves: each name gets one of its candidates, synced data is
      intact, unsynced data is arbitrary, and what was found on disk is on disk. */
  ghost predicate CrashTo(fs: Fs, after: Fs) {
    && (forall p :: Lookup(after, p) in Candidates(fs, p))
    && after.data.Keys == fs.data.Keys == after.synced
    && (forall i <- fs.data :: i in fs.synced ==> after.data[i] == fs.data[i])
    && after.past == map[]
    && after.next == fs.next
  }
}
