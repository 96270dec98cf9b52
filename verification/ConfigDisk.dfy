/**
 The config directory under crashes. Names map to inodes and inodes to bytes. Beside what a
 running process sees, the disk keeps what a power loss may leave: the directory images since
 the last directory fsync, and the contents each inode has had since its own fsync. Directory
 updates reach the disk in order; file contents need not.
 */
module ConfigDisk {
  import opened Optional

  /** `Temporary` stands for the current `.config.toml.tmp.*` file; orphans of it are not kept. */
  datatype Name = Config | Replacement | Marker | Committed | Temporary

  type Inode = nat
  type Dir = map<Name, Inode>
  type Contents = map<Inode, set<string>>

  datatype Disk = Disk(entries: Dir, data: map<Inode, string>, images: set<Dir>, versions: Contents, next: Inode)

  ghost predicate DiskOk(d: Disk) {
    && d.entries in d.images
    && d.data.Keys == d.versions.Keys
    && (forall i :: i in d.data ==> i < d.next && d.data[i] in d.versions[i])
    && (forall e, n :: e in d.images && n in e ==> e[n] in d.data)
  }

  function Read(d: Disk, name: Name): Option<string> {
    if name in d.entries && d.entries[name] in d.data then Some(d.data[d.entries[name]]) else None
  }

  // ---------------------------------------------------------------- single system calls

  function Enter(d: Disk, entries: Dir): Disk {
    d.(entries := entries, images := d.images + {entries})
  }

  function Unlink(d: Disk, name: Name): Disk {
    Enter(d, d.entries - {name})
  }

  function Rename(d: Disk, from: Name, to: Name): Disk
    requires from in d.entries
  {
    Enter(d, (d.entries - {from})[to := d.entries[from]])
  }

  function Exchange(d: Disk, first: Name, second: Name): Disk
    requires first in d.entries && second in d.entries
  {
    Enter(d, d.entries[first := d.entries[second]][second := d.entries[first]])
  }

  function Create(d: Disk, name: Name): Disk {
    Enter(d.(data := d.data[d.next := ""], versions := d.versions[d.next := {""}], next := d.next + 1),
          d.entries[name := d.next])
  }

  function Write(d: Disk, inode: Inode, bytes: string): Disk
    requires inode in d.versions
  {
    d.(data := d.data[inode := bytes], versions := d.versions[inode := d.versions[inode] + {bytes}])
  }

  function SyncFile(d: Disk, inode: Inode): Disk
    requires inode in d.data
  {
    d.(versions := d.versions[inode := {d.data[inode]}])
  }

  function SyncDirectory(d: Disk): Disk {
    d.(images := {d.entries})
  }

  datatype Call =
    | UnlinkCall(name: Name)
    | RenameCall(from: Name, to: Name)
    | ExchangeCall(first: Name, second: Name)
    | CreateCall(name: Name)
    | WriteCall(inode: Inode, bytes: string)
    | SyncFileCall(inode: Inode)
    | SyncDirectoryCall

  predicate Possible(d: Disk, call: Call) {
    match call
    case RenameCall(from, _) => from in d.entries
    case ExchangeCall(first, second) => first in d.entries && second in d.entries
    case WriteCall(inode, _) => inode in d.versions
    case SyncFileCall(inode) => inode in d.data
    case _ => true
  }

  function Perform(d: Disk, call: Call): Disk
    requires Possible(d, call)
  {
    match call
    case UnlinkCall(name) => Unlink(d, name)
    case RenameCall(from, to) => Rename(d, from, to)
    case ExchangeCall(first, second) => Exchange(d, first, second)
    case CreateCall(name) => Create(d, name)
    case WriteCall(inode, bytes) => Write(d, inode, bytes)
    case SyncFileCall(inode) => SyncFile(d, inode)
    case SyncDirectoryCall => SyncDirectory(d)
  }

  /** What the disk may hold after power returns. */
  ghost predicate PowerLoss(d: Disk, after: Disk) {
    && after.entries in d.images && after.images == {after.entries}
    && after.data.Keys == d.data.Keys && after.next == d.next
    && (forall i :: i in d.data ==> i in d.versions && after.data[i] in d.versions[i])
    && after.versions.Keys == after.data.Keys
    && (forall i :: i in after.data ==> after.versions[i] == {after.data[i]})
  }

  /** One of the disks a power loss may leave: this image, and of each file what was written last. */
  function Left(d: Disk, e: Dir): Disk {
    Disk(e, d.data, {e}, map i | i in d.data :: {d.data[i]}, d.next)
  }

  lemma LeftByPowerLoss(d: Disk, e: Dir)
    requires DiskOk(d) && e in d.images
    ensures PowerLoss(d, Left(d, e))
  {
  }

  /** Every name that denotes this inode, in any image, is `name`: writing to it shows nowhere else. */
  ghost predicate Private(d: Disk, name: Name, inode: Inode) {
    && name in d.entries && d.entries[name] == inode
    && inode in d.data && inode in d.versions
    && forall e, n :: e in d.images && n in e && e[n] == inode ==> n == name
  }

  // ---------------------------------------------------------------- layouts of one directory image

  /** `name` is present and its bytes are certain. */
  ghost predicate Is(e: Dir, v: Contents, name: Name, bytes: string) {
    name in e && e[name] in v && v[e[name]] == {bytes}
  }

  ghost predicate Holds(e: Dir, v: Contents, name: Name, bytes: Option<string>) {
    match bytes
    case None => name !in e
    case Some(b) => Is(e, v, name, b)
  }

  lemma ReadIs(d: Disk, name: Name, bytes: string)
    requires DiskOk(d) && Is(d.entries, d.versions, name, bytes)
    ensures Read(d, name) == Some(bytes)
  {
    assert d.data[d.entries[name]] in d.versions[d.entries[name]];
  }

  lemma ReadHolds(d: Disk, name: Name, bytes: Option<string>)
    requires DiskOk(d) && Holds(d.entries, d.versions, name, bytes)
    ensures Read(d, name) == bytes
  {
    if bytes.Some? { ReadIs(d, name, bytes.value); }
  }

  lemma ReadNone(d: Disk, name: Name)
    requires DiskOk(d)
    ensures Read(d, name).None? <==> name !in d.entries
  {
  }
}
