/** saveToken and loadToken of internal/mcauth/token.go over a small file system: any number of
    savers and readers of one path interleave, any system call may fail, and the machine may crash
    at any step. A file's bytes are durable once synced; a directory entry becomes durable at a
    time of its own. Temp names are never reused. */
module TokenFiles {
  import opened Octets
  import opened Optional

  type Bytes = seq<byte>

  /** owner is auxiliary: the saver that created the file, None for the file found at start. */
  datatype Inode = Inode(content: Bytes, synced: bool, owner: Option<nat>)

  datatype SaverPc =
    | Creating
    | Chmodding
    | Writing
    | Syncing
    | Closing
    | Renaming
    | Cleaning(ok: bool)
    | Returned(ok: bool)
    | Killed

  /** One call of saveToken with the marshalled token. */
  datatype Saver = Saver(data: Bytes, pc: SaverPc, tmp: nat, ino: nat)

  datatype SaverAct = Create | Chmod | Write(n: nat) | Wrote | Sync | Close | Rename | Fails | Remove | RemoveFails

  /** One os.ReadFile of the path. */
  datatype Reader = Opening | Reading(ino: nat, got: Bytes) | Got(bytes: Bytes) | NotThere

  /** The directory: bindings[0] is the durable entry of path, the last one the present entry;
      those between may or may not survive a crash. */
  datatype Disk = Disk(
    inodes: seq<Inode>, temps: map<nat, nat>, bindings: seq<Option<nat>>, nextTmp: nat,
    savers: seq<Saver>, readers: seq<Reader>, leaked: set<nat>)

  datatype Act =
    | Call(data: Bytes)
    | Step(i: nat, a: SaverAct)
    | OpenPath
    | Look(j: nat)
    | ReadMore(j: nat, n: nat)
    | Flush(k: nat)
    | Crash(k: nat, garbage: seq<Bytes>, temps: map<nat, nat>)

  function Current(d: Disk): Option<nat>
    requires d.bindings != []
  {
    d.bindings[|d.bindings|-1]
  }

  function Init(found: Option<Bytes>): Disk {
    match found
    case None => Disk([], map[], [None], 0, [], [], {})
    case Some(bytes) => Disk([Inode(bytes, true, None)], map[], [Some(0)], 0, [], [], {})
  }

  function Moved(d: Disk, i: nat, pc: SaverPc): Disk
    requires i < |d.savers|
  {
    d.(savers := d.savers[i := d.savers[i].(pc := pc)])
  }

  /** A system call of saver i that succeeds, or Fails. */
  function NextSaver(d: Disk, i: nat, a: SaverAct): Option<Disk> {
    if i >= |d.savers| || (d.savers[i].pc != Creating && d.savers[i].ino >= |d.inodes|) then None
    else
      var me := d.savers[i];
      match (me.pc, a)
      case (Creating, Create) =>
        Some(d.(inodes := d.inodes + [Inode([], false, Some(i))],
                temps := d.temps[d.nextTmp := |d.inodes|],
                nextTmp := d.nextTmp + 1,
                savers := d.savers[i := me.(pc := Chmodding, tmp := d.nextTmp, ino := |d.inodes|)]))
      case (Creating, Fails) => Some(Moved(d, i, Returned(false)))
      case (Chmodding, Chmod) => Some(Moved(d, i, Writing))
      case (Writing, Write(n)) =>
        var file := d.inodes[me.ino];
        if |file.content| + n > |me.data| then None
        else Some(d.(inodes := d.inodes[me.ino :=
          file.(content := file.content + me.data[|file.content|..|file.content| + n], synced := false)]))
      case (Writing, Wrote) =>
        if |d.inodes[me.ino].content| == |me.data| then Some(Moved(d, i, Syncing)) else None
      case (Syncing, Sync) =>
        Some(Moved(d.(inodes := d.inodes[me.ino := d.inodes[me.ino].(synced := true)]), i, Closing))
      case (Closing, Close) => Some(Moved(d, i, Renaming))
      case (Renaming, Rename) =>
        if me.tmp in d.temps
        then Some(Moved(
          d.(temps := d.temps - {me.tmp}, bindings := d.bindings + [Some(d.temps[me.tmp])]), i, Cleaning(true)))
        else None
      case (Cleaning(ok), Remove) => Some(Moved(d.(temps := d.temps - {me.tmp}), i, Returned(ok)))
      case (Cleaning(ok), RemoveFails) =>
        Some(Moved(d.(leaked := if me.tmp in d.temps then d.leaked + {me.tmp} else d.leaked), i, Returned(ok)))
      case (Chmodding, Fails) => Some(Moved(d, i, Cleaning(false)))
      case (Writing, Fails) => Some(Moved(d, i, Cleaning(false)))
      case (Syncing, Fails) => Some(Moved(d, i, Cleaning(false)))
      case (Closing, Fails) => Some(Moved(d, i, Cleaning(false)))
      case (Renaming, Fails) => Some(Moved(d, i, Cleaning(false)))
      case _ => None
  }

  /** Bytes that were not synced come back as anything. */
  function Survived(inodes: seq<Inode>, garbage: seq<Bytes>): seq<Inode>
    requires |garbage| == |inodes|
  {
    seq(|inodes|, k requires 0 <= k < |inodes| =>
      if inodes[k].synced then inodes[k] else inodes[k].(content := garbage[k]))
  }

  function Struck(m: Saver): Saver {
    if m.pc.Returned? then m else m.(pc := Killed)
  }

  function Next(d: Disk, act: Act): Option<Disk> {
    match act
    case Call(data) => Some(d.(savers := d.savers + [Saver(data, Creating, 0, 0)]))
    case Step(i, a) => NextSaver(d, i, a)
    case OpenPath => Some(d.(readers := d.readers + [Opening]))
    case Look(j) =>
      if j < |d.readers| && d.readers[j].Opening? && d.bindings != [] then
        Some(d.(readers := d.readers[j := if Current(d).None? then NotThere else Reading(Current(d).value, [])]))
      else None
    case ReadMore(j, n) =>
      if j < |d.readers| && d.readers[j].Reading? && d.readers[j].ino < |d.inodes| then
        var r := d.readers[j];
        var file := d.inodes[r.ino].content;
        if |file| <= |r.got| then Some(d.(readers := d.readers[j := Got(r.got)]))
        else if |r.got| + n > |file| then None
        else Some(d.(readers := d.readers[j := r.(got := r.got + file[|r.got|..|r.got| + n])]))
      else None
    case Flush(k) =>
      if k < |d.bindings| then Some(d.(bindings := d.bindings[k..])) else None
    case Crash(k, garbage, temps) =>
      if k < |d.bindings| && |garbage| == |d.inodes| && (forall t | t in temps :: t < d.nextTmp) then
        Some(d.(
          inodes := Survived(d.inodes, garbage),
          temps := temps,
          leaked := temps.Keys,
          bindings := [d.bindings[k]],
          savers := seq(|d.savers|, i requires 0 <= i < |d.savers| => Struck(d.savers[i])),
          readers := []))
      else None
  }

  function Run(d: Disk, acts: seq<Act>): Option<Disk> {
    if acts == [] then Some(d)
    else match Run(d, acts[..|acts|-1]) {
      case None => None
      case Some(m) => Next(m, acts[|acts|-1])
    }
  }
}
