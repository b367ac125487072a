/** saveToken of internal/mcauth/token.go in its own form: system calls with early returns and a
    deferred clean-up, on a file system it changes step by step. With nobody else at work this is
    its whole effect; with others, TokenAtomicity covers every interleaving of the same steps. */
module SaveToken {
  import opened Optional
  import opened TokenFiles
  import opened TokenAtomicity
  import T = TokenSource

  /** Which system calls succeed, and in what pieces the kernel takes the data. */
  datatype Script = Script(
    create: bool, chmod: bool, pieces: seq<nat>, write: bool, sync: bool, close: bool, rename: bool, remove: bool)

  predicate Succeeds(s: Script) {
    s.create && s.chmod && s.write && s.sync && s.close && s.rename
  }

  class FileSystem {
    var disk: Disk
    ghost const start: Disk
    ghost var acts: seq<Act>
    ghost var path: seq<Disk>  // the disks the acts led through, from start to disk

    ghost predicate Valid()
      reads this
    {
      IsPath(path, acts) && path[0] == start && path[|acts|] == disk
    }

    constructor (disk: Disk)
      ensures Valid() && this.disk == disk && start == disk && acts == []
    {
      this.disk := disk;
      start := disk;
      acts := [];
      path := [disk];
    }

    method Do(act: Act)
      requires Valid() && Next(disk, act).Some?
      modifies this
      ensures Valid() && Some(disk) == Next(old(disk), act) && acts == old(acts) + [act]
    {
      disk := Next(disk, act).value;
      acts := acts + [act];
      path := path + [disk];
    }
  }

  ghost predicate IsPath(path: seq<Disk>, acts: seq<Act>) {
    |path| == |acts| + 1 && forall k | 0 <= k < |acts| :: Next(path[k], acts[k]) == Some(path[k + 1])
  }

  /** What the file system records is a run of the system TokenAtomicity is about. */
  lemma {:induction false} PathIsRun(path: seq<Disk>, acts: seq<Act>)
    requires IsPath(path, acts)
    ensures Run(path[0], acts) == Some(path[|acts|])
  {
    if acts != [] { PathIsRun(path[..|acts|], acts[..|acts|-1]); }
  }

  /** The disk d while a save of data, begun on it, is under way. */
  function Midway(d: Disk, data: Bytes, pc: SaverPc, content: Bytes, synced: bool): Disk {
    d.(savers := d.savers + [Saver(data, pc, d.nextTmp, |d.inodes|)],
       inodes := d.inodes + [Inode(content, synced, Some(|d.savers|))],
       temps := d.temps[d.nextTmp := |d.inodes|],
       nextTmp := d.nextTmp + 1)
  }

  lemma UpdateLast<T>(xs: seq<T>, x: T, y: T)
    ensures (xs + [x])[|xs| := y] == xs + [y] && (xs + [x])[|xs|] == x
  {
  }

  /** Every call that moves the saver on without touching its file. */
  lemma MovesOn(d: Disk, data: Bytes, pc: SaverPc, content: Bytes, synced: bool, to: SaverPc)
    ensures Moved(Midway(d, data, pc, content, synced), |d.savers|, to) == Midway(d, data, to, content, synced)
  {
    UpdateLast(d.savers, Saver(data, pc, d.nextTmp, |d.inodes|), Saver(data, to, d.nextTmp, |d.inodes|));
  }

  /** tmp.Write, piece by piece, up to all of the data or to a failure. */
  method WriteAll(fs: FileSystem, ghost d: Disk, data: Bytes, s: Script) returns (ok: bool, ghost content: Bytes)
    requires fs.Valid() && fs.disk == Midway(d, data, Writing, [], false)
    modifies fs
    ensures fs.Valid() && ok == s.write && content <= data && (ok ==> content == data)
    ensures fs.disk == Midway(d, data, if ok then Syncing else Cleaning(false), content, false)
  {
    var i := |fs.disk.savers| - 1;
    var done, k := 0, 0;
    while k < |s.pieces|
      invariant 0 <= k <= |s.pieces| && 0 <= done <= |data| && i == |d.savers|
      invariant fs.Valid() && fs.disk == Midway(d, data, Writing, data[..done], false)
    {
      if done + s.pieces[k] <= |data| {
        WritesOn(d, data, done, s.pieces[k]);
        fs.Do(Step(i, Write(s.pieces[k])));
        done := done + s.pieces[k];
      }
      k := k + 1;
    }
    if !s.write {
      MovesOn(d, data, Writing, data[..done], false, Cleaning(false));
      fs.Do(Step(i, Fails));
      return false, data[..done];
    }
    WritesOn(d, data, done, |data| - done);
    fs.Do(Step(i, Write(|data| - done)));
    assert data[..|data|] == data;
    MovesOn(d, data, Writing, data, false, Syncing);
    fs.Do(Step(i, Wrote));
    ok, content := true, data;
  }

  lemma WritesOn(d: Disk, data: Bytes, done: nat, n: nat)
    requires done + n <= |data|
    ensures NextSaver(Midway(d, data, Writing, data[..done], false), |d.savers|, Write(n))
         == Some(Midway(d, data, Writing, data[..done + n], false))
  {
    assert data[..done] + data[done..done + n] == data[..done + n];
    var owner := Some(|d.savers|);
    UpdateLast(d.inodes, Inode(data[..done], false, owner), Inode(data[..done + n], false, owner));
  }

  lemma Syncs(d: Disk, data: Bytes)
    ensures NextSaver(Midway(d, data, Syncing, data, false), |d.savers|, Sync)
         == Some(Midway(d, data, Closing, data, true))
  {
    UpdateLast(d.inodes, Inode(data, false, Some(|d.savers|)), Inode(data, true, Some(|d.savers|)));
    MovesOn(d, data, Syncing, data, true, Closing);
  }

  /** The disk after the rename, before the clean-up. */
  function Renamed(d: Disk, data: Bytes): Disk {
    Midway(d, data, Cleaning(true), data, true).(
      temps := d.temps - {d.nextTmp}, bindings := d.bindings + [Some(|d.inodes|)])
  }

  lemma Renames(d: Disk, data: Bytes)
    requires d.nextTmp !in d.temps
    ensures NextSaver(Midway(d, data, Renaming, data, true), |d.savers|, Rename) == Some(Renamed(d, data))
  {
    MovesOn(d, data, Renaming, data, true, Cleaning(true));
    assert d.temps[d.nextTmp := |d.inodes|] - {d.nextTmp} == d.temps - {d.nextTmp};
  }

  /** From tmp.Chmod to os.Rename: each failure returns at once. */
  method Body(fs: FileSystem, ghost d: Disk, data: Bytes, s: Script)
    returns (ok: bool, ghost content: Bytes, ghost synced: bool)
    requires fs.Valid() && fs.disk == Midway(d, data, Chmodding, [], false) && d.nextTmp !in d.temps
    modifies fs
    ensures fs.Valid() && ok == (s.chmod && s.write && s.sync && s.close && s.rename)
    ensures if ok then fs.disk == Renamed(d, data)
            else fs.disk == Midway(d, data, Cleaning(false), content, synced)
  {
    var i := |fs.disk.savers| - 1;
    MovesOn(d, data, Chmodding, [], false, if s.chmod then Writing else Cleaning(false));
    fs.Do(Step(i, if s.chmod then Chmod else Fails));
    content, synced := [], false;
    if !s.chmod { return false, content, synced; }
    ok, content := WriteAll(fs, d, data, s);
    if !ok { return; }
    ok, content, synced := Finish(fs, d, data, s);
  }

  method Finish(fs: FileSystem, ghost d: Disk, data: Bytes, s: Script)
    returns (ok: bool, ghost content: Bytes, ghost synced: bool)
    requires fs.Valid() && fs.disk == Midway(d, data, Syncing, data, false) && d.nextTmp !in d.temps
    modifies fs
    ensures fs.Valid() && ok == (s.sync && s.close && s.rename)
    ensures if ok then fs.disk == Renamed(d, data)
            else fs.disk == Midway(d, data, Cleaning(false), content, synced)
  {
    var i := |fs.disk.savers| - 1;
    Syncs(d, data);
    MovesOn(d, data, Syncing, data, false, Cleaning(false));
    fs.Do(Step(i, if s.sync then Sync else Fails));
    if !s.sync { return false, data, false; }
    MovesOn(d, data, Closing, data, true, if s.close then Renaming else Cleaning(false));
    fs.Do(Step(i, if s.close then Close else Fails));
    if !s.close { return false, data, true; }
    Renames(d, data);
    MovesOn(d, data, Renaming, data, true, Cleaning(false));
    fs.Do(Step(i, if s.rename then Rename else Fails));
    ok, content, synced := s.rename, data, true;
  }

  /** The disk when the deferred clean-up begins. */
  function BodyDone(d: Disk, data: Bytes, ok: bool, content: Bytes, synced: bool): Disk {
    if ok then Renamed(d, data) else Midway(d, data, Cleaning(false), content, synced)
  }

  /** What callers may rely on of the directory: the entry of path, if there, names a file, and
      temp names are not reused. */
  predicate Usual(d: Disk) {
    && d.bindings != [] && (Current(d).Some? ==> Current(d).value < |d.inodes|)
    && forall t | t in d.temps :: t < d.nextTmp
  }

  /** The disk e after one save of data on d that returned ok. */
  ghost predicate SavedAs(d: Disk, data: Bytes, ok: bool, removed: bool, e: Disk)
    requires Usual(d)
  {
    && Content(e) == (if ok then Some(data) else Content(d))
    && (removed || ok ==> e.temps == d.temps)
    && |e.savers| == |d.savers| + 1 && d.savers <= e.savers && e.savers[|d.savers|].pc == Returned(ok)
  }

  /** The deferred clean-up. */
  lemma CleansUp(d: Disk, data: Bytes, ok: bool, content: Bytes, synced: bool, removed: bool) returns (e: Disk)
    requires Usual(d)
    ensures NextSaver(BodyDone(d, data, ok, content, synced), |d.savers|, if removed then Remove else RemoveFails)
         == Some(e)
    ensures SavedAs(d, data, ok, removed, e)
  {
    var m := BodyDone(d, data, ok, content, synced);
    assert m.savers == d.savers + [Saver(data, Cleaning(ok), d.nextTmp, |d.inodes|)];
    assert m.temps - {d.nextTmp} == d.temps;
    e := NextSaver(m, |d.savers|, if removed then Remove else RemoveFails).value;
  }

  /** The temp file cannot be created: nothing happens. */
  method FailToCreate(fs: FileSystem, ghost d: Disk, data: Bytes, removed: bool)
    requires fs.Valid() && Usual(d) && fs.disk == Next(d, Call(data)).value
    modifies fs
    ensures fs.Valid() && SavedAs(d, data, false, removed, fs.disk)
  {
    fs.Do(Step(|fs.disk.savers| - 1, Fails));
  }

  /** saveToken. On success the path holds exactly the data; on failure its content is what it was;
      and either way, unless its removal fails, the temp file is gone. */
  method Save(fs: FileSystem, data: Bytes, s: Script) returns (ok: bool)
    requires fs.Valid() && Usual(fs.disk)
    modifies fs
    ensures fs.Valid() && ok == Succeeds(s)
    ensures SavedAs(old(fs.disk), data, ok, s.remove, fs.disk)
  {
    ghost var d := fs.disk;
    var i := |fs.disk.savers|;
    fs.Do(Call(data));
    if !s.create {
      FailToCreate(fs, d, data, s.remove);
      return false;
    }
    fs.Do(Step(i, Create));
    UpdateLast(d.savers, Saver(data, Creating, 0, 0), Saver(data, Chmodding, d.nextTmp, |d.inodes|));
    ghost var content, synced;
    ok, content, synced := Body(fs, d, data, s);
    ghost var e := CleansUp(d, data, ok, content, synced, s.remove);
    fs.Do(Step(i, if s.remove then Remove else RemoveFails));
  }

  /** What the path holds after one call of Token. */
  function ContentAfter(
    was: Option<Bytes>, inner: Option<T.Token>, encode: T.Token -> Bytes, s: Script): Option<Bytes>
  {
    if inner.Some? && Succeeds(s) then Some(encode(inner.value)) else was
  }

  /** cachingTokenSource.Token, with the mutex held throughout: a refreshed token is returned
      whether or not it could be saved, and a save that fails leaves the previous token in place. */
  method Token(fs: FileSystem, inner: Option<T.Token>, encode: T.Token -> Bytes, s: Script)
    returns (tok: Option<T.Token>)
    requires fs.Valid() && Usual(fs.disk)
    modifies fs
    ensures fs.Valid() && tok == inner
    ensures Content(fs.disk) == ContentAfter(Content(old(fs.disk)), inner, encode, s)
  {
    tok := inner;
    if tok.None? { return; }
    var saved := Save(fs, encode(tok.value), s);
  }

  /** os.ReadFile of a path with this content, when it does not fail. */
  function ReadBack(content: Option<Bytes>): T.ReadResult {
    match content
    case None => T.NotExist
    case Some(bytes) => T.Contents(bytes)
  }

  /** TokenSource: loads the file, and logs in and saves when there is none. */
  method Open(
    fs: FileSystem, readFails: bool, decode: Bytes -> Option<T.Token>, encode: T.Token -> Bytes,
    login: Option<T.Token>, s: Script)
    returns (source: Option<T.Token>)
    requires fs.Valid() && Usual(fs.disk)
    modifies fs
    ensures fs.Valid()
    ensures var r := if readFails then T.ReadError else ReadBack(Content(old(fs.disk)));
      var o := T.OpenSource(decode, r, login, Succeeds(s));
      && source == o.source
      && Content(fs.disk) == if o.saved.Some? then Some(encode(o.saved.value)) else Content(old(fs.disk))
  {
    var r := if readFails then T.ReadError else ReadBack(Content(fs.disk));
    match T.LoadToken(decode, r) {
      case Loaded(tok) => return Some(tok);
      case Unusable => return None;
      case Missing =>
        if login.None? { return None; }
        var saved := Save(fs, encode(login.value), s);
        return if saved then login else None;
    }
  }

  /** A restart after a call of Token: when the refreshed token was saved, it resumes from that very
      token, provided it can be refreshed, and never logs in; when it was not, it finds what was
      there before, and logs in exactly when that was nothing. */
  lemma RestartAfterToken(
    was: Option<Bytes>, inner: Option<T.Token>, encode: T.Token -> Bytes, decode: Bytes -> Option<T.Token>, s: Script,
    login: Option<T.Token>, saves: bool)
    requires forall t :: decode(encode(t)) == Some(t)
    ensures var next := T.OpenSource(decode, ReadBack(ContentAfter(was, inner, encode, s)), login, saves);
      if inner.Some? && Succeeds(s)
      then next == T.Opened(if inner.value.refresh != "" then inner else None, false, None)
      else next == T.OpenSource(decode, ReadBack(was), login, saves) && (next.loginAttempted <==> was == None)
  {
    if inner.Some? && Succeeds(s) {
      T.RestartResumes(encode, decode, inner.value, login, saves);
    } else {
      T.LoginOnlyWhenAbsent(decode, ReadBack(was), login, saves);
    }
  }
}
