/** What the file system of TokenFiles never shows: a partial token, or a token gone. */
module TokenAtomicity {
  import opened Optional
  import opened TokenFiles

  /** A saver that has renamed its file, or been killed after doing so. */
  predicate MayHaveRenamed(m: Saver) {
    m.pc.Killed? || (m.pc.Cleaning? && m.pc.ok) || (m.pc.Returned? && m.pc.ok)
  }

  /** The bytes of file x are complete: those of the token its saver was given, or those found. */
  ghost predicate Complete(d: Disk, found: Option<Bytes>, x: nat) {
    && x < |d.inodes| && d.inodes[x].synced
    && match d.inodes[x].owner
       case None => found == Some(d.inodes[x].content)
       case Some(i) => i < |d.savers| && MayHaveRenamed(d.savers[i]) && d.inodes[x].content == d.savers[i].data
  }

  predicate Live(m: Saver) {
    !m.pc.Creating? && !m.pc.Returned? && !m.pc.Killed?
  }

  /** A live saver's own file and temp entry. */
  predicate SaverOk(d: Disk, i: nat)
    requires i < |d.savers|
  {
    var m := d.savers[i];
    Live(m) ==>
      && m.ino < |d.inodes| && d.inodes[m.ino].owner == Some(i)
      && m.tmp < d.nextTmp
      && (if m.pc.Cleaning? then m.tmp in d.temps ==> !m.pc.ok else m.tmp in d.temps && d.temps[m.tmp] == m.ino)
      && match m.pc
         case Chmodding => d.inodes[m.ino].content == []
         case Writing => d.inodes[m.ino].content <= m.data
         case Syncing => d.inodes[m.ino].content == m.data
         case Closing => d.inodes[m.ino].content == m.data && d.inodes[m.ino].synced
         case Renaming => d.inodes[m.ino].content == m.data && d.inodes[m.ino].synced
         case _ => true
  }

  ghost predicate SaversInv(d: Disk) {
    && (forall i: nat | i < |d.savers| :: SaverOk(d, i))
    && (forall i: nat, j: nat | i < j < |d.savers| && Live(d.savers[i]) && Live(d.savers[j]) ::
          d.savers[i].tmp != d.savers[j].tmp)
  }

  ghost predicate BindingsInv(d: Disk, found: Option<Bytes>) {
    && d.bindings != []
    && (forall k | 0 <= k < |d.bindings| && d.bindings[k].Some? :: Complete(d, found, d.bindings[k].value))
  }

  ghost predicate ReaderOk(d: Disk, found: Option<Bytes>, r: Reader) {
    match r
    case Reading(x, got) => Complete(d, found, x) && got <= d.inodes[x].content
    case Got(bytes) => exists x: nat :: Complete(d, found, x) && d.inodes[x].content == bytes
    case _ => true
  }

  /** Every temp entry belongs to a saver still at work, or was leaked. */
  ghost predicate TempsInv(d: Disk) {
    && (forall t | t in d.temps :: t < d.nextTmp)
    && (forall t | t in d.temps && t !in d.leaked ::
          exists i :: 0 <= i < |d.savers| && Live(d.savers[i]) && d.savers[i].tmp == t)
  }

  ghost predicate Inv(d: Disk, found: Option<Bytes>) {
    && SaversInv(d)
    && BindingsInv(d, found)
    && (forall j | 0 <= j < |d.readers| :: ReaderOk(d, found, d.readers[j]))
    && TempsInv(d)
  }

  /** A saver's step leaves every other saver, and every file but its own, alone; once it may have
      renamed its file it writes that no more. */
  lemma SaverFrame(d: Disk, i: nat, a: SaverAct, e: Disk)
    requires NextSaver(d, i, a) == Some(e)
    ensures i < |d.savers| && e.savers == d.savers[i := e.savers[i]]
    ensures e.savers[i].data == d.savers[i].data && e.readers == d.readers
    ensures |d.inodes| <= |e.inodes| && d.nextTmp <= e.nextTmp && d.leaked <= e.leaked
    ensures forall x | 0 <= x < |d.inodes| && (d.savers[i].pc.Creating? || x != d.savers[i].ino) ::
      e.inodes[x] == d.inodes[x]
    ensures MayHaveRenamed(d.savers[i]) ==> MayHaveRenamed(e.savers[i]) && e.inodes == d.inodes
    ensures a.Rename? || e.bindings == d.bindings
    ensures forall t :: t in e.temps <==>
      (t in d.temps && !((a.Rename? || a.Remove?) && t == d.savers[i].tmp)) || (a.Create? && t == d.nextTmp)
    ensures forall t :: t in e.temps && t in d.temps && !a.Create? ==> e.temps[t] == d.temps[t]
    ensures a.Create? ==> e.temps == d.temps[d.nextTmp := |d.inodes|]
    ensures !d.savers[i].pc.Creating? ==> e.savers[i].tmp == d.savers[i].tmp && e.savers[i].ino == d.savers[i].ino
  {
  }

  lemma SaverStepOwn(d: Disk, i: nat, a: SaverAct, e: Disk, found: Option<Bytes>)
    requires Inv(d, found) && NextSaver(d, i, a) == Some(e)
    ensures i < |e.savers| && SaverOk(e, i)
  {
    assert SaverOk(d, i);
  }

  lemma SaverStepOthers(d: Disk, i: nat, a: SaverAct, e: Disk, found: Option<Bytes>, j: nat)
    requires Inv(d, found) && NextSaver(d, i, a) == Some(e) && j < |d.savers| && j != i
    ensures j < |e.savers| && SaverOk(e, j)
    ensures Live(d.savers[j]) && Live(e.savers[i]) ==> d.savers[j].tmp != e.savers[i].tmp
  {
    SaverFrame(d, i, a, e);
    assert SaverOk(d, i) && SaverOk(d, j);
  }

  lemma SaverStepComplete(d: Disk, i: nat, a: SaverAct, e: Disk, found: Option<Bytes>, x: nat)
    requires Inv(d, found) && NextSaver(d, i, a) == Some(e) && Complete(d, found, x)
    ensures Complete(e, found, x) && e.inodes[x] == d.inodes[x]
  {
    SaverFrame(d, i, a, e);
    assert SaverOk(d, i);
  }

  /** Renaming makes a complete file the present one. */
  lemma RenameBinds(d: Disk, i: nat, e: Disk, found: Option<Bytes>)
    requires Inv(d, found) && NextSaver(d, i, Rename) == Some(e)
    ensures e.bindings == d.bindings + [Some(d.savers[i].ino)]
    ensures Complete(e, found, d.savers[i].ino) && e.inodes[d.savers[i].ino].content == d.savers[i].data
  {
    assert SaverOk(d, i);
  }

  lemma SaverStepReaders(d: Disk, i: nat, a: SaverAct, e: Disk, found: Option<Bytes>)
    requires Inv(d, found) && NextSaver(d, i, a) == Some(e)
    ensures forall j | 0 <= j < |e.readers| :: ReaderOk(e, found, e.readers[j])
  {
    SaverFrame(d, i, a, e);
    forall j | 0 <= j < |e.readers| ensures ReaderOk(e, found, e.readers[j]) {
      ReaderStays(d, e, found, e.readers[j]) by {
        forall x: nat | Complete(d, found, x) ensures Complete(e, found, x) && e.inodes[x] == d.inodes[x] {
          SaverStepComplete(d, i, a, e, found, x);
        }
      }
    }
  }

  /** A reader's state survives any change that keeps complete files complete. */
  lemma ReaderStays(d: Disk, e: Disk, found: Option<Bytes>, r: Reader)
    requires ReaderOk(d, found, r)
    requires forall x: nat | Complete(d, found, x) :: Complete(e, found, x) && e.inodes[x] == d.inodes[x]
    ensures ReaderOk(e, found, r)
  {
    if r.Got? {
      var x: nat :| Complete(d, found, x) && d.inodes[x].content == r.bytes;
      assert Complete(e, found, x) && e.inodes[x].content == r.bytes;
    }
  }

  lemma SaverStepTemps(d: Disk, i: nat, a: SaverAct, e: Disk, found: Option<Bytes>)
    requires Inv(d, found) && NextSaver(d, i, a) == Some(e)
    ensures TempsInv(e)
  {
    SaverFrame(d, i, a, e);
    assert SaverOk(d, i);
    SaverStepTempOwner(d, i, a, e);
    forall t | t in e.temps && t !in e.leaked
      ensures exists k :: 0 <= k < |e.savers| && Live(e.savers[k]) && e.savers[k].tmp == t
    {
      if t !in d.temps {
        assert Live(e.savers[i]) && e.savers[i].tmp == t;
      } else {
        var k :| 0 <= k < |d.savers| && Live(d.savers[k]) && d.savers[k].tmp == t;
        assert Live(e.savers[k]) && e.savers[k].tmp == t;
      }
    }
  }

  /** A saver that stops being live leaves its temp entry removed or leaked. */
  lemma SaverStepTempOwner(d: Disk, i: nat, a: SaverAct, e: Disk)
    requires NextSaver(d, i, a) == Some(e)
    ensures a.Create? ==> Live(e.savers[i]) && e.savers[i].tmp == d.nextTmp
    ensures Live(d.savers[i]) && !Live(e.savers[i]) ==> d.savers[i].tmp !in e.temps || d.savers[i].tmp in e.leaked
  {
  }

  lemma SaverStepInv(d: Disk, i: nat, a: SaverAct, e: Disk, found: Option<Bytes>)
    requires Inv(d, found) && NextSaver(d, i, a) == Some(e)
    ensures Inv(e, found)
  {
    SaverFrame(d, i, a, e);
    SaverStepOwn(d, i, a, e, found);
    forall j: nat | j < |e.savers| && j != i
      ensures SaverOk(e, j) && (Live(d.savers[j]) && Live(e.savers[i]) ==> d.savers[j].tmp != e.savers[i].tmp)
    {
      SaverStepOthers(d, i, a, e, found, j);
    }
    forall x: nat | Complete(d, found, x) ensures Complete(e, found, x) { SaverStepComplete(d, i, a, e, found, x); }
    if a.Rename? { RenameBinds(d, i, e, found); }
    SaverStepReaders(d, i, a, e, found);
    SaverStepTemps(d, i, a, e, found);
  }

  lemma CrashInv(d: Disk, act: Act, e: Disk, found: Option<Bytes>)
    requires Inv(d, found) && act.Crash? && Next(d, act) == Some(e)
    ensures Inv(e, found)
    ensures forall x: nat | Complete(d, found, x) :: Complete(e, found, x) && e.inodes[x] == d.inodes[x]
  {
  }

  /** The steps of readers, of the directory and of callers. */
  lemma OtherInv(d: Disk, act: Act, e: Disk, found: Option<Bytes>)
    requires Inv(d, found) && !act.Crash? && !act.Step? && Next(d, act) == Some(e)
    ensures Inv(e, found)
    ensures forall x: nat | Complete(d, found, x) :: Complete(e, found, x) && e.inodes[x] == d.inodes[x]
  {
    assert d.savers <= e.savers && e.inodes == d.inodes && e.temps == d.temps;
    assert forall x: nat | Complete(d, found, x) :: Complete(e, found, x);
    forall i: nat | i < |e.savers| ensures SaverOk(e, i) {
      if i < |d.savers| { assert SaverOk(d, i); }
    }
    forall j | 0 <= j < |e.readers| ensures ReaderOk(e, found, e.readers[j]) {
      if j < |d.readers| {
        ReaderStays(d, e, found, d.readers[j]);
        if act.ReadMore? && act.j == j && e.readers[j].Got? {
          assert e.inodes[d.readers[j].ino].content == e.readers[j].bytes;
        }
      }
    }
    OtherTemps(d, act, e);
  }

  lemma OtherTemps(d: Disk, act: Act, e: Disk)
    requires TempsInv(d) && !act.Crash? && !act.Step? && Next(d, act) == Some(e)
    ensures TempsInv(e)
  {
    forall t | t in e.temps && t !in e.leaked
      ensures exists k :: 0 <= k < |e.savers| && Live(e.savers[k]) && e.savers[k].tmp == t
    {
      var k :| 0 <= k < |d.savers| && Live(d.savers[k]) && d.savers[k].tmp == t;
      assert Live(e.savers[k]) && e.savers[k].tmp == t;
    }
  }

  lemma StepInv(d: Disk, act: Act, e: Disk, found: Option<Bytes>)
    requires Inv(d, found) && Next(d, act) == Some(e)
    ensures Inv(e, found)
    ensures forall x: nat | Complete(d, found, x) :: Complete(e, found, x) && e.inodes[x] == d.inodes[x]
  {
    match act
    case Step(i, a) =>
      SaverStepInv(d, i, a, e, found);
      forall x: nat | Complete(d, found, x) ensures Complete(e, found, x) && e.inodes[x] == d.inodes[x] {
        SaverStepComplete(d, i, a, e, found, x);
      }
    case Crash(_, _, _) => CrashInv(d, act, e, found);
    case _ => OtherInv(d, act, e, found);
  }

  ghost predicate Reaches(found: Option<Bytes>, acts: seq<Act>, d: Disk) {
    Run(Init(found), acts) == Some(d)
  }

  lemma {:induction false} Reached(found: Option<Bytes>, acts: seq<Act>, d: Disk)
    requires Reaches(found, acts, d)
    ensures Inv(d, found)
  {
    if acts != [] {
      var m := Run(Init(found), acts[..|acts|-1]).value;
      Reached(found, acts[..|acts|-1], m);
      StepInv(m, acts[|acts|-1], d, found);
    }
  }

  /** What a reader opening the path now would find. */
  function Content(d: Disk): Option<Bytes> {
    if d.bindings == [] || Current(d).None? || Current(d).value >= |d.inodes| then None
    else Some(d.inodes[Current(d).value].content)
  }

  /** The file is absent, as it was found, or the whole of a token some call of saveToken was given. */
  ghost predicate WholeToken(d: Disk, found: Option<Bytes>, content: Option<Bytes>) {
    content == None || content == found || exists i :: 0 <= i < |d.savers| && content == Some(d.savers[i].data)
  }

  /** Whatever savers, failures and crashes have done, the path never shows a partial token. */
  lemma PathIsWhole(found: Option<Bytes>, acts: seq<Act>, d: Disk)
    requires Reaches(found, acts, d)
    ensures d.bindings != [] && WholeToken(d, found, Content(d))
    ensures Current(d).Some? ==> Content(d).Some?
  {
    Reached(found, acts, d);
    if Content(d).Some? {
      assert Complete(d, found, Current(d).value);
    }
  }

  lemma SaverStepContent(found: Option<Bytes>, acts: seq<Act>, d: Disk, i: nat, a: SaverAct, e: Disk)
    requires Reaches(found, acts, d) && NextSaver(d, i, a) == Some(e)
    ensures i < |d.savers| && Content(e) == if a.Rename? then Some(d.savers[i].data) else Content(d)
  {
    Reached(found, acts, d);
    SaverFrame(d, i, a, e);
    if a.Rename? {
      RenameBinds(d, i, e, found);
    } else if Current(d).Some? {
      SaverStepComplete(d, i, a, e, found, Current(d).value);
    }
  }

  lemma CrashContent(found: Option<Bytes>, acts: seq<Act>, d: Disk, act: Act, e: Disk)
    requires Reaches(found, acts, d) && act.Crash? && Next(d, act) == Some(e)
    ensures if d.bindings[act.k].None? then Content(e) == None
            else d.bindings[act.k].value < |d.inodes| && Content(e) == Some(d.inodes[d.bindings[act.k].value].content)
    ensures WholeToken(d, found, Content(e))
  {
    Reached(found, acts, d);
    if d.bindings[act.k].Some? { assert Complete(d, found, d.bindings[act.k].value); }
  }

  /** saveToken is one atomic write: the content changes only when a saver renames, and then to the
      whole of its token; or in a crash, and then back to some content the path had since it was
      last known durable. */
  lemma ChangesAreAtomic(found: Option<Bytes>, acts: seq<Act>, d: Disk, act: Act, e: Disk)
    requires Reaches(found, acts, d) && Next(d, act) == Some(e)
    ensures match act
      case Step(i, a) => i < |d.savers| && Content(e) == if a.Rename? then Some(d.savers[i].data) else Content(d)
      case Crash(k, _, _) =>
        && k < |d.bindings| && WholeToken(d, found, Content(e))
        && if d.bindings[k].None? then Content(e) == None
           else d.bindings[k].value < |d.inodes| && Content(e) == Some(d.inodes[d.bindings[k].value].content)
      case _ => Content(e) == Content(d)
  {
    match act
    case Step(i, a) => SaverStepContent(found, acts, d, i, a, e);
    case Crash(k, _, _) => CrashContent(found, acts, d, act, e);
    case _ =>
  }

  /** What a crash can do: any entry that may still come back does, and a file whose bytes were not
      synced may hold anything after it. Only a synced file is safe to rename. */
  lemma CrashMayTear(d: Disk, k: nat, x: nat, bytes: Bytes) returns (act: Act, e: Disk)
    requires k < |d.bindings| && x < |d.inodes|
    ensures act.Crash? && Next(d, act) == Some(e) && e.bindings == [d.bindings[k]] && |e.inodes| == |d.inodes|
    ensures e.inodes[x] == if d.inodes[x].synced then d.inodes[x] else d.inodes[x].(content := bytes)
  {
    act := Crash(k, seq(|d.inodes|, _ => bytes), map[]);
    e := Next(d, act).value;
  }

  lemma FlushLeavesPresent(d: Disk, e: Disk)
    requires d.bindings != [] && Next(d, Flush(|d.bindings| - 1)) == Some(e)
    ensures e == d.(bindings := [Current(d)])
  {
  }

  lemma CrashOfDurable(e: Disk, crash: Act, f: Disk)
    requires |e.bindings| == 1 && crash.Crash? && Next(e, crash) == Some(f)
    ensures f.bindings == e.bindings && |f.inodes| == |e.inodes|
    ensures forall x | 0 <= x < |e.inodes| && e.inodes[x].synced :: f.inodes[x] == e.inodes[x]
  {
  }

  /** Once the directory is flushed up to its present entry, a crash brings back what is there now. */
  lemma FlushedSurvives(found: Option<Bytes>, acts: seq<Act>, d: Disk, e: Disk, crash: Act, f: Disk)
    requires Reaches(found, acts, d) && d.bindings != [] && Next(d, Flush(|d.bindings| - 1)) == Some(e)
    requires crash.Crash? && Next(e, crash) == Some(f)
    ensures Content(f) == Content(e) == Content(d)
  {
    Reached(found, acts, d);
    FlushLeavesPresent(d, e);
    CrashOfDurable(e, crash, f);
    if Current(d).Some? { assert Complete(d, found, Current(d).value); }
  }

  /** The verdict a save has returned stands, whatever happens later. */
  lemma {:induction false} VerdictStands(d: Disk, later: seq<Act>, e: Disk, i: nat)
    requires Run(d, later) == Some(e) && i < |d.savers| && d.savers[i].pc.Returned?
    ensures i < |e.savers| && e.savers[i] == d.savers[i]
  {
    if later != [] {
      var m, act := Run(d, later[..|later|-1]).value, later[|later|-1];
      VerdictStands(d, later[..|later|-1], m, i);
      if act.Step? { SaverFrame(m, act.i, act.a, e); }
    }
  }

  predicate Succeeded(m: Saver) {
    (m.pc.Cleaning? && m.pc.ok) || (m.pc.Returned? && m.pc.ok)
  }

  /** saveToken reports success exactly when its rename took place. */
  lemma SuccessIsRename(d: Disk, act: Act, e: Disk, i: nat)
    requires Next(d, act) == Some(e) && i < |d.savers| && i < |e.savers|
    ensures Succeeded(e.savers[i]) && !Succeeded(d.savers[i]) <==> act == Step(i, Rename)
  {
  }

  /** Without a crash the path never becomes absent again; and once no absent entry can come back,
      not even crashes make it absent. */
  lemma PresentStep(d: Disk, act: Act, e: Disk)
    requires d.bindings != [] && Next(d, act) == Some(e)
    ensures e.bindings != []
    ensures Current(d).Some? && !act.Crash? ==> Current(e).Some?
    ensures None !in d.bindings ==> None !in e.bindings && Current(e).Some?
  {
    match act
    case Step(i, a) => if !a.Rename? { SaverFrame(d, i, a, e); }
    case _ =>
  }

  lemma {:induction false} PresentFrom(d: Disk, acts: seq<Act>, e: Disk)
    requires d.bindings != [] && None !in d.bindings && Run(d, acts) == Some(e)
    ensures e.bindings != [] && None !in e.bindings && Current(e).Some?
  {
    if acts != [] {
      var m := Run(d, acts[..|acts|-1]).value;
      PresentFrom(d, acts[..|acts|-1], m);
      PresentStep(m, acts[|acts|-1], e);
    }
  }

  lemma {:induction false} PresentWithoutCrash(d: Disk, acts: seq<Act>, e: Disk)
    requires d.bindings != [] && Current(d).Some? && Run(d, acts) == Some(e)
    requires forall k | 0 <= k < |acts| :: !acts[k].Crash?
    ensures e.bindings != [] && Current(e).Some?
  {
    if acts != [] {
      var m := Run(d, acts[..|acts|-1]).value;
      PresentWithoutCrash(d, acts[..|acts|-1], m);
      assert !acts[|acts|-1].Crash?;
      PresentStep(m, acts[|acts|-1], e);
    }
  }

  /** A token found at start never goes missing, whatever savers, failures and crashes do; nor does
      one that has become durable, or one that is there while no crash happens. */
  lemma NeverAbsentAgain(found: Option<Bytes>, acts: seq<Act>, d: Disk, later: seq<Act>, e: Disk)
    requires Reaches(found, acts, d) && Run(d, later) == Some(e)
    requires found.Some? || None !in d.bindings
          || (Content(d).Some? && forall k | 0 <= k < |later| :: !later[k].Crash?)
    ensures Content(e).Some?
  {
    Reached(found, acts, d);
    RunInvFrom(d, later, e, found);
    if found.Some? { PresentFrom(Init(found), acts, d); }
    if found.Some? || None !in d.bindings {
      PresentFrom(d, later, e);
    } else {
      PresentWithoutCrash(d, later, e);
    }
    assert Complete(e, found, Current(e).value);
  }

  lemma {:induction false} RunInvFrom(d: Disk, acts: seq<Act>, e: Disk, found: Option<Bytes>)
    requires Inv(d, found) && Run(d, acts) == Some(e)
    ensures Inv(e, found)
  {
    if acts != [] {
      var m := Run(d, acts[..|acts|-1]).value;
      RunInvFrom(d, acts[..|acts|-1], m, found);
      StepInv(m, acts[|acts|-1], e, found);
    }
  }

  // ---------- temp files ----------

  /** Saver i's removal of its own temp file t fails. */
  predicate FailsToRemove(d: Disk, act: Act, t: nat) {
    && act.Step? && act.a.RemoveFails? && act.i < |d.savers|
    && d.savers[act.i].pc.Cleaning? && d.savers[act.i].tmp == t && t in d.temps
  }

  /** A temp name is leaked by one failed removal of it by its own saver, or left by a crash. */
  lemma LeaksExactly(d: Disk, act: Act, e: Disk, t: nat)
    requires Next(d, act) == Some(e)
    ensures t in e.leaked <==> if act.Crash? then t in act.temps else t in d.leaked || FailsToRemove(d, act, t)
  {
  }

  /** Every leaked name has its cause in the run: the crash that left it, or the failed removal. */
  lemma {:induction false} LeakHasCause(found: Option<Bytes>, acts: seq<Act>, d: Disk, t: nat) returns (k: nat, r: Disk)
    requires Reaches(found, acts, d) && t in d.leaked
    ensures k < |acts| && Reaches(found, acts[..k], r)
    ensures (acts[k].Crash? && t in acts[k].temps) || FailsToRemove(r, acts[k], t)
  {
    assert t !in Init(found).leaked;
    var before := acts[..|acts|-1];
    k, r := |before|, Run(Init(found), before).value;
    LeaksExactly(r, acts[k], d, t);
    if !acts[k].Crash? && t in r.leaked {
      k, r := LeakHasCause(found, before, r, t);
      assert before[..k] == acts[..k];
    }
  }

  /** A temp file that belongs to no saver at work was leaked: when no save is under way, every
      one there is was left by a crash or by a failed removal, whatever else the run did. */
  lemma TempsAreLeaks(found: Option<Bytes>, acts: seq<Act>, d: Disk)
    requires Reaches(found, acts, d)
    requires forall i | 0 <= i < |d.savers| :: !Live(d.savers[i])
    ensures d.temps.Keys <= d.leaked
  {
    Reached(found, acts, d);
  }

  predicate NothingLeaks(acts: seq<Act>) {
    forall k | 0 <= k < |acts| :: !acts[k].Crash? && !(acts[k].Step? && acts[k].a.RemoveFails?)
  }

  /** When every save has returned and every clean-up went well, no temp file is left. */
  lemma NoTempFilesLeft(found: Option<Bytes>, acts: seq<Act>, d: Disk)
    requires Reaches(found, acts, d) && NothingLeaks(acts)
    requires forall i | 0 <= i < |d.savers| :: d.savers[i].pc.Returned?
    ensures d.temps == map[]
  {
    TempsAreLeaks(found, acts, d);
    if t :| t in d.temps {
      var k, r := LeakHasCause(found, acts, d, t);
    }
    assert d.temps.Keys == {};
  }

  /** What reader j returns or will return: the bytes it will have read in full, or None for a path
      it did not find. */
  function Target(d: Disk, j: nat): Option<Option<Bytes>> {
    if j >= |d.readers| then None
    else match d.readers[j]
      case Got(bytes) => Some(Some(bytes))
      case Reading(x, _) => if x < |d.inodes| then Some(Some(d.inodes[x].content)) else None
      case NotThere => Some(None)
      case Opening => None
  }

  lemma TargetStep(d: Disk, act: Act, e: Disk, found: Option<Bytes>, j: nat)
    requires Inv(d, found) && Next(d, act) == Some(e) && Target(e, j).Some?
    ensures Target(d, j) == Target(e, j) || (act == Look(j) && Some(Content(d)) == Target(e, j))
  {
    StepInv(d, act, e, found);
    if act.Step? { SaverFrame(d, act.i, act.a, e); }
    if act == Look(j) {
      if Current(d).Some? { assert Complete(d, found, Current(d).value); }
    } else if j < |d.readers| && d.readers[j].Reading? {
      ReadingStep(d, act, e, found, j);
    }
  }

  lemma ReadingStep(d: Disk, act: Act, e: Disk, found: Option<Bytes>, j: nat)
    requires Inv(d, found) && Next(d, act) == Some(e) && j < |d.readers| && d.readers[j].Reading?
    requires j < |e.readers|
    ensures Target(d, j) == Target(e, j)
  {
    StepInv(d, act, e, found);
    if act.Step? { SaverFrame(d, act.i, act.a, e); }
    assert ReaderOk(d, found, d.readers[j]);
    assert Complete(d, found, d.readers[j].ino);
    if e.readers[j].Got? {
      var content := d.inodes[d.readers[j].ino].content;
      assert act.ReadMore? && act.j == j && |d.readers[j].got| == |content|;
      assert content[..|content|] == content;
      assert e.readers[j].bytes == d.readers[j].got == content;
    }
  }

  /** A read is a snapshot: whatever happens while it is under way, a reader returns the bytes the
      path held at the instant the reader opened it, or finds nothing exactly if there was nothing. */
  lemma {:induction false} ReadIsSnapshot(found: Option<Bytes>, acts: seq<Act>, d: Disk, j: nat)
    returns (k: nat, r: Disk)
    requires Reaches(found, acts, d) && Target(d, j).Some?
    ensures k < |acts| && acts[k] == Look(j) && Reaches(found, acts[..k], r) && Some(Content(r)) == Target(d, j)
  {
    assert Target(Init(found), j) == None;
    var before := acts[..|acts|-1];
    k, r := |before|, Run(Init(found), before).value;
    Reached(found, before, r);
    TargetStep(r, acts[k], d, found, j);
    if !(acts[k] == Look(j) && Some(Content(r)) == Target(d, j)) {
      k, r := ReadIsSnapshot(found, before, r, j);
      assert before[..k] == acts[..k];
    }
  }

  // ---------- progress ----------

  /** The call a saver makes next, if the one before it succeeded. */
  function SaverOwes(m: Saver): SaverAct {
    match m.pc
    case Creating => Create
    case Chmodding => Chmod
    case Writing => Write(0)
    case Syncing => Sync
    case Closing => Close
    case Renaming => Rename
    case _ => Remove
  }

  /** No save and no open is ever stuck: in every reachable state a saver at work can make its next
      call, and write its file to the end; a reader that has not opened the path can. */
  lemma NobodyIsStuck(found: Option<Bytes>, acts: seq<Act>, d: Disk, i: nat)
    requires Reaches(found, acts, d)
    ensures i < |d.savers| && !d.savers[i].pc.Returned? && !d.savers[i].pc.Killed? ==>
      Next(d, Step(i, SaverOwes(d.savers[i]))).Some?
    ensures i < |d.savers| && d.savers[i].pc.Writing? ==> exists n ::
      Next(d, Step(i, Write(n))).Some? && Next(Next(d, Step(i, Write(n))).value, Step(i, Wrote)).Some?
    ensures i < |d.readers| && d.readers[i].Opening? ==> Next(d, Look(i)).Some?
  {
    Reached(found, acts, d);
    if i < |d.savers| {
      assert SaverOk(d, i);
      if d.savers[i].pc.Writing? { CanFinishWriting(d, i); }
    }
  }

  lemma CanFinishWriting(d: Disk, i: nat)
    requires i < |d.savers| && SaverOk(d, i) && d.savers[i].pc.Writing?
    ensures exists n ::
      Next(d, Step(i, Write(n))).Some? && Next(Next(d, Step(i, Write(n))).value, Step(i, Wrote)).Some?
  {
    var n := |d.savers[i].data| - |d.inodes[d.savers[i].ino].content|;
    assert Next(d, Step(i, Write(n))).Some? && Next(Next(d, Step(i, Write(n))).value, Step(i, Wrote)).Some?;
  }

  /** A reader that has opened the path can read on to the end: in one more piece, and the end of file. */
  lemma ReadsToTheEnd(found: Option<Bytes>, acts: seq<Act>, d: Disk, j: nat) returns (n: nat, e: Disk)
    requires Reaches(found, acts, d) && j < |d.readers| && d.readers[j].Reading?
    ensures Next(d, ReadMore(j, n)) == Some(e) && Target(e, j) == Target(d, j)
    ensures e.readers[j].Got? || (Next(e, ReadMore(j, 0)).Some? && Next(e, ReadMore(j, 0)).value.readers[j].Got?)
  {
    Reached(found, acts, d);
    assert ReaderOk(d, found, d.readers[j]);
    n := |d.inodes[d.readers[j].ino].content| - |d.readers[j].got|;
    e := Next(d, ReadMore(j, n)).value;
    ReadingStep(d, ReadMore(j, n), e, found, j);
  }
}
