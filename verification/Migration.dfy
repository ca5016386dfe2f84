/** One rebuild target and the consumer (`reb_cons`) working on it, as a state machine whose
    steps are single system calls. A crash is a step like any other, so a sequence of steps is
    any history of interrupted and repeated migration runs. */
module Migration {
  import opened Common
  import opened RebuildFiles

  /** The target's real path. */
  datatype RealPath = Link | Missing | Directory(files: Dir)

  /** What survives a crash: the real path, the ".tmp" directory and the rebuild directory. */
  datatype Disk = Disk(rpath: RealPath, tmp: Option<Dir>, reb: Option<Dir>)

  datatype WorkFlag = WorkLnk | WorkNoent | WorkDir

  /** Where the consumer of this target stands; `todo` holds the names its directory stream has not
      returned yet, `kept` the data files it left in the rebuild directory although they are migrated. */
  datatype Pc =
    | Idle
    | Ready(flag: WorkFlag)
    | Copying(todo: set<string>)
    | Writing(todo: set<string>, name: string, off: nat)
    | Renaming
    | Deleting(todo: set<string>, kept: set<string>)
    | RemovingParent
    | Done(kept: set<string>)

  datatype Target = Target(disk: Disk, pc: Pc)

  /** One system call, or a few that cannot be told apart afterwards. `blind` says that the stat of
      the file's copy failed for a reason other than its absence, which the consumer tolerates. */
  datatype Action =
    | Classify                                       // main stats the real path and queues a work package
    | Begin                                          // open the directories, making the temporary one if needed
    | SkipCopy(name: string)
    | Truncate(name: string, now: int, blind: bool)  // open for write, creating or emptying the copy
    | Append(n: nat, now: int)                       // one write of n bytes
    | Stamp                                          // futimens and close
    | FailFile                                       // an I/O error while copying: drop the copy and return -1
    | UnlinkLink
    | RenameTmp
    | SkipDelete(name: string, blind: bool)
    | Delete(name: string)
    | RmReb
    | RmParent
    | Crash                                          // the process dies, or the consumer returns -1

  /** `main` looks only at the kind of the real path. */
  function FlagOf(rpath: RealPath): (flag: WorkFlag) {
    match rpath
    case Link => WorkLnk
    case Missing => WorkNoent
    case Directory(_) => WorkDir
  }

  /** The "already migrated" test: same name, size and modification time. */
  predicate LooksMigrated(tmp: Dir, name: string, src: File) {
    name in tmp && tmp[name].mtime == src.mtime && |tmp[name].data| == |src.data|
  }

  /** The files the delete loop leaves alone: a failing stat counts as "not migrated". */
  predicate KeepsInReb(dest: Dir, name: string, blind: bool) {
    Hidden(name) || ((blind || name !in dest) && !Working(name))
  }

  function WithTmp(t: Target, tmp: Dir, pc: Pc): (r: Target) {
    Target(t.disk.(tmp := Some(tmp)), pc)
  }

  /** The state after one step, or None when the step is not possible there (the call would fail). */
  function Next(t: Target, a: Action): (r: Option<Target>) {
    match a
    case Classify =>
      if t.pc.Idle? then Some(t.(pc := Ready(FlagOf(t.disk.rpath)))) else None
    case Begin => NextBegin(t)
    case SkipCopy(_) => NextCopy(t, a)
    case Truncate(_, _, _) => NextCopy(t, a)
    case Append(_, _) => NextWrite(t, a)
    case Stamp => NextWrite(t, a)
    case FailFile => NextWrite(t, a)
    case UnlinkLink =>
      if t.pc == Copying({}) && t.disk.rpath.Link? then Some(Target(t.disk.(rpath := Missing), Renaming)) else None
    case RenameTmp =>
      if t.pc.Renaming? && t.disk.tmp.Some? && t.disk.rpath.Missing? && t.disk.reb.Some? then
        Some(Target(Disk(Directory(t.disk.tmp.value), None, t.disk.reb), Deleting(t.disk.reb.value.Keys, {})))
      else None
    case SkipDelete(_, _) => NextDelete(t, a)
    case Delete(_) => NextDelete(t, a)
    case RmReb =>
      if t.pc.Deleting? && t.pc.todo == {} && t.disk.reb.Some? then
        if t.disk.reb.value == map[] then Some(Target(t.disk.(reb := None), RemovingParent))
        else Some(t.(pc := Done(t.pc.kept)))
      else None
    case RmParent =>
      if t.pc.RemovingParent? then Some(t.(pc := Done({}))) else None
    case Crash => Some(t.(pc := Idle))
  }

  function NextBegin(t: Target): (r: Option<Target>) {
    if !t.pc.Ready? then None
    else match t.pc.flag
      case WorkLnk =>
        if t.disk.reb.None? then None
        else
          var tmp := if t.disk.tmp.Some? then t.disk.tmp.value else map[];
          Some(WithTmp(t, tmp, Copying(t.disk.reb.value.Keys)))
      case WorkNoent =>
        if t.disk.reb.None? || t.disk.tmp.None? then None else Some(t.(pc := Renaming))
      case WorkDir =>
        if t.disk.reb.None? then Some(t.(pc := RemovingParent))
        else if !t.disk.rpath.Directory? then None
        else Some(t.(pc := Deleting(t.disk.reb.value.Keys, {})))
  }

  function NextCopy(t: Target, a: Action): (r: Option<Target>)
    requires a.SkipCopy? || a.Truncate?
  {
    if !(t.pc.Copying? && a.name in t.pc.todo && t.disk.tmp.Some? && t.disk.reb.Some? && a.name in t.disk.reb.value) then None
    else
      var tmp, src, rest := t.disk.tmp.value, t.disk.reb.value[a.name], t.pc.todo - {a.name};
      if a.SkipCopy? then
        if !IsData(a.name) || LooksMigrated(tmp, a.name, src) then Some(t.(pc := Copying(rest))) else None
      else if !IsData(a.name) || (LooksMigrated(tmp, a.name, src) && !a.blind) then None
      else Some(WithTmp(t, tmp[a.name := File([], a.now)], Writing(rest, a.name, 0)))
  }

  function NextWrite(t: Target, a: Action): (r: Option<Target>)
    requires a.Append? || a.Stamp? || a.FailFile?
  {
    if !(t.pc.Writing? && t.disk.tmp.Some? && t.disk.reb.Some? && t.pc.name in t.disk.reb.value && t.pc.name in t.disk.tmp.value) then None
    else
      var tmp, name, src, off := t.disk.tmp.value, t.pc.name, t.disk.reb.value[t.pc.name], t.pc.off;
      match a
      case Append(n, now) =>
        if 0 < n && off + n <= |src.data| then
          Some(WithTmp(t, tmp[name := File(tmp[name].data + src.data[off..off + n], now)], Writing(t.pc.todo, name, off + n)))
        else None
      case Stamp =>
        if off == |src.data| then
          Some(WithTmp(t, tmp[name := File(tmp[name].data, src.mtime)], Copying(t.pc.todo)))
        else None
      case FailFile => Some(WithTmp(t, tmp - {name}, Idle))
  }

  function NextDelete(t: Target, a: Action): (r: Option<Target>)
    requires a.SkipDelete? || a.Delete?
  {
    if !(t.pc.Deleting? && a.name in t.pc.todo && t.disk.rpath.Directory? && t.disk.reb.Some? && a.name in t.disk.reb.value) then None
    else
      var dest, rest := t.disk.rpath.files, t.pc.todo - {a.name};
      if a.SkipDelete? then
        if KeepsInReb(dest, a.name, a.blind) then
          Some(t.(pc := Deleting(rest, if Hidden(a.name) then t.pc.kept else t.pc.kept + {a.name})))
        else None
      else if KeepsInReb(dest, a.name, false) then None
      else Some(Target(t.disk.(reb := Some(t.disk.reb.value - {a.name})), Deleting(rest, t.pc.kept)))
  }

  /** Run a history, or None when one of its steps is not possible. */
  function Run(t: Target, acts: seq<Action>): (r: Option<Target>)
    decreases |acts|
  {
    if acts == [] then Some(t)
    else match Run(t, acts[..|acts| - 1])
      case None => None
      case Some(u) => Next(u, acts[|acts| - 1])
  }

  /** The state the preparation phase leaves: a symlink to a rebuild directory holding `orig`. */
  function Start(orig: Dir): (t: Target) { Target(Disk(Link, None, Some(orig)), Idle) }

  ghost predicate Reachable(orig: Dir, t: Target) {
    exists acts :: Run(Start(orig), acts) == Some(t)
  }

  // ----- the invariant -----

  /** Every file of `tmp` is a copy of a data file of `orig`, possibly cut short. */
  ghost predicate Prefixes(orig: Dir, tmp: Dir) {
    forall n :: n in tmp ==> n in orig && IsData(n) && tmp[n].data <= orig[n].data
  }

  /** `tmp` holds every data file of `orig` outside `todo`, whole and with its time. */
  ghost predicate CopiedExcept(orig: Dir, tmp: Dir, todo: set<string>) {
    forall n :: n in orig && IsData(n) && n !in todo ==> n in tmp && tmp[n] == orig[n]
  }

  ghost predicate DiskInv(orig: Dir, disk: Disk) {
    match disk.rpath
    case Link =>
      && disk.reb == Some(orig)
      && (disk.tmp.Some? ==> Prefixes(orig, disk.tmp.value))
    case Missing =>
      && disk.reb == Some(orig)
      && disk.tmp == Some(DataPart(orig))
    case Directory(files) =>
      && files == DataPart(orig)
      && disk.tmp.None?
      && (disk.reb.None? ==> HiddenPart(orig) == map[])
      && (disk.reb.Some? ==> PartlyDeleted(orig, disk.reb.value))
  }

  /** What remains of the rebuild directory while it is being emptied. */
  ghost predicate PartlyDeleted(orig: Dir, reb: Dir) {
    && (forall n :: n in reb ==> n in orig && reb[n] == orig[n])
    && (forall n :: n in orig && Hidden(n) ==> n in reb)
  }

  ghost predicate PcInv(orig: Dir, t: Target) {
    match t.pc
    case Idle => true
    case Ready(flag) => flag == FlagOf(t.disk.rpath)
    case Copying(todo) =>
      && t.disk.rpath.Link? && t.disk.tmp.Some?
      && todo <= orig.Keys
      && CopiedExcept(orig, t.disk.tmp.value, todo)
    case Writing(todo, name, off) =>
      && t.disk.rpath.Link? && t.disk.tmp.Some?
      && todo <= orig.Keys && name !in todo
      && CopiedExcept(orig, t.disk.tmp.value, todo + {name})
      && name in orig && IsData(name) && name in t.disk.tmp.value
      && off <= |orig[name].data| && t.disk.tmp.value[name].data == orig[name].data[..off]
    case Renaming => t.disk.rpath.Missing?
    case Deleting(todo, kept) =>
      && t.disk.rpath.Directory? && t.disk.reb.Some?
      && todo <= t.disk.reb.value.Keys && kept <= t.disk.reb.value.Keys && todo !! kept
      && (forall n :: n in kept ==> IsData(n))
      && forall n :: n in t.disk.reb.value && n !in todo ==> Hidden(n) || n in kept
    case RemovingParent => t.disk.rpath.Directory? && t.disk.reb.None?
    case Done(kept) =>
      && kept <= orig.Keys && (forall n :: n in kept ==> IsData(n))
      && t.disk == LeftDisk(orig, kept)
  }

  ghost predicate Inv(orig: Dir, t: Target) { DiskInv(orig, t.disk) && PcInv(orig, t) }

  /** The hidden files, and those named in `kept`. */
  function Left(orig: Dir, kept: set<string>): (d: Dir) { map n | n in orig && (Hidden(n) || n in kept) :: orig[n] }

  /** Where a pass ends that could not check on the data files named in `kept`: all data files are in
      the real directory, and these are in the rebuild directory as well. */
  function LeftDisk(orig: Dir, kept: set<string>): (d: Disk) {
    Disk(Directory(DataPart(orig)), None, if Left(orig, kept) == map[] then None else Some(Left(orig, kept)))
  }

  /** Such a disk is the final one only if nothing was kept. */
  lemma LeftDiskIsFinalIff(orig: Dir, kept: set<string>)
    requires kept <= orig.Keys && forall n :: n in kept ==> IsData(n)
    ensures LeftDisk(orig, kept) == FinalDisk(orig) <==> kept == {}
  {
    assert Left(orig, {}) == HiddenPart(orig);
    if kept != {} {
      var n :| n in kept;
      assert n in Left(orig, kept) && n !in HiddenPart(orig);
    }
  }

  /** Where every undisturbed migration ends: all data files in the real directory, nothing left but hidden files. */
  function FinalDisk(orig: Dir): (d: Disk) {
    Disk(Directory(DataPart(orig)), None, if HiddenPart(orig) == map[] then None else Some(HiddenPart(orig)))
  }

  lemma CopyKeepsInv(orig: Dir, t: Target, a: Action)
    requires Inv(orig, t) && (a.SkipCopy? || a.Truncate?) && Next(t, a).Some?
    ensures Inv(orig, Next(t, a).value)
  {
    var u := Next(t, a).value;
    var tmp := t.disk.tmp.value;
    if a.SkipCopy? && IsData(a.name) {
      assert tmp[a.name].data == orig[a.name].data;
    }
  }

  lemma AppendKeepsInv(orig: Dir, t: Target, n: nat, now: int)
    requires Inv(orig, t) && Next(t, Append(n, now)).Some?
    ensures Inv(orig, Next(t, Append(n, now)).value)
  {
    var name, off := t.pc.name, t.pc.off;
    var data := orig[name].data;
    assert data[..off] + data[off..off + n] == data[..off + n];
  }

  lemma StampKeepsInv(orig: Dir, t: Target)
    requires Inv(orig, t) && Next(t, Stamp).Some?
    ensures Inv(orig, Next(t, Stamp).value)
  {
    var data := orig[t.pc.name].data;
    assert data[..t.pc.off] == data;
  }

  lemma UnlinkKeepsInv(orig: Dir, t: Target)
    requires Inv(orig, t) && Next(t, UnlinkLink).Some?
    ensures Inv(orig, Next(t, UnlinkLink).value)
  {
    assert t.disk.tmp.value == DataPart(orig);
  }

  lemma DeleteKeepsInv(orig: Dir, t: Target, a: Action)
    requires Inv(orig, t) && (a.SkipDelete? || a.Delete?) && Next(t, a).Some?
    ensures Inv(orig, Next(t, a).value)
  {
  }

  lemma RmRebKeepsInv(orig: Dir, t: Target)
    requires Inv(orig, t) && Next(t, RmReb).Some?
    ensures Inv(orig, Next(t, RmReb).value)
  {
    assert t.disk.reb.value == Left(orig, t.pc.kept);
    assert HiddenPart(orig).Keys <= Left(orig, t.pc.kept).Keys;
  }

  lemma RmParentKeepsInv(orig: Dir, t: Target)
    requires Inv(orig, t) && Next(t, RmParent).Some?
    ensures Inv(orig, Next(t, RmParent).value)
  {
    assert Left(orig, {}) == HiddenPart(orig);
  }

  lemma StepKeepsInv(orig: Dir, t: Target, a: Action)
    requires Inv(orig, t) && Next(t, a).Some?
    ensures Inv(orig, Next(t, a).value)
  {
    match a
    case SkipCopy(_) => CopyKeepsInv(orig, t, a);
    case Truncate(_, _, _) => CopyKeepsInv(orig, t, a);
    case Append(n, now) => AppendKeepsInv(orig, t, n, now);
    case Stamp => StampKeepsInv(orig, t);
    case FailFile =>
    case UnlinkLink => UnlinkKeepsInv(orig, t);
    case SkipDelete(_, _) => DeleteKeepsInv(orig, t, a);
    case Delete(_) => DeleteKeepsInv(orig, t, a);
    case RmReb => RmRebKeepsInv(orig, t);
    case RmParent => RmParentKeepsInv(orig, t);
    case Classify =>
    case Begin =>
    case RenameTmp =>
    case Crash =>
  }

  lemma {:induction false} RunKeepsInv(orig: Dir, t: Target, acts: seq<Action>)
    requires Inv(orig, t) && Run(t, acts).Some?
    ensures Inv(orig, Run(t, acts).value)
    decreases |acts|
  {
    if acts != [] {
      var front := acts[..|acts| - 1];
      RunKeepsInv(orig, t, front);
      StepKeepsInv(orig, Run(t, front).value, acts[|acts| - 1]);
    }
  }

  lemma ReachableInv(orig: Dir, t: Target)
    requires Reachable(orig, t)
    ensures Inv(orig, t)
  {
    var acts :| Run(Start(orig), acts) == Some(t);
    RunKeepsInv(orig, Start(orig), acts);
  }

  // ----- safety over every history -----

  /** A full copy of data file `n` is where the next pass, and every user, can find it. */
  ghost predicate Safe(orig: Dir, disk: Disk, n: string)
    requires n in orig
  {
    || (disk.reb.Some? && n in disk.reb.value && disk.reb.value[n] == orig[n])
    || (disk.rpath.Directory? && n in disk.rpath.files && disk.rpath.files[n] == orig[n])
    || (disk.rpath.Missing? && disk.tmp.Some? && n in disk.tmp.value && disk.tmp.value[n] == orig[n])
  }

  /** Whatever the history of crashes, I/O errors and retries, no data file is ever lost,
      and no hidden file is ever touched. */
  lemma NoDataLoss(orig: Dir, acts: seq<Action>, t: Target)
    requires Run(Start(orig), acts) == Some(t)
    ensures forall n :: n in orig && IsData(n) ==> Safe(orig, t.disk, n)
    ensures forall n :: n in orig && Hidden(n) ==> t.disk.reb.Some? && n in t.disk.reb.value && t.disk.reb.value[n] == orig[n]
  {
    RunKeepsInv(orig, Start(orig), acts);
    if t.disk.rpath.Directory? && t.disk.reb.None? {
      assert forall n :: n in orig && Hidden(n) ==> n in HiddenPart(orig);
    }
  }

  /** The kind of the real path tells how far earlier passes got, so skipping the copy is safe
      for a missing path, and skipping the rename as well is safe for a directory. */
  lemma ClassificationSound(orig: Dir, t: Target)
    requires Reachable(orig, t)
    ensures FlagOf(t.disk.rpath) == WorkLnk ==> t.disk.reb == Some(orig)
    ensures FlagOf(t.disk.rpath) == WorkNoent ==> t.disk.tmp == Some(DataPart(orig)) && t.disk.reb == Some(orig)
    ensures FlagOf(t.disk.rpath) == WorkDir ==> t.disk.rpath.files == DataPart(orig) && t.disk.tmp.None?
  {
    ReachableInv(orig, t);
  }

  /** The "already migrated" test is exact: it accepts a copy only if it is the same file. */
  lemma SkipIsSound(orig: Dir, t: Target, n: string)
    requires Reachable(orig, t) && t.disk.rpath.Link? && t.disk.tmp.Some? && n in orig && IsData(n)
    ensures LooksMigrated(t.disk.tmp.value, n, orig[n]) <==> n in t.disk.tmp.value && t.disk.tmp.value[n] == orig[n]
  {
    ReachableInv(orig, t);
  }

  // ----- finished copies are kept -----

  /** The ".tmp" directory holds data file `n`, whole and with its time. */
  ghost predicate HasCopy(orig: Dir, t: Target, n: string)
    requires n in orig
  {
    t.disk.tmp.Some? && n in t.disk.tmp.value && t.disk.tmp.value[n] == orig[n]
  }

  predicate IsWriting(t: Target, n: string) { t.pc.Writing? && t.pc.name == n }

  /** No stat of the copy of `n` fails in the copy loop. */
  ghost predicate NeverBlindOn(acts: seq<Action>, n: string) {
    forall i :: 0 <= i < |acts| ==> !(acts[i].Truncate? && acts[i].name == n && acts[i].blind)
  }

  /** How many stats of copies failed in the copy loop. */
  function BlindCopies(acts: seq<Action>): (k: nat)
    decreases |acts|
  {
    if acts == [] then 0
    else
      var a := acts[|acts| - 1];
      BlindCopies(acts[..|acts| - 1]) + if a.Truncate? && a.blind then 1 else 0
  }

  lemma {:induction false} NoneBlindSince(before: seq<Action>, acts: seq<Action>, n: string)
    requires before <= acts
    ensures BlindCopies(before) <= BlindCopies(acts)
    ensures BlindCopies(before) == BlindCopies(acts) ==> NeverBlindOn(acts[|before|..], n)
    decreases |acts|
  {
    if |before| < |acts| {
      var front := acts[..|acts| - 1];
      NoneBlindSince(before, front, n);
      assert acts[|before|..] == front[|before|..] + [acts[|acts| - 1]];
    } else {
      assert before == acts;
    }
  }

  /** The copy of `n` is finished, or the target no longer needs one. */
  ghost predicate Finished(orig: Dir, t: Target, n: string)
    requires n in orig
  {
    t.disk.rpath.Link? ==> HasCopy(orig, t, n) && !IsWriting(t, n)
  }

  lemma StepKeepsFinished(orig: Dir, t: Target, a: Action, n: string)
    requires Inv(orig, t) && n in orig && Finished(orig, t, n) && Next(t, a).Some? && NeverBlindOn([a], n)
    ensures Finished(orig, Next(t, a).value, n)
  {
    assert [a][0] == a;
  }

  /** Whatever follows, crashes, I/O errors and restarts included, a finished copy is not touched
      again while the real path is a link. */
  lemma {:induction false} FinishedStays(orig: Dir, t: Target, acts: seq<Action>, n: string)
    requires Inv(orig, t) && n in orig && Finished(orig, t, n) && Run(t, acts).Some? && NeverBlindOn(acts, n)
    ensures Finished(orig, Run(t, acts).value, n)
    decreases |acts|
  {
    if acts != [] {
      var front, a := acts[..|acts| - 1], acts[|acts| - 1];
      FinishedStays(orig, t, front, n);
      RunKeepsInv(orig, t, front);
      StepKeepsFinished(orig, Run(t, front).value, a, n);
    }
  }

  /** After any further steps without a blind stat of it, the copy of `n` is still there. */
  ghost predicate CopySurvives(orig: Dir, t: Target, n: string)
    requires n in orig
  {
    forall acts :: NeverBlindOn(acts, n) && Run(t, acts).Some? && Run(t, acts).value.disk.rpath.Link? ==>
      HasCopy(orig, Run(t, acts).value, n)
  }

  /** Work done is kept: in every reachable state a whole copy outlasts all that may follow, exactly
      if it is not open for writing (when an I/O error would still remove it). */
  lemma FinishedCopiesSurvive(orig: Dir, t: Target, n: string)
    requires Reachable(orig, t) && n in orig && t.disk.rpath.Link? && HasCopy(orig, t, n)
    ensures CopySurvives(orig, t, n) <==> !IsWriting(t, n)
  {
    ReachableInv(orig, t);
    if IsWriting(t, n) {
      OneStep(t, FailFile);
      assert NeverBlindOn([FailFile], n) && !HasCopy(orig, Next(t, FailFile).value, n);
    } else {
      forall acts | NeverBlindOn(acts, n) && Run(t, acts).Some? && Run(t, acts).value.disk.rpath.Link?
        ensures HasCopy(orig, Run(t, acts).value, n)
      {
        FinishedStays(orig, t, acts, n);
      }
    }
  }

  /** Step `i` of a history finishes a copy of `n`. */
  ghost predicate StampsAt(orig: Dir, acts: seq<Action>, i: nat, n: string) {
    i < |acts| && acts[i].Stamp? && Run(Start(orig), acts[..i]).Some? && IsWriting(Run(Start(orig), acts[..i]).value, n)
  }

  lemma StampFinishes(orig: Dir, t: Target, n: string)
    requires Inv(orig, t) && n in orig && IsWriting(t, n) && Next(t, Stamp).Some?
    ensures Finished(orig, Next(t, Stamp).value, n)
  {
    var data := orig[n].data;
    assert data[..t.pc.off] == data;
  }

  lemma {:induction false} StampedStaysFinished(orig: Dir, acts: seq<Action>, n: string, i: nat)
    requires Run(Start(orig), acts).Some? && n in orig && NeverBlindOn(acts, n) && StampsAt(orig, acts, i, n)
    ensures Finished(orig, Run(Start(orig), acts).value, n)
    decreases |acts|
  {
    var front, a := acts[..|acts| - 1], acts[|acts| - 1];
    var t := Run(Start(orig), front).value;
    RunKeepsInv(orig, Start(orig), front);
    if i == |front| {
      StampFinishes(orig, t, n);
    } else {
      assert front[..i] == acts[..i];
      StampedStaysFinished(orig, front, n, i);
      StepKeepsFinished(orig, t, a, n);
    }
  }

  lemma StampedIsNotWritten(orig: Dir, acts: seq<Action>, n: string, i: nat)
    requires Run(Start(orig), acts).Some? && n in orig && NeverBlindOn(acts, n) && StampsAt(orig, acts, i, n)
    ensures !IsWriting(Run(Start(orig), acts).value, n)
  {
    StampedStaysFinished(orig, acts, n, i);
    RunKeepsInv(orig, Start(orig), acts);
  }

  /** So however often a migration is interrupted and restarted, each file is copied to the end at
      most once, unless the stat of its copy failed. */
  lemma EachFileCopiedOnce(orig: Dir, acts: seq<Action>, n: string, i: nat, j: nat)
    requires n in orig && NeverBlindOn(acts, n) && StampsAt(orig, acts, i, n) && StampsAt(orig, acts, j, n)
    ensures i == j
  {
    if i != j {
      var first, last := if i < j then i else j, if i < j then j else i;
      assert acts[..last][..first] == acts[..first];
      StampedIsNotWritten(orig, acts[..last], n, first);
    }
  }

  /** Comparing times alone would not do: a copy cut short may carry the time of its source. */
  lemma TimeAloneIsUnsound()
    ensures exists orig: Dir, t: Target ::
      && Reachable(orig, t) && t.pc.Idle? && t.disk.rpath.Link? && t.disk.tmp.Some?
      && "a" in orig && IsData("a") && "a" in t.disk.tmp.value
      && t.disk.tmp.value["a"].mtime == orig["a"].mtime && t.disk.tmp.value["a"] != orig["a"]
  {
    var orig: Dir := map["a" := File([1, 2], 7)];
    var t0 := Start(orig);
    var t1 := Next(t0, Classify).value;
    var t2 := Next(t1, Begin).value;
    var t3 := Next(t2, Truncate("a", 7, false)).value;
    var t4 := Next(t3, Append(1, 7)).value;
    var t5 := Next(t4, Crash).value;
    var h1 := [] + [Classify];
    var h2 := h1 + [Begin];
    var h3 := h2 + [Truncate("a", 7, false)];
    var h4 := h3 + [Append(1, 7)];
    var h5 := h4 + [Crash];
    RunSnoc(t0, [], Classify);
    RunSnoc(t0, h1, Begin);
    RunSnoc(t0, h2, Truncate("a", 7, false));
    RunSnoc(t0, h3, Append(1, 7));
    RunSnoc(t0, h4, Crash);
    assert Run(t0, h5) == Some(t5);
    assert Reachable(orig, t5);
  }

  lemma RunSnoc(t: Target, acts: seq<Action>, a: Action)
    requires Run(t, acts).Some?
    ensures Run(t, acts + [a]) == Next(Run(t, acts).value, a)
  {
    assert (acts + [a])[..|acts|] == acts;
  }

  // ----- availability -----

  /** The file a user sees under the real path. */
  function Lookup(disk: Disk, n: string): (r: Option<File>) {
    var dir := match disk.rpath
      case Link => disk.reb
      case Missing => None
      case Directory(files) => Some(files);
    if dir.Some? && n in dir.value then Some(dir.value[n]) else None
  }

  /** The tool is meant to leave the data accessible while it works. It does, file by file and byte
      by byte, exactly as long as the real path exists. */
  lemma AvailableUnlessMissing(orig: Dir, t: Target, n: string)
    requires Reachable(orig, t) && n in orig && IsData(n)
    ensures Lookup(t.disk, n) == Some(orig[n]) <==> !t.disk.rpath.Missing?
  {
    ReachableInv(orig, t);
    assert n in DataPart(orig);
  }

  /** But the symlink is unlinked before the rename rather than replaced by it, so every migration
      passes through a state where it does not exist, and a crash there leaves it that way. */
  lemma {:induction false} EveryMigrationIsUnavailableOnce(orig: Dir, acts: seq<Action>)
    requires Run(Start(orig), acts).Some? && Run(Start(orig), acts).value.disk.rpath.Directory?
    ensures exists i :: 0 <= i < |acts| && UnavailableAfter(orig, acts[..i])
    decreases |acts|
  {
    var k := |acts| - 1;
    var t := Run(Start(orig), acts[..k]).value;
    if t.disk.rpath.Directory? {
      EveryMigrationIsUnavailableOnce(orig, acts[..k]);
      var i :| 0 <= i < k && UnavailableAfter(orig, acts[..k][..i]);
      assert acts[..k][..i] == acts[..i];
    } else {
      RunSnoc(Start(orig), acts[..k], Crash);
      assert UnavailableAfter(orig, acts[..k]);
    }
  }

  ghost predicate UnavailableAfter(orig: Dir, acts: seq<Action>) {
    && Run(Start(orig), acts).Some? && Run(Start(orig), acts).value.disk.rpath.Missing?
    && Run(Start(orig), acts + [Crash]) == Some(Target(Run(Start(orig), acts).value.disk, Idle))
  }

  // ----- convergence -----

  /** A step of a pass that is not cut short. */
  predicate Uninterrupted(a: Action) { !a.Crash? && !a.FailFile? }

  ghost predicate AllUninterrupted(acts: seq<Action>) { forall i :: 0 <= i < |acts| ==> Uninterrupted(acts[i]) }

  predicate Blind(a: Action) { (a.Truncate? || a.SkipDelete?) && a.blind }

  /** A step of a pass in which no call fails at all. */
  predicate Orderly(a: Action) { Uninterrupted(a) && !Blind(a) }

  ghost predicate AllOrderly(acts: seq<Action>) { forall i :: 0 <= i < |acts| ==> Orderly(acts[i]) }

  /** The data files a pass left in the rebuild directory because their stat failed. */
  function BlindlyKept(acts: seq<Action>): (r: set<string>) {
    set a | a in acts && a.SkipDelete? && a.blind && IsData(a.name) :: a.name
  }

  function KeptBy(pc: Pc): (r: set<string>) { if pc.Deleting? || pc.Done? then pc.kept else {} }

  /** An upper bound on the steps needed to copy the files named in `todo`. */
  ghost function Cost(orig: Dir, todo: set<string>): (c: nat)
    requires todo <= orig.Keys
  {
    if todo == {} then 0
    else
      var n :| n in todo;
      |orig[n].data| + 2 + Cost(orig, todo - {n})
  }

  lemma {:induction false} CostWithout(orig: Dir, todo: set<string>, n: string)
    requires todo <= orig.Keys && n in todo
    ensures Cost(orig, todo) == |orig[n].data| + 2 + Cost(orig, todo - {n})
  {
    var m :| m in todo && Cost(orig, todo) == |orig[m].data| + 2 + Cost(orig, todo - {m});
    if m != n {
      CostWithout(orig, todo - {m}, n);
      CostWithout(orig, todo - {n}, m);
      assert todo - {m} - {n} == todo - {n} - {m};
    }
  }

  /** No pass takes more steps than this: linear in the number of files and bytes. */
  ghost function PassBound(orig: Dir): (r: nat) { |orig| + 6 + Cost(orig, orig.Keys) }

  /** How many steps a pass can still take. */
  ghost function Rank(orig: Dir, t: Target): (r: nat)
    requires Inv(orig, t)
  {
    match t.pc
    case Done(_) => 0
    case RemovingParent => 1
    case Deleting(todo, _) => |todo| + 2
    case Renaming => |orig| + 3
    case Copying(todo) => |orig| + 4 + Cost(orig, todo)
    case Writing(todo, name, off) => |orig| + 5 + Cost(orig, todo) + |orig[name].data| - off
    case Ready(_) => |orig| + 5 + Cost(orig, orig.Keys)
    case Idle => PassBound(orig)
  }

  lemma RebIsNoLarger(orig: Dir, reb: Dir)
    requires PartlyDeleted(orig, reb)
    ensures |reb.Keys| <= |orig.Keys|
  {
    SubsetSize(reb.Keys, orig.Keys);
  }

  lemma {:induction false} SubsetSize(a: set<string>, b: set<string>)
    requires a <= b
    ensures |a| <= |b|
  {
    if a != {} {
      var x :| x in a;
      SubsetSize(a - {x}, b - {x});
    }
  }

  lemma RankDropsCopying(orig: Dir, t: Target, a: Action)
    requires Inv(orig, t) && (a.SkipCopy? || a.Truncate?) && Next(t, a).Some? && Inv(orig, Next(t, a).value)
    ensures Rank(orig, Next(t, a).value) < Rank(orig, t)
  {
    CostWithout(orig, t.pc.todo, a.name);
  }

  lemma RankDropsWriting(orig: Dir, t: Target, a: Action)
    requires Inv(orig, t) && (a.Append? || a.Stamp?) && Next(t, a).Some? && Inv(orig, Next(t, a).value)
    ensures Rank(orig, Next(t, a).value) < Rank(orig, t)
  {
  }

  lemma RankDropsBegin(orig: Dir, t: Target)
    requires Inv(orig, t) && Next(t, Begin).Some? && Inv(orig, Next(t, Begin).value)
    ensures Rank(orig, Next(t, Begin).value) < Rank(orig, t)
  {
    if t.disk.rpath.Directory? && t.disk.reb.Some? { RebIsNoLarger(orig, t.disk.reb.value); }
  }

  lemma RankDropsDeleting(orig: Dir, t: Target, a: Action)
    requires Inv(orig, t) && (a.SkipDelete? || a.Delete?) && Next(t, a).Some? && Inv(orig, Next(t, a).value)
    ensures Rank(orig, Next(t, a).value) < Rank(orig, t)
  {
  }

  lemma RankDrops(orig: Dir, t: Target, a: Action)
    requires Inv(orig, t) && Uninterrupted(a) && Next(t, a).Some?
    ensures Inv(orig, Next(t, a).value)
    ensures Rank(orig, Next(t, a).value) < Rank(orig, t)
  {
    StepKeepsInv(orig, t, a);
    match a
    case SkipCopy(_) => RankDropsCopying(orig, t, a);
    case Truncate(_, _, _) => RankDropsCopying(orig, t, a);
    case Append(_, _) => RankDropsWriting(orig, t, a);
    case Stamp => RankDropsWriting(orig, t, a);
    case Begin => RankDropsBegin(orig, t);
    case SkipDelete(_, _) => RankDropsDeleting(orig, t, a);
    case Delete(_) => RankDropsDeleting(orig, t, a);
    case Classify =>
    case UnlinkLink =>
    case RenameTmp =>
    case RmReb =>
    case RmParent =>
  }

  lemma CopyProgress(orig: Dir, t: Target) returns (a: Action)
    requires Inv(orig, t) && t.pc.Copying?
    ensures Orderly(a) && Next(t, a).Some?
  {
    if n :| n in t.pc.todo {
      a := if !IsData(n) || LooksMigrated(t.disk.tmp.value, n, orig[n]) then SkipCopy(n) else Truncate(n, 0, false);
    } else {
      a := UnlinkLink;
    }
  }

  lemma DeleteProgress(orig: Dir, t: Target) returns (a: Action)
    requires Inv(orig, t) && t.pc.Deleting?
    ensures Orderly(a) && Next(t, a).Some?
  {
    if n :| n in t.pc.todo {
      a := if KeepsInReb(t.disk.rpath.files, n, false) then SkipDelete(n, false) else Delete(n);
    } else {
      a := RmReb;
    }
  }

  /** Until it is done, an undisturbed consumer always has a step that succeeds. */
  lemma Progress(orig: Dir, t: Target) returns (a: Action)
    requires Inv(orig, t) && !t.pc.Done?
    ensures Orderly(a) && Next(t, a).Some?
  {
    match t.pc
    case Idle => a := Classify;
    case Ready(_) => a := Begin;
    case Copying(_) => a := CopyProgress(orig, t);
    case Writing(_, name, off) =>
      a := if off < |orig[name].data| then Append(1, 0) else Stamp;
    case Renaming => a := RenameTmp;
    case Deleting(_, _) => a := DeleteProgress(orig, t);
    case RemovingParent => a := RmParent;
  }

  /** A step adds to the files kept exactly those whose stat failed in the delete loop. */
  lemma StepKeeps(orig: Dir, t: Target, a: Action)
    requires Inv(orig, t) && Uninterrupted(a) && Next(t, a).Some?
    ensures KeptBy(Next(t, a).value.pc) == KeptBy(t.pc) + BlindlyKept([a])
  {
    if a.SkipDelete? && IsData(a.name) {
      assert a.name in DataPart(orig);
    } else if a.RmReb? {
      assert t.disk.reb.value == map[] ==> t.pc.kept == {};
    }
    assert a in [a];
  }

  lemma BlindlyKeptSnoc(front: seq<Action>, a: Action)
    ensures BlindlyKept(front + [a]) == BlindlyKept(front) + BlindlyKept([a])
  {
    assert forall b :: b in front + [a] <==> b in front || b in [a];
  }

  lemma {:induction false} PassKeeps(orig: Dir, t: Target, acts: seq<Action>)
    requires Inv(orig, t) && AllUninterrupted(acts) && Run(t, acts).Some?
    ensures KeptBy(Run(t, acts).value.pc) == KeptBy(t.pc) + BlindlyKept(acts)
    decreases |acts|
  {
    if acts != [] {
      var front, a := acts[..|acts| - 1], acts[|acts| - 1];
      PassKeeps(orig, t, front);
      RunKeepsInv(orig, t, front);
      StepKeeps(orig, Run(t, front).value, a);
      assert acts == front + [a];
      BlindlyKeptSnoc(front, a);
    }
  }

  lemma {:induction false} PassIsBounded(orig: Dir, t: Target, acts: seq<Action>)
    requires Inv(orig, t) && AllUninterrupted(acts) && Run(t, acts).Some?
    ensures Inv(orig, Run(t, acts).value)
    ensures |acts| + Rank(orig, Run(t, acts).value) <= Rank(orig, t)
    decreases |acts|
  {
    if acts != [] {
      var front := acts[..|acts| - 1];
      PassIsBounded(orig, t, front);
      RankDrops(orig, Run(t, front).value, acts[|acts| - 1]);
    }
  }

  /** No error-free step is possible. */
  ghost predicate Stuck(t: Target) { forall a :: Orderly(a) ==> Next(t, a).None? }

  lemma StuckMeansDone(orig: Dir, t: Target)
    requires Inv(orig, t) && Stuck(t)
    ensures t.pc.Done? && t.disk == LeftDisk(orig, t.pc.kept)
  {
    if !t.pc.Done? {
      var a := Progress(orig, t);
    }
  }

  lemma RestartIsIdle(t: Target, history: seq<Action>)
    requires Run(t, history + [Crash]).Some?
    ensures Run(t, history + [Crash]).value.pc == Idle
  {
    var h := history + [Crash];
    assert h[|h| - 1] == Crash;
  }

  lemma PassOutcome(orig: Dir, s: Target, pass: seq<Action>, t: Target)
    requires Inv(orig, s) && s.pc.Idle? && AllUninterrupted(pass) && Run(s, pass) == Some(t) && t.pc.Done?
    ensures t == Target(LeftDisk(orig, BlindlyKept(pass)), Done(BlindlyKept(pass)))
  {
    RunKeepsInv(orig, s, pass);
    PassKeeps(orig, s, pass);
    assert t.pc.kept == BlindlyKept(pass);
  }

  /** Recovery converges: restart the tool after any history and let it run, uninterrupted, until it
      can do no more. Within a bounded number of steps every data file is in the real directory and
      the rebuild directory holds the hidden files and just the data files whose stat failed in the
      delete loop of this pass, whatever happened before; so the disk is the final one iff none did. */
  lemma RecoveryConverges(orig: Dir, history: seq<Action>, s: Target, pass: seq<Action>, t: Target)
    requires Run(Start(orig), history + [Crash]) == Some(s)
    requires AllUninterrupted(pass) && Run(s, pass) == Some(t) && Stuck(t)
    ensures t == Target(LeftDisk(orig, BlindlyKept(pass)), Done(BlindlyKept(pass)))
    ensures t.disk == FinalDisk(orig) <==> BlindlyKept(pass) == {}
    ensures |pass| <= PassBound(orig)
  {
    RunKeepsInv(orig, Start(orig), history + [Crash]);
    RestartIsIdle(Start(orig), history);
    PassIsBounded(orig, s, pass);
    StuckMeansDone(orig, t);
    PassOutcome(orig, s, pass, t);
    LeftDiskIsFinalIff(orig, t.pc.kept);
  }

  lemma OrderlyStep(orig: Dir, t: Target) returns (a: Action, u: Target)
    requires Inv(orig, t) && !t.pc.Done?
    ensures Orderly(a) && Run(t, [a]) == Some(u) && Inv(orig, u) && Rank(orig, u) < Rank(orig, t) && KeptBy(u.pc) == KeptBy(t.pc)
  {
    a := Progress(orig, t);
    u := Next(t, a).value;
    RankDrops(orig, t, a);
    StepKeeps(orig, t, a);
    assert BlindlyKept([a]) == {};
    OneStep(t, a);
  }

  lemma OneStep(t: Target, a: Action)
    ensures Run(t, [a]) == Next(t, a)
  {
    assert Run(t, []) == Some(t) && [a] == [] + [a];
    RunSnoc(t, [], a);
  }

  /** Only the rename puts a directory at the real path. */
  lemma StepIntoPlace(orig: Dir, t: Target, a: Action)
    requires Inv(orig, t) && !t.disk.rpath.Directory? && Uninterrupted(a) && Next(t, a).Some?
    ensures var u := Next(t, a).value; u.disk.rpath.Directory? ==>
      u == Target(Disk(Directory(DataPart(orig)), None, Some(orig)), Deleting(orig.Keys, {}))
  {
  }

  /** A target that still links to its rebuild directory can be brought into place without error. */
  lemma {:induction false} PassIntoPlace(orig: Dir, t: Target) returns (pass: seq<Action>)
    requires Inv(orig, t) && !t.disk.rpath.Directory?
    ensures AllOrderly(pass)
    ensures Run(t, pass) == Some(Target(Disk(Directory(DataPart(orig)), None, Some(orig)), Deleting(orig.Keys, {})))
    decreases Rank(orig, t)
  {
    var a, u := OrderlyStep(orig, t);
    OneStep(t, a);
    StepIntoPlace(orig, t, a);
    var rest: seq<Action> := [];
    if !u.disk.rpath.Directory? {
      rest := PassIntoPlace(orig, u);
    }
    pass := [a] + rest;
    RunSplit(t, [a], rest);
  }

  /** In the delete loop the stats of any further data files may fail. */
  lemma {:induction false} KeepBlindly(orig: Dir, t: Target, more: set<string>) returns (pass: seq<Action>, u: Target)
    requires Inv(orig, t) && t.pc.Deleting? && more <= t.pc.todo && forall n :: n in more ==> IsData(n)
    ensures AllUninterrupted(pass) && Run(t, pass) == Some(u) && Inv(orig, u) && KeptBy(u.pc) == t.pc.kept + more
    decreases more
  {
    if more == {} {
      pass, u := [], t;
    } else {
      var n :| n in more;
      var a := SkipDelete(n, true);
      var v := t.(pc := Deleting(t.pc.todo - {n}, t.pc.kept + {n}));
      assert Next(t, a) == Some(v);
      OneStep(t, a);
      StepKeepsInv(orig, t, a);
      var rest;
      rest, u := KeepBlindly(orig, v, more - {n});
      pass := [a] + rest;
      RunSplit(t, [a], rest);
    }
  }

  /** ... and such a pass exists: it can be completed from wherever it stands, keeping no more than
      it has kept already. */
  lemma {:induction false} PassCanComplete(orig: Dir, t: Target) returns (pass: seq<Action>)
    requires Inv(orig, t)
    ensures AllOrderly(pass) && Run(t, pass) == Some(Target(LeftDisk(orig, KeptBy(t.pc)), Done(KeptBy(t.pc))))
    decreases Rank(orig, t)
  {
    if t.pc.Done? {
      pass := [];
    } else {
      var a, u := OrderlyStep(orig, t);
      var rest := PassCanComplete(orig, u);
      pass := [a] + rest;
      RunSplit(t, [a], rest);
    }
  }

  /** Conversely, whichever data files one names, a pass that reports success can leave just those
      behind: the return code says nothing about the files left. */
  lemma SuccessMayLeave(orig: Dir, kept: set<string>) returns (pass: seq<Action>)
    requires kept <= orig.Keys && forall n :: n in kept ==> IsData(n)
    ensures AllUninterrupted(pass) && Run(Start(orig), pass) == Some(Target(LeftDisk(orig, kept), Done(kept)))
  {
    var first := PassIntoPlace(orig, Start(orig));
    var t := Run(Start(orig), first).value;
    RunKeepsInv(orig, Start(orig), first);
    var second, u := KeepBlindly(orig, t, kept);
    assert KeptBy(u.pc) == kept;
    var third := PassCanComplete(orig, u);
    RunSplit(t, second, third);
    RunSplit(Start(orig), first, second + third);
    pass := first + (second + third);
  }

  lemma {:induction false} RunSplit(t: Target, first: seq<Action>, rest: seq<Action>)
    requires Run(t, first).Some?
    ensures Run(t, first + rest) == Run(Run(t, first).value, rest)
    decreases |rest|
  {
    if rest == [] {
      assert first + rest == first;
    } else {
      RunSplit(t, first, rest[..|rest| - 1]);
      assert (first + rest)[..|first + rest| - 1] == first + rest[..|rest| - 1];
    }
  }

  /** Once there, nothing the tool does, crashing or not, changes the disk again. */
  lemma {:induction false} FinalDiskIsStable(orig: Dir, t: Target, acts: seq<Action>)
    requires Inv(orig, t) && t.disk == FinalDisk(orig) && Run(t, acts).Some?
    ensures Run(t, acts).value.disk == FinalDisk(orig)
    decreases |acts|
  {
    if acts != [] {
      var front := acts[..|acts| - 1];
      RunKeepsInv(orig, t, front);
      FinalDiskIsStable(orig, t, front);
    }
  }

  /** The committed source exits right after locking users out of the rebuild directory, unless a
      migrated target has no rebuild directory left: a history of that program. */
  ghost predicate Committed(t: Target, acts: seq<Action>) {
    forall i :: 0 <= i < |acts| && acts[i].Begin? && Run(t, acts[..i]).Some? ==>
      var u := Run(t, acts[..i]).value;
      u.pc == Ready(WorkDir) && u.disk.reb.None?
  }

  /** Run as committed, the tool never migrates anything (nor loses anything). */
  lemma {:induction false} CommittedNeverMigrates(orig: Dir, acts: seq<Action>)
    requires Committed(Start(orig), acts) && Run(Start(orig), acts).Some?
    ensures var t := Run(Start(orig), acts).value;
            t.disk == Start(orig).disk && (t.pc.Idle? || t.pc == Ready(WorkLnk))
    decreases |acts|
  {
    if acts != [] {
      var front := acts[..|acts| - 1];
      forall i | 0 <= i < |front|
        ensures front[i] == acts[i] && front[..i] == acts[..i]
      {
      }
      CommittedNeverMigrates(orig, front);
    }
  }
}
