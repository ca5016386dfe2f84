/** What a location listed twice does to the data: two consumers work on the same target. The first
    takes the steps of `Migration`. The second is followed through its copy loop, where it keeps the
    descriptors it opened: its write directory is the ".tmp" directory wherever that has been
    renamed to. Runs in which both write one file at the same time are not followed. */
module Duplicates {
  import opened Common
  import opened RebuildFiles
  import opened Migration

  datatype Second =
    | Absent
    | Scanning(todo: set<string>)
    | Opened(todo: set<string>, name: string, src: File)                 // the source is open for reading
    | Rewriting(todo: set<string>, name: string, src: File, off: nat)    // the copy is open for writing too

  /** The target with its first consumer, and the second consumer. */
  datatype Pair = Pair(first: Target, second: Second)

  datatype PairAction =
    | First(act: Action)
    | Join                                // the second consumer opens the directories of a linked target
    | Pass(name: string)                  // it skips a file
    | OpenSource(name: string)
    | OpenCopy(now: int)                  // it opens the copy for writing, creating or emptying it
    | WriteCopy(n: nat, now: int)
    | StampCopy
    | FailCopy                            // an I/O error: it drops the copy and returns -1
    | Die

  /** The directory the second consumer writes to. */
  function WriteDir(disk: Disk): (d: Option<Dir>) {
    if disk.tmp.Some? then disk.tmp else if disk.rpath.Directory? then Some(disk.rpath.files) else None
  }

  function WithWriteDir(disk: Disk, d: Dir): (r: Disk) {
    if disk.tmp.Some? then disk.(tmp := Some(d)) else disk.(rpath := Directory(d))
  }

  predicate Writes(t: Target, name: string) { t.pc.Writing? && t.pc.name == name }

  function PairNext(p: Pair, e: PairAction): (r: Option<Pair>) {
    match e
    case First(a) =>
      if a.Truncate? && p.second.Rewriting? && p.second.name == a.name then None
      else if Next(p.first, a).None? then None
      else Some(p.(first := Next(p.first, a).value))
    case Join =>
      if p.second.Absent? && p.first.disk.rpath.Link? && p.first.disk.reb.Some? then
        var tmp := if p.first.disk.tmp.Some? then p.first.disk.tmp.value else map[];
        Some(Pair(p.first.(disk := p.first.disk.(tmp := Some(tmp))), Scanning(p.first.disk.reb.value.Keys)))
      else None
    case Die => Some(p.(second := Absent))
    case _ => if WriteDir(p.first.disk).None? then None else SecondNext(p, WriteDir(p.first.disk).value, e)
  }

  /** A step of the second consumer's copy loop; `d` is its write directory. */
  function SecondNext(p: Pair, d: Dir, e: PairAction): (r: Option<Pair>) {
    var disk, reb := p.first.disk, if p.first.disk.reb.Some? then p.first.disk.reb.value else map[];
    match e
    case Pass(n) =>
      if p.second.Scanning? && n in p.second.todo && (!IsData(n) || (n in reb && LooksMigrated(d, n, reb[n]))) then
        Some(p.(second := Scanning(p.second.todo - {n})))
      else None
    case OpenSource(n) =>
      if p.second.Scanning? && n in p.second.todo && IsData(n) && n in reb && !LooksMigrated(d, n, reb[n]) then
        Some(p.(second := Opened(p.second.todo - {n}, n, reb[n])))
      else None
    case OpenCopy(now) =>
      if p.second.Opened? && !Writes(p.first, p.second.name) then
        Some(Pair(p.first.(disk := WithWriteDir(disk, d[p.second.name := File([], now)])),
                  Rewriting(p.second.todo, p.second.name, p.second.src, 0)))
      else None
    case WriteCopy(n, now) =>
      if p.second.Rewriting? && p.second.name in d && 0 < n && p.second.off + n <= |p.second.src.data| then
        var data := d[p.second.name].data + p.second.src.data[p.second.off..p.second.off + n];
        Some(Pair(p.first.(disk := WithWriteDir(disk, d[p.second.name := File(data, now)])),
                  p.second.(off := p.second.off + n)))
      else None
    case StampCopy =>
      if p.second.Rewriting? && p.second.name in d && p.second.off == |p.second.src.data| then
        Some(Pair(p.first.(disk := WithWriteDir(disk, d[p.second.name := File(d[p.second.name].data, p.second.src.mtime)])),
                  Scanning(p.second.todo)))
      else None
    case FailCopy =>
      if p.second.Rewriting? then Some(Pair(p.first.(disk := WithWriteDir(disk, d - {p.second.name})), Absent))
      else None
    case _ => None
  }

  function PairRun(p: Pair, evs: seq<PairAction>): (r: Option<Pair>)
    decreases |evs|
  {
    if evs == [] then Some(p)
    else match PairRun(p, evs[..|evs| - 1])
      case None => None
      case Some(q) => PairNext(q, evs[|evs| - 1])
  }

  lemma PairSnoc(p: Pair, evs: seq<PairAction>, e: PairAction)
    requires PairRun(p, evs).Some?
    ensures PairRun(p, evs + [e]) == PairNext(PairRun(p, evs).value, e)
  {
    assert (evs + [e])[..|evs|] == evs;
  }

  /** While the second consumer is not rewriting, the first can do whatever it could do alone. */
  lemma {:induction false} FirstGoesOn(p: Pair, evs: seq<PairAction>, q: Pair, acts: seq<Action>, t: Target) returns (more: seq<PairAction>)
    requires PairRun(p, evs) == Some(q) && !q.second.Rewriting? && Run(q.first, acts) == Some(t)
    ensures PairRun(p, more) == Some(q.(first := t))
    decreases |acts|
  {
    if acts == [] {
      more := evs;
    } else {
      var k := |acts| - 1;
      var u := Run(q.first, acts[..k]).value;
      var before := FirstGoesOn(p, evs, q, acts[..k], u);
      PairSnoc(p, before, First(acts[k]));
      more := before + [First(acts[k])];
    }
  }

  /** The second consumer has opened the source of `n` and not yet its copy. */
  lemma SecondOpens(orig: Dir, n: string) returns (evs: seq<PairAction>)
    requires n in orig && IsData(n)
    ensures PairRun(Pair(Start(orig), Absent), evs) ==
            Some(Pair(Target(Disk(Link, Some(map[]), Some(orig)), Idle), Opened(orig.Keys - {n}, n, orig[n])))
  {
    var p := Pair(Start(orig), Absent);
    assert PairRun(p, []) == Some(p);
    PairSnoc(p, [], Join);
    PairSnoc(p, [] + [Join], OpenSource(n));
    evs := [] + [Join] + [OpenSource(n)];
  }

  /** The file is nowhere any more, not even in part, and no source is left to copy it from. */
  predicate Lost(disk: Disk, n: string) {
    && (disk.rpath.Directory? && n !in disk.rpath.files)
    && disk.tmp.None?
    && (disk.reb.Some? ==> n !in disk.reb.value)
  }

  /** With two consumers no data file of any target is safe: each can be lost by one I/O error. The
      second consumer opens the source, the first migrates everything, reports success and has
      deleted the sources; the second now empties the only copy and, meeting an error, drops it. */
  lemma TwoConsumersLoseData(orig: Dir, n: string) returns (evs: seq<PairAction>, p: Pair)
    requires n in orig && IsData(n)
    ensures PairRun(Pair(Start(orig), Absent), evs) == Some(p)
    ensures p.first.pc == Done({}) && p.second.Absent?
    ensures Lost(p.first.disk, n) && !Safe(orig, p.first.disk, n)
  {
    var p0 := Pair(Start(orig), Absent);
    var before := SecondOpens(orig, n);
    var p1 := PairRun(p0, before).value;
    var pass := PassCanComplete(orig, p1.first);
    evs := FirstGoesOn(p0, before, p1, pass, AfterFirst(orig, n).first);
    p := SecondDrops(orig, n);
    PairSnoc(p0, evs, OpenCopy(0));
    PairSnoc(p0, evs + [OpenCopy(0)], FailCopy);
    evs := evs + [OpenCopy(0)] + [FailCopy];
  }

  /** The first consumer has finished; the second has the source of `n` open. */
  function AfterFirst(orig: Dir, n: string): (p: Pair)
    requires n in orig
  {
    Pair(Target(LeftDisk(orig, {}), Done({})), Opened(orig.Keys - {n}, n, orig[n]))
  }

  lemma SecondDrops(orig: Dir, n: string) returns (r: Pair)
    requires n in orig && IsData(n)
    ensures var q := PairNext(AfterFirst(orig, n), OpenCopy(0)); q.Some? && PairNext(q.value, FailCopy) == Some(r)
    ensures r.first.pc == Done({}) && r.second.Absent?
    ensures Lost(r.first.disk, n) && !Safe(orig, r.first.disk, n)
  {
    r := PairNext(PairNext(AfterFirst(orig, n), OpenCopy(0)).value, FailCopy).value;
  }

  lemma SecondRewrites(orig: Dir, n: string) returns (evs: seq<PairAction>, p: Pair)
    requires n in orig && IsData(n)
    ensures PairRun(AfterFirst(orig, n), evs) == Some(p)
    ensures p.second == Rewriting(orig.Keys - {n}, n, orig[n], |orig[n].data|) && p.first.pc == Done({})
    ensures p.first.disk == LeftDisk(orig, {}).(rpath := Directory(DataPart(orig)[n := File(orig[n].data, 0)]))
  {
    var p0, data := AfterFirst(orig, n), orig[n].data;
    assert PairRun(p0, []) == Some(p0);
    PairSnoc(p0, [], OpenCopy(0));
    evs := [] + [OpenCopy(0)];
    p := PairRun(p0, evs).value;
    if data != [] {
      PairSnoc(p0, evs, WriteCopy(|data|, 0));
      assert [] + data[0..|data|] == data;
      evs := evs + [WriteCopy(|data|, 0)];
      p := PairRun(p0, evs).value;
      assert p.first.disk.rpath.files == DataPart(orig)[n := File(data, 0)];
    }
  }

  /** It takes the failure: left to finish the file, the second consumer restores it, from the
      source that it alone still has open. */
  lemma SecondRestores(orig: Dir, n: string) returns (evs: seq<PairAction>, p: Pair)
    requires n in orig && IsData(n)
    ensures PairRun(AfterFirst(orig, n), evs) == Some(p)
    ensures p == Pair(Target(FinalDisk(orig), Done({})), Scanning(orig.Keys - {n}))
  {
    evs, p := SecondRewrites(orig, n);
    PairSnoc(AfterFirst(orig, n), evs, StampCopy);
    evs := evs + [StampCopy];
    p := PairNext(p, StampCopy).value;
    LeftDiskIsFinalIff(orig, {});
    assert p.first.disk.rpath.files == DataPart(orig);
  }
}
