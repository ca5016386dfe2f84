/** The consumer as the program it is: system calls on one target's directories, nested copy
    loops, a delete loop and early returns. Every call is recorded in a ghost history, and
    `Valid` says that this history is a run of the state machine in `Migration`. So whatever is
    proved there of every history holds between any two calls made here. */
module RebCons {
  import opened Common
  import opened RebuildFiles
  import opened Migration

  const IO_SIZE: nat := 1048576

  lemma PrefixTail(s: seq<byte>, t: seq<byte>, k: nat)
    requires s <= t && k <= |s|
    ensures s[k..] <= t[k..]
  {
  }

  lemma AppendNext(data: seq<byte>, buf: seq<byte>, at: nat, n: nat)
    requires at + n <= |buf|
    ensures data + buf[..at] + buf[at..][..n] == data + buf[..at + n]
  {
    assert buf[..at] + buf[at..][..n] == buf[..at + n];
  }

  lemma TakeMore(data: seq<byte>, pos: nat, n: nat)
    requires pos + n <= |data|
    ensures data[..pos] + data[pos..pos + n] == data[..pos + n]
  {
  }

  class TargetStore {
    var rpath: RealPath
    var tmp: Option<Dir>
    var reb: Option<Dir>
    var faults: nat              // calls that failed on their own account and made the consumer return -1
    var blindCopies: nat         // stats that failed in the copy loop, making it copy once more
    var blindSkips: nat          // stats that failed in the delete loop, leaving a data file behind
    ghost const orig: Dir
    ghost var pc: Pc
    ghost var history: seq<Action>

    ghost function Disk(): (d: Disk) reads this { Migration.Disk.Disk(rpath, tmp, reb) }

    ghost predicate Valid() reads this {
      Run(Start(orig), history) == Some(Target(Disk(), pc)) && blindCopies == BlindCopies(history)
    }

    /** There is a whole copy of `n`, with its time. */
    ghost predicate Holds(n: string) reads this { n in orig && HasCopy(orig, Target(Disk(), pc), n) }

    constructor (orig: Dir)
      ensures Valid() && this.orig == orig && pc == Idle && faults == 0 && blindCopies == 0 && blindSkips == 0
      ensures Disk() == Start(orig).disk
    {
      rpath, tmp, reb := Link, None, Some(orig);
      faults, blindCopies, blindSkips := 0, 0, 0;
      this.orig, pc, history := orig, Idle, [];
    }

    /** Between any two calls the invariant holds and no data file is lost. */
    lemma ValidIsSafe()
      requires Valid()
      ensures Inv(orig, Target(Disk(), pc))
      ensures forall n :: n in orig && IsData(n) ==> Safe(orig, Disk(), n)
    {
      RunKeepsInv(orig, Start(orig), history);
      NoDataLoss(orig, history, Target(Disk(), pc));
    }

    /** In the delete loop, what is no hidden or working file is in the real directory. */
    lemma DataIsInPlace(name: string)
      requires Valid() && pc.Deleting? && reb.Some? && name in reb.value && IsData(name)
      ensures rpath.Directory? && name in rpath.files
    {
      RunKeepsInv(orig, Start(orig), history);
    }

    lemma DoneIsLeft()
      requires Valid() && pc.Done?
      ensures Disk() == LeftDisk(orig, pc.kept)
      ensures Disk() == FinalDisk(orig) <==> pc.kept == {}
    {
      RunKeepsInv(orig, Start(orig), history);
      LeftDiskIsFinalIff(orig, pc.kept);
    }

    /** Note a step in the history; the fields have been updated already. */
    ghost method Record(before: Target, a: Action, after: Pc)
      requires Run(Start(orig), history) == Some(before)
      requires blindCopies == BlindCopies(history) + if a.Truncate? && a.blind then 1 else 0
      requires Next(before, a) == Some(Target(Disk(), after))
      modifies this`pc, this`history
      ensures Valid() && pc == after && history == old(history) + [a]
    {
      RunSnoc(Start(orig), history, a);
      assert (history + [a])[..|history|] == history;
      history := history + [a];
      pc := after;
    }

    /** Any call may fail for reasons of its own. */
    method MayFail() returns (failed: bool)
      modifies this`faults
      ensures faults == old(faults) + if failed then 1 else 0
    {
      failed := *;
      if failed { faults := faults + 1; }
    }

    /** Return early with -1: the next run starts over from classification. */
    method GiveUp() returns (rc: int)
      requires Valid()
      modifies this`pc, this`history
      ensures Valid() && pc == Idle && rc == -1 && old(history) <= history
    {
      Record(Target(Disk(), pc), Crash, Idle);
      rc := -1;
    }

    /** Drop the copy being written and return early. */
    method DropCopy(name: string)
      requires Valid() && pc.Writing? && pc.name == name
      modifies this`tmp, this`pc, this`history
      ensures Valid() && pc == Idle && old(history) <= history && tmp.Some? && name !in tmp.value
    {
      ValidIsSafe();
      ghost var before := Target(Disk(), pc);
      tmp := Some(tmp.value - {name});
      Record(before, FailFile, Idle);
    }

    method OpenTruncated(name: string, blind: bool)
      requires Valid() && pc.Copying? && name in pc.todo && IsData(name)
      requires tmp.Some? && reb.Some? && name in reb.value && (blind || !LooksMigrated(tmp.value, name, reb.value[name]))
      modifies this`tmp, this`pc, this`history, this`blindCopies
      ensures Valid() && pc == Writing(old(pc.todo) - {name}, name, 0) && old(history) <= history
      ensures tmp.Some? && name in tmp.value && tmp.value[name].data == []
    {
      ghost var before := Target(Disk(), pc);
      var now: int := *;
      tmp := Some(tmp.value[name := File([], now)]);
      if blind { blindCopies := blindCopies + 1; }
      Record(before, Truncate(name, now, blind), Writing(before.pc.todo - {name}, name, 0));
    }

    /** `write`: some positive number of the bytes offered reaches the copy. */
    method Write(name: string, bytes: seq<byte>) returns (n: nat)
      requires Valid() && pc.Writing? && pc.name == name && |bytes| > 0
      requires tmp.Some? && reb.Some? && name in tmp.value && name in reb.value
      requires pc.off <= |reb.value[name].data| && bytes <= reb.value[name].data[pc.off..]
      modifies this`tmp, this`pc, this`history
      ensures Valid() && 0 < n <= |bytes| && pc == old(pc).(off := old(pc.off) + n) && old(history) <= history
      ensures tmp.Some? && name in tmp.value && tmp.value[name].data == old(tmp.value[name].data) + bytes[..n]
    {
      ghost var before := Target(Disk(), pc);
      n :| 0 < n <= |bytes|;
      var now: int := *;
      tmp := Some(tmp.value[name := File(tmp.value[name].data + bytes[..n], now)]);
      assert bytes[..n] == reb.value[name].data[before.pc.off..before.pc.off + n];
      Record(before, Append(n, now), before.pc.(off := before.pc.off + n));
    }

    /** `futimens` and `close`: the copy gets its source's time. */
    method SetTimes(name: string)
      requires Valid() && pc.Writing? && pc.name == name
      requires tmp.Some? && reb.Some? && name in tmp.value && name in reb.value && pc.off == |reb.value[name].data|
      modifies this`tmp, this`pc, this`history
      ensures Valid() && pc == Copying(old(pc.todo)) && old(history) <= history
      ensures tmp.Some? && name in tmp.value && tmp.value[name] == File(old(tmp.value[name].data), reb.value[name].mtime)
    {
      ghost var before := Target(Disk(), pc);
      tmp := Some(tmp.value[name := File(tmp.value[name].data, reb.value[name].mtime)]);
      Record(before, Stamp, Copying(before.pc.todo));
    }

    /** The inner loop: get the whole buffer written, however short the writes are. */
    method WriteAll(name: string, buf: seq<byte>) returns (ok: bool)
      requires Valid() && pc.Writing? && pc.name == name
      requires tmp.Some? && reb.Some? && name in tmp.value && name in reb.value
      requires pc.off <= |reb.value[name].data| && buf <= reb.value[name].data[pc.off..]
      modifies this`tmp, this`pc, this`history, this`faults
      ensures Valid() && old(history) <= history
      ensures ok ==> pc == old(pc).(off := old(pc.off) + |buf|) && faults == old(faults)
      ensures ok ==> tmp.Some? && name in tmp.value && tmp.value[name].data == old(tmp.value[name].data) + buf
      ensures !ok ==> pc == Idle && faults > old(faults) && tmp.Some? && name !in tmp.value
    {
      ok := false;
      var at := 0;
      ghost var off0, data0 := pc.off, tmp.value[name].data;
      while at < |buf|
        invariant Valid() && faults == old(faults) && old(history) <= history
        invariant 0 <= at <= |buf| && pc == old(pc).(off := off0 + at)
        invariant tmp.Some? && name in tmp.value && tmp.value[name].data == data0 + buf[..at]
      {
        var failed := MayFail();
        if failed { DropCopy(name); return; }
        PrefixTail(buf, reb.value[name].data[off0..], at);
        assert reb.value[name].data[off0..][at..] == reb.value[name].data[pc.off..];
        var n := Write(name, buf[at..]);
        AppendNext(data0, buf, at, n);
        at := at + n;
      }
      assert buf[..at] == buf;
      ok := true;
    }

    /** The outer loop: read a bufferful, however much arrives, and write it out. */
    method CopyData(name: string) returns (ok: bool)
      requires Valid() && pc.Writing? && pc.name == name && pc.off == 0
      requires tmp.Some? && reb.Some? && name in tmp.value && name in reb.value && tmp.value[name].data == []
      modifies this`tmp, this`pc, this`history, this`faults
      ensures Valid() && old(history) <= history
      ensures ok ==> pc == old(pc).(off := |reb.value[name].data|) && faults == old(faults)
      ensures ok ==> tmp.Some? && name in tmp.value && tmp.value[name].data == reb.value[name].data
      ensures !ok ==> pc == Idle && faults > old(faults) && tmp.Some? && name !in tmp.value
    {
      ok := false;
      var data := reb.value[name].data;
      var pos := 0;
      while true
        invariant Valid() && faults == old(faults) && old(history) <= history
        invariant 0 <= pos <= |data| && pc == old(pc).(off := pos)
        invariant tmp.Some? && name in tmp.value && tmp.value[name].data == data[..pos]
        decreases |data| - pos
      {
        var failed := MayFail();                      // read
        if failed { DropCopy(name); return; }
        if pos == |data| { break; }
        var readLen: nat :| 0 < readLen <= IO_SIZE && pos + readLen <= |data|;
        var written := WriteAll(name, data[pos..pos + readLen]);
        if !written { return; }
        TakeMore(data, pos, readLen);
        pos := pos + readLen;
      }
      assert data[..pos] == data;
      ok := true;
    }

    /** Copy one file through a buffer. Reads and writes may be short in any way; if none of them
        fails the copy is exact, contents and time, whether or not an earlier one could be checked. One
        that fails leaves no part of a copy behind. */
    method CopyFile(name: string, blind: bool) returns (ok: bool)
      requires Valid() && pc.Copying? && name in pc.todo && IsData(name)
      requires tmp.Some? && reb.Some? && name in reb.value && (blind || !LooksMigrated(tmp.value, name, reb.value[name]))
      modifies this`tmp, this`pc, this`history, this`faults, this`blindCopies
      ensures Valid() && old(history) <= history
      ensures ok ==> pc == Copying(old(pc.todo) - {name}) && faults == old(faults)
      ensures ok ==> tmp.Some? && name in tmp.value && tmp.value[name] == reb.value[name]
      ensures !ok ==> pc == Idle && faults > old(faults)
      ensures !ok ==> tmp == old(tmp) || (tmp.Some? && name !in tmp.value)
    {
      ok := false;
      var failed := MayFail();                        // open for read
      if !failed { failed := MayFail(); }             // open for write
      if failed { var _ := GiveUp(); return; }
      OpenTruncated(name, blind);
      var copied := CopyData(name);
      if !copied { return; }
      failed := MayFail();                            // futimens
      if failed { DropCopy(name); return; }
      SetTimes(name);
      ok := true;
    }

    /** The first pass over the rebuild directory; `false` means the consumer returned -1. */
    method CopyAll() returns (ok: bool)
      requires Valid() && tmp.Some? && reb.Some? && pc == Copying(reb.value.Keys)
      modifies this`tmp, this`pc, this`history, this`faults, this`blindCopies
      ensures Valid() && old(history) <= history
      ensures ok ==> pc == Copying({}) && faults == old(faults)
      ensures !ok ==> pc == Idle && faults > old(faults)
    {
      ok := false;
      var stream := reb.value.Keys;
      while stream != {}
        invariant Valid() && tmp.Some? && pc == Copying(stream) && stream <= reb.value.Keys
        invariant faults == old(faults) && old(history) <= history
      {
        var failed := MayFail();                      // readdir, stat
        if failed { var _ := GiveUp(); return; }
        var name :| name in stream;
        stream := stream - {name};
        var blind: bool := *;                         // the stat of the copy fails: copy again
        if !IsData(name) || (!blind && LooksMigrated(tmp.value, name, reb.value[name])) {
          Record(Target(Disk(), pc), SkipCopy(name), Copying(stream));
        } else {
          var copied := CopyFile(name, blind);
          if !copied { return; }
        }
      }
      ok := true;
    }

    /** One entry of the second pass: a data file stays behind iff its stat fails. */
    method DeleteEntry(name: string)
      requires Valid() && rpath.Directory? && reb.Some? && pc.Deleting? && name in pc.todo && name in reb.value
      modifies this`reb, this`pc, this`history, this`blindSkips
      ensures Valid() && old(history) <= history && reb.Some?
      ensures pc.Deleting? && pc.todo == old(pc.todo) - {name}
      ensures blindSkips == old(blindSkips) || (blindSkips == old(blindSkips) + 1 && IsData(name))
      ensures pc.kept == if blindSkips == old(blindSkips) then old(pc.kept) else old(pc.kept) + {name}
      ensures name in reb.value <==> Hidden(name) || blindSkips > old(blindSkips)
      ensures forall n :: n != name ==> (n in reb.value <==> n in old(reb.value))
    {
      if IsData(name) { DataIsInPlace(name); }
      ghost var before := Target(Disk(), pc);
      ghost var rest := pc.todo - {name};
      var blind: bool := *;
      if Hidden(name) {
        Record(before, SkipDelete(name, blind), Deleting(rest, pc.kept));
      } else if (blind || name !in rpath.files) && !IsSfx(name, WRITE_SFX) && !IsSfx(name, REBUILD_SFX) {
        blindSkips := blindSkips + 1;
        Record(before, SkipDelete(name, blind), Deleting(rest, pc.kept + {name}));
      } else {
        reb := Some(reb.value - {name});
        Record(before, Delete(name), Deleting(rest, pc.kept));
      }
    }

    /** The second pass: delete what has been migrated, and working files. As many data files are
        left as stats failed. */
    method DeleteAll() returns (ok: bool)
      requires Valid() && rpath.Directory? && reb.Some? && pc == Deleting(reb.value.Keys, {})
      modifies this`reb, this`pc, this`history, this`faults, this`blindSkips
      ensures Valid() && old(history) <= history && blindSkips >= old(blindSkips)
      ensures ok ==> pc.Deleting? && pc.todo == {} && blindSkips == old(blindSkips) + |pc.kept| && faults == old(faults)
      ensures !ok ==> pc == Idle && faults > old(faults)
    {
      ok := false;
      var stream := reb.value.Keys;
      while stream != {}
        invariant Valid() && reb.Some? && stream <= reb.value.Keys
        invariant pc.Deleting? && pc.todo == stream && blindSkips == old(blindSkips) + |pc.kept|
        invariant faults == old(faults) && old(history) <= history
      {
        var failed := MayFail();                      // readdir, unlink
        if failed { var _ := GiveUp(); return; }
        var name :| name in stream;
        stream := stream - {name};
        ValidIsSafe();
        DeleteEntry(name);
      }
      ok := true;
    }

    /** Open the directories the work package calls for. A ".tmp" directory that is there is kept. */
    method Open(flag: WorkFlag)
      requires Valid() && pc == Ready(flag)
      modifies this`tmp, this`pc, this`history
      ensures Valid() && old(history) <= history && (old(tmp).Some? ==> tmp == old(tmp))
      ensures reb.None? ==> flag == WorkDir && pc == RemovingParent
      ensures reb.Some? ==> match flag
        case WorkLnk => tmp.Some? && pc == Copying(reb.value.Keys)
        case WorkNoent => pc == Renaming
        case WorkDir => rpath.Directory? && pc == Deleting(reb.value.Keys, {})
    {
      ValidIsSafe();
      ghost var before := Target(Disk(), pc);
      if reb.None? {
        Record(before, Begin, RemovingParent);
      } else if flag == WorkLnk {
        if tmp.None? { tmp := Some(map[]); }
        Record(before, Begin, Copying(reb.value.Keys));
      } else {
        Record(before, Begin, if flag == WorkDir then Deleting(reb.value.Keys, {}) else Renaming);
      }
    }

    method UnlinkSymlink()
      requires Valid() && pc == Copying({})
      modifies this`rpath, this`pc, this`history
      ensures Valid() && pc == Renaming && rpath == Missing && old(history) <= history
    {
      ValidIsSafe();
      ghost var before := Target(Disk(), pc);
      rpath := Missing;
      Record(before, UnlinkLink, Renaming);
    }

    method RenameOverLink()
      requires Valid() && pc == Renaming
      modifies this`rpath, this`tmp, this`pc, this`history
      ensures Valid() && reb.Some? && rpath.Directory? && pc == Deleting(reb.value.Keys, {}) && old(history) <= history
    {
      ValidIsSafe();
      ghost var before := Target(Disk(), pc);
      rpath, tmp := Directory(tmp.value), None;
      Record(before, RenameTmp, Deleting(reb.value.Keys, {}));
    }

    /** `rmdir` of the rebuild directory; a directory that is not empty is left behind. */
    method RemoveReb()
      requires Valid() && pc.Deleting? && pc.todo == {}
      modifies this`reb, this`pc, this`history
      ensures Valid() && pc == (if reb.None? then RemovingParent else Done(old(pc.kept))) && old(history) <= history
      ensures reb.None? ==> old(pc.kept) == {}
    {
      ValidIsSafe();
      ghost var before := Target(Disk(), pc);
      if reb.value == map[] {
        assert pc.kept == {};
        reb := None;
        Record(before, RmReb, RemovingParent);
      } else {
        Record(before, RmReb, Done(pc.kept));
      }
    }

    /** `rmdir` of the parent; ENOTEMPTY and ENOENT are no failures. */
    method RemoveParent() returns (rc: int)
      requires Valid() && pc.RemovingParent?
      modifies this`pc, this`history, this`faults
      ensures Valid() && old(history) <= history
      ensures faults >= old(faults) && (rc == 0 <==> faults == old(faults))
      ensures rc == 0 ==> pc == Done({})
      ensures rc != 0 ==> rc == -1 && pc == Idle
    {
      var failed := MayFail();
      if failed { rc := GiveUp(); return; }
      Record(Target(Disk(), pc), RmParent, Done({}));
      rc := 0;
    }

    /** Put the real directory in place, as far as earlier runs have not done so. */
    method PutInPlace(flag: WorkFlag) returns (ok: bool)
      requires Valid() && reb.Some?
      requires match flag
        case WorkLnk => tmp.Some? && pc == Copying(reb.value.Keys)
        case WorkNoent => pc == Renaming
        case WorkDir => rpath.Directory? && pc == Deleting(reb.value.Keys, {})
      modifies this
      ensures Valid() && old(history) <= history
      ensures ok ==> rpath.Directory? && reb.Some? && pc == Deleting(reb.value.Keys, {}) && faults == old(faults)
      ensures blindSkips == old(blindSkips)
      ensures !ok ==> pc == Idle && faults > old(faults)
    {
      ok := false;
      if flag == WorkDir { return true; }
      if flag == WorkLnk {
        var copied := CopyAll();
        if !copied { return; }
        var failed := MayFail();                      // unlink
        if failed { var _ := GiveUp(); return; }
        UnlinkSymlink();
      }
      var failed := MayFail();                        // rename
      if failed { var _ := GiveUp(); return; }
      RenameOverLink();
      ok := true;
    }

    /** From the opened directories to the removed rebuild directory. */
    method Migrate(flag: WorkFlag) returns (rc: int)
      requires Valid() && reb.Some?
      requires match flag
        case WorkLnk => tmp.Some? && pc == Copying(reb.value.Keys)
        case WorkNoent => pc == Renaming
        case WorkDir => rpath.Directory? && pc == Deleting(reb.value.Keys, {})
      modifies this
      ensures Valid() && old(history) <= history
      ensures faults >= old(faults) && (rc == 0 <==> faults == old(faults))
      ensures blindSkips >= old(blindSkips)
      ensures rc == 0 && reb.Some? ==> pc.Done? && |pc.kept| == blindSkips - old(blindSkips)
      ensures rc == 0 && reb.None? ==> pc.RemovingParent? && blindSkips == old(blindSkips)
      ensures rc != 0 ==> rc == -1 && pc == Idle
    {
      var ok := PutInPlace(flag);
      if ok { ok := DeleteAll(); }
      if !ok { return -1; }
      var failed := MayFail();                        // rmdir, other than ENOTEMPTY
      if failed { rc := GiveUp(); return; }
      RemoveReb();
      rc := 0;
    }

    /** `reb_cons`. It returns 0 exactly when no call failed on its own account, other than stats of
        copies: nothing the protocol itself does ever makes one fail. Then every data file is in the
        real directory, and what is left besides hidden files is one data file for each stat that
        failed in the delete loop; so 0 means the final state exactly when none did. Whatever it
        returns, copies finished before are kept. */
    method Consume(flag: WorkFlag) returns (rc: int)
      requires Valid() && pc == Ready(flag)
      modifies this
      ensures Valid() && old(history) <= history && blindSkips >= old(blindSkips)
      ensures faults >= old(faults) && (rc == 0 <==> faults == old(faults))
      ensures rc == 0 ==> pc.Done? && Disk() == LeftDisk(orig, pc.kept) && |pc.kept| == blindSkips - old(blindSkips)
      ensures rc == 0 ==> (Disk() == FinalDisk(orig) <==> blindSkips == old(blindSkips))
      ensures blindCopies == old(blindCopies) && rpath.Link? ==> forall n :: old(Holds(n)) ==> Holds(n)
      ensures rc != 0 ==> rc == -1 && pc == Idle
    {
      rc := ConsumeTarget(flag);
      CopiesStay(old(history), old(Target(Disk(), pc)));
    }

    method ConsumeTarget(flag: WorkFlag) returns (rc: int)
      requires Valid() && pc == Ready(flag)
      modifies this
      ensures Valid() && old(history) <= history && blindSkips >= old(blindSkips)
      ensures faults >= old(faults) && (rc == 0 <==> faults == old(faults))
      ensures rc == 0 ==> pc.Done? && Disk() == LeftDisk(orig, pc.kept) && |pc.kept| == blindSkips - old(blindSkips)
      ensures rc == 0 ==> (Disk() == FinalDisk(orig) <==> blindSkips == old(blindSkips))
      ensures rc != 0 ==> rc == -1 && pc == Idle
    {
      var failed := MayFail();                        // readlink, open, chown, chmod, mkdir
      if failed { rc := GiveUp(); return; }
      Open(flag);
      rc := 0;
      if reb.Some? { rc := Migrate(flag); }
      if rc == 0 && reb.None? { rc := RemoveParent(); }
      if rc == 0 { DoneIsLeft(); }
    }

    /** Copies that are finished stay, through whatever calls follow, unless a stat fails. */
    lemma CopiesStay(before: seq<Action>, t: Target)
      requires Valid() && before <= history && Run(Start(orig), before) == Some(t) && !t.pc.Writing?
      ensures blindCopies == BlindCopies(before) && rpath.Link? ==>
        forall n :: n in orig && HasCopy(orig, t, n) ==> Holds(n)
    {
      if blindCopies == BlindCopies(before) && rpath.Link? {
        var rest := history[|before|..];
        assert history == before + rest;
        RunSplit(Start(orig), before, rest);
        RunKeepsInv(orig, Start(orig), before);
        forall n | n in orig && HasCopy(orig, t, n) ensures Holds(n) {
          NoneBlindSince(before, history, n);
          FinishedStays(orig, t, rest, n);
        }
      }
    }

    /** A disk in its final state is in it after whatever calls follow. */
    lemma FinalStaysFinal(before: seq<Action>, t: Target)
      requires Valid() && before <= history && Run(Start(orig), before) == Some(t) && t.disk == FinalDisk(orig)
      ensures Disk() == FinalDisk(orig)
    {
      var rest := history[|before|..];
      assert history == before + rest;
      RunSplit(Start(orig), before, rest);
      RunKeepsInv(orig, Start(orig), before);
      FinalDiskIsStable(orig, t, rest);
    }

    /** One run of the tool on this target: classify it by its real path and consume it. */
    method Pass() returns (rc: int)
      requires Valid()
      modifies this
      ensures Valid() && old(history) <= history && blindSkips >= old(blindSkips)
      ensures faults >= old(faults) && (rc == 0 <==> faults == old(faults))
      ensures rc == 0 ==> pc.Done? && Disk() == LeftDisk(orig, pc.kept) && |pc.kept| == blindSkips - old(blindSkips)
      ensures rc == 0 ==> (Disk() == FinalDisk(orig) <==> blindSkips == old(blindSkips))
      ensures blindCopies == old(blindCopies) && rpath.Link? ==> forall n :: old(Holds(n)) ==> Holds(n)
      ensures old(Disk()) == FinalDisk(orig) ==> Disk() == FinalDisk(orig)
    {
      ghost var before := Target(Disk(), pc);
      Record(before, Crash, Idle);                    // a new process knows only what is on disk
      ghost var started, restarted := history, Target(Disk(), pc);
      var failed := MayFail();                        // stat
      if failed {
        rc := GiveUp();
      } else {
        var flag := if rpath.Link? then WorkLnk else if rpath.Directory? then WorkDir else WorkNoent;
        Record(Target(Disk(), pc), Classify, Ready(flag));
        rc := Consume(flag);
      }
      if before.disk == FinalDisk(orig) { FinalStaysFinal(old(history), before); }
      CopiesStay(started, restarted);
    }

    /** Run the tool until it succeeds, from wherever earlier runs left off. It reports success as
        soon as a run meets no fault, so within one more run than there are faults; the target is
        final exactly when `left`, the number of stats that failed in the last delete loop, is 0,
        and running it again after that changes nothing. */
    method Retry(limit: nat) returns (ok: bool, left: nat)
      requires Valid()
      modifies this
      ensures Valid() && old(history) <= history
      ensures ok ==> pc.Done? && Disk() == LeftDisk(orig, pc.kept) && |pc.kept| == left
      ensures ok ==> (Disk() == FinalDisk(orig) <==> left == 0)
      ensures !ok ==> faults >= old(faults) + limit
      ensures old(Disk()) == FinalDisk(orig) ==> Disk() == FinalDisk(orig)
    {
      for i := 0 to limit
        invariant Valid() && old(history) <= history && faults >= old(faults) + i
        invariant old(Disk()) == FinalDisk(orig) ==> Disk() == FinalDisk(orig)
      {
        var skipped := blindSkips;
        var rc := Pass();
        if rc == 0 { return true, blindSkips - skipped; }
      }
      ok, left := false, 0;
    }

    /** Run the tool until a run neither fails nor leaves a data file: then the target is final, and
        each run short of that met a failing call. */
    method RetryUntilFinal(limit: nat) returns (ok: bool)
      requires Valid()
      modifies this
      ensures Valid() && old(history) <= history
      ensures ok ==> Disk() == FinalDisk(orig)
      ensures !ok ==> faults + blindSkips >= old(faults + blindSkips) + limit
      ensures old(Disk()) == FinalDisk(orig) ==> Disk() == FinalDisk(orig)
    {
      for i := 0 to limit
        invariant Valid() && old(history) <= history && faults + blindSkips >= old(faults + blindSkips) + i
        invariant old(Disk()) == FinalDisk(orig) ==> Disk() == FinalDisk(orig)
      {
        var skipped := blindSkips;
        var rc := Pass();
        if rc == 0 && blindSkips == skipped { return true; }
      }
      ok := false;
    }
  }
}
