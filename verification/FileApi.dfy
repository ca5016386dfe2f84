/** The file handle calls as they update the handle's fields, each proved to have exactly the
    effect and result of the step function in `FileHandle`, over which whole runs are analysed. */
module FileApi {
  import opened Common
  import opened FileHandle

  /** `marfs_fhandle` */
  class Stream {
    var datastream: Option<nat>
    var metahandle: Option<nat>
    var ns: Option<nat>
    var async: bool

    constructor ()
      ensures Pointers() == FreshFh
    {
      datastream, metahandle, ns, async := None, None, None, false;
    }

    ghost function Pointers(): (fh: Fh) reads this { Fh(datastream, metahandle, ns, async) }
  }

  class Api {
    var stream: Stream?
    var w: World

    constructor ()
      ensures Abs() == Empty && Valid()
    {
      stream, w := null, Empty.w;
    }

    ghost function Abs(): (s: Sys) reads this, stream {
      Sys(if stream == null then None else Some(stream.Pointers()), w)
    }

    /** A handle with a data stream has that stream's current file. */
    ghost predicate Valid() reads this, stream { StreamHasFile(Abs()) }

    /** The handle refers to a live data stream and the file that stream is at. */
    ghost predicate OnData() reads this, stream {
      && stream != null && stream.datastream.Some? && stream.metahandle.Some? && !stream.async
      && stream.datastream.value in w.streams && w.streams[stream.datastream.value] == stream.metahandle.value
    }

    /** The handle refers to a file by an MDAL handle of its own. */
    ghost predicate OnMetaOnly() reads this, stream {
      && stream != null && stream.datastream.None? && stream.async
      && stream.metahandle.Some? && stream.metahandle.value in w.meta
    }

    ghost predicate Dead() reads this, stream { stream != null && stream.Pointers().Dead() }

    ghost predicate HasStream() reads this, stream { stream != null && stream.datastream.Some? }

    ghost predicate MetaOnly() reads this, stream { stream != null && stream.datastream.None? && stream.metahandle.Some? }

    /** What a failed call may leave of the handle: what it was, or a dead one. */
    ghost predicate LeftOrDead(before: Option<Fh>) reads this, stream { Abs().fh == before || Dead() }

    /** EBADFD is reported if a handle that was alive has been lost, and only then. */
    ghost predicate Tells(before: Option<Fh>, errno: Errno) reads this, stream {
      before.Some? && !before.value.Dead() ==> (errno == EBADFD <==> Dead())
    }

    /** Check the handle argument, closing a meta-only reference, and duplicate the namespace
        reference. `open` tells `marfs_open` from `marfs_creat`. */
    method PrepareStream(closeOk: bool, dupOk: bool, open: bool) returns (ready: bool, st: Stream, dup: nat, errno: Errno)
      modifies this`w, stream
      ensures stream == null ==> fresh(st)
      ensures stream != null ==> st == stream
      ensures Prepare(old(Abs()), closeOk, dupOk, open) == Prepared(ready, st.Pointers(), w, dup, errno)
    {
      ready, dup, errno := false, 0, Other;
      if stream == null {
        st := new Stream();
      } else {
        st := stream;
        if st.datastream.None? && st.metahandle.None? {
          errno := EINVAL;
          return;
        }
        if st.datastream.None? {
          w := w.CloseMeta(st.metahandle.value);
          st.metahandle := None;
          if !closeOk {
            errno := EBADFD;
            return;
          }
        }
      }
      if !dupOk {
        if open && stream != null && st.metahandle.None? { errno := EBADFD; }
        return;
      }
      dup := w.next;
      w := w.(refs := w.refs + {dup}, next := dup + 1);
      ready, errno := true, NoError;
    }

    /** `marfs_creat`: on success the handle is on a data stream. On failure a handle passed in is
        left as it was or dead, and EBADFD says which, except where a meta-only handle has been closed
        and the namespace reference could not be duplicated. */
    method Creat(c: Call) returns (ok: bool, errno: Errno)
      requires Valid() && c.Creat?
      modifies this, stream
      ensures Reply(Abs(), ok, errno) == Step(old(Abs()), c) && Valid()
      ensures !old(Dead()) ==> (ok <==> c.reached && (old(MetaOnly()) ==> c.closeOk) && c.dupOk && c.out == Ok)
      ensures stream == old(stream) || fresh(stream)
      ensures ok ==> OnData() && (old(stream) != null ==> stream == old(stream))
      ensures !ok ==> stream == old(stream) && LeftOrDead(old(Abs().fh))
      ensures !ok ==> (Tells(old(Abs().fh), errno) <==> !SilentLoss(old(Abs()), c))
    {
      ok, errno := false, Other;
      if !c.reached { return; }
      var newstream := stream == null;
      var ready, st, dup, err := PrepareStream(c.closeOk, c.dupOk, false);
      if !ready { return false, err; }
      var hadstream := st.datastream.Some?;
      if c.out != Ok {
        if c.out == Destroyed {
          w := w.FreeStream(st.datastream);
          st.datastream := None;
        }
        w := w.DestroyRef(Some(dup));
        if newstream {
          errno := if c.out == Destroyed then EBADFD else Other;
        } else {
          if st.datastream.None? && hadstream { st.metahandle := None; }
          if st.metahandle.None? { errno := EBADFD; }
        }
        return;
      }
      AttachStream(st, dup);
      ok, errno := true, NoError;
    }

    /** Make the handle refer to the data stream just obtained and its current file. */
    method AttachStream(st: Stream, dup: nat)
      modifies this, st
      ensures stream == st && OnData()
      ensures Succeed(Abs()) == Attach(old(st.Pointers()), old(w), dup)
    {
      var d, h := w.next, w.next + 1;
      w := w.FreeStream(st.datastream);
      if st.ns.Some? { w := w.DestroyRef(st.ns); }
      w := w.(streams := w.streams[d := h], next := w.next + 2);
      st.datastream, st.metahandle, st.ns, st.async := Some(d), Some(h), Some(dup), false;
      stream := st;
    }

    /** Release the data stream, if there is one, before a meta-only open. */
    method ReleaseStream(st: Stream, dup: nat, releaseOk: bool) returns (ok: bool)
      modifies this`w, st
      ensures ok <==> old(st.datastream).None? || releaseOk
      ensures var w1 := old(w).FreeStream(old(st.datastream)); w == if ok then w1 else w1.DestroyRef(Some(dup))
      ensures st.Pointers() == old(st.Pointers()).(ds := None, mh := if ok then old(st.metahandle) else None)
    {
      ok := true;
      if st.datastream.Some? {
        w := w.FreeStream(st.datastream);
        st.datastream := None;
        if !releaseOk {
          st.metahandle := None;
          w := w.DestroyRef(Some(dup));
          ok := false;
        }
      }
    }

    /** `marfs_open` with O_ASYNC: on success the handle is a meta-only reference; on failure one
        passed in is left as it was or dead, and EBADFD says which. */
    method OpenMeta(c: Call) returns (ok: bool, errno: Errno)
      requires Valid() && c.OpenMeta?
      modifies this, stream
      ensures Reply(Abs(), ok, errno) == Step(old(Abs()), c) && Valid()
      ensures !old(Dead()) ==>
        (ok <==> c.reached && (old(MetaOnly()) ==> c.closeOk) && c.dupOk && (old(HasStream()) ==> c.releaseOk) && c.openOk)
      ensures stream == old(stream) || fresh(stream)
      ensures ok ==> OnMetaOnly() && (old(stream) != null ==> stream == old(stream))
      ensures !ok ==> stream == old(stream) && LeftOrDead(old(Abs().fh)) && Tells(old(Abs().fh), errno)
    {
      ok, errno := false, Other;
      if !c.reached { return; }
      var ready, st, dup, err := PrepareStream(c.closeOk, c.dupOk, true);
      if !ready { return false, err; }
      var released := ReleaseStream(st, dup, c.releaseOk);
      if !released { return false, EBADFD; }
      ok := AttachMetaOnly(st, dup, c.openOk);
      errno := if ok then NoError else if stream != null then EBADFD else Other;
    }

    /** Make the handle a meta-only reference, and open the file. On failure the namespace reference
        already stored is destroyed but stays in the handle. */
    method AttachMetaOnly(st: Stream, dup: nat, openOk: bool) returns (ok: bool)
      requires st.datastream.None?
      modifies this, st
      ensures ok == openOk && stream == if ok then st else old(stream)
      ensures ok ==> st.Pointers() == Fh(None, Some(old(w.next)), Some(dup), true)
      ensures ok ==> w == old(w).(meta := old(w.meta) + {old(w.next)}, next := old(w.next) + 1).DestroyRef(old(st.ns))
      ensures !ok ==> st.Pointers() == Fh(None, None, Some(dup), true)
      ensures !ok ==> w == old(w).DestroyRef(old(st.ns)).DestroyRef(Some(dup))
    {
      if st.ns.Some? { w := w.DestroyRef(st.ns); }
      st.async, st.ns := true, Some(dup);
      if !openOk {
        st.metahandle := None;
        w := w.DestroyRef(Some(dup));
        return false;
      }
      var h := w.next;
      w := w.(meta := w.meta + {h}, next := h + 1);
      st.metahandle := Some(h);
      stream := st;
      ok := true;
    }

    /** `marfs_open` without O_ASYNC: on success the handle is on a data stream, or a meta-only
        reference if the file has no data; on failure one passed in is left as it was or dead, and
        EBADFD says which. */
    method OpenData(c: Call) returns (ok: bool, errno: Errno)
      requires Valid() && c.OpenData?
      modifies this, stream
      ensures Reply(Abs(), ok, errno) == Step(old(Abs()), c) && Valid()
      ensures !old(Dead()) ==>
        (ok <==> (c.reached && (old(MetaOnly()) ==> c.closeOk) && c.dupOk
          && (c.out == Ok || (c.preserved && (old(HasStream()) && c.out == Kept ==> c.releaseOk)))))
      ensures stream == old(stream) || fresh(stream)
      ensures ok ==> (if c.out == Ok then OnData() else OnMetaOnly()) && (old(stream) != null ==> stream == old(stream))
      ensures !ok ==> stream == old(stream) && LeftOrDead(old(Abs().fh)) && Tells(old(Abs().fh), errno)
    {
      ok, errno := false, Other;
      if !c.reached { return; }
      var newstream := stream == null;
      var ready, st, dup, err := PrepareStream(c.closeOk, c.dupOk, true);
      if !ready { return false, err; }
      if c.out == Ok {
        AttachStream(st, dup);
        return true, NoError;
      }
      ok, errno := RecoverOpen(st, dup, c, newstream);
    }

    /** What is left to do after a failed `datastream_open`. */
    method RecoverOpen(st: Stream, dup: nat, c: Call, newstream: bool) returns (ok: bool, errno: Errno)
      requires c.OpenData? && c.out != Ok && (if newstream then stream == null else stream == st)
      modifies this, st
      ensures ok ==> stream == st && OnMetaOnly()
      ensures !ok ==> stream == old(stream)
      ensures Reply(Abs(), ok, errno) == AfterFailedOpen(old(Abs()), old(st.Pointers()), old(w), dup, c)
    {
      ok, errno := false, Other;
      var hadstream := st.datastream.Some?;
      if c.out == Destroyed {
        w := w.FreeStream(st.datastream);
        st.datastream := None;
      }
      if c.preserved {
        ok := FallBack(st, dup, c.releaseOk);
        errno := if ok then NoError else EBADFD;
      } else {
        if st.datastream.None? && hadstream { st.metahandle := None; }
        if (if newstream then c.out == Destroyed else st.metahandle.None?) { errno := EBADFD; }
      }
    }

    /** Use the MDAL handle that `datastream_open` preserved for a file without data. */
    method FallBack(st: Stream, dup: nat, releaseOk: bool) returns (ok: bool)
      modifies this, st
      ensures stream == if ok then st else old(stream)
      ensures ok ==> OnMetaOnly()
      ensures
        var fh, w1 := old(st.Pointers()), old(w).(meta := old(w.meta) + {old(w.next)}, next := old(w.next) + 1);
        if fh.ds.Some? && !releaseOk then
          !ok && st.Pointers() == fh.(ds := None, mh := None) && w == w1.FreeStream(fh.ds).CloseMeta(old(w.next)).DestroyRef(Some(dup))
        else
          ok && Succeed(Abs()) == AttachMeta(fh, w1.FreeStream(fh.ds), dup, old(w.next))
    {
      ok := false;
      var phandle := w.next;
      w := w.(meta := w.meta + {phandle}, next := phandle + 1);
      if st.datastream.Some? {
        w := w.FreeStream(st.datastream);
        st.datastream := None;
        if !releaseOk {
          w := w.CloseMeta(phandle);
          w := w.DestroyRef(Some(dup));
          st.metahandle := None;
          return;
        }
      }
      st.async, st.metahandle := true, Some(phandle);
      if st.ns.Some? { w := w.DestroyRef(st.ns); }
      st.ns := Some(dup);
      stream := st;
      ok := true;
    }

    /** A datastream call on the handle's stream, and the check that follows it: "don't allow
        invalid meta handle to persist". */
    method CallStream(out: Outcome) returns (ok: bool, errno: Errno)
      requires stream != null && stream.datastream.Some? && Valid()
      modifies this`w, stream
      ensures Reply(Abs(), ok, errno) == OnStream(old(Abs()), old(stream.Pointers()), out) && Valid()
      ensures ok ==> Abs() == old(Abs())
      ensures !ok ==> LeftOrDead(old(Abs().fh)) && (errno == EBADFD <==> Dead())
    {
      if out == Destroyed {
        w := w.FreeStream(stream.datastream);
        stream.datastream := None;
      }
      if stream.datastream.None? { stream.metahandle := None; }
      ok := out == Ok;
      errno := match out case Ok => NoError case Kept => Other case Destroyed => EBADFD;
    }

    /** `marfs_read`: the one data call without that check. A read that fails leaves the handle as it
        was unless it destroyed the stream; then EBADFD is reported of a handle that is not dead but
        keeps the MDAL handle of the stream that is gone. */
    method Read(c: Call) returns (ok: bool, errno: Errno)
      requires Valid() && c.Read?
      modifies this`w, stream
      ensures Reply(Abs(), ok, errno) == Step(old(Abs()), c) && Valid()
      ensures old(HasStream()) ==> (ok <==> c.permOk && c.out == Ok)
      ensures ok || !FatalRead(old(Abs()), c) ==> Abs() == old(Abs()) && errno != EBADFD
      ensures FatalRead(old(Abs()), c) ==> !ok && errno == EBADFD && !LeftOrDead(old(Abs().fh))
      ensures FatalRead(old(Abs()), c) ==> stream.datastream.None? && stream.metahandle == old(stream.metahandle)
    {
      if stream == null { return false, EINVAL; }
      if !c.permOk { return false, EPERM; }
      if stream.datastream.Some? {
        if c.out == Destroyed {
          w := w.FreeStream(stream.datastream);
          stream.datastream := None;
        }
        ok := c.out == Ok;
        errno := match c.out case Ok => NoError case Kept => Other case Destroyed => EBADFD;
        return;
      }
      ok, errno := CallMeta(c.directRead, c.out == Ok);
    }

    /** The meta-only branch of the data calls. */
    method CallMeta(directRead: bool, mdalOk: bool) returns (ok: bool, errno: Errno)
      requires stream != null
      ensures Reply(Abs(), ok, errno) == OnMeta(Abs(), stream.Pointers(), directRead, mdalOk)
      ensures errno != EBADFD
    {
      ok, errno := true, NoError;
      if !directRead {
        ok, errno := false, EPERM;
      } else if stream.async && !(stream.metahandle.Some? && mdalOk) {
        ok, errno := false, Other;
      }
    }

    /** `marfs_read_at_offset`: seek, then read unless the seek stopped short, which is success with
        nothing read. Failures are as for the other data calls. */
    method ReadAt(c: Call) returns (ok: bool, errno: Errno)
      requires Valid() && c.ReadAt?
      modifies this`w, stream
      ensures Reply(Abs(), ok, errno) == Step(old(Abs()), c) && Valid()
      ensures old(HasStream()) ==> (ok <==> c.permOk && c.seekOut == Ok && (c.short || c.out == Ok))
      ensures ok ==> Abs() == old(Abs())
      ensures !ok ==> LeftOrDead(old(Abs().fh)) && Tells(old(Abs().fh), errno)
    {
      if stream == null { return false, EINVAL; }
      if !c.permOk { return false, EPERM; }
      var sought := false;
      errno := Other;
      if stream.datastream.Some? {
        sought, errno := CallStream(c.seekOut);
      } else {
        if !c.directRead { return false, EPERM; }
        sought := c.seekOut == Ok;
        if stream.async && stream.metahandle.None? { sought := false; }
      }
      if !sought { return false, errno; }
      if c.short { return true, NoError; }
      if stream.datastream.Some? {
        ok, errno := CallStream(c.out);
      } else {
        ok := stream.metahandle.Some? && c.out == Ok;
        errno := if ok then NoError else Other;
      }
    }

    /** `marfs_write`, `marfs_seek`, `marfs_extend`: success leaves the handle alone; failure leaves
        it as it was or dead, and EBADFD says which. */
    method DataCall(c: Call) returns (ok: bool, errno: Errno)
      requires Valid() && (c.Write? || c.Seek? || c.Extend?)
      modifies this`w, stream
      ensures Reply(Abs(), ok, errno) == Step(old(Abs()), c) && Valid()
      ensures old(HasStream()) ==> (ok <==> (c.Write? ==> c.permOk) && c.out == Ok)
      ensures ok && !old(HasStream()) ==> c.Seek?
      ensures ok ==> Abs() == old(Abs())
      ensures !ok ==> LeftOrDead(old(Abs().fh)) && Tells(old(Abs().fh), errno)
    {
      if stream == null { return false, EINVAL; }
      match c {
        case Write(permOk, out) =>
          if !permOk || stream.datastream.None? { return false, EPERM; }
          ok, errno := CallStream(out);
        case Seek(directRead, out) =>
          if stream.datastream.Some? {
            ok, errno := CallStream(out);
          } else {
            ok, errno := CallMeta(directRead, out == Ok);
          }
        case Extend(out) =>
          if stream.datastream.None? { return false, EINVAL; }
          ok, errno := CallStream(out);
      }
    }

    /** `marfs_flush`: whatever it reports, the handle is dead afterwards and holds its namespace
        reference still. */
    method Flush(c: Call) returns (ok: bool, errno: Errno)
      requires c.Flush?
      modifies this`w, stream
      ensures Reply(Abs(), ok, errno) == Step(old(Abs()), c) && Valid()
      ensures stream != null ==> (ok <==> old(Dead()) || c.ok)
      ensures stream != null ==> Dead() && stream.ns == old(stream.ns) && w.refs == old(w.refs)
    {
      if stream == null { return false, EINVAL; }
      ok := true;
      if stream.datastream.Some? {
        w := w.FreeStream(stream.datastream);
        ok := c.ok;
      } else if stream.metahandle.Some? {
        w := w.CloseMeta(stream.metahandle.value);
        ok := c.ok;
      }
      stream.metahandle, stream.datastream := None, None;
      errno := if ok then NoError else Other;
    }

    /** `marfs_close` and `marfs_release`: whatever they report, the handle is gone and so is its
        namespace reference. They differ on a dead handle, where close reports an error. */
    method GiveUp(c: Call) returns (ok: bool, errno: Errno)
      requires c.Close? || c.Release?
      modifies this, stream
      ensures Reply(Abs(), ok, errno) == Step(old(Abs()), c) && Valid()
      ensures old(stream) != null && !old(Dead()) ==> (ok <==> c.ok)
      ensures stream == null && w.refs == old(w.refs) - (if old(stream) != null && old(stream.ns).Some? then {old(stream.ns).value} else {})
      ensures old(Dead()) ==> (ok <==> c.Release?)
    {
      if stream == null { return false, EINVAL; }
      if c.Close? && stream.metahandle.None? && stream.datastream.None? {
        if stream.ns.Some? { w := w.DestroyRef(stream.ns); }
        stream := null;
        return false, EINVAL;
      }
      ok := true;
      if stream.datastream.Some? {
        w := w.FreeStream(stream.datastream);
        ok := c.ok;
      } else if stream.metahandle.Some? {
        w := w.CloseMeta(stream.metahandle.value);
        ok := c.ok;
      }
      errno := if ok then NoError else Other;
      stream.metahandle, stream.datastream := None, None;
      if stream.ns.Some? { w := w.DestroyRef(stream.ns); }
      stream := null;
    }

    /** `marfs_ftruncate`, `marfs_chunkbounds`, `marfs_setrecoverypath`: no pointer changes. */
    method OtherCall(c: Call) returns (ok: bool, errno: Errno)
      requires c.Truncate? || c.ChunkBounds? || c.SetRecoveryPath?
      ensures Reply(Abs(), ok, errno) == Step(Abs(), c)
      ensures HasStream() ==> (ok <==> (c.Truncate? ==> c.permOk) && c.ok)
      ensures ok && !HasStream() ==> c.Truncate?
    {
      if stream == null { return false, EINVAL; }
      match c {
        case Truncate(permOk, directRead, truncated) =>
          if !permOk { return false, EPERM; }
          if stream.datastream.Some? {
            return truncated, if truncated then NoError else Other;
          }
          ok, errno := CallMeta(directRead, truncated);
        case ChunkBounds(found) =>
          if stream.datastream.None? { return false, EINVAL; }
          ok, errno := found, if found then NoError else Other;
        case SetRecoveryPath(stored) =>
          if stream.datastream.None? { return false, EINVAL; }
          ok, errno := stored, if stored then NoError else Other;
      }
    }

    /** Any call. A failed one that keeps the handle leaves it as it was or dead, exactly unless it is
        a read that destroyed its stream. */
    method Do(c: Call) returns (ok: bool, errno: Errno)
      requires Valid()
      modifies this, stream
      ensures Reply(Abs(), ok, errno) == Step(old(Abs()), c) && Valid()
      ensures old(stream) != null && !old(Dead()) ==>
        (ok <==> Below(old(stream.Pointers()), c).Some? && false !in Below(old(stream.Pointers()), c).value)
      ensures stream == old(stream) || stream == null || fresh(stream)
      ensures !ok && KeepsHandle(c) ==> (LeftOrDead(old(Abs().fh)) <==> !FatalRead(old(Abs()), c))
    {
      if c.Creat? { ok, errno := Creat(c); }
      else if c.OpenMeta? { ok, errno := OpenMeta(c); }
      else if c.OpenData? { ok, errno := OpenData(c); }
      else if c.Read? { ok, errno := Read(c); }
      else if c.ReadAt? { ok, errno := ReadAt(c); }
      else if c.Flush? { ok, errno := Flush(c); }
      else if c.Close? || c.Release? { ok, errno := GiveUp(c); }
      else if c.Truncate? || c.ChunkBounds? || c.SetRecoveryPath? { ok, errno := OtherCall(c); }
      else { ok, errno := DataCall(c); }
      if old(stream) != null && !old(Dead()) { LiveReply(old(Abs()), c); }
    }
  }

  /** Any session of calls on a fresh API: when it ends with the handle given up, the accounts of
      MDAL handles and of namespace references both balance, exactly when no read lost its stream
      and no open failed in one of the two spoiling ways. */
  method Session(calls: seq<Call>) returns (api: Api)
    ensures fresh(api) && api.Abs() == Run(Empty, calls)
    ensures api.stream == null ==>
      (!HasFatalRead(calls) <==> !api.w.badClose && api.w.meta == {} && api.w.streams == map[])
    ensures api.stream == null ==> (!HasSpoilingOpen(calls) <==> !api.w.badDestroy && api.w.refs == {})
  {
    api := new Api();
    for i := 0 to |calls|
      invariant fresh(api) && (api.stream == null || fresh(api.stream)) && api.Valid() && api.Abs() == Run(Empty, calls[..i])
    {
      var _, _ := api.Do(calls[i]);
      assert calls[..i + 1][..i] == calls[..i];
    }
    assert calls[..|calls|] == calls;
    EveryHandleClosedOnce(calls);
    EveryRefDestroyedOnce(calls);
  }
}
