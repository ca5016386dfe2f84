/** The MarFS file handle: a data stream, a meta-only reference, or neither (flushed, or lost to a
    fatal error). MDAL file handles and namespace references change owner as calls succeed and
    fail; this module accounts for each of them over whole runs of the API. */
module FileHandle {
  import opened Common

  // ----- what the API owns -----

  /** The pointers of a `marfs_fhandle`, and whether its flags include O_ASYNC. */
  datatype Fh = Fh(ds: Option<nat>, mh: Option<nat>, ns: Option<nat>, async: bool) {
    predicate Dead() { ds.None? && mh.None? }
  }

  /** The accounts: MDAL handles the API must close itself, live data streams with the MDAL handle
      of their current file (which they close), and duplicated namespace references. */
  datatype World = World(next: nat, meta: set<nat>, streams: map<nat, nat>, refs: set<nat>, badClose: bool, badDestroy: bool) {

    /** `mdal->close`, whatever it returns, uses up the handle; a handle that is not ours to close is an error. */
    function CloseMeta(h: nat): (w: World) {
      if h in meta then this.(meta := meta - {h}) else this.(badClose := true)
    }

    /** `config_destroynsref`; destroying a reference that is already gone is an error. */
    function DestroyRef(ns: Option<nat>): (w: World) {
      if ns.None? then this
      else if ns.value in refs then this.(refs := refs - {ns.value})
      else this.(badDestroy := true)
    }

    /** A data stream is freed, and its MDAL handles with it. */
    function FreeStream(ds: Option<nat>): (w: World) {
      if ds.None? then this else this.(streams := streams - {ds.value})
    }
  }

  /** One user of the API, holding at most one file handle. */
  datatype Sys = Sys(fh: Option<Fh>, w: World)

  const Empty := Sys(None, World(0, {}, map[], {}, false, false))

  // ----- the calls -----

  /** How a datastream call leaves the stream it was given: done, failed with the stream
      preserved, or failed with the stream destroyed and the reference set to NULL. */
  datatype Outcome = Ok | Kept | Destroyed

  /** An API call together with what the layers below it answer. `reached` is false when the call
      fails on its arguments, path, permissions or quota before it looks at the handle; `short` says
      that a successful seek stopped before the offset asked for. */
  datatype Call =
    | Creat(reached: bool, closeOk: bool, dupOk: bool, out: Outcome)
    | OpenMeta(reached: bool, closeOk: bool, dupOk: bool, releaseOk: bool, openOk: bool)
    | OpenData(reached: bool, closeOk: bool, dupOk: bool, out: Outcome, preserved: bool, releaseOk: bool)
    | Read(permOk: bool, directRead: bool, out: Outcome)
    | Write(permOk: bool, out: Outcome)
    | Seek(directRead: bool, out: Outcome)
    | ReadAt(permOk: bool, directRead: bool, seekOut: Outcome, short: bool, out: Outcome)
    | Extend(out: Outcome)
    | Truncate(permOk: bool, directRead: bool, ok: bool)
    | ChunkBounds(ok: bool)
    | SetRecoveryPath(ok: bool)
    | Flush(ok: bool)
    | Close(ok: bool)
    | Release(ok: bool)

  /** `errno` after a call. The datastream layer reserves EBADFD for destroyed streams; `Other` stands
      for every value not named here. */
  datatype Errno = NoError | EBADFD | EINVAL | EPERM | Other

  datatype Reply = Reply(s: Sys, ok: bool, errno: Errno)

  function Succeed(s: Sys): (r: Reply) { Reply(s, true, NoError) }

  function Fail(s: Sys, errno: Errno): (r: Reply) { Reply(s, false, errno) }

  /** The layer below decides; a failure of it is neither reported as EBADFD nor touches the handle. */
  function Answer(s: Sys, ok: bool): (r: Reply) { if ok then Succeed(s) else Fail(s, Other) }

  const FreshFh := Fh(None, None, None, false)

  /** What `marfs_creat` and `marfs_open` first do with the handle they are given: refuse a dead
      one, close a meta-only one, and duplicate the namespace reference. `ready` is false if the call ends there. */
  datatype Prepared = Prepared(ready: bool, fh: Fh, w: World, dup: nat, errno: Errno)

  /** `open` tells the two callers apart: only `marfs_open` reports a handle lost in a failed duplication. */
  function Prepare(s: Sys, closeOk: bool, dupOk: bool, open: bool): (p: Prepared) {
    if s.fh.None? then Duplicate(FreshFh, s.w, dupOk, Other)
    else
      var fh := s.fh.value;
      if fh.Dead() then Prepared(false, fh, s.w, 0, EINVAL)
      else if fh.ds.Some? then Duplicate(fh, s.w, dupOk, if open then Defunct(fh) else Other)
      else if !closeOk then Prepared(false, fh.(mh := None), s.w.CloseMeta(fh.mh.value), 0, EBADFD)
      else Duplicate(fh.(mh := None), s.w.CloseMeta(fh.mh.value), dupOk, if open then EBADFD else Other)
  }

  function Duplicate(fh: Fh, w: World, dupOk: bool, errno: Errno): (p: Prepared) {
    if dupOk then Prepared(true, fh, w.(refs := w.refs + {w.next}, next := w.next + 1), w.next, NoError)
    else Prepared(false, fh, w, 0, errno)
  }

  /** The check for a defunct handle at the end of a failed call. */
  function Defunct(fh: Fh): (errno: Errno) { if fh.mh.None? then EBADFD else Other }

  /** `errno` after a failed `datastream_create` or `datastream_open`; `fh` is the handle as it is left. */
  function StreamErrno(s: Sys, fh: Fh, out: Outcome): (errno: Errno) {
    if s.fh.Some? then Defunct(fh) else if out == Destroyed then EBADFD else Other
  }

  /** A failed call frees a handle it allocated itself, and leaves the caller's in place. */
  function Refuse(s: Sys, fh: Fh, w: World, errno: Errno): (r: Reply) {
    Fail(Sys(if s.fh.None? then None else Some(fh), w), errno)
  }

  /** Success on a data stream: the handle refers to the stream and its current file. */
  function Attach(fh: Fh, w: World, dup: nat): (r: Reply) {
    var d, h := w.next, w.next + 1;
    var w' := w.FreeStream(fh.ds).DestroyRef(fh.ns);
    Succeed(Sys(Some(Fh(Some(d), Some(h), Some(dup), false)), w'.(streams := w'.streams[d := h], next := w.next + 2)))
  }

  /** Success on a meta-only reference. */
  function AttachMeta(fh: Fh, w: World, dup: nat, h: nat): (r: Reply) {
    Succeed(Sys(Some(Fh(None, Some(h), Some(dup), true)), w.DestroyRef(fh.ns)))
  }

  function StepCreat(s: Sys, c: Call): (r: Reply)
    requires c.Creat?
  {
    if !c.reached then Fail(s, Other)
    else
      var p := Prepare(s, c.closeOk, c.dupOk, false);
      if !p.ready then Refuse(s, p.fh, p.w, p.errno)
      else match c.out
        case Ok => Attach(p.fh, p.w, p.dup)
        case Kept => Refuse(s, p.fh, p.w.DestroyRef(Some(p.dup)), StreamErrno(s, p.fh, c.out))
        case Destroyed =>
          var fh := p.fh.(ds := None, mh := None);
          Refuse(s, fh, p.w.FreeStream(p.fh.ds).DestroyRef(Some(p.dup)), StreamErrno(s, fh, c.out))
  }

  function StepOpenMeta(s: Sys, c: Call): (r: Reply)
    requires c.OpenMeta?
  {
    if !c.reached then Fail(s, Other)
    else
      var p := Prepare(s, c.closeOk, c.dupOk, true);
      if !p.ready then Refuse(s, p.fh, p.w, p.errno)
      else
        var w := p.w.FreeStream(p.fh.ds);
        if p.fh.ds.Some? && !c.releaseOk then
          Refuse(s, p.fh.(ds := None, mh := None), w.DestroyRef(Some(p.dup)), EBADFD)
        else if c.openOk then
          AttachMeta(p.fh, w.(meta := w.meta + {w.next}, next := w.next + 1), p.dup, w.next)
        else
          // the reference has already been stored in the handle when it is destroyed
          Refuse(s, Fh(None, None, Some(p.dup), true), w.DestroyRef(p.fh.ns).DestroyRef(Some(p.dup)),
                 if s.fh.Some? then EBADFD else Other)
  }

  function StepOpenData(s: Sys, c: Call): (r: Reply)
    requires c.OpenData?
  {
    if !c.reached then Fail(s, Other)
    else
      var p := Prepare(s, c.closeOk, c.dupOk, true);
      if !p.ready then Refuse(s, p.fh, p.w, p.errno)
      else if c.out == Ok then Attach(p.fh, p.w, p.dup)
      else AfterFailedOpen(s, p.fh, p.w, p.dup, c)
  }

  /** `datastream_open` has failed. */
  function AfterFailedOpen(s: Sys, fh0: Fh, w0: World, dup: nat, c: Call): (r: Reply)
    requires c.OpenData?
  {
    var fh, w := if c.out == Kept then fh0 else fh0.(ds := None), if c.out == Kept then w0 else w0.FreeStream(fh0.ds);
    if c.preserved then
      // a file without data: fall back on the MDAL handle datastream_open preserved
      var h, w1 := w.next, w.(meta := w.meta + {w.next}, next := w.next + 1);
      var w2 := w1.FreeStream(fh.ds);
      if fh.ds.Some? && !c.releaseOk then
        Refuse(s, fh.(ds := None, mh := None), w2.CloseMeta(h).DestroyRef(Some(dup)), EBADFD)
      else AttachMeta(fh, w2, dup, h)
    else
      // the duplicated reference is not destroyed on this path
      var left := if fh.ds.None? && fh0.ds.Some? then fh.(mh := None) else fh;
      Refuse(s, left, w, StreamErrno(s, left, c.out))
  }

  /** A call on the data stream that drops the MDAL handle with a destroyed stream. */
  function OnStream(s: Sys, fh: Fh, out: Outcome): (r: Reply) {
    if out == Destroyed then Fail(Sys(Some(fh.(ds := None, mh := None)), s.w.FreeStream(fh.ds)), EBADFD)
    else Answer(s, out == Ok)
  }

  /** A data call on a meta-only or dead handle: only direct reads of an O_ASYNC handle reach the
      MDAL, which refuses NULL; without O_ASYNC the result stays at its initial 0. */
  function OnMeta(s: Sys, fh: Fh, directRead: bool, ok: bool): (r: Reply) {
    if !directRead then Fail(s, EPERM) else Answer(s, !fh.async || (fh.mh.Some? && ok))
  }

  function StepRead(s: Sys, fh: Fh, c: Call): (r: Reply)
    requires c.Read? && s.fh == Some(fh)
  {
    if !c.permOk then Fail(s, EPERM)
    else if fh.ds.None? then OnMeta(s, fh, c.directRead, c.out == Ok)
    else if c.out == Destroyed then
      // unlike the other calls, read leaves the MDAL handle in place
      Fail(Sys(Some(fh.(ds := None)), s.w.FreeStream(fh.ds)), EBADFD)
    else Answer(s, c.out == Ok)
  }

  /** Seek, then read. A seek that stops short means a read beyond the end: 0 bytes, and no error.
      Without a stream and without O_ASYNC no seek is made and the offset compared is an
      uninitialised variable: `seekOut` and `short` say what it happens to hold. */
  function StepReadAt(s: Sys, fh: Fh, c: Call): (r: Reply)
    requires c.ReadAt? && s.fh == Some(fh)
  {
    if !c.permOk then Fail(s, EPERM)
    else if fh.ds.None? && !c.directRead then Fail(s, EPERM)
    else if fh.ds.None? then
      var sought := c.seekOut == Ok && (fh.async ==> fh.mh.Some?);
      Answer(s, sought && (c.short || (fh.mh.Some? && c.out == Ok)))
    else if c.seekOut != Ok then OnStream(s, fh, c.seekOut)
    else if c.short then Succeed(s)
    else OnStream(s, fh, c.out)
  }

  /** Close, release and flush give up whatever the handle refers to. */
  function LetGo(fh: Fh, w: World): (w': World) {
    if fh.ds.Some? then w.FreeStream(fh.ds) else if fh.mh.Some? then w.CloseMeta(fh.mh.value) else w
  }

  /** The effect of a call, whether it reports success, and `errno` if not. */
  function Step(s: Sys, c: Call): (r: Reply) {
    match c
    case Creat(_, _, _, _) => StepCreat(s, c)
    case OpenMeta(_, _, _, _, _) => StepOpenMeta(s, c)
    case OpenData(_, _, _, _, _, _) => StepOpenData(s, c)
    case _ =>
      if s.fh.None? then Fail(s, EINVAL) else StepOnHandle(s, s.fh.value, c)
  }

  function StepOnHandle(s: Sys, fh: Fh, c: Call): (r: Reply)
    requires s.fh == Some(fh) && !c.Creat? && !c.OpenMeta? && !c.OpenData?
  {
    match c
    case Read(_, _, _) => StepRead(s, fh, c)
    case Write(permOk, out) => if !permOk || fh.ds.None? then Fail(s, EPERM) else OnStream(s, fh, out)
    case Seek(directRead, out) => if fh.ds.Some? then OnStream(s, fh, out) else OnMeta(s, fh, directRead, out == Ok)
    case ReadAt(_, _, _, _, _) => StepReadAt(s, fh, c)
    case Extend(out) => if fh.ds.Some? then OnStream(s, fh, out) else Fail(s, EINVAL)
    case Truncate(permOk, directRead, ok) =>
      if !permOk then Fail(s, EPERM)
      else if fh.ds.Some? then Answer(s, ok)
      else OnMeta(s, fh, directRead, ok)
    case ChunkBounds(ok) => if fh.ds.None? then Fail(s, EINVAL) else Answer(s, ok)
    case SetRecoveryPath(ok) => if fh.ds.None? then Fail(s, EINVAL) else Answer(s, ok)
    case Flush(ok) => Answer(Sys(Some(fh.(ds := None, mh := None)), LetGo(fh, s.w)), fh.Dead() || ok)
    case Close(ok) =>
      var left := Sys(None, LetGo(fh, s.w).DestroyRef(fh.ns));
      if fh.Dead() then Fail(left, EINVAL) else Answer(left, ok)
    case Release(ok) => Answer(Sys(None, LetGo(fh, s.w).DestroyRef(fh.ns)), fh.Dead() || ok)
  }

  function Run(s: Sys, calls: seq<Call>): (r: Sys)
    decreases |calls|
  {
    if calls == [] then s else Step(Run(s, calls[..|calls| - 1]), calls[|calls| - 1]).s
  }

  // ----- MDAL handles -----

  /** The handle's pointers agree with the accounts, and nothing else is owned. */
  ghost predicate HandlesSound(s: Sys) {
    && !s.w.badClose
    && (forall h :: h in s.w.meta ==> h < s.w.next)
    && if s.fh.None? || s.fh.value.Dead() then s.w.meta == {} && s.w.streams == map[]
       else if s.fh.value.ds.Some? then
         && s.w.meta == {} && s.fh.value.mh.Some? && !s.fh.value.async
         && s.w.streams == map[s.fh.value.ds.value := s.fh.value.mh.value]
       else s.w.meta == {s.fh.value.mh.value} && s.w.streams == map[]
  }

  /** A read that destroys the stream it reads from. */
  ghost predicate FatalRead(s: Sys, c: Call) {
    s.fh.Some? && s.fh.value.ds.Some? && c.Read? && c.permOk && c.out == Destroyed
  }

  /** The handle still refers to an MDAL handle that went with its stream. */
  ghost predicate Dangling(s: Sys) {
    && s.fh.Some? && s.fh.value.ds.None? && s.fh.value.mh.Some?
    && s.w.meta == {} && s.w.streams == map[]
  }

  lemma CreatKeepsHandlesSound(s: Sys, c: Call)
    requires HandlesSound(s) && c.Creat?
    ensures HandlesSound(StepCreat(s, c).s)
  {
  }

  lemma OpenMetaKeepsHandlesSound(s: Sys, c: Call)
    requires HandlesSound(s) && c.OpenMeta?
    ensures HandlesSound(StepOpenMeta(s, c).s)
  {
  }

  /** What preparing an open leaves of a sound handle, dead or alive. */
  lemma PrepareKeepsHandlesSound(s: Sys, closeOk: bool, dupOk: bool, open: bool)
    requires HandlesSound(s)
    ensures var p := Prepare(s, closeOk, dupOk, open); HandlesSound(Sys(Some(p.fh), p.w)) && (s.fh.None? ==> p.fh.Dead()) && (p.ready && p.fh.ds.None? ==> p.fh.Dead())
  {
  }

  lemma FailedOpenKeepsHandlesSound(s: Sys, fh: Fh, w: World, dup: nat, c: Call)
    requires HandlesSound(Sys(Some(fh), w)) && (s.fh.None? || fh.ds.None? ==> fh.Dead()) && c.OpenData? && c.out != Ok
    ensures HandlesSound(AfterFailedOpen(s, fh, w, dup, c).s)
  {
  }

  lemma AttachKeepsHandlesSound(fh: Fh, w: World, dup: nat)
    requires HandlesSound(Sys(Some(fh), w)) && (fh.ds.None? ==> fh.Dead())
    ensures HandlesSound(Attach(fh, w, dup).s)
  {
  }

  lemma OpenDataKeepsHandlesSound(s: Sys, c: Call)
    requires HandlesSound(s) && c.OpenData?
    ensures HandlesSound(StepOpenData(s, c).s)
  {
    var p := Prepare(s, c.closeOk, c.dupOk, true);
    PrepareKeepsHandlesSound(s, c.closeOk, c.dupOk, true);
    if p.ready && c.out == Ok {
      AttachKeepsHandlesSound(p.fh, p.w, p.dup);
    } else if p.ready {
      FailedOpenKeepsHandlesSound(s, p.fh, p.w, p.dup, c);
    }
  }

  lemma HandleCallKeepsHandlesSound(s: Sys, fh: Fh, c: Call)
    requires HandlesSound(s) && s.fh == Some(fh) && !c.Creat? && !c.OpenMeta? && !c.OpenData? && !FatalRead(s, c)
    ensures HandlesSound(StepOnHandle(s, fh, c).s)
  {
  }

  lemma StepKeepsHandlesSound(s: Sys, c: Call)
    requires HandlesSound(s) && !FatalRead(s, c)
    ensures HandlesSound(Step(s, c).s)
  {
    if c.Creat? {
      CreatKeepsHandlesSound(s, c);
    } else if c.OpenMeta? {
      OpenMetaKeepsHandlesSound(s, c);
    } else if c.OpenData? {
      OpenDataKeepsHandlesSound(s, c);
    } else if s.fh.Some? {
      HandleCallKeepsHandlesSound(s, s.fh.value, c);
    }
  }

  lemma FatalReadDangles(s: Sys, c: Call)
    requires HandlesSound(s) && FatalRead(s, c)
    ensures Dangling(Step(s, c).s)
  {
  }

  /** There is no way back from a dangling handle but to close what it refers to, a second time. */
  lemma DanglingStays(s: Sys, c: Call)
    requires Dangling(s) || s.w.badClose
    ensures Dangling(Step(s, c).s) || Step(s, c).s.w.badClose
  {
    if c.Creat? || c.OpenMeta? || c.OpenData? {
      OpeningKeepsDangling(s, c);
    }
  }

  /** Preparing an open closes the handle that is gone already. */
  lemma PrepareDangling(s: Sys, c: Call)
    requires (Dangling(s) || s.w.badClose) && (c.Creat? || c.OpenMeta? || c.OpenData?)
    ensures Prepare(s, c.closeOk, c.dupOk, !c.Creat?).w.badClose
  {
  }

  lemma FailedOpenKeepsBadClose(s: Sys, fh: Fh, w: World, dup: nat, c: Call)
    requires w.badClose && c.OpenData?
    ensures AfterFailedOpen(s, fh, w, dup, c).s.w.badClose
  {
  }

  lemma OpeningKeepsDangling(s: Sys, c: Call)
    requires Dangling(s) || s.w.badClose
    requires c.Creat? || c.OpenMeta? || c.OpenData?
    ensures Dangling(Step(s, c).s) || Step(s, c).s.w.badClose
  {
    var p := Prepare(s, c.closeOk, c.dupOk, !c.Creat?);
    PrepareDangling(s, c);
    if c.OpenData? { FailedOpenKeepsBadClose(s, p.fh, p.w, p.dup, c); }
  }

  /** Some read in the run destroyed its stream. */
  ghost predicate HasFatalRead(calls: seq<Call>) {
    exists i :: 0 <= i < |calls| && FatalRead(Run(Empty, calls[..i]), calls[i])
  }

  lemma HasFatalReadSnoc(front: seq<Call>, c: Call)
    ensures HasFatalRead(front + [c]) <==> HasFatalRead(front) || FatalRead(Run(Empty, front), c)
  {
    var calls := front + [c];
    assert calls[..|front|] == front && calls[|front|] == c;
    assert forall i :: 0 <= i < |front| ==> front[i] == calls[i] && front[..i] == calls[..i];
    if HasFatalRead(front) {
      var i :| 0 <= i < |front| && FatalRead(Run(Empty, front[..i]), front[i]);
      assert FatalRead(Run(Empty, calls[..i]), calls[i]);
    }
  }

  lemma RunSnoc(s: Sys, front: seq<Call>, c: Call)
    ensures Run(s, front + [c]) == Step(Run(s, front), c).s
  {
    assert (front + [c])[..|front|] == front;
  }

  lemma {:induction false} RunHandles(calls: seq<Call>)
    ensures
      var s := Run(Empty, calls);
      if HasFatalRead(calls) then Dangling(s) || s.w.badClose else HandlesSound(s)
    decreases |calls|
  {
    if calls != [] {
      var front, c := calls[..|calls| - 1], calls[|calls| - 1];
      var s := Run(Empty, front);
      RunHandles(front);
      assert calls == front + [c];
      HasFatalReadSnoc(front, c);
      RunSnoc(Empty, front, c);
      if HasFatalRead(front) {
        DanglingStays(s, c);
      } else if FatalRead(s, c) {
        FatalReadDangles(s, c);
      } else {
        StepKeepsHandlesSound(s, c);
      }
    }
  }

  /** MDAL handles over whole runs. As long as no read destroys its stream, the pointers agree with
      the accounts after every call. A run that ends with the handle given up closes every MDAL
      handle the API owned exactly once, none that a stream owned, and leaves no stream behind,
      exactly when none of its reads was fatal. */
  lemma EveryHandleClosedOnce(calls: seq<Call>)
    ensures !HasFatalRead(calls) ==> HandlesSound(Run(Empty, calls))
    ensures
      var s := Run(Empty, calls);
      s.fh.None? ==> (!HasFatalRead(calls) <==> !s.w.badClose && s.w.meta == {} && s.w.streams == map[])
  {
    RunHandles(calls);
  }

  /** The smallest run that goes wrong: open, a read that loses the stream, close. */
  lemma FatalReadClosesTwice()
    ensures
      var calls := [OpenData(true, true, true, Ok, false, true), Read(true, false, Destroyed), Close(true)];
      Run(Empty, calls).fh.None? && Run(Empty, calls).w.badClose
  {
    var c0, c1, c2 := OpenData(true, true, true, Ok, false, true), Read(true, false, Destroyed), Close(true);
    var calls := [c0, c1, c2];
    assert calls[..2] == [c0, c1] && [c0, c1][..1] == [c0] && [c0][..0] == [];
    assert Run(Empty, []) == Empty;
    assert Run(Empty, [c0]) == Step(Empty, c0).s;
    assert Run(Empty, [c0, c1]) == Step(Run(Empty, [c0]), c1).s;
  }

  // ----- dead handles -----

  /** Calls that keep the handle. */
  predicate KeepsHandle(c: Call) { !c.Close? && !c.Release? }

  /** The calls that can report success on a dead handle although the documentation says that all
      fail: flush always, and data calls where direct reads are on and the handle was not O_ASYNC. */
  predicate SucceedsWhenDead(c: Call, async: bool) {
    match c
    case Flush(_) => true
    case Read(permOk, directRead, _) => permOk && directRead && !async
    case Seek(directRead, _) => directRead && !async
    case ReadAt(permOk, directRead, seekOut, short, _) => permOk && directRead && !async && seekOut == Ok && short
    case Truncate(permOk, directRead, _) => permOk && directRead && !async
    case _ => false
  }

  /** A dead handle stays as it is through any calls but close and release, and touches nothing. */
  lemma {:induction false} DeadIsAbsorbing(s: Sys, calls: seq<Call>)
    requires s.fh.Some? && s.fh.value.Dead()
    requires forall i :: 0 <= i < |calls| ==> KeepsHandle(calls[i])
    ensures Run(s, calls) == s
    decreases |calls|
  {
    if calls != [] {
      DeadIsAbsorbing(s, calls[..|calls| - 1]);
      DeadReply(s, calls[|calls| - 1]);
    }
  }

  lemma DeadReply(s: Sys, c: Call)
    requires s.fh.Some? && s.fh.value.Dead() && KeepsHandle(c)
    ensures Step(s, c).s == s
    ensures Step(s, c).ok <==> SucceedsWhenDead(c, s.fh.value.async)
  {
  }

  /** ... and such a call can be made: flush a handle from create, then read through it. */
  lemma DeadReadSucceeds()
    ensures
      var s := Run(Empty, [Creat(true, true, true, Ok), Flush(true)]);
      && s.fh.Some? && s.fh.value.Dead()
      && forall out :: Step(s, Read(true, true, out)).ok && Step(s, Seek(true, out)).ok && Step(s, Truncate(true, true, true)).ok
  {
    var c0, c1 := Creat(true, true, true, Ok), Flush(true);
    assert [c0, c1][..1] == [c0] && [c0][..0] == [];
    assert Run(Empty, []) == Empty;
    assert Run(Empty, [c0]) == Step(Empty, c0).s;
    var s := Run(Empty, [c0, c1]);
    assert s.fh.Some? && s.fh.value.Dead() && !s.fh.value.async;
    forall out ensures Step(s, Read(true, true, out)).ok && Step(s, Seek(true, out)).ok {
      DeadReply(s, Read(true, true, out));
      DeadReply(s, Seek(true, out));
    }
    DeadReply(s, Truncate(true, true, true));
  }

  // ----- what a live handle is told -----

  /** The calls on the layers below that a call on a live handle makes, in order, with whether each
      succeeds; a call that fails is the last one made. None: it is refused before. */
  function Below(fh: Fh, c: Call): (r: Option<seq<bool>>) {
    match c
    case Read(permOk, directRead, out) =>
      if permOk && (fh.ds.Some? || directRead) then Some(if fh.ds.Some? || fh.async then [out == Ok] else []) else None
    case Write(permOk, out) => if permOk && fh.ds.Some? then Some([out == Ok]) else None
    case Seek(directRead, out) =>
      if fh.ds.Some? || directRead then Some(if fh.ds.Some? || fh.async then [out == Ok] else []) else None
    case ReadAt(permOk, directRead, seekOut, short, out) =>
      if permOk && (fh.ds.Some? || directRead) then
        Some(if seekOut != Ok then [false] else if short then [true] else [true, out == Ok])
      else None
    case Extend(out) => if fh.ds.Some? then Some([out == Ok]) else None
    case Truncate(permOk, directRead, ok) =>
      if permOk && (fh.ds.Some? || directRead) then Some(if fh.ds.Some? || fh.async then [ok] else []) else None
    case ChunkBounds(ok) => if fh.ds.Some? then Some([ok]) else None
    case SetRecoveryPath(ok) => if fh.ds.Some? then Some([ok]) else None
    case Flush(ok) => Some([ok])
    case Close(ok) => Some([ok])
    case Release(ok) => Some([ok])
    case Creat(reached, closeOk, dupOk, out) =>
      if reached then Some(Closed(fh, closeOk) + [dupOk, out == Ok]) else None
    case OpenMeta(reached, closeOk, dupOk, releaseOk, openOk) =>
      if reached then Some(Closed(fh, closeOk) + [dupOk] + Released(fh, releaseOk) + [openOk]) else None
    case OpenData(reached, closeOk, dupOk, out, preserved, releaseOk) =>
      if reached then
        Some(Closed(fh, closeOk) + [dupOk] +
             if out == Ok then [true]
             else if preserved then Released(if out == Destroyed then fh.(ds := None) else fh, releaseOk)
             else [false])
      else None
  }

  /** A meta-only reference is closed first. */
  function Closed(fh: Fh, closeOk: bool): (r: seq<bool>) { if fh.ds.None? then [closeOk] else [] }

  /** A data stream is released before a meta-only reference takes its place. */
  function Released(fh: Fh, releaseOk: bool): (r: seq<bool>) { if fh.ds.Some? then [releaseOk] else [] }

  /** Return codes can be relied on: a call on a live handle reports success exactly if it is not
      refused (for its arguments, permissions, or the kind of handle) and every call it makes on the
      layers below succeeds. */
  lemma LiveReply(s: Sys, c: Call)
    requires s.fh.Some? && !s.fh.value.Dead()
    ensures Step(s, c).ok <==> Below(s.fh.value, c).Some? && false !in Below(s.fh.value, c).value
  {
    var fh := s.fh.value;
    if c.Creat? || c.OpenMeta? || c.OpenData? {
      OpeningReply(s, fh, c);
    } else {
      HandleReply(s, fh, c);
    }
  }

  lemma OpeningReply(s: Sys, fh: Fh, c: Call)
    requires s.fh == Some(fh) && !fh.Dead() && (c.Creat? || c.OpenMeta? || c.OpenData?)
    ensures Step(s, c).ok <==> Below(fh, c).Some? && false !in Below(fh, c).value
  {
    if c.reached {
      var p := Prepare(s, c.closeOk, c.dupOk, !c.Creat?);
      assert p.ready <==> false !in Closed(fh, c.closeOk) + [c.dupOk];
      assert p.ready ==> p.fh.ds == fh.ds;
    }
  }

  lemma HandleReply(s: Sys, fh: Fh, c: Call)
    requires s.fh == Some(fh) && !fh.Dead() && !c.Creat? && !c.OpenMeta? && !c.OpenData?
    ensures Step(s, c).ok <==> Below(fh, c).Some? && false !in Below(fh, c).value
  {
  }

  /** Without a handle, creating and opening depend on the layers below alone, and all else fails. */
  lemma NoHandleReply(w: World, c: Call)
    ensures Step(Sys(None, w), c).ok <==>
      match c
      case Creat(reached, _, dupOk, out) => reached && dupOk && out == Ok
      case OpenMeta(reached, _, dupOk, _, openOk) => reached && dupOk && openOk
      case OpenData(reached, _, dupOk, out, preserved, releaseOk) => reached && dupOk && (out == Ok || preserved)
      case _ => false
  {
  }

  // ----- what errno says otherwise -----

  predicate Opens(c: Call) { c.Creat? || c.OpenMeta? || c.OpenData? }

  /** The call needs a data stream. */
  predicate NeedsStream(c: Call) { c.Extend? || c.ChunkBounds? || c.SetRecoveryPath? }

  predicate ChecksPerms(c: Call) { c.Read? || c.Write? || c.ReadAt? || c.Truncate? }

  predicate ReadsDirectly(c: Call) { c.Read? || c.Seek? || c.ReadAt? || c.Truncate? }

  /** EINVAL: no handle, a dead one where that is checked, or no data stream. */
  lemma EinvalMeans(s: Sys, c: Call)
    ensures Step(s, c).errno == EINVAL <==>
      || (s.fh.None? && !Opens(c))
      || (s.fh.Some? && s.fh.value.Dead() && (c.Close? || (Opens(c) && c.reached)))
      || (s.fh.Some? && s.fh.value.ds.None? && NeedsStream(c))
  {
  }

  /** EPERM: a missing permission, writing without a data stream, or direct reads that are off. */
  lemma EpermMeans(s: Sys, c: Call)
    ensures Step(s, c).errno == EPERM <==>
      || (s.fh.Some? && ChecksPerms(c) && !c.permOk)
      || (s.fh.Some? && s.fh.value.ds.None? && c.Write?)
      || (s.fh.Some? && s.fh.value.ds.None? && ReadsDirectly(c) && !c.directRead)
  {
  }

  /** EBADFD where there was no live handle to lose: only from a stream destroyed before the call
      could hand out a handle of its own. */
  lemma EbadfdElsewhere(s: Sys, c: Call)
    requires s.fh.None? || s.fh.value.Dead()
    ensures Step(s, c).errno == EBADFD <==>
      s.fh.None? && (c.Creat? || (c.OpenData? && !c.preserved)) && c.reached && c.dupOk && c.out == Destroyed
  {
  }

  lemma NoErrorIffOk(s: Sys, c: Call)
    ensures Step(s, c).errno == NoError <==> Step(s, c).ok
  {
  }

  // ----- what a failed call leaves -----

  /** A handle that refers to a stream refers to its current file as well. */
  ghost predicate StreamHasFile(s: Sys) { s.fh.Some? && s.fh.value.ds.Some? ==> s.fh.value.mh.Some? }

  lemma StepKeepsStreamHasFile(s: Sys, c: Call)
    requires StreamHasFile(s)
    ensures StreamHasFile(Step(s, c).s)
  {
    if c.Creat? || c.OpenMeta? || c.OpenData? {
      assert StreamHasFile(Sys(Some(Prepare(s, c.closeOk, c.dupOk, !c.Creat?).fh), s.w));
    }
  }

  lemma {:induction false} RunStreamHasFile(calls: seq<Call>)
    ensures StreamHasFile(Run(Empty, calls))
    decreases |calls|
  {
    if calls != [] {
      RunStreamHasFile(calls[..|calls| - 1]);
      StepKeepsStreamHasFile(Run(Empty, calls[..|calls| - 1]), calls[|calls| - 1]);
    }
  }

  /** The handle refers to what it referred to before. */
  ghost predicate Preserved(s: Sys, c: Call) { Step(s, c).s.fh == s.fh }

  ghost predicate Killed(s: Sys, c: Call) { Step(s, c).s.fh.Some? && Step(s, c).s.fh.value.Dead() }

  lemma OpeningFails(s: Sys, c: Call)
    requires s.fh.Some? && (c.Creat? || c.OpenMeta? || c.OpenData?) && !Step(s, c).ok
    ensures Preserved(s, c) || Killed(s, c)
  {
  }

  /** The documented promise, over all runs: a failed call leaves the caller's handle as it was, or
      dead. It is kept exactly if the call was not a read that destroyed its stream. */
  lemma FailurePreservesOrKills(calls: seq<Call>, c: Call)
    requires var s := Run(Empty, calls); s.fh.Some? && KeepsHandle(c) && !Step(s, c).ok
    ensures var s := Run(Empty, calls); Preserved(s, c) || Killed(s, c) <==> !FatalRead(s, c)
  {
    var s := Run(Empty, calls);
    RunStreamHasFile(calls);
    if c.Creat? || c.OpenMeta? || c.OpenData? { OpeningFails(s, c); }
  }

  /** The calls documented to report a lost handle as EBADFD. */
  predicate ReportsLoss(c: Call) {
    c.Creat? || c.OpenMeta? || c.OpenData? || c.Read? || c.Write? || c.Seek? || c.ReadAt? || c.Extend?
  }

  /** `marfs_creat` has closed a meta-only handle and then cannot duplicate the namespace reference. */
  ghost predicate SilentLoss(s: Sys, c: Call) {
    && s.fh.Some? && !s.fh.value.Dead() && s.fh.value.ds.None?
    && c.Creat? && c.reached && c.closeOk && !c.dupOk
  }

  lemma CreatReports(s: Sys, c: Call)
    requires s.fh.Some? && !s.fh.value.Dead() && StreamHasFile(s) && c.Creat? && !Step(s, c).ok
    ensures (Step(s, c).errno == EBADFD <==> Killed(s, c)) <==> !SilentLoss(s, c)
  {
  }

  lemma OpenReports(s: Sys, c: Call)
    requires s.fh.Some? && !s.fh.value.Dead() && StreamHasFile(s) && (c.OpenMeta? || c.OpenData?) && !Step(s, c).ok
    ensures Step(s, c).errno == EBADFD <==> Killed(s, c)
  {
  }

  /** ... and EBADFD tells the caller, over all runs, that a handle that was alive is lost: exactly
      unless a read destroyed its stream, which leaves a handle that looks alive, or `marfs_creat`
      lost a meta-only handle without saying so. */
  lemma LossIsReported(calls: seq<Call>, c: Call)
    requires var s := Run(Empty, calls); s.fh.Some? && !s.fh.value.Dead() && ReportsLoss(c) && !Step(s, c).ok
    ensures
      var s := Run(Empty, calls);
      (Step(s, c).errno == EBADFD <==> Killed(s, c)) <==> !FatalRead(s, c) && !SilentLoss(s, c)
  {
    var s := Run(Empty, calls);
    RunStreamHasFile(calls);
    if c.Creat? {
      CreatReports(s, c);
    } else if c.OpenMeta? || c.OpenData? {
      OpenReports(s, c);
    }
  }

  /** The smallest run in which a handle is lost without EBADFD. */
  lemma LossWithoutEbadfd()
    ensures
      var s := Run(Empty, [OpenMeta(true, true, true, true, true)]);
      var c := Creat(true, true, false, Ok);
      s.fh.Some? && !s.fh.value.Dead() && !Step(s, c).ok && Killed(s, c) && Step(s, c).errno != EBADFD
  {
    var c0 := OpenMeta(true, true, true, true, true);
    assert [c0][..0] == [];
    assert Run(Empty, []) == Empty;
    assert Run(Empty, [c0]) == Step(Empty, c0).s;
  }

  // ----- namespace references -----

  /** The handle holds the one live reference. */
  ghost predicate RefsSound(s: Sys) {
    && !s.w.badDestroy
    && (s.fh.None? ==> s.w.refs == {})
    && (s.fh.Some? ==> s.fh.value.ns.Some? && s.w.refs == {s.fh.value.ns.value})
    && (forall r :: r in s.w.refs ==> r < s.w.next)
  }

  /** A live reference nobody holds any more. */
  ghost predicate Lost(s: Sys, r: nat) {
    r in s.w.refs && r < s.w.next && (s.fh.Some? ==> s.fh.value.ns != Some(r))
  }

  /** A dead handle that holds a destroyed reference. */
  ghost predicate Stale(s: Sys) {
    s.fh.Some? && s.fh.value.Dead() && s.fh.value.ns.Some? && s.fh.value.ns.value !in s.w.refs
  }

  ghost predicate RefsSpoilt(s: Sys) { s.w.badDestroy || Stale(s) || exists r :: Lost(s, r) }

  /** `marfs_open` without O_ASYNC fails in `datastream_open`, with no MDAL handle to fall back on. */
  ghost predicate OpenLosesRef(s: Sys, c: Call) {
    c.OpenData? && c.reached && Prepare(s, c.closeOk, c.dupOk, true).ready && c.out != Ok && !c.preserved
  }

  /** `marfs_open` with O_ASYNC fails in the MDAL's open, on a handle the caller passed in. */
  ghost predicate OpenStalesRef(s: Sys, c: Call) {
    && c.OpenMeta? && c.reached && s.fh.Some? && !c.openOk
    && var p := Prepare(s, c.closeOk, c.dupOk, true); p.ready && (p.fh.ds.Some? ==> c.releaseOk)
  }

  ghost predicate SpoilsRefs(s: Sys, c: Call) { OpenLosesRef(s, c) || OpenStalesRef(s, c) }

  lemma PrepareRefs(s: Sys, closeOk: bool, dupOk: bool, open: bool)
    requires RefsSound(s)
    ensures
      var p := Prepare(s, closeOk, dupOk, open);
      && !p.w.badDestroy && p.w.next >= s.w.next
      && p.fh.ns == (if s.fh.Some? then s.fh.value.ns else None)
      && (p.ready ==> p.dup == s.w.next && p.w.refs == s.w.refs + {p.dup} && p.w.next == p.dup + 1 && p.dup !in s.w.refs)
      && (!p.ready ==> p.w.refs == s.w.refs)
  {
  }

  lemma CreatKeepsRefsSound(s: Sys, c: Call)
    requires RefsSound(s) && c.Creat?
    ensures RefsSound(StepCreat(s, c).s)
  {
    PrepareRefs(s, c.closeOk, c.dupOk, !c.Creat?);
  }

  lemma OpenMetaKeepsRefsSound(s: Sys, c: Call)
    requires RefsSound(s) && c.OpenMeta? && !SpoilsRefs(s, c)
    ensures RefsSound(StepOpenMeta(s, c).s)
  {
    PrepareRefs(s, c.closeOk, c.dupOk, !c.Creat?);
  }

  lemma OpenDataKeepsRefsSound(s: Sys, c: Call)
    requires RefsSound(s) && c.OpenData? && !SpoilsRefs(s, c)
    ensures RefsSound(StepOpenData(s, c).s)
  {
    PrepareRefs(s, c.closeOk, c.dupOk, !c.Creat?);
  }

  lemma StepKeepsRefsSound(s: Sys, c: Call)
    requires RefsSound(s) && !SpoilsRefs(s, c)
    ensures RefsSound(Step(s, c).s)
  {
    if c.Creat? {
      CreatKeepsRefsSound(s, c);
    } else if c.OpenMeta? {
      OpenMetaKeepsRefsSound(s, c);
    } else if c.OpenData? {
      OpenDataKeepsRefsSound(s, c);
    }
  }

  lemma SpoilingSpoils(s: Sys, c: Call)
    requires RefsSound(s) && SpoilsRefs(s, c)
    ensures RefsSpoilt(Step(s, c).s)
  {
    PrepareRefs(s, c.closeOk, c.dupOk, !c.Creat?);
    if OpenLosesRef(s, c) {
      assert Lost(Step(s, c).s, s.w.next);
    }
  }

  lemma PrepareKeepsLost(s: Sys, closeOk: bool, dupOk: bool, open: bool, r: nat)
    requires Lost(s, r)
    ensures var p := Prepare(s, closeOk, dupOk, open); r in p.w.refs && r < p.w.next && p.fh.ns != Some(r) && (p.ready ==> p.dup != r)
  {
  }

  lemma CreatKeepsLost(s: Sys, c: Call, r: nat)
    requires Lost(s, r) && c.Creat?
    ensures Lost(StepCreat(s, c).s, r)
  {
    PrepareKeepsLost(s, c.closeOk, c.dupOk, !c.Creat?, r);
  }

  lemma OpenMetaKeepsLost(s: Sys, c: Call, r: nat)
    requires Lost(s, r) && c.OpenMeta?
    ensures Lost(StepOpenMeta(s, c).s, r)
  {
    PrepareKeepsLost(s, c.closeOk, c.dupOk, !c.Creat?, r);
  }

  lemma FailedStreamKeepsLost(s: Sys, c: Call, r: nat)
    requires Lost(s, r) && c.OpenData? && c.out != Ok
    ensures Lost(StepOpenData(s, c).s, r)
  {
    PrepareKeepsLost(s, c.closeOk, c.dupOk, true, r);
  }

  lemma OpenDataKeepsLost(s: Sys, c: Call, r: nat)
    requires Lost(s, r) && c.OpenData?
    ensures Lost(StepOpenData(s, c).s, r)
  {
    if c.out == Ok {
      PrepareKeepsLost(s, c.closeOk, c.dupOk, true, r);
    } else {
      FailedStreamKeepsLost(s, c, r);
    }
  }

  /** Only the reference the handle holds, or one duplicated in the call, is ever destroyed. */
  lemma StepKeepsLost(s: Sys, c: Call, r: nat)
    requires Lost(s, r)
    ensures Lost(Step(s, c).s, r)
  {
    if c.Creat? {
      CreatKeepsLost(s, c, r);
    } else if c.OpenMeta? {
      OpenMetaKeepsLost(s, c, r);
    } else if c.OpenData? {
      OpenDataKeepsLost(s, c, r);
    }
  }

  lemma CreatKeepsBadDestroy(s: Sys, c: Call)
    requires s.w.badDestroy && c.Creat?
    ensures StepCreat(s, c).s.w.badDestroy
  {
    assert Prepare(s, c.closeOk, c.dupOk, false).w.badDestroy;
  }

  lemma OpenKeepsBadDestroy(s: Sys, c: Call)
    requires s.w.badDestroy && (c.OpenMeta? || c.OpenData?)
    ensures Step(s, c).s.w.badDestroy
  {
    assert Prepare(s, c.closeOk, c.dupOk, true).w.badDestroy;
  }

  lemma BadDestroyStays(s: Sys, c: Call)
    requires s.w.badDestroy
    ensures Step(s, c).s.w.badDestroy
  {
    if c.Creat? {
      CreatKeepsBadDestroy(s, c);
    } else if c.OpenMeta? || c.OpenData? {
      OpenKeepsBadDestroy(s, c);
    }
  }

  lemma SpoiltStays(s: Sys, c: Call)
    requires RefsSpoilt(s)
    ensures RefsSpoilt(Step(s, c).s)
  {
    if s.w.badDestroy {
      BadDestroyStays(s, c);
    } else if exists r :: Lost(s, r) {
      var r :| Lost(s, r);
      StepKeepsLost(s, c, r);
    } else if KeepsHandle(c) {
      DeadReply(s, c);
    }
  }

  ghost predicate HasSpoilingOpen(calls: seq<Call>) {
    exists i :: 0 <= i < |calls| && SpoilsRefs(Run(Empty, calls[..i]), calls[i])
  }

  lemma HasSpoilingOpenSnoc(front: seq<Call>, c: Call)
    ensures HasSpoilingOpen(front + [c]) <==> HasSpoilingOpen(front) || SpoilsRefs(Run(Empty, front), c)
  {
    var calls := front + [c];
    assert calls[..|front|] == front && calls[|front|] == c;
    assert forall i :: 0 <= i < |front| ==> front[i] == calls[i] && front[..i] == calls[..i];
    if HasSpoilingOpen(front) {
      var i :| 0 <= i < |front| && SpoilsRefs(Run(Empty, front[..i]), front[i]);
      assert SpoilsRefs(Run(Empty, calls[..i]), calls[i]);
    }
  }

  lemma {:induction false} RunRefs(calls: seq<Call>)
    ensures if HasSpoilingOpen(calls) then RefsSpoilt(Run(Empty, calls)) else RefsSound(Run(Empty, calls))
    decreases |calls|
  {
    if calls != [] {
      var front, c := calls[..|calls| - 1], calls[|calls| - 1];
      var s := Run(Empty, front);
      RunRefs(front);
      assert calls == front + [c];
      HasSpoilingOpenSnoc(front, c);
      RunSnoc(Empty, front, c);
      if HasSpoilingOpen(front) {
        SpoiltStays(s, c);
      } else if SpoilsRefs(s, c) {
        SpoilingSpoils(s, c);
      } else {
        StepKeepsRefsSound(s, c);
      }
    }
  }

  /** Namespace references are conserved: a run that ends with the handle given up destroys every
      duplicated reference exactly once, precisely when none of its opens failed in one of the
      two ways that lose or doubly destroy one. */
  lemma EveryRefDestroyedOnce(calls: seq<Call>)
    ensures !HasSpoilingOpen(calls) ==> RefsSound(Run(Empty, calls))
    ensures
      var s := Run(Empty, calls);
      s.fh.None? ==> (!HasSpoilingOpen(calls) <==> !s.w.badDestroy && s.w.refs == {})
  {
    RunRefs(calls);
  }

  /** Each way a failed open spoils the accounts, in its smallest run. */
  lemma FailedOpensSpoil()
    ensures
      var lost := Run(Empty, [OpenData(true, true, true, Kept, false, true)]);
      lost.fh.None? && lost.w.refs != {}
    ensures
      var twice := Run(Empty, [Creat(true, true, true, Ok), OpenMeta(true, true, true, true, false), Release(true)]);
      twice.fh.None? && twice.w.badDestroy
  {
    var c0, c1, c2 := Creat(true, true, true, Ok), OpenMeta(true, true, true, true, false), Release(true);
    var calls := [c0, c1, c2];
    assert calls[..2] == [c0, c1] && [c0, c1][..1] == [c0] && [c0][..0] == [];
    assert Run(Empty, []) == Empty;
    assert Run(Empty, [c0]) == Step(Empty, c0).s;
    assert Run(Empty, [c0, c1]) == Step(Run(Empty, [c0]), c1).s;
    var c := OpenData(true, true, true, Kept, false, true);
    assert [c][..0] == [];
    assert Run(Empty, [c]) == Step(Empty, c).s;
  }
}
