/** The MarFS directory handle: it lists the subspaces of a namespace first, then the entries of
    an underlying MDAL directory stream, and keeps its place in one `long` by setting a high bit
    once the subspaces are done. Each call is atomic. */
module DirHandle {
  import opened Common

  // ----- the namespace offset bit of a signed long -----

  datatype WordSize = Bits64 | Bits32

  const MASK64: int := 0x2000_0000_0000_0000  // 1L << 61
  const MASK32: int := 0x40_0000              // 1L << 22

  function Mask(w: WordSize): (m: int) { if w == Bits64 then MASK64 else MASK32 }

  /** `x & mask`, in two's complement. */
  predicate NsBit(x: int, w: WordSize) {
    if w == Bits64 then (x / MASK64) % 2 == 1 else (x / MASK32) % 2 == 1
  }

  /** `x | mask` */
  function SetBit(x: int, w: WordSize): (y: int) {
    if NsBit(x, w) then x else x + Mask(w)
  }

  /** `x & ~mask` */
  function ClearBit(x: int, w: WordSize): (y: int) {
    if NsBit(x, w) then x - Mask(w) else x
  }

  /** Setting the bit of a value that has it clear shows, and can be undone. */
  lemma SetThenClear(x: int, w: WordSize)
    ensures !NsBit(x, w) ==> NsBit(SetBit(x, w), w) && ClearBit(SetBit(x, w), w) == x
  {
    if w == Bits64 {
      assert (x + MASK64) / MASK64 == x / MASK64 + 1;
    } else {
      assert (x + MASK32) / MASK32 == x / MASK32 + 1;
    }
  }

  lemma SmallValuesHaveBitClear(x: int, w: WordSize)
    ensures 0 <= x <= Mask(w) ==> (NsBit(x, w) <==> x == Mask(w))
  {
  }

  // ----- listings -----

  /** A directory entry; `shown` is false for a subspace that does not exist, and for an MDAL
      entry reserved by the MDAL's path filter. */
  datatype Item = Item(name: string, shown: bool)

  function Names(s: seq<Item>): (r: seq<string>)
    decreases |s|
  {
    if s == [] then []
    else Names(s[..|s| - 1]) + if s[|s| - 1].shown then [s[|s| - 1].name] else []
  }

  lemma NamesStep(s: seq<Item>, i: nat)
    requires i < |s|
    ensures Names(s[..i + 1]) == Names(s[..i]) + if s[i].shown then [s[i].name] else []
  {
    assert s[..i + 1][..i] == s[..i];
  }

  lemma {:induction false} NamesPrefix(s: seq<Item>, i: nat)
    requires i <= |s|
    ensures Names(s[..i]) <= Names(s)
    decreases |s| - i
  {
    if i < |s| {
      NamesStep(s, i);
      NamesPrefix(s, i + 1);
    } else {
      assert s[..i] == s;
    }
  }

  /** A shown item is found in the listing at the number of names listed before it. */
  lemma NamesAt(s: seq<Item>, i: nat)
    requires i < |s| && s[i].shown
    ensures |Names(s[..i])| < |Names(s)| && Names(s)[|Names(s[..i])|] == s[i].name
  {
    NamesStep(s, i);
    NamesPrefix(s, i + 1);
    assert Names(s[..i + 1])[|Names(s[..i])|] == s[i].name;
  }

  /** What is on disk behind an open handle: the subspaces of the namespace, and the entries of the
      MDAL stream with the location value `telldir` gives before each of them and at the end. */
  datatype Dir = Dir(word: WordSize, depth: nat, subs: seq<Item>, entries: seq<Item>, cookies: seq<int>, nameAlloc: nat) {

    ghost predicate Valid() {
      && |subs| <= Mask(word)
      && |cookies| == |entries| + 1
      && (forall i, j :: 0 <= i < j < |cookies| ==> cookies[i] != cookies[j])
    }

    /** Subspaces are listed only at the root of a namespace that has some. */
    predicate Spliced() { depth == 0 && subs != [] }

    /** The path filter applies only at the root of a namespace. */
    function Unfiltered(): (r: seq<Item>)
      ensures |r| == |entries|
      ensures forall i :: 0 <= i < |r| ==> r[i].name == entries[i].name
    {
      if depth == 0 then entries else seq(|entries|, i requires 0 <= i < |entries| => Item(entries[i].name, true))
    }

    /** The subspaces this handle lists. */
    function Subspaces(): (r: seq<Item>) { if Spliced() then subs else [] }

    /** The listing a caller should see. */
    function Listing(): (r: seq<string>) { Names(Subspaces()) + Names(Unfiltered()) }
  }

  /** The names of all items. */
  function AllNames(s: seq<Item>): (r: seq<string>) { seq(|s|, i requires 0 <= i < |s| => s[i].name) }

  lemma {:induction false} NamesOfAllShown(s: seq<Item>)
    requires forall i :: 0 <= i < |s| ==> s[i].shown
    ensures Names(s) == AllNames(s)
    decreases |s|
  {
    if s != [] {
      NamesOfAllShown(s[..|s| - 1]);
    }
  }

  /** Below the root of a namespace all entries are listed and no subspaces; at the root the
      existing subspaces come first, then the entries that are not reserved. */
  lemma ListingByDepth(dir: Dir)
    ensures dir.depth > 0 ==> dir.Listing() == AllNames(dir.entries)
    ensures dir.depth == 0 ==> dir.Listing() == Names(dir.subs) + Names(dir.entries)
  {
    if dir.depth > 0 {
      NamesOfAllShown(dir.Unfiltered());
      assert AllNames(dir.Unfiltered()) == AllNames(dir.entries);
      assert [] + AllNames(dir.entries) == AllNames(dir.entries);
    }
  }

  /** The handle's own place: its location word and the position of its MDAL stream. */
  datatype Place = Place(location: int, mpos: nat)

  /** The location is a subspace index with the bit clear, or exactly the bit; while the bit is
      clear the MDAL stream is at its start. The invalid marker is never stored. */
  ghost predicate PlaceInv(dir: Dir, p: Place) {
    && p.mpos <= |dir.entries|
    && (!dir.Spliced() ==> p.location == 0)
    && (dir.Spliced() ==> p.location == Mask(dir.word) || (0 <= p.location <= |dir.subs| && p.mpos == 0))
  }

  /** A subspace index or the bit: among them is neither the invalid marker nor any other value. */
  predicate IndexOrBit(dir: Dir, location: int) {
    (0 <= location <= |dir.subs| || location == Mask(dir.word)) && location != Mask(dir.word) + 1
  }

  /** The subspaces have not been passed: the stored location does not have the bit. */
  predicate InSubspaces(dir: Dir, location: int) { dir.Spliced() && location != Mask(dir.word) }

  /** How many names have been listed before this place. */
  ghost function Cursor(dir: Dir, p: Place): (k: nat)
    requires PlaceInv(dir, p)
    ensures k <= |dir.Listing()|
  {
    if InSubspaces(dir, p.location) then
      NamesPrefix(dir.subs, p.location);
      |Names(dir.subs[..p.location])|
    else
      NamesPrefix(dir.Unfiltered(), p.mpos);
      |Names(dir.Subspaces())| + |Names(dir.Unfiltered()[..p.mpos])|
  }

  // ----- location values -----

  /** `marfs_telldir` can answer `v` at place `p`. */
  ghost predicate Tells(dir: Dir, p: Place, v: int)
    requires dir.Valid() && PlaceInv(dir, p)
  {
    if InSubspaces(dir, p.location) then v == p.location
    else if dir.Spliced() then !NsBit(dir.cookies[p.mpos], dir.word) && v == SetBit(dir.cookies[p.mpos], dir.word)
    else v == dir.cookies[p.mpos]
  }

  /** Two places that give the same location value are the same place in the listing, so a value
      identifies a cursor; this is what makes seeking to a told value meaningful at all. */
  lemma TellsOneCursor(dir: Dir, p: Place, q: Place, v: int)
    requires dir.Valid() && PlaceInv(dir, p) && PlaceInv(dir, q) && Tells(dir, p, v) && Tells(dir, q, v)
    ensures Cursor(dir, p) == Cursor(dir, q)
  {
    SmallValuesHaveBitClear(p.location, dir.word);
    SmallValuesHaveBitClear(q.location, dir.word);
    SetThenClear(dir.cookies[p.mpos], dir.word);
    SetThenClear(dir.cookies[q.mpos], dir.word);
  }

  // ----- the MDAL stream -----

  const ENOENT := 2
  const ENAMETOOLONG := 36
  const EMSGSIZE := 90

  /** A `readdir` result: an entry, or NULL with errno. */
  datatype Result = Entry(name: string) | Null(errno: int)

  datatype MdalResult = Read(name: string) | End | Error(errno: int)

  /** A directory stream that follows the MDAL interface: any call may fail, leaving it unchanged. */
  class MdalStream {
    const dir: Dir
    var pos: nat
    var faults: nat

    constructor (dir: Dir)
      ensures this.dir == dir && pos == 0 && faults == 0
    {
      this.dir, pos, faults := dir, 0, 0;
    }

    /** The errno of a call that fails on its own account, or 0. */
    method MayFail() returns (errno: int)
      modifies this`faults
      ensures faults == old(faults) + if errno != 0 then 1 else 0
    {
      errno := *;
      if errno != 0 { faults := faults + 1; }
    }

    method Readdir() returns (r: MdalResult)
      requires pos <= |dir.entries|
      modifies this
      ensures r.Read? ==> old(pos) < |dir.entries| && r.name == dir.entries[old(pos)].name && pos == old(pos) + 1
      ensures r.End? ==> pos == old(pos) == |dir.entries|
      ensures r.Error? ==> pos == old(pos) && r.errno != 0
      ensures r.Error? <==> faults != old(faults)
      ensures faults >= old(faults)
    {
      var errno := MayFail();
      if errno != 0 { return Error(errno); }
      if pos == |dir.entries| { return End; }
      r := Read(dir.entries[pos].name);
      pos := pos + 1;
    }

    method Telldir() returns (v: int)
      requires dir.Valid() && pos <= |dir.entries|
      modifies this`faults
      ensures v == -1 || v == dir.cookies[pos]
      ensures faults == old(faults) ==> v == dir.cookies[pos]
      ensures faults >= old(faults)
    {
      var errno := MayFail();
      v := if errno != 0 then -1 else dir.cookies[pos];
    }

    /** The value must come from an earlier `Telldir`. */
    method Seekdir(v: int) returns (rc: int)
      requires dir.Valid() && v in dir.cookies
      modifies this
      ensures rc == 0 ==> pos <= |dir.entries| && dir.cookies[pos] == v
      ensures rc != 0 ==> rc == -1 && pos == old(pos)
      ensures rc == 0 <==> faults == old(faults)
      ensures faults >= old(faults)
    {
      var errno := MayFail();
      if errno != 0 { return -1; }
      var at: nat :| at < |dir.cookies| && dir.cookies[at] == v;
      pos := at;
      rc := 0;
    }

    method Rewinddir() returns (rc: int)
      modifies this
      ensures rc == 0 ==> pos == 0
      ensures rc != 0 ==> rc == -1 && pos == old(pos)
      ensures rc == 0 <==> faults == old(faults)
      ensures faults >= old(faults)
    {
      var errno := MayFail();
      if errno != 0 { return -1; }
      pos := 0;
      rc := 0;
    }
  }

  // ----- the handle -----

  /** An MDAL location value that collides with the namespace bit, or that becomes the error value. */
  predicate Untellable(dir: Dir, cookie: int) {
    if dir.Spliced() then NsBit(cookie, dir.word) || SetBit(cookie, dir.word) == -1 else cookie == -1
  }

  /** At the end of the listing, with the handle still before trailing subspaces that do not exist. */
  predicate EndsOnMissing(dir: Dir, location: int) {
    InSubspaces(dir, location) && location < |dir.subs|
  }

  /** The next name is that of a subspace whose name does not fit the handle's dirent. */
  ghost predicate NextTooLong(dir: Dir, k: nat) {
    k < |Names(dir.Subspaces())| && |Names(dir.Subspaces())[k]| >= dir.nameAlloc
  }

  class Handle {
    const dir: Dir
    const mdal: MdalStream
    var location: int
    ghost var told: map<int, Place>  // every value telldir has answered, and where

    ghost function Here(): (p: Place) reads this, mdal { Place(location, mdal.pos) }

    ghost predicate Valid() reads this, mdal {
      && dir.Valid() && mdal.dir == dir && PlaceInv(dir, Here())
      && forall v :: v in told ==> PlaceInv(dir, told[v]) && Tells(dir, told[v], v)
    }

    /** The handle as a cursor over the listing. */
    ghost function Index(): (k: nat)
      requires Valid()
      reads this, mdal
    {
      Cursor(dir, Here())
    }

    /** After any calls, the stored location is a subspace index or the bit; the invalid marker is
        never stored, not even when the MDAL tells position 1 and the told value coincides with it.
        Without subspaces to list it is never used. */
    lemma LocationIsIndexOrBit()
      requires Valid()
      ensures IndexOrBit(dir, location)
      ensures dir.depth > 0 || dir.subs == [] ==> location == 0
    {
      SmallValuesHaveBitClear(location, dir.word);
    }

    /** `marfs_opendir` */
    constructor (dir: Dir)
      requires dir.Valid()
      ensures Valid() && fresh(mdal) && this.dir == dir && Index() == 0 && Here() == Place(0, 0)
      ensures told == map[]
    {
      this.dir, location, told := dir, 0, map[];
      mdal := new MdalStream(dir);
      new;
      SmallValuesHaveBitClear(0, dir.word);
    }

    /** Step past the subspace just returned, guarding against an index that runs into the bit. */
    method PassSubspace()
      requires Valid() && InSubspaces(dir, location) && location < |dir.subs| && dir.subs[location].shown
      modifies this`location
      ensures Valid() && Index() == old(Index()) + 1 && location == old(location) + 1
    {
      NamesStep(dir.subs, location);
      SmallValuesHaveBitClear(location + 1, dir.word);
      location := location + 1;
      if NsBit(location, dir.word) {
        location := if location != |dir.subs| then Mask(dir.word) + 1 else Mask(dir.word);
        assert dir.subs[..|dir.subs|] == dir.subs;
      }
    }

    /** The subspace at the location: return it and step on, or fail and stay; or, if it does not
        exist, go on to the next. */
    method ReadSubspace() returns (r: Option<Result>)
      requires Valid() && InSubspaces(dir, location) && location < |dir.subs|
      modifies this`location, mdal`faults
      ensures mdal.faults >= old(mdal.faults)
      ensures r.None? ==> location == old(location) + 1 && mdal.faults == old(mdal.faults) && !dir.subs[old(location)].shown
      ensures r.Some? ==> Valid()
      ensures r.Some? && r.value.Entry? ==>
        && dir.subs[old(location)] == Item(r.value.name, true) && |r.value.name| < dir.nameAlloc
        && location == old(location) + 1 && mdal.faults == old(mdal.faults) && Index() == old(Index()) + 1
      ensures r.Some? && r.value.Null? ==> location == old(location) && r.value.errno != 0
      ensures r.Some? && r.value.Null? && mdal.faults == old(mdal.faults) ==>
        dir.subs[location].shown && |dir.subs[location].name| >= dir.nameAlloc && r.value.errno == ENAMETOOLONG
    {
      var e := mdal.MayFail();                        // the namespace path
      if e != 0 { return Some(Null(e)); }
      e := mdal.MayFail();                            // stat, other than ENOENT
      if e != 0 { return Some(Null(e)); }
      if dir.subs[location].shown {
        if |dir.subs[location].name| >= dir.nameAlloc { return Some(Null(ENAMETOOLONG)); }
        r := Some(Entry(dir.subs[location].name));
        PassSubspace();
      } else {
        r := None;
        location := location + 1;
      }
    }

    /** The subspace part of `marfs_readdir`; `done` says whether the call returns from here. */
    method ReadSubspaces() returns (done: bool, r: Result, errno: int)
      requires Valid() && InSubspaces(dir, location)
      modifies this`location, mdal`faults
      ensures Valid() && mdal.faults >= old(mdal.faults)
      ensures done && r.Entry? ==> old(Index()) < |dir.Listing()| && r.name == dir.Listing()[old(Index())] && Index() == old(Index()) + 1
      ensures done && r.Entry? ==> old(location) < location <= |dir.subs| && dir.subs[location - 1] == Item(r.name, true)
      ensures done && r.Null? ==> Index() == old(Index()) && r.errno != 0
      ensures done && r.Null? && mdal.faults == old(mdal.faults) ==> NextTooLong(dir, old(Index())) && r.errno == ENAMETOOLONG
      ensures done && r.Entry? ==> mdal.faults == old(mdal.faults) && |r.name| < dir.nameAlloc
      ensures !done ==> location == Mask(dir.word) && Index() == old(Index()) == |Names(dir.Subspaces())| && mdal.faults == old(mdal.faults)
      ensures !done ==> errno == if old(location) < |dir.subs| then ENOENT else 0
    {
      errno := 0;
      r := Null(0);
      while location < |dir.subs|
        invariant 0 <= old(location) <= location <= |dir.subs| && mdal.pos == 0
        invariant mdal.faults == old(mdal.faults)
        invariant |Names(dir.subs[..location])| == old(Index())
        invariant errno == if old(location) < location then ENOENT else 0
      {
        ghost var at := location;
        SmallValuesHaveBitClear(at, dir.word);
        NamesStep(dir.subs, at);
        if dir.subs[at].shown { NamesAt(dir.subs, at); }
        var one := ReadSubspace();
        if one.Some? { return true, one.value, if one.value.Entry? then errno else one.value.errno; }
        errno := ENOENT;
      }
      assert dir.subs[..|dir.subs|] == dir.subs;
      location := Mask(dir.word);
      SmallValuesHaveBitClear(location, dir.word);
      done := false;
    }

    /** The MDAL part of `marfs_readdir`: skip reserved entries at the root of a namespace. */
    method ReadMdal(errno: int) returns (r: Result)
      requires Valid() && !InSubspaces(dir, location)
      modifies mdal
      ensures Valid() && mdal.faults >= old(mdal.faults)
      ensures r.Entry? ==> old(Index()) < |dir.Listing()| && r.name == dir.Listing()[old(Index())] && Index() == old(Index()) + 1
      ensures r.Entry? ==> mdal.faults == old(mdal.faults)
      ensures r.Null? ==> Index() == old(Index())
      ensures r.Null? && mdal.faults == old(mdal.faults) ==> Index() == |dir.Listing()| && r.errno == errno
      ensures r.Null? && mdal.faults != old(mdal.faults) ==> r.errno != 0
    {
      ghost var items := dir.Unfiltered();
      while true
        invariant Valid() && mdal.faults == old(mdal.faults)
        invariant Index() == old(Index())
        decreases |dir.entries| - mdal.pos
      {
        var at := mdal.pos;
        var m := mdal.Readdir();
        match m {
          case Error(e) => return Null(e);
          case End =>
            assert items[..|items|] == items;
            return Null(errno);
          case Read(name) =>
            NamesStep(items, at);
            if dir.depth == 0 && !dir.entries[at].shown {
              // filtered out
            } else {
              NamesAt(items, at);
              return Entry(name);
            }
        }
      }
    }

    /** `marfs_readdir`: the next name of the listing, and one step on; or NULL, and no step.
        If no call below it fails, NULL means the end of the listing (or a subspace name too long
        to return, which blocks the listing there), and errno is then unset, as documented,
        unless the call had to pass subspaces that do not exist. */
    method Readdir() returns (r: Result)
      requires Valid()
      modifies this`location, mdal
      ensures Valid() && mdal.faults >= old(mdal.faults)
      ensures r.Entry? ==> old(Index()) < |dir.Listing()| && r.name == dir.Listing()[old(Index())] && Index() == old(Index()) + 1
      ensures r.Entry? ==> mdal.faults == old(mdal.faults)
      ensures r.Null? ==> Index() == old(Index())
      ensures r.Null? && mdal.faults != old(mdal.faults) ==> r.errno != 0
      ensures mdal.faults == old(mdal.faults) ==>
        (r.Null? <==> old(Index()) == |dir.Listing()| || NextTooLong(dir, old(Index())))
      ensures mdal.faults == old(mdal.faults) && old(Index()) == |dir.Listing()| ==>
        r == Null(if EndsOnMissing(dir, old(location)) then ENOENT else 0)
    {
      var errno := 0;
      SmallValuesHaveBitClear(location, dir.word);
      if dir.Spliced() && !NsBit(location, dir.word) {
        var done;
        done, r, errno := ReadSubspaces();
        if done { return; }
      }
      if location == Mask(dir.word) + 1 { return Null(EMSGSIZE); }
      r := ReadMdal(errno);
    }

    /** `marfs_telldir`: -1, or a value that identifies the handle's place in the listing: the MDAL's
        own value, with the bit added after the subspaces of a namespace, or a subspace index. */
    method Telldir() returns (v: int)
      requires Valid()
      modifies this`told, mdal`faults
      ensures Valid() && mdal.faults >= old(mdal.faults)
      ensures v != -1 ==> told == old(told)[v := Here()]
      ensures v == -1 ==> told == old(told)
      ensures v in old(told) ==> Cursor(dir, old(told)[v]) == Index() || v == -1
      ensures v != -1 && (dir.depth > 0 || dir.subs == []) ==> v == dir.cookies[mdal.pos]
      ensures v != -1 && dir.depth == 0 && dir.subs != [] ==>
        v == if NsBit(location, dir.word) then dir.cookies[mdal.pos] + Mask(dir.word) else location
      ensures mdal.faults == old(mdal.faults) ==>
        (v == -1 <==> !InSubspaces(dir, location) && Untellable(dir, dir.cookies[mdal.pos]))
    {
      SmallValuesHaveBitClear(location, dir.word);
      if dir.Spliced() && location == Mask(dir.word) + 1 { return -1; }
      if dir.Spliced() && !NsBit(location, dir.word) {
        v := location;
      } else {
        v := mdal.Telldir();
        if dir.Spliced() {
          if NsBit(v, dir.word) { return -1; }
          v := SetBit(v, dir.word);
        }
        if v == -1 { return; }
      }
      assert Tells(dir, Here(), v);
      if v in told { TellsOneCursor(dir, told[v], Here(), v); }
      told := told[v := Here()];
    }

    /** `marfs_seekdir`: on success the listing continues from where the value was told, whatever
        happened in between; on failure nothing has moved. */
    method Seekdir(loc: int) returns (rc: int)
      requires Valid() && loc in told
      modifies this`location, mdal
      ensures Valid() && mdal.faults >= old(mdal.faults)
      ensures rc == 0 ==> Index() == Cursor(dir, told[loc])
      ensures rc != 0 ==> rc == -1 && Here() == old(Here())
      ensures mdal.faults == old(mdal.faults) ==> rc == 0
    {
      var origloc := location;
      SmallValuesHaveBitClear(origloc, dir.word);
      ghost var p := told[loc];
      SmallValuesHaveBitClear(p.location, dir.word);
      SetThenClear(dir.cookies[p.mpos], dir.word);
      if !dir.Spliced() || NsBit(loc, dir.word) {
        var stripped := loc;
        if dir.Spliced() {
          stripped := ClearBit(loc, dir.word);
          location := Mask(dir.word);
        }
        SmallValuesHaveBitClear(location, dir.word);
        rc := mdal.Seekdir(stripped);
        if rc == -1 { location := origloc; }
        return;
      }
      location := loc;
      rc := 0;
      if NsBit(origloc, dir.word) { rc := mdal.Rewinddir(); }
      if rc == -1 { location := origloc; }
    }

    /** `marfs_rewinddir`: on success the handle is as freshly opened. */
    method Rewinddir() returns (rc: int)
      requires Valid()
      modifies this`location, mdal
      ensures Valid() && mdal.faults >= old(mdal.faults)
      ensures rc == 0 ==> Here() == Place(0, 0) && Index() == 0
      ensures rc != 0 ==> rc == -1 && Here() == old(Here())
      ensures mdal.faults == old(mdal.faults) ==> rc == 0
    {
      SmallValuesHaveBitClear(location, dir.word);
      rc := 0;
      if !dir.Spliced() || NsBit(location, dir.word) { rc := mdal.Rewinddir(); }
      if rc != -1 { location := 0; }
    }
  }

  // ----- what a caller gets -----

  /** Every name of the listing can be returned. */
  ghost predicate NamesFit(dir: Dir) { forall k :: !NextTooLong(dir, k) }

  lemma OneMore(list: seq<string>, a: nat, b: nat)
    requires a <= b < |list|
    ensures list[a..b] + [list[b]] == list[a..b + 1]
  {
  }

  /** Reading from index `start` goes on to index `stop` if nothing fails. */
  ghost predicate RunsTo(dir: Dir, start: nat, stop: nat) {
    && start <= stop && (stop == |dir.Listing()| || NextTooLong(dir, stop))
    && forall k :: start <= k < stop ==> !NextTooLong(dir, k)
  }

  lemma RunsToOneStop(dir: Dir, start: nat, a: nat, b: nat)
    requires RunsTo(dir, start, a) && RunsTo(dir, start, b) && a <= |dir.Listing()| && b <= |dir.Listing()|
    ensures a == b
  {
  }

  /** Call `Readdir` until it answers NULL: the rest of the listing, up to a failing call or a name
      that is too long to return. */
  method ReadAll(h: Handle) returns (names: seq<string>)
    requires h.Valid()
    modifies h`location, h.mdal
    ensures h.Valid() && h.mdal.faults >= old(h.mdal.faults) && h.Index() == old(h.Index()) + |names|
    ensures names == h.dir.Listing()[old(h.Index())..h.Index()]
    ensures h.mdal.faults == old(h.mdal.faults) ==> RunsTo(h.dir, old(h.Index()), h.Index())
  {
    ghost var list, start := h.dir.Listing(), h.Index();
    names := [];
    while true
      invariant h.Valid() && h.mdal.faults == old(h.mdal.faults)
      invariant start <= h.Index() <= |list| && names == list[start..h.Index()]
      invariant forall k :: start <= k < h.Index() ==> !NextTooLong(h.dir, k)
      decreases |list| - h.Index()
    {
      ghost var at := h.Index();
      var r := h.Readdir();
      if r.Null? { return; }
      OneMore(list, start, at);
      names := names + [r.name];
    }
  }

  /** What a directory lists, from what is on disk: all entries below the root of a namespace; at the
      root the existing subspaces, then the entries that are not reserved. A listing stops short
      exactly at a subspace name that does not fit the handle's dirent. */
  method List(dir: Dir) returns (names: seq<string>, location: int, faults: nat)
    requires dir.Valid()
    ensures faults == 0 && dir.depth > 0 ==> names == AllNames(dir.entries) && location == 0
    ensures faults == 0 && dir.depth == 0 ==> names <= Names(dir.subs) + Names(dir.entries)
    ensures faults == 0 && dir.depth == 0 ==>
      (names == Names(dir.subs) + Names(dir.entries) <==> forall name :: name in Names(dir.subs) ==> |name| < dir.nameAlloc)
  {
    var h := new Handle(dir);
    var before := h.mdal.faults;
    names := ReadAll(h);
    location, faults := h.location, h.mdal.faults - before;
    h.LocationIsIndexOrBit();
    ListingByDepth(dir);
    NamesFitByDepth(dir);
  }

  lemma NamesFitByDepth(dir: Dir)
    ensures NamesFit(dir) <==> dir.depth > 0 || forall name :: name in Names(dir.subs) ==> |name| < dir.nameAlloc
  {
    var subs := Names(dir.Subspaces());
    assert dir.depth == 0 ==> subs == Names(dir.subs);
    forall k: nat | k < |subs| ensures NextTooLong(dir, k) <==> |subs[k]| >= dir.nameAlloc {
    }
    if NamesFit(dir) && dir.depth == 0 {
      forall name | name in Names(dir.subs) ensures |name| < dir.nameAlloc {
        var k: nat :| k < |subs| && subs[k] == name;
        assert !NextTooLong(dir, k);
      }
    }
  }

  /** The documented use of location values: tell, read on, seek back, and read the same again. */
  method ReadTwice(h: Handle) returns (v: int, rc: int, first: seq<string>, second: seq<string>)
    requires h.Valid()
    modifies h, h.mdal
    ensures h.Valid() && h.mdal.faults >= old(h.mdal.faults)
    ensures v != -1 && h.mdal.faults == old(h.mdal.faults) ==> rc == 0 && first == second
    ensures v != -1 && h.mdal.faults == old(h.mdal.faults) ==>
      RunsTo(h.dir, old(h.Index()), h.Index()) && first == h.dir.Listing()[old(h.Index())..h.Index()]
  {
    ghost var start := h.Index();
    rc, first, second := -1, [], [];
    v := h.Telldir();
    if v == -1 { return; }
    first := ReadAll(h);
    ghost var stop := h.Index();
    rc := h.Seekdir(v);
    if rc == 0 {
      second := ReadAll(h);
      if h.mdal.faults == old(h.mdal.faults) { RunsToOneStop(h.dir, start, stop, h.Index()); }
    }
  }

  /** The documentation promises errno unset at the end of a listing; here it is ENOENT. */
  lemma EndCanReportEnoent()
    ensures exists dir: Dir, p: Place ::
      && dir.Valid() && PlaceInv(dir, p) && Cursor(dir, p) == |dir.Listing()| && EndsOnMissing(dir, p.location)
  {
    var subs := [Item("gone", false)];
    var dir, p := Dir(Bits64, 0, subs, [], [0], 256), Place(0, 0);
    SmallValuesHaveBitClear(0, Bits64);
    NamesStep(subs, 0);
    assert subs[..1] == subs && subs[..0] == [];
    assert dir.Valid() && PlaceInv(dir, p) && Cursor(dir, p) == 0 && dir.Listing() == [];
  }

  // ----- any use of the handle, seen from outside -----

  datatype Op = DoRead | DoTell | DoSeek(v: int) | DoRewind

  /** What a caller observes; `faulty` marks a failure caused by a failing call below, and NotMade
      a seek to a value that was never told. */
  datatype Seen =
    | Got(name: string) | GotNull(faulty: bool)
    | Told(v: int) | Sought | Rewound | NotMade | Failed(faulty: bool)

  datatype Model = Model(k: nat, told: map<int, nat>)

  /** Some place at index k has an MDAL location value that cannot be passed on. */
  ghost predicate UntellableAt(dir: Dir, k: nat)
    requires dir.Valid()
  {
    exists p :: PlaceInv(dir, p) && Cursor(dir, p) == k && !InSubspaces(dir, p.location) && Untellable(dir, dir.cookies[p.mpos])
  }

  /** The reference: an index into the listing and a table of told values. None means that a list
      cursor could not have answered this way. */
  ghost function Replay(dir: Dir, ops: seq<Op>, log: seq<Seen>): (m: Option<Model>)
    requires dir.Valid() && |ops| == |log|
    decreases |log|
  {
    if log == [] then Some(Model(0, map[]))
    else match Replay(dir, ops[..|ops| - 1], log[..|log| - 1])
      case None => None
      case Some(m) => ReplayOne(dir, m, ops[|ops| - 1], log[|log| - 1])
  }

  ghost function ReplayOne(dir: Dir, m: Model, op: Op, e: Seen): (r: Option<Model>)
    requires dir.Valid()
  {
    var list := dir.Listing();
    match (op, e)
    case (DoRead, Got(name)) => if m.k < |list| && list[m.k] == name then Some(m.(k := m.k + 1)) else None
    case (DoRead, GotNull(faulty)) => if faulty || m.k == |list| || NextTooLong(dir, m.k) then Some(m) else None
    case (DoTell, Told(v)) => if v in m.told && m.told[v] != m.k then None else Some(m.(told := m.told[v := m.k]))
    case (DoTell, Failed(faulty)) => if faulty || UntellableAt(dir, m.k) then Some(m) else None
    case (DoSeek(v), Sought) => if v in m.told then Some(m.(k := m.told[v])) else None
    case (DoSeek(v), NotMade) => if v in m.told then None else Some(m)
    case (DoSeek(v), Failed(faulty)) => if faulty then Some(m) else None
    case (DoRewind, Rewound) => Some(m.(k := 0))
    case (DoRewind, Failed(faulty)) => if faulty then Some(m) else None
    case _ => None
  }

  lemma ReplaySnoc(dir: Dir, ops: seq<Op>, log: seq<Seen>, op: Op, e: Seen)
    requires dir.Valid() && |ops| == |log| && Replay(dir, ops, log).Some?
    ensures Replay(dir, ops + [op], log + [e]) == ReplayOne(dir, Replay(dir, ops, log).value, op, e)
  {
    assert (log + [e])[..|log|] == log && (ops + [op])[..|ops|] == ops;
  }

  predicate Faulty(e: Seen) { (e.GotNull? || e.Failed?) && e.faulty }

  /** The handle is where the reference is, and remembers the same told values. */
  ghost predicate Mirrors(h: Handle, m: Model)
    requires h.Valid()
    reads h, h.mdal
  {
    m.k == h.Index() && m.told.Keys == h.told.Keys && forall v :: v in m.told ==> m.told[v] == Cursor(h.dir, h.told[v])
  }

  /** Reading or telling, as a step of a script. */
  method Look(h: Handle, op: Op, known: set<int>, ghost m: Model) returns (e: Seen)
    requires op.DoRead? || op.DoTell?
    requires h.Valid() && Mirrors(h, m) && known == m.told.Keys
    modifies h, h.mdal
    ensures h.Valid() && h.mdal.faults >= old(h.mdal.faults)
    ensures h.mdal.faults == old(h.mdal.faults) ==> !Faulty(e)
    ensures ReplayOne(h.dir, m, op, e).Some? && Mirrors(h, ReplayOne(h.dir, m, op, e).value)
    ensures ReplayOne(h.dir, m, op, e).value.told.Keys == known + (if e.Told? then {e.v} else {})
  {
    var before := h.mdal.faults;
    if op.DoRead? {
      var r := h.Readdir();
      e := if r.Entry? then Got(r.name) else GotNull(h.mdal.faults != before);
    } else {
      var v := h.Telldir();
      e := if v == -1 then Failed(h.mdal.faults != before) else Told(v);
      assert PlaceInv(h.dir, h.Here());
    }
  }

  /** Seeking or rewinding, as a step of a script. */
  method Move(h: Handle, op: Op, known: set<int>, ghost m: Model) returns (e: Seen)
    requires op.DoSeek? || op.DoRewind?
    requires h.Valid() && Mirrors(h, m) && known == m.told.Keys
    modifies h, h.mdal
    ensures h.Valid() && h.mdal.faults >= old(h.mdal.faults)
    ensures h.mdal.faults == old(h.mdal.faults) ==> !Faulty(e)
    ensures ReplayOne(h.dir, m, op, e).Some? && Mirrors(h, ReplayOne(h.dir, m, op, e).value)
    ensures ReplayOne(h.dir, m, op, e).value.told.Keys == known + (if e.Told? then {e.v} else {})
  {
    var before, rc := h.mdal.faults, 0;
    if op.DoRewind? {
      rc := h.Rewinddir();
      e := if rc == 0 then Rewound else Failed(h.mdal.faults != before);
    } else if op.v in known {
      rc := h.Seekdir(op.v);
      e := if rc == 0 then Sought else Failed(h.mdal.faults != before);
    } else {
      e := NotMade;
    }
  }

  /** One step of a script. */
  method Perform(h: Handle, op: Op, known: set<int>, ghost m: Model) returns (e: Seen)
    requires h.Valid() && Mirrors(h, m) && known == m.told.Keys
    modifies h, h.mdal
    ensures h.Valid() && h.mdal.faults >= old(h.mdal.faults)
    ensures h.mdal.faults == old(h.mdal.faults) ==> !Faulty(e)
    ensures ReplayOne(h.dir, m, op, e).Some? && Mirrors(h, ReplayOne(h.dir, m, op, e).value)
    ensures ReplayOne(h.dir, m, op, e).value.told.Keys == known + (if e.Told? then {e.v} else {})
  {
    if op.DoRead? || op.DoTell? { e := Look(h, op, known, m); } else { e := Move(h, op, known, m); }
  }

  /** The handle has answered `ops` with `log` as the reference would, and is where the reference is. */
  ghost predicate Tracks(h: Handle, ops: seq<Op>, log: seq<Seen>, known: set<int>)
    requires h.Valid()
    reads h, h.mdal
  {
    && |ops| == |log|
    && var m := Replay(h.dir, ops, log);
       m.Some? && Mirrors(h, m.value) && known == m.value.told.Keys
  }

  ghost predicate NoneFaulty(log: seq<Seen>) { forall i :: 0 <= i < |log| ==> !Faulty(log[i]) }

  ghost predicate AllIndexOrBit(dir: Dir, stored: seq<int>) { forall i :: 0 <= i < |stored| ==> IndexOrBit(dir, stored[i]) }

  /** Make one more call and note the answer. */
  method Extend(h: Handle, ghost done: seq<Op>, op: Op, log: seq<Seen>, known: set<int>) returns (log': seq<Seen>, known': set<int>)
    requires h.Valid() && Tracks(h, done, log, known)
    modifies h, h.mdal
    ensures h.Valid() && Tracks(h, done + [op], log', known') && h.mdal.faults >= old(h.mdal.faults)
    ensures h.mdal.faults == old(h.mdal.faults) && NoneFaulty(log) ==> NoneFaulty(log')
    ensures IndexOrBit(h.dir, h.location)
  {
    var e := Perform(h, op, known, Replay(h.dir, done, log).value);
    ReplaySnoc(h.dir, done, log, op, e);
    log' := log + [e];
    known' := if e.Told? then known + {e.v} else known;
    h.LocationIsIndexOrBit();
  }

  /** Make the calls one after the other. */
  method Play(h: Handle, ghost done: seq<Op>, ops: seq<Op>, log: seq<Seen>, known: set<int>) returns (log': seq<Seen>, stored: seq<int>)
    requires h.Valid() && Tracks(h, done, log, known)
    modifies h, h.mdal
    ensures |log'| == |done + ops| && Replay(h.dir, done + ops, log').Some? && h.mdal.faults >= old(h.mdal.faults)
    ensures h.mdal.faults == old(h.mdal.faults) && NoneFaulty(log) ==> NoneFaulty(log')
    ensures |stored| == |ops| && AllIndexOrBit(h.dir, stored)
    decreases |ops|
  {
    if ops == [] {
      assert done + ops == done;
      return log, [];
    }
    var known';
    log', known' := Extend(h, done, ops[0], log, known);
    var location := h.location;
    assert done + [ops[0]] + ops[1..] == done + ops;
    log', stored := Play(h, done + [ops[0]], ops[1..], log', known');
    stored := [location] + stored;
  }

  /** Directory handle refinement: whatever calls a caller makes on a fresh handle, in any order and
      with any MDAL calls failing, the answers are those of a cursor over the listing. `stored` has
      the handle's location after each call: a subspace index or the bit, never the invalid marker. */
  method Script(dir: Dir, ops: seq<Op>) returns (log: seq<Seen>, stored: seq<int>, faults: nat)
    requires dir.Valid()
    ensures |log| == |ops| && Replay(dir, ops, log).Some?
    ensures faults == 0 ==> NoneFaulty(log)
    ensures |stored| == |ops| && AllIndexOrBit(dir, stored)
  {
    var h := new Handle(dir);
    var before := h.mdal.faults;
    assert [] + ops == ops;
    log, stored := Play(h, [], ops, [], {});
    faults := h.mdal.faults - before;
  }
}
