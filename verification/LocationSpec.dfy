/** The location specifications of the command line, such as "p0/b0-11/c0,2/s0-7,9":
    `generate_locs` and `add_range`. */
module LocationSpec {
  import opened Common
  import opened Locations
  import opened Text

  const MAX_LOC_BUF: nat := 1048576

  // ----- what a field means: comma-separated entries, each a value or a range -----

  /** The parser's `start` and `end` after an entry's characters, -1 meaning unset. */
  function Scan(e: string): (r: Option<(int, int)>)
    decreases |e|
  {
    if e == "" then Some((-1, -1))
    else match Scan(e[..|e| - 1])
      case None => None
      case Some((start, end)) => ScanChar(start, end, e[|e| - 1])
  }

  function ScanChar(start: int, end: int, c: char): (r: Option<(int, int)>) {
    if c == '-' then Some((start, 0))
    else if !IsDigit(c) then None
    else if start < 0 then Some((Digit(c), end))
    else if end >= 0 then Some((start, end * 10 + Digit(c)))
    else Some((start * 10 + Digit(c), end))
  }

  /** The values from lo up to and including hi. */
  function Range(lo: int, hi: int): (s: seq<int>)
    requires lo <= hi + 1
    ensures |s| == hi + 1 - lo
    ensures forall i :: 0 <= i < |s| ==> s[i] == lo + i
  {
    seq(hi + 1 - lo, i => lo + i)
  }

  /** What `add_range` adds for a scanned entry, if it accepts it. */
  function RangeOf(start: int, end: int): (r: Option<seq<int>>)
    ensures r.Some? ==> |r.value| > 0 && forall i :: 0 <= i < |r.value| ==> r.value[i] == start + i >= 0
  {
    if start < 0 || (end >= 0 && end <= start) then None
    else Some(Range(start, if end < 0 then start else end))
  }

  function EntryValues(e: string): (r: Option<seq<int>>) {
    match Scan(e)
    case None => None
    case Some((start, end)) => RangeOf(start, end)
  }

  function AllValues(es: seq<string>): (r: Option<seq<int>>)
    decreases |es|
  {
    if es == [] then Some([])
    else
      match (AllValues(es[..|es| - 1]), EntryValues(es[|es| - 1]))
      case (Some(vs), Some(v)) => Some(vs + v)
      case _ => None
  }

  /** The list a field denotes: the values of all its entries, if they fit the buffer. */
  function FieldValues(s: string): (r: Option<seq<int>>) {
    match AllValues(Entries(s))
    case Some(vs) => if |vs| <= MAX_LOC_BUF then Some(vs) else None
    case None => None
  }

  // ----- the parser's pass over a field -----

  /** What has been added so far, and the entry in progress. */
  datatype Progress = Progress(done: seq<int>, start: int, end: int)

  function Flush(p: Progress): (r: Option<seq<int>>) {
    match RangeOf(p.start, p.end)
    case None => None
    case Some(v) => if |p.done + v| <= MAX_LOC_BUF then Some(p.done + v) else None
  }

  function Feed(p: Progress, c: char): (r: Option<Progress>) {
    if c == ',' then
      match Flush(p)
      case None => None
      case Some(done) => Some(Progress(done, -1, -1))
    else
      match ScanChar(p.start, p.end, c)
      case None => None
      case Some((start, end)) => Some(Progress(p.done, start, end))
  }

  function FeedAll(p: Option<Progress>, s: string): (r: Option<Progress>)
    decreases |s|
  {
    if s == "" then p
    else match FeedAll(p, s[..|s| - 1])
      case None => None
      case Some(q) => Feed(q, s[|s| - 1])
  }

  const Fresh := Some(Progress([], -1, -1))

  lemma {:induction false} FeedAllSplit(p: Option<Progress>, s: string, t: string)
    ensures FeedAll(p, s + t) == FeedAll(FeedAll(p, s), t)
    decreases |t|
  {
    if t == "" {
      assert s + t == s;
    } else {
      assert (s + t)[..|s + t| - 1] == s + t[..|t| - 1];
      FeedAllSplit(p, s, t[..|t| - 1]);
    }
  }

  /** Once a field has been refused, more characters do not help. */
  lemma {:induction false} RefusedStaysRefused(s: string, i: nat)
    requires i <= |s| && FeedAll(Fresh, s[..i]).None?
    ensures FeedAll(Fresh, s).None?
    decreases |s| - i
  {
    if i < |s| {
      assert s[..i + 1][..i] == s[..i];
      RefusedStaysRefused(s, i + 1);
    } else {
      assert s[..i] == s;
    }
  }

  /** The pass computes what the comma-separated entries mean. */
  lemma {:induction false} PassMatchesEntries(s: string)
    ensures
      var es := Entries(s);
      var (vs, last) := (AllValues(es[..|es| - 1]), Scan(es[|es| - 1]));
      FeedAll(Fresh, s) ==
        if vs.Some? && |vs.value| <= MAX_LOC_BUF && last.Some? then Some(Progress(vs.value, last.value.0, last.value.1)) else None
    decreases |s|
  {
    if s == "" {
    } else {
      var front, c := s[..|s| - 1], s[|s| - 1];
      PassMatchesEntries(front);
      var fs, es := Entries(front), Entries(s);
      if c == ',' {
        assert es[..|es| - 1] == fs;
      } else {
        assert es[..|es| - 1] == fs[..|fs| - 1];
        var e := es[|es| - 1];
        assert e[..|e| - 1] == fs[|fs| - 1];
      }
    }
  }

  function Finish(p: Option<Progress>): (r: Option<seq<int>>) {
    match p case None => None case Some(q) => Flush(q)
  }

  lemma FinishIsFieldValues(s: string)
    ensures Finish(FeedAll(Fresh, s)) == FieldValues(s)
  {
    PassMatchesEntries(s);
    var es := Entries(s);
    var vs := AllValues(es[..|es| - 1]);
  }

  // ----- the methods -----

  /** `add_range`: append start..end to the first `size` elements of the buffer. */
  method AddRange(arr: array<int>, size: nat, start: int, end: int) returns (ok: bool, newSize: nat)
    requires arr.Length == MAX_LOC_BUF && size <= MAX_LOC_BUF
    modifies arr
    ensures ok <==> Flush(Progress(old(arr[..size]), start, end)).Some?
    ensures ok ==> newSize <= MAX_LOC_BUF && arr[..newSize] == Flush(Progress(old(arr[..size]), start, end)).value
  {
    newSize := size;
    if start < 0 || (end >= 0 && end <= start) { return false, size; }
    var last := if end < 0 then start else end;
    ghost var before := arr[..size];
    ghost var added := Range(start, last);
    var i := start;
    while i <= last
      invariant start <= i <= last + 1 && newSize == size + (i - start) <= MAX_LOC_BUF
      invariant arr[..newSize] == before + added[..i - start]
    {
      if newSize >= MAX_LOC_BUF { return false, newSize; }
      arr[newSize] := i;
      assert arr[..newSize + 1] == arr[..newSize] + [i];
      assert added[..i - start + 1] == added[..i - start] + [i];
      newSize := newSize + 1;
      i := i + 1;
    }
    assert added[..i - start] == added;
    ok := true;
  }

  /** One character of an entry. */
  method ScanOne(start: int, end: int, c: char) returns (ok: bool, start': int, end': int)
    ensures ScanChar(start, end, c) == if ok then Some((start', end')) else None
  {
    ok, start', end' := true, start, end;
    if c == '-' {
      end' := 0;
    } else if IsDigit(c) {
      if start < 0 {
        start' := Digit(c);
      } else if end >= 0 {
        end' := end * 10 + Digit(c);
      } else {
        start' := start * 10 + Digit(c);
      }
    } else {
      ok := false;
    }
  }

  /** The body of one field: `start` and `end` are the parse state, the buffer takes the values. */
  method ParseField(s: string, arr: array<int>) returns (ok: bool, size: nat)
    requires arr.Length == MAX_LOC_BUF
    modifies arr
    ensures ok <==> FieldValues(s).Some?
    ensures ok ==> 0 < size <= MAX_LOC_BUF && arr[..size] == FieldValues(s).value
  {
    var start: int, end: int := -1, -1;
    size := 0;
    FinishIsFieldValues(s);
    for i := 0 to |s|
      invariant size <= MAX_LOC_BUF && FeedAll(Fresh, s[..i]) == Some(Progress(arr[..size], start, end))
    {
      assert s[..i + 1][..i] == s[..i];
      assert FeedAll(Fresh, s[..i + 1]) == Feed(Progress(arr[..size], start, end), s[i]);
      if s[i] == ',' {
        ok, size := AddRange(arr, size, start, end);
        start, end := -1, -1;
      } else {
        ok, start, end := ScanOne(start, end, s[i]);
      }
      if !ok { RefusedStaysRefused(s, i + 1); return; }
    }
    assert s[..|s|] == s;
    ok, size := AddRange(arr, size, start, end);
  }

  // ----- the whole specification -----

  /** Cut off the part before the first slash. */
  function Cut(s: string): (r: Option<(string, string)>) {
    var at := StrChr(s, '/');
    if at < 0 then None else Some((s[..at], s[at + 1..]))
  }

  /** The four substrings; slashes after the third stay in the last one. */
  function Fields(s: string): (r: Option<seq<string>>)
    ensures r.Some? ==> |r.value| == 4
  {
    match Cut(s)
    case None => None
    case Some((p, s1)) =>
      match Cut(s1)
      case None => None
      case Some((b, s2)) =>
        match Cut(s2)
        case None => None
        case Some((c, s3)) => Some([p, b, c, s3])
  }

  /** A field with its indicator letter. */
  function LetteredValues(f: string, letter: char): (r: Option<seq<int>>) {
    if f == "" || f[0] != letter then None else FieldValues(f[1..])
  }

  function FieldsDenote(fs: seq<string>): (r: Option<LocSet>)
    requires |fs| == 4
  {
    match (LetteredValues(fs[0], 'p'), LetteredValues(fs[1], 'b'), LetteredValues(fs[2], 'c'), LetteredValues(fs[3], 's'))
    case (Some(p), Some(b), Some(c), Some(s)) => Some(LocSet(p, b, c, s))
    case _ => None
  }

  /** The locations a specification denotes. */
  function Denotes(s: string): (r: Option<LocSet>) {
    match Fields(s)
    case None => None
    case Some(fs) => FieldsDenote(fs)
  }

  /** `POSIX_REBUILD_LOC`: four buffers and how much of each is in use. */
  class RebuildLoc {
    const pod: array<int>
    const block: array<int>
    const cap: array<int>
    const scatter: array<int>
    var podSize: nat
    var blockSize: nat
    var capSize: nat
    var scatterSize: nat

    constructor ()
      ensures fresh(pod) && fresh(block) && fresh(cap) && fresh(scatter)
      ensures pod.Length == block.Length == cap.Length == scatter.Length == MAX_LOC_BUF
      ensures pod != block && pod != cap && pod != scatter && block != cap && block != scatter && cap != scatter
      ensures podSize == blockSize == capSize == scatterSize == 0
    {
      pod, block := new int[MAX_LOC_BUF], new int[MAX_LOC_BUF];
      cap, scatter := new int[MAX_LOC_BUF], new int[MAX_LOC_BUF];
      podSize, blockSize, capSize, scatterSize := 0, 0, 0, 0;
    }

    ghost predicate InBounds() reads this {
      podSize <= pod.Length && blockSize <= block.Length && capSize <= cap.Length && scatterSize <= scatter.Length
    }

    ghost function Lists(): (l: LocSet)
      requires InBounds()
      reads this, pod, block, cap, scatter
    {
      LocSet(pod[..podSize], block[..blockSize], cap[..capSize], scatter[..scatterSize])
    }
  }

  /** One field of `generate_locs`: check the indicator letter, then parse. */
  method ParseLettered(f: string, letter: char, arr: array<int>) returns (ok: bool, size: nat)
    requires arr.Length == MAX_LOC_BUF
    modifies arr
    ensures ok <==> LetteredValues(f, letter).Some?
    ensures ok ==> 0 < size <= MAX_LOC_BUF && arr[..size] == LetteredValues(f, letter).value
  {
    if f == "" || f[0] != letter { return false, 0; }
    ok, size := ParseField(f[1..], arr);
  }

  /** Locate the substrings of the four fields. */
  method SplitFields(s: string) returns (r: Option<seq<string>>)
    ensures r == Fields(s)
  {
    var first := CutOff(s);
    if first.None? { return None; }
    var second := CutOff(first.value.1);
    if second.None? { return None; }
    var third := CutOff(second.value.1);
    if third.None? { return None; }
    r := Some([first.value.0, second.value.0, third.value.0, third.value.1]);
  }

  /** `strchr` for a slash; the field ends there and the next one begins behind it. */
  method CutOff(s: string) returns (r: Option<(string, string)>)
    ensures r == Cut(s)
  {
    var at := StrChr(s, '/');
    if at < 0 { return None; }
    r := Some((s[..at], s[at + 1..]));
  }

  /** The loop over the fields, stopping at the first bad one. */
  method FillFields(fs: seq<string>, loc: RebuildLoc) returns (ok: bool)
    requires |fs| == 4
    requires loc.pod.Length == loc.block.Length == loc.cap.Length == loc.scatter.Length == MAX_LOC_BUF
    requires loc.pod != loc.block && loc.pod != loc.cap && loc.pod != loc.scatter
    requires loc.block != loc.cap && loc.block != loc.scatter && loc.cap != loc.scatter
    modifies loc, loc.pod, loc.block, loc.cap, loc.scatter
    ensures ok <==> FieldsDenote(fs).Some?
    ensures ok ==> loc.InBounds() && FieldsDenote(fs) == Some(loc.Lists())
  {
    ok, loc.podSize := ParseLettered(fs[0], 'p', loc.pod);
    if !ok { return; }
    ok, loc.blockSize := ParseLettered(fs[1], 'b', loc.block);
    if !ok { return; }
    ok, loc.capSize := ParseLettered(fs[2], 'c', loc.cap);
    if !ok { return; }
    ok, loc.scatterSize := ParseLettered(fs[3], 's', loc.scatter);
  }

  /** `generate_locs`: null exactly when the text does not spell four fields, else their lists. */
  method GenerateLocs(s: string) returns (r: RebuildLoc?)
    ensures r == null <==> Denotes(s).None?
    ensures r != null ==> fresh(r) && r.InBounds() && Denotes(s) == Some(r.Lists())
    ensures r == null <==> forall l :: !SpellsLists(s, l)
    ensures r != null ==> SpellsLists(s, r.Lists())
  {
    RefusedIff(s);
    var loc := new RebuildLoc();
    var fs := SplitFields(s);
    if fs.None? { return null; }
    var ok := FillFields(fs.value, loc);
    r := if ok then loc else null;
    if ok { DenotesIff(s, loc.Lists()); }
  }

  // ----- every success is usable -----

  ghost predicate UsableList(s: seq<int>) {
    0 < |s| <= MAX_LOC_BUF && forall x :: x in s ==> x >= 0
  }

  lemma {:induction false} AllValuesUsable(es: seq<string>)
    requires AllValues(es).Some?
    ensures |AllValues(es).value| >= |es|
    ensures forall x :: x in AllValues(es).value ==> x >= 0
    decreases |es|
  {
    if es != [] {
      AllValuesUsable(es[..|es| - 1]);
    }
  }

  /** Whatever text is accepted, all four lists are nonempty, in bounds and nonnegative. */
  lemma AcceptedIsUsable(s: string)
    requires Denotes(s).Some?
    ensures var l := Denotes(s).value;
      l.Valid() && UsableList(l.pod) && UsableList(l.block) && UsableList(l.cap) && UsableList(l.scatter)
  {
    var fs := Fields(s).value;
    AllValuesUsable(Entries(fs[0][1..]));
    AllValuesUsable(Entries(fs[1][1..]));
    AllValuesUsable(Entries(fs[2][1..]));
    AllValuesUsable(Entries(fs[3][1..]));
  }

  // ----- printing and parsing back -----

  /** The documented entry forms. */
  datatype Item = One(n: nat) | Span(lo: nat, hi: nat) {
    predicate Valid() { Span? ==> lo < hi }

    function Values(): (s: seq<int>)
      requires Valid()
    {
      if One? then [n] else Range(lo, hi)
    }

    function Print(): (s: string) {
      if One? then Decimal(n) else Decimal(lo) + "-" + Decimal(hi)
    }
  }

  function DigitChar(d: nat): (c: char)
    requires d < 10
    ensures IsDigit(c) && Digit(c) == d
  {
    ('0' as int + d) as char
  }

  function Decimal(n: nat): (s: string)
    ensures |s| > 0 && forall i :: 0 <= i < |s| ==> IsDigit(s[i])
  {
    if n < 10 then [DigitChar(n)] else Decimal(n / 10) + [DigitChar(n % 10)]
  }

  ghost predicate ValidItems(items: seq<Item>) {
    items != [] && forall i :: 0 <= i < |items| ==> items[i].Valid()
  }

  function Flatten(items: seq<Item>): (s: seq<int>)
    requires forall i :: 0 <= i < |items| ==> items[i].Valid()
    decreases |items|
  {
    if items == [] then [] else Flatten(items[..|items| - 1]) + items[|items| - 1].Values()
  }

  function PrintItems(items: seq<Item>): (s: string)
    requires items != []
    decreases |items|
  {
    var last := items[|items| - 1].Print();
    if |items| == 1 then last else PrintItems(items[..|items| - 1]) + "," + last
  }

  lemma {:induction false} FeedStart(done: seq<int>, n: nat)
    ensures FeedAll(Some(Progress(done, -1, -1)), Decimal(n)) == Some(Progress(done, n, -1))
  {
    var s := Decimal(n);
    if n >= 10 {
      FeedStart(done, n / 10);
      assert s[..|s| - 1] == Decimal(n / 10);
    } else {
      assert s[..|s| - 1] == "";
    }
  }

  lemma {:induction false} FeedEnd(done: seq<int>, lo: nat, n: nat)
    ensures FeedAll(Some(Progress(done, lo, 0)), Decimal(n)) == Some(Progress(done, lo, n))
  {
    var s := Decimal(n);
    if n >= 10 {
      FeedEnd(done, lo, n / 10);
      assert s[..|s| - 1] == Decimal(n / 10);
    } else {
      assert s[..|s| - 1] == "";
    }
  }

  lemma FeedOne(p: Progress, c: char)
    ensures FeedAll(Some(p), [c]) == Feed(p, c)
  {
    assert [c][..0] == "";
    assert FeedAll(Some(p), "") == Some(p);
  }

  /** A printed item scans to an entry that means its values. */
  lemma FeedItem(done: seq<int>, item: Item) returns (p: Progress)
    requires item.Valid()
    ensures FeedAll(Some(Progress(done, -1, -1)), item.Print()) == Some(p)
    ensures p.done == done && RangeOf(p.start, p.end) == Some(item.Values())
  {
    var p0 := Some(Progress(done, -1, -1));
    if item.One? {
      FeedStart(done, item.n);
      p := Progress(done, item.n, -1);
      assert Range(item.n, item.n) == [item.n];
    } else {
      var lo, hi := Decimal(item.lo), Decimal(item.hi);
      p := Progress(done, item.lo, item.hi);
      FeedStart(done, item.lo);
      FeedAllSplit(p0, lo, "-");
      FeedOne(Progress(done, item.lo, -1), '-');
      FeedAllSplit(p0, lo + "-", hi);
      FeedEnd(done, item.lo, item.hi);
    }
  }

  lemma {:induction false} FeedItems(items: seq<Item>) returns (p: Progress)
    requires ValidItems(items) && |Flatten(items)| <= MAX_LOC_BUF
    ensures FeedAll(Fresh, PrintItems(items)) == Some(p)
    ensures Flush(p) == Some(Flatten(items))
    decreases |items|
  {
    var front, last := items[..|items| - 1], items[|items| - 1];
    if |items| == 1 {
      p := FeedItem([], last);
      assert Flatten(front) == [];
    } else {
      var q := FeedItems(front);
      var text := PrintItems(front);
      FeedAllSplit(Fresh, text, ",");
      FeedOne(q, ',');
      FeedAllSplit(Fresh, text + ",", last.Print());
      p := FeedItem(Flatten(front), last);
    }
  }

  lemma FieldRoundTrip(items: seq<Item>)
    requires ValidItems(items) && |Flatten(items)| <= MAX_LOC_BUF
    ensures FieldValues(PrintItems(items)) == Some(Flatten(items))
  {
    var p := FeedItems(items);
    FinishIsFieldValues(PrintItems(items));
  }

  lemma {:induction false} NoSlash(items: seq<Item>)
    requires items != []
    ensures '/' !in PrintItems(items)
    decreases |items|
  {
    if |items| > 1 { NoSlash(items[..|items| - 1]); }
  }

  lemma CutAtSlash(a: string, b: string)
    requires '/' !in a
    ensures Cut(a + "/" + b) == Some((a, b))
  {
    var s := a + "/" + b;
    var at := StrChr(s, '/');
    assert s[|a|] == '/';
    assert forall i :: 0 <= i < |a| ==> s[i] == a[i];
    assert s[..|a|] == a && s[|a| + 1..] == b;
  }

  lemma FieldsOfJoined(p: string, b: string, c: string, s: string)
    requires '/' !in p && '/' !in b && '/' !in c
    ensures Fields(p + "/" + (b + "/" + (c + "/" + s))) == Some([p, b, c, s])
  {
    CutAtSlash(p, b + "/" + (c + "/" + s));
    CutAtSlash(b, c + "/" + s);
    CutAtSlash(c, s);
  }

  // ----- which texts are accepted -----

  /** The text has the four fields in order, each behind its letter; only the last may hold slashes. */
  predicate Spells(s: string, p: string, b: string, c: string, d: string) {
    s == "p" + p + "/b" + b + "/c" + c + "/s" + d && '/' !in p && '/' !in b && '/' !in c
  }

  /** ... and the fields have the values of `l`. */
  ghost predicate Means(p: string, b: string, c: string, d: string, l: LocSet) {
    FieldValues(p) == Some(l.pod) && FieldValues(b) == Some(l.block) && FieldValues(c) == Some(l.cap) && FieldValues(d) == Some(l.scatter)
  }

  lemma CutSplits(s: string)
    ensures Cut(s).Some? ==> s == Cut(s).value.0 + "/" + Cut(s).value.1 && '/' !in Cut(s).value.0
  {
    var at := StrChr(s, '/');
    if at >= 0 {
      assert s == s[..at] + [s[at]] + s[at + 1..];
      assert forall i :: 0 <= i < at ==> s[..at][i] == s[i];
    }
  }

  lemma FieldsSplit(s: string)
    requires Fields(s).Some?
    ensures
      var fs := Fields(s).value;
      s == fs[0] + "/" + (fs[1] + "/" + (fs[2] + "/" + fs[3])) && '/' !in fs[0] && '/' !in fs[1] && '/' !in fs[2]
  {
    CutSplits(s);
    var s1 := Cut(s).value.1;
    CutSplits(s1);
    CutSplits(Cut(s1).value.1);
  }

  lemma LetterFirst(f: string, letter: char)
    ensures LetteredValues(f, letter).Some? ==> f == [letter] + f[1..]
  {
  }

  lemma Regroup(p: string, b: string, c: string, d: string)
    ensures "p" + p + "/b" + b + "/c" + c + "/s" + d == ("p" + p) + "/" + (("b" + b) + "/" + (("c" + c) + "/" + ("s" + d)))
  {
    Behind("p" + p, 'b', b);
    Behind("p" + p + "/b" + b, 'c', c);
    Behind("p" + p + "/b" + b + "/c" + c, 's', d);
  }

  lemma Behind(front: string, letter: char, f: string)
    ensures front + "/" + ([letter] + f) == front + ("/" + [letter]) + f
  {
  }

  lemma AcceptedSpells(s: string, l: LocSet) returns (p: string, b: string, c: string, d: string)
    requires Denotes(s) == Some(l)
    ensures Spells(s, p, b, c, d) && Means(p, b, c, d, l)
  {
    var fs := Fields(s).value;
    FieldsSplit(s);
    LetterFirst(fs[0], 'p');
    LetterFirst(fs[1], 'b');
    LetterFirst(fs[2], 'c');
    LetterFirst(fs[3], 's');
    p, b, c, d := fs[0][1..], fs[1][1..], fs[2][1..], fs[3][1..];
    Regroup(p, b, c, d);
  }

  lemma LetterBefore(letter: char, f: string)
    ensures LetteredValues([letter] + f, letter) == FieldValues(f)
  {
    assert ([letter] + f)[1..] == f;
  }

  lemma SpelledAccepted(s: string, p: string, b: string, c: string, d: string, l: LocSet)
    requires Spells(s, p, b, c, d) && Means(p, b, c, d, l)
    ensures Denotes(s) == Some(l)
  {
    Regroup(p, b, c, d);
    FieldsOfJoined("p" + p, "b" + b, "c" + c, "s" + d);
    LetterBefore('p', p);
    LetterBefore('b', b);
    LetterBefore('c', c);
    LetterBefore('s', d);
    assert l == LocSet(l.pod, l.block, l.cap, l.scatter);
  }

  ghost predicate SpellsLists(s: string, l: LocSet) {
    exists p, b, c, d :: Spells(s, p, b, c, d) && Means(p, b, c, d, l)
  }

  /** The exact acceptance law: a text denotes four lists exactly if it spells four fields with those
      values. Any other text, with a letter wrong or missing or with fewer fields, denotes nothing. */
  lemma DenotesIff(s: string, l: LocSet)
    ensures Denotes(s) == Some(l) <==> SpellsLists(s, l)
  {
    if Denotes(s) == Some(l) {
      var p, b, c, d := AcceptedSpells(s, l);
    }
    if SpellsLists(s, l) {
      var p, b, c, d :| Spells(s, p, b, c, d) && Means(p, b, c, d, l);
      SpelledAccepted(s, p, b, c, d, l);
    }
  }

  lemma RefusedIff(s: string)
    ensures Denotes(s).None? <==> forall l :: !SpellsLists(s, l)
  {
    if Denotes(s).Some? {
      DenotesIff(s, Denotes(s).value);
    } else {
      forall l ensures !SpellsLists(s, l) {
        DenotesIff(s, l);
      }
    }
  }

  // ----- printed specifications -----

  datatype Spec = Spec(pod: seq<Item>, block: seq<Item>, cap: seq<Item>, scatter: seq<Item>)

  ghost predicate Fits(items: seq<Item>) { ValidItems(items) && |Flatten(items)| <= MAX_LOC_BUF }

  function Print(spec: Spec): (s: string)
    requires spec.pod != [] && spec.block != [] && spec.cap != [] && spec.scatter != []
  {
    "p" + PrintItems(spec.pod) + "/" + ("b" + PrintItems(spec.block) + "/" + ("c" + PrintItems(spec.cap) + "/" + ("s" + PrintItems(spec.scatter))))
  }

  /** Parsing a printed specification gives back exactly the values it lists, in order. */
  lemma SpecRoundTrip(spec: Spec)
    requires Fits(spec.pod) && Fits(spec.block) && Fits(spec.cap) && Fits(spec.scatter)
    ensures Denotes(Print(spec)) ==
            Some(LocSet(Flatten(spec.pod), Flatten(spec.block), Flatten(spec.cap), Flatten(spec.scatter)))
  {
    var p, b := "p" + PrintItems(spec.pod), "b" + PrintItems(spec.block);
    var c, s := "c" + PrintItems(spec.cap), "s" + PrintItems(spec.scatter);
    NoSlash(spec.pod);
    NoSlash(spec.block);
    NoSlash(spec.cap);
    FieldsOfJoined(p, b, c, s);
    LetterRoundTrip('p', spec.pod);
    LetterRoundTrip('b', spec.block);
    LetterRoundTrip('c', spec.cap);
    LetterRoundTrip('s', spec.scatter);
  }

  lemma LetterRoundTrip(letter: char, items: seq<Item>)
    requires Fits(items)
    ensures LetteredValues([letter] + PrintItems(items), letter) == Some(Flatten(items))
  {
    FieldRoundTrip(items);
    LetterBefore(letter, PrintItems(items));
  }

  // ----- lists in any order, and with repetitions -----

  /** The specification "p0/b0/c0/s<x>,<y>". */
  function TwoScatters(x: nat, y: nat): (spec: Spec) { Spec([One(0)], [One(0)], [One(0)], [One(x), One(y)]) }

  lemma TwoScattersAccepted(x: nat, y: nat)
    ensures Denotes(Print(TwoScatters(x, y))) == Some(LocSet([0], [0], [0], [x, y]))
  {
    var zero, both := [One(0)], [One(x), One(y)];
    assert zero[..0] == [] && both[..1] == [One(x)] && [One(x)][..0] == [];
    assert Flatten([]) == [];
    assert Flatten(zero) == [0];
    assert Flatten([One(x)]) == [x];
    assert Flatten(both) == [x, y];
    SpecRoundTrip(TwoScatters(x, y));
  }

  /** The parser does not sort: an accepted text with descending values, used for the target and the
      distribution alike, gives a maximum below a location in use. */
  lemma AcceptedListsExceedMaxLoc(x: nat, y: nat)
    requires x > y
    ensures
      var lists := Denotes(Print(TwoScatters(x, y)));
      lists.Some? && lists.value.Valid() && !IsBound(lists.value, lists.value, MaxLoc(lists.value, lists.value))
  {
    TwoScattersAccepted(x, y);
    var l := LocSet([0], [0], [0], [x, y]);
    assert l.scatter[0] == x && l.pod[0] == 0 && l.block[0] == 0 && l.cap[0] == 0;
    assert l.Contains(Loc(0, 0, 0, x)) && !Within(Loc(0, 0, 0, x), MaxLoc(l, l));
  }

  /** The parser does not remove repetitions: an accepted text hands the same location out twice. */
  lemma AcceptedListsRepeat(x: nat)
    ensures
      var lists := Denotes(Print(TwoScatters(x, x)));
      lists.Some? && lists.value.Valid() && !NumbersOnce(lists.value)
  {
    TwoScattersAccepted(x, x);
    var l := LocSet([0], [0], [0], [x, x]);
    NumbersOnceIffDuplicateFree(l);
    assert l.scatter[0] == l.scatter[1];
  }

  // ----- what else the parser lets through -----

  predicate AllDigits(s: string) { s != "" && Digits(s) }

  /** "lo-hi", cut at index k. */
  predicate IsSpanAt(e: string, k: nat) {
    k < |e| && e[k] == '-' && AllDigits(e[..k]) && AllDigits(e[k + 1..])
  }

  ghost predicate WellFormed(e: string) { AllDigits(e) || exists k: nat :: IsSpanAt(e, k) }

  lemma {:induction false} ScanDigits(e: string)
    requires AllDigits(e)
    ensures Scan(e) == Some((Val(e), -1))
    decreases |e|
  {
    var front := e[..|e| - 1];
    if front != "" { ScanDigits(front); }
  }

  lemma {:induction false} ScanSpan(e: string, k: nat, n: nat)
    requires k < n <= |e| && e[k] == '-' && AllDigits(e[..k]) && (n > k + 1 ==> AllDigits(e[k + 1..n]))
    ensures Scan(e[..n]) == Some((Val(e[..k]), Val(e[k + 1..n])))
    decreases n
  {
    assert e[..n][..n - 1] == e[..n - 1];
    if n == k + 1 {
      ScanDigits(e[..k]);
    } else {
      assert e[k + 1..n][..n - k - 2] == e[k + 1..n - 1];
      var shorter, longer := e[k + 1..n - 1], e[k + 1..n];
      assert forall i :: 0 <= i < |shorter| ==> shorter[i] == longer[i];
      ScanSpan(e, k, n - 1);
    }
  }

  /** A well-formed entry means what it says: one value, or a range if it ascends. */
  lemma WellFormedMeaning(e: string, k: nat)
    ensures AllDigits(e) ==> EntryValues(e) == Some([Val(e)])
    ensures IsSpanAt(e, k) ==>
      var lo, hi := Val(e[..k]), Val(e[k + 1..]);
      EntryValues(e) == if lo < hi then Some(Range(lo, hi)) else None
  {
    if AllDigits(e) {
      ScanDigits(e);
      assert Range(Val(e), Val(e)) == [Val(e)];
    }
    if IsSpanAt(e, k) {
      assert e[k + 1..|e|] == e[k + 1..] && e[..|e|] == e;
      ScanSpan(e, k, |e|);
    }
  }

  lemma {:induction false} ScanAlphabet(e: string)
    requires Scan(e).Some?
    ensures forall i :: 0 <= i < |e| ==> IsDigit(e[i]) || e[i] == '-'
    ensures e != "" && e[|e| - 1] == '-' ==> Scan(e).value.1 == 0
    decreases |e|
  {
    if e != "" {
      var front := e[..|e| - 1];
      ScanAlphabet(front);
      assert forall i :: 0 <= i < |front| ==> front[i] == e[i];
    }
  }

  /** The parser also accepts entries of neither form, and reads something into them ... */
  lemma LeadingDashAccepted()
    ensures EntryValues("-59") == Some([5, 6, 7, 8, 9]) && !WellFormed("-59")
  {
    var a := "-59";
    ScanSteps(a);
    assert a[..2] == "-5" && a[..1] == "-" && a[..0] == "";
    assert Range(5, 9) == [5, 6, 7, 8, 9];
    forall k: nat ensures !IsSpanAt(a, k) {
      assert k == 0 ==> a[..k] == "";
    }
  }

  lemma RepeatedDashAccepted()
    ensures EntryValues("3-1-5") == Some([3, 4, 5]) && !WellFormed("3-1-5")
  {
    var b := "3-1-5";
    ScanSteps(b);
    assert b[..4] == "3-1-" && b[..3] == "3-1" && b[..2] == "3-" && b[..1] == "3" && b[..0] == "";
    assert Scan("3-") == Some((3, 0));
    assert Scan("3-1") == Some((3, 1));
    assert Scan("3-1-") == Some((3, 0));
    assert Range(3, 5) == [3, 4, 5];
    assert b[2..][1] == '-' && b[..3][1] == '-';
  }

  lemma {:induction false} ScanSteps(e: string)
    ensures forall n :: 0 < n <= |e| ==> Scan(e[..n]) == match Scan(e[..n - 1]) case None => None case Some((s, t)) => ScanChar(s, t, e[n - 1])
    ensures Scan(e[..0]) == Some((-1, -1)) && e[..|e|] == e
  {
    forall n | 0 < n <= |e|
      ensures Scan(e[..n]) == match Scan(e[..n - 1]) case None => None case Some((s, t)) => ScanChar(s, t, e[n - 1])
    {
      assert e[..n][..n - 1] == e[..n - 1];
    }
  }

  ghost predicate AtMostOneDash(e: string) {
    forall i, j :: 0 <= i < j < |e| ==> !(e[i] == '-' && e[j] == '-')
  }

  /** ... and an accepted entry has a documented form exactly when it has at most one dash and does not start with it. */
  lemma AcceptedWellFormedIff(e: string)
    requires EntryValues(e).Some?
    ensures WellFormed(e) <==> e[0] != '-' && AtMostOneDash(e)
  {
    ScanAlphabet(e);
    if WellFormed(e) && !AllDigits(e) {
      var k: nat :| IsSpanAt(e, k);
      forall i | 0 <= i < |e| && i != k ensures e[i] != '-' {
        if i < k { assert e[i] == e[..k][i]; } else { assert e[i] == e[k + 1..][i - k - 1]; }
      }
      assert e[..k][0] == e[0];
    }
    if e[0] != '-' && AtMostOneDash(e) && !AllDigits(e) {
      var k :| 0 <= k < |e| && !IsDigit(e[k]);
      assert e[k] == '-' && k > 0 && k < |e| - 1;
      assert forall i :: 0 <= i < |e| && i != k ==> IsDigit(e[i]);
      assert IsSpanAt(e, k);
    }
  }
}
