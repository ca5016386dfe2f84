/** The fault lists of the fuzzing DAL: `parse_fuzz` reads them from the configuration, and
    `check_fuzz` decides whether an operation on a block fails. */
module Fuzzing {
  import opened Common
  import opened Text

  const FZ_LN: nat := 20

  // ----- what a list asks for -----

  function Unspaced(s: string): (r: string)
    ensures forall i :: 0 <= i < |r| ==> r[i] in s
    decreases |s|
  {
    if s == "" then ""
    else if s[|s| - 1] == ' ' then Unspaced(s[..|s| - 1])
    else Unspaced(s[..|s| - 1]) + [s[|s| - 1]]
  }

  predicate InAlphabet(c: char) { IsDigit(c) || c == ',' || c == ' ' }

  predicate Clean(s: string) { forall i :: 0 <= i < |s| ==> InAlphabet(s[i]) }

  /** The numbers among the entries, empty entries skipped. */
  function Numbers(es: seq<string>): (r: seq<nat>)
    decreases |es|
  {
    if es == [] then []
    else
      var e := es[|es| - 1];
      Numbers(es[..|es| - 1]) + if e == "" || !Digits(e) then [] else [Val(e)]
  }

  /** The blocks a configuration string asks to fail: its comma-separated numbers, spaces deleted. */
  function Requested(s: string): (r: seq<nat>) { Numbers(Entries(Unspaced(s))) }

  /** The numbers followed by a comma somewhere. */
  function Terminated(s: string): (r: seq<nat>) {
    var es := Entries(Unspaced(s));
    Numbers(es[..|es| - 1])
  }

  // ----- the parser's pass -----

  /** `blocks` so far, the number in progress, and whether it has a digit; `any` is `allocate`. */
  datatype Pass = Pass(done: seq<nat>, tot: nat, valid: bool, any: bool)

  function Feed(p: Pass, c: char): (r: Option<Pass>) {
    if IsDigit(c) then Some(Pass(p.done, p.tot * 10 + Digit(c), true, true))
    else if c == ',' then
      var done := if p.valid then p.done + [p.tot] else p.done;
      if |done| == FZ_LN then None else Some(Pass(done, if p.valid then 0 else p.tot, false, p.any))
    else if c == ' ' then Some(p)
    else None
  }

  function FeedAll(s: string): (r: Option<Pass>)
    ensures r.Some? ==> |r.value.done| < FZ_LN
    decreases |s|
  {
    if s == "" then Some(Pass([], 0, false, false))
    else match FeedAll(s[..|s| - 1])
      case None => None
      case Some(p) => Feed(p, s[|s| - 1])
  }

  function Listed(p: Pass): (r: seq<nat>) { p.done + if p.valid then [p.tot] else [] }

  datatype Fuzz = Rejected | Nothing | Everything | Blocks(list: seq<nat>)

  /** What `parse_fuzz` makes of a string; a dash ends the parse and asks for every block. */
  function Parsed(s: string): (r: Fuzz)
    ensures r.Blocks? ==> |r.list| <= FZ_LN
  {
    var dash := StrChr(s, '-');
    match FeedAll(if dash < 0 then s else s[..dash])
    case None => Rejected
    case Some(p) => if dash >= 0 then Everything else if p.any then Blocks(Listed(p)) else Nothing
  }

  /** The parse state says what the entries read so far say. */
  ghost predicate Agrees(p: Pass, es: seq<string>)
    requires |es| > 0
  {
    var last := es[|es| - 1];
    && p.done == Numbers(es[..|es| - 1])
    && Digits(last) && p.tot == Val(last)
    && (p.valid <==> last != "")
    && (p.any <==> Numbers(es) != [])
  }

  /** How the entries change with one more character. */
  lemma EntriesStep(s: string)
    requires s != ""
    ensures
      var front, c := s[..|s| - 1], s[|s| - 1];
      var fs, es := Entries(Unspaced(front)), Entries(Unspaced(s));
      if c == ' ' then es == fs
      else if c == ',' then es == fs + [""]
      else es == fs[..|fs| - 1] + [fs[|fs| - 1] + [c]]
  {
    var t := Unspaced(s);
    if s[|s| - 1] != ' ' {
      assert t[..|t| - 1] == Unspaced(s[..|s| - 1]);
    }
  }

  lemma FeedComma(p: Pass, fs: seq<string>)
    requires |fs| > 0 && Agrees(p, fs)
    ensures Feed(p, ',').Some? <==> |Numbers(fs)| != FZ_LN
    ensures Feed(p, ',').Some? ==> Agrees(Feed(p, ',').value, fs + [""])
  {
    var es := fs + [""];
    assert es[..|es| - 1] == fs;
  }

  lemma FeedDigit(p: Pass, fs: seq<string>, c: char)
    requires |fs| > 0 && Agrees(p, fs) && IsDigit(c)
    ensures Feed(p, c).Some? && Agrees(Feed(p, c).value, fs[..|fs| - 1] + [fs[|fs| - 1] + [c]])
  {
    var e := fs[|fs| - 1] + [c];
    var es := fs[..|fs| - 1] + [e];
    assert es[..|es| - 1] == fs[..|fs| - 1];
    assert e[..|e| - 1] == fs[|fs| - 1];
  }

  /** More text never takes back a number that a comma has ended. */
  lemma TerminatedGrows(s: string)
    requires s != ""
    ensures Terminated(s[..|s| - 1]) <= Terminated(s)
  {
    EntriesStep(s);
    var fs, es := Entries(Unspaced(s[..|s| - 1])), Entries(Unspaced(s));
    if s[|s| - 1] == ',' {
      assert es[..|es| - 1] == fs;
    } else if s[|s| - 1] != ' ' {
      assert es[..|es| - 1] == fs[..|fs| - 1];
    }
  }

  /** The pass accepts a string of digits, commas and spaces unless too many numbers are followed
      by a comma, and ends in a state that agrees with the entries. */
  lemma {:induction false} PassMatchesEntries(s: string)
    ensures FeedAll(s).Some? <==> Clean(s) && |Terminated(s)| < FZ_LN
    ensures FeedAll(s).Some? ==> Agrees(FeedAll(s).value, Entries(Unspaced(s)))
    decreases |s|
  {
    if s == "" {
      assert Entries("")[..0] == [];
      assert Numbers([""]) == Numbers([""][..0]);
    } else {
      var front, c := s[..|s| - 1], s[|s| - 1];
      PassMatchesEntries(front);
      assert Clean(s) <==> Clean(front) && InAlphabet(c);
      EntriesStep(s);
      TerminatedGrows(s);
      if FeedAll(front).Some? {
        var p, fs := FeedAll(front).value, Entries(Unspaced(front));
        if c == ',' {
          FeedComma(p, fs);
          assert Entries(Unspaced(s))[..|fs|] == fs;
          assert Terminated(s) == Numbers(fs);
        } else if IsDigit(c) {
          FeedDigit(p, fs, c);
          assert Entries(Unspaced(s))[..|fs| - 1] == fs[..|fs| - 1];
        }
      }
    }
  }

  // ----- the methods -----

  /** The array a list is kept in: entries are one more than their block, and zeros fill the rest. */
  function Encoded(list: seq<nat>): (r: seq<int>)
    requires |list| <= FZ_LN
    ensures |r| == FZ_LN
  {
    seq(FZ_LN, i => if 0 <= i < |list| then list[i] + 1 else 0)
  }

  lemma {:induction false} RejectedStays(s: string, i: nat)
    requires i <= |s| && FeedAll(s[..i]).None?
    ensures FeedAll(s).None?
    decreases |s| - i
  {
    if i < |s| {
      assert s[..i + 1][..i] == s[..i];
      RejectedStays(s, i + 1);
    } else {
      assert s[..i] == s;
    }
  }

  /** Rejection does not depend on what follows, except that nothing is read past a dash. */
  lemma RejectedEarly(s: string, i: nat)
    requires i < |s| && '-' !in s[..i + 1] && FeedAll(s[..i + 1]).None?
    ensures Parsed(s).Rejected?
  {
    var dash := StrChr(s, '-');
    var t := if dash < 0 then s else s[..dash];
    assert forall j :: 0 <= j <= i ==> s[j] == s[..i + 1][j];
    assert t[..i + 1] == s[..i + 1];
    RejectedStays(t, i + 1);
  }

  /** `parse_fuzz`: whether the string is accepted, and the list it stands for. */
  method ParseFuzz(s: string) returns (rc: int, fuzz: array?<int>)
    ensures fuzz != null ==> fresh(fuzz) && fuzz.Length == FZ_LN
    ensures rc == if Clean(BeforeDash(s)) && |Terminated(BeforeDash(s))| < FZ_LN then 0 else -1
    ensures rc == -1 ==> fuzz == null
    ensures rc == 0 && '-' in s ==> fuzz != null && fuzz[0] == -1
    ensures rc == 0 && '-' !in s && Requested(s) == [] ==> fuzz == null
    ensures rc == 0 && '-' !in s && Requested(s) != [] ==>
      fuzz != null && |Requested(s)| <= FZ_LN && fuzz[..] == Encoded(Requested(s))
  {
    if '-' in s { DashIsEverything(s, |BeforeDash(s)|); } else { ParsedIsRequested(s); }
    rc, fuzz := ParseChars(s);
  }

  /** Its loop over the characters. */
  method ParseChars(s: string) returns (rc: int, fuzz: array?<int>)
    ensures rc == (if Parsed(s).Rejected? then -1 else 0)
    ensures fuzz == null <==> Parsed(s).Rejected? || Parsed(s).Nothing?
    ensures fuzz != null ==> fresh(fuzz) && fuzz.Length == FZ_LN
    ensures Parsed(s).Blocks? ==> fuzz[..] == Encoded(Parsed(s).list)
    ensures Parsed(s).Everything? ==> fuzz[0] == -1
  {
    var blocks := new int[FZ_LN](_ => 0);
    var ind: nat, tot: nat := 0, 0;
    var allocate, valid := false, false;
    ghost var done: seq<nat> := [];
    fuzz := null;
    for i := 0 to |s|
      invariant '-' !in s[..i]
      invariant FeedAll(s[..i]) == Some(Pass(done, tot, valid, allocate))
      invariant ind == |done| < FZ_LN && blocks[..] == Encoded(done) && fuzz == null
    {
      assert s[..i + 1] == s[..i] + [s[i]];
      assert s[..i + 1][..i] == s[..i];
      if s[i] == '-' {
        DashAt(s, i);
        blocks[0] := -1;
        return 0, blocks;
      } else if IsDigit(s[i]) {
        tot := tot * 10 + Digit(s[i]);
        allocate, valid := true, true;
      } else if s[i] == ',' {
        if valid {
          blocks[ind] := tot + 1;
          ind := ind + 1;
          done := done + [tot];
          tot := 0;
        }
        valid := false;
        if ind == FZ_LN { RejectedEarly(s, i); return -1, null; }
      } else if s[i] != ' ' {
        RejectedEarly(s, i);
        return -1, null;
      }
    }
    assert s[..|s|] == s;
    if valid {
      blocks[ind] := tot + 1;
      assert blocks[..] == Encoded(done + [tot]);
    }
    rc := 0;
    if allocate { fuzz := blocks; }
  }

  lemma DashAt(s: string, i: nat)
    requires i < |s| && s[i] == '-' && '-' !in s[..i]
    ensures StrChr(s, '-') == i
  {
    assert forall j :: 0 <= j < i ==> s[j] == s[..i][j];
  }

  /** Some entry matches the block before the list runs out. */
  ghost predicate Hits(fuzz: seq<int>, block: int) {
    exists i :: 0 <= i < |fuzz| && (fuzz[i] < 0 || fuzz[i] == block + 1) && forall j :: 0 <= j < i ==> fuzz[j] != 0
  }

  /** `check_fuzz` */
  method CheckFuzz(fuzz: array?<int>, block: int) returns (rc: int)
    requires fuzz != null ==> fuzz.Length == FZ_LN
    ensures rc == if fuzz != null && Hits(fuzz[..], block) then -1 else 0
  {
    if fuzz == null { return 0; }
    var i := 0;
    while i < FZ_LN
      invariant 0 <= i <= FZ_LN
      invariant forall j :: 0 <= j < i ==> fuzz[j] > 0 && fuzz[j] != block + 1
    {
      if fuzz[i] < 0 || fuzz[i] == block + 1 {
        assert fuzz[..][i] == fuzz[i];
        return -1;
      } else if fuzz[i] == 0 {
        assert fuzz[..][i] == 0;
        return 0;
      }
      i := i + 1;
    }
    rc := 0;
  }

  /** For a parsed list, and every block: a block in the list, or the pseudo-block -1 of `verify`
      and `cleanup`, which runs into the terminator of any list that is not full. */
  lemma EncodedHits(list: seq<nat>, block: int)
    requires |list| <= FZ_LN
    ensures Hits(Encoded(list), block) <==>
      (block >= 0 && exists i :: 0 <= i < |list| && list[i] == block) || (block == -1 && |list| < FZ_LN)
  {
    var e := Encoded(list);
    if block >= 0 && exists i :: 0 <= i < |list| && list[i] == block {
      var i :| 0 <= i < |list| && list[i] == block;
      assert e[i] == block + 1;
    }
    if block == -1 && |list| < FZ_LN {
      assert e[|list|] == 0;
    }
  }

  /** What `parse_fuzz` keeps of an accepted string without a dash are the numbers it lists. */
  lemma ParsedIsRequested(s: string)
    requires '-' !in s
    ensures Parsed(s).Rejected? <==> !Clean(s) || |Terminated(s)| >= FZ_LN
    ensures !Parsed(s).Rejected? ==> Parsed(s) == if Requested(s) == [] then Nothing else Blocks(Requested(s))
  {
    PassMatchesEntries(s);
    if FeedAll(s).Some? {
      var es := Entries(Unspaced(s));
      assert Numbers(es) == Listed(FeedAll(s).value);
    }
  }

  /** A dash asks for every block, whatever follows it, if what precedes it is acceptable. */
  lemma DashIsEverything(s: string, d: nat)
    requires d < |s| && s[d] == '-' && '-' !in s[..d]
    ensures Parsed(s) == if Clean(s[..d]) && |Terminated(s[..d])| < FZ_LN then Everything else Rejected
  {
    DashAt(s, d);
    PassMatchesEntries(s[..d]);
  }

  /** The string up to the first dash. */
  function BeforeDash(s: string): (t: string)
    ensures t <= s && '-' !in t && (if '-' in s then |t| < |s| && s[|t|] == '-' else t == s)
  {
    var d := StrChr(s, '-');
    var t := if d < 0 then s else s[..d];
    assert forall i :: 0 <= i < |t| ==> t[i] == s[i];
    t
  }

  /** An operation on a block with the fault list of a configuration string. The string is accepted
      exactly if, up to the first dash, it is made of digits, commas and spaces with fewer than
      twenty numbers that a comma ends. The operation then fails exactly if the string has a dash or
      names the block. For the pseudo-block -1 it fails as well for any list of fewer than twenty numbers. */
  method Faults(s: string, block: int) returns (accepted: bool, faulty: bool)
    ensures accepted <==> Clean(BeforeDash(s)) && |Terminated(BeforeDash(s))| < 20
    ensures accepted && '-' in s ==> faulty
    ensures accepted && '-' !in s && block != -1 ==> (faulty <==> block in Requested(s))
    ensures accepted && '-' !in s && block == -1 ==> (faulty <==> 0 < |Requested(s)| < 20)
    ensures !accepted ==> !faulty
  {
    var rc, fuzz := ParseFuzz(s);
    accepted, faulty := rc == 0, false;
    if !accepted { return; }
    rc := CheckFuzz(fuzz, block);
    faulty := rc == -1;
    if '-' in s {
      assert fuzz[..][0] == -1;
    } else if fuzz != null {
      EncodedHits(Requested(s), block);
    }
  }
}
