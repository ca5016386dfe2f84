/** The file-system objects the emergency rebuild tool moves around, and the name tests
    that decide which of them it copies and which it deletes. */
module RebuildFiles {

  newtype byte = x: int | 0 <= x < 256

  /** What the tool can observe of a regular file: its bytes and its modification time. */
  datatype File = File(data: seq<byte>, mtime: int)

  /** A directory, as the names `readdir` reports apart from "." and "..". */
  type Dir = map<string, File>

  const WRITE_SFX := ".partial"
  const REBUILD_SFX := ".rebuild"

  /** `needle` occurs in `s` at index `i`. */
  predicate OccursAt(s: string, needle: string, i: nat) {
    i + |needle| <= |s| && s[i..i + |needle|] == needle
  }

  /** `strstr`: the index of the first occurrence at or after `from`, or -1. */
  function StrStr(s: string, needle: string, from: nat := 0): (r: int)
    ensures r < 0 ==> forall i: nat :: from <= i ==> !OccursAt(s, needle, i)
    ensures r >= 0 ==> from <= r && OccursAt(s, needle, r) && forall i: nat :: from <= i < r ==> !OccursAt(s, needle, i)
    decreases |s| - from
  {
    if OccursAt(s, needle, from) then from
    else if from >= |s| then -1
    else StrStr(s, needle, from + 1)
  }

  /** `is_sfx`: only the first occurrence is compared with the end of the string. */
  predicate IsSfx(s: string, needle: string) {
    var at := StrStr(s, needle);
    at >= 0 && at + |needle| == |s|
  }

  /** The test differs from "ends with" exactly on names that also contain the suffix earlier. */
  lemma IsSfxIsFirstOccurrence(s: string, needle: string)
    ensures IsSfx(s, needle) <==>
            needle <= s[if |needle| <= |s| then |s| - |needle| else 0..] &&
            forall i: nat :: i + |needle| < |s| ==> !OccursAt(s, needle, i)
  {
    var at := StrStr(s, needle);
    if |needle| <= |s| {
      var tail := |s| - |needle|;
      assert s[tail..] == s[tail..tail + |needle|];
      assert needle <= s[tail..] <==> OccursAt(s, needle, tail);
    }
  }

  predicate Hidden(name: string) { name != "" && name[0] == '.' }

  /** LibNE partial and rebuild files. */
  predicate Working(name: string) { IsSfx(name, WRITE_SFX) || IsSfx(name, REBUILD_SFX) }

  /** The files the migration must not lose. */
  predicate IsData(name: string) { !Hidden(name) && !Working(name) }

  /** The names of those files, spelt out. */
  lemma DataNames(name: string)
    ensures IsData(name) <==>
      && !("." <= name)
      && (forall sfx :: sfx in {".partial", ".rebuild"} && |sfx| <= |name| && name[|name| - |sfx|..] == sfx ==>
            exists i: nat :: i + |sfx| < |name| && OccursAt(name, sfx, i))
  {
    IsSfxIsFirstOccurrence(name, WRITE_SFX);
    IsSfxIsFirstOccurrence(name, REBUILD_SFX);
  }

  function DataPart(d: Dir): (r: Dir) { map n | n in d && IsData(n) :: d[n] }

  function HiddenPart(d: Dir): (r: Dir) { map n | n in d && Hidden(n) :: d[n] }

}
