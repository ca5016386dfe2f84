/** Characters and strings as the hand-written parsers of MarFS read them. */
module Text {

  /** The substrings between commas; there is always at least one. */
  function Entries(s: string): (es: seq<string>)
    ensures |es| > 0
    decreases |s|
  {
    if s == "" then [""]
    else
      var es, c := Entries(s[..|s| - 1]), s[|s| - 1];
      if c == ',' then es + [""] else es[..|es| - 1] + [es[|es| - 1] + [c]]
  }

  predicate IsDigit(c: char) { '0' <= c <= '9' }

  function Digit(c: char): (d: nat)
    requires IsDigit(c)
    ensures d < 10
  {
    (c as int) - ('0' as int)
  }

  predicate Digits(s: string) { forall i :: 0 <= i < |s| ==> IsDigit(s[i]) }

  /** The number a string of digits denotes; leading zeros are allowed. */
  function Val(s: string): (n: nat)
    requires Digits(s)
    decreases |s|
  {
    if s == "" then 0 else Val(s[..|s| - 1]) * 10 + Digit(s[|s| - 1])
  }

  /** `strchr`: the index of the first `c`, or -1. */
  function StrChr(s: string, c: char): (r: int)
    ensures r < 0 ==> forall j :: 0 <= j < |s| ==> s[j] != c
    ensures r >= 0 ==> r < |s| && s[r] == c && forall j :: 0 <= j < r ==> s[j] != c
  {
    if s == "" then -1
    else if s[0] == c then 0
    else
      var r := StrChr(s[1..], c);
      assert forall j :: 0 < j < |s| ==> s[j] == s[1..][j - 1];
      if r < 0 then -1 else r + 1
  }

  function Join(es: seq<string>): (s: string)
    requires |es| > 0
    decreases |es|
  {
    if |es| == 1 then es[0] else Join(es[..|es| - 1]) + "," + es[|es| - 1]
  }

  /** The entries are what lies between the commas: joined again they give the string, and none holds a comma. */
  lemma {:induction false} EntriesSplit(s: string)
    ensures Join(Entries(s)) == s
    ensures forall i :: 0 <= i < |Entries(s)| ==> ',' !in Entries(s)[i]
    decreases |s|
  {
    if s != "" {
      var front, c, es := s[..|s| - 1], s[|s| - 1], Entries(s);
      EntriesSplit(front);
      var fs := Entries(front);
      if c == ',' {
        assert es[..|es| - 1] == fs;
      } else {
        assert es[..|es| - 1] == fs[..|fs| - 1];
        if |fs| > 1 {
          assert Join(es) == Join(fs[..|fs| - 1]) + "," + (fs[|fs| - 1] + [c]);
        }
      }
    }
  }
}
