/** Cutting characters of a class off both ends of a text. */
module Trimming {

  function TrimLeft(drop: char -> bool, s: string): (t: string)
    ensures |t| <= |s|
    ensures t != "" ==> !drop(t[0])
  {
    if s != "" && drop(s[0]) then TrimLeft(drop, s[1..]) else s
  }

  function TrimRight(drop: char -> bool, s: string): (t: string)
    ensures |t| <= |s| && t == s[..|t|]
    ensures t != "" ==> !drop(t[|t| - 1])
  {
    if s != "" && drop(s[|s| - 1]) then TrimRight(drop, s[..|s| - 1]) else s
  }

  /** Removes the leading and trailing characters that `drop` accepts. */
  function Trim(drop: char -> bool, s: string): string {
    TrimRight(drop, TrimLeft(drop, s))
  }

  /** What is left of a text when as many characters as possible are cut off both ends. */
  ghost predicate TrimmedFrom(drop: char -> bool, s: string, t: string) {
    exists i, j :: 0 <= i <= j <= |s| && t == s[i..j] && Cut(drop, s, i, j)
  }

  /** Everything outside `i..j` is dropped, and nothing at the ends of what is inside. */
  ghost predicate Cut(drop: char -> bool, s: string, i: int, j: int)
    requires 0 <= i <= j <= |s|
  {
    && (forall k :: 0 <= k < i || j <= k < |s| ==> drop(s[k]))
    && (i < j ==> !drop(s[i]) && !drop(s[j - 1]))
  }

  lemma {:induction false} TrimLeftCut(drop: char -> bool, s: string) returns (i: nat)
    ensures i <= |s| && TrimLeft(drop, s) == s[i..] && forall k :: 0 <= k < i ==> drop(s[k])
  {
    i := 0;
    if s != "" && drop(s[0]) {
      var rest := TrimLeftCut(drop, s[1..]);
      i := rest + 1;
      forall k | 1 <= k < i
        ensures drop(s[k])
      {
        assert s[k] == s[1..][k - 1];
      }
    }
  }

  lemma {:induction false} TrimRightCut(drop: char -> bool, s: string)
    ensures forall k :: |TrimRight(drop, s)| <= k < |s| ==> drop(s[k])
  {
    if s != "" && drop(s[|s| - 1]) {
      TrimRightCut(drop, s[..|s| - 1]);
      assert forall k :: 0 <= k < |s| - 1 ==> s[..|s| - 1][k] == s[k];
    }
  }

  /** Trimming gives the one text that is left. */
  lemma TrimIff(drop: char -> bool, s: string, t: string)
    ensures Trim(drop, s) == t <==> TrimmedFrom(drop, s, t)
  {
    var i := TrimLeftCut(drop, s);
    TrimRightCut(drop, s[i..]);
    var r := Trim(drop, s);
    var j := i + |r|;
    assert r == s[i..j];
    assert forall k :: j <= k < |s| ==> s[k] == s[i..][k - i];
    assert Cut(drop, s, i, j);
    if TrimmedFrom(drop, s, t) {
      var i', j' :| 0 <= i' <= j' <= |s| && t == s[i'..j'] && Cut(drop, s, i', j');
      if i < j {
        assert i' < j';
      }
    }
  }
}
