/** Searches over byte strings, as the standard algorithms of the program do them.  A byte is a
    `char`; nothing here depends on how many there are. */
module Text {

  /** The first position of `c`, or the length. */
  function Find(s: string, c: char): (i: nat)
    ensures i <= |s| && (i < |s| ==> s[i] == c)
    ensures forall j :: 0 <= j < i ==> s[j] != c
  {
    if s == [] || s[0] == c then 0 else 1 + Find(s[1..], c)
  }

  lemma FindIs(s: string, c: char, i: nat)
    requires i <= |s| && (i < |s| ==> s[i] == c)
    requires forall j :: 0 <= j < i ==> s[j] != c
    ensures Find(s, c) == i
  {
  }

  predicate CrlfAt(s: string, i: int) {
    0 <= i && i + 1 < |s| && s[i] == '\r' && s[i + 1] == '\n'
  }

  /** The first CR LF, or the length. */
  function FindCrlf(s: string): (i: nat)
    ensures i <= |s| && (i < |s| ==> CrlfAt(s, i))
    ensures forall j :: 0 <= j < i ==> !CrlfAt(s, j)
  {
    if s == [] || CrlfAt(s, 0) then 0
    else
      var i := 1 + FindCrlf(s[1..]);
      assert forall j :: 1 <= j ==> (CrlfAt(s, j) <==> CrlfAt(s[1..], j - 1));
      i
  }

  lemma FindCrlfIs(s: string, i: nat)
    requires i <= |s| && (i < |s| ==> CrlfAt(s, i))
    requires forall j :: 0 <= j < i ==> !CrlfAt(s, j)
    ensures FindCrlf(s) == i
  {
  }

  /** More bytes do not move a CR LF that is there. */
  lemma FindCrlfExtended(s: string, t: string)
    requires FindCrlf(s) < |s|
    ensures FindCrlf(s + t) == FindCrlf(s)
  {
    var i := FindCrlf(s);
    assert CrlfAt(s + t, i);
    forall j | 0 <= j < i
      ensures !CrlfAt(s + t, j)
    {
      assert !CrlfAt(s, j);
    }
    FindCrlfIs(s + t, i);
  }
}
