/** Byte strings as the C library sees them: case folding, `strcmp` and `strcasecmp`. */
module Text {

  /** The lower-case form of an ASCII letter; every other character is unchanged. */
  function FoldChar(c: char): (r: char) {
    if 'A' <= c <= 'Z' then (c as int + 32) as char else c
  }

  function Fold(s: string): (r: string)
    ensures |r| == |s|
  {
    if s == "" then "" else [FoldChar(s[0])] + Fold(s[1..])
  }

  /** Attribute names, function names and reserved words are compared without case. */
  predicate SameName(a: string, b: string) {
    Fold(a) == Fold(b)
  }

  /** The sign of `strcmp(s, t)`. */
  function Compare(s: string, t: string): (r: int)
    ensures -1 <= r <= 1
  {
    if s == "" && t == "" then 0
    else if s == "" then -1
    else if t == "" then 1
    else if s[0] < t[0] then -1
    else if s[0] > t[0] then 1
    else Compare(s[1..], t[1..])
  }

  /** The sign of `strcasecmp(s, t)`. */
  function CompareFolded(s: string, t: string): (r: int)
    ensures -1 <= r <= 1
  {
    Compare(Fold(s), Fold(t))
  }

  lemma {:induction false} CompareZeroMeansEqual(s: string, t: string)
    ensures Compare(s, t) == 0 <==> s == t
  {
    if s != "" && t != "" && s[0] == t[0] {
      CompareZeroMeansEqual(s[1..], t[1..]);
      assert s == [s[0]] + s[1..] && t == [t[0]] + t[1..];
    }
  }

  lemma {:induction false} CompareFlips(s: string, t: string)
    ensures Compare(s, t) == -Compare(t, s)
  {
    if s != "" && t != "" && s[0] == t[0] {
      CompareFlips(s[1..], t[1..]);
    }
  }

  lemma {:induction false} CompareTransitive(s: string, t: string, u: string)
    requires Compare(s, t) < 0 && Compare(t, u) < 0
    ensures Compare(s, u) < 0
  {
    if s != "" && s[0] == t[0] == u[0] {
      CompareTransitive(s[1..], t[1..], u[1..]);
    }
  }
}
