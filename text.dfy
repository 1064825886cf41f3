/** String operations the booking search relies on: upper-casing (`toUpperCase`)
    and substring containment (`includes`). Upper-casing is modelled on ASCII
    letters only. */
module Text {

  /** The upper-case form of one character: ASCII `a`..`z` map to `A`..`Z`,
      every other character is left as it is. */
  function UpperChar(c: char): (upper: char)
  {
    if 'a' <= c <= 'z' then (c as int - 32) as char else c
  }

  /** `s.toUpperCase()`: the same length, every character upper-cased in place.
      No lower-case ASCII letter is left, and every character that is not one
      is kept as it is. */
  function ToUpper(s: string): (r: string)
    ensures |r| == |s|
    ensures forall i :: 0 <= i < |s| ==> r[i] == UpperChar(s[i])
    ensures forall i :: 0 <= i < |r| ==> !('a' <= r[i] <= 'z')
    ensures forall i :: 0 <= i < |s| && !('a' <= s[i] <= 'z') ==> r[i] == s[i]
  {
    seq(|s|, k requires 0 <= k < |s| => UpperChar(s[k]))
  }

  /** Upper-casing an upper-cased string changes nothing. */
  lemma ToUpperIdempotent(s: string)
    ensures ToUpper(ToUpper(s)) == ToUpper(s)
  {
    var u := ToUpper(s);
    forall i | 0 <= i < |u|
      ensures ToUpper(u)[i] == u[i]
    {
      assert !('a' <= u[i] <= 'z');
    }
  }

  /** Upper-casing commutes with taking a slice. */
  lemma ToUpperSlice(s: string, i: nat, j: nat)
    requires i <= j <= |s|
    ensures ToUpper(s[i..j]) == ToUpper(s)[i..j]
  {
    var a, b := ToUpper(s[i..j]), ToUpper(s)[i..j];
    forall k | 0 <= k < j - i
      ensures a[k] == b[k]
    {
      assert s[i..j][k] == s[i + k];
    }
  }

  /** `needle` occurs in `hay` starting at offset `i`. */
  predicate OccursAt(needle: string, hay: string, i: nat)
  {
    i + |needle| <= |hay| && hay[i..i + |needle|] == needle
  }

  /** The reference meaning of containment: `needle` occurs at some offset of `hay`. */
  ghost predicate IsSubstring(needle: string, hay: string)
  {
    exists i: nat :: OccursAt(needle, hay, i)
  }

  /** An occurrence in the tail is an occurrence one offset further in the whole. */
  lemma OccursAtShift(needle: string, hay: string, i: nat)
    requires |hay| > 0
    ensures OccursAt(needle, hay[1..], i) <==> OccursAt(needle, hay, i + 1)
  {
    var n := |needle|;
    if i + 1 + n <= |hay| {
      var a, b := hay[1..][i..i + n], hay[i + 1..i + 1 + n];
      forall k | 0 <= k < n
        ensures a[k] == b[k]
      {
      }
      assert a == b;
    }
  }

  /** When the needle is not at offset 0, it occurs in `hay` exactly when it
      occurs in the tail of `hay`. */
  lemma SubstringOfTail(needle: string, hay: string)
    requires |needle| <= |hay| && hay[..|needle|] != needle
    ensures IsSubstring(needle, hay) <==> IsSubstring(needle, hay[1..])
  {
    var n := |needle|;
    if IsSubstring(needle, hay[1..]) {
      var i: nat :| OccursAt(needle, hay[1..], i);
      OccursAtShift(needle, hay, i);
    }
    if IsSubstring(needle, hay) {
      var i: nat :| OccursAt(needle, hay, i);
      assert i != 0 by { assert hay[0..n] == hay[..n]; }
      OccursAtShift(needle, hay, i - 1);
    }
  }

  /** `hay.includes(needle)`: tries each offset from the left, and holds exactly
      when the needle occurs somewhere in `hay`. */
  function Includes(hay: string, needle: string): (r: bool)
    ensures r <==> IsSubstring(needle, hay)
    decreases |hay|
  {
    if |hay| < |needle| then false
    else if hay[..|needle|] == needle then
      assert OccursAt(needle, hay, 0);
      true
    else
      SubstringOfTail(needle, hay);
      Includes(hay[1..], needle)
  }

  /** A substring stays a substring once both sides are upper-cased. */
  lemma UpperKeepsSubstring(needle: string, hay: string)
    requires IsSubstring(needle, hay)
    ensures IsSubstring(ToUpper(needle), ToUpper(hay))
  {
    var i: nat :| OccursAt(needle, hay, i);
    ToUpperSlice(hay, i, i + |needle|);
    assert OccursAt(ToUpper(needle), ToUpper(hay), i);
  }
}
