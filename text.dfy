/** String operations the article filter is built from: JavaScript's
    `String.prototype.toLowerCase` (restricted to ASCII letters) and
    `String.prototype.includes` (substring containment). */
module Text {

  /** Lower-cases one character; only the ASCII letters 'A'..'Z' change. */
  function LowerChar(c: char): (r: char)
    ensures 'A' <= c <= 'Z' ==> 'a' <= r <= 'z' && r as int == c as int + 32
    ensures !('A' <= c <= 'Z') ==> r == c
    ensures !('A' <= r <= 'Z')
  {
    if 'A' <= c <= 'Z' then (c as int + 32) as char else c
  }

  /** Upper-cases one character; only the ASCII letters 'a'..'z' change. */
  function UpperChar(c: char): (r: char)
    ensures 'a' <= c <= 'z' ==> 'A' <= r <= 'Z' && r as int == c as int - 32
    ensures !('a' <= c <= 'z') ==> r == c
    ensures LowerChar(r) == LowerChar(c)
  {
    if 'a' <= c <= 'z' then (c as int - 32) as char else c
  }

  /** `s.toLowerCase()`: lower-cases every character, keeping the length. */
  function ToLower(s: string): (r: string)
    ensures |r| == |s|
    ensures forall i :: 0 <= i < |s| ==> r[i] == LowerChar(s[i])
  {
    seq(|s|, i requires 0 <= i < |s| => LowerChar(s[i]))
  }

  /** `s.toUpperCase()`, used only to state case-insensitivity. */
  function ToUpper(s: string): (r: string)
    ensures |r| == |s|
    ensures forall i :: 0 <= i < |s| ==> r[i] == UpperChar(s[i])
  {
    seq(|s|, i requires 0 <= i < |s| => UpperChar(s[i]))
  }

  /** Lower-casing a string twice is the same as once. */
  lemma ToLowerIdempotent(s: string)
    ensures ToLower(ToLower(s)) == ToLower(s)
  {
    assert forall i :: 0 <= i < |s| ==> ToLower(ToLower(s))[i] == ToLower(s)[i];
  }

  /** A string and its upper-case form have the same lower-case form. */
  lemma ToLowerOfUpper(s: string)
    ensures ToLower(ToUpper(s)) == ToLower(s)
  {
    assert forall i :: 0 <= i < |s| ==> ToLower(ToUpper(s))[i] == ToLower(s)[i];
  }

  /** `hay` begins with `needle`. */
  predicate StartsWith(hay: string, needle: string) {
    |needle| <= |hay| && hay[..|needle|] == needle
  }

  /** `hay.includes(needle)`: `needle` occurs in `hay` starting at some
      position, tried from the left. */
  predicate Contains(hay: string, needle: string)
    ensures Contains(hay, needle) ==> |needle| <= |hay|
    decreases |hay|
  {
    StartsWith(hay, needle) || (|hay| > 0 && Contains(hay[1..], needle))
  }

  /** Reference definition of substring containment by position. */
  ghost predicate OccursAt(hay: string, needle: string, i: int) {
    0 <= i && i + |needle| <= |hay| && hay[i..i + |needle|] == needle
  }

  /** `Contains` holds exactly when `needle` occurs at some position. */
  lemma {:induction false} ContainsIff(hay: string, needle: string)
    ensures Contains(hay, needle) <==> exists i :: OccursAt(hay, needle, i)
    decreases |hay|
  {
    if Contains(hay, needle) {
      if StartsWith(hay, needle) {
        assert OccursAt(hay, needle, 0);
      } else {
        ContainsIff(hay[1..], needle);
        var i :| OccursAt(hay[1..], needle, i);
        assert hay[1..][i..i + |needle|] == hay[i + 1..i + 1 + |needle|];
        assert OccursAt(hay, needle, i + 1);
      }
    }
    if exists i :: OccursAt(hay, needle, i) {
      var i :| OccursAt(hay, needle, i);
      if i == 0 {
        assert StartsWith(hay, needle);
      } else {
        assert hay[1..][i - 1..i - 1 + |needle|] == hay[i..i + |needle|];
        assert OccursAt(hay[1..], needle, i - 1);
        ContainsIff(hay[1..], needle);
      }
    }
  }

  /** An occurrence at a known position is a containment. */
  lemma OccursContains(hay: string, needle: string, i: int)
    requires OccursAt(hay, needle, i)
    ensures Contains(hay, needle)
  {
    ContainsIff(hay, needle);
  }

  /** Every string contains the empty string (so an empty search matches). */
  lemma ContainsEmpty(hay: string)
    ensures Contains(hay, "")
  {
    assert StartsWith(hay, "");
  }

  /** Containment is transitive: a piece of a piece of `hay` is a piece of `hay`. */
  lemma ContainsTransitive(hay: string, mid: string, needle: string)
    requires Contains(hay, mid) && Contains(mid, needle)
    ensures Contains(hay, needle)
  {
    ContainsIff(hay, mid);
    ContainsIff(mid, needle);
    var i :| OccursAt(hay, mid, i);
    var j :| OccursAt(mid, needle, j);
    forall t | 0 <= t < |needle|
      ensures hay[i + j + t] == needle[t]
    {
      assert hay[i..i + |mid|][j + t] == mid[j + t];
      assert mid[j..j + |needle|][t] == needle[t];
    }
    assert OccursAt(hay, needle, i + j);
    ContainsIff(hay, needle);
  }

  /** A string that contains `needle` contains every character of `needle`. */
  lemma CharOccurs(hay: string, needle: string, c: char)
    requires Contains(hay, needle) && Contains(needle, [c])
    ensures exists k :: 0 <= k < |hay| && hay[k] == c
  {
    ContainsTransitive(hay, needle, [c]);
    ContainsIff(hay, [c]);
    var k :| OccursAt(hay, [c], k);
    assert hay[k..k + 1][0] == c;
  }

  /** A string that contains `needle` contains every adjacent pair of
      characters of `needle`. */
  lemma PairOccurs(hay: string, needle: string, a: char, b: char)
    requires Contains(hay, needle) && Contains(needle, [a, b])
    ensures exists k :: 0 <= k < |hay| - 1 && hay[k] == a && hay[k + 1] == b
  {
    ContainsTransitive(hay, needle, [a, b]);
    ContainsIff(hay, [a, b]);
    var k :| OccursAt(hay, [a, b], k);
    assert hay[k..k + 2][0] == a && hay[k..k + 2][1] == b;
  }

  /** No character of `s`, once lower-cased, is in `cs`. */
  predicate NoLowerChars(s: string, cs: set<char>) {
    forall k :: 0 <= k < |s| ==> LowerChar(s[k]) !in cs
  }

  /** No two adjacent characters of `s`, once lower-cased, form a pair in `ps`. */
  predicate NoLowerPairs(s: string, ps: set<(char, char)>) {
    forall k :: 0 <= k < |s| - 1 ==> (LowerChar(s[k]), LowerChar(s[k + 1])) !in ps
  }

  /** Lower-cased, `s` has no character in `cs` and no adjacent pair in `ps`:
      a certificate that `s` cannot contain a term having one of them. */
  predicate LacksLower(s: string, cs: set<char>, ps: set<(char, char)>) {
    NoLowerChars(s, cs) && NoLowerPairs(s, ps)
  }

  /** A concatenation lacks what both parts lack, provided the pair across
      the seam is not one of `ps`. */
  lemma LacksLowerAppend(s: string, t: string, cs: set<char>, ps: set<(char, char)>)
    requires LacksLower(s, cs, ps) && LacksLower(t, cs, ps)
    requires |s| > 0 && |t| > 0 ==> (LowerChar(s[|s| - 1]), LowerChar(t[0])) !in ps
    ensures LacksLower(s + t, cs, ps)
  {
    forall k | 0 <= k < |s + t|
      ensures LowerChar((s + t)[k]) !in cs
    {
      if k < |s| {
        assert (s + t)[k] == s[k];
      } else {
        assert (s + t)[k] == t[k - |s|];
      }
    }
    forall k | 0 <= k < |s + t| - 1
      ensures (LowerChar((s + t)[k]), LowerChar((s + t)[k + 1])) !in ps
    {
      if k + 1 < |s| {
        assert (s + t)[k] == s[k] && (s + t)[k + 1] == s[k + 1];
      } else if k >= |s| {
        assert (s + t)[k] == t[k - |s|] && (s + t)[k + 1] == t[k + 1 - |s|];
      }
    }
  }

  /** If `needle` has a character `c` that no character of `hay` lower-cases
      to, the lower-cased `hay` does not contain `needle`. */
  lemma NotContainsLowerChar(hay: string, needle: string, cs: set<char>, c: char)
    requires Contains(needle, [c])
    requires NoLowerChars(hay, cs) && c in cs
    ensures !Contains(ToLower(hay), needle)
  {
    if Contains(ToLower(hay), needle) {
      CharOccurs(ToLower(hay), needle, c);
    }
  }

  /** If `needle` has the adjacent pair `a`,`b` and the lower-cased `hay`
      never does, the lower-cased `hay` does not contain `needle`. */
  lemma NotContainsLowerPair(hay: string, needle: string, ps: set<(char, char)>, a: char, b: char)
    requires Contains(needle, [a, b])
    requires NoLowerPairs(hay, ps) && (a, b) in ps
    ensures !Contains(ToLower(hay), needle)
  {
    if Contains(ToLower(hay), needle) {
      PairOccurs(ToLower(hay), needle, a, b);
    }
  }
}
