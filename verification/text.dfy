/**
 Case folding and substring matching on strings, the two text primitives the note
 store matches with: Python's `str.lower()` and the `pattern in text` operator.
 */
module Text {

  /** Lower-case form of one character. Folds ASCII `A`-`Z`, the Cyrillic capitals
      U+0400-U+042F and `Ґ` (U+0490); every other character maps to itself. */
  function LowerChar(c: char): char {
    if 'A' <= c <= 'Z' then (c as int + 32) as char
    else if 'А' <= c <= 'Я' then (c as int + 32) as char
    else if 'Ѐ' <= c <= 'Џ' then (c as int + 80) as char
    else if c == 'Ґ' then 'ґ'
    else c
  }

  /** `s.lower()`: folds every character of `s` and keeps the length. */
  function Lower(s: string): string {
    seq(|s|, i requires 0 <= i < |s| => LowerChar(s[i]))
  }

  /** Folding an already folded character changes nothing. */
  lemma LowerCharIdempotent(c: char)
    ensures LowerChar(LowerChar(c)) == LowerChar(c)
  {
  }

  /** Folding is idempotent, so matching a folded pattern is the same as matching the raw one. */
  lemma LowerIdempotent(s: string)
    ensures Lower(Lower(s)) == Lower(s)
  {
    forall i | 0 <= i < |s|
      ensures Lower(Lower(s))[i] == Lower(s)[i]
    {
      LowerCharIdempotent(s[i]);
    }
  }

  /** `p` occurs in `s` starting at position `i`. */
  ghost predicate OccursAt(p: string, s: string, i: int) {
    0 <= i && i + |p| <= |s| && s[i..i + |p|] == p
  }

  /** Reference definition of "`p` is a substring of `s`": some position where it occurs. */
  ghost predicate IsSubstring(p: string, s: string) {
    exists i :: OccursAt(p, s, i)
  }

  /** A reference scan over the start positions of `s` that gives the same answer as
      Python's `p in s` on strings (CPython searches differently; only the answer is modelled). */
  predicate Contains(p: string, s: string)
    decreases |s|
  {
    if |p| > |s| then false
    else if s[..|p|] == p then true
    else Contains(p, s[1..])
  }

  /** The scan in `Contains` finds `p` exactly when `p` occurs somewhere in `s`. */
  lemma {:induction false} ContainsIffSubstring(p: string, s: string)
    ensures Contains(p, s) <==> IsSubstring(p, s)
    decreases |s|
  {
    if |p| > |s| {
      assert forall i :: !OccursAt(p, s, i);
    } else if s[..|p|] == p {
      assert OccursAt(p, s, 0);
    } else {
      var t := s[1..];
      ContainsIffSubstring(p, t);
      if IsSubstring(p, t) {
        var i :| OccursAt(p, t, i);
        assert s[i + 1..i + 1 + |p|] == t[i..i + |p|];
        assert OccursAt(p, s, i + 1);
      }
      if IsSubstring(p, s) {
        var i :| OccursAt(p, s, i);
        assert i != 0;
        assert t[i - 1..i - 1 + |p|] == s[i..i + |p|];
        assert OccursAt(p, t, i - 1);
      }
    }
  }

  /** A pattern holding a character that `s` lacks is not found in `s`. */
  lemma MissingCharNotContained(p: string, s: string, c: char)
    requires c in p && c !in s
    ensures !Contains(p, s)
  {
    var k :| 0 <= k < |p| && p[k] == c;
    forall i | 0 <= i
      ensures !OccursAt(p, s, i)
    {
      if i + |p| <= |s| {
        assert s[i..i + |p|][k] == s[i + k];
        assert s[i + k] in s;
      }
    }
    ContainsIffSubstring(p, s);
  }

  /** A lower-case ASCII letter absent from `s` in both cases is absent from `Lower(s)`. */
  lemma LowerLacksLetter(s: string, d: char)
    requires 'a' <= d <= 'z'
    requires d !in s && (d as int - 32) as char !in s
    ensures d !in Lower(s)
  {
    forall i | 0 <= i < |s|
      ensures Lower(s)[i] != d
    {
      assert s[i] in s;
    }
  }

  /** The empty pattern is found in every string, the empty one included. */
  lemma EmptyContainedEverywhere(s: string)
    ensures Contains([], s)
  {
    assert s[..0] == [];
  }
}
