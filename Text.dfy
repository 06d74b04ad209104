/**
 * The string primitives the classifier relies on: ASCII lower-casing
 * (`str.lower()` restricted to A-Z), substring containment (`kw in text`)
 * and Python's `str.count`, which counts non-overlapping occurrences
 * scanning from left to right.
 */
module Text {

  /** Maps 'A'..'Z' to 'a'..'z' and leaves every other character alone. */
  function LowerChar(c: char): char
  {
    if 'A' <= c <= 'Z' then (c as int + 32) as char else c
  }

  predicate IsUpper(c: char)
  {
    'A' <= c <= 'Z'
  }

  /** `s.lower()` on ASCII letters. */
  function Lower(s: string): (r: string)
    ensures |r| == |s|
    ensures forall i :: 0 <= i < |s| ==> r[i] == LowerChar(s[i])
    ensures forall i :: 0 <= i < |r| ==> !IsUpper(r[i])
  {
    seq(|s|, i requires 0 <= i < |s| => LowerChar(s[i]))
  }

  /** Lower-casing twice is lower-casing once. */
  lemma LowerIdempotent(s: string)
    ensures Lower(Lower(s)) == Lower(s)
  {
    var once := Lower(s);
    assert forall i :: 0 <= i < |once| ==> Lower(once)[i] == once[i];
  }

  /** `kw` starts at position `i` of `text`. */
  predicate OccursAt(text: string, kw: string, i: int)
  {
    0 <= i && i + |kw| <= |text| && text[i..i + |kw|] == kw
  }

  /** Python's `kw in text`. */
  predicate Contains(text: string, kw: string)
  {
    exists i | 0 <= i <= |text| - |kw| :: OccursAt(text, kw, i)
  }

  /**
   * The occurrences `str.count` finds in `text[i..]`: when `kw` starts at
   * `i` it is counted and the scan resumes after it, otherwise the scan
   * moves one character on.
   */
  function CountFrom(text: string, kw: string, i: nat): nat
    requires |kw| > 0
    requires i <= |text|
    decreases |text| - i
  {
    if i + |kw| > |text| then 0
    else if text[i..i + |kw|] == kw then 1 + CountFrom(text, kw, i + |kw|)
    else CountFrom(text, kw, i + 1)
  }

  /** `text.count(kw)`; Python counts the empty string once per position, ends included. */
  function Count(text: string, kw: string): nat
  {
    if kw == [] then |text| + 1 else CountFrom(text, kw, 0)
  }

  lemma {:induction false} CountFromPositiveIff(text: string, kw: string, i: nat)
    requires |kw| > 0
    requires i <= |text|
    ensures CountFrom(text, kw, i) > 0 <==> exists j | i <= j <= |text| - |kw| :: OccursAt(text, kw, j)
    decreases |text| - i
  {
    if i + |kw| > |text| {
    } else if text[i..i + |kw|] == kw {
      assert OccursAt(text, kw, i);
    } else {
      CountFromPositiveIff(text, kw, i + 1);
      assert !OccursAt(text, kw, i);
      assert forall j | i <= j <= |text| - |kw| && OccursAt(text, kw, j) :: i + 1 <= j;
    }
  }

  /**
   * `text.count(kw)` is positive exactly when `kw in text`; so the source's
   * guard `if keyword in transcript_lower` never changes a score.
   */
  lemma CountPositiveIffContains(text: string, kw: string)
    ensures Count(text, kw) > 0 <==> Contains(text, kw)
  {
    if kw == [] {
      assert OccursAt(text, kw, 0);
    } else {
      CountFromPositiveIff(text, kw, 0);
    }
  }

  /** Non-overlapping occurrences each take `|kw|` characters. */
  lemma {:induction false} CountFromBound(text: string, kw: string, i: nat)
    requires |kw| > 0
    requires i <= |text|
    ensures CountFrom(text, kw, i) * |kw| <= |text| - i
    decreases |text| - i
  {
    if i + |kw| > |text| {
    } else if text[i..i + |kw|] == kw {
      CountFromBound(text, kw, i + |kw|);
    } else {
      CountFromBound(text, kw, i + 1);
    }
  }

  function DigitChar(d: nat): char
    requires d < 10
  {
    "0123456789"[d]
  }

  function NatToString(n: nat): string
    decreases n
  {
    if n < 10 then [DigitChar(n)] else NatToString(n / 10) + [DigitChar(n % 10)]
  }

  /** Python's `f"{n}"` for an `int`. */
  function IntToString(n: int): string
  {
    if n < 0 then "-" + NatToString(-n) else NatToString(n)
  }
}
