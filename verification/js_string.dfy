/** JavaScript strings measured the way `String.prototype.length` and the
    `maxLength` attribute measure them: in UTF-16 code units. A Dafny
    `char` is a Unicode scalar value; one above U+FFFF is written in UTF-16
    as a surrogate pair and so counts twice. */
module JsString {

  /** The first scalar value outside the Basic Multilingual Plane. */
  const FirstSupplementary := 0x1_0000

  /** Code units of one character. */
  function CodeUnits(c: char): (n: nat)
    ensures n == 1 || n == 2
    ensures n == 2 <==> c as int >= FirstSupplementary
  {
    if c as int >= FirstSupplementary then 2 else 1
  }

  /** `s.length` in JavaScript: between one and two code units per character. */
  function Utf16Length(s: string): (n: nat)
    ensures |s| <= n <= 2 * |s|
  {
    if s == [] then 0 else Utf16Length(s[..|s| - 1]) + CodeUnits(s[|s| - 1])
  }

  /** The length of a concatenation is the sum of the lengths. */
  lemma {:induction false} Utf16LengthAppend(a: string, b: string)
    ensures Utf16Length(a + b) == Utf16Length(a) + Utf16Length(b)
    decreases |b|
  {
    if b == [] {
      assert a + b == a;
    } else {
      var b' := b[..|b| - 1];
      assert (a + b)[..|a + b| - 1] == a + b';
      Utf16LengthAppend(a, b');
    }
  }

  /** A string of Basic Multilingual Plane characters has as many code units
      as characters, and only such a string does. */
  lemma {:induction false} Utf16LengthOfBmp(s: string)
    ensures Utf16Length(s) == |s| <==> forall i | 0 <= i < |s| :: s[i] as int < FirstSupplementary
  {
    if s != [] {
      var s' := s[..|s| - 1];
      Utf16LengthOfBmp(s');
      assert forall i | 0 <= i < |s'| :: s'[i] == s[i];
    }
  }
}
