/**
  The string primitives the inventory relies on: `trim`, `toLowerCase`, `includes`
  and the name comparison used when sorting by name. Strings are sequences of
  characters; lower-casing covers ASCII letters and trimming a fixed set of
  blank characters.
*/
module Text {

  /**
    The model's blank set, the characters `Trim` removes. JavaScript's `trim` also
    removes U+1680, U+2000 to U+200A, U+2028, U+2029, U+202F, U+205F and U+3000.
  */
  predicate IsSpace(c: char) {
    c == ' ' || c == '\t' || c == '\n' || c == '\r' || c == '\U{B}' || c == '\U{C}'
    || c == '\U{A0}' || c == '\U{FEFF}'
  }

  /** Lower-cases one character (ASCII letters only; all others are left alone). */
  function LowerChar(c: char): char {
    if 'A' <= c <= 'Z' then (c as int + 32) as char else c
  }

  /** `toLowerCase`: lower-cases every character and nothing else. */
  function Lower(s: string): (r: string)
    ensures |r| == |s|
  {
    seq(|s|, k requires 0 <= k < |s| => LowerChar(s[k]))
  }

  /**
    `s.length`: the number of UTF-16 code units, one per character of the
    Basic Multilingual Plane and two (a surrogate pair) per character above it.
  */
  function Utf16Length(s: string): (n: nat)
    ensures |s| <= n <= 2 * |s|
  {
    if s == [] then 0 else (if s[0] as int >= 0x10000 then 2 else 1) + Utf16Length(s[1..])
  }

  /** For text of the Basic Multilingual Plane the UTF-16 length is the number of characters. */
  lemma {:induction false} Utf16LengthOfBmp(s: string)
    requires forall k :: 0 <= k < |s| ==> (s[k] as int) < 0x10000
    ensures Utf16Length(s) == |s|
  {
    if s != [] {
      Utf16LengthOfBmp(s[1..]);
    }
  }

  /** The number of blank characters at the start of `s`. */
  function LeadingBlanks(s: string): (n: nat)
    ensures n <= |s|
    ensures forall k :: 0 <= k < n ==> IsSpace(s[k])
    ensures n < |s| ==> !IsSpace(s[n])
  {
    if s != [] && IsSpace(s[0]) then 1 + LeadingBlanks(s[1..]) else 0
  }

  /** The number of blank characters at the end of `s`. */
  function TrailingBlanks(s: string): (n: nat)
    ensures n <= |s|
    ensures forall k :: |s| - n <= k < |s| ==> IsSpace(s[k])
    ensures n < |s| ==> !IsSpace(s[|s| - 1 - n])
  {
    if s != [] && IsSpace(s[|s| - 1]) then 1 + TrailingBlanks(s[..|s| - 1]) else 0
  }

  /** `r` is the slice of `s` that starts at `i`, and everything of `s` around it is blank. */
  ghost predicate SliceBetweenBlanks(s: string, r: string, i: int) {
    0 <= i <= |s| - |r| && r == s[i..i + |r|]
    && (forall k :: 0 <= k < i ==> IsSpace(s[k]))
    && (forall k :: i + |r| <= k < |s| ==> IsSpace(s[k]))
  }

  /** `trim`: removes the blank characters at both ends. */
  function Trim(s: string): (r: string)
    ensures |r| <= |s|
    ensures r != [] ==> !IsSpace(r[0]) && !IsSpace(r[|r| - 1])
  {
    var t := s[LeadingBlanks(s)..];
    t[..|t| - TrailingBlanks(t)]
  }

  /**
    What `trim` keeps is a slice of the input, and everything it drops around
    that slice is blank; with the contract of Trim this fixes the result.
  */
  lemma TrimIsSlice(s: string)
    ensures exists i :: SliceBetweenBlanks(s, Trim(s), i)
  {
    var i := LeadingBlanks(s);
    var t := s[i..];
    var r := t[..|t| - TrailingBlanks(t)];
    assert r == s[i..i + |r|];
    forall k | i + |r| <= k < |s| ensures IsSpace(s[k]) {
      assert s[k] == t[k - i];
    }
    assert Trim(s) == r;
    assert SliceBetweenBlanks(s, r, i);
  }

  /** Any blank-surrounded slice without blanks at its ends is the trim of its string. */
  lemma TrimUnique(s: string, r: string, i: int)
    requires SliceBetweenBlanks(s, r, i)
    requires r != [] ==> !IsSpace(r[0]) && !IsSpace(r[|r| - 1])
    ensures Trim(s) == r
  {
    TrimIsSlice(s);
    var t := Trim(s);
    var j :| SliceBetweenBlanks(s, t, j);
    assert r == [] ==> forall k :: 0 <= k < |s| ==> IsSpace(s[k]);
    assert t == [] ==> forall k :: 0 <= k < |s| ==> IsSpace(s[k]);
    assert r != [] ==> r[0] == s[i] && r[|r| - 1] == s[i + |r| - 1];
    assert t != [] ==> t[0] == s[j] && t[|t| - 1] == s[j + |t| - 1];
    if r != [] {
      assert t != [];
      assert i == j;
      assert i + |r| == j + |t|;
    } else {
      assert t == [];
    }
  }

  /** Blanks added around a string do not change its trim. */
  lemma TrimPadded(pre: string, x: string, post: string)
    requires forall k :: 0 <= k < |pre| ==> IsSpace(pre[k])
    requires forall k :: 0 <= k < |post| ==> IsSpace(post[k])
    ensures Trim(pre + x + post) == Trim(x)
  {
    TrimIsSlice(x);
    var r := Trim(x);
    var i :| SliceBetweenBlanks(x, r, i);
    var s := pre + x + post;
    assert s[|pre| + i..|pre| + i + |r|] == x[i..i + |r|];
    forall k | 0 <= k < |pre| + i ensures IsSpace(s[k]) {
      if k >= |pre| { assert s[k] == x[k - |pre|]; }
    }
    forall k | |pre| + i + |r| <= k < |s| ensures IsSpace(s[k]) {
      if k < |pre| + |x| { assert s[k] == x[k - |pre|]; }
    }
    TrimUnique(s, r, |pre| + i);
  }

  /** Lower-casing a slice is slicing the lower-cased string. */
  lemma LowerSlice(s: string, i: nat, j: nat)
    requires i <= j <= |s|
    ensures Lower(s[i..j]) == Lower(s)[i..j]
  {
    assert forall k :: 0 <= k < j - i ==> Lower(s[i..j])[k] == LowerChar(s[i + k]);
  }

  /** Lower-casing keeps blanks blank and non-blanks non-blank. */
  lemma LowerKeepsBlanks(s: string)
    ensures forall k :: 0 <= k < |s| ==> (IsSpace(Lower(s)[k]) <==> IsSpace(s[k]))
  {
  }

  /** Trimming and lower-casing commute. */
  lemma TrimLowerCommute(s: string)
    ensures Lower(Trim(s)) == Trim(Lower(s))
  {
    TrimIsSlice(s);
    var r := Trim(s);
    var i :| SliceBetweenBlanks(s, r, i);
    var l := Lower(s);
    var lr := Lower(r);
    LowerSlice(s, i, i + |r|);
    LowerKeepsBlanks(s);
    assert SliceBetweenBlanks(l, lr, i);
    TrimUnique(l, lr, i);
  }

  /** A string with no blank at either end is its own trim. */
  lemma TrimNoop(s: string)
    requires s != [] ==> !IsSpace(s[0]) && !IsSpace(s[|s| - 1])
    ensures Trim(s) == s
  {
  }

  /** Trimming twice is trimming once. */
  lemma TrimIdempotent(s: string)
    ensures Trim(Trim(s)) == Trim(s)
  {
    TrimNoop(Trim(s));
  }

  /** Lower-casing twice is lower-casing once. */
  lemma LowerIdempotent(s: string)
    ensures Lower(Lower(s)) == Lower(s)
  {
    assert forall i :: 0 <= i < |s| ==> Lower(Lower(s))[i] == Lower(s)[i];
  }

  /** Lower-casing distributes over concatenation. */
  lemma LowerAppend(a: string, b: string)
    ensures Lower(a + b) == Lower(a) + Lower(b)
  {
    assert forall i :: 0 <= i < |a + b| ==> Lower(a + b)[i] == (Lower(a) + Lower(b))[i];
  }

  /** The normalised name used to detect duplicates: trimmed, then lower-cased. */
  function Normalize(s: string): (r: string)
    ensures |r| <= |s|
    ensures r != [] ==> !IsSpace(r[0]) && !IsSpace(r[|r| - 1])
  {
    TrimLowerCommute(s);
    Lower(Trim(s))
  }

  /** A string with no blank at either end normalises to its lower-cased self. */
  lemma NormalizeUntrimmed(s: string)
    requires s != [] ==> !IsSpace(s[0]) && !IsSpace(s[|s| - 1])
    ensures Normalize(s) == Lower(s)
  {
    TrimNoop(s);
  }

  /** Two strings without blanks at their ends whose first letters differ up to case normalise differently. */
  lemma NormalizeDiffersByInitial(a: string, b: string)
    requires a != [] && !IsSpace(a[0]) && !IsSpace(a[|a| - 1])
    requires b != [] && !IsSpace(b[0]) && !IsSpace(b[|b| - 1])
    requires LowerChar(a[0]) != LowerChar(b[0])
    ensures Normalize(a) != Normalize(b)
  {
    NormalizeUntrimmed(a);
    NormalizeUntrimmed(b);
    assert Normalize(a)[0] == LowerChar(a[0]) && Normalize(b)[0] == LowerChar(b[0]);
  }

  /** Names that agree up to case normalise alike. */
  lemma NormalizeIgnoresCase(a: string, b: string)
    requires Lower(a) == Lower(b)
    ensures Normalize(a) == Normalize(b)
  {
    TrimLowerCommute(a);
    TrimLowerCommute(b);
  }

  /** Blanks around a name do not change its normal form. */
  lemma NormalizeIgnoresPadding(pre: string, x: string, post: string)
    requires forall k :: 0 <= k < |pre| ==> IsSpace(pre[k])
    requires forall k :: 0 <= k < |post| ==> IsSpace(post[k])
    ensures Normalize(pre + x + post) == Normalize(x)
  {
    TrimPadded(pre, x, post);
  }

  /** A normalised name is already normal. */
  lemma NormalizeIdempotent(s: string)
    ensures Normalize(Normalize(s)) == Normalize(s)
  {
    var l := Lower(Trim(s));
    TrimNoop(l);
    LowerIdempotent(Trim(s));
  }

  /** `prefix` is a prefix of `s`: the first case of Contains. */
  predicate StartsWith(s: string, prefix: string) {
    |prefix| <= |s| && s[..|prefix|] == prefix
  }

  /** `part` occurs in `s` starting at position `i`. */
  ghost predicate OccursAt(s: string, part: string, i: int) {
    0 <= i <= |s| - |part| && s[i..i + |part|] == part
  }

  /** An occurrence in `s` past its first character is an occurrence in the rest of `s`, one place earlier. */
  lemma OccursShift(s: string, part: string, i: int)
    requires s != [] && !StartsWith(s, part)
    ensures OccursAt(s, part, i) <==> OccursAt(s[1..], part, i - 1)
  {
    if 0 < i <= |s| - |part| {
      var a, b := s[i..i + |part|], s[1..][i - 1..i - 1 + |part|];
      assert forall k :: 0 <= k < |a| ==> a[k] == b[k];
      assert a == b;
    }
  }

  /** `s.includes(part)`: `part` occurs in `s` at some position. */
  function Contains(s: string, part: string): (b: bool)
    ensures b <==> exists i :: OccursAt(s, part, i)
    decreases |s|
  {
    if StartsWith(s, part) then
      assert OccursAt(s, part, 0);
      true
    else if s == [] then
      assert forall i :: !OccursAt(s, part, i);
      false
    else
      var b := Contains(s[1..], part);
      assert b <==> exists i :: OccursAt(s, part, i) by {
        if b {
          var j :| OccursAt(s[1..], part, j);
          OccursShift(s, part, j + 1);
        } else {
          forall i ensures !OccursAt(s, part, i) {
            OccursShift(s, part, i);
          }
        }
      }
      b
  }

  /** Text that occurs in `b` occurs in any text that has `b` inside it. */
  lemma ContainsInside(a: string, b: string, c: string, part: string)
    requires Contains(b, part)
    ensures Contains(a + b + c, part)
  {
    var i :| OccursAt(b, part, i);
    assert (a + b + c)[|a| + i..|a| + i + |part|] == part;
    assert OccursAt(a + b + c, part, |a| + i);
  }

  /**
    The order used when sorting by name: lexicographic on characters,
    negative, zero or positive as in `localeCompare`.
  */
  function LexCompare(a: string, b: string): (r: int)
    ensures -1 <= r <= 1
  {
    if a == [] then (if b == [] then 0 else -1)
    else if b == [] then 1
    else if a[0] < b[0] then -1
    else if b[0] < a[0] then 1
    else LexCompare(a[1..], b[1..])
  }

  lemma {:induction false} LexCompareAntisymmetric(a: string, b: string)
    ensures LexCompare(a, b) == -LexCompare(b, a)
  {
    if a != [] && b != [] && a[0] == b[0] {
      LexCompareAntisymmetric(a[1..], b[1..]);
    }
  }

  lemma {:induction false} LexCompareZero(a: string, b: string)
    ensures LexCompare(a, b) == 0 <==> a == b
  {
    if a != [] && b != [] && a[0] == b[0] {
      LexCompareZero(a[1..], b[1..]);
      assert a == [a[0]] + a[1..] && b == [b[0]] + b[1..];
    }
  }

  lemma {:induction false} LexCompareTransitive(a: string, b: string, c: string)
    requires LexCompare(a, b) <= 0 && LexCompare(b, c) <= 0
    ensures LexCompare(a, c) <= 0
  {
    if a != [] && b != [] && c != [] && a[0] == b[0] && b[0] == c[0] {
      LexCompareTransitive(a[1..], b[1..], c[1..]);
    }
  }
}
