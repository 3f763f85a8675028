/** A minimal Option type, used where the Python code returns `None`. */
module Wrappers {
  datatype Option<+T> = None | Some(value: T)
}

/**
 The character classes the bot's regular expressions use, and the sequence
 operations (filtering, counting, subsequences) that its regex substitutions
 and generator-expression counts amount to.
 */
module Text {

  /** Python's `\s` for `str` patterns and the characters `str.strip()` removes:
      general category Zs, or bidirectional class WS, B or S. */
  predicate IsSpace(c: char) {
    var n := c as int;
    (0x09 <= n <= 0x0D) || (0x1C <= n <= 0x20) || n == 0x85 || n == 0xA0 || n == 0x1680
    || (0x2000 <= n <= 0x200A) || n == 0x2028 || n == 0x2029 || n == 0x202F
    || n == 0x205F || n == 0x3000
  }

  predicate NotSpace(c: char) {
    !IsSpace(c)
  }

  /** The Khmer block of the Unicode Standard, U+1780..U+17FF. */
  predicate InKhmer(c: char) {
    0x1780 <= c as int <= 0x17FF
  }

  /** The CJK Unified Ideographs block of the Unicode Standard, U+4E00..U+9FFF. */
  predicate InCjk(c: char) {
    0x4E00 <= c as int <= 0x9FFF
  }

  /** The characters of `s` that `keep` accepts, in order: what
      `re.sub('[^...]', '', s)` leaves for the class `keep` describes. */
  function Filter(keep: char -> bool, s: string): (r: string)
    ensures |r| <= |s|
    ensures forall c :: c in r <==> c in s && keep(c)
  {
    if s == [] then []
    else if keep(s[0]) then [s[0]] + Filter(keep, s[1..])
    else Filter(keep, s[1..])
  }

  /** The number of characters of `s` that satisfy `p`: `sum(1 for ch in s if p(ch))`. */
  function Count(p: char -> bool, s: string): (n: nat)
    ensures n <= |s|
    ensures n == 0 <==> forall i :: 0 <= i < |s| ==> !p(s[i])
  {
    if s == [] then 0
    else (if p(s[0]) then 1 else 0) + Count(p, s[1..])
  }

  /** `a` is obtained from `b` by deleting characters. */
  predicate IsSubsequence(a: string, b: string)
    decreases |b|
  {
    if a == [] then true
    else if b == [] then false
    else if a[0] == b[0] then IsSubsequence(a[1..], b[1..])
    else IsSubsequence(a, b[1..])
  }

  lemma {:induction false} SubsequenceLength(a: string, b: string)
    requires IsSubsequence(a, b)
    ensures |a| <= |b|
    decreases |b|
  {
    if a != [] {
      if a[0] == b[0] {
        SubsequenceLength(a[1..], b[1..]);
      } else {
        SubsequenceLength(a, b[1..]);
      }
    }
  }

  /** Deleting characters is what a filter does. */
  lemma {:induction false} FilterIsSubsequence(keep: char -> bool, s: string)
    ensures IsSubsequence(Filter(keep, s), s)
  {
    if s != [] {
      FilterIsSubsequence(keep, s[1..]);
      var r := Filter(keep, s);
      if keep(s[0]) {
        assert r[0] == s[0] && r[1..] == Filter(keep, s[1..]);
      } else if r != [] {
        assert r[0] in r;
        assert r[0] != s[0];
      }
    }
  }

  /** A filter keeps as many characters as it accepts. */
  lemma {:induction false} FilterLength(keep: char -> bool, s: string)
    ensures |Filter(keep, s)| == Count(keep, s)
  {
    if s != [] {
      FilterLength(keep, s[1..]);
    }
  }

  /** Filtering distributes over concatenation. */
  lemma {:induction false} FilterConcat(keep: char -> bool, a: string, b: string)
    ensures Filter(keep, a + b) == Filter(keep, a) + Filter(keep, b)
  {
    if a == [] {
      assert a + b == b;
    } else {
      assert (a + b)[0] == a[0] && (a + b)[1..] == a[1..] + b;
      FilterConcat(keep, a[1..], b);
    }
  }

  /** Counting a class that the filter keeps gives the same count before and after filtering. */
  lemma {:induction false} CountFiltered(keep: char -> bool, p: char -> bool, s: string)
    requires forall c :: p(c) ==> keep(c)
    ensures Count(p, Filter(keep, s)) == Count(p, s)
  {
    if s != [] {
      CountFiltered(keep, p, s[1..]);
      if keep(s[0]) {
        assert ([s[0]] + Filter(keep, s[1..]))[1..] == Filter(keep, s[1..]);
      }
    }
  }

  /** A class every character satisfies counts the whole text. */
  lemma {:induction false} AllCounted(p: char -> bool, s: string)
    requires forall i :: 0 <= i < |s| ==> p(s[i])
    ensures Count(p, s) == |s|
  {
    if s != [] {
      AllCounted(p, s[1..]);
    }
  }
}
