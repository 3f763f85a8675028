/**
 The text normaliser `NLLBTranslator.clean_text` (bot.py:57-63): strip the
 ends, collapse every whitespace run to one space, then drop every character
 outside an allow-list. Python's `\w` is the parameter `word` throughout.
 */
module Cleaning {
  import opened Text

  /** `str.lstrip()`: `s` without its leading whitespace. */
  function TrimStart(s: string): (r: string)
    ensures |r| <= |s|
  {
    if s != [] && IsSpace(s[0]) then TrimStart(s[1..]) else s
  }

  /** `str.rstrip()`: `s` without its trailing whitespace. */
  function TrimEnd(s: string): (r: string)
    ensures |r| <= |s|
  {
    if s != [] && IsSpace(s[|s| - 1]) then TrimEnd(s[..|s| - 1]) else s
  }

  /** `TrimStart` removes the longest all-whitespace prefix: what is left is a
      suffix of the input that is empty or starts on a non-whitespace character,
      and everything before it is whitespace. */
  lemma {:induction false} TrimStartShape(s: string)
    ensures var r := TrimStart(s);
      && r == s[|s| - |r|..]
      && (r == [] || !IsSpace(r[0]))
      && forall i :: 0 <= i < |s| - |r| ==> IsSpace(s[i])
  {
    if s != [] && IsSpace(s[0]) {
      TrimStartShape(s[1..]);
      var r := TrimStart(s[1..]);
      assert s[1..][|s| - 1 - |r|..] == s[|s| - |r|..];
    }
  }

  /** `TrimEnd` removes the longest all-whitespace suffix. */
  lemma {:induction false} TrimEndShape(s: string)
    ensures var r := TrimEnd(s);
      && r == s[..|r|]
      && (r == [] || !IsSpace(r[|r| - 1]))
      && forall i :: |r| <= i < |s| ==> IsSpace(s[i])
  {
    if s != [] && IsSpace(s[|s| - 1]) {
      TrimEndShape(s[..|s| - 1]);
      var r := TrimEnd(s[..|s| - 1]);
      assert s[..|s| - 1][..|r|] == s[..|r|];
    }
  }

  /** Python's `str.strip()` with no argument. */
  function Strip(s: string): string {
    TrimEnd(TrimStart(s))
  }

  /** `re.sub(r'\s+', ' ', s)`: every maximal whitespace run becomes one plain
      space (each whitespace character followed by another is dropped, the last
      of a run is replaced). */
  function Collapse(s: string): (r: string)
    ensures |r| <= |s|
    ensures s != [] ==> r != [] && (IsSpace(r[0]) <==> IsSpace(s[0]))
    ensures forall i :: 0 <= i < |r| && IsSpace(r[i]) ==> r[i] == ' '
    ensures forall i :: 0 <= i < |r| - 1 ==> !(IsSpace(r[i]) && IsSpace(r[i + 1]))
  {
    if s == [] then []
    else if IsSpace(s[0]) && |s| > 1 && IsSpace(s[1]) then Collapse(s[1..])
    else if IsSpace(s[0]) then [' '] + Collapse(s[1..])
    else [s[0]] + Collapse(s[1..])
  }

  /** The punctuation `clean_text` keeps: `.,!?;:'"()-`. */
  predicate Punctuation(c: char) {
    c in ".,!?;:'\"()-"
  }

  /** The character class `[\w\sក-៿一-鿿.,!?;:'"()-]` of bot.py:62. */
  predicate CleanKeeps(word: char -> bool, c: char) {
    word(c) || IsSpace(c) || InKhmer(c) || InCjk(c) || Punctuation(c)
  }

  function CleanClass(word: char -> bool): char -> bool {
    c => CleanKeeps(word, c)
  }

  /** `clean_text`: the two substitutions of bot.py:60 and bot.py:62, in that order. */
  function Clean(word: char -> bool, text: string): string {
    Filter(CleanClass(word), Collapse(Strip(text)))
  }

  /** The text of `s` once its whitespace is disregarded. */
  function Visible(s: string): string {
    Filter(NotSpace, s)
  }

  /** Stripping the start drops whitespace only. */
  lemma {:induction false} TrimStartKeepsVisible(s: string)
    ensures Visible(TrimStart(s)) == Visible(s)
  {
    if s != [] && IsSpace(s[0]) {
      TrimStartKeepsVisible(s[1..]);
    }
  }

  /** Stripping the end drops whitespace only. */
  lemma {:induction false} TrimEndKeepsVisible(s: string)
    ensures Visible(TrimEnd(s)) == Visible(s)
  {
    if s != [] && IsSpace(s[|s| - 1]) {
      var init := s[..|s| - 1];
      TrimEndKeepsVisible(init);
      assert s == init + [s[|s| - 1]];
      FilterConcat(NotSpace, init, [s[|s| - 1]]);
    }
  }

  /** `strip()` leaves neither end on whitespace, is empty exactly for an
      all-whitespace input, drops whitespace only, and is idempotent. */
  lemma StripShape(s: string)
    ensures var r := Strip(s);
      && |r| <= |s|
      && (r == [] || (!IsSpace(r[0]) && !IsSpace(r[|r| - 1])))
      && (r == [] <==> forall i :: 0 <= i < |s| ==> IsSpace(s[i]))
      && Visible(r) == Visible(s)
      && Strip(r) == r
  {
    var t := TrimStart(s);
    var r := TrimEnd(t);
    TrimStartShape(s);
    TrimEndShape(t);
    TrimStartKeepsVisible(s);
    TrimEndKeepsVisible(t);
    if r != [] {
      assert r[0] == t[0];
    }
    assert t != [] ==> IsSpace(t[0]) || r != [];
  }

  /** Collapsing whitespace runs leaves the non-whitespace text as it was. */
  lemma {:induction false} CollapseKeepsVisible(s: string)
    ensures Visible(Collapse(s)) == Visible(s)
  {
    if s != [] {
      CollapseKeepsVisible(s[1..]);
      var rest := Collapse(s[1..]);
      assert ([' '] + rest)[1..] == rest;
      assert ([s[0]] + rest)[1..] == rest;
    }
  }

  /** A collapsed text ends on whitespace exactly when the input does. */
  lemma {:induction false} CollapseLast(s: string)
    requires s != []
    ensures Collapse(s) != [] && (IsSpace(Collapse(s)[|Collapse(s)| - 1]) <==> IsSpace(s[|s| - 1]))
  {
    if |s| > 1 {
      CollapseLast(s[1..]);
    }
  }

  /** A whitespace run of any length and kind collapses to one plain space. */
  lemma {:induction false} CollapseRun(s: string)
    requires s != [] && forall i :: 0 <= i < |s| ==> IsSpace(s[i])
    ensures Collapse(s) == [' ']
  {
    if |s| > 1 {
      CollapseRun(s[1..]);
    }
  }

  /** Collapsing works piece by piece wherever the cut does not split a
      whitespace run: each run is replaced in its own place. With `CollapseRun`
      and `Collapse([c]) == [c]` for non-whitespace `c`, this determines
      `Collapse` on every text. */
  lemma {:induction false} CollapseConcat(a: string, b: string)
    requires a == [] || b == [] || !IsSpace(a[|a| - 1]) || !IsSpace(b[0])
    ensures Collapse(a + b) == Collapse(a) + Collapse(b)
  {
    if a == [] {
      assert a + b == b;
    } else if |a| == 1 {
      CollapseSingle(a, b);
    } else {
      CollapseConcat(a[1..], b);
      CollapseCons(a, b);
    }
  }

  lemma CollapseSingle(a: string, b: string)
    requires |a| == 1 && (b == [] || !IsSpace(a[0]) || !IsSpace(b[0]))
    ensures Collapse(a + b) == Collapse(a) + Collapse(b)
  {
    var x := a[0];
    var head := if IsSpace(x) then [' '] else [x];
    assert a == [x];
    assert Collapse([x]) == head by { assert [x][1..] == []; }
    assert Collapse([x] + b) == head + Collapse(b) by {
      assert ([x] + b)[0] == x && ([x] + b)[1..] == b;
      if b != [] {
        assert ([x] + b)[1] == b[0];
      }
    }
  }

  lemma CollapseCons(a: string, b: string)
    requires |a| > 1 && Collapse(a[1..] + b) == Collapse(a[1..]) + Collapse(b)
    ensures Collapse(a + b) == Collapse(a) + Collapse(b)
  {
    var s := a + b;
    assert s[0] == a[0] && s[1] == a[1] && s[1..] == a[1..] + b;
    CollapseStep(a);
    CollapseStep(s);
    assert CollapseLead(s) == CollapseLead(a);
  }

  /** What `Collapse` puts in place of the first character of `s`. */
  function CollapseLead(s: string): string
    requires s != []
  {
    if IsSpace(s[0]) && |s| > 1 && IsSpace(s[1]) then []
    else if IsSpace(s[0]) then [' ']
    else [s[0]]
  }

  lemma CollapseStep(s: string)
    requires s != []
    ensures Collapse(s) == CollapseLead(s) + Collapse(s[1..])
  {
  }

  /** A single non-whitespace character is left as it is. */
  lemma CollapseVisibleChar(c: char)
    requires !IsSpace(c)
    ensures Collapse([c]) == [c]
  {
    assert [c][1..] == [];
  }

  /** A non-whitespace character occurs in the text without its whitespace
      exactly when it occurs in the text. */
  lemma VisibleMembership(s: string, c: char)
    requires !IsSpace(c)
    ensures c in Visible(s) <==> c in s
  {
  }

  /** A collapsed text has a space exactly when the input has whitespace. */
  lemma {:induction false} CollapseHasSpace(s: string)
    ensures ' ' in Collapse(s) <==> exists c :: c in s && IsSpace(c)
  {
    if s != [] {
      CollapseHasSpace(s[1..]);
      assert forall c :: c in s <==> c == s[0] || c in s[1..];
    }
  }

  /** Every character of `clean_text`'s result is allowed, and its only
      whitespace character is the plain space. */
  lemma CleanAllowed(word: char -> bool, text: string)
    ensures var r := Clean(word, text);
      forall i :: 0 <= i < |r| ==>
        r[i] == ' ' || (!IsSpace(r[i]) && (word(r[i]) || InKhmer(r[i]) || InCjk(r[i]) || Punctuation(r[i])))
  {
    var s := Collapse(Strip(text));
    var r := Clean(word, text);
    forall i | 0 <= i < |r|
      ensures r[i] == ' ' || (!IsSpace(r[i]) && (word(r[i]) || InKhmer(r[i]) || InCjk(r[i]) || Punctuation(r[i])))
    {
      assert r[i] in r;
      assert r[i] in s && CleanKeeps(word, r[i]);
    }
  }

  /** `clean_text` only deletes characters from the collapsed text, so it never lengthens its input. */
  lemma CleanSubsequence(word: char -> bool, text: string)
    ensures IsSubsequence(Clean(word, text), Collapse(Strip(text)))
    ensures |Clean(word, text)| <= |Collapse(Strip(text))| <= |text|
  {
    var stripped := Strip(text);
    var collapsed := Collapse(stripped);
    FilterIsSubsequence(CleanClass(word), collapsed);
    SubsequenceLength(Clean(word, text), collapsed);
    assert |stripped| <= |text|;
    assert |collapsed| <= |stripped|;
  }

  /** A non-whitespace character occurs in `clean_text`'s result exactly when it
      occurs in the input and the allow-list accepts it. */
  lemma CleanMembership(word: char -> bool, text: string, c: char)
    requires !IsSpace(c)
    ensures c in Clean(word, text) <==> c in text && CleanKeeps(word, c)
  {
    StripShape(text);
    CollapseKeepsVisible(Strip(text));
    VisibleMembership(text, c);
    VisibleMembership(Strip(text), c);
    VisibleMembership(Collapse(Strip(text)), c);
  }

  /** `clean_text` returns the empty string exactly when no character of the
      stripped text is on the allow-list (whitespace is on it, so such a text
      is a single word of disallowed symbols, or nothing). */
  lemma CleanEmpty(word: char -> bool, text: string)
    ensures Clean(word, text) == [] <==> forall c :: c in Strip(text) ==> !CleanKeeps(word, c)
  {
    var stripped := Strip(text);
    var collapsed := Collapse(stripped);
    var r := Clean(word, text);
    StripShape(text);
    CollapseKeepsVisible(stripped);
    CollapseHasSpace(stripped);
    forall c | !IsSpace(c) ensures c in collapsed <==> c in stripped {
      VisibleMembership(stripped, c);
      VisibleMembership(collapsed, c);
    }
    if r == [] {
      forall c | c in stripped ensures !CleanKeeps(word, c) {
        if !IsSpace(c) {
          assert c in collapsed;
        }
      }
    } else {
      assert r[0] in r;
    }
  }

  /** Stripping `"  a   b  "` removes the two edge runs (here for any two
      non-whitespace characters in place of `a` and `b`). */
  lemma StripExample(a: char, b: char)
    requires !IsSpace(a) && !IsSpace(b)
    ensures Strip([' ', ' ', a, ' ', ' ', ' ', b, ' ', ' ']) == [a, ' ', ' ', ' ', b]
  {
    var s := [' ', ' ', a, ' ', ' ', ' ', b, ' ', ' '];
    var t := [a, ' ', ' ', ' ', b, ' ', ' '];
    assert TrimStart(s[1..]) == t by { assert s[1..][1..] == t; }
    assert TrimEnd(t[..6]) == [a, ' ', ' ', ' ', b] by { assert t[..6][..5] == [a, ' ', ' ', ' ', b]; }
  }

  /** Collapsing `"a   b"` turns the inner run into one space. */
  lemma CollapseExample(a: char, b: char)
    requires !IsSpace(a) && !IsSpace(b)
    ensures Collapse([a, ' ', ' ', ' ', b]) == [a, ' ', b]
  {
    assert Collapse([b]) == [b] by { assert [b][1..] == []; }
    assert Collapse([' ', b]) == [' ', b] by { assert [' ', b][1..] == [b]; }
    assert Collapse([' ', ' ', b]) == [' ', b] by { assert [' ', ' ', b][1..] == [' ', b]; }
    assert Collapse([' ', ' ', ' ', b]) == [' ', b] by { assert [' ', ' ', ' ', b][1..] == [' ', ' ', b]; }
    assert [a, ' ', ' ', ' ', b][1..] == [' ', ' ', ' ', b];
  }

  /** The allow-list keeps `"a b"` whole when it accepts `a` and `b`. */
  lemma FilterExample(word: char -> bool, a: char, b: char)
    requires CleanKeeps(word, a) && CleanKeeps(word, b)
    ensures Filter(CleanClass(word), [a, ' ', b]) == [a, ' ', b]
  {
    var keep := CleanClass(word);
    assert keep(a) && keep(b) && keep(' ');
    assert Filter(keep, [b]) == [b] by { assert [b][1..] == []; }
    assert Filter(keep, [' ', b]) == [' ', b] by { assert [' ', b][1..] == [b]; }
    assert [a, ' ', b][1..] == [' ', b];
  }

  /** `clean_text("  a   b  ")` is `"a b"`: trimmed and collapsed. */
  lemma CleanTrimsAndCollapses(word: char -> bool, a: char, b: char)
    requires !IsSpace(a) && !IsSpace(b) && CleanKeeps(word, a) && CleanKeeps(word, b)
    ensures Clean(word, [' ', ' ', a, ' ', ' ', ' ', b, ' ', ' ']) == [a, ' ', b]
  {
    StripExample(a, b);
    CollapseExample(a, b);
    FilterExample(word, a, b);
  }

  /** Removing a symbol after the collapse can leave an edge space behind, so
      `clean_text` is not idempotent: `"@ a"` cleans to `" a"`, which cleans to
      `"a"` (for any disallowed non-whitespace `x` in place of `@`). */
  lemma CleanNotIdempotent(word: char -> bool, x: char, a: char)
    requires !IsSpace(x) && !CleanKeeps(word, x)
    requires !IsSpace(a) && CleanKeeps(word, a)
    ensures Clean(word, [x, ' ', a]) == [' ', a]
    ensures Clean(word, [' ', a]) == [a]
  {
    var keep := CleanClass(word);
    assert !keep(x) && keep(a) && keep(' ');
    assert Strip([x, ' ', a]) == [x, ' ', a];
    assert Strip([' ', a]) == [a] by {
      assert TrimStart([' ', a]) == [a] by { assert [' ', a][1..] == [a]; }
    }
    assert Collapse([a]) == [a] by { assert [a][1..] == []; }
    assert Collapse([' ', a]) == [' ', a] by { assert [' ', a][1..] == [a]; }
    assert Collapse([x, ' ', a]) == [x, ' ', a] by { assert [x, ' ', a][1..] == [' ', a]; }
    assert Filter(keep, [a]) == [a] by { assert [a][1..] == []; }
    assert Filter(keep, [' ', a]) == [' ', a] by { assert [' ', a][1..] == [a]; }
    assert Filter(keep, [x, ' ', a]) == [' ', a] by { assert [x, ' ', a][1..] == [' ', a]; }
  }
}
