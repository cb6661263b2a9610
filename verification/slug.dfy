/** Slug derivation of generate.py (line 31, character class of line 28):
    a line is lower-cased, every character of one regular-expression
    character class is deleted, and every remaining space becomes `-`.
    The resulting slug is both the registry key and the file-name stem. */
module Slug {

  /** `str.lower()` restricted to ASCII: `A`..`Z` become `a`..`z`, every other
      character is left alone. */
  function LowerChar(c: char): char
  {
    if 'A' <= c <= 'Z' then (c as int + 32) as char else c
  }

  /** `line.lower()`, character by character. */
  function Lower(s: string): (r: string)
    ensures |r| == |s|
    ensures forall i :: 0 <= i < |s| ==> r[i] == LowerChar(s[i])
  {
    seq(|s|, i requires 0 <= i < |s| => LowerChar(s[i]))
  }

  /** The character class `['.-\\*-\\!]` as Python's `re` parses it: the
      apostrophe, the range `.`..`\`, the range `*`..`\`, and `!`.  The two
      ranges together cover `*` (0x2A) up to `\` (0x5C): `* + , - . /`, the
      digits, `: ; < = > ? @`, the upper-case letters, `[` and `\`. */
  predicate Removed(c: char)
  {
    c == '\'' || c == '!' || ('.' <= c <= '\\') || ('*' <= c <= '\\')
  }

  /** The class is one contiguous range plus two characters: the two ranges
      overlap, so together they run from `*` to `\`.  Lower-case letters and
      the space survive it. */
  lemma RemovedClass(c: char)
    ensures Removed(c) <==> c == '\'' || c == '!' || ('*' <= c <= '\\')
    ensures Removed(',') && Removed('-') && Removed('.') && Removed('/') && Removed('0') && Removed('@')
    ensures 'a' <= c <= 'z' || c == ' ' ==> !Removed(c)
  {
  }

  /** Number of occurrences of `c` in `s`. */
  function Count(s: string, c: char): nat
  {
    if |s| == 0 then 0 else (if s[0] == c then 1 else 0) + Count(s[1..], c)
  }

  /** Number of characters of `s` that the class matches. */
  function RemovedCount(s: string): nat
  {
    if |s| == 0 then 0 else (if Removed(s[0]) then 1 else 0) + RemovedCount(s[1..])
  }

  /** `regex.sub('', s)`: every character the class matches is deleted; the
      others are kept, in order. */
  function Strip(s: string): (r: string)
    ensures |r| == |s| - RemovedCount(s)
    ensures forall c :: c in r ==> c in s && !Removed(c)
    ensures forall c :: c in s && !Removed(c) ==> c in r
  {
    if |s| == 0 then []
    else (if Removed(s[0]) then [] else [s[0]]) + Strip(s[1..])
  }

  /** `s.replace(' ', '-')`. */
  function Hyphenate(s: string): (r: string)
    ensures |r| == |s|
    ensures forall i :: 0 <= i < |s| ==> r[i] == (if s[i] == ' ' then '-' else s[i])
  {
    seq(|s|, i requires 0 <= i < |s| => if s[i] == ' ' then '-' else s[i])
  }

  /** The inverse of `Hyphenate` on text that holds no `-`. */
  function Unhyphenate(s: string): (r: string)
    ensures |r| == |s|
    ensures forall i :: 0 <= i < |s| ==> r[i] == (if s[i] == '-' then ' ' else s[i])
  {
    seq(|s|, i requires 0 <= i < |s| => if s[i] == '-' then ' ' else s[i])
  }

  /** The slug expression of generate.py line 31, as the three steps the
      source composes. */
  function Slugify(line: string): (slug: string)
    ensures ' ' !in slug
    ensures forall c :: c in slug ==> c == '-' || !Removed(c)
    ensures |slug| == |line| - RemovedCount(Lower(line))
    ensures Count(slug, '-') == Count(line, ' ')
    ensures Unhyphenate(slug) == Strip(Lower(line))
  {
    var stripped := Strip(Lower(line));
    HyphenateCount(stripped);
    StripCount(Lower(line), ' ');
    LowerCount(line, ' ');
    UnhyphenateHyphenate(stripped);
    Hyphenate(stripped)
  }

  /** What one input character contributes to the slug. */
  function Emit(c: char): string
  {
    var l := LowerChar(c);
    if Removed(l) then [] else if l == ' ' then ['-'] else [l]
  }

  /** An independent single-pass definition of the slug: each character of
      the line is lower-cased, then dropped, turned into `-` or kept. */
  function SlugOf(line: string): string
  {
    if |line| == 0 then [] else Emit(line[0]) + SlugOf(line[1..])
  }

  lemma {:induction false} LowerCount(s: string, c: char)
    requires !('A' <= c <= 'Z') && !('a' <= c <= 'z')
    ensures Count(Lower(s), c) == Count(s, c)
    decreases |s|
  {
    if |s| > 0 {
      assert Lower(s)[1..] == Lower(s[1..]);
      LowerCount(s[1..], c);
    }
  }

  lemma {:induction false} StripCount(s: string, c: char)
    requires !Removed(c)
    ensures Count(Strip(s), c) == Count(s, c)
    decreases |s|
  {
    if |s| > 0 {
      var head := if Removed(s[0]) then [] else [s[0]];
      CountAppend(head, Strip(s[1..]), c);
      StripCount(s[1..], c);
    }
  }

  lemma {:induction false} CountAppend(a: string, b: string, c: char)
    ensures Count(a + b, c) == Count(a, c) + Count(b, c)
    decreases |a|
  {
    if |a| > 0 {
      assert (a + b)[1..] == a[1..] + b;
      CountAppend(a[1..], b, c);
    } else {
      assert a + b == b;
    }
  }

  /** Hyphenating text without `-` yields exactly one `-` per space. */
  lemma {:induction false} HyphenateCount(s: string)
    requires '-' !in s
    ensures Count(Hyphenate(s), '-') == Count(s, ' ')
    decreases |s|
  {
    if |s| > 0 {
      assert Hyphenate(s)[1..] == Hyphenate(s[1..]);
      HyphenateCount(s[1..]);
    }
  }

  /** `Unhyphenate` undoes `Hyphenate` on text that holds no `-`. */
  lemma UnhyphenateHyphenate(s: string)
    requires '-' !in s
    ensures Unhyphenate(Hyphenate(s)) == s
  {
  }

  /** The three-step slug expression equals the single-pass definition. */
  lemma {:induction false} SlugifyIsSinglePass(line: string)
    ensures Slugify(line) == SlugOf(line)
    decreases |line|
  {
    if |line| > 0 {
      var lower := Lower(line);
      assert lower == [LowerChar(line[0])] + Lower(line[1..]);
      assert lower[1..] == Lower(line[1..]);
      var head := if Removed(lower[0]) then [] else [lower[0]];
      assert Strip(lower) == head + Strip(Lower(line[1..]));
      HyphenateAppend(head, Strip(Lower(line[1..])));
      assert Hyphenate(head) == Emit(line[0]);
      SlugifyIsSinglePass(line[1..]);
    }
  }

  lemma HyphenateAppend(a: string, b: string)
    ensures Hyphenate(a + b) == Hyphenate(a) + Hyphenate(b)
  {
  }

  /** Two lines share a slug exactly when they agree once lower-cased and
      stripped of the class: spaces and nothing else turn into `-`. */
  lemma SlugCollision(a: string, b: string)
    ensures Slugify(a) == Slugify(b) <==> Strip(Lower(a)) == Strip(Lower(b))
  {
  }

  /** The slug of a concatenation is the concatenation of the slugs: the
      expression works character by character. */
  lemma {:induction false} SlugOfAppend(a: string, b: string)
    ensures SlugOf(a + b) == SlugOf(a) + SlugOf(b)
    decreases |a|
  {
    if |a| == 0 {
      assert a + b == b;
    } else {
      assert (a + b)[1..] == a[1..] + b;
      SlugOfAppend(a[1..], b);
    }
  }

  /** The slug of a prefix is a prefix of the slug. */
  lemma SlugOfPrefix(p: string, line: string)
    requires p <= line
    ensures SlugOf(p) <= Slugify(line)
  {
    assert line == p + line[|p|..];
    SlugOfAppend(p, line[|p|..]);
    SlugifyIsSinglePass(line);
  }

  /** Two lines that agree up to a point and there hold two characters that
      both survive into the slug, differently, have different slugs. */
  lemma SlugsDiverge(a: string, b: string, common: string, x: char, y: char)
    requires common + [x] <= a && common + [y] <= b
    requires |Emit(x)| == 1 && |Emit(y)| == 1 && Emit(x) != Emit(y)
    ensures Slugify(a) != Slugify(b)
  {
    SlugOfPrefix(common + [x], a);
    SlugOfPrefix(common + [y], b);
    SlugOfAppend(common, [x]);
    SlugOfAppend(common, [y]);
    assert SlugOf([x]) == Emit(x) + SlugOf([]);
    assert SlugOf([y]) == Emit(y) + SlugOf([]);
    var n := |SlugOf(common)|;
    assert Slugify(a)[n] == Emit(x)[0];
    assert Slugify(b)[n] == Emit(y)[0];
  }
}
