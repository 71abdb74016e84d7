/**
 * The test-id slug used by the skills and projects sections:
 * `name.toLowerCase().replace(/\s+/g, '-')`.
 * Lower-casing is restricted to ASCII letters; whitespace is exactly the
 * set of code points that the JavaScript `\s` class matches.
 */
module Slug {

  /** True for the code points matched by the regular-expression class `\s`. */
  predicate IsSpace(c: char) {
    var n := c as int;
    n == 0x09 || n == 0x0A || n == 0x0B || n == 0x0C || n == 0x0D || n == 0x20
    || n == 0xA0 || n == 0x1680 || (0x2000 <= n <= 0x200A)
    || n == 0x2028 || n == 0x2029 || n == 0x202F || n == 0x205F
    || n == 0x3000 || n == 0xFEFF
  }

  predicate IsUpper(c: char) {
    'A' <= c <= 'Z'
  }

  /** ASCII `toLowerCase` of one character. */
  function Lower(c: char): (r: char)
    ensures !IsUpper(r)
    ensures IsSpace(r) <==> IsSpace(c)
    ensures !IsUpper(c) ==> r == c
  {
    if IsUpper(c) then (c as int + 32) as char else c
  }

  predicate NoSpace(s: string) {
    forall i :: 0 <= i < |s| ==> !IsSpace(s[i])
  }

  predicate AllSpace(s: string) {
    forall i :: 0 <= i < |s| ==> IsSpace(s[i])
  }

  predicate NoUpper(s: string) {
    forall i :: 0 <= i < |s| ==> !IsUpper(s[i])
  }

  /** True when `s` is non-empty and its last character is whitespace. */
  predicate EndsInSpace(s: string) {
    |s| > 0 && IsSpace(s[|s| - 1])
  }

  /** True when `s` is non-empty and its first character is whitespace. */
  predicate StartsWithSpace(s: string) {
    |s| > 0 && IsSpace(s[0])
  }

  /**
   * Lower-cases `s` and replaces every maximal run of whitespace by one '-'.
   * Read left to right: a whitespace character that follows whitespace adds
   * nothing, the first of a run adds '-'.
   */
  function Slugify(s: string): (r: string)
    ensures NoSpace(r) && NoUpper(r)
    ensures |r| <= |s|
  {
    if s == [] then []
    else
      var init, c := s[..|s| - 1], s[|s| - 1];
      if !IsSpace(c) then Slugify(init) + [Lower(c)]
      else if EndsInSpace(init) then Slugify(init)
      else Slugify(init) + ['-']
  }

  function LowerAll(s: string): (r: string)
    ensures |r| == |s|
  {
    if s == [] then [] else LowerAll(s[..|s| - 1]) + [Lower(s[|s| - 1])]
  }

  /** On text without whitespace the slug is just the lower-cased text. */
  lemma {:induction false} SlugifyNoSpace(s: string)
    requires NoSpace(s)
    ensures Slugify(s) == LowerAll(s)
  {
    if s != [] {
      SlugifyNoSpace(s[..|s| - 1]);
    }
  }

  /** Lower-casing text that has no upper-case letter changes nothing. */
  lemma {:induction false} LowerAllNoUpper(s: string)
    requires NoUpper(s)
    ensures LowerAll(s) == s
  {
    if s != [] {
      LowerAllNoUpper(s[..|s| - 1]);
    }
  }

  /** Applying the slug twice is the same as applying it once. */
  lemma SlugifyIdempotent(s: string)
    ensures Slugify(Slugify(s)) == Slugify(s)
  {
    var t := Slugify(s);
    SlugifyNoSpace(t);
    LowerAllNoUpper(t);
  }

  /** What appending one character does to the slug. */
  lemma SlugifySnoc(s: string, c: char)
    ensures Slugify(s + [c]) == Extend(Slugify(s), EndsInSpace(s), c)
  {
    assert (s + [c])[..|s + [c]| - 1] == s;
  }

  /** The slug grows by: the lower-cased `c`, nothing, or a '-'. */
  function Extend(acc: string, afterSpace: bool, c: char): string {
    if !IsSpace(c) then acc + [Lower(c)]
    else if afterSpace then acc
    else acc + ['-']
  }

  /**
   * The slug of a concatenation is the concatenation of the slugs, unless
   * the join falls inside a run of whitespace.
   */
  lemma {:induction false} SlugifyConcat(x: string, y: string)
    requires !(EndsInSpace(x) && StartsWithSpace(y))
    ensures Slugify(x + y) == Slugify(x) + Slugify(y)
  {
    if y == [] {
      assert x + y == x;
    } else {
      var y', c := y[..|y| - 1], y[|y| - 1];
      SplitLast(x, y);
      SlugifyConcat(x, y');
      SlugifySnoc(x + y', c);
      SlugifySnoc(y', c);
      JoinFlag(Slugify(x) + Slugify(y'), x, y', c);
      ExtendAfterPrefix(Slugify(x), Slugify(y'), EndsInSpace(y'), c);
    }
  }

  /** Removing the last character of `y` keeps the join condition and the shape. */
  lemma SplitLast(x: string, y: string)
    requires |y| > 0 && !(EndsInSpace(x) && StartsWithSpace(y))
    ensures !(EndsInSpace(x) && StartsWithSpace(y[..|y| - 1]))
    ensures x + y == (x + y[..|y| - 1]) + [y[|y| - 1]]
    ensures y == y[..|y| - 1] + [y[|y| - 1]]
  {
    var y' := y[..|y| - 1];
    if |y'| > 0 { assert y'[0] == y[0]; }
  }

  /**
   * Before a whitespace `c`, the characters in front end in whitespace on the
   * left exactly when they do on the right; before any other `c` it does not
   * matter.
   */
  lemma JoinFlag(acc: string, x: string, y': string, c: char)
    requires !(EndsInSpace(x) && IsSpace(c) && y' == [])
    ensures Extend(acc, EndsInSpace(x + y'), c) == Extend(acc, EndsInSpace(y'), c)
  {
    if IsSpace(c) && y' != [] {
      assert (x + y')[|x + y'| - 1] == y'[|y'| - 1];
    } else if IsSpace(c) {
      assert x + y' == x;
    }
  }

  lemma ExtendAfterPrefix(a: string, b: string, afterSpace: bool, c: char)
    ensures Extend(a + b, afterSpace, c) == a + Extend(b, afterSpace, c)
  {
    if !IsSpace(c) {
      assert (a + b) + [Lower(c)] == a + (b + [Lower(c)]);
    } else if !afterSpace {
      assert (a + b) + ['-'] == a + (b + ['-']);
    }
  }

  /** A non-empty run made only of whitespace becomes a single '-'. */
  lemma {:induction false} SlugifySpaceRun(w: string)
    requires |w| > 0 && AllSpace(w)
    ensures Slugify(w) == "-"
  {
    if |w| > 1 {
      SlugifySpaceRun(w[..|w| - 1]);
    } else {
      assert w[..0] == [];
    }
  }

  /**
   * Each maximal run of whitespace, however long, is replaced by exactly
   * one '-', and the text around it is slugged independently.
   */
  lemma SlugifyCollapsesRun(a: string, w: string, b: string)
    requires |w| > 0 && AllSpace(w)
    requires !EndsInSpace(a) && !StartsWithSpace(b)
    ensures Slugify(a + w + b) == Slugify(a) + "-" + Slugify(b)
  {
    SlugifySpaceRun(w);
    SlugifyConcat(a, w);
    assert EndsInSpace(a + w) by {
      assert (a + w)[|a + w| - 1] == w[|w| - 1];
    }
    SlugifyConcat(a + w, b);
  }
}
