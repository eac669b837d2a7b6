/**
 * The string primitives the terminal relies on, with the semantics of the
 * JavaScript built-ins it calls: `String.prototype.trim`,
 * `String.prototype.split` with a one-character separator, and
 * `Array.prototype.join`.
 */
module Text {

  /** No element occurs twice. */
  predicate NoDup(xs: seq<string>) {
    forall i, j :: 0 <= i < j < |xs| ==> xs[i] != xs[j]
  }

  /**
   * The characters `trim` removes: the WhiteSpace and LineTerminator
   * code points of ECMA-262 (tab, vertical tab, form feed, space,
   * no-break space, byte-order mark, the Unicode space separators, and
   * line feed, carriage return, line and paragraph separator).
   */
  predicate IsWhiteSpace(c: char) {
    c == '\t' || c == '\n' || c == '\U{0B}' || c == '\U{0C}' || c == '\r' || c == ' '
    || c == '\U{A0}' || c == '\U{1680}'
    || ('\U{2000}' <= c <= '\U{200A}')
    || c == '\U{2028}' || c == '\U{2029}' || c == '\U{202F}' || c == '\U{205F}'
    || c == '\U{3000}' || c == '\U{FEFF}'
  }

  predicate AllWhiteSpace(s: string) {
    forall i :: 0 <= i < |s| ==> IsWhiteSpace(s[i])
  }

  /** Neither end of `s` is white space. */
  predicate Unpadded(s: string) {
    s == [] || (!IsWhiteSpace(s[0]) && !IsWhiteSpace(s[|s| - 1]))
  }

  /** `s` without its leading white space. */
  function TrimStart(s: string): (r: string)
    ensures |r| <= |s| && r == s[|s| - |r|..]
    ensures AllWhiteSpace(s[..|s| - |r|])
    ensures r == [] || !IsWhiteSpace(r[0])
  {
    if s != [] && IsWhiteSpace(s[0]) then TrimStart(s[1..]) else s
  }

  /** `s` without its trailing white space. */
  function TrimEnd(s: string): (r: string)
    ensures |r| <= |s| && r == s[..|r|]
    ensures AllWhiteSpace(s[|r|..])
    ensures r == [] || !IsWhiteSpace(r[|r| - 1])
  {
    if s != [] && IsWhiteSpace(s[|s| - 1]) then TrimEnd(s[..|s| - 1]) else s
  }

  /** `s.trim()`: `s` with white space removed from both ends. */
  function Trim(s: string): (r: string)
    ensures Unpadded(r)
  {
    TrimEnd(TrimStart(s))
  }

  /** Trimming a string whose ends are not white space leaves it alone. */
  lemma UnpaddedTrim(s: string)
    requires Unpadded(s)
    ensures Trim(s) == s
  {
    if s != [] {
      assert TrimStart(s) == s;
    }
  }

  /** Trim removes exactly the white-space padding around an unpadded core. */
  lemma {:induction false} TrimPadding(a: string, s: string, b: string)
    requires AllWhiteSpace(a) && AllWhiteSpace(b) && Unpadded(s)
    ensures Trim(a + s + b) == s
  {
    if s == [] {
      assert a + s + b == a + b;
    } else {
      TrimStartPadding(a, s + b);
      assert a + s + b == a + (s + b);
      TrimEndPadding(s, b);
    }
  }

  lemma {:induction false} TrimStartPadding(a: string, t: string)
    requires AllWhiteSpace(a) && (t == [] || !IsWhiteSpace(t[0]))
    ensures TrimStart(a + t) == t
  {
    if a != [] {
      assert (a + t)[1..] == a[1..] + t;
      TrimStartPadding(a[1..], t);
    }
  }

  lemma {:induction false} TrimEndPadding(s: string, b: string)
    requires AllWhiteSpace(b) && Unpadded(s)
    ensures TrimEnd(s + b) == s
  {
    if b == [] {
      assert s + b == s;
    } else {
      assert (s + b)[..|s + b| - 1] == s + b[..|b| - 1];
      TrimEndPadding(s, b[..|b| - 1]);
    }
  }

  /** Trim is idempotent. */
  lemma TrimIdempotent(s: string)
    ensures Trim(Trim(s)) == Trim(s)
  {
    UnpaddedTrim(Trim(s));
  }

  /**
   * `xs` without its last element: `Array.prototype.pop` on the segments of
   * a path, and `slice(0, -1)` on a string; both leave an empty input empty.
   */
  function DropLast<T>(xs: seq<T>): (r: seq<T>)
    ensures xs == [] ==> r == []
    ensures xs != [] ==> r + [xs[|xs| - 1]] == xs
  {
    if xs == [] then [] else xs[..|xs| - 1]
  }

  /**
   * `s.split(c)`: the maximal pieces of `s` between occurrences of `c`.
   * There is always at least one piece (`"".split(c)` is `[""]`), and
   * adjacent separators give empty pieces.
   */
  function Split(s: string, c: char): (parts: seq<string>)
    ensures |parts| >= 1
    ensures forall i :: 0 <= i < |parts| ==> c !in parts[i]
  {
    if s == [] then [""]
    else
      var rest := Split(s[1..], c);
      if s[0] == c then [""] + rest else [[s[0]] + rest[0]] + rest[1..]
  }

  /** `xs.join(sep)`: the elements of `xs` with `sep` between neighbours. */
  function Join(xs: seq<string>, sep: string): (r: string)
    ensures xs == [] ==> r == ""
    ensures xs != [] ==> |r| >= |xs[0]|
  {
    if |xs| == 0 then ""
    else if |xs| == 1 then xs[0]
    else xs[0] + sep + Join(xs[1..], sep)
  }

  lemma JoinPrepend(a: string, xs: seq<string>, sep: string)
    requires |xs| >= 1
    ensures Join([a + xs[0]] + xs[1..], sep) == a + Join(xs, sep)
  {
    var ys := [a + xs[0]] + xs[1..];
    assert ys[1..] == xs[1..];
  }

  lemma JoinAppend(xs: seq<string>, x: string, sep: string)
    requires |xs| >= 1
    ensures Join(xs + [x], sep) == Join(xs, sep) + sep + x
  {
    if |xs| > 1 {
      assert (xs + [x])[1..] == xs[1..] + [x];
      JoinAppend(xs[1..], x, sep);
    }
  }

  /** Joining the pieces of a split with the separator gives back the string. */
  lemma {:induction false} JoinSplit(s: string, c: char)
    ensures Join(Split(s, c), [c]) == s
  {
    if s != [] {
      var rest := Split(s[1..], c);
      JoinSplit(s[1..], c);
      if s[0] == c {
        assert ([""] + rest)[1..] == rest;
      } else {
        JoinPrepend([s[0]], rest, [c]);
      }
    }
  }

  /** A piece free of the separator, followed by a separator, splits off whole. */
  lemma {:induction false} SplitAfterWord(w: string, b: string, c: char)
    requires c !in w
    ensures Split(w + [c] + b, c) == [w] + Split(b, c)
  {
    if w == [] {
      assert w + [c] + b == [c] + b;
      assert ([c] + b)[1..] == b;
    } else {
      assert (w + [c] + b)[1..] == w[1..] + [c] + b;
      SplitAfterWord(w[1..], b, c);
      assert [w[0]] + w[1..] == w;
    }
  }

  /** A leading separator splits off an empty piece. */
  lemma SplitLeadingSeparator(b: string, c: char)
    ensures Split([c] + b, c) == [""] + Split(b, c)
  {
    assert ([c] + b)[1..] == b;
  }

  /** A string free of the separator is its own only piece. */
  lemma {:induction false} SplitWord(w: string, c: char)
    requires c !in w
    ensures Split(w, c) == [w]
  {
    if w != [] {
      SplitWord(w[1..], c);
      assert [w[0]] + w[1..] == w;
    }
  }

  /** Splitting a join of separator-free pieces gives back the pieces. */
  lemma {:induction false} SplitJoin(xs: seq<string>, c: char)
    requires |xs| >= 1
    requires forall i :: 0 <= i < |xs| ==> c !in xs[i]
    ensures Split(Join(xs, [c]), c) == xs
  {
    if |xs| == 1 {
      SplitWord(xs[0], c);
    } else {
      SplitJoin(xs[1..], c);
      SplitAfterWord(xs[0], Join(xs[1..], [c]), c);
      assert [xs[0]] + xs[1..] == xs;
    }
  }
}
