/** The JavaScript string built-ins the actions rely on: `String.prototype.trim`,
    `String.prototype.padStart` with a one-character filler, and
    `String.prototype.slice` with one non-negative argument.
    Characters are Unicode scalar values; every character these operations
    inspect (white space, line terminators, ASCII) lies in the Basic
    Multilingual Plane, where one scalar is one UTF-16 code unit. */
module JsString {

  /** White space above the ASCII range: no-break space, Ogham space mark,
      the spaces U+2000 to U+200A, line and paragraph separators, narrow
      no-break space, medium mathematical space, ideographic space and the
      byte-order mark. */
  const WideWhitespaceCodes: seq<int> := [
    0xA0, 0x1680, 0x2000, 0x2001, 0x2002, 0x2003, 0x2004, 0x2005, 0x2006,
    0x2007, 0x2008, 0x2009, 0x200A, 0x2028, 0x2029, 0x202F, 0x205F, 0x3000, 0xFEFF ]

  predicate CodeIn(n: int, codes: seq<int>) {
    |codes| > 0 && (codes[0] == n || CodeIn(n, codes[1..]))
  }

  /** The ECMAScript WhiteSpace and LineTerminator code points: the set that
      `trim` strips and that `parseInt` skips before the number. In ASCII
      these are tab, line feed, vertical tab, form feed, carriage return and
      space. */
  predicate IsWhitespace(c: char) {
    var n := c as int;
    || (0x09 <= n <= 0x0D)
    || n == 0x20
    || (n >= 0xA0 && CodeIn(n, WideWhitespaceCodes))
  }

  /** The same set written out at once: tab, line feed, vertical tab, form
      feed, carriage return, space, and the wide codes above. Next line
      (U+0085), the Mongolian vowel separator (U+180E) and zero-width space
      (U+200B) are not in it. */
  const WhitespaceCodes: set<int> := {
    0x09, 0x0A, 0x0B, 0x0C, 0x0D, 0x20,
    0xA0, 0x1680, 0x2000, 0x2001, 0x2002, 0x2003, 0x2004, 0x2005, 0x2006,
    0x2007, 0x2008, 0x2009, 0x200A, 0x2028, 0x2029, 0x202F, 0x205F, 0x3000, 0xFEFF }

  lemma {:induction false} CodeInIff(n: int, codes: seq<int>)
    ensures CodeIn(n, codes) <==> n in codes
  {
    if |codes| > 0 {
      CodeInIff(n, codes[1..]);
      assert codes == [codes[0]] + codes[1..];
    }
  }

  /** `IsWhitespace` is membership in the white-space set. */
  lemma IsWhitespaceIff(c: char)
    ensures IsWhitespace(c) <==> c as int in WhitespaceCodes
  {
    CodeInIff(c as int, WideWhitespaceCodes);
  }

  predicate AllWhitespace(s: string) {
    forall i :: 0 <= i < |s| ==> IsWhitespace(s[i])
  }

  /** Neither end of `s` is white space: the shape of every `trim` result. */
  predicate IsTrimmed(s: string) {
    s == [] || (!IsWhitespace(s[0]) && !IsWhitespace(s[|s| - 1]))
  }

  predicate StartsWith(s: string, prefix: string) {
    |prefix| <= |s| && s[..|prefix|] == prefix
  }

  /** Drops the leading white space (see `TrimStartSplit` for what is dropped). */
  function TrimStart(s: string): (r: string)
    ensures |r| <= |s|
    ensures r == [] || !IsWhitespace(r[0])
  {
    if |s| > 0 && IsWhitespace(s[0]) then TrimStart(s[1..]) else s
  }

  /** Drops the trailing white space. */
  function TrimEnd(s: string): (r: string)
    ensures |r| <= |s|
    ensures r == [] || !IsWhitespace(r[|r| - 1])
  {
    if |s| > 0 && IsWhitespace(s[|s| - 1]) then TrimEnd(s[..|s| - 1]) else s
  }

  /** `String.prototype.trim`: white space is dropped from both ends until
      neither end is white space; nothing else is removed. */
  function Trim(s: string): (r: string)
    ensures IsTrimmed(r)
    ensures |r| <= |s|
  {
    if |s| > 0 && IsWhitespace(s[0]) then Trim(s[1..])
    else if |s| > 0 && IsWhitespace(s[|s| - 1]) then Trim(s[..|s| - 1])
    else s
  }

  lemma {:induction false} TrimStartOfWhitespacePrefix(p: string, m: string)
    requires AllWhitespace(p)
    requires m == [] || !IsWhitespace(m[0])
    ensures TrimStart(p + m) == m
    decreases |p|
  {
    if p != [] {
      assert (p + m)[1..] == p[1..] + m;
      TrimStartOfWhitespacePrefix(p[1..], m);
    } else {
      assert p + m == m;
    }
  }

  lemma {:induction false} TrimEndOfWhitespaceSuffix(m: string, q: string)
    requires AllWhitespace(q)
    requires m == [] || !IsWhitespace(m[|m| - 1])
    ensures TrimEnd(m + q) == m
    decreases |q|
  {
    if q != [] {
      assert (m + q)[..|m + q| - 1] == m + q[..|q| - 1];
      TrimEndOfWhitespaceSuffix(m, q[..|q| - 1]);
    } else {
      assert m + q == m;
    }
  }

  /** What `TrimStart` drops is white space and nothing else. */
  lemma {:induction false} TrimStartSplit(s: string) returns (w: string)
    ensures AllWhitespace(w)
    ensures s == w + TrimStart(s)
  {
    if |s| > 0 && IsWhitespace(s[0]) {
      var w' := TrimStartSplit(s[1..]);
      w := [s[0]] + w';
      assert s == [s[0]] + s[1..];
    } else {
      w := [];
    }
  }

  /** White space put in front of a text is skipped along with the text's own. */
  lemma {:induction false} TrimStartSkipsWhitespace(p: string, s: string)
    requires AllWhitespace(p)
    ensures TrimStart(p + s) == TrimStart(s)
  {
    var t := TrimStart(s);
    var w := TrimStartSplit(s);
    WhitespaceConcat(p, w);
    Associate(p, w, t);
    TrimStartOfWhitespacePrefix(p + w, t);
  }

  /** `trim` is the unique way to split off white space at both ends: whatever
      trimmed text is wrapped in white space, `trim` returns exactly it. */
  lemma {:induction false} TrimRecoversCore(p: string, m: string, q: string)
    requires AllWhitespace(p) && AllWhitespace(q)
    requires IsTrimmed(m)
    ensures Trim(p + m + q) == m
    decreases |p| + |q|
  {
    var s := p + m + q;
    if p != [] {
      assert s[0] == p[0];
      TrimDropsFirst(s);
      assert s[1..] == p[1..] + m + q;
      TrimRecoversCore(p[1..], m, q);
    } else if q != [] && m == [] {
      assert s[0] == q[0];
      TrimDropsFirst(s);
      assert s[1..] == [] + [] + q[1..];
      TrimRecoversCore([], [], q[1..]);
    } else if q != [] {
      assert s[0] == m[0];
      assert s[|s| - 1] == q[|q| - 1];
      TrimDropsLast(s);
      assert s[..|s| - 1] == [] + m + q[..|q| - 1];
      TrimRecoversCore([], m, q[..|q| - 1]);
    } else {
      assert s == m;
    }
  }

  /** Any text is its `trim` with white space on either side. */
  lemma {:induction false} TrimSplit(s: string) returns (p: string, q: string)
    ensures AllWhitespace(p) && AllWhitespace(q)
    ensures s == p + Trim(s) + q
  {
    if |s| > 0 && IsWhitespace(s[0]) {
      var p', q' := TrimSplit(s[1..]);
      TrimDropsFirst(s);
      p, q := [s[0]] + p', q';
      SplitAfterFirst(s, p', Trim(s), q');
      WhitespaceConcat([s[0]], p');
    } else if |s| > 0 && IsWhitespace(s[|s| - 1]) {
      var p', q' := TrimSplit(s[..|s| - 1]);
      TrimDropsLast(s);
      p, q := p', q' + [s[|s| - 1]];
      SplitBeforeLast(s, p', Trim(s), q');
      WhitespaceConcat(q', [s[|s| - 1]]);
    } else {
      p, q := [], [];
      assert s == [] + s + [];
    }
  }

  lemma TrimDropsFirst(s: string)
    requires |s| > 0 && IsWhitespace(s[0])
    ensures Trim(s) == Trim(s[1..])
  {
  }

  lemma TrimDropsLast(s: string)
    requires |s| > 0 && !IsWhitespace(s[0]) && IsWhitespace(s[|s| - 1])
    ensures Trim(s) == Trim(s[..|s| - 1])
  {
  }

  /** `trim` agrees with trimming the start and then the end. */
  lemma {:induction false} TrimIsTrimStartThenEnd(s: string)
    ensures Trim(s) == TrimEnd(TrimStart(s))
  {
    var p, q := TrimSplit(s);
    var m := Trim(s);
    if m == [] {
      assert s == p + q;
      WhitespaceConcat(p, q);
      assert s + [] == s;
      TrimStartOfWhitespacePrefix(s, []);
      TrimEndOfWhitespaceSuffix([], []);
    } else {
      Associate(p, m, q);
      TrimStartOfWhitespacePrefix(p, m + q);
      TrimEndOfWhitespaceSuffix(m, q);
    }
  }

  /** White space added around a value never changes what `trim` returns. */
  lemma {:induction false} TrimIgnoresPadding(p: string, v: string, q: string)
    requires AllWhitespace(p) && AllWhitespace(q)
    ensures Trim(p + v + q) == Trim(v)
  {
    var t := Trim(v);
    var p', q' := TrimSplit(v);
    var pp, qq := p + p', q' + q;
    WhitespaceConcat(p, p');
    WhitespaceConcat(q', q);
    Regroup(p, p', t, q', q);
    TrimRecoversCore(pp, t, qq);
  }

  /** Text with no white space at either end is left as it is. */
  lemma {:induction false} TrimOfTrimmed(s: string)
    requires IsTrimmed(s)
    ensures Trim(s) == s
  {
    assert [] + s + [] == s;
    TrimRecoversCore([], s, []);
  }

  /** Trimming twice is trimming once. */
  lemma {:induction false} TrimIdempotent(s: string)
    ensures Trim(Trim(s)) == Trim(s)
  {
    TrimOfTrimmed(Trim(s));
  }

  /** `trim` yields the empty string exactly when the input is all white space. */
  lemma {:induction false} TrimEmptyIff(s: string)
    ensures Trim(s) == [] <==> AllWhitespace(s)
  {
    if AllWhitespace(s) {
      assert s + [] + [] == s;
      TrimRecoversCore(s, [], []);
    } else {
      var p, q := TrimSplit(s);
    }
  }

  lemma Associate<T>(a: seq<T>, b: seq<T>, c: seq<T>)
    ensures a + (b + c) == (a + b) + c
  {
  }

  lemma SplitAfterFirst<T>(s: seq<T>, a: seq<T>, b: seq<T>, c: seq<T>)
    requires |s| > 0 && s[1..] == a + b + c
    ensures s == ([s[0]] + a) + b + c
  {
    assert s == [s[0]] + s[1..];
  }

  lemma SplitBeforeLast<T>(s: seq<T>, a: seq<T>, b: seq<T>, c: seq<T>)
    requires |s| > 0 && s[..|s| - 1] == a + b + c
    ensures s == a + b + (c + [s[|s| - 1]])
  {
    assert s == s[..|s| - 1] + [s[|s| - 1]];
  }

  lemma Regroup<T>(p: seq<T>, a: seq<T>, b: seq<T>, c: seq<T>, q: seq<T>)
    ensures p + (a + b + c) + q == (p + a) + b + (c + q)
  {
  }

  lemma WhitespaceConcat(a: string, b: string)
    requires AllWhitespace(a) && AllWhitespace(b)
    ensures AllWhitespace(a + b)
  {
    forall i | 0 <= i < |a + b|
      ensures IsWhitespace((a + b)[i])
    {
      if i >= |a| {
        assert (a + b)[i] == b[i - |a|];
      }
    }
  }

  /** `String.prototype.padStart(width, fill)` for a single-character `fill`:
      the text is kept whole and preceded by just enough fill characters to
      reach `width`; text already that long is returned unchanged. */
  function PadStart(s: string, width: nat, fill: char): (r: string)
    ensures |r| == if |s| >= width then |s| else width
    ensures r[|r| - |s|..] == s
    ensures forall i :: 0 <= i < |r| - |s| ==> r[i] == fill
  {
    if |s| >= width then s else seq(width - |s|, _ => fill) + s
  }

  /** `String.prototype.slice(start)` for `start >= 0`: everything from
      position `start` on, or the empty string past the end. */
  function SliceFrom(s: string, start: nat): (r: string)
    ensures start <= |s| ==> s == s[..start] + r
    ensures start >= |s| ==> r == []
  {
    if start <= |s| then s[start..] else []
  }
}
