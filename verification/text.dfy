/** The few Python `str` operations the pipeline relies on, written out over `seq<char>`. */
module Text {

  /** Python's `str.isspace` for one character: the characters `str.split()` and `str.strip()` treat as blanks. */
  predicate IsSpace(c: char) {
    || c == ' '
    || ('\t' <= c <= '\r')
    || ('\U{1C}' <= c <= '\U{1F}')
    || c == '\U{85}' || c == '\U{A0}' || c == '\U{1680}'
    || ('\U{2000}' <= c <= '\U{200A}')
    || c == '\U{2028}' || c == '\U{2029}' || c == '\U{202F}' || c == '\U{205F}' || c == '\U{3000}'
  }

  predicate AllSpace(s: string) {
    forall i :: 0 <= i < |s| ==> IsSpace(s[i])
  }

  /** `s.lstrip()`. */
  function TrimStart(s: string): (r: string)
    ensures |r| <= |s| && r == s[|s| - |r|..]
    ensures AllSpace(s[..|s| - |r|])
    ensures r == [] || !IsSpace(r[0])
  {
    if s != [] && IsSpace(s[0]) then
      var r := TrimStart(s[1..]);
      assert s[..|s| - |r|] == [s[0]] + s[1..][..|s| - 1 - |r|];
      r
    else s
  }

  /** `s.rstrip()`. */
  function TrimEnd(s: string): (r: string)
    ensures |r| <= |s| && r == s[..|r|]
    ensures AllSpace(s[|r|..])
    ensures r == [] || !IsSpace(r[|r| - 1])
  {
    if s != [] && IsSpace(s[|s| - 1]) then
      var r := TrimEnd(s[..|s| - 1]);
      assert s[|r|..] == s[..|s| - 1][|r|..] + [s[|s| - 1]];
      r
    else s
  }

  /** `s.strip()`: the longest infix of `s` that neither starts nor ends with whitespace,
      obtained by dropping only whitespace on both sides. */
  function Strip(s: string): (r: string)
    ensures r == [] <==> AllSpace(s)
    ensures r != [] ==> !IsSpace(r[0]) && !IsSpace(r[|r| - 1])
    ensures exists i :: StripsAt(s, r, i)
  {
    var a := TrimStart(s);
    var r := TrimEnd(a);
    StripSpan(s, |s| - |a|, a, r);
    r
  }

  /** What trimming both ends leaves: an infix with only whitespace around it, empty exactly
      when `s` is all whitespace. */
  lemma StripSpan(s: string, i: int, a: string, r: string)
    requires 0 <= i <= |s| && a == s[i..] && AllSpace(s[..i])
    requires |r| <= |a| && r == a[..|r|] && AllSpace(a[|r|..]) && (r == [] || !IsSpace(r[0]))
    ensures StripsAt(s, r, i)
    ensures r == [] <==> AllSpace(s)
  {
    assert s[i..i + |r|] == r;
    assert s[i + |r|..] == a[|r|..];
    StripsAtBlank(s, r, i);
  }

  lemma AllSpaceConcat(a: string, b: string)
    ensures AllSpace(a + b) <==> AllSpace(a) && AllSpace(b)
  {
    if AllSpace(a) && AllSpace(b) {
      forall k | 0 <= k < |a + b| ensures IsSpace((a + b)[k]) {
        if k >= |a| {
          assert (a + b)[k] == b[k - |a|];
        }
      }
    }
    if AllSpace(a + b) {
      forall k | 0 <= k < |a| ensures IsSpace(a[k]) {
        assert a[k] == (a + b)[k];
      }
      forall k | 0 <= k < |b| ensures IsSpace(b[k]) {
        assert b[k] == (a + b)[|a| + k];
      }
    }
  }

  /** `Strip` is the only way to drop whitespace from both ends of `s` and be left with an infix
      that neither starts nor ends with whitespace. */
  lemma StripUnique(s: string, r: string, i: int)
    requires StripsAt(s, r, i)
    requires r != [] ==> !IsSpace(r[0]) && !IsSpace(r[|r| - 1])
    ensures r == Strip(s)
  {
    var t := Strip(s);
    var j :| StripsAt(s, t, j);
    StripsAtUnique(s, r, i, t, j);
  }

  lemma StripsAtUnique(s: string, r: string, i: int, t: string, j: int)
    requires StripsAt(s, r, i) && StripsAt(s, t, j)
    requires r != [] ==> !IsSpace(r[0]) && !IsSpace(r[|r| - 1])
    requires t != [] ==> !IsSpace(t[0]) && !IsSpace(t[|t| - 1])
    ensures r == t
  {
    StripsAtBlank(s, r, i);
    StripsAtBlank(s, t, j);
    if r != [] {
      SameStart(s, r, i, t, j);
      SameEnd(s, r, i, t, j);
      assert r == s[i..i + |r|] == t;
    }
  }

  /** An infix with only whitespace around it, not starting with whitespace, is empty exactly when `s` is blank. */
  lemma StripsAtBlank(s: string, r: string, i: int)
    requires StripsAt(s, r, i)
    requires r != [] ==> !IsSpace(r[0])
    ensures r == [] <==> AllSpace(s)
  {
    if r == [] {
      assert s == s[..i] + s[i..];
      AllSpaceConcat(s[..i], s[i..]);
    } else {
      assert s[i] == r[0];
    }
  }

  /** Two infixes with only whitespace before them, both starting with a non-whitespace character, start together. */
  lemma SameStart(s: string, r: string, i: int, t: string, j: int)
    requires StripsAt(s, r, i) && StripsAt(s, t, j)
    requires r != [] && t != [] && !IsSpace(r[0]) && !IsSpace(t[0])
    ensures i == j
  {
    assert s[i] == r[0] && s[j] == t[0];
  }

  /** Two infixes with only whitespace after them, both ending with a non-whitespace character, end together. */
  lemma SameEnd(s: string, r: string, i: int, t: string, j: int)
    requires StripsAt(s, r, i) && StripsAt(s, t, j)
    requires r != [] && t != [] && !IsSpace(r[|r| - 1]) && !IsSpace(t[|t| - 1])
    ensures i + |r| == j + |t|
  {
    var e, f := i + |r|, j + |t|;
    assert s[e - 1] == r[|r| - 1] && s[f - 1] == t[|t| - 1];
  }

  /** `r` is the infix of `s` starting at `i`, with only whitespace around it. */
  predicate StripsAt(s: string, r: string, i: int) {
    0 <= i <= |s| - |r| && r == s[i..i + |r|] && AllSpace(s[..i]) && AllSpace(s[i + |r|..])
  }

  /** Python's `str.lower()` on one character, restricted to ASCII letters. */
  function LowerChar(c: char): char {
    if 'A' <= c <= 'Z' then (c as int + 32) as char else c
  }

  /** `s.lower()` (ASCII letters only). */
  function Lower(s: string): (r: string)
    ensures |r| == |s|
  {
    seq(|s|, i requires 0 <= i < |s| => LowerChar(s[i]))
  }

  /** Python's `p in s` for strings: `p` occurs as a contiguous infix of `s`. */
  predicate Contains(s: string, p: string) {
    exists i | 0 <= i <= |s| :: OccursAt(s, p, i)
  }

  predicate OccursAt(s: string, p: string, i: int) {
    0 <= i <= |s| - |p| && s[i..i + |p|] == p
  }

  /** `s.endswith(suffix)` (case-sensitive). */
  predicate EndsWith(s: string, suffix: string) {
    |suffix| <= |s| && s[|s| - |suffix|..] == suffix
  }

  /** `sep.join(xs)`. */
  function Join(sep: string, xs: seq<string>): string {
    if |xs| == 0 then ""
    else if |xs| == 1 then xs[0]
    else xs[0] + sep + Join(sep, xs[1..])
  }

  /** Where piece `k` of `Join(sep, xs)` starts: after every earlier piece and its separator. */
  function JoinOffset(sep: string, xs: seq<string>, k: nat): nat
    requires k <= |xs|
  {
    if k == 0 then 0 else |xs[0]| + |sep| + JoinOffset(sep, xs[1..], k - 1)
  }

  /** The layout of a join: the pieces in order, each at its offset, with exactly `sep` between
      neighbours and nothing before the first piece or after the last. */
  lemma {:induction false} JoinLayout(sep: string, xs: seq<string>)
    ensures |xs| == 0 ==> Join(sep, xs) == ""
    ensures |xs| > 0 ==> |Join(sep, xs)| == JoinOffset(sep, xs, |xs| - 1) + |xs[|xs| - 1]|
    ensures forall k :: 0 <= k < |xs| ==> PieceAt(Join(sep, xs), xs[k], JoinOffset(sep, xs, k))
    ensures forall k :: 0 <= k < |xs| - 1 ==>
      && JoinOffset(sep, xs, k + 1) == JoinOffset(sep, xs, k) + |xs[k]| + |sep|
      && PieceAt(Join(sep, xs), sep, JoinOffset(sep, xs, k) + |xs[k]|)
  {
    if |xs| > 0 {
      JoinLength(sep, xs);
    }
    JoinPieces(sep, xs);
    JoinSeparators(sep, xs);
  }

  lemma JoinPieces(sep: string, xs: seq<string>)
    ensures forall k :: 0 <= k < |xs| ==> PieceAt(Join(sep, xs), xs[k], JoinOffset(sep, xs, k))
  {
    forall k | 0 <= k < |xs| ensures PieceAt(Join(sep, xs), xs[k], JoinOffset(sep, xs, k)) {
      JoinPiece(sep, xs, k);
    }
  }

  lemma JoinSeparators(sep: string, xs: seq<string>)
    ensures forall k :: 0 <= k < |xs| - 1 ==>
      && JoinOffset(sep, xs, k + 1) == JoinOffset(sep, xs, k) + |xs[k]| + |sep|
      && PieceAt(Join(sep, xs), sep, JoinOffset(sep, xs, k) + |xs[k]|)
  {
    forall k | 0 <= k < |xs| - 1
      ensures JoinOffset(sep, xs, k + 1) == JoinOffset(sep, xs, k) + |xs[k]| + |sep|
      ensures PieceAt(Join(sep, xs), sep, JoinOffset(sep, xs, k) + |xs[k]|)
    {
      JoinSeparator(sep, xs, k);
    }
  }

  /** `p` occurs in `s` starting at `i`. */
  predicate PieceAt(s: string, p: string, i: int) {
    0 <= i <= i + |p| <= |s| && s[i..i + |p|] == p
  }

  lemma {:induction false} JoinLength(sep: string, xs: seq<string>)
    requires |xs| > 0
    ensures |Join(sep, xs)| == JoinOffset(sep, xs, |xs| - 1) + |xs[|xs| - 1]|
  {
    if |xs| > 1 {
      var tail := xs[1..];
      JoinLength(sep, tail);
      assert Join(sep, xs) == xs[0] + sep + Join(sep, tail);
      assert JoinOffset(sep, xs, |xs| - 1) == |xs[0]| + |sep| + JoinOffset(sep, tail, |tail| - 1);
      assert xs[|xs| - 1] == tail[|tail| - 1];
    }
  }

  lemma {:induction false} JoinPiece(sep: string, xs: seq<string>, k: nat)
    requires k < |xs|
    ensures PieceAt(Join(sep, xs), xs[k], JoinOffset(sep, xs, k))
  {
    if |xs| > 1 {
      var head, rest := xs[0] + sep, Join(sep, xs[1..]);
      assert Join(sep, xs) == head + rest;
      if k > 0 {
        JoinPiece(sep, xs[1..], k - 1);
        var a := JoinOffset(sep, xs[1..], k - 1);
        ShiftedSlice(head, rest, a, a + |xs[k]|);
      }
    }
  }

  lemma {:induction false} JoinSeparator(sep: string, xs: seq<string>, k: nat)
    requires k + 1 < |xs|
    ensures JoinOffset(sep, xs, k + 1) == JoinOffset(sep, xs, k) + |xs[k]| + |sep|
    ensures PieceAt(Join(sep, xs), sep, JoinOffset(sep, xs, k) + |xs[k]|)
  {
    var head, rest := xs[0] + sep, Join(sep, xs[1..]);
    assert Join(sep, xs) == head + rest;
    if k > 0 {
      JoinSeparator(sep, xs[1..], k - 1);
      var a := JoinOffset(sep, xs[1..], k - 1) + |xs[k]|;
      ShiftedSlice(head, rest, a, a + |sep|);
    }
  }

  lemma ShiftedSlice(p: string, q: string, a: int, b: int)
    requires 0 <= a <= b <= |q|
    ensures (p + q)[|p| + a..|p| + b] == q[a..b]
  {
  }

  /** `s.split(c)` for a one-character separator: the pieces between occurrences of `c`,
      empty pieces included, so there is always at least one piece. The pipeline itself never
      splits on one character; `Split` is here to state what `Join` preserves. */
  function Split(s: string, c: char): (pieces: seq<string>)
    ensures |pieces| > 0
    ensures forall k :: 0 <= k < |pieces| ==> c !in pieces[k]
  {
    if s == [] then [""]
    else
      var rest := Split(s[1..], c);
      if s[0] == c then [""] + rest
      else [[s[0]] + rest[0]] + rest[1..]
  }

  /** Joining the pieces of a split with the separator restores the string. */
  lemma {:induction false} JoinSplit(s: string, c: char)
    ensures Join([c], Split(s, c)) == s
  {
    if s != [] {
      var rest := Split(s[1..], c);
      JoinSplit(s[1..], c);
      if s[0] == c {
        assert Join([c], [""] + rest) == "" + [c] + Join([c], rest);
      } else {
        var pieces := [[s[0]] + rest[0]] + rest[1..];
        if |rest| == 1 {
          assert Join([c], pieces) == [s[0]] + rest[0];
        } else {
          assert pieces[1..] == rest[1..];
          assert Join([c], rest) == rest[0] + [c] + Join([c], rest[1..]);
        }
      }
    }
  }

  /** Splitting a join of separator-free pieces gives the pieces back. */
  lemma {:induction false} SplitJoin(xs: seq<string>, c: char)
    requires |xs| > 0
    requires forall k :: 0 <= k < |xs| ==> c !in xs[k]
    ensures Split(Join([c], xs), c) == xs
  {
    if |xs| == 1 {
      SplitNoSeparator(xs[0], c);
    } else {
      SplitJoin(xs[1..], c);
      SplitConcat(xs[0], Join([c], xs[1..]), c);
      assert xs == [xs[0]] + xs[1..];
    }
  }

  lemma {:induction false} SplitNoSeparator(s: string, c: char)
    requires c !in s
    ensures Split(s, c) == [s]
  {
    if s != [] {
      SplitNoSeparator(s[1..], c);
      assert s == [s[0]] + s[1..];
    }
  }

  /** Splitting `a + [c] + b` when `a` has no separator puts `a` in front of the pieces of `b`. */
  lemma {:induction false} SplitConcat(a: string, b: string, c: char)
    requires c !in a
    ensures Split(a + [c] + b, c) == [a] + Split(b, c)
  {
    if a == [] {
      assert a + [c] + b == [c] + b;
      assert ([c] + b)[1..] == b;
    } else {
      SplitConcat(a[1..], b, c);
      assert (a + [c] + b)[1..] == a[1..] + [c] + b;
      assert [a[0]] + a[1..] == a;
    }
  }

  /** Whether appending `c` to `s` starts a new word. */
  predicate StartsWord(s: string, c: char) {
    !IsSpace(c) && (s == [] || IsSpace(s[|s| - 1]))
  }

  /** `len(s.split())`: the number of maximal runs of non-whitespace characters. */
  function WordCount(s: string): (n: nat)
    ensures n == 0 <==> AllSpace(s)
  {
    if s == [] then 0
    else
      var init := s[..|s| - 1];
      var last := s[|s| - 1];
      assert AllSpace(s) <==> AllSpace(init) && IsSpace(last) by {
        assert s == init + [last];
      }
      WordCount(init) + (if StartsWord(init, last) then 1 else 0)
  }

  /** A single space between two strings never merges or splits their words. */
  lemma WordCountSpaced(a: string, b: string)
    ensures WordCount(a + " " + b) == WordCount(a) + WordCount(b)
  {
    WordCountSnoc(a, ' ');
    WordCountAfterSpace(a + " ", b);
  }

  /** Words never straddle a whitespace character, so counting splits there. */
  lemma {:induction false} WordCountAfterSpace(x: string, y: string)
    requires x != [] && IsSpace(x[|x| - 1])
    ensures WordCount(x + y) == WordCount(x) + WordCount(y)
  {
    if y == [] {
      assert x + y == x;
    } else {
      var init, c := y[..|y| - 1], y[|y| - 1];
      WordCountAfterSpace(x, init);
      assert x + y == (x + init) + [c];
      assert y == init + [c];
      WordCountSnoc(x + init, c);
      WordCountSnoc(init, c);
      StartsAfterSpace(x, init, c);
    }
  }

  lemma StartsAfterSpace(x: string, init: string, c: char)
    requires x != [] && IsSpace(x[|x| - 1])
    ensures StartsWord(x + init, c) == StartsWord(init, c)
  {
    assert (x + init)[|x + init| - 1] == if init == [] then x[|x| - 1] else init[|init| - 1];
  }

  /** One more character starts a new word exactly when it is not whitespace and follows whitespace or nothing. */
  lemma WordCountSnoc(s: string, c: char)
    ensures WordCount(s + [c]) == WordCount(s) + (if StartsWord(s, c) then 1 else 0)
  {
    assert (s + [c])[..|s|] == s;
  }

  predicate IsDigit(c: char) {
    '0' <= c <= '9'
  }

  /** `str(n)` for a natural number: its decimal digits, most significant first, no leading zeros. */
  function NatToString(n: nat): (r: string)
    ensures |r| > 0
    ensures forall k :: 0 <= k < |r| ==> IsDigit(r[k])
    ensures n < 10 <==> |r| == 1
  {
    if n < 10 then [('0' as int + n) as char]
    else NatToString(n / 10) + [('0' as int + n % 10) as char]
  }

  /** Different numbers have different decimal renderings. */
  lemma {:induction false} NatToStringInjective(a: nat, b: nat)
    requires NatToString(a) == NatToString(b)
    ensures a == b
  {
    var ra, rb := NatToString(a), NatToString(b);
    assert ra[|ra| - 1] == rb[|rb| - 1];
    if a >= 10 && b >= 10 {
      assert NatToString(a / 10) == ra[..|ra| - 1] == rb[..|rb| - 1] == NatToString(b / 10);
      NatToStringInjective(a / 10, b / 10);
    }
  }
}
