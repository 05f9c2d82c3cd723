/** The few operations of Python's `str` that the stub generator relies on,
    written out over `seq<char>`: `rstrip()`, `replace(old, new)`,
    `replace(old, new, 1)`, `sep.join(lines)` and the `in` operator. */
module Strings {

  /** Python's `str.isspace()` for one character: the characters `rstrip()`
      removes when it is called without an argument. */
  predicate IsSpace(c: char) {
    var n := c as int;
    n == 0x20 || 0x09 <= n <= 0x0D || 0x1C <= n <= 0x1F || n == 0x85 || n == 0xA0 ||
    n == 0x1680 || 0x2000 <= n <= 0x200A || n == 0x2028 || n == 0x2029 ||
    n == 0x202F || n == 0x205F || n == 0x3000
  }

  /** `s.rstrip()`: trailing whitespace removed. */
  function RStrip(s: string): string {
    if s == [] then []
    else if IsSpace(s[|s| - 1]) then RStrip(s[..|s| - 1])
    else s
  }

  /** `s.rstrip()` is the longest prefix of `s` that does not end in
      whitespace: a prefix, not ending in whitespace, and everything cut off
      is whitespace. */
  lemma {:induction false} RStripSpec(s: string)
    ensures var r := RStrip(s);
      |r| <= |s| && r == s[..|r|] &&
      (r == [] || !IsSpace(r[|r| - 1])) &&
      forall i :: |r| <= i < |s| ==> IsSpace(s[i])
    decreases |s|
  {
    if s != [] && IsSpace(s[|s| - 1]) {
      RStripSpec(s[..|s| - 1]);
    }
  }

  /** `sub` occurs in `s` starting at index `i`. */
  predicate OccursAt(s: string, sub: string, i: nat) {
    i + |sub| <= |s| && s[i..i + |sub|] == sub
  }

  /** `sub in s` */
  predicate Contains(s: string, sub: string) {
    exists i: nat | i <= |s| :: OccursAt(s, sub, i)
  }

  /** `s.replace(pat, rep)`: every occurrence of `pat`, found left to right
      without overlap, is replaced by `rep`. */
  function ReplaceAll(s: string, pat: string, rep: string): string
    requires |pat| > 0
    decreases |s|
  {
    if |s| < |pat| then s
    else if s[..|pat|] == pat then rep + ReplaceAll(s[|pat|..], pat, rep)
    else [s[0]] + ReplaceAll(s[1..], pat, rep)
  }

  /** `s.replace(pat, rep, 1)`: only the first occurrence is replaced. */
  function ReplaceFirst(s: string, pat: string, rep: string): string
    requires |pat| > 0
    decreases |s|
  {
    if |s| < |pat| then s
    else if s[..|pat|] == pat then rep + s[|pat|..]
    else [s[0]] + ReplaceFirst(s[1..], pat, rep)
  }

  /** `sep.join(lines)` */
  function Join(sep: string, lines: seq<string>): string {
    if lines == [] then ""
    else if |lines| == 1 then lines[0]
    else lines[0] + sep + Join(sep, lines[1..])
  }

  /** An occurrence in the tail of `s` is an occurrence in `s`, one place later. */
  lemma OccursAtShift(s: string, sub: string, j: nat)
    requires s != []
    ensures OccursAt(s[1..], sub, j) <==> OccursAt(s, sub, j + 1)
  {
    if j + 1 + |sub| <= |s| {
      assert s[1..][j..j + |sub|] == s[j + 1..j + 1 + |sub|];
    }
  }

  /** `ReplaceFirst` replaces the first occurrence, at index `i`, and keeps
      everything around it. */
  lemma {:induction false} ReplaceFirstAt(s: string, pat: string, rep: string, i: nat)
    requires |pat| > 0 && OccursAt(s, pat, i)
    requires forall j: nat :: j < i ==> !OccursAt(s, pat, j)
    ensures ReplaceFirst(s, pat, rep) == s[..i] + rep + s[i + |pat|..]
    decreases i
  {
    if i == 0 {
      assert s[..|pat|] == pat;
    } else {
      var t := s[1..];
      forall j: nat | j < i - 1 ensures !OccursAt(t, pat, j) {
        OccursAtShift(s, pat, j);
      }
      OccursAtShift(s, pat, i - 1);
      ReplaceFirstAt(t, pat, rep, i - 1);
      ReplaceFirstPast(s, pat, rep, i);
    }
  }

  /** The step of `ReplaceFirstAt`: when `s` does not start with `pat`, the
      first character is kept and the replacement in the rest is shifted
      by one. */
  lemma ReplaceFirstPast(s: string, pat: string, rep: string, i: nat)
    requires |pat| > 0 && 0 < i && OccursAt(s, pat, i) && !OccursAt(s, pat, 0)
    requires ReplaceFirst(s[1..], pat, rep) == s[1..][..i - 1] + rep + s[1..][i - 1 + |pat|..]
    ensures ReplaceFirst(s, pat, rep) == s[..i] + rep + s[i + |pat|..]
  {
    var x, y := s[1..i], s[i + |pat|..];
    assert ReplaceFirst(s[1..], pat, rep) == x + rep + y by {
      assert s[1..][..i - 1] == x && s[1..][i - 1 + |pat|..] == y;
    }
    assert ReplaceFirst(s, pat, rep) == [s[0]] + ReplaceFirst(s[1..], pat, rep) by {
      assert |s| >= |pat| && s[0..|pat|] == s[..|pat|];
    }
    assert [s[0]] + (x + rep + y) == ([s[0]] + x) + rep + y;
    assert [s[0]] + x == s[..i];
  }

  /** Without an occurrence of `pat`, both replacements leave `s` as it is. */
  lemma {:induction false} ReplaceAbsent(s: string, pat: string, rep: string)
    requires |pat| > 0 && !Contains(s, pat)
    ensures ReplaceAll(s, pat, rep) == s && ReplaceFirst(s, pat, rep) == s
    decreases |s|
  {
    if |s| >= |pat| {
      assert !OccursAt(s, pat, 0);
      assert !Contains(s[1..], pat) by {
        if Contains(s[1..], pat) {
          var i: nat :| i <= |s[1..]| && OccursAt(s[1..], pat, i);
          OccursAtShift(s, pat, i);
        }
      }
      ReplaceAbsent(s[1..], pat, rep);
    }
  }

  /** A string without `c` is left as it is by replacing `c`. */
  lemma {:induction false} ReplaceCharAbsent(s: string, c: char, w: string)
    requires c !in s
    ensures ReplaceAll(s, [c], w) == s
    decreases |s|
  {
    if s != [] {
      assert s[0] != c && s[0] in s;
      assert s[..1] != [c];
      ReplaceCharAbsent(s[1..], c, w);
    }
  }

  /** The one-character string `c` becomes `w`. */
  lemma ReplaceCharSelf(c: char, w: string)
    ensures ReplaceAll([c], [c], w) == w
  {
    assert [c][..1] == [c];
    assert ReplaceAll([c][1..], [c], w) == [];
  }

  /** Replacing a single character works piece by piece: the replacement of a
      concatenation is the concatenation of the replacements. */
  lemma {:induction false} ReplaceCharDistributes(a: string, b: string, c: char, w: string)
    ensures ReplaceAll(a + b, [c], w) == ReplaceAll(a, [c], w) + ReplaceAll(b, [c], w)
    decreases |a|
  {
    if a == [] {
      assert a + b == b;
    } else {
      assert (a + b)[1..] == a[1..] + b;
      assert (a + b)[..1] == a[..1];
      ReplaceCharDistributes(a[1..], b, c, w);
    }
  }

  /** Escaping a character `c` as `c + w` and unescaping `c + w` back to `c`
      gives back the original string. */
  lemma {:induction false} EscapeRoundTrip(s: string, c: char, w: string)
    ensures ReplaceAll(ReplaceAll(s, [c], [c] + w), [c] + w, [c]) == s
    decreases |s|
  {
    if s != [] {
      var tail := ReplaceAll(s[1..], [c], [c] + w);
      EscapeRoundTrip(s[1..], c, w);
      if s[0] == c {
        assert s[..1] == [c];
        var e := [c] + w + tail;
        assert ReplaceAll(s, [c], [c] + w) == e;
        assert e[..|[c] + w|] == [c] + w;
        assert e[|[c] + w|..] == tail;
      } else {
        assert s[..1] != [c];
        var e := [s[0]] + tail;
        assert ReplaceAll(s, [c], [c] + w) == e;
        assert e[0] != c;
        if |e| >= |[c] + w| {
          assert e[..|[c] + w|][0] == e[0];
        }
        assert e[1..] == tail;
      }
    }
  }

  /** Every `c` in `r` is followed by `w`. */
  predicate EachFollowedBy(r: string, c: char, w: string) {
    forall i :: 0 <= i < |r| && r[i] == c ==> i + |w| < |r| && r[i + 1..i + 1 + |w|] == w
  }

  /** After each character `c` is replaced by `c + w`, with `c` not in `w`,
      every `c` of the result is followed by `w`. */
  lemma {:induction false} EscapedCharFollowed(s: string, c: char, w: string)
    requires c !in w
    ensures EachFollowedBy(ReplaceAll(s, [c], [c] + w), c, w)
    decreases |s|
  {
    if s != [] {
      var tail := ReplaceAll(s[1..], [c], [c] + w);
      var r := ReplaceAll(s, [c], [c] + w);
      var head := if s[0] == c then [c] + w else [s[0]];
      assert r == head + tail by {
        if s[0] == c {
          assert s[..1] == [c];
        } else {
          assert s[..1] != [c];
        }
      }
      EscapedCharFollowed(s[1..], c, w);
      FollowedConcat(head, tail, c, w);
    }
  }

  /** Putting either `c + w` or a single character other than `c` in front of
      a string in which every `c` is followed by `w` keeps that so. */
  lemma FollowedConcat(head: string, tail: string, c: char, w: string)
    requires c !in w && EachFollowedBy(tail, c, w)
    requires head == [c] + w || (|head| == 1 && head[0] != c)
    ensures EachFollowedBy(head + tail, c, w)
  {
    var r := head + tail;
    var k := |head|;
    forall i | 0 < i < k ensures r[i] != c {
      assert r[i] == w[i - 1];
    }
    forall i | 0 <= i < |r| && r[i] == c ensures i + |w| < |r| && r[i + 1..i + 1 + |w|] == w {
      if i >= k {
        assert tail[i - k] == c;
        assert i - k + |w| < |tail| && tail[i - k + 1..i - k + 1 + |w|] == w;
        SliceRight(head, tail, i + 1, i + 1 + |w|);
      } else {
        assert i == 0 && head == [c] + w;
        assert r[1..1 + |w|] == head[1..];
      }
    }
  }

  /** Replacing with text that does not hold `c` cannot introduce `c`. */
  lemma {:induction false} ReplaceKeepsCharOut(s: string, pat: string, rep: string, c: char)
    requires |pat| > 0 && c !in s && c !in rep
    ensures c !in ReplaceAll(s, pat, rep)
    decreases |s|
  {
    if |s| >= |pat| {
      if s[..|pat|] == pat {
        ReplaceKeepsCharOut(s[|pat|..], pat, rep, c);
      } else {
        ReplaceKeepsCharOut(s[1..], pat, rep, c);
      }
    }
  }

  /** Replacing every `c` by text without `c` removes `c` altogether. */
  lemma {:induction false} ReplaceCharRemovesIt(s: string, c: char, w: string)
    requires c !in w
    ensures c !in ReplaceAll(s, [c], w)
    decreases |s|
  {
    if s != [] {
      ReplaceCharRemovesIt(s[1..], c, w);
      if s[..1] != [c] {
        assert s[0] != c;
      }
    }
  }

  /** A string that ends in a non-whitespace character is its own `rstrip()`. */
  lemma RStripKeeps(s: string)
    requires s != [] && !IsSpace(s[|s| - 1])
    ensures RStrip(s) == s
  {
  }

  /** Joining keeps the first line in front. */
  lemma JoinCons(sep: string, x: string, rest: seq<string>)
    requires rest != []
    ensures Join(sep, [x] + rest) == x + sep + Join(sep, rest)
  {
    assert ([x] + rest)[1..] == rest;
  }

  /** Joining keeps the last line at the end. */
  lemma {:induction false} JoinSnoc(sep: string, rest: seq<string>, x: string)
    requires rest != []
    ensures Join(sep, rest + [x]) == Join(sep, rest) + sep + x
    decreases |rest|
  {
    if |rest| == 1 {
      assert rest + [x] == [rest[0], x];
    } else {
      assert (rest + [x])[1..] == rest[1..] + [x];
      JoinSnoc(sep, rest[1..], x);
    }
  }

  /** A slice inside the left part of a concatenation. */
  lemma SliceLeft<T>(a: seq<T>, b: seq<T>, i: nat, j: nat)
    requires i <= j <= |a|
    ensures (a + b)[i..j] == a[i..j]
  {
  }

  /** A slice inside the right part of a concatenation. */
  lemma SliceRight<T>(a: seq<T>, b: seq<T>, i: nat, j: nat)
    requires |a| <= i <= j <= |a| + |b|
    ensures (a + b)[i..j] == b[i - |a|..j - |a|]
  {
  }

  /** A slice inside the middle part of a concatenation of three. */
  lemma SliceMiddle<T>(a: seq<T>, b: seq<T>, c: seq<T>, i: nat, j: nat)
    requires |a| <= i <= j <= |a| + |b|
    ensures (a + b + c)[i..j] == b[i - |a|..j - |a|]
  {
    SliceLeft(a + b, c, i, j);
    SliceRight(a, b, i, j);
  }
}
