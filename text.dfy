/** String primitives that bot.py takes from Python's `str`: `lower()`, `strip()`,
    the `in` substring test and `join`. */
module Text {

  /** Python's `str.isspace()` for one code point: the characters `strip()` removes. */
  predicate IsSpace(c: char) {
    || ('\t' <= c <= '\r')
    || ('\U{1C}' <= c <= '\U{1F}')
    || c == ' ' || c == '\U{85}' || c == '\U{A0}' || c == '\U{1680}'
    || ('\U{2000}' <= c <= '\U{200A}')
    || c == '\U{2028}' || c == '\U{2029}' || c == '\U{202F}' || c == '\U{205F}' || c == '\U{3000}'
  }

  predicate AllSpace(s: string) {
    forall k :: 0 <= k < |s| ==> IsSpace(s[k])
  }

  /** A string with no surrounding whitespace, i.e. one that `strip()` leaves alone. */
  predicate Trimmed(s: string) {
    s == [] || (!IsSpace(s[0]) && !IsSpace(s[|s| - 1]))
  }

  /** ASCII case folding (see README for how this relates to Unicode `lower()`). */
  function LowerChar(c: char): (d: char)
    ensures !('A' <= d <= 'Z')
    ensures !('A' <= c <= 'Z') ==> d == c
    ensures 'A' <= c <= 'Z' ==> 'a' <= d <= 'z' && d as int - c as int == 'a' as int - 'A' as int
  {
    if 'A' <= c <= 'Z' then (c as int - 'A' as int + 'a' as int) as char else c
  }

  function Lower(s: string): (r: string)
    ensures |r| == |s|
    ensures forall k :: 0 <= k < |s| ==> r[k] == LowerChar(s[k])
  {
    seq(|s|, k requires 0 <= k < |s| => LowerChar(s[k]))
  }

  /** `w` occurs in `s` starting at index `i`. */
  predicate OccursAt(s: string, w: string, i: int) {
    0 <= i && i + |w| <= |s| && s[i..i + |w|] == w
  }

  /** Python's `w in s` for strings. */
  predicate Contains(s: string, w: string) {
    exists i | 0 <= i <= |s| - |w| :: OccursAt(s, w, i)
  }

  lemma ContainsMiddle(a: string, w: string, b: string)
    ensures Contains(a + w + b, w)
  {
    assert OccursAt(a + w + b, w, |a|);
  }

  /** A substring of a string that avoids `w` avoids `w` too. */
  lemma ContainsSlice(s: string, i: int, j: int, w: string)
    requires 0 <= i <= j <= |s|
    requires Contains(s[i..j], w)
    ensures Contains(s, w)
  {
    var k :| 0 <= k <= j - i - |w| && OccursAt(s[i..j], w, k);
    var inner, outer := s[i..j][k..k + |w|], s[i + k..i + k + |w|];
    forall m | 0 <= m < |w| ensures inner[m] == outer[m] {
      assert inner[m] == s[i + k + m];
    }
    assert inner == outer;
    assert OccursAt(s, w, i + k);
  }

  /** A substring of a substring is a substring. */
  lemma ContainsTransitive(w: string, v: string, s: string)
    requires Contains(w, v) && Contains(s, w)
    ensures Contains(s, v)
  {
    var j :| 0 <= j <= |s| - |w| && OccursAt(s, w, j);
    ContainsSlice(s, j, j + |w|, v);
  }

  function TrimLeft(s: string): (r: string)
    ensures |r| <= |s| && r == s[|s| - |r|..]
    ensures r == [] || !IsSpace(r[0])
  {
    if |s| > 0 && IsSpace(s[0]) then TrimLeft(s[1..]) else s
  }

  /** What `TrimLeft` cuts off is whitespace. */
  lemma {:induction false} TrimLeftCut(s: string)
    ensures AllSpace(s[..|s| - |TrimLeft(s)|])
    decreases |s|
  {
    if |s| > 0 && IsSpace(s[0]) {
      TrimLeftCut(s[1..]);
      var cut, rest := s[..|s| - |TrimLeft(s)|], s[1..][..|s| - 1 - |TrimLeft(s)|];
      forall k | 0 <= k < |cut| ensures IsSpace(cut[k]) {
        if k > 0 {
          assert cut[k] == rest[k - 1];
        }
      }
    }
  }

  function TrimRight(s: string): (r: string)
    ensures |r| <= |s| && r == s[..|r|]
    ensures r == [] || !IsSpace(r[|r| - 1])
  {
    if |s| > 0 && IsSpace(s[|s| - 1]) then TrimRight(s[..|s| - 1]) else s
  }

  /** What `TrimRight` cuts off is whitespace. */
  lemma {:induction false} TrimRightCut(s: string)
    ensures AllSpace(s[|TrimRight(s)|..])
    decreases |s|
  {
    if |s| > 0 && IsSpace(s[|s| - 1]) {
      var p := s[..|s| - 1];
      TrimRightCut(p);
      var n := |TrimRight(s)|;
      forall k | 0 <= k < |s| - n ensures IsSpace(s[n..][k]) {
        if n + k < |s| - 1 {
          assert s[n..][k] == p[n..][k];
        }
      }
    }
  }

  /** Python's `s.strip()`. */
  function Strip(s: string): (r: string)
    ensures Trimmed(r) && |r| <= |s|
  {
    TrimRight(TrimLeft(s))
  }

  /** What `strip()` returns is `s` with some whitespace cut from each end. */
  lemma StripSlice(s: string) returns (i: nat, j: nat)
    ensures i <= j <= |s| && Strip(s) == s[i..j]
    ensures AllSpace(s[..i]) && AllSpace(s[j..])
  {
    var l := TrimLeft(s);
    var r := TrimRight(l);
    TrimLeftCut(s);
    TrimRightCut(l);
    i, j := |s| - |l|, |s| - |l| + |r|;
    assert r == s[i..j];
    assert s[j..] == l[|r|..];
  }

  /** Stripping changes nothing exactly when the string is already trimmed. */
  lemma StripIdentity(s: string)
    ensures Strip(s) == s <==> Trimmed(s)
  {
    if Trimmed(s) {
      if s != [] {
        assert TrimLeft(s) == s;
        assert TrimRight(s) == s;
      }
    }
  }

  /** Whatever `strip()` returns lies inside its argument. */
  lemma StripInside(s: string, w: string)
    requires Contains(Strip(s), w)
    ensures Contains(s, w)
  {
    var i, j := StripSlice(s);
    ContainsSlice(s, i, j, w);
  }

  /** Stripping a string that avoids `w` gives a string that avoids `w`. */
  lemma StripAvoids(s: string, w: string)
    requires !Contains(s, w)
    ensures !Contains(Strip(s), w)
  {
    if Contains(Strip(s), w) {
      StripInside(s, w);
    }
  }

  lemma {:induction false} TrimLeftPadded(pre: string, s: string)
    requires AllSpace(pre)
    requires s == [] || !IsSpace(s[0])
    ensures TrimLeft(pre + s) == s
    decreases |pre|
  {
    if pre != [] {
      assert (pre + s)[1..] == pre[1..] + s;
      TrimLeftPadded(pre[1..], s);
    } else {
      assert pre + s == s;
    }
  }

  lemma {:induction false} TrimRightPadded(s: string, post: string)
    requires AllSpace(post)
    requires s == [] || !IsSpace(s[|s| - 1])
    ensures TrimRight(s + post) == s
    decreases |post|
  {
    if post != [] {
      var p := post[..|post| - 1];
      assert (s + post)[..|s + post| - 1] == s + p;
      TrimRightPadded(s, p);
    } else {
      assert s + post == s;
    }
  }

  /** `strip()` removes exactly the surrounding whitespace: a trimmed non-empty core
      padded with whitespace on both sides strips to that core. */
  lemma StripPadded(s: string, pre: string, core: string, post: string)
    requires s == pre + core + post
    requires AllSpace(pre) && AllSpace(post)
    requires core != [] && Trimmed(core)
    ensures Strip(s) == core
  {
    assert pre + core + post == pre + (core + post);
    TrimLeftPadded(pre, core + post);
    TrimRightPadded(core, post);
  }

  /** A blank string strips to the empty string. */
  lemma StripBlank(s: string)
    requires AllSpace(s)
    ensures Strip(s) == ""
  {
    TrimLeftPadded(s, "");
    assert s + "" == s;
  }

  /** Python's `sep.join(parts)`. */
  function Join(parts: seq<string>, sep: string): (r: string)
    decreases |parts|
  {
    if |parts| == 0 then ""
    else if |parts| == 1 then parts[0]
    else parts[0] + sep + Join(parts[1..], sep)
  }

  predicate StartsWith(s: string, t: string) {
    |t| <= |s| && s[..|t|] == t
  }

  predicate EndsWith(s: string, t: string) {
    |t| <= |s| && s[|s| - |t|..] == t
  }

  /** The pieces of an f-string or of a chain of `+`, concatenated left to right. */
  function Concat(pieces: seq<string>): string
    decreases |pieces|
  {
    if pieces == [] then "" else Concat(pieces[..|pieces| - 1]) + pieces[|pieces| - 1]
  }

  lemma {:induction false} ConcatAppend(a: seq<string>, b: seq<string>)
    ensures Concat(a + b) == Concat(a) + Concat(b)
    decreases |b|
  {
    if b == [] {
      assert a + b == a;
    } else {
      var b', x := b[..|b| - 1], b[|b| - 1];
      var ab := a + b;
      assert ab[..|ab| - 1] == a + b' && ab[|ab| - 1] == x;
      ConcatAppend(a, b');
      calc {
        Concat(ab);
        Concat(a + b') + x;
        (Concat(a) + Concat(b')) + x;
        Concat(a) + (Concat(b') + x);
      }
    }
  }

  lemma ConcatOne(p: string)
    ensures Concat([p]) == p
  {
    assert [p][..0] == [];
    assert Concat([p]) == "" + p;
  }

  /** Cutting the pieces anywhere cuts the concatenation there. */
  lemma ConcatSplit(pieces: seq<string>, k: nat)
    requires k <= |pieces|
    ensures Concat(pieces) == Concat(pieces[..k]) + Concat(pieces[k..])
  {
    assert pieces == pieces[..k] + pieces[k..];
    ConcatAppend(pieces[..k], pieces[k..]);
  }

  /** Every piece occurs in the concatenation. */
  lemma ConcatHas(pieces: seq<string>, k: nat)
    requires k < |pieces|
    ensures Contains(Concat(pieces), pieces[k])
  {
    var a, x, b := pieces[..k], pieces[k], pieces[k + 1..];
    var ax := a + [x];
    assert pieces == ax + b;
    ConcatAppend(ax, b);
    assert ax[..|ax| - 1] == a && ax[|ax| - 1] == x;
    assert Concat(ax) == Concat(a) + x;
    ContainsMiddle(Concat(a), x, Concat(b));
  }

  /** The concatenation starts with the first `k` pieces and ends with the rest. */
  lemma ConcatEnds(pieces: seq<string>, k: nat)
    requires k <= |pieces|
    ensures StartsWith(Concat(pieces), Concat(pieces[..k]))
    ensures EndsWith(Concat(pieces), Concat(pieces[k..]))
  {
    ConcatSplit(pieces, k);
  }
}
