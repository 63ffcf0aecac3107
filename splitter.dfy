/** The response splitter of bot.py: `[m.strip() for m in reply.split('|||') if m.strip()]`. */
module Splitter {
  import opened Text

  const Delimiter: string := "|||"

  /** Python's `s.split('|||')`: the pieces between the leftmost non-overlapping
      occurrences of the delimiter. There is always at least one piece, and the first
      one is a prefix of `s`. */
  function SplitSep(s: string): (parts: seq<string>)
    ensures |parts| >= 1
    ensures |parts[0]| <= |s| && parts[0] == s[..|parts[0]|]
    decreases |s|
  {
    if |s| < 3 then [s]
    else if s[..3] == Delimiter then [""] + SplitSep(s[3..])
    else
      var r := SplitSep(s[1..]);
      [[s[0]] + r[0]] + r[1..]
  }

  /** What one piece contributes: its stripped text, unless that is empty. */
  function Kept(p: string): (r: seq<string>)
    ensures |r| <= 1
  {
    if Strip(p) == "" then [] else [Strip(p)]
  }

  /** `strip()` every piece and keep the ones that are not empty, left to right. */
  function Chunks(parts: seq<string>): seq<string>
    decreases |parts|
  {
    if parts == [] then [] else Kept(parts[0]) + Chunks(parts[1..])
  }

  /** The messages the bot sends for one model reply. */
  function Split(raw: string): seq<string> {
    Chunks(SplitSep(raw))
  }

  /** No piece of a split contains the delimiter. */
  lemma {:induction false} PiecesAvoidDelimiter(s: string)
    ensures forall k :: 0 <= k < |SplitSep(s)| ==> !Contains(SplitSep(s)[k], Delimiter)
    decreases |s|
  {
    if |s| < 3 {
    } else if s[..3] == Delimiter {
      PiecesAvoidDelimiter(s[3..]);
      assert !Contains("", Delimiter);
    } else {
      var r := SplitSep(s[1..]);
      PiecesAvoidDelimiter(s[1..]);
      var h := [s[0]] + r[0];
      forall i | 0 <= i <= |h| - 3 ensures !OccursAt(h, Delimiter, i) {
        if i == 0 {
          assert h[..3] == s[..3];
        } else {
          assert h[i..i + 3] == r[0][i - 1..i + 2];
          assert !OccursAt(r[0], Delimiter, i - 1);
        }
      }
      assert SplitSep(s)[1..] == r[1..];
    }
  }

  lemma JoinCons(a: string, r: seq<string>, sep: string)
    requires |r| >= 1
    ensures Join([a + r[0]] + r[1..], sep) == a + Join(r, sep)
  {
    var p := [a + r[0]] + r[1..];
    assert p[1..] == r[1..];
  }

  /** Joining the pieces back with the delimiter gives the original text. */
  lemma {:induction false} JoinSplitSep(s: string)
    ensures Join(SplitSep(s), Delimiter) == s
    decreases |s|
  {
    if |s| < 3 {
    } else if s[..3] == Delimiter {
      var r := SplitSep(s[3..]);
      JoinSplitSep(s[3..]);
      var p := [""] + r;
      assert SplitSep(s) == p;
      assert |p| >= 2 && p[0] == "" && p[1..] == r;
      assert Join(p, Delimiter) == "" + Delimiter + Join(r, Delimiter);
      assert s == s[..3] + s[3..];
    } else {
      JoinSplitSep(s[1..]);
      JoinCons([s[0]], SplitSep(s[1..]), Delimiter);
      assert s == [s[0]] + s[1..];
    }
  }

  /** A piece that does not end in a bar. */
  predicate OpenEnded(p: string) {
    p == "" || p[|p| - 1] != '|'
  }

  /** The cuts fall at the leftmost delimiters: no piece that a delimiter follows ends in a
      bar, since otherwise the delimiter would have started one character earlier. With
      `JoinSplitSep` and `PiecesAvoidDelimiter` this pins the pieces down to those of
      Python's `split`; for "||||" it rules out ["|", ""] and leaves ["", "|"]. */
  lemma {:induction false} SplitSepLeftmost(s: string)
    ensures forall k :: 0 <= k < |SplitSep(s)| - 1 ==> OpenEnded(SplitSep(s)[k])
    decreases |s|
  {
    if |s| < 3 {
    } else if s[..3] == Delimiter {
      SplitSepLeftmost(s[3..]);
      var r := SplitSep(s[3..]);
      assert SplitSep(s) == [""] + r;
      forall k | 0 <= k < |[""] + r| - 1 ensures OpenEnded(([""] + r)[k]) {
        if k > 0 {
          assert ([""] + r)[k] == r[k - 1];
        }
      }
    } else {
      var t := s[1..];
      var r := SplitSep(t);
      SplitSepLeftmost(t);
      var h := [s[0]] + r[0];
      var parts := [h] + r[1..];
      assert SplitSep(s) == parts;
      if |r| >= 2 {
        if r[0] == "" {
          JoinSplitSep(t);
          assert r == [r[0]] + r[1..];
          assert Join(r, Delimiter) == "" + Delimiter + Join(r[1..], Delimiter);
          assert t[..3] == Delimiter;
          assert s[..3] == [s[0]] + t[..2];
          assert s[0] != '|';
        } else {
          assert h[|h| - 1] == r[0][|r[0]| - 1];
        }
      }
      forall k | 0 <= k < |parts| - 1 ensures OpenEnded(parts[k]) {
        if k > 0 {
          assert parts[k] == r[k];
        }
      }
    }
  }

  /** The example above: "||||" splits into "" and "|". */
  lemma SplitSepFourBars(s: string)
    requires s == "||||"
    ensures SplitSep(s) == ["", "|"]
  {
    assert s[..3] == Delimiter && s[3..] == "|";
    assert SplitSep("|") == ["|"];
  }

  /** A text without the delimiter is one piece. */
  lemma {:induction false} SplitSepWhole(s: string)
    requires !Contains(s, Delimiter)
    ensures SplitSep(s) == [s]
    decreases |s|
  {
    if |s| >= 3 {
      assert !OccursAt(s, Delimiter, 0);
      if Contains(s[1..], Delimiter) {
        assert s[1..|s|] == s[1..];
        ContainsSlice(s, 1, |s|, Delimiter);
      }
      SplitSepWhole(s[1..]);
      assert [s[0]] + s[1..] == s;
    }
  }

  /** A piece free of `|` followed by the delimiter splits off as exactly that piece. */
  lemma {:induction false} SplitSepAfter(a: string, rest: string)
    requires '|' !in a
    ensures SplitSep(a + Delimiter + rest) == [a] + SplitSep(rest)
    decreases |a|
  {
    var s := a + Delimiter + rest;
    if a == [] {
      assert s[..3] == Delimiter && s[3..] == rest;
    } else {
      assert s[0] == a[0] && s[0] != '|';
      assert s[1..] == a[1..] + Delimiter + rest;
      SplitSepAfter(a[1..], rest);
      assert [a[0]] + a[1..] == a;
    }
  }

  predicate NoBar(p: string) {
    '|' !in p
  }

  lemma NoBarAvoidsDelimiter(p: string)
    requires NoBar(p)
    ensures !Contains(p, Delimiter)
  {
    forall i | 0 <= i <= |p| - 3 ensures !OccursAt(p, Delimiter, i) {
      assert p[i] in p;
    }
  }

  /** Splitting the delimiter-join of pieces free of `|` gives the pieces back. */
  lemma {:induction false} SplitSepJoin(parts: seq<string>)
    requires |parts| >= 1
    requires forall k :: 0 <= k < |parts| ==> NoBar(parts[k])
    ensures SplitSep(Join(parts, Delimiter)) == parts
    decreases |parts|
  {
    if |parts| == 1 {
      NoBarAvoidsDelimiter(parts[0]);
      SplitSepWhole(parts[0]);
    } else {
      SplitSepJoin(parts[1..]);
      SplitSepAfter(parts[0], Join(parts[1..], Delimiter));
      assert [parts[0]] + parts[1..] == parts;
    }
  }

  /** Chunking respects order: the chunks of a concatenation are the chunks of its parts. */
  lemma {:induction false} ChunksAppend(a: seq<string>, b: seq<string>)
    ensures Chunks(a + b) == Chunks(a) + Chunks(b)
    decreases |a|
  {
    if |a| == 0 {
      assert a + b == b;
      assert Chunks(a) == [];
    } else {
      ChunksStep(a, b);
      ChunksAppend(a[1..], b);
      AppendAssoc(Kept(a[0]), Chunks(a[1..]), Chunks(b));
    }
  }

  /** Concatenation of message lists is associative; kept apart so that the induction
      above does not reason about it in the presence of the unfolded definitions. */
  lemma AppendAssoc(h: seq<string>, x: seq<string>, y: seq<string>)
    ensures h + (x + y) == (h + x) + y
  {
  }

  /** One step of the induction: the first piece's messages come first, on both sides. */
  lemma ChunksStep(a: seq<string>, b: seq<string>)
    requires a != []
    ensures Chunks(a + b) == Kept(a[0]) + Chunks(a[1..] + b)
    ensures Chunks(a) == Kept(a[0]) + Chunks(a[1..])
  {
    assert (a + b)[0] == a[0] && (a + b)[1..] == a[1..] + b;
  }

  /** Pieces that are already non-empty and trimmed pass through unchanged. */
  lemma {:induction false} ChunksOfClean(parts: seq<string>)
    requires forall k :: 0 <= k < |parts| ==> parts[k] != "" && Trimmed(parts[k])
    ensures Chunks(parts) == parts
    decreases |parts|
  {
    if parts != [] {
      StripIdentity(parts[0]);
      assert Kept(parts[0]) == [parts[0]];
      ChunksOfClean(parts[1..]);
      assert [parts[0]] + parts[1..] == parts;
    }
  }

  /** No chunk contains the delimiter. */
  lemma {:induction false} ChunksAvoidDelimiter(parts: seq<string>)
    requires forall k :: 0 <= k < |parts| ==> !Contains(parts[k], Delimiter)
    ensures forall k :: 0 <= k < |Chunks(parts)| ==> !Contains(Chunks(parts)[k], Delimiter)
    decreases |parts|
  {
    if parts != [] {
      ChunksAvoidDelimiter(parts[1..]);
      var c, rest := Strip(parts[0]), Chunks(parts[1..]);
      if c == "" {
        assert Chunks(parts) == [] + rest;
        assert [] + rest == rest;
      } else {
        assert !Contains(c, Delimiter) by {
          StripAvoids(parts[0], Delimiter);
        }
        assert Chunks(parts) == [c] + rest;
        forall k | 0 <= k < |[c] + rest| ensures !Contains(([c] + rest)[k], Delimiter) {
          if k > 0 {
            assert ([c] + rest)[k] == rest[k - 1];
          }
        }
      }
    }
  }

  /** Every chunk is non-empty and has no surrounding whitespace. */
  lemma {:induction false} ChunksClean(parts: seq<string>)
    ensures forall k :: 0 <= k < |Chunks(parts)| ==> Chunks(parts)[k] != "" && Trimmed(Chunks(parts)[k])
    decreases |parts|
  {
    if parts != [] {
      ChunksClean(parts[1..]);
      var c, rest := Strip(parts[0]), Chunks(parts[1..]);
      if c == "" {
        assert Chunks(parts) == [] + rest;
        assert [] + rest == rest;
      } else {
        assert Chunks(parts) == [c] + rest;
        forall k | 0 <= k < |[c] + rest| ensures ([c] + rest)[k] != "" && Trimmed(([c] + rest)[k]) {
          if k > 0 {
            assert ([c] + rest)[k] == rest[k - 1];
          }
        }
      }
    }
  }

  /** Every message sent is non-empty, has no surrounding whitespace and no delimiter. */
  lemma SplitChunksClean(raw: string)
    ensures forall k :: 0 <= k < |Split(raw)| ==>
      Split(raw)[k] != "" && Trimmed(Split(raw)[k]) && !Contains(Split(raw)[k], Delimiter)
  {
    PiecesAvoidDelimiter(raw);
    ChunksAvoidDelimiter(SplitSep(raw));
    ChunksClean(SplitSep(raw));
  }

  /** A reply without the delimiter is sent as one trimmed message, or not at all when it
      is blank. */
  lemma SplitWhole(raw: string)
    requires !Contains(raw, Delimiter)
    ensures Split(raw) == if Strip(raw) == "" then [] else [Strip(raw)]
  {
    SplitSepWhole(raw);
    assert [raw][1..] == [];
    assert Chunks([raw]) == Kept(raw) + Chunks([]);
  }

  /** Round trip: non-empty, trimmed segments free of `|` come back from splitting their
      delimiter-join. */
  lemma SplitJoinRoundTrip(segs: seq<string>)
    requires forall k :: 0 <= k < |segs| ==> segs[k] != "" && Trimmed(segs[k]) && NoBar(segs[k])
    ensures Split(Join(segs, Delimiter)) == segs
  {
    if segs == [] {
      assert Join(segs, Delimiter) == "";
      SplitEmpty();
    } else {
      SplitSepJoin(segs);
      ChunksOfClean(segs);
    }
  }

  /** An empty reply sends no message. */
  lemma SplitEmpty()
    ensures Split("") == []
  {
    assert SplitSep("") == [""];
    assert Kept("") == [];
    assert [""][1..] == [];
    assert Chunks([""]) == Kept("") + Chunks([]);
  }

  /** The three-piece case of chunking with a blank middle piece. */
  lemma ChunksBlankMiddle(a: string, b: string, c: string)
    requires Strip(a) != "" && Strip(b) == "" && Strip(c) != ""
    ensures Chunks([a, b, c]) == [Strip(a), Strip(c)]
  {
    assert [a, b, c][1..] == [b, c] && [b, c][1..] == [c] && [c][1..] == [];
    assert Kept(a) == [Strip(a)] && Kept(b) == [] && Kept(c) == [Strip(c)];
    calc {
      Chunks([a, b, c]);
      Kept(a) + Chunks([b, c]);
      Kept(a) + (Kept(b) + Chunks([c]));
      Kept(a) + (Kept(b) + (Kept(c) + Chunks([])));
      [Strip(a), Strip(c)];
    }
  }

  /** Blank pieces are dropped and the rest trimmed: "  hello |||  ||| world  ".
      The example lemmas are stated over parameters equal to the literals, which keeps
      the verifier from evaluating the recursive functions on the literals step by step. */
  lemma SplitExample(raw: string, a: string, b: string, c: string)
    requires raw == "  hello |||  ||| world  "
    requires a == "  hello " && b == "  " && c == " world  "
    ensures Split(raw) == ["hello", "world"]
  {
    ExamplePieces(raw, a, b, c);
    StripOuter(a, c);
    StripBlank(b);
    ChunksBlankMiddle(a, b, c);
  }

  lemma ExamplePieces(raw: string, a: string, b: string, c: string)
    requires raw == "  hello |||  ||| world  "
    requires a == "  hello " && b == "  " && c == " world  "
    ensures SplitSep(raw) == [a, b, c]
  {
    assert [a, b, c][1..] == [b, c] && [b, c][1..] == [c];
    assert Join([b, c], Delimiter) == b + Delimiter + c;
    assert Join([a, b, c], Delimiter) == a + Delimiter + (b + Delimiter + c);
    assert a + Delimiter + (b + Delimiter + c) == raw;
    SplitSepJoin([a, b, c]);
  }

  /** The outer pieces of that example lose their padding. */
  lemma StripOuter(a: string, c: string)
    requires a == "  hello " && c == " world  "
    ensures Strip(a) == "hello" && Strip(c) == "world"
  {
    assert AllSpace("  ") && AllSpace(" ") && Trimmed("hello") && Trimmed("world") by {
      assert IsSpace(' ');
    }
    StripPadded(a, "  ", "hello", " ");
    StripPadded(c, " ", "world", "  ");
  }
}
