/** The Python string operations lambda.py uses: `in` on strings,
    `str.find` for one character, slicing with Python's index rules,
    `str.split` on one separator character and `str.replace`. */
module Text {

  /** `pat in s`. */
  function Contains(s: string, pat: string): bool
    decreases |s|
  {
    pat <= s || (|s| > 0 && Contains(s[1..], pat))
  }

  /** `pat` occurs in `s` starting at offset `i`. */
  predicate OccursAt(s: string, pat: string, i: int)
  {
    0 <= i && i + |pat| <= |s| && s[i..i + |pat|] == pat
  }

  /** `pat in s` holds exactly when `pat` occurs at some offset of `s`. */
  lemma {:induction false} ContainsIffOccurs(s: string, pat: string)
    ensures Contains(s, pat) <==> exists i :: OccursAt(s, pat, i)
    decreases |s|
  {
    if pat <= s {
      assert OccursAt(s, pat, 0);
    } else if |s| > 0 {
      ContainsIffOccurs(s[1..], pat);
      if Contains(s[1..], pat) {
        var i :| OccursAt(s[1..], pat, i);
        OccursShift(s, pat, i);
      }
      if exists i :: OccursAt(s, pat, i) {
        var i :| OccursAt(s, pat, i);
        assert i != 0;
        OccursShift(s, pat, i - 1);
      }
    }
  }

  /** An occurrence in the tail of `s` is one in `s`, one place further on. */
  lemma OccursShift(s: string, pat: string, i: int)
    requires |s| > 0 && 0 <= i
    ensures OccursAt(s[1..], pat, i) <==> OccursAt(s, pat, i + 1)
  {
    if i + |pat| <= |s| - 1 {
      assert s[1..][i..i + |pat|] == s[i + 1..i + 1 + |pat|];
    }
  }

  /** An occurrence in either operand of a concatenation is one in the whole. */
  lemma ContainsInConcat(s: string, t: string, pat: string)
    requires Contains(s, pat) || Contains(t, pat)
    ensures Contains(s + t, pat)
  {
    ContainsIffOccurs(s, pat);
    ContainsIffOccurs(t, pat);
    ContainsIffOccurs(s + t, pat);
    if Contains(s, pat) {
      var i :| OccursAt(s, pat, i);
      assert (s + t)[i..i + |pat|] == s[i..i + |pat|];
      assert OccursAt(s + t, pat, i);
    } else {
      var i :| OccursAt(t, pat, i);
      assert (s + t)[|s| + i..|s| + i + |pat|] == t[i..i + |pat|];
      assert OccursAt(s + t, pat, |s| + i);
    }
  }

  /** `s.find(c)`: the index of the first `c`, or -1 when there is none. */
  function Find(s: string, c: char): (r: int)
    ensures -1 <= r < |s|
    ensures r == -1 <==> c !in s
    ensures 0 <= r ==> s[r] == c && c !in s[..r]
    decreases |s|
  {
    if |s| == 0 then -1
    else if s[0] == c then 0
    else
      var k := Find(s[1..], c);
      assert s[1..][..k + 1] == s[1..k + 2] by { if k >= 0 { assert k + 2 <= |s|; } }
      if k == -1 then -1 else k + 1
  }

  /** How Python turns a slice bound into an index of a sequence of length `n`. */
  function Clamp(k: int, n: nat): (r: nat)
    ensures r <= n
  {
    if k < 0 then (if k + n < 0 then 0 else k + n) else if k > n then n else k
  }

  /** `s[i:j]`: negative bounds count from the end, bounds are clamped to the
      string, and crossed bounds give the empty string. */
  function Slice(s: string, i: int, j: int): (r: string)
    ensures |r| <= |s|
    ensures 0 <= i <= j <= |s| ==> r == s[i..j]
    ensures 0 <= i && j < 0 && i <= |s| + j ==> r == s[i..|s| + j]
    ensures j <= i && (0 <= j || i < 0) ==> r == ""
    ensures 0 <= i && j < 0 && |s| + j < i ==> r == ""
  {
    var a, b := Clamp(i, |s|), Clamp(j, |s|);
    if a < b then s[a..b] else ""
  }

  /** `s.split(sep)` for a one-character separator: always at least one piece,
      and "" splits to `[""]`. */
  function Split(s: string, sep: char): (parts: seq<string>)
    ensures |parts| >= 1
    decreases |s|
  {
    if |s| == 0 then [""]
    else
      var rest := Split(s[1..], sep);
      if s[0] == sep then [""] + rest else [[s[0]] + rest[0]] + rest[1..]
  }

  /** `sep.join(parts)`. */
  function Join(parts: seq<string>, sep: char): string
    decreases |parts|
  {
    if |parts| == 0 then ""
    else if |parts| == 1 then parts[0]
    else parts[0] + [sep] + Join(parts[1..], sep)
  }

  /** Splitting and joining again gives the original string back. */
  lemma {:induction false} JoinSplit(s: string, sep: char)
    ensures Join(Split(s, sep), sep) == s
    decreases |s|
  {
    if |s| > 0 {
      var rest := Split(s[1..], sep);
      JoinSplit(s[1..], sep);
      if s[0] == sep {
        assert Split(s, sep) == [""] + rest;
        assert ([""] + rest)[1..] == rest;
      } else {
        var parts := Split(s, sep);
        assert parts == [[s[0]] + rest[0]] + rest[1..];
        if |rest| == 1 {
          assert s == [s[0]] + s[1..];
        } else {
          assert parts[1..] == rest[1..];
          assert Join(rest, sep) == rest[0] + [sep] + Join(rest[1..], sep);
          assert s == [s[0]] + s[1..];
        }
      }
    }
  }

  /** A separator-free string is a single piece. */
  lemma {:induction false} SplitWithoutSep(s: string, sep: char)
    requires sep !in s
    ensures Split(s, sep) == [s]
    decreases |s|
  {
    if |s| > 0 {
      SplitWithoutSep(s[1..], sep);
      assert s == [s[0]] + s[1..];
    }
  }

  /** A separator splits a string into the pieces of its two sides. */
  lemma {:induction false} SplitAtSep(a: string, b: string, sep: char)
    ensures Split(a + [sep] + b, sep) == Split(a, sep) + Split(b, sep)
    decreases |a|
  {
    if |a| == 0 {
      assert (a + [sep] + b)[1..] == b;
    } else {
      SplitAtSep(a[1..], b, sep);
      SplitAtSepStep(a[0], a[1..], b, sep);
      assert [a[0]] + a[1..] == a;
    }
  }

  /** The inductive step of `SplitAtSep`: one more character in front. */
  lemma SplitAtSepStep(c: char, a: string, b: string, sep: char)
    requires Split(a + [sep] + b, sep) == Split(a, sep) + Split(b, sep)
    ensures Split([c] + a + [sep] + b, sep) == Split([c] + a, sep) + Split(b, sep)
  {
    var t := a + [sep] + b;
    assert [c] + a + [sep] + b == [c] + t;
    SplitCons(c, t, sep);
    SplitCons(c, a, sep);
    ConsPieces(c, Split(a, sep), Split(b, sep), sep);
  }

  /** The pieces list of `[c] + s`, as built from those of `s`, distributes
      over a concatenation of piece lists. */
  lemma ConsPieces(c: char, ra: seq<string>, rb: seq<string>, sep: char)
    requires |ra| >= 1
    ensures var r := ra + rb;
      (if c == sep then [""] + r else [[c] + r[0]] + r[1..]) ==
      (if c == sep then [""] + ra else [[c] + ra[0]] + ra[1..]) + rb
  {
    if c == sep {
      assert [""] + (ra + rb) == ([""] + ra) + rb;
    } else {
      assert (ra + rb)[0] == ra[0];
      assert (ra + rb)[1..] == ra[1..] + rb;
      assert [[c] + ra[0]] + (ra[1..] + rb) == ([[c] + ra[0]] + ra[1..]) + rb;
    }
  }

  /** Splitting a string that starts with `c`. */
  lemma SplitCons(c: char, t: string, sep: char)
    ensures var rest := Split(t, sep);
      Split([c] + t, sep) == if c == sep then [""] + rest else [[c] + rest[0]] + rest[1..]
  {
    assert ([c] + t)[1..] == t;
  }

  /** An occurrence of a separator-free pattern lies inside one piece. */
  lemma {:induction false} ContainsSomePiece(s: string, pat: string, sep: char)
    requires Contains(s, pat) && sep !in pat
    ensures exists k :: 0 <= k < |Split(s, sep)| && Contains(Split(s, sep)[k], pat)
    decreases |s|
  {
    if pat <= s {
      PrefixInFirstPiece(s, pat, sep);
    } else {
      assert |s| > 0 && Contains(s[1..], pat);
      ContainsSomePiece(s[1..], pat, sep);
      var k :| 0 <= k < |Split(s[1..], sep)| && Contains(Split(s[1..], sep)[k], pat);
      assert s == [s[0]] + s[1..];
      PieceOfTail(s[0], s[1..], pat, sep, k);
    }
  }

  /** The first piece runs up to the first separator. */
  lemma {:induction false} FirstPiece(s: string, sep: char)
    ensures Split(s, sep)[0] == if sep in s then s[..Find(s, sep)] else s
    decreases |s|
  {
    if |s| > 0 && s[0] != sep {
      FirstPiece(s[1..], sep);
      SplitCons(s[0], s[1..], sep);
      assert s == [s[0]] + s[1..];
      assert sep in s <==> sep in s[1..];
      if sep in s {
        assert s[..Find(s, sep)] == [s[0]] + s[1..][..Find(s[1..], sep)];
      }
    }
  }

  /** A separator-free prefix of `s` is a prefix of its first piece. */
  lemma PrefixInFirstPiece(s: string, pat: string, sep: char)
    requires pat <= s && sep !in pat
    ensures Contains(Split(s, sep)[0], pat)
  {
    FirstPiece(s, sep);
    var first := Split(s, sep)[0];
    if sep in s {
      assert forall j :: 0 <= j < |pat| ==> s[j] == pat[j] != sep;
      assert first[..|pat|] == pat;
    }
    assert pat <= first;
  }

  /** A piece of `t` that contains `pat` gives a piece of `[c] + t` that
      does. */
  lemma PieceOfTail(c: char, t: string, pat: string, sep: char, k: nat)
    requires k < |Split(t, sep)| && Contains(Split(t, sep)[k], pat)
    ensures exists m :: 0 <= m < |Split([c] + t, sep)| && Contains(Split([c] + t, sep)[m], pat)
  {
    SplitCons(c, t, sep);
    var rest := Split(t, sep);
    var parts := Split([c] + t, sep);
    if c == sep {
      assert parts[k + 1] == rest[k];
    } else if k == 0 {
      assert parts[0] == [c] + rest[0];
      assert parts[0][1..] == rest[0];
    } else {
      assert parts[k] == rest[k];
    }
  }

  /** Each piece is a substring, so an occurrence in a piece is one in `s`. */
  lemma {:induction false} PieceContainedInWhole(s: string, pat: string, sep: char, k: nat)
    requires k < |Split(s, sep)| && Contains(Split(s, sep)[k], pat)
    ensures Contains(s, pat)
  {
    var parts := Split(s, sep);
    JoinSplit(s, sep);
    JoinHasPiece(parts, sep, k);
    var pre, post :| Join(parts, sep) == pre + parts[k] + post;
    ContainsInConcat(pre, parts[k], pat);
    ContainsInConcat(pre + parts[k], post, pat);
  }

  /** So a string without the pattern has no piece with it. */
  lemma NoPieceContains(s: string, pat: string, sep: char)
    requires !Contains(s, pat)
    ensures forall k :: 0 <= k < |Split(s, sep)| ==> !Contains(Split(s, sep)[k], pat)
  {
    forall k | 0 <= k < |Split(s, sep)| ensures !Contains(Split(s, sep)[k], pat) {
      if Contains(Split(s, sep)[k], pat) {
        PieceContainedInWhole(s, pat, sep, k);
      }
    }
  }

  /** A separator-free pattern never straddles a separator. */
  lemma ContainsAcrossSep(a: string, b: string, pat: string, sep: char)
    requires sep !in pat && Contains(a + [sep] + b, pat)
    ensures Contains(a, pat) || Contains(b, pat)
  {
    var whole := a + [sep] + b;
    ContainsSomePiece(whole, pat, sep);
    SplitAtSep(a, b, sep);
    var k :| 0 <= k < |Split(whole, sep)| && Contains(Split(whole, sep)[k], pat);
    var pa, pb := Split(a, sep), Split(b, sep);
    PieceOfEither(pa, pb, k);
    if k < |pa| {
      PieceContainedInWhole(a, pat, sep, k);
    } else {
      PieceContainedInWhole(b, pat, sep, k - |pa|);
    }
  }

  lemma PieceOfEither(pa: seq<string>, pb: seq<string>, k: nat)
    requires k < |pa + pb|
    ensures (pa + pb)[k] == if k < |pa| then pa[k] else pb[k - |pa|]
  {
  }

  lemma {:induction false} JoinHasPiece(parts: seq<string>, sep: char, k: nat)
    requires k < |parts|
    ensures exists pre, post :: Join(parts, sep) == pre + parts[k] + post
    decreases |parts|
  {
    if |parts| == 1 {
      assert Join(parts, sep) == "" + parts[k] + "";
    } else if k == 0 {
      assert Join(parts, sep) == "" + parts[0] + ([sep] + Join(parts[1..], sep));
    } else {
      JoinHasPiece(parts[1..], sep, k - 1);
      var pre, post :| Join(parts[1..], sep) == pre + parts[1..][k - 1] + post;
      assert Join(parts, sep) == (parts[0] + [sep] + pre) + parts[k] + post;
    }
  }

  /** `s.replace(old, new)` for a one-character `old`: every occurrence is
      replaced. */
  function ReplaceAll(s: string, target: char, replacement: string): (r: string)
    ensures target !in s ==> r == s
    ensures target !in replacement ==> target !in r
    decreases |s|
  {
    if |s| == 0 then ""
    else
      assert s == [s[0]] + s[1..];
      (if s[0] == target then replacement else [s[0]]) + ReplaceAll(s[1..], target, replacement)
  }

  /** Replacement works piecewise over a concatenation. */
  lemma {:induction false} ReplaceAllConcat(a: string, b: string, target: char, replacement: string)
    ensures ReplaceAll(a + b, target, replacement) == ReplaceAll(a, target, replacement) + ReplaceAll(b, target, replacement)
    decreases |a|
  {
    if |a| == 0 {
      assert a + b == b;
    } else {
      assert (a + b)[1..] == a[1..] + b;
      ReplaceAllConcat(a[1..], b, target, replacement);
    }
  }
}
