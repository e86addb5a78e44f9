/**
 * The parts of Go's `strings` and `fmt` packages the registry client relies on,
 * over `string` = `seq<char>` (one `char` per rune).
 */
module GoStrings {

  /** `strings.HasPrefix(s, prefix)`. */
  predicate HasPrefix(s: string, prefix: string)
  {
    |prefix| <= |s| && s[..|prefix|] == prefix
  }

  /** `sub` occurs in `s` starting at position `i`. */
  predicate OccursAt(s: string, sub: string, i: int)
  {
    0 <= i && i + |sub| <= |s| && s[i..i + |sub|] == sub
  }

  /** `strings.Contains(s, sub)`. */
  predicate Contains(s: string, sub: string)
  {
    exists i | 0 <= i <= |s| - |sub| :: OccursAt(s, sub, i)
  }

  // ---------------------------------------------------------------------------
  // Upper-casing
  // ---------------------------------------------------------------------------

  predicate IsLowerAscii(c: char)
  {
    'a' <= c <= 'z'
  }

  function UpperAscii(c: char): char
  {
    if IsLowerAscii(c) then (c as int - 32) as char else c
  }

  /**
   * `strings.ToUpper` on the ASCII letters; every other character is kept.
   * Each lower-case letter becomes its upper-case letter, 32 code points
   * below it. The result has no lower-case letter left, and a string comes back
   * unchanged exactly when it had none to begin with.
   */
  function ToUpper(s: string): (r: string)
    ensures |r| == |s|
    ensures forall i :: 0 <= i < |r| ==> !IsLowerAscii(r[i])
    ensures forall i :: 0 <= i < |s| && !IsLowerAscii(s[i]) ==> r[i] == s[i]
    ensures forall i :: 0 <= i < |s| && IsLowerAscii(s[i]) ==> r[i] as int == s[i] as int - 32
    ensures r == s <==> forall i :: 0 <= i < |s| ==> !IsLowerAscii(s[i])
  {
    if |s| == 0 then []
    else
      var rest := ToUpper(s[1..]);
      assert forall i :: 1 <= i < |s| ==> s[i] == s[1..][i - 1];
      [UpperAscii(s[0])] + rest
  }

  /** Upper-casing twice is upper-casing once. */
  lemma ToUpperIdempotent(s: string)
    ensures ToUpper(ToUpper(s)) == ToUpper(s)
  {
    var u := ToUpper(s);
    assert forall i :: 0 <= i < |u| ==> !IsLowerAscii(u[i]);
  }

  // ---------------------------------------------------------------------------
  // Split, Join and Replace
  // ---------------------------------------------------------------------------

  /**
   * `strings.Split(s, sep)` for a non-empty separator: the pieces between the
   * non-overlapping occurrences of `sep`, searched left to right. There is
   * always at least one piece; the first piece is the text before the first
   * occurrence (all of `s` when there is none).
   */
  function Split(s: string, sep: string): (parts: seq<string>)
    requires |sep| > 0
    ensures |parts| >= 1
    ensures HasPrefix(s, parts[0])
    ensures |parts| == 1 ==> parts[0] == s
    ensures |parts| > 1 ==> OccursAt(s, sep, |parts[0]|)
    decreases |s|
  {
    if |s| < |sep| then [s]
    else if s[..|sep|] == sep then [[]] + Split(s[|sep|..], sep)
    else
      var rest := Split(s[1..], sep);
      var head := [s[0]] + rest[0];
      assert head == s[..|head|] by {
        assert rest[0] == s[1..][..|rest[0]|];
      }
      assert |rest| > 1 ==> s[|head|..|head| + |sep|] == s[1..][|rest[0]|..|rest[0]| + |sep|];
      assert |rest| == 1 ==> head == s;
      [head] + rest[1..]
  }

  /** `strings.Join(parts, sep)`. */
  function Join(parts: seq<string>, sep: string): string
  {
    if |parts| == 0 then []
    else if |parts| == 1 then parts[0]
    else parts[0] + sep + Join(parts[1..], sep)
  }

  /**
   * `strings.Replace(s, pat, rep, -1)` for a non-empty `pat`: every
   * non-overlapping occurrence of `pat`, searched left to right, becomes `rep`.
   */
  function ReplaceAll(s: string, pat: string, rep: string): string
    requires |pat| > 0
    decreases |s|
  {
    if |s| < |pat| then s
    else if s[..|pat|] == pat then rep + ReplaceAll(s[|pat|..], pat, rep)
    else [s[0]] + ReplaceAll(s[1..], pat, rep)
  }

  /**
   * `strings.Replace(s, "", rep, -1)`: the empty string matches at the start
   * and after every rune, so `rep` is inserted at each of those places.
   */
  function InsertAround(s: string, rep: string): (r: string)
    ensures |r| == |s| + (|s| + 1) * |rep|
    ensures HasPrefix(r, rep)
  {
    if |s| == 0 then rep
    else
      var rest := InsertAround(s[1..], rep);
      assert |rep + [s[0]] + rest| == |rep| + 1 + (|s| - 1) + |s| * |rep|;
      rep + [s[0]] + rest
  }

  lemma MulStep(i: int, w: int)
    ensures i * w == (i - 1) * w + w
  {
  }

  /**
   * What `InsertAround` produces at block `i`: with `w` the width of one copy
   * of `rep` plus one character, the block at offset `i * w` is a copy of
   * `rep` followed by `s[i]`.
   */
  lemma {:induction false} InsertAroundBlock(s: string, rep: string, i: int)
    requires 0 <= i < |s|
    ensures var r := InsertAround(s, rep); var o := i * (|rep| + 1);
      && 0 <= o && o + |rep| < |r|
      && r[o..o + |rep|] == rep
      && r[o + |rep|] == s[i]
    decreases i
  {
    var r := InsertAround(s, rep);
    var w := |rep| + 1;
    var head, rest := rep + [s[0]], InsertAround(s[1..], rep);
    assert r == head + rest;
    assert |r| == w + |rest|;
    if i == 0 {
      assert i * w == 0;
      assert r[..|rep|] == rep;
    } else {
      InsertAroundBlock(s[1..], rep, i - 1);
      var o', o := (i - 1) * w, i * w;
      MulStep(i, w);
      assert 0 <= o' && o' + |rep| < |rest|;
      assert 0 <= o && o + |rep| < |r|;
      assert s[1..][i - 1] == s[i];
      SliceOfAppend(head, rest, o, o + |rep|);
      assert r[o + |rep|] == rest[o' + |rep|];
    }
  }

  /** A slice that lies in the second part of a concatenation is a slice of that part. */
  lemma SliceOfAppend(a: string, b: string, lo: int, hi: int)
    requires |a| <= lo <= hi <= |a| + |b|
    ensures (a + b)[lo..hi] == b[lo - |a|..hi - |a|]
  {
  }

  /** `InsertAround` ends with a copy of `rep` after the last block. */
  lemma {:induction false} InsertAroundEnd(s: string, rep: string)
    ensures var r := InsertAround(s, rep); var o := |s| * (|rep| + 1);
      0 <= o <= |r| && r[o..] == rep
    decreases |s|
  {
    if |s| > 0 {
      var r := InsertAround(s, rep);
      var w := |rep| + 1;
      var rest := InsertAround(s[1..], rep);
      assert r == (rep + [s[0]]) + rest;
      InsertAroundEnd(s[1..], rep);
      MulStep(|s|, w);
      SliceOfAppend(rep + [s[0]], rest, |s| * w, |r|);
    }
  }

  /** `strings.Replace(s, pat, rep, -1)` for every `pat`. */
  function Replace(s: string, pat: string, rep: string): string
  {
    if |pat| == 0 then InsertAround(s, rep) else ReplaceAll(s, pat, rep)
  }

  /** No piece of a split contains the separator. */
  lemma {:induction false} SplitPartsAreFree(s: string, sep: string)
    requires |sep| > 0
    ensures forall k :: 0 <= k < |Split(s, sep)| ==> !Contains(Split(s, sep)[k], sep)
    decreases |s|
  {
    if |s| < |sep| {
    } else if s[..|sep|] == sep {
      SplitPartsAreFree(s[|sep|..], sep);
    } else {
      SplitPartsAreFree(s[1..], sep);
      var rest := Split(s[1..], sep);
      var head := [s[0]] + rest[0];
      assert Split(s, sep) == [head] + rest[1..];
      forall i | 0 <= i <= |head| - |sep|
        ensures !OccursAt(head, sep, i)
      {
        if i == 0 {
          assert head[..|sep|] == s[..|sep|];
        } else {
          assert head[i..i + |sep|] == rest[0][i - 1..i - 1 + |sep|];
          assert !OccursAt(rest[0], sep, i - 1);
        }
      }
    }
  }

  lemma JoinConsHead(c: char, parts: seq<string>, sep: string)
    requires |parts| >= 1
    ensures Join([[c] + parts[0]] + parts[1..], sep) == [c] + Join(parts, sep)
  {
    var q := [[c] + parts[0]] + parts[1..];
    if |parts| > 1 {
      assert q[1..] == parts[1..];
    }
  }

  /** The two ways `Split` continues once the text is at least as long as the separator. */
  lemma SplitStep(s: string, sep: string)
    requires 0 < |sep| <= |s|
    ensures s[..|sep|] == sep ==> Split(s, sep) == [[]] + Split(s[|sep|..], sep)
    ensures s[..|sep|] != sep ==>
      Split(s, sep) == [[s[0]] + Split(s[1..], sep)[0]] + Split(s[1..], sep)[1..]
  {
  }

  /** Joining pieces that start with an empty one puts a separator in front. */
  lemma JoinEmptyHead(rest: seq<string>, sep: string)
    requires |rest| >= 1
    ensures Join([[]] + rest, sep) == sep + Join(rest, sep)
  {
    var parts := [[]] + rest;
    assert parts[0] == [] && parts[1..] == rest;
  }

  /** Joining the pieces of a split with the same separator gives back the text. */
  lemma {:induction false} JoinSplit(s: string, sep: string)
    requires |sep| > 0
    ensures Join(Split(s, sep), sep) == s
    decreases |s|
  {
    if |s| < |sep| {
    } else if s[..|sep|] == sep {
      JoinSplit(s[|sep|..], sep);
      SplitStep(s, sep);
      JoinEmptyHead(Split(s[|sep|..], sep), sep);
      assert s == sep + s[|sep|..];
    } else {
      JoinSplit(s[1..], sep);
      SplitStep(s, sep);
      JoinConsHead(s[0], Split(s[1..], sep), sep);
      assert s == [s[0]] + s[1..];
    }
  }

  /**
   * Replacing every occurrence of `pat` by `rep` is splitting at `pat` and
   * joining with `rep`.
   */
  lemma {:induction false} ReplaceAllIsSplitJoin(s: string, pat: string, rep: string)
    requires |pat| > 0
    ensures ReplaceAll(s, pat, rep) == Join(Split(s, pat), rep)
    decreases |s|
  {
    if |s| < |pat| {
    } else if s[..|pat|] == pat {
      ReplaceAllIsSplitJoin(s[|pat|..], pat, rep);
      SplitStep(s, pat);
      JoinEmptyHead(Split(s[|pat|..], pat), rep);
    } else {
      ReplaceAllIsSplitJoin(s[1..], pat, rep);
      SplitStep(s, pat);
      JoinConsHead(s[0], Split(s[1..], pat), rep);
    }
  }

  /** Replacing a text by itself changes nothing. */
  lemma ReplaceAllBySelf(s: string, pat: string)
    requires |pat| > 0
    ensures ReplaceAll(s, pat, pat) == s
  {
    ReplaceAllIsSplitJoin(s, pat, pat);
    JoinSplit(s, pat);
  }

  /** A text without an occurrence of `pat` comes back unchanged. */
  lemma ReplaceAllAbsent(s: string, pat: string, rep: string)
    requires |pat| > 0
    requires !Contains(s, pat)
    ensures ReplaceAll(s, pat, rep) == s
  {
    ReplaceAllIsSplitJoin(s, pat, rep);
  }

  /** No occurrence of `pat` starts inside the first `n` characters of `s`. */
  predicate NoneBefore(s: string, pat: string, n: int)
  {
    forall i :: 0 <= i < n ==> !OccursAt(s, pat, i)
  }

  lemma OccursAtShift(s: string, pat: string, i: int)
    requires |s| > 0 && i >= 0
    ensures OccursAt(s[1..], pat, i) <==> OccursAt(s, pat, i + 1)
  {
    if 0 <= i && i + |pat| <= |s| - 1 {
      var a, b := s[1..][i..i + |pat|], s[i + 1..i + 1 + |pat|];
      assert |a| == |b|;
      forall k | 0 <= k < |a|
        ensures a[k] == b[k]
      {
        assert a[k] == s[1..][i + k] == s[i + 1 + k];
      }
      assert a == b;
    }
  }

  /** Text before the first occurrence of `pat` is kept as it is. */
  lemma {:induction false} ReplaceAllKeepsPrefix(u: string, t: string, pat: string, rep: string)
    requires |pat| > 0
    requires NoneBefore(u + t, pat, |u|)
    ensures ReplaceAll(u + t, pat, rep) == u + ReplaceAll(t, pat, rep)
    decreases |u|
  {
    if |u| > 0 {
      var s := u + t;
      assert !OccursAt(s, pat, 0);
      assert s[1..] == u[1..] + t;
      forall i | 0 <= i < |u| - 1
        ensures !OccursAt(u[1..] + t, pat, i)
      {
        OccursAtShift(s, pat, i);
      }
      ReplaceAllKeepsPrefix(u[1..], t, pat, rep);
      if |s| < |pat| {
        assert ReplaceAll(t, pat, rep) == t;
      } else {
        assert s[..|pat|] != pat;
        assert ReplaceAll(s, pat, rep) == [s[0]] + ReplaceAll(s[1..], pat, rep);
        assert u == [u[0]] + u[1..];
      }
    } else {
      assert u + t == t;
    }
  }

  /** The first piece of a split is the text before the first occurrence of the separator. */
  lemma {:induction false} SplitFirstPiece(u: string, t: string, sep: string)
    requires |sep| > 0
    requires NoneBefore(u + t, sep, |u|)
    requires HasPrefix(t, sep)
    ensures Split(u + t, sep)[0] == u
    decreases |u|
  {
    if |u| > 0 {
      var s := u + t;
      assert !OccursAt(s, sep, 0);
      assert s[1..] == u[1..] + t;
      forall i | 0 <= i < |u| - 1
        ensures !OccursAt(u[1..] + t, sep, i)
      {
        OccursAtShift(s, sep, i);
      }
      SplitFirstPiece(u[1..], t, sep);
    } else {
      assert u + t == t;
    }
  }

  /** An occurrence at the very start is replaced, and the scan resumes after it. */
  lemma ReplaceAllAtStart(t: string, pat: string, rep: string)
    requires |pat| > 0
    ensures ReplaceAll(pat + t, pat, rep) == rep + ReplaceAll(t, pat, rep)
  {
    var s := pat + t;
    assert s[..|pat|] == pat && s[|pat|..] == t;
  }

  /**
   * Replacing a segment that occurs once, after a prefix where it does not
   * start, and is absent from what follows it: only that segment changes.
   */
  lemma ReplaceSegment(prefix: string, seg: string, suffix: string, rep: string)
    requires |seg| > 0
    requires NoneBefore(prefix + seg + suffix, seg, |prefix|)
    requires !Contains(suffix, seg)
    ensures ReplaceAll(prefix + seg + suffix, seg, rep) == prefix + rep + suffix
  {
    var rest := seg + suffix;
    assert prefix + seg + suffix == prefix + rest;
    ReplaceAllKeepsPrefix(prefix, rest, seg, rep);
    ReplaceSegmentAtStart(seg, suffix, rep);
    assert prefix + (rep + suffix) == prefix + rep + suffix;
  }

  /** A segment at the start of a text that does not occur again is the only text replaced. */
  lemma ReplaceSegmentAtStart(seg: string, suffix: string, rep: string)
    requires |seg| > 0
    requires !Contains(suffix, seg)
    ensures ReplaceAll(seg + suffix, seg, rep) == rep + suffix
  {
    ReplaceAllAtStart(suffix, seg, rep);
    ReplaceAllAbsent(suffix, seg, rep);
  }

  // ---------------------------------------------------------------------------
  // Decimal formatting (`fmt.Sprintf("%d", n)`)
  // ---------------------------------------------------------------------------

  predicate IsDigit(c: char)
  {
    '0' <= c <= '9'
  }

  function Digit(d: nat): char
    requires d < 10
  {
    ('0' as int + d) as char
  }

  /** Decimal digits of `n`, most significant first, without leading zeros. */
  function NatToDecimal(n: nat): (r: string)
    ensures |r| >= 1
    ensures forall i :: 0 <= i < |r| ==> IsDigit(r[i])
    ensures r[0] == '0' ==> n == 0
    decreases n
  {
    if n < 10 then [Digit(n)] else NatToDecimal(n / 10) + [Digit(n % 10)]
  }

  /** The number a string of decimal digits denotes. */
  function DecimalValue(s: string): nat
    requires forall i :: 0 <= i < |s| ==> IsDigit(s[i])
  {
    if |s| == 0 then 0
    else
      assert IsDigit(s[|s| - 1]);
      10 * DecimalValue(s[..|s| - 1]) + (s[|s| - 1] as int - '0' as int)
  }

  /** `fmt.Sprintf("%d", n)`: a minus sign for negative numbers, then the digits. */
  function IntToDecimal(n: int): string
  {
    if n < 0 then "-" + NatToDecimal(-n) else NatToDecimal(n)
  }

  /** Reads back what `IntToDecimal` writes: an optional minus sign, then decimal digits. */
  function ParseInt(s: string): int
    requires |s| >= 1
    requires forall i :: 0 <= i < |s| ==> IsDigit(s[i]) || (i == 0 && s[i] == '-')
  {
    if s[0] == '-' then 0 - DecimalValue(s[1..]) as int else DecimalValue(s)
  }

  lemma {:induction false} DecimalRoundTrip(n: nat)
    ensures DecimalValue(NatToDecimal(n)) == n
    decreases n
  {
    if n >= 10 {
      DecimalRoundTrip(n / 10);
      var r := NatToDecimal(n);
      assert r[..|r| - 1] == NatToDecimal(n / 10);
    }
  }

  /** Formatting an integer in decimal and parsing it back gives the integer. */
  lemma IntDecimalRoundTrip(n: int)
    ensures var r := IntToDecimal(n);
      && |r| >= 1
      && (forall i :: 0 <= i < |r| ==> IsDigit(r[i]) || (i == 0 && r[i] == '-'))
      && ParseInt(r) == n
  {
    if n < 0 {
      DecimalRoundTrip(-n);
      var r := IntToDecimal(n);
      assert r[1..] == NatToDecimal(-n);
    } else {
      DecimalRoundTrip(n);
    }
  }
}
