/** String helpers with the semantics of the few java.lang.String and
    StringBuilder operations the statement builder relies on. */
module Text {

  /** `pat` occurs in `s` starting at index `i`. */
  predicate OccursAt(s: string, pat: string, i: nat) {
    i + |pat| <= |s| && s[i..i + |pat|] == pat
  }

  /** String.contains */
  predicate Contains(s: string, pat: string) {
    exists i: nat | i <= |s| :: OccursAt(s, pat, i)
  }

  /** No occurrence of `pat` starts before index `n`. */
  predicate CleanBefore(s: string, pat: string, n: nat) {
    forall i: nat :: i < n ==> !OccursAt(s, pat, i)
  }

  /** String.replace(CharSequence, CharSequence) for a non-empty target:
      scans left to right and replaces each non-overlapping occurrence. */
  function ReplaceAll(s: string, pat: string, rep: string): string
    requires pat != []
    decreases |s|
  {
    if |s| < |pat| then s
    else if s[..|pat|] == pat then rep + ReplaceAll(s[|pat|..], pat, rep)
    else [s[0]] + ReplaceAll(s[1..], pat, rep)
  }

  /** The pieces joined with `sep` between consecutive pieces. */
  function JoinWith(parts: seq<string>, sep: string): string {
    if |parts| == 0 then ""
    else if |parts| == 1 then parts[0]
    else parts[0] + sep + JoinWith(parts[1..], sep)
  }

  /** `parts` cuts a string at the leftmost non-overlapping occurrences of `pat`:
      no piece lets an occurrence start before the separator that follows it,
      and the last piece holds no occurrence at all. */
  predicate LeftmostCut(parts: seq<string>, pat: string) {
    && |parts| >= 1
    && (forall k :: 0 <= k < |parts| - 1 ==> CleanBefore(parts[k] + pat, pat, |parts[k]|))
    && !Contains(parts[|parts| - 1], pat)
  }

  /** Splits at every occurrence of the character `c` (keeps empty pieces). */
  function SplitOnChar(s: string, c: char): (parts: seq<string>)
    ensures |parts| >= 1
    decreases |s|
  {
    if |s| == 0 then [""]
    else
      var rest := SplitOnChar(s[1..], c);
      if s[0] == c then [""] + rest else [[s[0]] + rest[0]] + rest[1..]
  }

  /** Java's String.trim().equals(""): every character is at most U+0020. */
  predicate IsBlank(s: string) {
    forall i :: 0 <= i < |s| ==> s[i] <= ' '
  }

  function UpperChar(c: char): char {
    if 'a' <= c <= 'z' then (c as int - 32) as char else c
  }

  function LowerChar(c: char): char {
    if 'A' <= c <= 'Z' then (c as int + 32) as char else c
  }

  /** String.toUpperCase restricted to ASCII letters. */
  function Upper(s: string): (r: string)
    ensures |r| == |s|
    ensures forall i :: 0 <= i < |s| ==> r[i] == UpperChar(s[i])
  {
    seq(|s|, i requires 0 <= i < |s| => UpperChar(s[i]))
  }

  /** String.toLowerCase restricted to ASCII letters. */
  function Lower(s: string): (r: string)
    ensures |r| == |s|
    ensures forall i :: 0 <= i < |s| ==> r[i] == LowerChar(s[i])
  {
    seq(|s|, i requires 0 <= i < |s| => LowerChar(s[i]))
  }

  function DigitChar(d: nat): char
    requires d < 10
  {
    "0123456789"[d]
  }

  function NatToString(n: nat): (r: string)
    ensures |r| >= 1
  {
    if n < 10 then [DigitChar(n)] else NatToString(n / 10) + [DigitChar(n % 10)]
  }

  /** Integer.toString / Long.toString */
  function IntToString(n: int): string {
    if n < 0 then "-" + NatToString(-n) else NatToString(n)
  }

  // ---------------------------------------------------------------------------
  // ReplaceAll against the cut view of its input

  lemma {:induction false} OccursInPrefix(a: string, b: string, pat: string, i: nat)
    requires i + |pat| <= |a|
    ensures OccursAt(a + b, pat, i) <==> OccursAt(a, pat, i)
  {
    assert (a + b)[i..i + |pat|] == a[i..i + |pat|];
  }

  /** Dropping the first character keeps a clean prefix clean, one shorter. */
  lemma {:induction false} CleanBeforeTail(s: string, pat: string, k: nat)
    requires 0 < k <= |s| && CleanBefore(s, pat, k)
    ensures CleanBefore(s[1..], pat, k - 1)
  {
    var t := s[1..];
    forall i: nat | i < k - 1 ensures !OccursAt(t, pat, i) {
      assert !OccursAt(s, pat, i + 1);
      if i + |pat| <= |t| {
        assert t[i..i + |pat|] == s[i + 1..i + 1 + |pat|];
      }
    }
  }

  /** Without an occurrence at the front, ReplaceAll copies the first
      character. */
  lemma {:induction false} ReplaceAllCopiesHead(s: string, pat: string, rep: string)
    requires pat != [] && |s| >= |pat| && !OccursAt(s, pat, 0)
    ensures ReplaceAll(s, pat, rep) == [s[0]] + ReplaceAll(s[1..], pat, rep)
  {
    assert s[..|pat|] != pat;
  }

  /** Positions before the first occurrence are copied unchanged. */
  lemma {:induction false} ReplaceAllSkip(s: string, pat: string, rep: string, k: nat)
    requires pat != [] && k <= |s|
    requires CleanBefore(s, pat, k)
    ensures ReplaceAll(s, pat, rep) == s[..k] + ReplaceAll(s[k..], pat, rep)
    decreases k
  {
    if k == 0 {
      assert s[..0] == [] && s[0..] == s;
    } else if |s| < |pat| {
      assert s[..k] + s[k..] == s;
    } else {
      var t := s[1..];
      ReplaceAllCopiesHead(s, pat, rep);
      CleanBeforeTail(s, pat, k);
      ReplaceAllSkip(t, pat, rep, k - 1);
      assert t[k - 1..] == s[k..];
      assert [s[0]] + t[..k - 1] == s[..k];
    }
  }

  /** A string without the target is returned unchanged. */
  lemma {:induction false} ReplaceAllAbsent(s: string, pat: string, rep: string)
    requires pat != [] && !Contains(s, pat)
    ensures ReplaceAll(s, pat, rep) == s
  {
    ReplaceAllSkip(s, pat, rep, |s|);
    assert s[..|s|] == s;
    assert s[|s|..] == [];
  }

  /** An occurrence at the front is replaced and the scan resumes after it. */
  lemma {:induction false} ReplaceAllAtHead(tail: string, pat: string, rep: string)
    requires pat != []
    ensures ReplaceAll(pat + tail, pat, rep) == rep + ReplaceAll(tail, pat, rep)
  {
    var u := pat + tail;
    assert u[..|pat|] == pat;
    assert u[|pat|..] == tail;
  }

  /** A piece clean before its separator stays clean with anything after. */
  lemma {:induction false} CleanBeforeExtends(p: string, pat: string, tail: string)
    requires CleanBefore(p + pat, pat, |p|)
    ensures CleanBefore((p + pat) + tail, pat, |p|)
  {
    forall i: nat | i < |p| ensures !OccursAt((p + pat) + tail, pat, i) {
      OccursInPrefix(p + pat, tail, pat, i);
    }
  }

  lemma {:induction false} LeftmostCutTail(parts: seq<string>, pat: string)
    requires |parts| >= 2 && LeftmostCut(parts, pat)
    ensures LeftmostCut(parts[1..], pat)
  {
    var rest := parts[1..];
    forall k | 0 <= k < |rest| - 1
      ensures CleanBefore(rest[k] + pat, pat, |rest[k]|)
    {
      assert rest[k] == parts[k + 1];
    }
  }

  /** Every occurrence is replaced: a string cut at the leftmost occurrences of
      `pat` comes back with `rep` between the same pieces. */
  lemma {:induction false} ReplaceAllCut(parts: seq<string>, pat: string, rep: string)
    requires pat != [] && LeftmostCut(parts, pat)
    ensures ReplaceAll(JoinWith(parts, pat), pat, rep) == JoinWith(parts, rep)
    decreases |parts|
  {
    if |parts| == 1 {
      ReplaceAllAbsent(parts[0], pat, rep);
    } else {
      var p, rest := parts[0], parts[1..];
      var tail := JoinWith(rest, pat);
      var s := JoinWith(parts, pat);
      assert s == (p + pat) + tail;
      assert CleanBefore(p + pat, pat, |p|);
      CleanBeforeExtends(p, pat, tail);
      ReplaceAllSkip(s, pat, rep, |p|);
      assert s[..|p|] == p;
      assert s[|p|..] == pat + tail;
      ReplaceAllAtHead(tail, pat, rep);
      LeftmostCutTail(parts, pat);
      ReplaceAllCut(rest, pat, rep);
    }
  }

  /** A target whose first character occurs in none of the pieces can only
      occur at the separators, so any such join is a leftmost cut. */
  lemma {:induction false} FreshHeadCut(parts: seq<string>, pat: string)
    requires pat != [] && |parts| >= 1
    requires forall k :: 0 <= k < |parts| ==> pat[0] !in parts[k]
    ensures LeftmostCut(parts, pat)
  {
    forall k | 0 <= k < |parts|
      ensures CleanBefore(parts[k] + pat, pat, |parts[k]|)
      ensures k == |parts| - 1 ==> !Contains(parts[k], pat)
    {
      var q := parts[k];
      forall i: nat | i < |q| ensures !OccursAt(q + pat, pat, i) {
        assert (q + pat)[i] == q[i] != pat[0];
        if i + |pat| <= |q + pat| {
          assert (q + pat)[i..i + |pat|][0] == (q + pat)[i];
        }
      }
      forall i: nat | i + |pat| <= |q| ensures !OccursAt(q, pat, i) {
        assert q[i] != pat[0];
        assert q[i..i + |pat|][0] == q[i];
      }
    }
  }

  /** A string holds whatever is spliced into it. */
  lemma {:induction false} OccursBetween(pre: string, pat: string, post: string)
    ensures OccursAt(pre + (pat + post), pat, |pre|)
    ensures Contains(pre + (pat + post), pat)
  {
    var s := pre + (pat + post);
    assert s[|pre|..|pre| + |pat|] == pat;
    assert OccursAt(s, pat, |pre|);
  }

  /** A target whose first character is not in `s` leaves it unchanged. */
  lemma {:induction false} ReplaceFreshHead(s: string, pat: string, rep: string)
    requires pat != [] && pat[0] !in s
    ensures ReplaceAll(s, pat, rep) == s
  {
    FreshHeadCut([s], pat);
    ReplaceAllCut([s], pat, rep);
  }

  /** A single occurrence, its first character found nowhere else, is
      replaced and both sides are kept. */
  lemma {:induction false} ReplaceSingle(a: string, pat: string, b: string, rep: string)
    requires pat != [] && pat[0] !in a && pat[0] !in b
    ensures ReplaceAll(a + pat + b, pat, rep) == a + rep + b
  {
    assert JoinWith([a, b], pat) == a + pat + b;
    assert JoinWith([a, b], rep) == a + rep + b;
    FreshHeadCut([a, b], pat);
    ReplaceAllCut([a, b], pat, rep);
  }

  // ---------------------------------------------------------------------------
  // Joining and splitting on a one-character separator

  /** Appending one piece, as the builder loops do. */
  lemma {:induction false} JoinWithSnoc(parts: seq<string>, x: string, sep: string)
    requires |parts| >= 1
    ensures JoinWith(parts + [x], sep) == JoinWith(parts, sep) + sep + x
    decreases |parts|
  {
    if |parts| == 1 {
      assert parts + [x] == [parts[0], x];
      assert (parts + [x])[1..] == [x];
    } else {
      assert (parts + [x])[1..] == parts[1..] + [x];
      JoinWithSnoc(parts[1..], x, sep);
    }
  }

  /** Extending a joined prefix by the next piece: the separator goes in front
      of every piece but the first. */
  lemma {:induction false} JoinPrefixStep(parts: seq<string>, j: nat, sep: string)
    requires j < |parts|
    ensures JoinWith(parts[..j + 1], sep) == (if j == 0 then "" else JoinWith(parts[..j], sep) + sep) + parts[j]
  {
    assert parts[..j + 1] == parts[..j] + [parts[j]];
    if j > 0 {
      JoinWithSnoc(parts[..j], parts[j], sep);
    } else {
      assert parts[..1] == [parts[0]];
    }
  }

  lemma {:induction false} SplitNoSeparator(s: string, c: char)
    requires c !in s
    ensures SplitOnChar(s, c) == [s]
    decreases |s|
  {
    if |s| > 0 {
      SplitNoSeparator(s[1..], c);
      assert [s[0]] + s[1..] == s;
    }
  }

  lemma {:induction false} SplitAtFirstSeparator(a: string, b: string, c: char)
    requires c !in a
    ensures SplitOnChar(a + [c] + b, c) == [a] + SplitOnChar(b, c)
    decreases |a|
  {
    var s := a + [c] + b;
    if |a| == 0 {
      assert s[0] == c && s[1..] == b;
    } else {
      assert s[1..] == a[1..] + [c] + b;
      SplitAtFirstSeparator(a[1..], b, c);
      assert [a[0]] + a[1..] == a;
    }
  }

  /** The joined list can be read back piece by piece when no piece holds the separator. */
  lemma {:induction false} SplitJoinRoundTrip(parts: seq<string>, c: char)
    requires |parts| >= 1
    requires forall k :: 0 <= k < |parts| ==> c !in parts[k]
    ensures SplitOnChar(JoinWith(parts, [c]), c) == parts
    decreases |parts|
  {
    if |parts| == 1 {
      SplitNoSeparator(parts[0], c);
    } else {
      SplitJoinRoundTrip(parts[1..], c);
      SplitAtFirstSeparator(parts[0], JoinWith(parts[1..], [c]), c);
      assert [parts[0]] + parts[1..] == parts;
    }
  }

  /** Lower-casing erases the difference made by upper-casing. */
  lemma {:induction false} LowerOfUpper(s: string)
    ensures Lower(Upper(s)) == Lower(s)
  {
    forall i | 0 <= i < |s| ensures Lower(Upper(s))[i] == Lower(s)[i] {
      var c := s[i];
      if 'a' <= c <= 'z' {
        assert UpperChar(c) as int == c as int - 32;
      }
    }
  }
}
