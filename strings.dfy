/** The few Python string operations the pipeline relies on, over `seq<char>`:
    `str.endswith`, `str.split(sep)` for a one-character separator,
    `str.replace(old, new)`, slicing off a suffix, and `f'{n:02d}'`. */
module Strings {
  import opened Seqs

  predicate EndsWith(s: string, suffix: string) {
    |suffix| <= |s| && s[|s| - |suffix|..] == suffix
  }

  /** `name.endswith('.csv')`, the filter both process.py and check.py apply
      to a directory listing. */
  predicate IsCsv(name: string) {
    EndsWith(name, ".csv")
  }

  /** `pat` occurs in `s` starting at index `i`. */
  predicate OccursAt(s: string, pat: string, i: nat) {
    i + |pat| <= |s| && s[i..i + |pat|] == pat
  }

  /** Index of the first occurrence of `c` in `s`. */
  function IndexOf(s: string, c: char): (i: nat)
    requires c in s
    ensures i < |s| && s[i] == c && c !in s[..i]
  {
    if s[0] == c then 0
    else
      var j := IndexOf(s[1..], c);
      assert s[1..][..j] == s[1..j + 1];
      assert s[..j + 1] == [s[0]] + s[1..j + 1];
      1 + j
  }

  /** Python's `s.split(sep)` for a one-character separator: the pieces between
      consecutive separators, left to right; never empty. */
  function Split(s: string, sep: char): (parts: seq<string>)
    decreases |s|
  {
    if sep !in s then [s]
    else
      var i := IndexOf(s, sep);
      [s[..i]] + Split(s[i + 1..], sep)
  }

  /** Python's `str(sep).join(parts)`. */
  function Join(parts: seq<string>, sep: char): string {
    if parts == [] then []
    else if |parts| == 1 then parts[0]
    else parts[0] + [sep] + Join(parts[1..], sep)
  }

  /** Splitting and joining again gives back the string. */
  lemma {:induction false} SplitJoin(s: string, sep: char)
    ensures Join(Split(s, sep), sep) == s
    decreases |s|
  {
    if sep in s {
      var i := IndexOf(s, sep);
      var p, rest := s[..i], s[i + 1..];
      SplitNonEmpty(rest, sep);
      SplitAt(s, i);
      calc {
        Join(Split(s, sep), sep);
        Join([p] + Split(rest, sep), sep);
        { JoinCons(p, Split(rest, sep), sep); }
        p + [sep] + Join(Split(rest, sep), sep);
        { SplitJoin(rest, sep); }
        p + [sep] + rest;
      }
    }
  }

  lemma SplitNonEmpty(s: string, sep: char)
    ensures |Split(s, sep)| >= 1
  {
  }

  /** A split has a second piece exactly when the separator occurs. */
  lemma SplitCount(s: string, sep: char)
    ensures |Split(s, sep)| >= 2 <==> sep in s
  {
    if sep in s {
      SplitNonEmpty(s[IndexOf(s, sep) + 1..], sep);
    }
  }

  lemma JoinCons(p: string, tail: seq<string>, sep: char)
    requires |tail| >= 1
    ensures Join([p] + tail, sep) == p + [sep] + Join(tail, sep)
  {
    assert ([p] + tail)[1..] == tail;
  }

  /** No piece of a split holds the separator. */
  lemma {:induction false} SplitPiecesFree(s: string, sep: char)
    ensures forall k :: 0 <= k < |Split(s, sep)| ==> sep !in Split(s, sep)[k]
    decreases |s|
  {
    if sep in s {
      var i := IndexOf(s, sep);
      SplitPiecesFree(s[i + 1..], sep);
    }
  }

  lemma IndexOfAfterPrefix(a: string, sep: char, b: string)
    requires sep !in a
    ensures sep in a + [sep] + b && IndexOf(a + [sep] + b, sep) == |a|
  {
    var s := a + [sep] + b;
    assert s[|a|] == sep;
  }

  /** A leading piece free of the separator splits off as the first piece. */
  lemma SplitAfterPrefix(a: string, sep: char, b: string)
    requires sep !in a
    ensures Split(a + [sep] + b, sep) == [a] + Split(b, sep)
  {
    var s := a + [sep] + b;
    IndexOfAfterPrefix(a, sep, b);
    assert s[..|a|] == a;
    assert s[|a| + 1..] == b;
  }

  /** The piece after the last separator of `s` (at index `k`) is the last
      piece of the split. */
  lemma {:induction false} SplitLastPiece(s: string, sep: char, k: nat)
    requires k < |s| && s[k] == sep && sep !in s[k + 1..]
    ensures var parts := Split(s, sep); |parts| >= 2 && parts[|parts| - 1] == s[k + 1..]
    decreases |s|
  {
    assert sep in s;
    var i := IndexOf(s, sep);
    var t := s[i + 1..];
    assert Split(s, sep) == [s[..i]] + Split(t, sep);
    if i < k {
      assert t[k - i - 1] == sep;
      assert t[k - i..] == s[k + 1..];
      SplitLastPiece(t, sep, k - i - 1);
    } else {
      assert i == k by {
        if i > k {
          assert false;
        }
      }
      assert Split(t, sep) == [t];
    }
  }

  /** The last piece of a split is whatever follows the last separator. */
  lemma SplitLast(a: string, sep: char, b: string)
    requires sep !in b
    ensures var parts := Split(a + [sep] + b, sep); |parts| >= 2 && parts[|parts| - 1] == b
  {
    var s := a + [sep] + b;
    assert s[|a|] == sep;
    assert s[|a| + 1..] == b;
    SplitLastPiece(s, sep, |a|);
  }

  /** Python's `s.replace(pat, rep)`: every non-overlapping occurrence of `pat`,
      scanning left to right, is replaced. */
  function ReplaceAll(s: string, pat: string, rep: string): string
    requires |pat| > 0
    decreases |s|
  {
    if |s| < |pat| then s
    else if s[..|pat|] == pat then rep + ReplaceAll(s[|pat|..], pat, rep)
    else [s[0]] + ReplaceAll(s[1..], pat, rep)
  }

  /** When `pat` occurs in `s` only as its suffix, `replace` swaps exactly that
      suffix for `rep`. */
  lemma {:induction false} ReplaceOnlySuffix(s: string, pat: string, rep: string)
    requires |pat| > 0 && EndsWith(s, pat)
    requires forall i: nat :: i < |s| - |pat| ==> !OccursAt(s, pat, i)
    ensures ReplaceAll(s, pat, rep) == s[..|s| - |pat|] + rep
    decreases |s|
  {
    if |s| == |pat| {
      assert s[..|pat|] == pat;
      assert s[|pat|..] == [];
    } else {
      assert !OccursAt(s, pat, 0);
      assert s[..|pat|] != pat by { assert s[0..|pat|] == s[..|pat|]; }
      var t := s[1..];
      assert t[|t| - |pat|..] == s[|s| - |pat|..];
      forall i: nat | i < |t| - |pat| ensures !OccursAt(t, pat, i) {
        assert !OccursAt(s, pat, i + 1);
        assert t[i..i + |pat|] == s[i + 1..i + 1 + |pat|];
      }
      ReplaceOnlySuffix(t, pat, rep);
      assert s[..|s| - |pat|] == [s[0]] + t[..|t| - |pat|];
    }
  }

  /** One decimal digit as a character. */
  function DigitChar(d: nat): (c: char)
    requires d < 10
    ensures '0' <= c <= '9' && c as int - '0' as int == d
  {
    ('0' as int + d) as char
  }

  /** Python's `f'{n:02d}'` for 0 <= n < 100. */
  function Pad2(n: nat): (s: string)
    requires n < 100
    ensures |s| == 2 && '0' <= s[0] <= '9' && '0' <= s[1] <= '9'
    ensures (s[0] as int - '0' as int) * 10 + (s[1] as int - '0' as int) == n
  {
    [DigitChar(n / 10), DigitChar(n % 10)]
  }
}
