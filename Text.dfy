/** The Python string operations the server relies on, written out over
    `seq<char>`: `str.lower` (ASCII letters), `str.replace`, `str.split`,
    `str.strip`, `re.split(r'[ ,]+', ...)`, `re.match` on a literal prefix and
    `os.path.join` for POSIX paths. */
module Text {

  /* ---------------------------------------------------------------------- */
  /* Case folding and character replacement                                 */
  /* ---------------------------------------------------------------------- */

  predicate IsUpper(c: char) { 'A' <= c <= 'Z' }

  /** `c.lower()` for ASCII; every other character is left as it is. */
  function LowerChar(c: char): (r: char)
    ensures !IsUpper(r)
  {
    if IsUpper(c) then (c as int + 32) as char else c
  }

  /** `s.lower()` */
  function Lower(s: string): string
  {
    if s == [] then [] else [LowerChar(s[0])] + Lower(s[1..])
  }

  /** `s.replace(a, b)` for a one-character `a` and a one-character `b`. */
  function ReplaceChar(s: string, a: char, b: char): string
  {
    if s == [] then []
    else [if s[0] == a then b else s[0]] + ReplaceChar(s[1..], a, b)
  }

  lemma {:induction false} LowerAt(s: string, i: nat)
    requires i < |s|
    ensures |Lower(s)| == |s| && Lower(s)[i] == LowerChar(s[i])
  {
    if i > 0 {
      LowerAt(s[1..], i - 1);
    } else if |s| > 1 {
      LowerAt(s[1..], 0);
    }
  }

  lemma {:induction false} LowerLength(s: string)
    ensures |Lower(s)| == |s|
  {
    if s != [] { LowerLength(s[1..]); }
  }

  lemma {:induction false} ReplaceCharLength(s: string, a: char, b: char)
    ensures |ReplaceChar(s, a, b)| == |s|
  {
    if s != [] { ReplaceCharLength(s[1..], a, b); }
  }

  lemma {:induction false} ReplaceCharAt(s: string, a: char, b: char, i: nat)
    requires i < |s|
    ensures |ReplaceChar(s, a, b)| == |s|
    ensures ReplaceChar(s, a, b)[i] == if s[i] == a then b else s[i]
  {
    ReplaceCharLength(s, a, b);
    if i > 0 { ReplaceCharAt(s[1..], a, b, i - 1); }
  }

  /* ---------------------------------------------------------------------- */
  /* Kebab case                                                             */
  /* ---------------------------------------------------------------------- */

  /** What `to_kebab_case` does to one character. */
  function KebabChar(c: char): char
  {
    var l := LowerChar(c);
    if l == ' ' || l == '_' then '-' else l
  }

  /** `to_kebab_case(name)`: `name.lower().replace(' ', '-').replace('_', '-')` */
  function KebabCase(name: string): string
  {
    ReplaceChar(ReplaceChar(Lower(name), ' ', '-'), '_', '-')
  }

  /** Kebab case works character by character and keeps the length. */
  lemma KebabCaseAt(name: string, i: nat)
    requires i < |name|
    ensures |KebabCase(name)| == |name|
    ensures KebabCase(name)[i] == KebabChar(name[i])
  {
    LowerAt(name, i);
    var l := Lower(name);
    ReplaceCharAt(l, ' ', '-', i);
    ReplaceCharAt(ReplaceChar(l, ' ', '-'), '_', '-', i);
  }

  lemma KebabCaseLength(name: string)
    ensures |KebabCase(name)| == |name|
  {
    LowerLength(name);
    ReplaceCharLength(Lower(name), ' ', '-');
    ReplaceCharLength(ReplaceChar(Lower(name), ' ', '-'), '_', '-');
  }

  /** A kebab-case name contains no space, no underscore and no upper-case
      ASCII letter. */
  lemma KebabCaseIsClean(name: string)
    ensures forall i | 0 <= i < |KebabCase(name)| ::
      KebabCase(name)[i] != ' ' && KebabCase(name)[i] != '_' && !IsUpper(KebabCase(name)[i])
  {
    KebabCaseLength(name);
    forall i | 0 <= i < |KebabCase(name)|
      ensures KebabCase(name)[i] != ' ' && KebabCase(name)[i] != '_' && !IsUpper(KebabCase(name)[i])
    {
      KebabCaseAt(name, i);
    }
  }

  /** Converting a name to kebab case twice gives the same as converting it once. */
  lemma KebabCaseIdempotent(name: string)
    ensures KebabCase(KebabCase(name)) == KebabCase(name)
  {
    var k := KebabCase(name);
    KebabCaseLength(name);
    KebabCaseLength(k);
    forall i | 0 <= i < |k|
      ensures KebabCase(k)[i] == k[i]
    {
      KebabCaseAt(name, i);
      KebabCaseAt(k, i);
    }
  }

  /* ---------------------------------------------------------------------- */
  /* str.split(sep) and its inverse sep.join(parts)                         */
  /* ---------------------------------------------------------------------- */

  /** `s.split(sep)` for a one-character separator: always at least one part;
      two separators in a row give an empty part. */
  function Split(s: string, sep: char): (parts: seq<string>)
    ensures |parts| >= 1
  {
    if s == [] then [[]]
    else
      var rest := Split(s[1..], sep);
      if s[0] == sep then [[]] + rest
      else [[s[0]] + rest[0]] + rest[1..]
  }

  /** `sep.join(parts)` */
  function Join(parts: seq<string>, sep: char): string
  {
    if parts == [] then []
    else if |parts| == 1 then parts[0]
    else parts[0] + [sep] + Join(parts[1..], sep)
  }

  /** Splitting and joining again with the same separator gives back the text. */
  lemma {:induction false} SplitJoin(s: string, sep: char)
    ensures Join(Split(s, sep), sep) == s
  {
    if s != [] {
      var rest := Split(s[1..], sep);
      SplitJoin(s[1..], sep);
      if s[0] == sep {
        assert Split(s, sep) == [[]] + rest;
      } else {
        var parts := Split(s, sep);
        assert parts == [[s[0]] + rest[0]] + rest[1..];
        if |rest| == 1 {
          assert Join(parts, sep) == [s[0]] + rest[0];
        } else {
          assert parts[1..] == rest[1..];
          assert Join(rest, sep) == rest[0] + [sep] + Join(rest[1..], sep);
          assert Join(parts, sep) == [s[0]] + rest[0] + [sep] + Join(rest[1..], sep);
        }
      }
    }
  }

  /** No part of a split contains the separator. */
  lemma {:induction false} SplitPartsFree(s: string, sep: char)
    ensures forall j, k | 0 <= j < |Split(s, sep)| && 0 <= k < |Split(s, sep)[j]| :: Split(s, sep)[j][k] != sep
  {
    if s != [] {
      SplitPartsFree(s[1..], sep);
      var rest := Split(s[1..], sep);
      var parts := Split(s, sep);
      forall j, k | 0 <= j < |parts| && 0 <= k < |parts[j]|
        ensures parts[j][k] != sep
      {
        if s[0] == sep {
          if j > 0 { assert parts[j] == rest[j - 1]; }
        } else if j == 0 {
          if k > 0 { assert parts[0][k] == rest[0][k - 1]; }
        } else {
          assert parts[j] == rest[j];
        }
      }
    }
  }

  /* ---------------------------------------------------------------------- */
  /* str.strip()                                                            */
  /* ---------------------------------------------------------------------- */

  /** The characters for which Python's `str.isspace` holds. */
  predicate IsSpace(c: char)
  {
    || c == ' ' || ('\t' <= c <= '\r') || ('\U{1c}' <= c <= '\U{1f}')
    || c == '\U{85}' || c == '\U{a0}' || c == '\U{1680}'
    || ('\U{2000}' <= c <= '\U{200a}') || c == '\U{2028}' || c == '\U{2029}'
    || c == '\U{202f}' || c == '\U{205f}' || c == '\U{3000}'
  }

  function StripLeft(s: string): string
  {
    if s != [] && IsSpace(s[0]) then StripLeft(s[1..]) else s
  }

  function StripRight(s: string): string
  {
    if s != [] && IsSpace(s[|s| - 1]) then StripRight(s[..|s| - 1]) else s
  }

  /** `s.strip()` */
  function Strip(s: string): string
  {
    StripRight(StripLeft(s))
  }

  lemma {:induction false} StripLeftCut(s: string) returns (i: nat)
    ensures i <= |s| && StripLeft(s) == s[i..]
    ensures forall k | 0 <= k < i :: IsSpace(s[k])
    ensures i < |s| ==> !IsSpace(s[i])
  {
    if s != [] && IsSpace(s[0]) {
      var j := StripLeftCut(s[1..]);
      i := j + 1;
      assert s[1..][j..] == s[i..];
      forall k | 0 <= k < i ensures IsSpace(s[k]) {
        if k > 0 { assert s[k] == s[1..][k - 1]; }
      }
    } else {
      i := 0;
    }
  }

  lemma {:induction false} StripRightCut(s: string) returns (j: nat)
    ensures j <= |s| && StripRight(s) == s[..j]
    ensures forall k | j <= k < |s| :: IsSpace(s[k])
    ensures j > 0 ==> !IsSpace(s[j - 1])
  {
    if s != [] && IsSpace(s[|s| - 1]) {
      j := StripRightCut(s[..|s| - 1]);
      assert s[..|s| - 1][..j] == s[..j];
      forall k | j <= k < |s| ensures IsSpace(s[k]) {
        if k < |s| - 1 { assert s[k] == s[..|s| - 1][k]; }
      }
    } else {
      j := |s|;
    }
  }

  /** `s.strip()` is the slice `s[i..j]` left after cutting every leading and
      trailing whitespace character, and it neither starts nor ends with one. */
  lemma StripSlice(s: string) returns (i: nat, j: nat)
    ensures i <= j <= |s| && Strip(s) == s[i..j]
    ensures forall k | 0 <= k < i :: IsSpace(s[k])
    ensures forall k | j <= k < |s| :: IsSpace(s[k])
    ensures Strip(s) != [] ==> !IsSpace(Strip(s)[0]) && !IsSpace(Strip(s)[|Strip(s)| - 1])
  {
    i := StripLeftCut(s);
    var t := s[i..];
    var m := StripRightCut(t);
    j := i + m;
    assert t[..m] == s[i..j];
    forall k | j <= k < |s| ensures IsSpace(s[k]) {
      assert s[k] == t[k - i];
    }
    if Strip(s) != [] {
      assert Strip(s)[0] == s[i];
    }
  }

  /* ---------------------------------------------------------------------- */
  /* re.split(r'[ ,]+', s)                                                  */
  /* ---------------------------------------------------------------------- */

  /** A character of the class `[ ,]`. */
  predicate IsListSep(c: char) { c == ' ' || c == ',' }

  predicate SepFree(s: string) { forall k | 0 <= k < |s| :: !IsListSep(s[k]) }

  /** Index of the first separator, or `|s|` when there is none. */
  function FirstSep(s: string): (k: nat)
    ensures k <= |s|
    ensures SepFree(s[..k])
    ensures k < |s| ==> IsListSep(s[k])
  {
    if s == [] then 0
    else if IsListSep(s[0]) then 0
    else
      var k := 1 + FirstSep(s[1..]);
      assert forall m | 1 <= m < k :: s[..k][m] == s[1..][..k - 1][m - 1];
      k
  }

  /** What is left after a maximal run of separators at the front. */
  function DropSeps(t: string): (r: string)
    ensures |r| <= |t| && r == t[|t| - |r|..]
    ensures t != [] && IsListSep(t[0]) ==> |r| < |t|
    ensures r != [] ==> !IsListSep(r[0])
  {
    if t != [] && IsListSep(t[0]) then DropSeps(t[1..]) else t
  }

  /** `re.split(r'[ ,]+', s)`: the pieces between maximal runs of spaces and
      commas. A leading run gives an empty first piece and a trailing run an
      empty last piece. */
  function SplitRuns(s: string): (pieces: seq<string>)
    ensures |pieces| >= 1
    decreases |s|
  {
    var k := FirstSep(s);
    if k == |s| then [s]
    else [s[..k]] + SplitRuns(DropSeps(s[k..]))
  }

  /** The characters of `s` that are neither spaces nor commas, in order. */
  function KeepWordChars(s: string): string
  {
    if s == [] then []
    else (if IsListSep(s[0]) then [] else [s[0]]) + KeepWordChars(s[1..])
  }

  function Concat(pieces: seq<string>): string
  {
    if pieces == [] then [] else pieces[0] + Concat(pieces[1..])
  }

  lemma {:induction false} KeepWordCharsAppend(a: string, b: string)
    ensures KeepWordChars(a + b) == KeepWordChars(a) + KeepWordChars(b)
  {
    if a != [] {
      assert (a + b)[1..] == a[1..] + b;
      KeepWordCharsAppend(a[1..], b);
    } else {
      assert a + b == b;
    }
  }

  lemma {:induction false} KeepWordCharsSepFree(s: string)
    requires SepFree(s)
    ensures KeepWordChars(s) == s
  {
    if s != [] {
      assert SepFree(s[1..]) by { forall k | 0 <= k < |s[1..]| ensures !IsListSep(s[1..][k]) { assert s[1..][k] == s[k + 1]; } }
      KeepWordCharsSepFree(s[1..]);
    }
  }

  lemma {:induction false} KeepWordCharsAllSeps(s: string, n: nat)
    requires n <= |s|
    requires forall k | 0 <= k < n :: IsListSep(s[k])
    ensures KeepWordChars(s) == KeepWordChars(s[n..])
  {
    if n > 0 {
      assert forall k | 0 <= k < n - 1 :: s[1..][k] == s[k + 1];
      KeepWordCharsAllSeps(s[1..], n - 1);
      assert s[1..][n - 1..] == s[n..];
    }
  }

  lemma {:induction false} DropSepsOnlySeps(t: string)
    ensures forall k | 0 <= k < |t| - |DropSeps(t)| :: IsListSep(t[k])
  {
    if t != [] && IsListSep(t[0]) {
      DropSepsOnlySeps(t[1..]);
      forall k | 0 <= k < |t| - |DropSeps(t)| ensures IsListSep(t[k]) {
        if k > 0 { assert t[k] == t[1..][k - 1]; }
      }
    }
  }

  /** Gluing the pieces of `re.split(r'[ ,]+', s)` back together gives `s`
      with its spaces and commas removed: nothing else is lost or added. */
  lemma {:induction false} SplitRunsConcat(s: string)
    ensures Concat(SplitRuns(s)) == KeepWordChars(s)
    decreases |s|
  {
    var k := FirstSep(s);
    if k == |s| {
      assert s[..k] == s;
      KeepWordCharsSepFree(s);
      assert Concat([s]) == s + Concat([]);
    } else {
      var t := s[k..];
      var r := DropSeps(t);
      SplitRunsConcat(r);
      var pieces := SplitRuns(s);
      assert pieces == [s[..k]] + SplitRuns(r);
      assert pieces[1..] == SplitRuns(r);
      assert Concat(pieces) == s[..k] + Concat(SplitRuns(r));
      assert s == s[..k] + t;
      KeepWordCharsAppend(s[..k], t);
      KeepWordCharsSepFree(s[..k]);
      DropSepsOnlySeps(t);
      KeepWordCharsAllSeps(t, |t| - |r|);
    }
  }

  /** No piece of `re.split(r'[ ,]+', s)` holds a space or a comma, and every
      piece other than the first and the last is non-empty. */
  lemma {:induction false} SplitRunsPieces(s: string)
    ensures forall j | 0 <= j < |SplitRuns(s)| :: SepFree(SplitRuns(s)[j])
    ensures forall j | 0 < j < |SplitRuns(s)| - 1 :: SplitRuns(s)[j] != []
    decreases |s|
  {
    var k := FirstSep(s);
    if k < |s| {
      var r := DropSeps(s[k..]);
      SplitRunsPieces(r);
      var pieces := SplitRuns(s);
      assert pieces == [s[..k]] + SplitRuns(r);
      forall j | 0 < j < |pieces|
        ensures pieces[j] == SplitRuns(r)[j - 1]
      {
      }
      if r != [] {
        var kr := FirstSep(r);
        assert kr > 0;
        assert SplitRuns(r)[0] == r[..kr];
      }
    }
  }

  /** A non-empty run of spaces and commas. */
  predicate IsSepRun(r: string)
  {
    r != [] && forall k | 0 <= k < |r| :: IsListSep(r[k])
  }

  /** `pieces[0] + runs[0] + pieces[1] + ... + runs[n-1] + pieces[n]`. */
  function Interleave(pieces: seq<string>, runs: seq<string>): string
    requires |pieces| == |runs| + 1
    decreases |runs|
  {
    if runs == [] then pieces[0]
    else pieces[0] + runs[0] + Interleave(pieces[1..], runs[1..])
  }

  lemma InterleaveCons(p0: string, r0: string, pieces: seq<string>, runs: seq<string>)
    requires |pieces| == |runs| + 1
    ensures Interleave([p0] + pieces, [r0] + runs) == p0 + r0 + Interleave(pieces, runs)
  {
    assert ([p0] + pieces)[1..] == pieces;
    assert ([r0] + runs)[1..] == runs;
  }

  /** What `DropSeps` removes is a run of separators, non-empty when `t`
      starts with one. */
  lemma DropSepsRun(t: string) returns (n: nat)
    requires t != [] && IsListSep(t[0])
    ensures n == |t| - |DropSeps(t)| && IsSepRun(t[..n]) && t == t[..n] + DropSeps(t)
  {
    var r := DropSeps(t);
    n := |t| - |r|;
    DropSepsOnlySeps(t);
    var run := t[..n];
    forall k | 0 <= k < |run| ensures IsListSep(run[k]) {
      assert run[k] == t[k];
    }
    SliceJoin(t, n);
    assert t[n..] == r;
  }

  lemma SliceJoin<T>(s: seq<T>, k: nat)
    requires k <= |s|
    ensures s[..k] + s[k..] == s
  {
  }

  /** One cut of `re.split(r'[ ,]+', s)`: the first piece, then a run of
      separators, then the text the remaining pieces come from. */
  lemma SplitRunsCut(s: string) returns (piece: string, run: string, rest: string)
    requires FirstSep(s) < |s|
    ensures s == piece + run + rest && IsSepRun(run) && |rest| < |s|
    ensures SplitRuns(s) == [piece] + SplitRuns(rest)
  {
    var k := FirstSep(s);
    var t := s[k..];
    var n := DropSepsRun(t);
    piece, run, rest := s[..k], t[..n], DropSeps(t);
    SliceJoin(s, k);
    assert s == piece + t;
    assert s == piece + run + rest;
    assert SplitRuns(s) == [piece] + SplitRuns(rest);
  }

  /** Where `re.split(r'[ ,]+', s)` cuts: `s` is its pieces with one non-empty
      run of spaces and commas put back between each two of them. Since no
      piece holds a separator and no inner piece is empty, each run is a
      maximal run of `s`, and the pieces are the text between those runs. */
  lemma {:induction false} SplitRunsJoin(s: string) returns (runs: seq<string>)
    ensures |runs| == |SplitRuns(s)| - 1
    ensures forall i | 0 <= i < |runs| :: IsSepRun(runs[i])
    ensures s == Interleave(SplitRuns(s), runs)
    decreases |s|
  {
    if FirstSep(s) == |s| {
      runs := [];
      assert s[..|s|] == s;
    } else {
      var piece, run, rest := SplitRunsCut(s);
      var restRuns := SplitRunsJoin(rest);
      runs := [run] + restRuns;
      forall i | 0 <= i < |runs| ensures IsSepRun(runs[i]) {
        if i > 0 { assert runs[i] == restRuns[i - 1]; }
      }
      InterleaveCons(piece, run, SplitRuns(rest), restRuns);
    }
  }

  /* ---------------------------------------------------------------------- */
  /* Prefix tests and substring replacement                                 */
  /* ---------------------------------------------------------------------- */

  /** `re.match(pattern, s)` for a pattern that is a plain literal. */
  predicate StartsWith(s: string, prefix: string)
  {
    |prefix| <= |s| && s[..|prefix|] == prefix
  }

  /** `s.replace(pat, repl)`: every non-overlapping occurrence, left to right. */
  function ReplaceAll(s: string, pat: string, repl: string): string
    requires pat != []
    decreases |s|
  {
    if |s| < |pat| then s
    else if s[..|pat|] == pat then repl + ReplaceAll(s[|pat|..], pat, repl)
    else [s[0]] + ReplaceAll(s[1..], pat, repl)
  }

  /** `s.replace(pat, repl, 1)`: the first occurrence only. */
  function ReplaceFirst(s: string, pat: string, repl: string): string
    requires pat != []
    decreases |s|
  {
    if |s| < |pat| then s
    else if s[..|pat|] == pat then repl + s[|pat|..]
    else [s[0]] + ReplaceFirst(s[1..], pat, repl)
  }

  /** `pat` occurs in `s` starting at index `i`. */
  predicate OccursAt(s: string, pat: string, i: nat)
  {
    i + |pat| <= |s| && s[i..i + |pat|] == pat
  }

  /** No occurrence of `pat` in `s` starts before index `n`. */
  predicate FreeBefore(s: string, pat: string, n: nat)
  {
    forall j: nat | j < n :: !OccursAt(s, pat, j)
  }

  /** A literal pattern matches at the start exactly when the text is the
      pattern followed by the rest of the text. */
  lemma StartsWithSplit(s: string, prefix: string)
    ensures StartsWith(s, prefix) <==> OccursAt(s, prefix, 0)
    ensures StartsWith(s, prefix) <==> |prefix| <= |s| && s == prefix + s[|prefix|..]
  {
    if |prefix| <= |s| && s == prefix + s[|prefix|..] {
      assert s[..|prefix|] == prefix;
    }
  }

  lemma OccursShift(c: char, t: string, pat: string, j: nat)
    requires j > 0
    ensures OccursAt([c] + t, pat, j) <==> OccursAt(t, pat, j - 1)
  {
    if j + |pat| <= |[c] + t| {
      assert ([c] + t)[j..j + |pat|] == t[j - 1..j - 1 + |pat|];
    }
  }

  lemma FreeBeforeCons(c: char, t: string, pat: string, n: nat)
    requires FreeBefore(t, pat, n) && !OccursAt([c] + t, pat, 0)
    ensures FreeBefore([c] + t, pat, n + 1)
  {
    forall j: nat | 0 < j < n + 1 ensures !OccursAt([c] + t, pat, j) {
      OccursShift(c, t, pat, j);
    }
  }

  /** With `i` the first occurrence of `pat`, `s.replace(pat, repl, 1)` puts
      `repl` in its place and keeps the rest. */
  lemma {:induction false} ReplaceFirstAt(s: string, pat: string, repl: string, i: nat)
    requires pat != [] && OccursAt(s, pat, i) && FreeBefore(s, pat, i)
    ensures ReplaceFirst(s, pat, repl) == s[..i] + repl + s[i + |pat|..]
    decreases i
  {
    if i == 0 {
      assert s[..|pat|] == pat;
    } else {
      assert !OccursAt(s, pat, 0);
      var t := s[1..];
      assert s == [s[0]] + t;
      OccursShift(s[0], t, pat, i);
      forall j: nat | j < i - 1 ensures !OccursAt(t, pat, j) {
        OccursShift(s[0], t, pat, j + 1);
      }
      ReplaceFirstAt(t, pat, repl, i - 1);
      assert s[..i] == [s[0]] + t[..i - 1];
      assert s[i + |pat|..] == t[i - 1 + |pat|..];
    }
  }

  /** Without an occurrence of `pat`, `s.replace(pat, repl, 1)` is `s`. */
  lemma {:induction false} ReplaceFirstNone(s: string, pat: string, repl: string)
    requires pat != [] && FreeBefore(s, pat, |s|)
    ensures ReplaceFirst(s, pat, repl) == s
    decreases |s|
  {
    if |s| >= |pat| {
      assert !OccursAt(s, pat, 0);
      var t := s[1..];
      assert s == [s[0]] + t;
      forall j: nat | j < |t| ensures !OccursAt(t, pat, j) {
        OccursShift(s[0], t, pat, j + 1);
      }
      ReplaceFirstNone(t, pat, repl);
    }
  }

  /** `pieces[0] + glue + pieces[1] + ... + glue + pieces[n]`. */
  function JoinWith(pieces: seq<string>, glue: string): string
    requires |pieces| >= 1
    decreases |pieces|
  {
    if |pieces| == 1 then pieces[0]
    else pieces[0] + glue + JoinWith(pieces[1..], glue)
  }

  lemma JoinWithCons(p0: string, pieces: seq<string>, glue: string)
    requires |pieces| >= 1
    ensures JoinWith([p0] + pieces, glue) == p0 + glue + JoinWith(pieces, glue)
  {
    assert ([p0] + pieces)[1..] == pieces;
  }

  lemma JoinWithHead(c: char, pieces: seq<string>, glue: string)
    requires |pieces| >= 1
    ensures JoinWith([[c] + pieces[0]] + pieces[1..], glue) == [c] + JoinWith(pieces, glue)
  {
    if |pieces| > 1 {
      JoinWithCons([c] + pieces[0], pieces[1..], glue);
      assert pieces == [pieces[0]] + pieces[1..];
      JoinWithCons(pieces[0], pieces[1..], glue);
    }
  }

  /** `s.replace(pat, repl)`: `s` is its pieces joined by `pat`, and the result
      is the same pieces joined by `repl`. The pieces are the ones a left to
      right scan finds: no occurrence of `pat` starts inside a piece, counting
      the `pat` that follows it. */
  lemma {:induction false} ReplaceAllPieces(s: string, pat: string, repl: string) returns (pieces: seq<string>)
    requires pat != []
    ensures |pieces| >= 1
    ensures s == JoinWith(pieces, pat)
    ensures ReplaceAll(s, pat, repl) == JoinWith(pieces, repl)
    ensures forall k | 0 <= k < |pieces| - 1 :: FreeBefore(pieces[k] + pat, pat, |pieces[k]|)
    ensures FreeBefore(pieces[|pieces| - 1], pat, |pieces[|pieces| - 1]|)
    decreases |s|
  {
    if |s| < |pat| {
      pieces := [s];
    } else if s[..|pat|] == pat {
      var rest := s[|pat|..];
      var ps := ReplaceAllPieces(rest, pat, repl);
      pieces := [[]] + ps;
      JoinWithCons([], ps, pat);
      JoinWithCons([], ps, repl);
      SliceJoin(s, |pat|);
      forall k | 1 <= k < |pieces| ensures pieces[k] == ps[k - 1] {
      }
    } else {
      var t := s[1..];
      var ps := ReplaceAllPieces(t, pat, repl);
      pieces := [[s[0]] + ps[0]] + ps[1..];
      assert s == [s[0]] + t;
      JoinWithHead(s[0], ps, pat);
      JoinWithHead(s[0], ps, repl);
      forall k | 1 <= k < |pieces| ensures pieces[k] == ps[k] {
      }
      HeadPieceFree(s, pat, ps);
    }
  }

  /** The first piece, grown by the character before it, stays free of `pat`
      when `pat` does not occur at the start of `s`. */
  lemma HeadPieceFree(s: string, pat: string, ps: seq<string>)
    requires pat != [] && |pat| <= |s| && s[..|pat|] != pat && |ps| >= 1
    requires s[1..] == JoinWith(ps, pat)
    requires forall k | 0 <= k < |ps| - 1 :: FreeBefore(ps[k] + pat, pat, |ps[k]|)
    requires FreeBefore(ps[|ps| - 1], pat, |ps[|ps| - 1]|)
    ensures |ps| > 1 ==> FreeBefore([s[0]] + ps[0] + pat, pat, |[s[0]] + ps[0]|)
    ensures |ps| == 1 ==> FreeBefore([s[0]] + ps[0], pat, |[s[0]] + ps[0]|)
  {
    var tail := if |ps| > 1 then ps[0] + pat else ps[0];
    assert FreeBefore(tail, pat, |ps[0]|);
    var grown := [s[0]] + tail;
    if |ps| > 1 {
      assert ps == [ps[0]] + ps[1..];
      JoinWithCons(ps[0], ps[1..], pat);
      assert s == grown + JoinWith(ps[1..], pat);
    } else {
      assert s == grown;
    }
    assert !OccursAt(grown, pat, 0) by {
      if |pat| <= |grown| {
        assert grown[..|pat|] == s[..|pat|];
      }
    }
    FreeBeforeCons(s[0], tail, pat, |ps[0]|);
    assert [s[0]] + ps[0] + pat == grown || [s[0]] + ps[0] == grown;
  }

  /* ---------------------------------------------------------------------- */
  /* os.path.join                                                           */
  /* ---------------------------------------------------------------------- */

  /** `os.path.join(a, b)` on POSIX: an absolute `b` replaces `a`; otherwise a
      `/` is put between them unless `a` is empty or already ends in one. */
  function PathJoin(a: string, b: string): (r: string)
    ensures StartsWith(b, "/") ==> r == b
    ensures !StartsWith(b, "/") ==> StartsWith(r, a)
    ensures |b| <= |r| && r[|r| - |b|..] == b
  {
    if StartsWith(b, "/") then b
    else if a == [] || a[|a| - 1] == '/' then a + b
    else a + "/" + b
  }
}
