/** String operations of the Python standard library that the log watcher relies on,
    restricted to ASCII: `str.strip`, `str.strip(chars)`, `str.splitlines`,
    `str.split("\n")`, `"\n".join`, `str.lower`, `in` on strings, `int()` on a digit run
    and `str()` of a natural number. */
module Text {

  /** The ASCII characters for which Python's `str.isspace` holds. */
  const Whitespace: set<char> :=
    {' ', '\t', '\n', '\U{B}', '\U{C}', '\r', '\U{1C}', '\U{1D}', '\U{1E}', '\U{1F}'}

  /** The line boundaries of Python's `str.splitlines` (`\r\n` counts as one). */
  const LineBreaks: set<char> :=
    {'\n', '\r', '\U{B}', '\U{C}', '\U{1C}', '\U{1D}', '\U{1E}', '\U{85}', '\U{2028}', '\U{2029}'}

  // ---------------------------------------------------------------- strip

  /** `s.lstrip(drop)`: the longest suffix of `s` not starting with a character of `drop`. */
  function TrimLeft(s: string, drop: set<char>): (r: string)
    ensures |r| <= |s|
  {
    if s != [] && s[0] in drop then TrimLeft(s[1..], drop) else s
  }

  /** `lstrip` keeps a suffix; what it removes is all in `drop`, and what it keeps does
      not start in `drop`. */
  lemma {:induction false} TrimLeftDrops(s: string, drop: set<char>)
    ensures var r := TrimLeft(s, drop);
      && |r| <= |s| && r == s[|s| - |r|..]
      && (forall k :: 0 <= k < |s| - |r| ==> s[k] in drop)
      && (r == [] || r[0] !in drop)
  {
    if s != [] && s[0] in drop {
      TrimLeftDrops(s[1..], drop);
      forall k | 1 <= k < |s| - |TrimLeft(s, drop)| ensures s[k] in drop {
        assert s[k] == s[1..][k - 1];
      }
    }
  }

  /** `s.rstrip(drop)`: the longest prefix of `s` not ending with a character of `drop`. */
  function TrimRight(s: string, drop: set<char>): (r: string)
    ensures |r| <= |s|
  {
    if s != [] && s[|s| - 1] in drop then TrimRight(s[..|s| - 1], drop) else s
  }

  /** `rstrip` keeps a prefix; what it removes is all in `drop`, and what it keeps does
      not end in `drop`. */
  lemma {:induction false} TrimRightDrops(s: string, drop: set<char>)
    ensures var r := TrimRight(s, drop);
      && |r| <= |s| && r == s[..|r|]
      && (forall k :: |r| <= k < |s| ==> s[k] in drop)
      && (r == [] || r[|r| - 1] !in drop)
  {
    if s != [] && s[|s| - 1] in drop {
      TrimRightDrops(s[..|s| - 1], drop);
      forall k | |TrimRight(s, drop)| <= k < |s| - 1 ensures s[k] in drop {
        assert s[k] == s[..|s| - 1][k];
      }
    }
  }

  /** `s.strip(drop)`. */
  function Trim(s: string, drop: set<char>): (r: string)
  {
    TrimRight(TrimLeft(s, drop), drop)
  }

  /** `s.strip()` with ASCII whitespace. */
  function Strip(s: string): (r: string)
  {
    Trim(s, Whitespace)
  }

  /** `r` is the slice of `s` starting at `i`, and everything of `s` outside it is in `drop`. */
  predicate TrimmedAt(s: string, r: string, i: nat, drop: set<char>)
  {
    i + |r| <= |s| && r == s[i..i + |r|]
    && (forall k :: 0 <= k < i ==> s[k] in drop)
    && (forall k :: i + |r| <= k < |s| ==> s[k] in drop)
  }

  /** What `strip` removes is exactly a run of dropped characters on each side, and the
      ends of what it keeps are not dropped characters. */
  lemma TrimIsSlice(s: string, drop: set<char>)
    ensures TrimmedAt(s, Trim(s, drop), |s| - |TrimLeft(s, drop)|, drop)
    ensures var r := Trim(s, drop); r == [] || (r[0] !in drop && r[|r| - 1] !in drop)
  {
    var l := TrimLeft(s, drop);
    var r := TrimRight(l, drop);
    var i := |s| - |l|;
    TrimLeftDrops(s, drop);
    TrimRightDrops(l, drop);
    assert l == s[i..];
    assert r == l[..|r|];
    assert r == s[i..i + |r|];
    forall k | i + |r| <= k < |s| ensures s[k] in drop {
      assert s[k] == l[k - i];
    }
  }

  /** Stripping twice is stripping once. */
  lemma {:induction false} TrimIdempotent(s: string, drop: set<char>)
    ensures Trim(Trim(s, drop), drop) == Trim(s, drop)
  {
    var r := Trim(s, drop);
    TrimIsSlice(s, drop);
    if r != [] {
      assert TrimLeft(r, drop) == r;
      assert TrimRight(r, drop) == r;
    }
  }

  /** A line read with its newline strips to its text when the text has no whitespace at
      either end. */
  lemma StripNewlineEnded(s: string)
    requires s != [] && s[0] !in Whitespace && s[|s| - 1] !in Whitespace
    ensures Strip(s + "\n") == s
  {
    var t := s + "\n";
    assert t[0] == s[0];
    assert TrimLeft(t, Whitespace) == t;
    assert t[..|t| - 1] == s;
    assert TrimRight(t, Whitespace) == TrimRight(s, Whitespace) == s;
  }

  /** Appending a dropped character to a string keeps it after a left trim, unless the
      trim empties the string. */
  lemma {:induction false} TrimLeftAppendDropped(s: string, c: char, drop: set<char>)
    requires c in drop
    ensures TrimLeft(s + [c], drop) == if TrimLeft(s, drop) == [] then [] else TrimLeft(s, drop) + [c]
  {
    if s != [] && s[0] in drop {
      assert (s + [c])[1..] == s[1..] + [c];
      TrimLeftAppendDropped(s[1..], c, drop);
    }
  }

  /** A trailing newline makes no difference to `strip`. */
  lemma StripDropsTrailingNewline(s: string)
    ensures Strip(s + "\n") == Strip(s)
  {
    TrimLeftAppendDropped(s, '\n', Whitespace);
    var t := TrimLeft(s, Whitespace);
    if t != [] {
      assert (t + "\n")[..|t|] == t;
    }
  }

  /** A line as `readline` returns it (a newline, if any, only at its end) strips to a
      newline-free string. */
  lemma StripReadLine(raw: string)
    requires forall p :: 0 <= p < |raw| - 1 ==> raw[p] != '\n'
    ensures NoNewline(Strip(raw))
  {
    TrimIsSlice(raw, Whitespace);
    TrimLeftDrops(raw, Whitespace);
    var r := Strip(raw);
    var i := |raw| - |TrimLeft(raw, Whitespace)|;
    forall p | 0 <= p < |r| ensures r[p] != '\n' {
      assert r[p] == raw[i + p];
      if i + p == |raw| - 1 {
        assert r[|r| - 1] == raw[i + |r| - 1];
      }
    }
  }

  // ---------------------------------------------------------------- splitting and joining

  /** The first index at or after `k` holding a character of `stops`, or `|s|`. */
  function IndexOfAny(s: string, k: nat, stops: set<char>): (i: nat)
    requires k <= |s|
    ensures k <= i <= |s|
    ensures forall p :: k <= p < i ==> s[p] !in stops
    ensures i < |s| ==> s[i] in stops
    decreases |s| - k
  {
    if k == |s| || s[k] in stops then k else IndexOfAny(s, k + 1, stops)
  }

  /** `s.splitlines()`: the lines of `s` without their line boundaries; a final boundary
      does not start an empty line, and `\r\n` is one boundary. */
  function SplitLines(s: string): (lines: seq<string>)
    ensures forall n, p :: 0 <= n < |lines| && 0 <= p < |lines[n]| ==> lines[n][p] !in LineBreaks
    decreases |s|
  {
    if s == [] then []
    else
      var i := IndexOfAny(s, 0, LineBreaks);
      if i == |s| then [s]
      else
        var next := if s[i] == '\r' && i + 1 < |s| && s[i + 1] == '\n' then i + 2 else i + 1;
        [s[..i]] + SplitLines(s[next..])
  }

  /** The text of `lines` as a program prints them: each line followed by a newline. */
  function Terminated(lines: seq<string>): string
  {
    if lines == [] then "" else lines[0] + "\n" + Terminated(lines[1..])
  }

  /** `splitlines` reads printed lines back: lines with no line boundary, each ended by a
      newline, split into exactly those lines. */
  lemma {:induction false} SplitLinesTerminated(lines: seq<string>)
    requires forall n, p :: 0 <= n < |lines| && 0 <= p < |lines[n]| ==> lines[n][p] !in LineBreaks
    ensures SplitLines(Terminated(lines)) == lines
  {
    if lines != [] {
      var a := lines[0];
      var rest := Terminated(lines[1..]);
      var s := a + "\n" + rest;
      assert s[..|a|] == a;
      assert forall p :: 0 <= p < |a| ==> s[p] !in LineBreaks;
      assert s[|a|] == '\n' && '\n' in LineBreaks;
      IndexOfAnyFirst(s, 0, |a|, LineBreaks);
      assert s[|a| + 1..] == rest;
      SplitLinesTerminated(lines[1..]);
    }
  }

  /** `s.split("\n")`: always at least one part, the last one after the final newline. */
  function SplitNewlines(s: string): (parts: seq<string>)
    ensures |parts| >= 1
    decreases |s|
  {
    var i := IndexOfAny(s, 0, {'\n'});
    if i == |s| then [s] else [s[..i]] + SplitNewlines(s[i + 1..])
  }

  /** `"\n".join(lines)`. */
  function JoinLines(lines: seq<string>): string
  {
    if |lines| == 0 then ""
    else if |lines| == 1 then lines[0]
    else lines[0] + "\n" + JoinLines(lines[1..])
  }

  predicate NoNewline(s: string)
  {
    forall p :: 0 <= p < |s| ==> s[p] != '\n'
  }

  /** Joining non-empty, newline-free lines with "\n" loses nothing: splitting on "\n"
      gives the lines back. */
  lemma {:induction false} SplitJoin(lines: seq<string>)
    requires |lines| > 0
    requires forall n :: 0 <= n < |lines| ==> NoNewline(lines[n])
    ensures SplitNewlines(JoinLines(lines)) == lines
  {
    var a := lines[0];
    if |lines| == 1 {
      assert IndexOfAny(a, 0, {'\n'}) == |a|;
    } else {
      var rest := JoinLines(lines[1..]);
      var s := a + "\n" + rest;
      assert s[..|a|] == a;
      assert forall p :: 0 <= p < |a| ==> s[p] !in {'\n'};
      IndexOfAnyFirst(s, 0, |a|, {'\n'});
      assert s[|a| + 1..] == rest;
      SplitJoin(lines[1..]);
    }
  }

  /** The search for a stop character finds the first one. */
  lemma {:induction false} IndexOfAnyFirst(s: string, k: nat, i: nat, stops: set<char>)
    requires k <= i < |s| && s[i] in stops
    requires forall p :: k <= p < i ==> s[p] !in stops
    ensures IndexOfAny(s, k, stops) == i
    decreases i - k
  {
    if k < i {
      IndexOfAnyFirst(s, k + 1, i, stops);
    }
  }

  // ---------------------------------------------------------------- searching and case

  /** `t` occurs in `s` at index `i`. */
  predicate OccursAt(s: string, t: string, i: int)
  {
    0 <= i <= |s| - |t| && s[i..i + |t|] == t
  }

  /** `t in s` for strings. */
  predicate Contains(s: string, t: string)
    decreases |s|
  {
    t <= s || (s != [] && Contains(s[1..], t))
  }

  /** `t in s` holds exactly when `t` occurs at some index of `s`. */
  lemma {:induction false} ContainsAt(s: string, t: string)
    ensures Contains(s, t) <==> exists i :: OccursAt(s, t, i)
    decreases |s|
  {
    if t <= s {
      assert OccursAt(s, t, 0);
    } else if s == [] {
    } else {
      ContainsAt(s[1..], t);
      if Contains(s[1..], t) {
        var i :| OccursAt(s[1..], t, i);
        assert s[1..][i..i + |t|] == s[i + 1..i + 1 + |t|];
        assert OccursAt(s, t, i + 1);
      }
      if exists i :: OccursAt(s, t, i) {
        var i :| OccursAt(s, t, i);
        if i > 0 {
          assert s[1..][i - 1..i - 1 + |t|] == s[i..i + |t|];
          assert OccursAt(s[1..], t, i - 1);
        }
      }
    }
  }

  function LowerChar(c: char): char
  {
    if 'A' <= c <= 'Z' then (c as int + 32) as char else c
  }

  /** `s.lower()` with ASCII case folding. */
  function Lower(s: string): string
  {
    seq(|s|, p requires 0 <= p < |s| => LowerChar(s[p]))
  }

  /** `lower` keeps the length, leaves no capital letter, changes only capital letters,
      and lowering twice is lowering once. */
  lemma LowerFolds(s: string)
    ensures |Lower(s)| == |s|
    ensures forall p :: 0 <= p < |s| ==> !('A' <= Lower(s)[p] <= 'Z')
    ensures forall p :: 0 <= p < |s| && !('A' <= s[p] <= 'Z') ==> Lower(s)[p] == s[p]
    ensures Lower(Lower(s)) == Lower(s)
  {
  }

  // ---------------------------------------------------------------- decimal numbers

  predicate IsDigit(c: char)
  {
    '0' <= c <= '9'
  }

  predicate AllDigits(s: string)
  {
    forall p :: 0 <= p < |s| ==> IsDigit(s[p])
  }

  /** The length of the run of digits of `s` starting at `k`. */
  function DigitRun(s: string, k: nat): (n: nat)
    requires k <= |s|
    ensures k + n <= |s| && forall p :: k <= p < k + n ==> IsDigit(s[p])
    ensures AllDigits(s[k..k + n])
    ensures k + n == |s| || !IsDigit(s[k + n])
    decreases |s| - k
  {
    if k < |s| && IsDigit(s[k]) then 1 + DigitRun(s, k + 1) else 0
  }

  /** The run of digits at `k` is determined by where the digits stop. */
  lemma {:induction false} DigitRunIs(s: string, k: nat, m: nat)
    requires k + m <= |s| && AllDigits(s[k..k + m])
    requires k + m == |s| || !IsDigit(s[k + m])
    ensures DigitRun(s, k) == m
    decreases m
  {
    if m > 0 {
      assert IsDigit(s[k..k + m][0]);
      assert s[k + 1..k + 1 + (m - 1)] == s[k..k + m][1..];
      DigitRunIs(s, k + 1, m - 1);
    }
  }

  /** `int(ds)` for a run of ASCII digits. */
  function DecimalValue(ds: string): nat
    requires AllDigits(ds)
  {
    if ds == [] then 0
    else 10 * DecimalValue(ds[..|ds| - 1]) + (ds[|ds| - 1] as int - '0' as int)
  }

  function DigitChar(d: nat): (c: char)
    requires d < 10
    ensures IsDigit(c)
  {
    ('0' as int + d) as char
  }

  /** `str(n)`: the decimal digits of `n`, without leading zeros. */
  function Decimal(n: nat): (ds: string)
    ensures ds != [] && AllDigits(ds)
  {
    if n < 10 then [DigitChar(n)] else Decimal(n / 10) + [DigitChar(n % 10)]
  }

  /** `int(str(n)) == n`. */
  lemma {:induction false} DecimalRoundTrip(n: nat)
    ensures DecimalValue(Decimal(n)) == n
  {
    if n >= 10 {
      var ds := Decimal(n);
      assert ds[..|ds| - 1] == Decimal(n / 10);
      DecimalRoundTrip(n / 10);
    }
  }
}
