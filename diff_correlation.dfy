/** The correlation of a blamed line with `git diff` output, and the summary that replaces
    git's own for an uncommitted line (`get_git_blame`, the local-changes branch).

    A unified diff is walked with a running new-file line counter: a hunk header
    `@@ -a[,b] +c[,d] @@` sets it to `c`, a `+` or ` ` line advances it, a `-` line does
    not. The line picked is the first `+`/`-`/` ` line met while the counter equals the
    blamed line number. */
module DiffCorrelation {
  import opened Wrappers
  import opened Text

  /** The new-file side of a hunk header: its first line and its line count. */
  datatype Hunk = Hunk(start: nat, count: nat)

  /** `\d+` at the start of `s`: its value and what follows it. */
  function Number(s: string): (r: Option<(nat, string)>)
    ensures r.Some? ==> |r.value.1| < |s| && r.value.1 == s[|s| - |r.value.1|..]
  {
    var d := DigitRun(s, 0);
    if d == 0 then None else Some((DecimalValue(s[..d]), s[d..]))
  }

  /** `(?:,(\d+))?` at the start of `s`: the count, if present, and what follows. */
  function OptionalCount(s: string): (Option<nat>, string)
  {
    if s != [] && s[0] == ',' && Number(s[1..]).Some? then
      (Some(Number(s[1..]).value.0), Number(s[1..]).value.1)
    else (None, s)
  }

  /** `re.match(r'^@@ -\d+(?:,\d+)? \+(\d+)(?:,(\d+))? @@', l)`: the new-file start and
      count of a hunk header, the count being 1 when it is left out. Only the beginning
      of the line is matched; a section heading may follow. Digits cannot stand for a
      comma or a space, so the pattern matches in at most one way. */
  function HunkHeader(l: string): (h: Option<Hunk>)
    ensures h.Some? ==> "@@ -" <= l
  {
    if !("@@ -" <= l) then None
    else match OldSide(l[4..])
      case None => None
      case Some(t) => if " +" <= t then NewSide(t[2..]) else None
  }

  /** The part of the header pattern after ` -`, `\d+(?:,\d+)?`: what follows it. */
  function OldSide(s: string): Option<string>
  {
    match Number(s)
    case None => None
    case Some((_, t)) => Some(OptionalCount(t).1)
  }

  /** The part of the header pattern after ` +`: `(\d+)(?:,(\d+))? @@`. */
  function NewSide(s: string): Option<Hunk>
  {
    match Number(s)
    case None => None
    case Some((start, t)) =>
      var oc := OptionalCount(t);
      if " @@" <= oc.1 then Some(Hunk(start, if oc.0.Some? then oc.0.value else 1)) else None
  }

  /** The text of an optional `,<count>` group. */
  function CountText(count: Option<nat>): string
  {
    if count.None? then "" else "," + Decimal(count.value)
  }

  /** A hunk header as diff writes it. */
  function HeaderText(oldStart: nat, oldCount: Option<nat>, newStart: nat, newCount: Option<nat>): string
  {
    "@@ -" + Decimal(oldStart) + CountText(oldCount) + " +" + Decimal(newStart) + CountText(newCount) + " @@"
  }

  /** A number written in decimal reads back, up to the next non-digit. */
  lemma NumberOfDecimal(n: nat, t: string)
    requires t == [] || !IsDigit(t[0])
    ensures Number(Decimal(n) + t) == Some((n, t))
  {
    var ds := Decimal(n);
    var s := ds + t;
    assert s[..|ds|] == ds;
    assert s[|ds|..] == t;
    DigitRunIs(s, 0, |ds|);
    DecimalRoundTrip(n);
  }

  /** An optional count group written by diff reads back, up to the space after it. */
  lemma CountOfText(count: Option<nat>, t: string)
    requires t != [] && t[0] == ' '
    ensures OptionalCount(CountText(count) + t) == (count, t)
  {
    if count.Some? {
      var s := CountText(count) + t;
      assert s[1..] == Decimal(count.value) + t;
      NumberOfDecimal(count.value, t);
    } else {
      assert CountText(count) + t == t;
    }
  }

  /** Every header diff writes parses back to its new-file start and count (1 when the
      count is left out), whatever follows it on the line. */
  lemma HeaderRoundTrip(oldStart: nat, oldCount: Option<nat>, newStart: nat, newCount: Option<nat>, rest: string)
    ensures HunkHeader(HeaderText(oldStart, oldCount, newStart, newCount) + rest)
      == Some(Hunk(newStart, if newCount.Some? then newCount.value else 1))
  {
    var x := Decimal(newStart) + CountText(newCount) + " @@" + rest;
    var t := " +" + x;
    var l := HeaderText(oldStart, oldCount, newStart, newCount) + rest;
    assert l[4..] == Decimal(oldStart) + CountText(oldCount) + t by {
      RegroupHeader("@@ -", Decimal(oldStart), CountText(oldCount), " +", Decimal(newStart), CountText(newCount), " @@", rest);
    }
    assert "@@ -" <= l;
    assert OldSide(l[4..]) == Some(t) by {
      OldSideRoundTrip(oldStart, oldCount, t);
    }
    assert " +" <= t && t[2..] == x;
    assert NewSide(x) == Some(Hunk(newStart, if newCount.Some? then newCount.value else 1)) by {
      NewSideRoundTrip(newStart, newCount, rest);
    }
  }

  /** A header line regrouped around its old-file side. */
  lemma RegroupHeader(a: string, b: string, c: string, d: string, e: string, f: string, g: string, rest: string)
    ensures a + b + c + d + e + f + g + rest == a + (b + c + (d + (e + f + g + rest)))
  {
  }

  /** Concatenation regrouped to the right. */
  lemma Regroup(a: string, b: string, c: string, d: string)
    ensures a + b + c + d == a + (b + (c + d))
  {
  }

  /** The old-file side skips its number and count, up to the space after them. */
  lemma OldSideRoundTrip(oldStart: nat, oldCount: Option<nat>, t: string)
    requires t != [] && t[0] == ' '
    ensures OldSide(Decimal(oldStart) + CountText(oldCount) + t) == Some(t)
  {
    var t1 := CountText(oldCount) + t;
    assert Decimal(oldStart) + CountText(oldCount) + t == Decimal(oldStart) + t1;
    assert t1[0] == ',' || t1[0] == ' ';
    NumberOfDecimal(oldStart, t1);
    CountOfText(oldCount, t);
  }

  /** The new-file side reads back as written. */
  lemma NewSideRoundTrip(newStart: nat, newCount: Option<nat>, rest: string)
    ensures NewSide(Decimal(newStart) + CountText(newCount) + " @@" + rest)
      == Some(Hunk(newStart, if newCount.Some? then newCount.value else 1))
  {
    var t4 := " @@" + rest;
    var t3 := CountText(newCount) + t4;
    Regroup(Decimal(newStart), CountText(newCount), " @@", rest);
    assert Number(Decimal(newStart) + t3) == Some((newStart, t3)) by {
      assert t3[0] == ',' || t3[0] == ' ';
      NumberOfDecimal(newStart, t3);
    }
    assert OptionalCount(t3) == (newCount, t4) by {
      CountOfText(newCount, t4);
    }
    assert " @@" <= t4;
  }

  /** A line that does not start with `@` is no hunk header. */
  lemma NotHeader(l: string)
    requires l != [] && l[0] != '@'
    ensures HunkHeader(l).None?
  {
  }

  /** A `+`, `-` or ` ` line: an added, removed or context line of a hunk. The file
      headers `--- a/...` and `+++ b/...` have this form too. */
  predicate IsBodyLine(l: string)
  {
    l != [] && (l[0] == '+' || l[0] == '-' || l[0] == ' ')
  }

  /** What a diff line does to the scan: a hunk header resets the counter, a body line is
      a candidate and advances the counter unless it is a removal, any other line is
      passed over. */
  datatype LineRole = HeaderLine(start: nat) | BodyLine(advances: bool) | OtherLine

  /** The role of a diff line, checked in the loop's order: header first. */
  function RoleOf(l: string): (r: LineRole)
    ensures r.HeaderLine? <==> HunkHeader(l).Some?
    ensures HunkHeader(l).Some? ==> r == HeaderLine(HunkHeader(l).value.start)
    ensures r.BodyLine? <==> IsBodyLine(l) && HunkHeader(l).None?
    ensures r.BodyLine? ==> (r.advances <==> l[0] != '-')
  {
    match HunkHeader(l)
    case Some(h) => HeaderLine(h.start)
    case None => if IsBodyLine(l) then BodyLine(l[0] != '-') else OtherLine
  }

  /** The counter after one line of the given role. */
  function Advance(counter: int, role: LineRole): int
  {
    match role
    case HeaderLine(start) => start
    case BodyLine(advances) => if advances then counter + 1 else counter
    case OtherLine => counter
  }

  /** The counter after a run of diff lines, each line's role given by `roles`. */
  function CounterAfter(roles: string -> LineRole, lines: seq<string>, counter: int): int
  {
    if lines == [] then counter else CounterAfter(roles, lines[1..], Advance(counter, roles(lines[0])))
  }

  /** Line `i` is a body line met while the counter, starting at `counter`, equals `n`. */
  predicate SelectsAt(roles: string -> LineRole, lines: seq<string>, counter: int, n: int, i: int)
  {
    0 <= i < |lines| && roles(lines[i]).BodyLine? && CounterAfter(roles, lines[..i], counter) == n
  }

  /** The line the correlation loop settles on, scanning `lines` with the counter at
      `counter`. */
  function Scan(roles: string -> LineRole, lines: seq<string>, n: int, counter: int): (r: Option<string>)
    ensures r.Some? ==> roles(r.value).BodyLine?
  {
    if lines == [] then None
    else if roles(lines[0]).BodyLine? && counter == n then Some(lines[0])
    else Scan(roles, lines[1..], n, Advance(counter, roles(lines[0])))
  }

  /** The scan of `git diff` output lines. */
  function DiffScan(lines: seq<string>, n: int, counter: int): (r: Option<string>)
    ensures r.Some? ==> IsBodyLine(r.value) && HunkHeader(r.value).None?
  {
    Scan(RoleOf, lines, n, counter)
  }

  /** Selecting after the first line is selecting in the rest, with the counter advanced
      over the first line. */
  lemma SelectsAtShift(roles: string -> LineRole, lines: seq<string>, counter: int, n: int, i: int)
    requires lines != [] && i >= 1
    ensures SelectsAt(roles, lines, counter, n, i)
      <==> SelectsAt(roles, lines[1..], Advance(counter, roles(lines[0])), n, i - 1)
  {
    if i < |lines| {
      assert lines[..i][1..] == lines[1..][..i - 1];
      assert lines[i] == lines[1..][i - 1];
    }
  }

  /** The scan picks the first selectable line. */
  lemma {:induction false} ScanFindsFirst(roles: string -> LineRole, lines: seq<string>, counter: int, n: int, i: nat)
    requires SelectsAt(roles, lines, counter, n, i)
    requires forall j :: 0 <= j < i ==> !SelectsAt(roles, lines, counter, n, j)
    ensures Scan(roles, lines, n, counter) == Some(lines[i])
  {
    if i > 0 {
      var c := Advance(counter, roles(lines[0]));
      assert !SelectsAt(roles, lines, counter, n, 0);
      assert lines[..0] == [];
      SelectsAtShift(roles, lines, counter, n, i);
      forall j | 0 <= j < i - 1 ensures !SelectsAt(roles, lines[1..], c, n, j) {
        SelectsAtShift(roles, lines, counter, n, j + 1);
      }
      ScanFindsFirst(roles, lines[1..], c, n, i - 1);
    }
  }

  /** The scan finds nothing exactly when no line is selectable. */
  lemma {:induction false} ScanMissesIffNone(roles: string -> LineRole, lines: seq<string>, counter: int, n: int)
    ensures Scan(roles, lines, n, counter).None? <==> forall i :: !SelectsAt(roles, lines, counter, n, i)
    decreases |lines|
  {
    if lines != [] {
      var c := Advance(counter, roles(lines[0]));
      assert lines[..0] == [];
      if !SelectsAt(roles, lines, counter, n, 0) {
        ScanMissesIffNone(roles, lines[1..], c, n);
        forall i | i >= 1
          ensures SelectsAt(roles, lines, counter, n, i) <==> SelectsAt(roles, lines[1..], c, n, i - 1)
        {
          SelectsAtShift(roles, lines, counter, n, i);
        }
        if Scan(roles, lines, n, counter).Some? {
          var j :| SelectsAt(roles, lines[1..], c, n, j);
          SelectsAtShift(roles, lines, counter, n, j + 1);
        }
      }
    }
  }

  /** The worked example: after a header `@@ -5,3 +5,4 @@`, two context lines and an added
      one, the added line is the one for new-file line 7. */
  lemma ScanExample(header: string)
    requires HunkHeader(header) == Some(Hunk(5, 4))
    ensures DiffScan([header, " a", " b", "+foo();"], 7, 0) == Some("+foo();")
  {
    var lines := [header, " a", " b", "+foo();"];
    NotHeader(" a");
    NotHeader(" b");
    NotHeader("+foo();");
    assert RoleOf(header) == HeaderLine(5);
    assert RoleOf(" a") == BodyLine(true);
    assert RoleOf(" b") == BodyLine(true);
    assert RoleOf("+foo();") == BodyLine(true);
    assert lines[1..] == [" a", " b", "+foo();"];
    assert [" a", " b", "+foo();"][1..] == [" b", "+foo();"];
    assert [" b", "+foo();"][1..] == ["+foo();"];
    assert Scan(RoleOf, ["+foo();"], 7, 7) == Some("+foo();");
    assert Scan(RoleOf, [" b", "+foo();"], 7, 6) == Some("+foo();");
    assert Scan(RoleOf, [" a", " b", "+foo();"], 7, 5) == Some("+foo();");
  }

  /** The example's header, as diff writes it, is such a header. */
  lemma ExampleHeader()
    ensures HunkHeader(HeaderText(5, Some(3), 5, Some(4))) == Some(Hunk(5, 4))
  {
    HeaderRoundTrip(5, Some(3), 5, Some(4), "");
    assert HeaderText(5, Some(3), 5, Some(4)) + "" == HeaderText(5, Some(3), 5, Some(4));
  }

  /** The file headers before the first hunk are scanned as body lines with the counter at
      0, so for line number 0 the `--- a/...` header itself is picked. */
  lemma PreambleForLineZero(lines: seq<string>, oldName: string)
    requires lines != [] && lines[0] == "--- " + oldName
    ensures DiffScan(lines, 0, 0) == Some(lines[0])
  {
    assert lines[0][0] == '-';
    NotHeader(lines[0]);
  }

  /** The correlation loop of `get_git_blame` over the lines of `git diff` output. The flag
      `inHunk` is set to true at the top of every iteration, so the range it computes for
      a hunk header never excludes a line. */
  method FindDiffLine(diffOutput: string, lineNumber: nat) returns (lineDiff: Option<string>)
    ensures lineDiff == DiffScan(SplitLines(diffOutput), lineNumber, 0)
  {
    var lines := SplitLines(diffOutput);
    lineDiff := None;
    var currentLine := 0;
    for i := 0 to |lines|
      invariant DiffScan(lines, lineNumber, 0) == DiffScan(lines[i..], lineNumber, currentLine)
    {
      var diffLine := lines[i];
      var header := HunkHeader(diffLine);
      var inHunk := true;
      if header.Some? {
        var startLine := header.value.start;
        var lineCount := header.value.count;
        currentLine := startLine;
        inHunk := startLine <= lineNumber < startLine + lineCount;
      } else if inHunk && IsBodyLine(diffLine) {
        if currentLine == lineNumber {
          lineDiff := Some(diffLine);
          return;
        }
        if diffLine[0] != '-' {
          currentLine := currentLine + 1;
        }
      }
      assert lines[i..][1..] == lines[i + 1..];
    }
  }

  const UncommittedPrefix := "[Uncommitted changes] Last modified: "
  const DiffLineLabel := " | Diff line: "

  /** The summary an uncommitted line gets: the file's modification time, then the diff
      line found for it, stripped, when there is a non-empty one. */
  function UncommittedSummary(lastModified: string, lineDiff: Option<string>): (s: string)
    ensures UncommittedPrefix + lastModified <= s
    ensures s == UncommittedPrefix + lastModified <==> lineDiff.None? || lineDiff.value == ""
    ensures lineDiff.Some? && lineDiff.value != "" ==>
      s[|UncommittedPrefix + lastModified|..] == DiffLineLabel + Strip(lineDiff.value)
  {
    var base := UncommittedPrefix + lastModified;
    if lineDiff.Some? && lineDiff.value != "" then base + DiffLineLabel + Strip(lineDiff.value) else base
  }

  /** A line the scan finds always shows in the summary: it is never empty. */
  lemma FoundLineShows(lastModified: string, lines: seq<string>, n: int)
    requires DiffScan(lines, n, 0).Some?
    ensures UncommittedSummary(lastModified, DiffScan(lines, n, 0))
      == UncommittedPrefix + lastModified + DiffLineLabel + Strip(DiffScan(lines, n, 0).value)
  {
  }
}
