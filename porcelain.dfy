/** The parse of `git blame --porcelain` output for one line, as `get_git_blame` does it:
    line by line, by line prefix, the last matching line winning for each field. */
module Porcelain {
  import opened Wrappers
  import opened Text

  /** The blame record `get_git_blame` returns. */
  datatype BlameInfo = BlameInfo(
    author: Option<string>,
    email: Option<string>,
    commit: Option<string>,
    summary: Option<string>,
    isLocalChanges: bool)

  const EmptyBlame := BlameInfo(None, None, None, None, false)

  predicate IsLowerHex(c: char)
  {
    '0' <= c <= '9' || 'a' <= c <= 'f'
  }

  /** `re.match(r"^0{8,40}", line)`: the line starts with at least eight zeros. */
  predicate StartsWithZeroId(line: string)
  {
    |line| >= 8 && forall p :: 0 <= p < 8 ==> line[p] == '0'
  }

  /** `re.match(r"^[a-f0-9]{40}", line)`: the line starts with a full commit id. */
  predicate StartsWithCommitId(line: string)
  {
    |line| >= 40 && forall p :: 0 <= p < 40 ==> IsLowerHex(line[p])
  }

  /** Which field a porcelain line sets, checked in the order of the `elif` chain. */
  datatype LineKind = AuthorLine | MailLine | SummaryLine | CommitLine | OtherLine

  function KindOf(line: string): LineKind
  {
    if "author " <= line then AuthorLine
    else if "author-mail " <= line then MailLine
    else if "summary " <= line then SummaryLine
    else if StartsWithCommitId(line) then CommitLine
    else OtherLine
  }

  /** `s.split()[0]`: the first whitespace-separated word of `s` (empty when there is none). */
  function FirstWord(s: string): string
  {
    var t := TrimLeft(s, Whitespace);
    t[..IndexOfAny(t, 0, Whitespace)]
  }

  /** `s[:n]`. */
  function Take(s: string, n: nat): string
  {
    if n <= |s| then s[..n] else s
  }

  /** The value a line of the given kind stores. */
  function ValueOf(line: string, kind: LineKind): string
    requires KindOf(line) == kind && kind != OtherLine
  {
    match kind
    case AuthorLine => line[7..]
    case MailLine => Trim(line[12..], {'<', '>'})
    case SummaryLine => line[8..]
    case CommitLine => Take(FirstWord(line), 8)
  }

  /** The field a kind of line sets. */
  function Field(b: BlameInfo, kind: LineKind): Option<string>
  {
    match kind
    case AuthorLine => b.author
    case MailLine => b.email
    case SummaryLine => b.summary
    case CommitLine => b.commit
    case OtherLine => None
  }

  /** One iteration of the parse loop. */
  function Absorb(b: BlameInfo, line: string): BlameInfo
  {
    var b := if StartsWithZeroId(line) then b.(isLocalChanges := true) else b;
    match KindOf(line)
    case AuthorLine => b.(author := Some(ValueOf(line, AuthorLine)))
    case MailLine => b.(email := Some(ValueOf(line, MailLine)))
    case SummaryLine => b.(summary := Some(ValueOf(line, SummaryLine)))
    case CommitLine => b.(commit := Some(ValueOf(line, CommitLine)))
    case OtherLine => b
  }

  /** The record after the loop has seen `lines`, in order. */
  function Fold(lines: seq<string>): BlameInfo
  {
    if lines == [] then EmptyBlame else Absorb(Fold(lines[..|lines| - 1]), lines[|lines| - 1])
  }

  /** The parse loop of `get_git_blame` over the lines of the porcelain output. */
  method ParsePorcelain(output: string) returns (blame: BlameInfo)
    ensures blame == Fold(SplitLines(output))
  {
    var lines := SplitLines(output);
    blame := EmptyBlame;
    for n := 0 to |lines|
      invariant blame == Fold(lines[..n])
    {
      var line := lines[n];
      if StartsWithZeroId(line) {
        blame := blame.(isLocalChanges := true);
      }
      if "author " <= line {
        blame := blame.(author := Some(line[7..]));
      } else if "author-mail " <= line {
        blame := blame.(email := Some(Trim(line[12..], {'<', '>'})));
      } else if "summary " <= line {
        blame := blame.(summary := Some(line[8..]));
      } else if StartsWithCommitId(line) {
        blame := blame.(commit := Some(Take(FirstWord(line), 8)));
      }
      assert lines[..n + 1][..n] == lines[..n];
    }
    assert lines[..|lines|] == lines;
  }

  /** One loop iteration sets the field of its line's kind, and no other. */
  lemma AbsorbSetsOneField(b: BlameInfo, line: string, kind: LineKind)
    requires kind != OtherLine
    ensures Field(Absorb(b, line), kind) == if KindOf(line) == kind then Some(ValueOf(line, kind)) else Field(b, kind)
  {
  }

  /** The same, for the last line of a fold. */
  lemma FoldStep(lines: seq<string>, kind: LineKind)
    requires kind != OtherLine && lines != []
    ensures var last := lines[|lines| - 1];
      Field(Fold(lines), kind)
        == if KindOf(last) == kind then Some(ValueOf(last, kind)) else Field(Fold(lines[..|lines| - 1]), kind)
  {
    AbsorbSetsOneField(Fold(lines[..|lines| - 1]), lines[|lines| - 1], kind);
  }

  /** The index of the last line of the given kind, if there is one. */
  function LastOfKind(lines: seq<string>, kind: LineKind): (r: Option<nat>)
    ensures r.Some? ==> r.value < |lines| && KindOf(lines[r.value]) == kind
  {
    if lines == [] then None
    else if KindOf(lines[|lines| - 1]) == kind then Some(|lines| - 1)
    else LastOfKind(lines[..|lines| - 1], kind)
  }

  /** `LastOfKind` finds nothing exactly when no line has the kind, and otherwise a line of
      that kind after which none follows. */
  lemma {:induction false} LastOfKindIsLast(lines: seq<string>, kind: LineKind)
    ensures var r := LastOfKind(lines, kind);
      && (r.None? <==> forall j :: 0 <= j < |lines| ==> KindOf(lines[j]) != kind)
      && (r.Some? ==> forall j :: r.value < j < |lines| ==> KindOf(lines[j]) != kind)
  {
    if lines != [] {
      var init := lines[..|lines| - 1];
      LastOfKindIsLast(init, kind);
      assert forall j :: 0 <= j < |init| ==> init[j] == lines[j];
    }
  }

  /** For each field, the last line of its kind wins: the field holds that line's value,
      and stays unset when no line has that kind. */
  lemma {:induction false} LastLineWins(lines: seq<string>, kind: LineKind)
    requires kind != OtherLine
    ensures var last := LastOfKind(lines, kind);
      Field(Fold(lines), kind) == if last.None? then None else Some(ValueOf(lines[last.value], kind))
  {
    if lines != [] {
      var init := lines[..|lines| - 1];
      FoldStep(lines, kind);
      LastLineWins(init, kind);
      var last := LastOfKind(init, kind);
      if last.Some? {
        assert lines[last.value] == init[last.value];
      }
    }
  }

  /** The line is reported as uncommitted exactly when some porcelain line starts with
      eight or more zeros. */
  lemma {:induction false} LocalChangesIffZeroId(lines: seq<string>)
    ensures Fold(lines).isLocalChanges <==> exists j :: 0 <= j < |lines| && StartsWithZeroId(lines[j])
  {
    if lines != [] {
      var init := lines[..|lines| - 1];
      LocalChangesIffZeroId(init);
      assert forall j :: 0 <= j < |init| ==> init[j] == lines[j];
    }
  }

  /** On a line that starts with a commit id, the stored commit is the first eight
      characters of the line. */
  lemma CommitIsIdPrefix(line: string)
    requires StartsWithCommitId(line)
    ensures KindOf(line) == CommitLine ==> ValueOf(line, CommitLine) == line[..8]
  {
    assert line[0] !in Whitespace;
    assert TrimLeft(line, Whitespace) == line;
    var e := IndexOfAny(line, 0, Whitespace);
    assert forall p :: 0 <= p < 40 ==> line[p] !in Whitespace;
    assert e >= 40;
  }

  /** The header line git gives an uncommitted line, forty zeros, both sets the
      local-changes flag and counts as a commit id, so the commit reads `00000000`. */
  lemma {:induction false} UncommittedHeader(header: string)
    requires |header| >= 40 && forall p :: 0 <= p < 40 ==> header[p] == '0'
    ensures StartsWithZeroId(header) && KindOf(header) == CommitLine
    ensures ValueOf(header, CommitLine) == "00000000"
    ensures Absorb(EmptyBlame, header) == EmptyBlame.(isLocalChanges := true, commit := Some("00000000"))
  {
    assert !("author " <= header) by { assert header[0] == '0'; }
    assert !("author-mail " <= header) by { assert header[0] == '0'; }
    assert !("summary " <= header) by { assert header[0] == '0'; }
    CommitIsIdPrefix(header);
    assert header[..8] == "00000000";
  }
}
