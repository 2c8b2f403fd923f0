/** The older single-file watcher, `apache_log_watcher.template.py`: every log line that
    mentions PHP or an error is enriched on its own, with no grouping and no cache. The host
    search greps for the file path itself, the blame parse has no local-changes branch, and
    the host configuration and remote are always strings. */
module Template {
  import opened Wrappers
  import opened Text
  import opened PosixPath
  import opened Oracles
  import opened Location
  import opened Porcelain
  import opened Blame
  import opened Vhost
  import opened Watcher

  // ---------------------------------------------------------------- blame

  /** The template's blame record: the ingester's fields without the local-changes flag. */
  datatype TemplateBlame = TemplateBlame(
    author: Option<string>,
    email: Option<string>,
    commit: Option<string>,
    summary: Option<string>)

  const EmptyTemplateBlame := TemplateBlame(None, None, None, None)

  /** An ingester record with its flag dropped. */
  function Unflagged(b: BlameInfo): TemplateBlame
  {
    TemplateBlame(b.author, b.email, b.commit, b.summary)
  }

  /** The field a kind of line sets. */
  function TemplateField(t: TemplateBlame, kind: LineKind): Option<string>
  {
    match kind
    case AuthorLine => t.author
    case MailLine => t.email
    case SummaryLine => t.summary
    case CommitLine => t.commit
    case OtherLine => None
  }

  /** One iteration of the template's parse loop: the same prefix tests in the same order,
      and no test for a zero commit id. */
  function TemplateAbsorb(t: TemplateBlame, line: string): TemplateBlame
  {
    match KindOf(line)
    case AuthorLine => t.(author := Some(ValueOf(line, AuthorLine)))
    case MailLine => t.(email := Some(ValueOf(line, MailLine)))
    case SummaryLine => t.(summary := Some(ValueOf(line, SummaryLine)))
    case CommitLine => t.(commit := Some(ValueOf(line, CommitLine)))
    case OtherLine => t
  }

  /** The record after the loop has seen `lines`, in order. */
  function TemplateFold(lines: seq<string>): TemplateBlame
  {
    if lines == [] then EmptyTemplateBlame
    else TemplateAbsorb(TemplateFold(lines[..|lines| - 1]), lines[|lines| - 1])
  }

  /** Both watchers parse porcelain output alike: the template's record is the ingester's
      without the flag. */
  lemma {:induction false} TemplateFoldAgrees(lines: seq<string>)
    ensures TemplateFold(lines) == Unflagged(Fold(lines))
  {
    if lines != [] {
      TemplateFoldAgrees(lines[..|lines| - 1]);
    }
  }

  /** In the template too the last line of each kind wins, and a field no line sets stays
      unset. */
  lemma TemplateLastLineWins(lines: seq<string>, kind: LineKind)
    requires kind != OtherLine
    ensures var last := LastOfKind(lines, kind);
      TemplateField(TemplateFold(lines), kind) == if last.None? then None else Some(ValueOf(lines[last.value], kind))
  {
    TemplateFoldAgrees(lines);
    LastLineWins(lines, kind);
  }

  /** Git's header for an uncommitted line, forty zeros, gives the template the commit
      `00000000`; nothing marks the line as uncommitted. */
  lemma TemplateUncommittedHeader(header: string)
    requires |header| >= 40 && forall p :: 0 <= p < 40 ==> header[p] == '0'
    ensures TemplateAbsorb(EmptyTemplateBlame, header) == EmptyTemplateBlame.(commit := Some("00000000"))
  {
    UncommittedHeader(header);
  }

  /** The parse loop of the template's `get_git_blame`. */
  method TemplateParse(output: string) returns (blame: TemplateBlame)
    ensures blame == TemplateFold(SplitLines(output))
  {
    var lines := SplitLines(output);
    blame := EmptyTemplateBlame;
    for n := 0 to |lines|
      invariant blame == TemplateFold(lines[..n])
    {
      var line := lines[n];
      if "author " <= line {
        blame := blame.(author := Some(line[7..]));
      } else if "author-mail " <= line {
        blame := blame.(email := Some(Trim(line[12..], {'<', '>'})));
      } else if "summary " <= line {
        blame := blame.(summary := Some(line[8..]));
      } else if StartsWithCommitId(line) {
        blame := blame.(commit := Some(Take(FirstWord(line), 8)));
      }
      assert lines[..n + 1][..n] == lines[..n];
    }
    assert lines[..|lines|] == lines;
  }

  /** What the template's `get_git_blame(file, n)` returns: `None` when `git rev-parse` or
      `git blame` fails, and otherwise the parsed record. The root is asked afresh on every
      call and used even when empty. */
  function TemplateBlameOf(env: Env, file: string, n: nat): Option<TemplateBlame>
  {
    match env.run(ShowToplevel(env.os(AbsPath(Dirname(file)))))
    case None => None
    case Some(out) =>
      var repo := Strip(out);
      match env.run(BlameLine(repo, env.os(RelPath(file, repo)), n))
      case None => None
      case Some(o) => Some(TemplateFold(SplitLines(o)))
  }

  /** The template blames a line exactly when the ingester's root lookup and blame command
      succeed, with the same parse; for a committed line in a named repository the two
      records agree except for the ingester's flag. */
  lemma TemplateBlameVsIngester(env: Env, file: string, n: nat)
    ensures var root := RootOf(env, env.os(AbsPath(Dirname(file))));
      && (TemplateBlameOf(env, file, n).None? <==> root.None? || BlameOutput(env, file, n, root.value).None?)
      && (TemplateBlameOf(env, file, n).Some? ==>
            TemplateBlameOf(env, file, n).value == Unflagged(Fold(SplitLines(BlameOutput(env, file, n, root.value).value))))
      && (BlameOf(env, file, n, root).Some? && !BlameOf(env, file, n, root).value.isLocalChanges ==>
            TemplateBlameOf(env, file, n) == Some(Unflagged(BlameOf(env, file, n, root).value)))
  {
    var root := RootOf(env, env.os(AbsPath(Dirname(file))));
    if root.Some? && BlameOutput(env, file, n, root.value).Some? {
      TemplateFoldAgrees(SplitLines(BlameOutput(env, file, n, root.value).value));
    }
  }

  /** `get_git_blame` of the template, as it runs. */
  method TemplateGitBlame(env: Env, file: string, n: nat) returns (blame: Option<TemplateBlame>)
    ensures blame == TemplateBlameOf(env, file, n)
  {
    var toplevel := env.run(ShowToplevel(env.os(AbsPath(Dirname(file)))));
    if toplevel.None? {
      return None;
    }
    var repoPath := Strip(toplevel.value);
    var relPath := env.os(RelPath(file, repoPath));
    var blameOutput := env.run(BlameLine(repoPath, relPath, n));
    if blameOutput.None? {
      return None;
    }
    var b := TemplateParse(blameOutput.value);
    return Some(b);
  }

  // ---------------------------------------------------------------- payload

  /** The payload the template sends. */
  datatype Payload = Payload(
    file: string,
    line: nat,
    vhost: string,
    gitRemote: string,
    errorLine: string,
    blame: Option<TemplateBlame>)

  /** The payload for a line that names `site`: grep for the file path itself, the remote of
      its directory, both stripped, and the blame. */
  function SitePayload(env: Env, site: ErrorSite, errorLine: string): Payload
  {
    Payload(
      site.file,
      site.line,
      Strip(GrepOutput(env, site.file)),
      Strip(RemoteOutput(env, env.os(AbsPath(Dirname(site.file))))),
      Strip(errorLine),
      TemplateBlameOf(env, site.file, site.line))
  }

  /** What the template's `get_project_info` returns. */
  function PayloadOf(env: Env, errorLine: string): Option<Payload>
  {
    match SiteOf(errorLine)
    case None => None
    case Some(site) => Some(SitePayload(env, site, errorLine))
  }

  /** The template finds a site exactly when the ingester does, and reports the same file,
      line, remote and error line; its host configuration is the answer of one grep for the
      file path, the empty string when nothing matched, where the ingester walks up from the
      file's directory. */
  lemma PayloadVsIngester(env: Env, errorLine: string)
    ensures PayloadOf(env, errorLine).Some? <==> ProjectInfoOf(env, errorLine).Some?
    ensures PayloadOf(env, errorLine).Some? ==>
      var p := PayloadOf(env, errorLine).value;
      var info := ProjectInfoOf(env, errorLine).value;
      && p.file == info.file && p.line == info.line
      && p.gitRemote == info.gitRemote && p.errorLine == info.errorLine
      && p.vhost == Answer(env, p.file)
      && p.blame == TemplateBlameOf(env, info.file, info.line)
  {
  }

  /** The template's `get_project_info`, as it runs. */
  method GetPayload(env: Env, errorLine: string) returns (payload: Option<Payload>)
    ensures payload == PayloadOf(env, errorLine)
  {
    var m := Search(errorLine);
    if m.None? {
      return None;
    }
    SearchGroupsShape(errorLine);
    var filePath := Strip(m.value.path);
    var lineNumber := DecimalValue(m.value.digits);
    var vhost := GrepOutput(env, filePath);
    var gitRemote := RemoteOutput(env, env.os(AbsPath(Dirname(filePath))));
    var blame := TemplateGitBlame(env, filePath, lineNumber);
    payload := Some(Payload(filePath, lineNumber, Strip(vhost), Strip(gitRemote), Strip(errorLine), blame));
  }

  // ---------------------------------------------------------------- tailing

  /** The filter of `tail_and_watch`: `PHP` in the line as written, or `error` in any case. */
  predicate PassesFilter(line: string)
  {
    Contains(line, "PHP") || Contains(Lower(line), "error")
  }

  /** `error` in some mix of cases at index `i` of `line`. */
  predicate ErrorAt(line: string, i: int)
  {
    0 <= i <= |line| - 5 && forall p :: 0 <= p < 5 ==> LowerChar(line[i + p]) == "error"[p]
  }

  /** A line passes exactly when `PHP` occurs in it, or `error` spelt in any cases. */
  lemma PassesFilterAt(line: string)
    ensures PassesFilter(line) <==> (exists i :: OccursAt(line, "PHP", i)) || (exists i :: ErrorAt(line, i))
  {
    ContainsAt(line, "PHP");
    ContainsAt(Lower(line), "error");
    var low := Lower(line);
    forall i | 0 <= i <= |line| - 5
      ensures OccursAt(low, "error", i) <==> ErrorAt(line, i)
    {
      assert low[i..i + 5] == Lower(line[i..i + 5]);
    }
  }

  /** A line the loop acts on: one `readline` returned before the end of the file, that
      passes the filter and names a site. */
  predicate Sends(env: Env, line: string, p: Payload)
  {
    line != "" && PassesFilter(line) && PayloadOf(env, line) == Some(p)
  }

  /** What one string `readline` returned sends: nothing for the end of the file, for a
      line the filter drops and for a line that names no site. */
  function SentFor(env: Env, line: string): seq<Payload>
  {
    if line != "" && PassesFilter(line) && PayloadOf(env, line).Some? then [PayloadOf(env, line).value] else []
  }

  lemma SentForSends(env: Env, line: string)
    ensures |SentFor(env, line)| <= 1
    ensures forall p :: p in SentFor(env, line) <==> Sends(env, line, p)
  {
  }

  /** The payloads sent for the strings `readline` returned, in order. */
  function Sent(env: Env, lines: seq<string>): seq<Payload>
  {
    if lines == [] then [] else Sent(env, lines[..|lines| - 1]) + SentFor(env, lines[|lines| - 1])
  }

  /** Lines are handled one by one: what a stretch of reading sends is what its parts send,
      one after the other. */
  lemma {:induction false} SentSplits(env: Env, a: seq<string>, b: seq<string>)
    ensures Sent(env, a + b) == Sent(env, a) + Sent(env, b)
  {
    if b != [] {
      var init := b[..|b| - 1];
      assert (a + b)[..|a + b| - 1] == a + init;
      SentSplits(env, a, init);
    } else {
      assert a + b == a;
    }
  }

  /** At most one payload is sent per line read. */
  lemma {:induction false} SentAtMostOnePerLine(env: Env, lines: seq<string>)
    ensures |Sent(env, lines)| <= |lines|
  {
    if lines != [] {
      SentAtMostOnePerLine(env, lines[..|lines| - 1]);
      SentForSends(env, lines[|lines| - 1]);
    }
  }

  /** Every payload sent comes from a line read that passes the filter and yields it. */
  lemma {:induction false} SentOnlyFiltered(env: Env, lines: seq<string>, p: Payload)
    requires p in Sent(env, lines)
    ensures exists i :: 0 <= i < |lines| && Sends(env, lines[i], p)
  {
    var init := lines[..|lines| - 1];
    var last := lines[|lines| - 1];
    if p in Sent(env, init) {
      SentOnlyFiltered(env, init, p);
      var i :| 0 <= i < |init| && Sends(env, init[i], p);
      assert init[i] == lines[i];
    } else {
      SentForSends(env, last);
      assert Sends(env, lines[|lines| - 1], p);
    }
  }

  /** Every line read that passes the filter and names a site has its payload sent. */
  lemma {:induction false} SentEveryFiltered(env: Env, lines: seq<string>, i: nat, p: Payload)
    requires i < |lines| && Sends(env, lines[i], p)
    ensures p in Sent(env, lines)
  {
    var init := lines[..|lines| - 1];
    var last := lines[|lines| - 1];
    if i < |init| {
      assert init[i] == lines[i];
      SentEveryFiltered(env, init, i, p);
    } else {
      assert i == |lines| - 1;
      assert Sends(env, last, p);
      SentForSends(env, last);
    }
  }

  /** The read loop of `tail_and_watch`, over the strings `readline` returns. */
  method TailAndWatch(env: Env, lines: seq<string>) returns (sent: seq<Payload>)
    ensures sent == Sent(env, lines)
  {
    sent := [];
    for i := 0 to |lines|
      invariant sent == Sent(env, lines[..i])
    {
      assert lines[..i + 1][..i] == lines[..i];
      var line := lines[i];
      if line == "" {
        continue;
      }
      if PassesFilter(line) {
        var payload := GetPayload(env, line);
        if payload.Some? {
          sent := sent + [payload.value];
        }
      }
    }
    assert lines[..|lines|] == lines;
  }
}
