/** `LogWatcher.get_git_blame`: blame one line of a file in its repository, and for a line
    with uncommitted changes replace git's summary with the file's modification time and
    the matching line of `git diff`. */
module Blame {
  import opened Wrappers
  import opened Text
  import opened Oracles
  import opened Porcelain
  import DiffCorrelation

  /** The porcelain output of blaming line `n` of `file` in `repo`, when git succeeds. */
  function BlameOutput(env: Env, file: string, n: nat, repo: string): Option<string>
  {
    env.run(BlameLine(repo, env.os(RelPath(file, repo)), n))
  }

  /** What `get_git_blame(file, n, repo)` returns: `None` for a missing or empty
      repository path and whenever a git command fails; otherwise the parsed porcelain
      record, whose summary is replaced for an uncommitted line. */
  function BlameOf(env: Env, file: string, n: nat, repo: Option<string>): (r: Option<BlameInfo>)
    ensures r.Some? ==> repo.Some? && repo.value != "" && BlameOutput(env, file, n, repo.value).Some?
  {
    if repo.None? || repo.value == "" then None
    else
      var rel := env.os(RelPath(file, repo.value));
      match env.run(BlameLine(repo.value, rel, n))
      case None => None
      case Some(out) =>
        var b := Fold(SplitLines(out));
        if !b.isLocalChanges then Some(b)
        else
          match env.run(DiffFile(repo.value, rel))
          case None => None
          case Some(d) =>
            var lineDiff := DiffCorrelation.DiffScan(SplitLines(d), n, 0);
            Some(b.(summary := Some(DiffCorrelation.UncommittedSummary(env.os(ModifiedTime(file)), lineDiff))))
  }

  /** A record that comes back is the porcelain parse, changed in its summary alone and only
      for an uncommitted line, whose summary then starts with the file's modification time
      and is the summary of the diff line the hunk scan picks for the blamed line;
      the line counts as uncommitted exactly when a porcelain line starts with eight zeros. */
  lemma BlameOfReports(env: Env, file: string, n: nat, repo: Option<string>)
    ensures var r := BlameOf(env, file, n, repo);
      r.Some? ==>
        var lines := SplitLines(BlameOutput(env, file, n, repo.value).value);
        && r.value == Fold(lines).(summary := r.value.summary)
        && (r.value.isLocalChanges <==> exists j :: 0 <= j < |lines| && StartsWithZeroId(lines[j]))
        && (!r.value.isLocalChanges ==> r.value.summary == Fold(lines).summary)
        && (r.value.isLocalChanges ==>
              r.value.summary.Some?
              && DiffCorrelation.UncommittedPrefix + env.os(ModifiedTime(file)) <= r.value.summary.value)
        && (r.value.isLocalChanges ==>
              var diff := env.run(DiffFile(repo.value, env.os(RelPath(file, repo.value))));
              diff.Some?
              && r.value.summary == Some(DiffCorrelation.UncommittedSummary(
                   env.os(ModifiedTime(file)), DiffCorrelation.DiffScan(SplitLines(diff.value), n, 0))))
  {
    var r := BlameOf(env, file, n, repo);
    if r.Some? {
      LocalChangesIffZeroId(SplitLines(BlameOutput(env, file, n, repo.value).value));
    }
  }

  /** `None` comes back exactly when the repository path is missing or empty, when
      `git blame` fails, or when the line is uncommitted and `git diff` fails. */
  lemma BlameOfFails(env: Env, file: string, n: nat, repo: Option<string>)
    ensures BlameOf(env, file, n, repo).None? <==>
      || repo.None? || repo.value == ""
      || BlameOutput(env, file, n, repo.value).None?
      || (Fold(SplitLines(BlameOutput(env, file, n, repo.value).value)).isLocalChanges
          && env.run(DiffFile(repo.value, env.os(RelPath(file, repo.value)))).None?)
  {
  }

  /** The blame itself, as `get_git_blame` runs it: the parse loop, then for an
      uncommitted line the diff scan and the summary built up piece by piece. */
  method GitBlame(env: Env, file: string, n: nat, repo: Option<string>) returns (blame: Option<BlameInfo>)
    ensures blame == BlameOf(env, file, n, repo)
  {
    if repo.None? || repo.value == "" {
      return None;
    }
    var relPath := env.os(RelPath(file, repo.value));
    var blameOutput := env.run(BlameLine(repo.value, relPath, n));
    if blameOutput.None? {
      return None;
    }
    var b := ParsePorcelain(blameOutput.value);
    if b.isLocalChanges {
      var diffOutput := env.run(DiffFile(repo.value, relPath));
      if diffOutput.None? {
        return None;
      }
      var lineDiff := DiffCorrelation.FindDiffLine(diffOutput.value, n);
      var lastModified := env.os(ModifiedTime(file));
      var summary := DiffCorrelation.UncommittedPrefix + lastModified;
      if lineDiff.Some? && lineDiff.value != "" {
        summary := summary + DiffCorrelation.DiffLineLabel + Strip(lineDiff.value);
      }
      b := b.(summary := Some(summary));
    }
    return Some(b);
  }
}
