/** The outside world the log watcher consults, as fixed functions: the shell commands it
    runs, the path functions that depend on the working directory, and file times. */
module Oracles {
  import opened Wrappers
  import opened Text

  /** The commands the watcher runs.
      - `GrepHosts(p)`: `grep -l '<p>'` over every file of the host-config directory.
      - `ShowToplevel(dir)`: `git rev-parse --show-toplevel` run in `dir`.
      - `RemoteUrl(dir)`: `git config --get remote.origin.url` run in `dir`.
      - `BlameLine(repo, rel, n)`: `git blame -L n,n --porcelain rel` run in `repo`.
      - `DiffFile(repo, rel)`: `git diff rel` run in `repo`. */
  datatype Command =
    | GrepHosts(pattern: string)
    | ShowToplevel(dir: string)
    | RemoteUrl(dir: string)
    | BlameLine(repo: string, rel: string, line: nat)
    | DiffFile(repo: string, rel: string)

  /** The lookups that depend on the working directory and the file system:
      `os.path.abspath(p)`, `os.path.relpath(p, start)`, and a file's modification time in
      ISO format. */
  datatype OsQuery = AbsPath(path: string) | RelPath(path: string, start: string) | ModifiedTime(file: string)

  /** The outside world as two fixed functions: `run(c)` is what command `c` prints when
      it exits with status 0, and `None` when it exits with an error; for `RemoteUrl` it is
      the URL alone, without the newline git ends it with. `os(q)` answers a lookup. */
  datatype Env = Env(run: Command -> Option<string>, os: OsQuery -> string)

  /** The output of `grep -l '<p>' ... || true`: what grep prints, and nothing when it
      fails, since a grep that matches no file prints nothing. */
  function GrepOutput(env: Env, pattern: string): string
  {
    match env.run(GrepHosts(pattern))
    case Some(out) => out
    case None => ""
  }

  const UnknownRemote := "unknown"

  /** The output of `cd '<dir>' && git config --get remote.origin.url || echo 'unknown'`:
      git prints the URL on a line, and when it fails the shell prints `unknown`. */
  function RemoteOutput(env: Env, dir: string): string
  {
    match env.run(RemoteUrl(dir))
    case Some(url) => url + "\n"
    case None => UnknownRemote + "\n"
  }

  /** The remote the watcher records: the stripped command output. */
  function RemoteOf(env: Env, dir: string): string
  {
    Strip(RemoteOutput(env, dir))
  }

  /** The remote is `unknown` when git fails, and otherwise the URL without its
      surrounding whitespace; so it reads `unknown` only when git fails or the URL itself
      strips to `unknown`. */
  lemma RemoteOfCases(env: Env, dir: string)
    ensures env.run(RemoteUrl(dir)).None? ==> RemoteOf(env, dir) == UnknownRemote
    ensures env.run(RemoteUrl(dir)).Some? ==> RemoteOf(env, dir) == Strip(env.run(RemoteUrl(dir)).value)
    ensures RemoteOf(env, dir) == UnknownRemote ==>
      env.run(RemoteUrl(dir)).None? || Strip(env.run(RemoteUrl(dir)).value) == UnknownRemote
  {
    StripNewlineEnded(UnknownRemote);
    if env.run(RemoteUrl(dir)).Some? {
      StripDropsTrailingNewline(env.run(RemoteUrl(dir)).value);
    }
  }

  /** The repository root `get_project_info` records: the stripped output of
      `git rev-parse --show-toplevel`, or `None` when git fails. */
  function RootOf(env: Env, dir: string): Option<string>
  {
    match env.run(ShowToplevel(dir))
    case None => None
    case Some(out) => Some(Strip(out))
  }

  /** There is a root exactly when git succeeds, and it has no surrounding whitespace. */
  lemma RootOfCases(env: Env, dir: string)
    ensures RootOf(env, dir).None? <==> env.run(ShowToplevel(dir)).None?
    ensures RootOf(env, dir).Some? ==> Strip(RootOf(env, dir).value) == RootOf(env, dir).value
  {
    if env.run(ShowToplevel(dir)).Some? {
      TrimIdempotent(env.run(ShowToplevel(dir)).value, Whitespace);
    }
  }
}
