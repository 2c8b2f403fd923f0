/** `LogWatcher`'s enrichment of an error trace: where the error happened, which host
    configuration serves that file, which repository holds it and who last changed the line.
    The watcher memoises the host search by file, and the repository root and remote by
    directory; the answers of the outside world are fixed functions (`Env`), so every cached
    entry is the answer a fresh query would give, and caching never changes a result. */
module Watcher {
  import opened Wrappers
  import opened Text
  import opened PosixPath
  import opened Oracles
  import opened Location
  import opened Porcelain
  import opened Vhost
  import opened Blame

  /** The record `get_project_info` returns. */
  datatype ProjectInfo = ProjectInfo(
    file: string,
    line: nat,
    vhost: Option<string>,
    gitRemote: string,
    errorLine: string,
    blame: Option<BlameInfo>)

  /** The blame-cache key, `f"{file_path}:{line_number}"`. */
  function BlameKey(site: ErrorSite): string
  {
    site.file + ":" + Decimal(site.line)
  }

  /** Different sites have different keys: the number has no colon, so the key's last
      colon separates the file from the number. */
  lemma BlameKeyInjective(s1: ErrorSite, s2: ErrorSite)
    requires BlameKey(s1) == BlameKey(s2)
    ensures s1 == s2
  {
    var f1, n1, f2, n2 := s1.file, s1.line, s2.file, s2.line;
    var d1, d2 := Decimal(n1), Decimal(n2);
    var key := BlameKey(s1);
    assert key == f1 + [':'] + d1 && key == f2 + [':'] + d2;
    assert |d1| == |d2| by {
      assert key[|f1|] == ':' && key[|f2|] == ':';
    }
    assert f1 == key[..|f1|] == f2;
    assert d1 == key[|f1| + 1..] == d2;
    DecimalRoundTrip(n1);
    DecimalRoundTrip(n2);
  }

  /** A found host configuration as the record carries it: stripped, and `None` for
      nothing found. */
  function RecordedVhost(found: Option<string>): Option<string>
  {
    if found.Some? && found.value != "" then Some(Strip(found.value)) else None
  }

  /** What `get_project_info` returns, computed without any cache. */
  function ProjectInfoOf(env: Env, errorLine: string): Option<ProjectInfo>
  {
    match SiteOf(errorLine)
    case None => None
    case Some(site) => Some(SiteInfo(env, site, errorLine))
  }

  /** The record for a trace that names `site`. */
  function SiteInfo(env: Env, site: ErrorSite, errorLine: string): ProjectInfo
  {
    var dir := env.os(AbsPath(Dirname(site.file)));
    ProjectInfo(
      site.file,
      site.line,
      RecordedVhost(VhostFor(env, site.file).found),
      RemoteOf(env, dir),
      Strip(errorLine),
      BlameOf(env, site.file, site.line, RootOf(env, dir)))
  }

  /** The record exists exactly when the pattern occurs in the trace. Its file is the
      stripped path group of the leftmost, shortest occurrence and holds no newline; its
      line is the value of the digit group; its host configuration is what the upward
      search found, already stripped; its remote and blame are those of the file's
      directory and repository. */
  lemma ProjectInfoFields(env: Env, errorLine: string)
    ensures ProjectInfoOf(env, errorLine).None? <==> forall j, k :: !MatchesAt(errorLine, j, k)
    ensures ProjectInfoOf(env, errorLine).Some? ==>
      var info := ProjectInfoOf(env, errorLine).value;
      var g := Search(errorLine).value;
      var dir := env.os(AbsPath(Dirname(info.file)));
      && info.file == Strip(g.path) && NoNewline(info.file)
      && AllDigits(g.digits) && info.line == DecimalValue(g.digits)
      && info.vhost == VhostFor(env, info.file).found
      && info.gitRemote == RemoteOf(env, dir)
      && info.errorLine == Strip(errorLine)
      && info.blame == BlameOf(env, info.file, info.line, RootOf(env, dir))
  {
    SearchFindsAnyMatch(errorLine);
    SearchGroupsShape(errorLine);
    if Search(errorLine).Some? {
      var g := Search(errorLine).value;
      TrimIsSlice(g.path, Whitespace);
      var file := Strip(g.path);
      WalkFoundIsStripped(env, Dirname(file));
    }
  }

  /** The host configuration found for a file. */
  function FileVhost(env: Env, file: string): Option<string>
  {
    VhostFor(env, file).found
  }

  /** Each cached host configuration is the search's answer for its file. */
  ghost predicate VhostAgrees(cache: map<string, Option<string>>, env: Env)
  {
    forall p :: p in cache ==> cache[p] == FileVhost(env, p)
  }

  /** Appending to a log is associative; the search loop's log invariant needs it. */
  lemma AppendAssoc(a: seq<string>, b: seq<string>, c: seq<string>)
    ensures a + (b + c) == (a + b) + c
  {
  }

  /** Storing the true answer for a file keeps the host cache in agreement. */
  lemma VhostAgreesAfterStore(cache: map<string, Option<string>>, env: Env, file: string)
    requires VhostAgrees(cache, env)
    ensures VhostAgrees(cache[file := FileVhost(env, file)], env)
  {
  }

  /** Each cached root is what `git rev-parse` gives for its directory. */
  ghost predicate RootAgrees(cache: map<string, Option<string>>, env: Env)
  {
    forall d :: d in cache ==> cache[d] == RootOf(env, d)
  }

  /** Each cached remote is what `git config` gives for its directory. */
  ghost predicate RemoteAgrees(cache: map<string, string>, env: Env)
  {
    forall d :: d in cache ==> cache[d] == RemoteOf(env, d)
  }

  /** The blame of a site, in the repository of its directory. */
  function SiteBlame(env: Env, site: ErrorSite): Option<BlameInfo>
  {
    BlameOf(env, site.file, site.line, RootOf(env, env.os(AbsPath(Dirname(site.file)))))
  }

  /** Each blame entry, under the key of some site, is that site's blame. */
  ghost predicate BlameAgrees(cache: map<string, Option<BlameInfo>>, env: Env)
  {
    forall site :: BlameKey(site) in cache ==> cache[BlameKey(site)] == SiteBlame(env, site)
  }

  lemma BlameAgreesAfterStore(cache: map<string, Option<BlameInfo>>, env: Env, site: ErrorSite)
    requires BlameAgrees(cache, env)
    ensures BlameAgrees(cache[BlameKey(site) := SiteBlame(env, site)], env)
  {
    forall other | BlameKey(other) == BlameKey(site)
      ensures other == site
    {
      BlameKeyInjective(other, site);
    }
  }

  lemma BlameAgreesAfterRemove(cache: map<string, Option<BlameInfo>>, env: Env, gone: set<string>)
    requires BlameAgrees(cache, env)
    ensures BlameAgrees(cache - gone, env)
  {
  }

  class LogWatcher {
    /** The outside world the watcher asks. */
    const env: Env

    /** `vhost_cache`: host configuration by file, never evicted. */
    var vhostCache: map<string, Option<string>>
    /** `git_root_cache`: repository root by directory, `None` where git failed. */
    var gitRootCache: map<string, Option<string>>
    /** `git_remote_cache`: remote by directory. */
    var gitRemoteCache: map<string, string>
    /** `git_blame_cache`: blame by `BlameKey`. */
    var gitBlameCache: map<string, Option<BlameInfo>>

    /** The queries sent so far: grep patterns, `git rev-parse` and `git config`
        directories, blamed sites. */
    ghost var grepLog: seq<string>
    ghost var revParseLog: seq<string>
    ghost var remoteLog: seq<string>
    ghost var blameLog: seq<ErrorSite>

    /** Every cached entry is what a fresh query would give. */
    ghost predicate Valid()
      reads this
    {
      VhostValid() && RootValid() && RemoteValid() && BlameValid()
    }

    ghost predicate VhostValid()
      reads this`vhostCache
    {
      VhostAgrees(vhostCache, env)
    }

    ghost predicate RootValid()
      reads this`gitRootCache
    {
      RootAgrees(gitRootCache, env)
    }

    ghost predicate RemoteValid()
      reads this`gitRemoteCache
    {
      RemoteAgrees(gitRemoteCache, env)
    }

    ghost predicate BlameValid()
      reads this`gitBlameCache
    {
      BlameAgrees(gitBlameCache, env)
    }

    constructor(env: Env)
      ensures this.env == env && Valid()
      ensures vhostCache == map[] && gitRootCache == map[] && gitRemoteCache == map[] && gitBlameCache == map[]
      ensures grepLog == [] && revParseLog == [] && remoteLog == [] && blameLog == []
    {
      this.env := env;
      vhostCache := map[];
      gitRootCache := map[];
      gitRemoteCache := map[];
      gitBlameCache := map[];
      grepLog := [];
      revParseLog := [];
      remoteLog := [];
      blameLog := [];
    }

    /** `find_vhost_for_path`: a cached file gets its stored answer, `None` included, with
        no grep; otherwise the upward search runs, and its outcome is stored under the file.
        Either way the answer is the search's. */
    method FindVhostForPath(filePath: string) returns (found: Option<string>)
      requires Valid()
      modifies this`vhostCache, this`grepLog
      ensures Valid()
      ensures found == FileVhost(env, filePath)
      ensures vhostCache == old(vhostCache)[filePath := found]
      ensures grepLog == if filePath in old(vhostCache) then old(grepLog) else old(grepLog) + VhostFor(env, filePath).queries
    {
      if filePath in vhostCache {
        return vhostCache[filePath];
      }
      found := SearchVhost(filePath);
      VhostAgreesAfterStore(vhostCache, env, filePath);
      vhostCache := vhostCache[filePath := found];
    }

    /** The search loop of `find_vhost_for_path`: grep for the file's directory, then for
        each parent in turn, until grep names a config or the parent is the directory
        itself or the root. Each query is logged. */
    method SearchVhost(filePath: string) returns (found: Option<string>)
      modifies this`grepLog
      ensures found == FileVhost(env, filePath)
      ensures grepLog == old(grepLog) + VhostFor(env, filePath).queries
    {
      var searchPath := Dirname(filePath);
      found := None;
      ghost var walk := VhostFor(env, filePath);
      while true
        invariant walk.found == VhostWalk(env, searchPath).found
        invariant found.None?
        invariant old(grepLog) + walk.queries == grepLog + VhostWalk(env, searchPath).queries
        decreases |searchPath|
      {
        VhostWalkStep(env, searchPath);
        ghost var before := grepLog;
        var result := AskGrep(searchPath);
        if result != "" {
          found := Some(result);
          break;
        }
        var parentPath := Dirname(searchPath);
        if parentPath == searchPath || parentPath == "/" {
          break;
        }
        DirnameFixpoint(searchPath);
        AppendAssoc(before, [searchPath], VhostWalk(env, parentPath).queries);
        searchPath := parentPath;
      }
    }

    /** One query of the search loop: grep for `p` over the host configuration, logged,
        and its output stripped. */
    method AskGrep(p: string) returns (result: string)
      modifies this`grepLog
      ensures result == Answer(env, p)
      ensures grepLog == old(grepLog) + [p]
    {
      grepLog := grepLog + [p];
      result := Strip(GrepOutput(env, p));
    }

    /** The repository root of a directory, from the cache or else from
        `git rev-parse --show-toplevel`, whose answer (`None` on failure) is stored. */
    method RepoRoot(dir: string) returns (root: Option<string>)
      requires Valid()
      modifies this`gitRootCache, this`revParseLog
      ensures Valid()
      ensures root == RootOf(env, dir)
      ensures gitRootCache == old(gitRootCache)[dir := root]
      ensures revParseLog == (if dir in old(gitRootCache) then old(revParseLog) else old(revParseLog) + [dir])
    {
      if dir in gitRootCache {
        root := gitRootCache[dir];
      } else {
        revParseLog := revParseLog + [dir];
        var out := env.run(ShowToplevel(dir));
        root := if out.Some? then Some(Strip(out.value)) else None;
        gitRootCache := gitRootCache[dir := root];
      }
    }

    /** The remote of a directory, from the cache or else from `git config`, falling back
        to `unknown`; the stripped answer is stored. */
    method GitRemote(dir: string) returns (remote: string)
      requires Valid()
      modifies this`gitRemoteCache, this`remoteLog
      ensures Valid()
      ensures remote == RemoteOf(env, dir)
      ensures gitRemoteCache == old(gitRemoteCache)[dir := remote]
      ensures remoteLog == (if dir in old(gitRemoteCache) then old(remoteLog) else old(remoteLog) + [dir])
    {
      if dir in gitRemoteCache {
        remote := gitRemoteCache[dir];
      } else {
        remoteLog := remoteLog + [dir];
        remote := Strip(RemoteOutput(env, dir));
        gitRemoteCache := gitRemoteCache[dir := remote];
      }
    }

    /** The blame of a site, always recomputed and then stored under its key; the read of
        the cache that follows always finds the value just stored. */
    method CachedBlame(site: ErrorSite, root: Option<string>) returns (blame: Option<BlameInfo>)
      requires Valid() && root == RootOf(env, env.os(AbsPath(Dirname(site.file))))
      modifies this`gitBlameCache, this`blameLog
      ensures Valid()
      ensures blame == BlameOf(env, site.file, site.line, root)
      ensures gitBlameCache == old(gitBlameCache)[BlameKey(site) := blame]
      ensures blameLog == old(blameLog) + [site]
    {
      var blameKey := BlameKey(site);
      blameLog := blameLog + [site];
      blame := GitBlame(env, site.file, site.line, root);
      gitBlameCache := gitBlameCache[blameKey := blame];
      assert blame == SiteBlame(env, site);
      BlameAgreesAfterStore(old(gitBlameCache), env, site);
      if blameKey in gitBlameCache {
        blame := gitBlameCache[blameKey];
      } else {
        assert false;
      }
    }

    /** The effect of describing `site` on the caches and the query logs: the host search
        for its file, the root and the remote of its directory, each asked only when not
        cached, and the blame of the site, always asked. Every cache ends up holding the
        true answer. */
    twostate predicate Described(site: ErrorSite)
      reads this
    {
      var dir := env.os(AbsPath(Dirname(site.file)));
      var walk := VhostFor(env, site.file);
      && vhostCache == old(vhostCache)[site.file := walk.found]
      && grepLog == (if site.file in old(vhostCache) then old(grepLog) else old(grepLog) + walk.queries)
      && RepoDescribed(site)
    }

    /** The effect of the repository lookups for `site` on their caches and query logs. */
    twostate predicate RepoDescribed(site: ErrorSite)
      reads this
    {
      var dir := env.os(AbsPath(Dirname(site.file)));
      && gitRootCache == old(gitRootCache)[dir := RootOf(env, dir)]
      && revParseLog == (if dir in old(gitRootCache) then old(revParseLog) else old(revParseLog) + [dir])
      && gitRemoteCache == old(gitRemoteCache)[dir := RemoteOf(env, dir)]
      && remoteLog == (if dir in old(gitRemoteCache) then old(remoteLog) else old(remoteLog) + [dir])
      && gitBlameCache == old(gitBlameCache)[BlameKey(site) := SiteBlame(env, site)]
      && blameLog == old(blameLog) + [site]
    }

    /** `get_project_info`: `None`, and nothing asked or stored, when the trace names no
        site; otherwise the record, with the host search, the root and the remote taken
        from their caches where present, and the blame recomputed. */
    method GetProjectInfo(errorLine: string) returns (info: Option<ProjectInfo>)
      requires Valid()
      modifies this
      ensures Valid()
      ensures info == ProjectInfoOf(env, errorLine)
      ensures SiteOf(errorLine).None? ==> unchanged(this)
      ensures SiteOf(errorLine).Some? ==> Described(SiteOf(errorLine).value)
    {
      var m := Search(errorLine);
      if m.None? {
        return None;
      }
      SearchGroupsShape(errorLine);
      var filePath := Strip(m.value.path);
      var lineNumber := DecimalValue(m.value.digits);
      assert SiteOf(errorLine) == Some(ErrorSite(filePath, lineNumber));
      var record := DescribeSite(ErrorSite(filePath, lineNumber), errorLine);
      info := Some(record);
    }

    /** The lookups of `get_project_info` once the trace has named a site. */
    method DescribeSite(site: ErrorSite, errorLine: string) returns (info: ProjectInfo)
      requires Valid()
      modifies this
      ensures Valid()
      ensures info == SiteInfo(env, site, errorLine)
      ensures Described(site)
    {
      var vhost := FindVhostForPath(site.file);
      var gitRemote, blame := DescribeRepo(site);
      info := ProjectInfo(site.file, site.line, RecordedVhost(vhost), gitRemote, Strip(errorLine), blame);
    }

    /** The repository half of `get_project_info`: root and remote of the site's directory,
        then the blame of the site in that root. */
    method DescribeRepo(site: ErrorSite) returns (gitRemote: string, blame: Option<BlameInfo>)
      requires Valid()
      modifies this`gitRootCache, this`revParseLog, this`gitRemoteCache, this`remoteLog, this`gitBlameCache, this`blameLog
      ensures Valid()
      ensures gitRemote == RemoteOf(env, env.os(AbsPath(Dirname(site.file))))
      ensures blame == SiteBlame(env, site)
      ensures RepoDescribed(site)
    {
      var dirPath := env.os(AbsPath(Dirname(site.file)));
      var repoRoot := RepoRoot(dirPath);
      gitRemote := GitRemote(dirPath);
      blame := CachedBlame(site, repoRoot);
    }

    /** The expiry of the time-limited caches: any entries of the root, remote and blame
        caches may disappear; the host cache keeps everything. */
    method Expire(rootKeys: set<string>, remoteKeys: set<string>, blameKeys: set<string>)
      requires Valid()
      modifies this`gitRootCache, this`gitRemoteCache, this`gitBlameCache
      ensures Valid()
      ensures gitRootCache == old(gitRootCache) - rootKeys
      ensures gitRemoteCache == old(gitRemoteCache) - remoteKeys
      ensures gitBlameCache == old(gitBlameCache) - blameKeys
    {
      BlameAgreesAfterRemove(gitBlameCache, env, blameKeys);
      gitRootCache := gitRootCache - rootKeys;
      gitRemoteCache := gitRemoteCache - remoteKeys;
      gitBlameCache := gitBlameCache - blameKeys;
    }
  }
}
