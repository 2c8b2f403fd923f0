/** The upward search for the Apache virtual host that serves a file
    (`LogWatcher.find_vhost_for_path`, without its cache, which lives in `Watcher`).

    `GrepOutput(env, path)` is the raw output of `grep -l '<path>'` over every file of the
    host-config directory: the names of the host-config files that mention `path`, or
    nothing. */
module Vhost {
  import opened Wrappers
  import opened Text
  import opened PosixPath
  import opened Oracles

  /** The grep queries a search issued, in order, and what it found. */
  datatype Walk = Walk(queries: seq<string>, found: Option<string>)

  /** Parent functions that return a prefix of their argument, as `dirname` does. */
  ghost predicate Shortens(up: string -> string)
  {
    forall p :: up(p) <= p
  }

  /** The stripped output of the grep query for `p`: what the search loop tests. */
  function Answer(env: Env, p: string): string
  {
    Strip(GrepOutput(env, p))
  }

  /** The search loop from `searchPath` upward, with `up(p)` the parent directory of `p`:
      a non-empty answer ends the search; otherwise go on with the parent, unless it is
      the path itself or the root. */
  function Climb(env: Env, up: string -> string, searchPath: string): (w: Walk)
    requires Shortens(up)
    decreases |searchPath|
  {
    var result := Answer(env, searchPath);
    if result != "" then Walk([searchPath], Some(result))
    else
      var parent := up(searchPath);
      if parent == searchPath || parent == "/" then Walk([searchPath], None)
      else
        var rest := Climb(env, up, parent);
        Walk([searchPath] + rest.queries, rest.found)
  }

  /** The walk asks for `searchPath` first; each further query is the parent of the one
      before, strictly shorter, and never the root `/`. */
  lemma {:induction false} WalkClimbs(env: Env, up: string -> string, searchPath: string)
    requires Shortens(up)
    ensures var q := Climb(env, up, searchPath).queries;
      |q| >= 1 && q[0] == searchPath
      && (forall n :: 0 < n < |q| ==> q[n] == up(q[n - 1]) && q[n] != "/" && |q[n]| < |q[n - 1]|)
    decreases |searchPath|
  {
    var parent := up(searchPath);
    if Answer(env, searchPath) == "" && parent != searchPath && parent != "/" {
      WalkClimbs(env, up, parent);
    }
  }

  /** Every query but the last found nothing. */
  lemma {:induction false} WalkMissesBeforeLast(env: Env, up: string -> string, searchPath: string)
    requires Shortens(up)
    ensures var q := Climb(env, up, searchPath).queries;
      |q| >= 1 && forall n :: 0 <= n < |q| - 1 ==> Answer(env, q[n]) == ""
    decreases |searchPath|
  {
    var parent := up(searchPath);
    if Answer(env, searchPath) == "" && parent != searchPath && parent != "/" {
      WalkMissesBeforeLast(env, up, parent);
      var rest := Climb(env, up, parent).queries;
      var q := [searchPath] + rest;
      forall n | 0 < n < |q| - 1 ensures Answer(env, q[n]) == "" {
        assert q[n] == rest[n - 1];
      }
    }
  }

  /** The walk's answer is what its last query found. */
  lemma {:induction false} WalkAnswer(env: Env, up: string -> string, searchPath: string)
    requires Shortens(up)
    ensures var w := Climb(env, up, searchPath);
      |w.queries| >= 1 &&
      var last := w.queries[|w.queries| - 1];
      w.found == if Answer(env, last) != "" then Some(Answer(env, last)) else None
    decreases |searchPath|
  {
    var parent := up(searchPath);
    var result := Answer(env, searchPath);
    if result == "" && parent != searchPath && parent != "/" {
      WalkAnswer(env, up, parent);
      var rest := Climb(env, up, parent);
      var q := [searchPath] + rest.queries;
      assert Climb(env, up, searchPath) == Walk(q, rest.found);
      assert q[|q| - 1] == rest.queries[|rest.queries| - 1];
    } else {
      assert Climb(env, up, searchPath).queries == [searchPath];
    }
  }

  /** A walk that finds nothing has climbed as far as it can: the last path asked for is
      one whose parent is itself or the root. */
  lemma {:induction false} WalkMissReachesTop(env: Env, up: string -> string, searchPath: string)
    requires Shortens(up)
    ensures var w := Climb(env, up, searchPath);
      |w.queries| >= 1 &&
      var last := w.queries[|w.queries| - 1];
      w.found == None ==> up(last) == last || up(last) == "/"
    decreases |searchPath|
  {
    var parent := up(searchPath);
    if Answer(env, searchPath) == "" && parent != searchPath && parent != "/" {
      WalkMissReachesTop(env, up, parent);
      var rest := Climb(env, up, parent);
      assert Climb(env, up, searchPath) == Walk([searchPath] + rest.queries, rest.found);
      assert ([searchPath] + rest.queries)[|rest.queries|] == rest.queries[|rest.queries| - 1];
    }
  }

  /** The search `find_vhost_for_path` runs on a cache miss, climbing by `dirname`. */
  function VhostWalk(env: Env, searchPath: string): Walk
  {
    assert Shortens(Dirname);
    Climb(env, Dirname, searchPath)
  }

  /** The search for a file starts from its directory. */
  function VhostFor(env: Env, file: string): Walk
  {
    VhostWalk(env, Dirname(file))
  }

  /** One round of the search loop: a non-empty answer ends it, so does a parent that is
      the path itself or the root; otherwise the search goes on from the parent. */
  lemma VhostWalkStep(env: Env, searchPath: string)
    ensures var w := VhostWalk(env, searchPath);
      var parent := Dirname(searchPath);
      if Answer(env, searchPath) != "" then w == Walk([searchPath], Some(Answer(env, searchPath)))
      else if parent == searchPath || parent == "/" then w == Walk([searchPath], None)
      else w == Walk([searchPath] + VhostWalk(env, parent).queries, VhostWalk(env, parent).found)
  {
    assert Shortens(Dirname);
  }

  /** What the walk finds is a non-empty, already stripped file list, so stripping it again
      (as `get_project_info` does) changes nothing. */
  lemma WalkFoundIsStripped(env: Env, searchPath: string)
    ensures var f := VhostWalk(env, searchPath).found;
      f.Some? ==> f.value != "" && Strip(f.value) == f.value
  {
    assert Shortens(Dirname);
    WalkAnswer(env, Dirname, searchPath);
    var w := Climb(env, Dirname, searchPath);
    if w.found.Some? {
      var last := w.queries[|w.queries| - 1];
      assert w.found.value == Answer(env, last) == Strip(GrepOutput(env, last));
      TrimIdempotent(GrepOutput(env, last), Whitespace);
    }
  }

  /** A search that misses at `a` and hits at its parent `b` asks for exactly those two. */
  lemma TwoStepWalk(env: Env, up: string -> string, a: string, b: string)
    requires Shortens(up)
    requires up(a) == b && b != a && b != "/"
    requires Answer(env, a) == "" && Answer(env, b) != ""
    ensures Climb(env, up, a) == Walk([a, b], Some(Answer(env, b)))
  {
  }

  /** The worked example: for `/var/www/site/app/index.php`, when grep finds nothing for the
      file's directory and one config for its parent, the search asks for those two paths,
      in that order, and stops with that config. */
  lemma WalkExample(env: Env)
    requires Strip(GrepOutput(env, "/var/www/site/app")) == ""
    requires Strip(GrepOutput(env, "/var/www/site")) == "/etc/apache2/sites-enabled/site.conf"
    ensures VhostWalk(env, Dirname("/var/www/site/app/index.php"))
        == Walk(["/var/www/site/app", "/var/www/site"], Some("/etc/apache2/sites-enabled/site.conf"))
  {
    DirnameOfFile();
    DirnameOfDir();
    assert Shortens(Dirname);
    TwoStepWalk(env, Dirname, "/var/www/site/app", "/var/www/site");
  }
}
