/** POSIX path manipulation as Python's `posixpath` module does it on strings. */
module PosixPath {
  import opened Text

  predicate AllSlashes(p: string)
  {
    forall k :: 0 <= k < |p| ==> p[k] == '/'
  }

  /** `p.rfind('/') + 1`: the index just after the last slash of `p`, or 0 when there is none. */
  function AfterLastSlash(p: string): (e: nat)
    ensures e <= |p|
    ensures e == 0 || p[e - 1] == '/'
    ensures forall k :: e <= k < |p| ==> p[k] != '/'
  {
    if p == [] then 0
    else if p[|p| - 1] == '/' then |p|
    else AfterLastSlash(p[..|p| - 1])
  }

  /** The three properties of `AfterLastSlash` determine it. */
  lemma {:induction false} AfterLastSlashIs(p: string, e: nat)
    requires e <= |p| && (e == 0 || p[e - 1] == '/')
    requires forall k :: e <= k < |p| ==> p[k] != '/'
    ensures AfterLastSlash(p) == e
  {
    if p != [] && e < |p| {
      AfterLastSlashIs(p[..|p| - 1], e);
    }
  }

  /** `os.path.dirname(p)`: everything up to the last slash, with trailing slashes removed
      unless nothing but slashes is left. The result is always a prefix of `p`. */
  function Dirname(p: string): (d: string)
    ensures d <= p
  {
    var head := p[..AfterLastSlash(p)];
    if head != [] && !AllSlashes(head) then
      TrimRightDrops(head, {'/'});
      TrimRight(head, {'/'})
    else head
  }

  /** `dirname` leaves a path unchanged exactly when it is made of slashes only (the root,
      `//`, or the empty path); on every other path it is strictly shorter. This is what
      makes an upward walk by `dirname` end. */
  lemma DirnameFixpoint(p: string)
    ensures Dirname(p) == p <==> AllSlashes(p)
    ensures Dirname(p) != p ==> |Dirname(p)| < |p|
  {
    var e := AfterLastSlash(p);
    var head := p[..e];
    if AllSlashes(p) {
      if p != [] {
        assert e == |p|;
        assert head == p;
      }
    }
    if Dirname(p) == p && (head == [] || AllSlashes(head)) {
      assert |head| == |p|;
      assert head == p;
    }
  }

  /** The parents of the error file used in the log watcher's worked example. */
  lemma DirnameOfFile()
    ensures Dirname("/var/www/site/app/index.php") == "/var/www/site/app"
  {
    var p := "/var/www/site/app/index.php";
    AfterLastSlashIs(p, 18);
    assert p[..18] == "/var/www/site/app/";
    assert TrimRight("/var/www/site/app/", {'/'}) == "/var/www/site/app";
  }

  lemma DirnameOfDir()
    ensures Dirname("/var/www/site/app") == "/var/www/site"
  {
    var q := "/var/www/site/app";
    AfterLastSlashIs(q, 14);
    assert q[..14] == "/var/www/site/";
    assert TrimRight("/var/www/site/", {'/'}) == "/var/www/site";
  }

  /** A top-level directory's parent is the root, the root is its own parent, and a bare
      file name has the empty parent. */
  lemma DirnameAtTop()
    ensures Dirname("/var") == "/"
    ensures Dirname("/") == "/"
    ensures Dirname("index.php") == ""
  {
    AfterLastSlashIs("/var", 1);
    assert "/var"[..1] == "/";
    AfterLastSlashIs("index.php", 0);
  }
}
