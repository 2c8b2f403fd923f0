/** The search for the error location in a trace, `re.search(r'in (.+?) on line (\d+)', s)`,
    shared by the log watcher and its template: the leftmost match, and at that start the
    shortest path capture; `.` matches anything but a newline, `\d` an ASCII digit. */
module Location {
  import opened Wrappers
  import opened Text

  const InKeyword := "in "
  const OnLineKeyword := " on line "

  /** At index `c`, a path capture of `k` characters fits: it is non-empty, has no
      newline, and is followed by " on line " and a digit. */
  predicate CaptureFits(s: string, c: int, k: int)
  {
    0 <= c && 1 <= k && c + k + 10 <= |s|
    && (forall p :: c <= p < c + k ==> s[p] != '\n')
    && s[c + k..c + k + 9] == OnLineKeyword
    && IsDigit(s[c + k + 9])
  }

  /** The pattern matches at index `i` with a path capture of `k` characters. */
  predicate MatchesAt(s: string, i: int, k: int)
  {
    0 <= i && i + 3 <= |s| && s[i..i + 3] == InKeyword && CaptureFits(s, i + 3, k)
  }

  /** The lazy `(.+?)` at index `c`, having already consumed `k - 1` non-newline
      characters: the shortest capture of at least `k` characters after which the rest of
      the pattern matches. A newline ends the attempt. */
  function ShortestCapture(s: string, c: nat, k: nat): (r: Option<nat>)
    requires 1 <= k && c + k - 1 <= |s|
    requires forall p :: c <= p < c + k - 1 ==> s[p] != '\n'
    ensures r.Some? ==> k <= r.value && CaptureFits(s, c, r.value)
    ensures forall j :: k <= j && CaptureFits(s, c, j) ==> r.Some? && r.value <= j
    decreases |s| - k
  {
    if c + k > |s| || s[c + k - 1] == '\n' then None
    else if c + k + 10 <= |s| && s[c + k..c + k + 9] == OnLineKeyword && IsDigit(s[c + k + 9]) then Some(k)
    else ShortestCapture(s, c, k + 1)
  }

  /** `re.search` from index `i` on: the first start at which the pattern matches, with
      the capture the lazy quantifier settles on there. */
  function SearchFrom(s: string, i: nat): (r: Option<(nat, nat)>)
    requires i <= |s|
    ensures r.Some? ==> i <= r.value.0 && MatchesAt(s, r.value.0, r.value.1)
    ensures forall j, k :: i <= j && MatchesAt(s, j, k) ==>
      r.Some? && (r.value.0 < j || (r.value.0 == j && r.value.1 <= k))
    decreases |s| - i
  {
    if i + 3 > |s| then None
    else if s[i..i + 3] == InKeyword && ShortestCapture(s, i + 3, 1).Some? then
      Some((i, ShortestCapture(s, i + 3, 1).value))
    else SearchFrom(s, i + 1)
  }

  /** The two groups of a match: the path as captured, and the digit run after it. */
  datatype Groups = Groups(path: string, digits: string)

  function Search(s: string): (r: Option<Groups>)
  {
    match SearchFrom(s, 0)
    case None => None
    case Some((i, k)) =>
      var d := i + 3 + k + 9;
      Some(Groups(s[i + 3..i + 3 + k], s[d..d + DigitRun(s, d)]))
  }

  /** There is a match exactly when the pattern occurs somewhere in the trace. */
  lemma SearchFindsAnyMatch(s: string)
    ensures Search(s).None? <==> forall j, k :: !MatchesAt(s, j, k)
  {
  }

  /** The path group is the capture of the leftmost occurrence, shortest at that start;
      the digit group is the whole run of digits after " on line ". */
  lemma SearchIsLeftmostShortest(s: string)
    ensures Search(s).Some? ==>
      exists i, k :: MatchesAt(s, i, k)
        && (forall j, m :: MatchesAt(s, j, m) ==> i < j || (i == j && k <= m))
        && Search(s).value.path == s[i + 3..i + 3 + k]
        && Search(s).value.digits == s[i + k + 12..i + k + 12 + DigitRun(s, i + k + 12)]
  {
  }

  /** The path group is non-empty and newline-free; the digit group is a non-empty run of
      digits. */
  lemma SearchGroupsShape(s: string)
    ensures Search(s).Some? ==>
      var g := Search(s).value;
      g.path != [] && NoNewline(g.path) && g.digits != [] && AllDigits(g.digits)
  {
    match SearchFrom(s, 0)
    case None =>
    case Some((i, k)) =>
      var g := Search(s).value;
      assert g.path == s[i + 3..i + 3 + k];
      assert forall p :: 0 <= p < |g.path| ==> g.path[p] == s[i + 3 + p];
  }

  /** The file and line number an error names. */
  datatype ErrorSite = ErrorSite(file: string, line: nat)

  /** The site the first `in <path> on line <digits>` of the trace names: the path stripped,
      the digits read as a number. */
  function SiteOf(errorLine: string): (site: Option<ErrorSite>)
    ensures site.None? <==> Search(errorLine).None?
  {
    SearchGroupsShape(errorLine);
    match Search(errorLine)
    case None => None
    case Some(g) => Some(ErrorSite(Strip(g.path), DecimalValue(g.digits)))
  }
}
