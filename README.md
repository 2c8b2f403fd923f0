# Apache error-log enrichment, modelled in Dafny

This project models the core of `LogWatcher` in `html/n8n-logger/apache_log_ingester.py`, a long-running service. It tails the Apache error log and groups lines into error traces. For each trace it works out:

- where the error happened (file and line);
- which Apache virtual-host configuration serves that file;
- which git repository holds the file, and that repository's remote;
- who last changed the line, from `git blame`. For a line with uncommitted changes, the matching line of `git diff` is used instead.

The older single-file script `html/n8n-logger/apache_log_watcher.template.py` is modelled as well. It handles every log line on its own: a line passes a filter, gets the same location search, an uncached host search and blame, and yields a payload.

The outside world is the datatype `Oracles.Env`:

- `run` holds what each command prints: `grep`, `git rev-parse`, `git config`, `git blame`, `git diff`. For `git config` it is the URL alone, without the newline git ends it with. `None` means the command exits with an error.
- `os` answers `os.path.abspath`, `os.path.relpath` and the file modification time.

Both are fixed functions, a premise listed under "## Left out". Under it every cache entry is the answer a fresh query would give, and caching never changes a result.

Modules, one per file:

- `Wrappers`: the `Option` datatype.
- `Text`: the string functions of Python's standard library the code relies on, restricted to ASCII. These are `strip`, `splitlines`, `split("\n")`, `"\n".join`, `lower`, `in`, `int()` and `str()`.
- `PosixPath`: `os.path.dirname`.
- `Oracles`: the outside world.
- `Location`: the search `re.search(r'in (.+?) on line (\d+)', s)`, with its leftmost match and shortest capture.
- `Porcelain`: the parse of `git blame --porcelain` output.
- `DiffCorrelation`: the hunk walk over `git diff` output and the summary text.
- `Blame`: `get_git_blame`.
- `Vhost`: the upward search for a host configuration.
- `TraceGrouping`: `tail_log`, as a class `TraceTailer` driven by events.
- `Watcher`: the class `LogWatcher`, with its four caches and `get_project_info`.
- `Template`: the template script.

Time and reading are abstracted into events, each stamped with the clock in milliseconds. An event is either a line as `readline` returned it, or the end of the file.

Behaviours of the code that the model makes explicit:

- **No start-pattern flush.** The comments and the compiled start pattern (line 49) suggest that a matching line starts a new trace. In the code this never happens. The inner loop of `tail_log` only exits after emptying the trace (line 144), so the flush at lines 131-133 never fires. Every line starts a trace or joins the current one, whatever it says. A trace ends only after two quiet seconds, so a non-matching line such as `INFO ok` is not dropped. The model follows the code: the dead branch is `assert false` in `TraceTailer.Step`.
- **The blame cache never saves work.** `get_project_info` stores the fresh blame under its key (line 243) before reading the cache (line 245). The read always hits, and lines 247-249 never run. `LogWatcher.CachedBlame` has `assert false` there.
- **`in_hunk` has no effect.** It is set to true at the top of every iteration (line 318), so the hunk range computed at line 323 never excludes a line.
- **File headers are scanned too.** The `---`/`+++` lines before the first hunk are scanned as body lines with the counter at 0.

## Model

| member | source | states |
|---|---|---|
| Text.TrimIsSlice | html/n8n-logger/apache_log_ingester.py:129 | `strip` removes exactly a run of whitespace at each end. What it keeps is a slice of the input whose first and last characters are not whitespace. |
| Text.TrimIdempotent | html/n8n-logger/apache_log_ingester.py:253 | Stripping twice is stripping once. |
| Text.StripReadLine | html/n8n-logger/apache_log_ingester.py:124-129 | A line as `readline` returns it strips to a string with no newline. |
| Text.StripNewlineEnded | html/n8n-logger/apache_log_ingester.py:235-237 | Text with no surrounding whitespace, read with its newline, strips back to itself. |
| Text.StripDropsTrailingNewline | html/n8n-logger/apache_log_ingester.py:235-237 | A trailing newline makes no difference to `strip`. |
| Text.Strip | html/n8n-logger/apache_log_ingester.py:129 | `str.strip()` over ASCII whitespace. `TrimIsSlice` and `TrimIdempotent` characterise it. |
| Text.SplitLines | html/n8n-logger/apache_log_ingester.py:291 | No line `splitlines` returns holds a line boundary. |
| Text.SplitLinesTerminated | html/n8n-logger/apache_log_ingester.py:291 | `splitlines` reads printed output back: lines with no line boundary, each ended by a newline, split into exactly those lines. |
| Text.SplitJoin | html/n8n-logger/apache_log_ingester.py:143 | Joining non-empty, newline-free lines with `"\n"` and splitting on `"\n"` gives the lines back. |
| Text.JoinLines | html/n8n-logger/apache_log_ingester.py:143 | `"\n".join(current_trace)`. `SplitJoin` shows that it loses nothing. |
| Text.SplitNewlines | html/n8n-logger/apache_log_ingester.py:143 | `split("\n")`, the reading-back of a joined trace. `SplitJoin` proves it inverse to `JoinLines`. |
| Text.ContainsAt | html/n8n-logger/apache_log_watcher.template.py:97 | `t in s` holds exactly when `t` occurs at some index of `s`. |
| Text.Contains | html/n8n-logger/apache_log_watcher.template.py:97 | `t in s`. `ContainsAt` ties it to an occurrence at some index. |
| Text.LowerFolds | html/n8n-logger/apache_log_watcher.template.py:97 | `lower` keeps the length, leaves no capital letter, changes only capital letters, and lowering twice is lowering once. |
| Text.Lower | html/n8n-logger/apache_log_watcher.template.py:97 | `s.lower()` folding `A`-`Z`. `LowerFolds` characterises it. |
| Text.DigitRun | html/n8n-logger/apache_log_ingester.py:208 | The digit run at an index is all digits and ends at a non-digit or at the end. |
| Text.DigitRunIs | html/n8n-logger/apache_log_ingester.py:208 | Those two facts determine the run's length. |
| Text.Decimal | html/n8n-logger/apache_log_ingester.py:240 | `str(n)` is a non-empty run of digits. |
| Text.DecimalRoundTrip | html/n8n-logger/apache_log_ingester.py:214 | `int(str(n)) == n`. |
| Text.DecimalValue | html/n8n-logger/apache_log_ingester.py:214 | `int()` of a run of digits. `DecimalRoundTrip` shows that it inverts `str()`. |
| Text.IndexOfAny | html/n8n-logger/apache_log_ingester.py:291 | The search stops at the first stop character at or after the start, or at the end. |
| PosixPath.AfterLastSlash | html/n8n-logger/apache_log_ingester.py:181 | The index after the last slash: it follows a slash or is 0, and no slash comes after it. |
| PosixPath.AfterLastSlashIs | html/n8n-logger/apache_log_ingester.py:181 | Those properties determine that index. |
| PosixPath.Dirname | html/n8n-logger/apache_log_ingester.py:181 | `dirname` returns a prefix of its argument. |
| PosixPath.DirnameFixpoint | html/n8n-logger/apache_log_ingester.py:190-193 | `dirname` leaves a path unchanged exactly when it is all slashes. Otherwise the result is strictly shorter, which is why the upward search ends. |
| PosixPath.DirnameOfFile | html/n8n-logger/apache_log_ingester.py:181 | The parent of `/var/www/site/app/index.php` is `/var/www/site/app`. |
| PosixPath.DirnameOfDir | html/n8n-logger/apache_log_ingester.py:190 | The parent of `/var/www/site/app` is `/var/www/site`. |
| PosixPath.DirnameAtTop | html/n8n-logger/apache_log_ingester.py:190-192 | The parent of `/var` is `/`. `/` is its own parent, and a bare file name has the empty parent. |
| Oracles.RemoteOfCases | html/n8n-logger/apache_log_ingester.py:232-238 | The remote is `unknown` when `git config` fails. Otherwise it is the URL without surrounding whitespace. So it reads `unknown` only when git fails or the URL itself strips to `unknown`. |
| Oracles.GrepOutput | html/n8n-logger/apache_log_ingester.py:185-186 | The output of `grep -l`, made to succeed by its `true` fallback: the file names grep prints, and nothing when it fails. `Vhost.WalkAnswer` gives what the search makes of it. |
| Oracles.RemoteOutput | html/n8n-logger/apache_log_ingester.py:235-237 | The output of `git config` with its `echo 'unknown'` fallback: the URL on a line, or `unknown` on a line when git fails. |
| Oracles.RemoteOf | html/n8n-logger/apache_log_ingester.py:235-237 | The stripped remote output. `RemoteOfCases` characterises it. |
| Oracles.RootOfCases | html/n8n-logger/apache_log_ingester.py:219-230 | The root is `None` exactly when `git rev-parse` fails. A root that exists has no surrounding whitespace. |
| Oracles.RootOf | html/n8n-logger/apache_log_ingester.py:222-229 | The stripped `git rev-parse` answer, or `None` on failure. `RootOfCases` characterises it. |
| Location.ShortestCapture | html/n8n-logger/apache_log_ingester.py:208 | The lazy `(.+?)` settles on a capture that fits the rest of the pattern. No shorter capture fits. |
| Location.SearchFrom | html/n8n-logger/apache_log_ingester.py:208 | `re.search` finds the leftmost start at which the pattern matches. At that start it takes the shortest capture. |
| Location.SearchFindsAnyMatch | html/n8n-logger/apache_log_ingester.py:208-210 | There is no match exactly when the pattern occurs nowhere in the trace. |
| Location.SearchIsLeftmostShortest | html/n8n-logger/apache_log_ingester.py:208-212 | The path group is the capture of the leftmost, shortest occurrence. The digit group is the whole digit run after ` on line `. |
| Location.SearchGroupsShape | html/n8n-logger/apache_log_ingester.py:212-214 | The path group is non-empty and has no newline. The digit group is a non-empty run of digits. |
| Location.SiteOf | html/n8n-logger/apache_log_ingester.py:208-214 | A trace names a site exactly when the search matches. |
| Location.Search | html/n8n-logger/apache_log_ingester.py:208-212 | `re.search` and `match.groups()`. `SearchFrom`, `SearchFindsAnyMatch`, `SearchIsLeftmostShortest` and `SearchGroupsShape` characterise it. |
| Porcelain.ParsePorcelain | html/n8n-logger/apache_log_ingester.py:283-301 | The parse loop computes the fold of `Absorb` over the output lines. |
| Porcelain.KindOf | html/n8n-logger/apache_log_ingester.py:294-300 | The `elif` chain, tested in its order. `AbsorbSetsOneField` states its effect. |
| Porcelain.Absorb | html/n8n-logger/apache_log_ingester.py:292-301 | One pass of the parse loop: the flag test, then the chain. `AbsorbSetsOneField` and `LocalChangesIffZeroId` characterise it. |
| Porcelain.Fold | html/n8n-logger/apache_log_ingester.py:291-301 | The parse loop over all lines. `LastLineWins`, `LocalChangesIffZeroId` and `CommitIsIdPrefix` characterise it, and `ParsePorcelain` computes it. |
| Porcelain.AbsorbSetsOneField | html/n8n-logger/apache_log_ingester.py:294-301 | One output line sets the field of its kind and no other. |
| Porcelain.FoldStep | html/n8n-logger/apache_log_ingester.py:291-301 | The same for the last line of a fold. |
| Porcelain.LastOfKind | html/n8n-logger/apache_log_ingester.py:294-301 | The last line of a kind is a line of that kind. |
| Porcelain.LastOfKindIsLast | html/n8n-logger/apache_log_ingester.py:294-301 | There is no such line exactly when no line has the kind, and no line of the kind follows it. |
| Porcelain.LastLineWins | html/n8n-logger/apache_log_ingester.py:294-301 | For author, email, summary and commit, the last line of that kind wins. A field no line sets stays `None`. |
| Porcelain.LocalChangesIffZeroId | html/n8n-logger/apache_log_ingester.py:292-293 | `is_local_changes` holds exactly when some line starts with eight zeros. |
| Porcelain.CommitIsIdPrefix | html/n8n-logger/apache_log_ingester.py:300-301 | On a line led by a 40-hex id, the commit is the line's first eight characters. |
| Porcelain.UncommittedHeader | html/n8n-logger/apache_log_ingester.py:292-301 | git's all-zero header both sets the flag and reads as a commit id, so the commit is `00000000`. |
| DiffCorrelation.Number | html/n8n-logger/apache_log_ingester.py:313 | `\d+` consumes at least one character and leaves a suffix. |
| DiffCorrelation.HunkHeader | html/n8n-logger/apache_log_ingester.py:313 | A line parses as a header only if it starts with `@@ -`. |
| DiffCorrelation.NumberOfDecimal | html/n8n-logger/apache_log_ingester.py:320 | A number written in decimal reads back up to the next non-digit. |
| DiffCorrelation.CountOfText | html/n8n-logger/apache_log_ingester.py:321 | An optional `,count` group reads back as written. |
| DiffCorrelation.HeaderRoundTrip | html/n8n-logger/apache_log_ingester.py:313-322 | Every header diff writes parses back to its new-file start. It parses to its count too, 1 when the count is left out, whatever follows on the line. |
| DiffCorrelation.OldSideRoundTrip | html/n8n-logger/apache_log_ingester.py:313 | The old-file side is skipped up to the space after it. |
| DiffCorrelation.NewSideRoundTrip | html/n8n-logger/apache_log_ingester.py:313 | The new-file side reads back as written. |
| DiffCorrelation.NotHeader | html/n8n-logger/apache_log_ingester.py:317-319 | A line not starting with `@` is no header. |
| DiffCorrelation.RoleOf | html/n8n-logger/apache_log_ingester.py:317-329 | A line is a header exactly when it parses as one, and then resets the counter to the header's new-file start. A line is a candidate exactly when it is no header and starts with `+`, `-` or space. A candidate advances the counter exactly when it is not a removal. |
| DiffCorrelation.Scan | html/n8n-logger/apache_log_ingester.py:316-329 | The scan only picks a candidate line. |
| DiffCorrelation.DiffScan | html/n8n-logger/apache_log_ingester.py:316-329 | A line picked starts with `+`, `-` or space and is not a header. |
| DiffCorrelation.SelectsAtShift | html/n8n-logger/apache_log_ingester.py:316-329 | Selecting after the first line is selecting in the rest, with the counter advanced over the first line. |
| DiffCorrelation.ScanFindsFirst | html/n8n-logger/apache_log_ingester.py:324-327 | The scan picks the first candidate met while the counter equals the line number. |
| DiffCorrelation.ScanMissesIffNone | html/n8n-logger/apache_log_ingester.py:312-329 | Nothing is picked exactly when no line qualifies. |
| DiffCorrelation.ScanExample | html/n8n-logger/apache_log_ingester.py:316-329 | After `@@ -5,3 +5,4 @@`, `" a"`, `" b"`, `"+foo();"`, line 7 picks `"+foo();"`. |
| DiffCorrelation.ExampleHeader | html/n8n-logger/apache_log_ingester.py:313-321 | `@@ -5,3 +5,4 @@` parses to start 5 and count 4. |
| DiffCorrelation.PreambleForLineZero | html/n8n-logger/apache_log_ingester.py:314-327 | Before the first hunk the counter is 0, so for line 0 the `--- ` file header itself is picked. |
| DiffCorrelation.FindDiffLine | html/n8n-logger/apache_log_ingester.py:312-329 | The loop, with its `in_hunk` flag, returns the scan's pick. |
| DiffCorrelation.UncommittedSummary | html/n8n-logger/apache_log_ingester.py:331-334 | The summary starts with the modification time. It is exactly that prefix when no non-empty line was found; otherwise ` \| Diff line: ` and the stripped line follow. |
| DiffCorrelation.FoundLineShows | html/n8n-logger/apache_log_ingester.py:333-334 | A line the scan picks always appears in the summary. |
| Blame.BlameOf | html/n8n-logger/apache_log_ingester.py:272-281 | A record comes back only for a non-empty repository path and a `git blame` that succeeds. |
| Blame.BlameOfReports | html/n8n-logger/apache_log_ingester.py:283-334 | A record is the porcelain parse with only its summary changed, and only for an uncommitted line. The flag is set exactly when a line starts with eight zeros. An uncommitted line's summary starts with the modification time, and is the summary of the `git diff` line the hunk scan picks for the blamed line. |
| Blame.BlameOfFails | html/n8n-logger/apache_log_ingester.py:272-341 | `None` comes back exactly when the repository path is missing or empty, when `git blame` fails, or when the line is uncommitted and `git diff` fails. |
| Blame.BlameOutput | html/n8n-logger/apache_log_ingester.py:276-281 | The porcelain output of `git blame` for the line, or `None` when git fails. `BlameOfFails` uses it. |
| Blame.GitBlame | html/n8n-logger/apache_log_ingester.py:260-341 | The method, with its loops, returns `BlameOf`. |
| Vhost.WalkClimbs | html/n8n-logger/apache_log_ingester.py:181-193 | The search asks first for the start path. Each later query is the parent of the one before, strictly shorter, and never `/`. |
| Vhost.Answer | html/n8n-logger/apache_log_ingester.py:185-186 | The stripped grep output for one path. |
| Vhost.Climb | html/n8n-logger/apache_log_ingester.py:184-193 | The search loop as a function. `WalkClimbs`, `WalkMissesBeforeLast`, `WalkAnswer` and `WalkMissReachesTop` characterise it. |
| Vhost.VhostFor | html/n8n-logger/apache_log_ingester.py:181-193 | The search started at the file's directory. `VhostWalkStep` unfolds it, and `LogWatcher.SearchVhost` computes it. |
| Vhost.WalkMissesBeforeLast | html/n8n-logger/apache_log_ingester.py:186-189 | Every query but the last found nothing. |
| Vhost.WalkAnswer | html/n8n-logger/apache_log_ingester.py:186-189 | What the search finds is the last query's stripped grep output, or `None` when that output is empty. |
| Vhost.WalkMissReachesTop | html/n8n-logger/apache_log_ingester.py:190-192 | A search that finds nothing stops at a path whose parent is itself or `/`. |
| Vhost.VhostWalkStep | html/n8n-logger/apache_log_ingester.py:184-193 | One round of the loop: a hit ends the search, and so does a parent that is the path itself or `/`. Otherwise the search goes on from the parent. |
| Vhost.WalkFoundIsStripped | html/n8n-logger/apache_log_ingester.py:186-188 | A found host configuration is non-empty and already stripped. |
| Vhost.TwoStepWalk | html/n8n-logger/apache_log_ingester.py:184-193 | A miss then a hit at the parent asks exactly those two paths. |
| Vhost.WalkExample | html/n8n-logger/apache_log_ingester.py:181-193 | For `/var/www/site/app/index.php`, a miss for `/var/www/site/app` and a hit for `/var/www/site` ask those two paths in order and stop with the hit. |
| TraceGrouping.ReplayKeepsEveryLine | html/n8n-logger/apache_log_ingester.py:122-150 | The traces handed out, then the pending trace, are exactly the stripped lines read, in order. No line is dropped or repeated. |
| TraceGrouping.Next | html/n8n-logger/apache_log_ingester.py:123-150 | One event of `tail_log`. `NextKeepsShape` and `TraceOnlyAfterQuiet` characterise it, and `TraceTailer.Step` performs it. |
| TraceGrouping.Replay | html/n8n-logger/apache_log_ingester.py:120-150 | `tail_log` over a run of events. `ReplayKeepsEveryLine`, `ReplayShape` and `QuietPeriodGroups` characterise it, and `Tail` computes it. |
| TraceGrouping.NextKeepsShape | html/n8n-logger/apache_log_ingester.py:129-149 | One event keeps traces non-empty and their lines newline-free. |
| TraceGrouping.ReplayShape | html/n8n-logger/apache_log_ingester.py:122-150 | Every trace handed out is non-empty, and no line of any trace holds a newline. |
| TraceGrouping.TracesSplitBack | html/n8n-logger/apache_log_ingester.py:143 | Splitting a handed-out trace on `"\n"` gives its lines back. |
| TraceGrouping.TraceOnlyAfterQuiet | html/n8n-logger/apache_log_ingester.py:141-145 | A trace is handed out only at the end of the file, two seconds or more after the last line, and then it is the whole pending trace. |
| TraceGrouping.QuietPeriodGroups | html/n8n-logger/apache_log_ingester.py:130-150 | Three lines within a second, then a quiet end of file, make one trace of all three, whatever they say. A later line starts a new trace. |
| TraceGrouping.ReplayStep | html/n8n-logger/apache_log_ingester.py:123-150 | One more event applies its step to the state so far. |
| TraceGrouping.TraceTailer.constructor | html/n8n-logger/apache_log_ingester.py:122 | The tailer starts with no trace. |
| TraceGrouping.TraceTailer.Step | html/n8n-logger/apache_log_ingester.py:123-150 | One pass of the two loops agrees with `Next`: the pending trace, the time of the last line, and the trace handed out if any. The outer-loop flush is unreachable. |
| TraceGrouping.Tail | html/n8n-logger/apache_log_ingester.py:120-150 | Running the tailer over events hands out exactly the joined traces of `Replay`, with `Replay`'s pending lines left over. |
| Watcher.BlameKeyInjective | html/n8n-logger/apache_log_ingester.py:240 | Different sites have different `file:line` keys. |
| Watcher.RecordedVhost | html/n8n-logger/apache_log_ingester.py:254 | `vhost.strip() if vhost else None`. |
| Watcher.SiteInfo | html/n8n-logger/apache_log_ingester.py:212-258 | The record for a named site. `ProjectInfoFields` gives each field, and `LogWatcher.DescribeSite` builds it. |
| Watcher.ProjectInfoOf | html/n8n-logger/apache_log_ingester.py:198-258 | The uncached record for a trace. `ProjectInfoFields` characterises it, and `LogWatcher.GetProjectInfo` returns it. |
| Watcher.ProjectInfoFields | html/n8n-logger/apache_log_ingester.py:208-258 | The record exists exactly when the pattern occurs. Its file is the stripped leftmost, shortest capture with no newline, and its line is the digit run's value. Its host configuration is the search's finding, and its remote and blame are those of the file's directory. Its error line is the stripped trace. |
| Watcher.VhostAgreesAfterStore | html/n8n-logger/apache_log_ingester.py:195 | Storing the search's answer keeps the host cache true. |
| Watcher.BlameAgreesAfterStore | html/n8n-logger/apache_log_ingester.py:243 | Storing a site's blame under its key keeps the blame cache true. |
| Watcher.BlameAgreesAfterRemove | html/n8n-logger/apache_log_ingester.py:54 | Removing entries keeps the blame cache true. |
| Watcher.LogWatcher.constructor | html/n8n-logger/apache_log_ingester.py:51-54 | All four caches start empty and agree with the outside world. |
| Watcher.LogWatcher.FindVhostForPath | html/n8n-logger/apache_log_ingester.py:166-196 | The answer is always the search's. A cached file runs no grep. A miss runs exactly the search's queries and stores the answer, `None` included, under the file. |
| Watcher.LogWatcher.SearchVhost | html/n8n-logger/apache_log_ingester.py:181-193 | The loop finds what `VhostFor` specifies and issues exactly its queries, in order. |
| Watcher.LogWatcher.AskGrep | html/n8n-logger/apache_log_ingester.py:185-186 | One grep, logged, and its stripped output. |
| Watcher.LogWatcher.RepoRoot | html/n8n-logger/apache_log_ingester.py:219-230 | The root is `git rev-parse`'s stripped answer, `None` on failure, and is stored under the directory. git runs only on a miss. |
| Watcher.LogWatcher.GitRemote | html/n8n-logger/apache_log_ingester.py:232-238 | The remote is the stripped `git config` answer, or `unknown`, and is stored under the directory. git runs only on a miss. |
| Watcher.LogWatcher.CachedBlame | html/n8n-logger/apache_log_ingester.py:240-249 | The blame is recomputed on every call and stored under the site's key. The read that follows always hits. |
| Watcher.LogWatcher.GetProjectInfo | html/n8n-logger/apache_log_ingester.py:198-258 | The result equals the uncached record. With no site, nothing is asked or stored. Otherwise each cache gains the true entry for the site, and each log gains exactly the queries a miss needs. |
| Watcher.LogWatcher.DescribeSite | html/n8n-logger/apache_log_ingester.py:215-258 | The lookups once a site is named build the record for that site and leave the caches and logs as described. |
| Watcher.LogWatcher.DescribeRepo | html/n8n-logger/apache_log_ingester.py:219-249 | The root and remote of the site's directory are looked up, cache first, then the site is blamed in that root. |
| Watcher.LogWatcher.Expire | html/n8n-logger/apache_log_ingester.py:52-54 | Any entries of the three time-limited caches may go. The host cache keeps everything, and every cache stays true. |
| Template.TemplateFoldAgrees | html/n8n-logger/apache_log_watcher.template.py:36-44 | The template's parse is the ingester's without the flag. |
| Template.TemplateAbsorb | html/n8n-logger/apache_log_watcher.template.py:37-44 | One pass of the template's parse loop, without the zero-id test. `TemplateUncommittedHeader` shows its effect on the all-zero header. |
| Template.TemplateFold | html/n8n-logger/apache_log_watcher.template.py:36-44 | The template's parse loop. `TemplateFoldAgrees` and `TemplateLastLineWins` characterise it. |
| Template.TemplateLastLineWins | html/n8n-logger/apache_log_watcher.template.py:36-44 | In the template too the last line of each kind wins, and a field no line sets stays `None`. |
| Template.TemplateUncommittedHeader | html/n8n-logger/apache_log_watcher.template.py:43-44 | The all-zero header gives the commit `00000000`, and nothing marks the line uncommitted. |
| Template.TemplateParse | html/n8n-logger/apache_log_watcher.template.py:29-46 | The parse loop computes `TemplateFold`. |
| Template.TemplateBlameVsIngester | html/n8n-logger/apache_log_watcher.template.py:9-50 | The template blames exactly when the root lookup and `git blame` succeed, with the ingester's parse. For a committed line the two records agree but for the flag. |
| Template.TemplateBlameOf | html/n8n-logger/apache_log_watcher.template.py:9-50 | `get_git_blame` of the template. `TemplateBlameVsIngester` characterises it against the ingester. |
| Template.TemplateGitBlame | html/n8n-logger/apache_log_watcher.template.py:9-50 | The method returns `TemplateBlameOf`. |
| Template.PayloadVsIngester | html/n8n-logger/apache_log_watcher.template.py:52-81 | The template finds a site exactly when the ingester does, with the same file, line, remote and error line. Its host configuration is one grep for the file path: a string, empty when nothing matched. |
| Template.SitePayload | html/n8n-logger/apache_log_watcher.template.py:57-81 | The payload for a named site. `PayloadVsIngester` gives its fields. |
| Template.PayloadOf | html/n8n-logger/apache_log_watcher.template.py:52-81 | `get_project_info` of the template. `PayloadVsIngester` characterises it against the ingester. |
| Template.GetPayload | html/n8n-logger/apache_log_watcher.template.py:52-81 | The method returns `PayloadOf`. |
| Template.PassesFilterAt | html/n8n-logger/apache_log_watcher.template.py:97 | A line passes exactly when `PHP` occurs in it, or `error` in any mix of cases. |
| Template.PassesFilter | html/n8n-logger/apache_log_watcher.template.py:97 | The filter. `PassesFilterAt` characterises it. |
| Template.SentForSends | html/n8n-logger/apache_log_watcher.template.py:94-100 | A string `readline` returned sends at most one payload: the one it yields, when it passes the filter and names a site. |
| Template.SentFor | html/n8n-logger/apache_log_watcher.template.py:94-100 | What one read sends. `SentForSends` characterises it. |
| Template.Sent | html/n8n-logger/apache_log_watcher.template.py:93-100 | What a run of reads sends. `SentSplits`, `SentAtMostOnePerLine`, `SentOnlyFiltered` and `SentEveryFiltered` characterise it, and `TailAndWatch` computes it. |
| Template.SentSplits | html/n8n-logger/apache_log_watcher.template.py:93-100 | Lines are handled independently: what two stretches of reading send is what each sends, in order. |
| Template.SentAtMostOnePerLine | html/n8n-logger/apache_log_watcher.template.py:93-100 | At most one payload is sent per line read. |
| Template.SentOnlyFiltered | html/n8n-logger/apache_log_watcher.template.py:97-100 | Every payload sent comes from a line that passes the filter and yields it. |
| Template.SentEveryFiltered | html/n8n-logger/apache_log_watcher.template.py:97-100 | Every line that passes the filter and names a site has its payload sent. |
| Template.TailAndWatch | html/n8n-logger/apache_log_watcher.template.py:90-100 | The read loop sends exactly `Sent`. |

## Left out

- The outside world is fixed: the commands' outputs, the path lookups and file times never change while the watcher runs. So a cached entry never goes stale, and the cached methods' results equal the uncached ones only under this premise. Files, repositories and host configurations that change between lookups are not modelled.
- Console output (`print`, such as the `[blame error]` message of `get_git_blame`) has no effect on the results and is left out.
- HTTP posting (`send_to_n8n`, `requests.Session`), configuration loading and reloading, the `enabled` gate in `run`, and the script's module-level call are plumbing with no logic to verify.
- Opening, seeking and reading the log file, `time.sleep` and `time.time()` are replaced by events stamped in whole milliseconds. The two-second wait is compared against the time of the last line appended.
- Commands are not run. `Oracles.Env.run` gives what each command prints on success, or `None`. Shell quoting of paths that contain quotes is not modelled.
- Oracles.GrepOutput: grep's standard error, which `getoutput` merges into the output, is not modelled. Only the names grep prints count.
- Oracles.RemoteOutput: when `cd` into the directory fails, the shell's error message is merged into the output before `unknown`. The model gives `unknown` alone.
- Errors other than a failing command are not modelled. A missing working directory for `git`, a failing `getmtime` and a template path with no directory part all raise exceptions the code does not catch.
- TemplateBlameOf: the template runs `git rev-parse` in `dirname(file)`, and the model uses the absolute form of that directory, which names the same place. A file with no directory part makes the template raise; the model treats it like any other directory.
- Template.SitePayload: the template's shell `dirname` (unquoted) and Python's `os.path.dirname` are taken to name the same directory. They can differ, for example for paths with trailing slashes, and because the unquoted result is split on spaces and tabs and glob-expanded, so a directory name holding whitespace, `*`, `?` or `[` can send `cd` elsewhere.
- `os.path.abspath`, `os.path.relpath` and the modification time are answers of `Oracles.Env.os`. `datetime.isoformat` is part of the modification-time answer.
- Watcher.LogWatcher.Expire: the 24-hour expiry and the size bounds (1000 and 5000 entries, least recently used first) of the time-limited caches are modelled as the removal of any set of keys at any time. When they happen is not modelled.
- Python's `\d`, `str.isspace` and `str.lower` are modelled on ASCII: digits `0`-`9`, the ASCII whitespace characters, and `A`-`Z` folding to `a`-`z`.
