# tmux-organize, modelled in Dafny

tmux-organize ships two tmux helpers that ask a language model for names:

- `torganize` renames and reorders every window of the current tmux session, and renames the session itself.
  - It takes a snapshot of the session: windows, panes, the child process of each pane's shell, and paths.
  - It adds what `otop sessions` reports about opencode sessions running in the windows.
  - It keys a plan cache by a hash of the snapshot.
  - It reuses a cached plan or asks the model for a JSON plan.
  - It validates the plan against the snapshot.
  - It applies the plan in three passes:
    1. rename each window;
    2. park each window at a temporary index `900 + k`;
    3. move each window to its planned index.
- `tname` renames one window.
  - It gathers that window's process command lines, paths and informative pane titles.
  - It adds the opencode session title of the window, if there is one.
  - It renames the window to the slug the model returns, stripped of spaces and newlines.

The model treats everything outside the program as a parameter:

- the standard output of every tmux, `pgrep` and `ps` call;
- the host name;
- the decoded `otop sessions` records;
- the model's reply, which may be a timeout;
- the JSON decoder;
- the SHA-256 function.

Modules:

- `Tmux`: `run`, the hostname titles, the child-command lookup and the session snapshot.
- `Otop`: otop records and pane targets.
- `CacheKey`: the cache key.
- `Enrichment`: the opencode enrichment text.
- `ExtractJson`: finding the first JSON object in the model's output.
- `Plans`: the plan and `validate_plan`.
- `Apply`: the plan application, as a class over the session's index-to-window and window-to-name maps.
- `Organize`: the organizer's decision sequence, with the plan cache as a class.
- `Name`: the window namer.
- `Text`, `Seqs`, `Ordering` and `Results`: the Python string, list and sorting operations the program relies on.

## Model

| member | source | states |
|---|---|---|
| Tmux.Run | src/tmux_organize/tmux.py:41-49 | the result is a prefix of the output, only newlines were dropped, and it does not end in a newline |
| Tmux.RunDropsTrailer | src/tmux_organize/tmux.py:41-49 | a one-line output loses exactly its trailing newlines |
| Tmux.RunKeepsFields | src/tmux_organize/tmux.py:44-49 | a tab-delimited line keeps every field through `run`, including an empty first field |
| Tmux.StripLosesEmptyTitle | src/tmux_organize/tmux.py:44-46 | with `strip()` instead, a pane line with an empty title splits into 3 fields instead of 4 |
| Tmux.HostnameTitles | src/tmux_organize/tmux.py:15-17 | the set holds the full host name and its part before the first `.`; every member is the host name or a prefix of it ending just before a `.`; without a `.` it is the host name alone |
| Tmux.ShownTitle | src/tmux_organize/tmux.py:113 | the pane title is kept unless it is a hostname variant, in which case it is blanked |
| Tmux.Basename | src/tmux_organize/tmux.py:115 | the directory is the suffix of the path after its last `/` and holds no `/` |
| Tmux.ChildPid | src/tmux_organize/tmux.py:64-69 | a pid exists exactly when the `pgrep` output is not blank; it is the first word of the stripped output |
| Tmux.GetChildCmdline | src/tmux_organize/tmux.py:52-77 | blank `pgrep` output gives `""`; otherwise the stripped `ps` output for the child pid |
| Tmux.Listing | src/tmux_organize/tmux.py:96-98 | the lines the loops use are the listing's lines at ascending positions, all non-blank, and every non-blank line's position is among them: exactly the non-blank lines, in listing order |
| Tmux.ParsePaneLine | src/tmux_organize/tmux.py:109-124 | a pane line parses exactly when it has four tab-separated fields; otherwise unpacking fails on that line |
| Tmux.ParseWindowLine | src/tmux_organize/tmux.py:99-133 | a window line with other than three fields fails; a parsed window carries the panes of its id's listing and `int()` of its index field |
| Tmux.PaneLineFields | src/tmux_organize/tmux.py:107-124 | a pane line as tmux formats it reads back with its title, command, path and pid |
| Tmux.WindowLineFields | src/tmux_organize/tmux.py:93-133 | a window line as tmux formats it reads back with its id, index and name |
| Tmux.GatherPanes | src/tmux_organize/tmux.py:109-124 | the pane loop gives the panes of the non-blank lines, in order, or the first bad line's error |
| Tmux.GatherSessionContext | src/tmux_organize/tmux.py:80-147 | the window loop and the session path give the snapshot specification, or the first bad line's error |
| Tmux.SessionContextShape | src/tmux_organize/tmux.py:96-147 | a snapshot has one window per non-blank line of the window listing, and it carries the session id and path |
| Text.ParseInt | src/tmux_organize/organize.py:141-144 | `int()` in base 10 succeeds only on non-blank text |
| Text.IntToStringParses | src/tmux_organize/tmux.py:129 | every integer tmux prints reads back as itself through `int()` |
| Ordering.Sort | src/tmux_organize/organize.py:48-55 | `sorted` gives a sorted permutation of its input |
| Ordering.SortedSet | src/tmux_organize/organize.py:307-309 | `sorted(set)` is strictly ascending and has the same elements as its input |
| Ordering.SortedSetIgnoresOrder | src/tmux_organize/name.py:82 | `sorted(set(...))` does not depend on the order of the input |
| Otop.WindowOf | src/tmux_organize/organize.py:127-144 | a target names a window only if it holds `:` and its text before the first `:` is the session name |
| Otop.OwnTarget | src/tmux_organize/organize.py:134-144 | for the session's own target, the window is `int()` of the text between the `:` and the first `.` |
| Otop.TargetRoundTrip | src/tmux_organize/organize.py:115-147 | each `name:window` and `name:window.pane` target reads back as its window |
| Otop.ForeignTarget | src/tmux_organize/organize.py:134-136 | a target of another session never names a window |
| CacheKey.Hex | src/tmux_organize/organize.py:68 | `hexdigest` has two lower-case hex digits per byte |
| CacheKey.KeyOf | src/tmux_organize/organize.py:63-68 | the key is 16 lower-case hex digits |
| CacheKey.BuildCacheKey | src/tmux_organize/organize.py:40-68 | the window loop computes the first 16 hex digits of the digest of the path, the window fingerprints and the enrichment text |
| CacheKey.PaneOrderIrrelevant | src/tmux_organize/organize.py:48-55 | reordering a window's panes keeps its fingerprint |
| CacheKey.PaneOrderKeepsKey | src/tmux_organize/organize.py:46-68 | snapshots that differ only in pane order have the same key |
| CacheKey.EnrichmentInPreimage | src/tmux_organize/organize.py:43-44 | a different enrichment text gives a different hashed text for the same snapshot |
| CacheKey.FingerprintsInPreimage | src/tmux_organize/organize.py:46-67 | for the same session path and enrichment text, and fingerprints without `;`, two snapshots hash the same text exactly when they list the same window fingerprints in the same order; reordering windows changes the key unless their fingerprints coincide |
| Enrichment.Annotated | src/tmux_organize/organize.py:126-147 | a window is in the window map exactly when some record annotates it |
| Enrichment.LastRecordWins | src/tmux_organize/organize.py:146-147 | a window keeps the session data of the last record that annotates it |
| Enrichment.LineNotEmpty | src/tmux_organize/organize.py:155-165 | every window line is non-empty |
| Enrichment.BuildOpencodeContext | src/tmux_organize/organize.py:109-166 | the record loop and the sorted rendering give the enrichment text specification |
| Enrichment.RenderSorted | src/tmux_organize/organize.py:153-166 | the lines follow the window indices in ascending order, joined by newlines |
| Enrichment.RenderLines | src/tmux_organize/organize.py:154-165 | one line per window index, in the given order |
| Enrichment.SortedKeys | src/tmux_organize/organize.py:154 | the loop's window indices are `sorted` of the window map's keys |
| Enrichment.RenderEmptyIff | src/tmux_organize/organize.py:149-166 | the rendering is empty exactly for an empty window map |
| Enrichment.ContextEmptyIff | src/tmux_organize/organize.py:120-150 | the text is empty exactly when every record is skipped, for a target outside the session or empty session data |
| ExtractJson.ExtractJsonFromOutput | src/tmux_organize/organize.py:172-188 | no `{` gives `None`; otherwise the decoding of the span from the first `{` to the first `}` that brings the depth to 0; `None` when nothing closes it |
| ExtractJson.FirstCloseUnique | src/tmux_organize/organize.py:178-185 | at most one position closes the object first |
| ExtractJson.FirstCloseExists | src/tmux_organize/organize.py:178-188 | if any `}` closes the object, a first one does |
| ExtractJson.FirstCloseBalanced | src/tmux_organize/organize.py:174-185 | the extracted span starts with `{`, ends with `}`, and every shorter prefix of it leaves a brace open |
| ExtractJson.NestedExample | src/tmux_organize/organize.py:172-188 | in `x{{}}{}` the span taken is the outer `{{}}` |
| Plans.ValidatePlan | src/tmux_organize/organize.py:292-313 | missing keys are reported first; then differing id sets give "window id mismatch: " with the missing and extra parts; then repeated indices give "duplicate indices"; a plan passes exactly when it has both keys, the same id set as the snapshot and distinct indices |
| Plans.MismatchReport | src/tmux_organize/organize.py:302-310 | a mismatch report is never empty; it lists, each ascending and once, exactly the missing ids and exactly the extra ids |
| Plans.RepeatedIdUnrealizable | src/tmux_organize/organize.py:299-300 | no layout gives one window two names |
| Plans.RepeatedIdPasses | src/tmux_organize/organize.py:299-313 | a plan listing a window twice passes `validate_plan` but no layout realizes it; the corrected check rejects it |
| Plans.ValidatePlanCorrected | src/tmux_organize/organize.py:292-313 | every rejection of `validate_plan` is kept, and listing an id twice is also rejected |
| Plans.ValidatedPlanIsSafe | src/tmux_organize/organize.py:325-343 | a validated plan whose indices and the live indices are all below 900 meets what the three passes need |
| Apply.SlotsMoved | src/tmux_organize/organize.py:326-343 | moving a window to a free index keeps the set of placed windows and keeps indices one-to-one |
| Apply.SafeParts | src/tmux_organize/organize.py:319-346 | a safe plan lists each live window exactly once, with distinct indices |
| Apply.IndicesUsed | src/tmux_organize/organize.py:336-343 | after the last pass, the indices in use are exactly the plan's |
| Apply.PlacedStep | src/tmux_organize/organize.py:336-343 | each final move finds its temporary index occupied and its planned index free |
| Apply.TemporaryOnly | src/tmux_organize/organize.py:326-333 | after the parking pass only temporary indices are in use |
| Apply.TmuxSession.constructor | src/tmux_organize/organize.py:319 | the session model starts with the given windows, names and session name, and is valid: no window at two indices, and the named windows are the placed ones |
| Apply.TmuxSession.RenameWindow | src/tmux_organize/organize.py:323 | `rename-window` changes that window's name only |
| Apply.TmuxSession.MoveWindow | src/tmux_organize/organize.py:327-333 | `move-window -s <id>` puts the window at the free index and vacates its old one |
| Apply.TmuxSession.MoveSlot | src/tmux_organize/organize.py:337-343 | `move-window -s <session>:<src>` moves that index's window to the free index |
| Apply.TmuxSession.RenameSession | src/tmux_organize/organize.py:346 | `rename-session` changes the session name only |
| Apply.TmuxSession.RenameAll | src/tmux_organize/organize.py:322-323 | after the first pass every listed window carries its planned name |
| Apply.TmuxSession.MoveToTemporary | src/tmux_organize/organize.py:326-333 | after the second pass entry `k` sits at `900 + k` |
| Apply.TmuxSession.MoveToPlanned | src/tmux_organize/organize.py:336-343 | after the third pass every entry sits at its planned index, and no other index is in use |
| Apply.TmuxSession.ApplyOrganizationPlan | src/tmux_organize/organize.py:319-346 | applying a safe plan puts every window at its planned index under its planned name, uses exactly the plan's indices, keeps the set of windows, and renames the session |
| Organize.PlanCache.constructor | src/tmux_organize/organize.py:37 | the cache starts with the given entries |
| Organize.PlanCache.Write | src/tmux_organize/organize.py:79-82 | stores or overwrites the plan for the key and changes nothing else |
| Organize.Answer | src/tmux_organize/organize.py:267-289 | a timeout gives "opencode timed out"; output without `{` gives "no json in model output"; a plan comes only from output holding `{`, and it is the extracted plan |
| Organize.AskModelForPlan | src/tmux_organize/organize.py:267-289 | exactly one of the plan and the error is set, and they agree with the answer |
| Organize.Decision | src/tmux_organize/organize.py:370-391 | a truthy cached plan is used as it is and applied exactly when it validates; otherwise the model is asked, its error becomes the status, and its plan is applied exactly when it validates, else the validation message becomes the status |
| Organize.CacheAfter | src/tmux_organize/organize.py:372-389 | no stored plan is lost or overwritten; the only plan that can be added is the applied one, under the run's key; an applied plan leaves its key in the cache |
| Organize.Organize | src/tmux_organize/organize.py:358-391 | the outcome is the decision for the cached entry under the snapshot's key, and the cache becomes the cache after that outcome |
| Organize.Resolve | src/tmux_organize/organize.py:371-391 | the same decision and cache update, from a given key |
| Organize.ValidatedIsTruthy | src/tmux_organize/organize.py:374-383 | a validated plan is never the empty object |
| Organize.SecondRunUsesCache | src/tmux_organize/organize.py:370-391 | a second run on the same snapshot applies the stored plan, whatever the model would say, and leaves the cache alone |
| Organize.EmptyEntryStays | src/tmux_organize/organize.py:372-389 | a cached empty object is never replaced: the model is asked every time, and its plan is not stored |
| Name.TitleFor | src/tmux_organize/name.py:35-51 | no matching record gives `""`; a non-empty title is the title of a matching record |
| Name.QueryOpencodeForWindow | src/tmux_organize/name.py:20-51 | the loop returns the title of the first record that matches the window |
| Name.FirstMatchWins | src/tmux_organize/name.py:35-46 | the first matching record decides, even when it has no title |
| Name.FirstHereLastThere | src/tmux_organize/name.py:35-46 | with two records for one window, the namer uses the first record's title, while the organizer's enrichment keeps the last record's session |
| Name.Cmdlines | src/tmux_organize/name.py:65-72 | the command lines are those of the pid lines at ascending positions, in pane order, all non-empty; every pid line whose stripped pid yields a non-empty command line is among them |
| Name.Paths | src/tmux_organize/name.py:82 | the paths are strictly ascending and are exactly the stripped non-blank listed paths |
| Name.Titles | src/tmux_organize/name.py:92-98 | the titles are strictly ascending and are exactly the stripped listed titles that are neither blank nor a hostname |
| Name.Parts | src/tmux_organize/name.py:102-110 | each part is non-empty, and there are no parts exactly when all four sources are empty |
| Name.WindowContext | src/tmux_organize/name.py:102-112 | the context is empty exactly when all four sources are empty |
| Name.GatherWindowContext | src/tmux_organize/name.py:54-112 | the pid loop and the three listings give the window context specification |
| Name.Slug | src/tmux_organize/name.py:162 | the slug has no spaces or newlines, is empty exactly for blank output, and has no whitespace at either end |
| Name.SlugIdempotent | src/tmux_organize/name.py:162 | normalising a slug again changes nothing |
| Name.SlugOf | src/tmux_organize/name.py:155-166 | the slug is empty exactly for a timed-out run or blank output, and holds no space or newline |
| Name.TitleSuffix | src/tmux_organize/name.py:137-138 | an empty title adds nothing; a title is added at the very end |
| Name.AddOpencodeTitle | src/tmux_organize/name.py:127-138 | the context is extended by the title suffix of the window's opencode title |
| Name.NameWindow | src/tmux_organize/name.py:115-177 | outside tmux the run stops; without context it stops; otherwise it fails exactly for an empty slug, with "tname: failed for" and the id, and renames to the slug with "renamed:" and the slug otherwise |

## Left out

- Every subprocess is replaced by its output, passed as a parameter: tmux, `pgrep`, `ps`, `otop` and `opencode`. Exit codes, `FileNotFoundError` and `SubprocessError` are not modelled, and `pgrep` failures are taken to give empty output.
- A failed `otop sessions` call gives an empty list in `query_opencode_sessions` and `""` in `query_opencode_for_window`. The model starts from the decoded records; an empty record list stands for the failure.
- `json.loads` and `json.load` are a decoder parameter. The cache file is a map from keys to decoded plans. An unreadable cache file, which raises in the source, is not modelled.
- SHA-256 and the UTF-8 encoding of the hashed text are a parameter from text to digest bytes.
- The fork, `setsid`, `sys.exit`, the `print` and the `@torganize` status messages are left out. They become the outcome values that end a run.
- `build_prompt` and the namer's prompt text are left out. The model's reply is a parameter, so the prompt does not affect the result.
- The session name read with `display-message -p '#S'` is a parameter of the enrichment, and so is the host name.
- `str.isspace`, `splitlines` and `int()` are modelled for ASCII and the common Unicode line breaks and spaces. Non-ASCII digits are not accepted by the model's `int()`.
- Non-string JSON values are left out. A title, target or id that is not a string, or a plan entry without `id`, `name` or `index`, raises in the source.
- Extra keys of a plan entry are left out.
- An `otop` record whose `session` is not a dict raises in `name.py`. The model gives every record a session object.
- ExtractJson.ExtractJsonFromOutput: braces inside JSON strings are counted like any other, as in the source.
- Apply.TmuxSession.ApplyOrganizationPlan: the source ignores tmux's failures. The model requires a plan under which every move succeeds (`SafeToApply`): each live window listed once, distinct indices, and no planned or current index among `900 .. 900 + len(windows) - 1`. The source checks none of the last part. `Plans.ValidatedPlanIsSafe` states when a validated plan meets it.
- A snapshot line that does not parse raises in the source, which ends the run before the fork. The model returns it as a `ParseError`, and `Organize.Organize` starts from a snapshot that parsed.
- Apply.TmuxSession: only window indices, window names and the session name are modelled. Pane state and tmux's renumbering options are not.
- Organize.Decision: it validates with `Plans.ValidatePlanCorrected` where the source calls `validate_plan`. A plan that lists a window twice is cached and applied by the source, but ends as `Failed("duplicate ids")` in the model (see Findings). For every other plan the two validators agree.
- Organize.Resolve: it validates with `Plans.ValidatePlanCorrected` as `Organize.Decision` does, for the same reason.
- Organize.Organize: the model ends at the decision, and the application is `Apply.TmuxSession.ApplyOrganizationPlan`. The model validates with `Plans.ValidatePlanCorrected` (see Findings). Clearing the status option afterwards is not modelled.
- Organize.PlanCache.Write: writing a plan and reading it back is taken to give the same decoded plan.
- Name.NameWindow: the `rename-window` call and its status message are given as the `Renamed` outcome, not as a change of tmux state.

## Findings

| source | as written | input that shows it | evidently intended | confidence | as-written member | corrected member |
|---|---|---|---|---|---|---|
| src/tmux_organize/organize.py:299-313 | `validate_plan` compares the plan's window ids as a set, so a window listed twice passes | a session with the single window `@1` at index 0, and the plan `{"session": "s", "windows": [{"id": "@1", "name": "a", "index": 0}, {"id": "@1", "name": "b", "index": 1}]}` | a plan names each window once; the second entry renames `@1` to `b` and moves it to index 1, so the result is not the plan's layout | not executed | Plans.RepeatedIdPasses | Plans.ValidatePlanCorrected |
