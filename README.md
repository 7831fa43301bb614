# art-clean-up: a verified model of the artifact clean-up run

`clean_old_artifacts_parallel.py` deletes old artifacts from the LOCAL and
FEDERATED repositories of a JFrog Artifactory instance. It lists the
repositories and searches each one for old artifacts. Artifacts whose full
path matches an exclusion pattern are skipped, and the rest are deleted by
parallel `jf rt del` processes. The run writes one CSV record per artifact
(Repository, Path, Status, Exclusion Pattern, Error).

This project models the decision logic of that run in Dafny and proves
what it promises:

| file | module | what it holds |
|---|---|---|
| `values.dfy` | `Values` | `Option` and `Outcome` (`Crashed` is an uncaught Python exception). Decoded JSON, Python truthiness and `dict.get`. |
| `text.dfy` | `Text` | `sep.join`, `c * n`, left-aligned padding and `str.strip()`, with their length and layout lemmas. |
| `glob.dfy` | `Glob` | `fnmatch.fnmatch`: the pattern is compiled to tokens the way `fnmatch.translate` reads it, then matched. A split-based reference meaning (`IsSplit`) is proved equivalent. |
| `exclusion.dfy` | `Exclusion` | `is_excluded`. It is a method that updates the caller's matched-pattern set, a `PatternSet` object. `FirstMatchIndex` specifies it, and `JoinSet` models `", ".join` over a set. |
| `repositories.dfy` | `Repositories` | The nested loop of `get_repositories`, proved against `RepositoriesOf`. |
| `table.dfy` | `Table` | `print_table`, returning its lines. The geometry lemmas cover widths, equal line lengths, and where the `+`/`|` boundaries and the cells sit. |
| `cleanup.dfy` | `Cleanup` | `build_delete_command`, `execute_delete`, and the per-repository loop of `main`. Artifacts are split into `skipped` records and delete commands. A worker-pool loop completes the commands in any order. |
| `report.dfy` | `Report` | `parse_artifacts` and the loop of `main` over all repositories. It accumulates the report records and proves one record per artifact found. |

Processes and JSON decoding are parameters:
- what a search printed: `search(i)`, where None means the search failed;
- what `json.loads` makes of a text: `decode`;
- how the k-th delete command of repository i ends: `run(i, k)`.

The worker pool is a loop that takes pending commands in an order it chooses
freely (`:|`). Every property about the report therefore holds for every
completion order.

`is_excluded` stops at the first matching pattern and adds only that one to
the matched-pattern set (`clean_old_artifacts_parallel.py:79-82`), even when
later patterns match too. `Exclusion.OnlyFirstMatchRecorded` exhibits a path
that two patterns match where only the first is reported.

## Model

| member | source | states |
|---|---|---|
| Values.Get | clean_old_artifacts_parallel.py:221 | `d.get(key, default)`: the stored value when the key is present, otherwise the default. |
| Values.Truthy | clean_old_artifacts_parallel.py:208-212 | A decoded value is falsy exactly when it is null, `false`, zero, or an empty string, list or object. |
| Text.JoinLength | clean_old_artifacts_parallel.py:110-111 | A joined string is the total length of its parts plus one separator between each pair. |
| Text.JoinPartAt | clean_old_artifacts_parallel.py:110-111 | In `sep.join(parts)` the j-th part sits at offset `len(parts[..j]) + j*len(sep)`. |
| Text.JoinSepAt | clean_old_artifacts_parallel.py:110-111 | In `sep.join(parts)` the separator sits immediately before every part but the first. |
| Text.Repeat | clean_old_artifacts_parallel.py:110 | `"-" * n` is n copies of the character. |
| Text.Join | clean_old_artifacts_parallel.py:110-111 | `sep.join` of no parts is "", of one part that part, and is never shorter than the parts together. |
| Text.PadRight | clean_old_artifacts_parallel.py:111 | `f"{s:<{w}}"` has length `max(len(s), w)`, starts with `s`, and the rest is spaces. |
| Text.Strip | clean_old_artifacts_parallel.py:165 | `str.strip()` is the piece of the input left after its leading whitespace. It neither starts nor ends with whitespace, everything removed is whitespace, and it is empty exactly when the input is all whitespace. |
| Text.StripIdempotent | clean_old_artifacts_parallel.py:165 | Stripping twice equals stripping once. |
| Glob.FindClose | clean_old_artifacts_parallel.py:80 | The first `]` at or after a position, or None when there is none. |
| Glob.SetBodyStart | clean_old_artifacts_parallel.py:80 | The search for the closing `]` skips a leading `!`, then a `]` right after it, and nothing else: a leading `]` skips one character and `!]` skips two. |
| Glob.SetClose | clean_old_artifacts_parallel.py:80 | A bracket expression ends at the first `]` after its leading `!` and a `]` right after that, which belong to the set; so the `]` is never its first member. The result is None exactly when no `]` follows, and then the `[` is an ordinary character. |
| Glob.SetItems | clean_old_artifacts_parallel.py:80 | A bracket body yields at most one entry per character. A body without `-` yields exactly its characters, one entry each, in order. |
| Glob.Compile | clean_old_artifacts_parallel.py:80 | A pattern compiles to at most one token per character, and to no tokens exactly when it is empty. |
| Glob.FnMatch | clean_old_artifacts_parallel.py:80 | A pattern without `*` matches only names no longer than itself. Its full meaning is `FnMatchMeaning`. |
| Glob.StarFreeCompiles | clean_old_artifacts_parallel.py:80 | Only a `*` compiles to a token that stands for any string. |
| Glob.FixedMatchLength | clean_old_artifacts_parallel.py:80 | Tokens without `*` match only names with exactly one character per token. |
| Glob.MatchSound | clean_old_artifacts_parallel.py:80 | Every successful match splits the whole name into one piece per token, each fitting its token. |
| Glob.MatchComplete | clean_old_artifacts_parallel.py:80 | Every such split of the whole name makes the match succeed. |
| Glob.FnMatchMeaning | clean_old_artifacts_parallel.py:80 | `fnmatch(name, pat)` holds exactly when the whole name splits into pieces fitting the pattern's tokens: `*` any piece, `?` one character, a set one character in or not in it. |
| Glob.CompileStep | clean_old_artifacts_parallel.py:80 | A `*`, a `?` or an ordinary character compiles to exactly one token. |
| Glob.StarMatchesEverything | clean_old_artifacts_parallel.py:80 | The pattern `*` matches every path; `/` and a leading `.` are not special. |
| Glob.PlainPatternMatchesItself | clean_old_artifacts_parallel.py:80 | A pattern without wildcards matches exactly the path equal to it. The full path is compared, not its basename. |
| Exclusion.FirstMatchIndex | clean_old_artifacts_parallel.py:78-83 | The index of the first pattern in list order that matches the path: it matches and no earlier one does. None exactly when no pattern matches. |
| Exclusion.PatternSet.constructor | clean_old_artifacts_parallel.py:222 | `matched_patterns = set()` starts empty. |
| Exclusion.PatternSet.Add | clean_old_artifacts_parallel.py:81 | `set.add` adds exactly the given pattern. |
| Exclusion.IsExcluded | clean_old_artifacts_parallel.py:78-83 | True exactly when some pattern matches the full path. In that case exactly the first matching pattern is added to the caller's set; otherwise the set is unchanged. |
| Exclusion.JoinSet | clean_old_artifacts_parallel.py:229 | `", ".join(s)` joins every element of the set once, in some order. A one-element set joins to that element, and an empty set to "". |
| Exclusion.TmpPatternTokens | clean_old_artifacts_parallel.py:80 | The pattern for a `tmp` directory compiles to any text, `/tmp/`, then any text. |
| Exclusion.BakPatternTokens | clean_old_artifacts_parallel.py:80 | The pattern for a `.bak` suffix compiles to any text followed by `.bak`. |
| Exclusion.TmpPatternMatchesExample | clean_old_artifacts_parallel.py:80 | `*/tmp/*` matches `a/tmp/x.bak`. |
| Exclusion.BakPatternMatchesExample | clean_old_artifacts_parallel.py:80 | `*.bak` matches `a/tmp/x.bak`. |
| Exclusion.OnlyFirstMatchRecorded | clean_old_artifacts_parallel.py:79-82 | When two patterns match, the first is the one reported. |
| Repositories.Entries | clean_old_artifacts_parallel.py:94-98 | One `{key, class}` per entry, in list order, built from `key` and `rclass`. It crashes exactly when some entry lacks either. |
| Repositories.ClassItems | clean_old_artifacts_parallel.py:94 | `data.get(rclass, [])`: a missing class is an empty list, and a list gives its items. It crashes exactly when the value is neither a list nor an empty object or string, since iterating any other value, or the strings a non-empty object or string yields, raises. |
| Repositories.CollectCrashes | clean_old_artifacts_parallel.py:93-99 | A crash while reading one class ends the whole filtering. |
| Repositories.RepositoriesOf | clean_old_artifacts_parallel.py:91-99 | The filtering crashes exactly when the configuration is not an object or either class's list crashes. Otherwise it gives LOCAL's repositories followed by FEDERATED's. |
| Repositories.GetRepositories | clean_old_artifacts_parallel.py:93-99 | The nested append loop yields exactly `RepositoriesOf(data)`. |
| Repositories.AppendEntries | clean_old_artifacts_parallel.py:94-98 | The inner append loop over one class's list yields exactly `Entries` of that list, crashing at the first malformed entry. |
| Repositories.CollectBoth | clean_old_artifacts_parallel.py:93 | The result is the LOCAL entries followed by the FEDERATED entries. |
| Repositories.RepositoriesLayout | clean_old_artifacts_parallel.py:93-99 | The repositories are the LOCAL list turned entry by entry into `{key, class}`, followed by the FEDERATED list turned the same way. Each class keeps its order. |
| Repositories.OtherClassesIgnored | clean_old_artifacts_parallel.py:93-94 | The outcome depends only on the LOCAL and FEDERATED lists; any other top-level key never matters. |
| Table.ColumnWidth | clean_old_artifacts_parallel.py:109 | A column's width is the maximum of the lengths of its header and its cells. It is at least each of them and equal to one of them. |
| Table.WidthsAreMaxima | clean_old_artifacts_parallel.py:109 | `col_widths` has one entry per header. Each is at least as long as its header and every cell of its column, and equals the length of one of them. |
| Table.DashRuns | clean_old_artifacts_parallel.py:110 | One run of dashes per column, each `width + 2` long and made only of `-`. |
| Table.PaddedCells | clean_old_artifacts_parallel.py:111 | One padded cell per cell. Each starts with the cell's text and continues with spaces only, and it is exactly the column's width when the cell fits. |
| Table.Border | clean_old_artifacts_parallel.py:110 | A border line starts and ends with `+`. |
| Table.FormatRow | clean_old_artifacts_parallel.py:111 | A row line opens with a bar and a space, and closes with a space and a bar. |
| Table.PrintTable | clean_old_artifacts_parallel.py:108-119 | The table is produced exactly when every row has one cell per header, and then it has `len(rows) + 4` lines. |
| Table.SumPrefix | clean_old_artifacts_parallel.py:109-111 | Width prefix sums grow by one column at a time and never exceed the total. |
| Table.ColumnStart | clean_old_artifacts_parallel.py:110-111 | The offset of every column boundary lies inside the line. |
| Table.DashesLength | clean_old_artifacts_parallel.py:110 | The first j border segments total `sum(widths[..j]) + 2j` characters. |
| Table.PaddedLength | clean_old_artifacts_parallel.py:111 | The first j padded cells total `sum(widths[..j])` characters when the cells fit. |
| Table.DashesTotal | clean_old_artifacts_parallel.py:110 | All border segments together are `sum(widths) + 2*len(widths)` long. |
| Table.PaddedTotal | clean_old_artifacts_parallel.py:111 | All padded cells together are `sum(widths)` long when every cell fits. |
| Table.BorderLength | clean_old_artifacts_parallel.py:110 | A border is `sum(widths) + 3*len(widths) + 1` long. |
| Table.BorderBoundary | clean_old_artifacts_parallel.py:110 | A border has `+` at every inner column boundary. |
| Table.BorderLayout | clean_old_artifacts_parallel.py:110 | A border has the full line length and a `+` at every column boundary, the two ends included. |
| Table.RowLength | clean_old_artifacts_parallel.py:111 | A row whose cells fit is exactly as long as a border. |
| Table.RowBoundary | clean_old_artifacts_parallel.py:111 | A row has `|` at every inner column boundary. |
| Table.RowCell | clean_old_artifacts_parallel.py:111 | Cell j, padded, sits two characters after boundary j. |
| Table.RowLayout | clean_old_artifacts_parallel.py:111 | A row has the border's length and `|` at every column boundary, and shows each padded cell two characters after its boundary. |
| Table.CellsFit | clean_old_artifacts_parallel.py:109 | Every header and cell fits its column's width. |
| Table.TableShape | clean_old_artifacts_parallel.py:108-119 | A rectangular table has `len(rows) + 4` lines. The first, third and last are the same border; the second is the header row, followed by the data rows in order. |
| Table.DataRowsLength | clean_old_artifacts_parallel.py:117-118 | Every data row line is as long as a border. |
| Table.TableGeometry | clean_old_artifacts_parallel.py:108-119 | With at least one header, every line of the table is `sum(widths) + 3*len(headers) + 1` long. |
| Table.TableFailsOnRaggedRows | clean_old_artifacts_parallel.py:109-117 | The table fails (IndexError) exactly when some row has a cell count different from the header count. |
| Cleanup.BuildDeleteCommand | clean_old_artifacts_parallel.py:150-154 | `["jf","rt","del",path,"--quiet"]`, with `"--dry-run"` appended exactly in dry-run mode. The path is at index 3 and the length is 5 or 6. |
| Cleanup.SuccessLabelOfCommand | clean_old_artifacts_parallel.py:159-162 | A success is logged as DRYRUN-COMPLETE exactly in dry-run mode or when the path itself is `--dry-run`. |
| Cleanup.ExecuteDelete | clean_old_artifacts_parallel.py:156-167 | Success gives `(True, "")`. A failed process gives `(False, msg)`, where msg is "Unknown error" for empty stderr and otherwise exactly the stripped stderr, which is empty exactly when stderr is all whitespace. Any other exception is passed on with its message. |
| Cleanup.DeleteRecord | clean_old_artifacts_parallel.py:240-259 | The record of a completed command has Path `cmd[3]` and an empty Exclusion Pattern. Its Status is `deleted`, `error` or `Error` exactly for success, failure or a raised result, and its Error is the message. |
| Cleanup.ItemPath | clean_old_artifacts_parallel.py:221 | `item.get("path", "")`: a missing path reads as "". It is None, a crash, exactly when the item is not an object (AttributeError) or its path is not a string. The second case is weaker than the source (see Left out). |
| Cleanup.Classify | clean_old_artifacts_parallel.py:220-235 | An artifact is skipped exactly when some pattern matches its path, and then it names the first matching pattern (`FirstMatchIndex`). Otherwise it yields the delete command for its path, with the path at index 3. A missing path reads as "". It crashes exactly on a non-object item or a non-string path. |
| Cleanup.ClassifyArtifact | clean_old_artifacts_parallel.py:220-235 | The loop body over one artifact gives exactly `Classify`. It reads `path`, runs `is_excluded` with a fresh matched-pattern set and joins that set, or builds the delete command. |
| Cleanup.Steps | clean_old_artifacts_parallel.py:218-235 | One step per artifact in artifact order, each the artifact's classification. It crashes exactly when some artifact does. |
| Cleanup.SkipRecords | clean_old_artifacts_parallel.py:223-231 | Every skipped record carries the repository key, status `skipped` and an empty Error. |
| Cleanup.Commands | clean_old_artifacts_parallel.py:234-235 | Every collected delete command has a path at index 3. |
| Cleanup.DeleteRecordsFollowRun | clean_old_artifacts_parallel.py:237-259 | One delete record per command. The k-th has the repository key, path `cmd[3]` and no pattern. Its status is `deleted`, `error` or `Error` exactly when process k succeeded, failed or raised. Its Error is "" on success, the stripped stderr (or "Unknown error") on failure, and the exception's message when raised. |
| Cleanup.PerArtifact | clean_old_artifacts_parallel.py:218-259 | One record per step, in step order. `PerArtifactAt` gives each record's fields. |
| Cleanup.PartitionCount | clean_old_artifacts_parallel.py:218-235 | Skipped records plus delete commands number exactly the artifacts: never both, never neither. |
| Cleanup.OneRecordPerArtifact | clean_old_artifacts_parallel.py:218-259 | Skipped records and delete records together are, as a multiset, one record per artifact. |
| Cleanup.AppendStepRecords | clean_old_artifacts_parallel.py:218-259 | One more artifact adds exactly its own record to the multiset of records. |
| Cleanup.PerArtifactAt | clean_old_artifacts_parallel.py:218-259 | The i-th artifact's record has the i-th path and is `skipped` exactly when that artifact was excluded. It names a pattern exactly then. |
| Cleanup.RecordsFollowArtifacts | clean_old_artifacts_parallel.py:218-259 | There is one record per artifact. Each has the repository key and the artifact's path. It is `skipped` exactly when some pattern matches that path and then names the first such pattern; otherwise it names none. |
| Cleanup.DryRunSameRecords | clean_old_artifacts_parallel.py:234-259 | With the same process outcomes, dry-run mode yields the same records as a real run, `deleted` statuses included. |
| Cleanup.SameRecords | clean_old_artifacts_parallel.py:234-259 | Two step lists that agree on every skip and on every command's path submit equally many commands and yield the same records. |
| Cleanup.SplitArtifacts | clean_old_artifacts_parallel.py:218-235 | The artifact loop produces exactly the skipped records and the delete commands of `Steps`, or crashes exactly when `Steps` does. |
| Cleanup.SplitStep | clean_old_artifacts_parallel.py:220-235 | One more artifact extends the steps by its classification. It appends a skipped record or a delete command, never both. |
| Cleanup.RunDeletes | clean_old_artifacts_parallel.py:237-259 | Whatever the completion order, every submitted command yields exactly one record: the records are a permutation of `DeleteRecords`. |
| Cleanup.ProcessRepository | clean_old_artifacts_parallel.py:218-259 | One record per artifact. The skipped records come first in artifact order, followed by a permutation of the delete records. It crashes exactly when some artifact crashes. |
| Report.ParseArtifacts | clean_old_artifacts_parallel.py:136-148 | A decoded list is returned unchanged and an object with `results` gives that value. Any other shape, or undecodable text, gives `[]`. |
| Report.EnvelopeTransparent | clean_old_artifacts_parallel.py:139-142 | A bare list and the same list wrapped as `{"results": ...}` read alike, whatever else the object holds. |
| Report.ArtifactItems | clean_old_artifacts_parallel.py:212-221 | A falsy value means no artifacts and a list means its items. Any other truthy value crashes. |
| Report.SearchArtifacts | clean_old_artifacts_parallel.py:207-216 | A failed or silent search, or a falsy parsed value, gives no artifacts. Otherwise a parsed list gives its items, and it crashes exactly when the parsed value is truthy but not a list. |
| Report.RepoRecords | clean_old_artifacts_parallel.py:207-259 | A repository's records are complete exactly when its search and every artifact's classification are. They are then one record per artifact found. |
| Report.RepoRecordsCases | clean_old_artifacts_parallel.py:207-216 | One repository contributes nothing after a failed or empty search, or when the parsed value is falsy. It crashes when that value is truthy but not a list. For a list, it contributes one record per artifact, or crashes when some artifact does. |
| Report.Gather | clean_old_artifacts_parallel.py:203-259 | The accumulated records are complete exactly when no contribution crashed. |
| Report.GatherLength | clean_old_artifacts_parallel.py:203-259 | A completed accumulation is as long as all the contributions together. |
| Report.RunRecords | clean_old_artifacts_parallel.py:203-259 | The run's records are complete exactly when no repository's contribution crashed. |
| Report.CrashInOneRepositoryCrashesRun | clean_old_artifacts_parallel.py:205-259 | A crash in any one repository ends the whole run without a report. |
| Report.CleanUp | clean_old_artifacts_parallel.py:193-259 | Without repositories, nothing is reported. Otherwise the run crashes exactly when some repository's records crash (`RunRecords`). If not, the report holds, as a multiset, exactly the records of every repository. |
| Report.OneRecordPerFoundArtifact | clean_old_artifacts_parallel.py:205-259 | A completed run has exactly as many records as the searches found artifacts, summed over the repositories. A failed or silent search counts as finding none. |
| Report.FailedSearchContributesNothing | clean_old_artifacts_parallel.py:207-209 | A repository whose search failed or printed nothing contributes no record. |
| Report.DryRunSameReport | clean_old_artifacts_parallel.py:181-259 | With the same searches and process outcomes, the dry-run report equals the real one. |

## Left out

- Processes: `jfrog_cli_configure`, the `jf rt curl` call of `get_repositories`, `get_old_artifacts` and the `jf rt del` run inside `execute_delete` are not executed. Their results are parameters (`search`, `run`), and the configuration the repository list is read from is the input of `GetRepositories`.
- `json.loads` / `json.load`: decoded values are the `Json` datatype, with `Decoded.Malformed` for a JSONDecodeError. `decode` is a parameter.
- `load_exclusion_patterns`, `setup_logger`, all logging, argparse, the `uuid` server id, the timestamped file name, and the `os.path.exists`/`sys.exit(1)` paths are not modelled: they are file and terminal I/O and process exits. The exclusion patterns are a parameter.
- CSV writing (`csv.DictWriter`, semicolon-delimited): records are the five-field `Record` datatype, and the report is the record list.
- Threads: `ThreadPoolExecutor`/`as_completed` is a sequential loop with free completion order. A `--threads` count of 1 or more does not change the records.
- Threads: the worker count is assumed to be at least 1. With 0 or less, `ThreadPoolExecutor` raises ValueError at :237 for the first repository that has artifacts, and the run ends without a report.
- `fnmatch` case folding by `os.path.normcase`: matching is case-sensitive, as on POSIX. The regular-expression engine is replaced by the token matcher.
- Report.CleanUp: the repository table that `main` prints (`print_table` over `str(key)`/`str(class)`) is not part of the run model. `Table.PrintTable` takes text cells, so `str()` of non-text values is not modelled.
- Cleanup.ItemPath: a non-string `path` is modelled as a crash. The source crashes on it only when there is at least one exclusion pattern, through the matcher's TypeError at :80. With no patterns, the value reaches the delete command instead; the worker's exception is then caught at :251-258 and reported as an `Error` record whose Path is that non-string value, which the text-only `Record` cannot hold.
- Cleanup.Classify: a non-string `path` crashes, as `ItemPath` does, even when there are no exclusion patterns and the source would report an `Error` record instead.
- Report.ArtifactItems: a non-empty string or object is modelled as crashing at once. The source crashes at the first item, before any record is added, so the outcome is the same.
- Table.TableGeometry: it assumes at least one header. With none, the border is `++`, one character longer than the formula, and the header row `|  |` is three characters longer, so the border and the rows differ in length.
- Values.Truthy: numbers are exact reals, so NaN and infinities (truthy in Python) are not represented.
- Report.CleanUp: the report equals `RunRecords` as a multiset. Its stronger shape is proved for each repository by `Cleanup.ProcessRepository`: that repository's block is the skipped records followed by the delete records in completion order.
