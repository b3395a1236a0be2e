# parcel-gulp task file, modelled in Dafny

This project models the gulp task file of the parcel-gulp scaffold (`gulpfile.js`). The file has four parts, each modelled as immutable data and pure functions:

- **The readings transform** (`dataProcessing`). The text of `data/readings.csv` is split into lines on `'\n'`. Each line is split on the regular expression `/, ?/`, and its first two pieces become a `{city, temp}` record. The document `{entries: [...]}` holds one record per line, in order. Module `Readings` models this, on top of module `JsSplit`. `JsSplit` models JavaScript's `String.prototype.split` for those two separators, in two ways:
  - a recursive reference definition, `SplitFrom` / `Split`;
  - the ECMAScript split loop, `SplitByMatcher`. The string-separator loop of `String.prototype.split` and `RegExp.prototype[@@split]` share this loop.
- **The bundler tasks** (`parcelServe` and `parcelBuild`), in module `Bundler`. The model covers:
  - the port warning;
  - the program and argument vector passed to `spawn`;
  - the error `parcelServe` completes with.

  The scanner's callback arguments are inputs. The argument vectors are checked against a small reader of the bundler's command line, `ReadCommand`: every vector reads back as the mode, the entry file and the options it was built from.
- **The exported task graphs** (`clean`, `serve` and `default`), in module `TaskGraph`. Each graph is a tree of `Series` and `Parallel` nodes over task names. The relation `Precedes(g, a, b)` means "`a` must finish before `b` starts". It is proved to be a strict order (asymmetric and transitive) on trees without repeated tasks. The exact ordering of both pipelines is then derived from it.
- **The watch registrations** (`watcher`), in module `WatchTable`. They form a static table that maps each glob pattern to the task it re-runs.

Module `Optional` holds the `Option` type used throughout.

## What the transform and the bundler tasks do

The readings transform at `gulpfile.js:59-62`, as modelled:

- **Nothing is trimmed.** Spaces around the city are kept, and a `'\r'` from a CRLF file stays at the end of the line's text. On a `city, temp` line that is the end of `temp`. On a line without a comma it ends `city`. On a line with a second comma it is dropped with the third piece. See `Readings.NoTrimmingNoThirdField`.
- **At most one space after the comma is consumed.** The pattern is `, ?`, so `"a,  b"` gives `temp == " b"`. See `Readings.SeparatorTakesOneSpace`.
- **Every `'\n'` starts a new entry.** This includes a trailing newline and blank lines: such a line gives `{city: "", temp: undefined}`. A file of two readings ending in a newline, `"NYC, 72\nLA, 85\n"`, gives three entries. See `Readings.TrailingNewline` and `Readings.SampleFile`.
- **A line without a comma still gives an entry.** Its `temp` is `undefined`, modelled as `None`. In the written JSON that key is omitted.
- **Pieces after the second are dropped.** `"NYC, 72, F"` gives `temp == "72"`.

The bundler tasks:

- **`parcelBuild` completes without error whatever the child's exit status.** The `close` handler calls `cb()` with no arguments (`gulpfile.js:112`).
- **`parcelServe` spawns the bundler even when the scanner reports an error, and then completes with that error.** Whether it warns depends only on the port value the callback receives. If the scanner passes no port (`undefined`), it warns, because `undefined !== 9000`.

## Model

| member | source | states |
|---|---|---|
| JsSplit.MatchLength | gulpfile.js:60 | The separator match at a position is empty exactly when the character there is not the separator's lead. For `/, ?/` the match takes two characters exactly when a space follows the comma: the optional space is greedy. |
| JsSplit.SplitFrom | gulpfile.js:59-60 | The reference split from a position: cut at the first separator match at or after that position, then continue after the match. It always yields at least one piece. |
| JsSplit.Split | gulpfile.js:59-60 | `text.split(sep)` for the two separators the transform uses: the pieces between the separator matches, in order. Its properties are `SplitCount`, `SplitPiecesExcludeLead`, `SplitJoin`, `JoinSplit` and `SplitCommaIsLiteralSplit`. |
| JsSplit.SplitByMatcher | gulpfile.js:59-60 | The ECMAScript split loop, with positions `p` and `q`, a separator match tried at every `q`, and the last piece added after the loop. It returns exactly the pieces of the recursive reference split, for both separators and every input, including the empty string. |
| JsSplit.SplitCount | gulpfile.js:59 | A split yields exactly one more piece than the text has separator characters (`'\n'`, or `','` for `/, ?/`). |
| JsSplit.SplitPiecesExcludeLead | gulpfile.js:59-60 | No piece contains the separator's character. The split cuts at every occurrence. |
| JsSplit.SplitJoin | gulpfile.js:59 | Joining the pieces of `split('\n')` with `'\n'` gives the original text back. Nothing is lost or trimmed. |
| JsSplit.JoinSplit | gulpfile.js:59 | For any non-empty list of `'\n'`-free lines, splitting their join gives exactly that list. This is the other direction of the round trip. |
| JsSplit.SplitCommaIsLiteralSplit | gulpfile.js:60 | Splitting on `/, ?/` equals splitting on `','` after removing the single space that follows each comma. Only that one space belongs to the separator. |
| JsSplit.SplitFromCommaJoin | gulpfile.js:60 | Joining the `/, ?/` pieces with bare commas gives the text with only the space right after each comma removed. |
| Readings.FirstField | gulpfile.js:60 | The first piece of a line runs up to its first comma. There is a second piece exactly when the line contains a comma. |
| Readings.SecondField | gulpfile.js:60 | The second piece starts after the first comma and one optional space, and runs to the next comma or to the end of the line. It contains no comma. |
| Readings.ParseLine | gulpfile.js:59-62 | The city is the comma-free prefix of the line that ends at the first comma or at the end. `temp` is absent exactly when the line has no comma, and the city is then the whole line. Otherwise `temp` is the field after the comma and at most one space, up to the next comma. |
| Readings.ParseLineRoundTrip | gulpfile.js:59-62 | Writing `city, temp` (or `city,temp` when `temp` does not start with a space), optionally followed by more comma-separated text, and parsing the line gives `city` and `temp` back. |
| Readings.SeparatorTakesOneSpace | gulpfile.js:60 | `"a,  b"` parses to temp `" b"`; `"a,b"` and `"a, b"` both parse to temp `"b"`. |
| Readings.NoTrimmingNoThirdField | gulpfile.js:60-61 | A trailing `'\r'` stays in temp, a third field is dropped, and spaces around the city are kept. |
| Readings.Parse | gulpfile.js:58-66 | The document holds exactly one entry per `'\n'` in the text, plus one. |
| Readings.ParseFromLines | gulpfile.js:59-62 | For any way of writing the text as `'\n'`-free lines joined by `'\n'`, entry `k` is the record of line `k`. Nothing is dropped, added or reordered. |
| Readings.ParseAppendsLine | gulpfile.js:59-62 | Appending `'\n'` and a line to the file appends exactly that line's record to the entries. |
| Readings.TrailingNewline | gulpfile.js:59-62 | A trailing newline adds one final entry with an empty city and an undefined temp. |
| Readings.EmptyFile | gulpfile.js:59-62 | An empty file gives one entry with an empty city and an undefined temp. |
| Readings.SingleLine | gulpfile.js:59-62 | A file with no newline gives a single entry, the record of the whole text. |
| Readings.TwoReadingsWithTrailingNewline | gulpfile.js:58-66 | Two readings written `city, temp`, each followed by a newline, give three entries: the two readings and an empty last entry. |
| Readings.SampleFile | gulpfile.js:58-66 | `"NYC, 72\nLA, 85\n"` gives NYC/72, LA/85 and a third, empty entry. |
| Bundler.ServeArgs | gulpfile.js:94-98 | The serve argument vector reads back as script, mode `serve`, entry `./app/index.html`, the config path, the scanner's port value and `--open`. |
| Bundler.BuildArgs | gulpfile.js:108-109 | The build argument vector reads back as script, mode `build`, the same entry and the config path, with no port and no `--open`. |
| Bundler.BuildArgsExact | gulpfile.js:108-109 | The build vector is exactly `[cli, "build", "./app/index.html", "--config", config]`: it is the only five-token vector that reads back as that command. Together with `ServeExtendsBuild`, this pins the serve vector token for token. |
| Bundler.Serve | gulpfile.js:88-103 | A warning `"  Port 9000 is busy."` is logged exactly when the port value is not 9000, including an undefined port. `node` is spawned in every case with exactly the serve vector `ServeArgs(cli, config, port)`, which reads back as the serve command. The task completes with the scanner's error. |
| Bundler.Build | gulpfile.js:105-113 | `node` is spawned with exactly the five-token build vector `BuildArgs(cli, config)`. It reads back without a port and without `--open`, and by `BuildArgsExact` it is the literal `[cli, "build", "./app/index.html", "--config", config]`. |
| Bundler.ServeExtendsBuild | gulpfile.js:94-109 | The serve vector is the build vector with mode `serve` and `--port <port> --open` appended. |
| Bundler.OnlyServeCarriesPort | gulpfile.js:94-108 | The port value appears once in the serve vector, at position 6, and never in the build vector. |
| Bundler.BusyPreferredPort | gulpfile.js:89-94 | When the scanner answers port 9003, serve logs the busy warning and passes `--port 9003`. |
| Bundler.FailedScanStillSpawns | gulpfile.js:89-101 | If the scanner reports an error and passes no port (`undefined`), serve still spawns `node`, logs the warning and completes with the error. |
| Bundler.FailedScanAtPreferredPort | gulpfile.js:89-101 | If the scanner reports an error but passes port 9000, serve spawns `node` with `--port 9000`, logs no warning and completes with the error. |
| TaskGraph.Precedes | gulpfile.js:122-146 | `a` must finish before `b` starts. In a `gulp.series`, every task of an earlier step precedes every task of a later step. A `gulp.parallel` adds no order across its branches. Orders inside a child are kept. |
| TaskGraph.DefaultGraph | gulpfile.js:135-146 | The `default` export: `clean`, then `dataProcessing`, `timeFile` and `copyFiles` in parallel, then `parcelBuild`. Its order is `DefaultGraphOrder`. |
| TaskGraph.ServeGraph | gulpfile.js:122-132 | The `serve` export: `dataProcessing`, `timeFile` and `copyFiles` in parallel, then `watcher` and `parcelServe` in parallel. Its order is `ServeGraphOrder`. |
| TaskGraph.Exported | gulpfile.js:119-146 | The exports by name: `clean` is the single task `clean`, `serve` is `ServeGraph` and `default` is `DefaultGraph`. Any other name is not exported. See `CleanOnlyOutsideServe`. |
| TaskGraph.PrecedesWithinTasks | gulpfile.js:122-146 | Only tasks of a graph take part in its ordering. |
| TaskGraph.PrecedesAsymmetric | gulpfile.js:122-146 | In a graph without repeated tasks, no two tasks are ordered both ways, and no task precedes itself. |
| TaskGraph.PrecedesTransitive | gulpfile.js:122-146 | In a graph without repeated tasks, the must-precede relation is transitive. |
| TaskGraph.ParallelOrdersNothingAcross | gulpfile.js:123-131 | A parallel group orders no two tasks from different branches. |
| TaskGraph.OrderedOnlyWithinChild | gulpfile.js:122-146 | Two tasks of the same child are ordered by the graph only if that child orders them. |
| TaskGraph.DefaultGraphOrder | gulpfile.js:135-146 | `default` runs each task once. `clean` precedes `dataProcessing`, `timeFile` and `copyFiles`, which all precede `parcelBuild`. The three preparation tasks are unordered among themselves. Nothing precedes `clean`, and `parcelBuild` precedes nothing. |
| TaskGraph.ServeGraphOrder | gulpfile.js:122-132 | `serve` runs each task once and never runs `clean`. All three preparation tasks precede both `watcher` and `parcelServe`. Neither group is ordered internally. |
| TaskGraph.PrepGroupFacts | gulpfile.js:123-130 | The shared preparation group holds `dataProcessing`, `timeFile` and `copyFiles`, once each, and orders none of them. |
| TaskGraph.CleanOnlyOutsideServe | gulpfile.js:119-146 | Of the three exports, `clean` runs in `clean` and `default` but not in `serve`. The `clean` export is the single task `clean`. |
| WatchTable.Bindings | gulpfile.js:32-37 | The two registrations in order: `data/*` re-runs `dataProcessing` and `static/**/*` re-runs `copyFiles`. |
| WatchTable.BoundTask | gulpfile.js:30-38 | The lookup finds no task exactly when no registration has the pattern. Otherwise it returns the task of the first registration for that pattern. |
| WatchTable.PatternsRegisteredOnce | gulpfile.js:32-37 | Each pattern is registered once: `data/*` re-runs `dataProcessing` and `static/**/*` re-runs `copyFiles`. |
| WatchTable.WatchedTasksArePrepTasks | gulpfile.js:30-38 | Every watched task is a preparation task that `serve` runs before the watcher starts. |
| WatchTable.WatcherOnlyInServe | gulpfile.js:122-146 | The watches are registered by `serve` only, never by `default`. |

## Left out

- File-system effects are left out: reading `data/readings.csv`, creating `dist/api/`, and writing the JSON. A missing file, which makes the task fail, is not modelled. The document is modelled abstractly, so an undefined `temp` is `None` rather than an omitted JSON key, and JSON escaping is not modelled.
- `timeFile`, `clean` and `copyFiles` appear only as task-graph leaves. Their work consists of the clock, file deletion and file copying.
- The port scanner, `spawn` and the child processes are left out. The scanner's `(error, port)` arguments are inputs. The port scan itself, in particular "first free port in 9000–9999", is not modelled. `PortValue` represents only a number or `undefined`, not any other value the scanner library might pass.
- The build child's exit status is left out. `parcelBuild` completes with no error whatever that status is (`gulpfile.js:112`), so there is nothing to model beyond that constant.
- The `parcelCli` and `parcelConfig` absolute paths are parameters (`cli`, `config`). They are built from `__dirname`, which is not modelled.
- Gulp's runtime semantics are not modelled: task completion, error propagation, and the scheduling of parallel tasks. Only the static must-precede order of the exported trees is modelled.
- Glob matching in `gulp.watch` is left out. The table maps pattern strings to tasks and does not decide which files match.
- The environment set-up at gulpfile.js:14-20 is left out: `NODE_ENV`, `APP_VERSION` from `package.json`, and `APP_BUILD_TIME` from the clock. These are I/O and the clock.
- The front-end code under `app/` and `posthtml.config.js` are not part of this model. They are not part of the task file.
- JsSplit.SplitByMatcher: the ECMAScript algorithm's `limit` argument and its empty-match branch are not modelled. The gulpfile passes no limit, and neither separator can match the empty string.
