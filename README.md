# Launcher repair, version resolution and installer UI — a Dafny model

This project models the installation-repair and version-resolution core of a
desktop game launcher's main process (`src/main.js`), together with the
language, translation and step-navigation logic of its installer's web UI
(`installer/ui/script.js`).

## What the model covers

- **Path resolution** (module `GamePaths`).
  - A requested channel is normalised to `latest` or `beta`.
  - A channel's game directory is `<root>/install/release/package/game/<channel>`.
  - The repair target prefers the requested channel. It falls back to the
    sibling channel's directory when only that one exists.
  - A quarantined installation is named `<root>/cache/pending_delete/<channel>_<timestamp>`.
- **Paths and the disk** (module `FileSystem`).
  - A path is its sequence of segments.
  - The disk is the set of paths that exist. Its invariant `IsTree` says every
    ancestor of an existing path exists.
  - `fs.remove`, `fs.ensureDir` and `fs.move` are functions on that set.
    Removal and directory creation are proved to keep the invariant. The move
    keeps it when the destination's parent exists, which the quarantine
    ensures by creating that parent first.
- **Version extraction** (module `VersionText`).
  - The two regular expressions are written out as explicit matchers:
    `YYYY.MM.DD` and `DD.MM.YYYY`, each with an optional `-tag` of
    letters and digits.
  - `String.prototype.match` is modelled by leftmost, then longest, search.
  - The year-first pattern is tried before the day-first one.
- **Version reading** (module `VersionReader`).
  - The game directory's twelve candidate files are tried in order, and the
    first one that yields a version wins.
  - Otherwise the launcher's `config.json` is read: `hytale[channel].version`,
    then `hytale.latest.version`, then `hytale.version`.
  - The `get-hytale-version` request combines the two.
- **Retrying removal** (module `Remover`).
  - `fs.remove` is attempted up to four times. A one-second wait comes between
    attempts, and only on the lock codes `EBUSY`, `EPERM`, `ENOTEMPTY` and
    `EACCES`.
- **Repair** (module `Repair`).
  - The `repair-game` handler and the quarantine move into
    `cache/pending_delete`.
  - Exactly one `repair-complete` reply is sent.
  - When that reply reports success, nothing under the repaired directory
    remains.
- **GPU classification** (module `GpuLines`).
  - The output of the video-controller query is split into lines, trimmed the
    way JavaScript's `trim` does, and filtered.
  - The first adapter whose name mentions `Intel`/`Display` is the integrated
    one. The first that mentions `NVIDIA`/`AMD`/`Radeon RX`, ignoring ASCII
    case, is the dedicated one.
  - Each role falls back on its own. Integrated falls back to the first
    adapter when at least one is listed. Dedicated falls back to the last
    adapter when at least two are listed.
- **Installer UI** (module `InstallerUi`).
  - The eight-language translation table.
  - `detectLanguage`, the translation lookup `t` with its `{i}` placeholders,
    and `String.prototype.replace` with its `$` patterns.
  - `initLocales`, and the wizard's `goToStep`.
  - The page state (current language, active steps and screens) is the class
    `InstallerPage`.

Filesystem calls, `Date.now()` and the outcome of every system call are
parameters. Each filesystem call's outcome (`Ok` or `Fail(error)`) is given
in advance.

### Behaviours worth knowing

- **Local configuration lookup.** A `config.json` that exists but cannot be
  read or parsed is skipped, and the next location is tried
  (`src/main.js:162-164`). The first file that exists and parses decides
  (`VersionReader.LocalConfigVersion`).
- **Empty config version.** An empty-string version in that file gives no
  version (`version || null`, `src/main.js:160`). The lookup does not fall
  through to the next key.
- **Read errors in the game directory.** A read error on one candidate file
  is swallowed, and the next candidate is tried (`src/main.js:127-135`).
- **Quarantine name.** The quarantine entry is named after the requested
  (normalised) channel, not the channel of the directory actually moved
  (`src/main.js:279`). `Repair.RepairGame` does the same.
- **Missing language tag.** When the browser reports no language at all,
  `detectLanguage` throws (`installer/ui/script.js:163-164`). The error leaves
  the top-level `initLocales()` call (`installer/ui/script.js:227`), so the
  script stops and no button handler is attached.
  `InstallerUi.InstallerPage.InitLocales` reports this as `thrown` and marks
  the page `aborted`.

## Model

| member | source | states |
|---|---|---|
| GamePaths.NormalizeGameChannel | src/main.js:52-54 | The result is always a known channel (`src/main.js:17-21`); it is the argument exactly when that is the string `latest` or `beta`, and `latest` otherwise (non-strings and `undefined` included). |
| GamePaths.NormalizeIdempotent | src/main.js:52-54 | Normalising a normalised channel gives it back. |
| GamePaths.BuildGameDir | src/main.js:56-58 | The directory is the root, then `install/release/package/game`, then the channel, as separate segments. |
| GamePaths.BuildGameDirInjective | src/main.js:56-58 | Different roots or channels never share a game directory. |
| GamePaths.SiblingChannel | src/main.js:65 | The sibling is a known channel different from the preferred one. |
| GamePaths.SiblingInvolutive | src/main.js:65 | On known channels, the sibling of the sibling is the channel itself. |
| GamePaths.ResolveRepairTarget | src/main.js:60-73 | The target's directory is its channel's; the preferred channel wins whenever its directory exists; the sibling is chosen only when the preferred directory is absent and the sibling's exists; the target exists exactly when either does. |
| GamePaths.FirstExistingChannel | src/main.js:60-73 | Reference rule: the first channel of a preference list whose directory exists, else the default, which is always in the list or the default. |
| GamePaths.ResolveIsPreferenceOrder | src/main.js:60-73 | The two-channel resolution equals the preference-list rule over [preferred, sibling] with the preferred channel as default. |
| GamePaths.PendingBase | src/main.js:116 | The quarantine base lies two segments below the root; the body is `root + ["cache", "pending_delete"]`. |
| GamePaths.PendingTarget | src/main.js:118 | The quarantine target is one segment below the quarantine base. |
| GamePaths.PendingTargetInjective | src/main.js:118 | Two quarantine names of one channel coincide only for the same timestamp. |
| GamePaths.PendingOutsideGameDir | src/main.js:56-58 | Nothing under the quarantine base is under, or contains, any game directory of the same root. |
| Decimal.NatToDecimal | src/main.js:118 | The decimal rendering of the timestamp is non-empty and all digits, with no leading zero: it starts with `0` exactly when the number is 0, and is then `0` itself. |
| Decimal.DecimalRoundTrip | src/main.js:118 | Reading the rendered digits back gives the number. |
| Decimal.NatToDecimalInjective | src/main.js:118 | Different timestamps render differently. |
| Values.Member | src/main.js:151-157 | Property access yields a value exactly when the object is an object with that key, and then that key's value. |
| Values.AsString | src/main.js:152-156 | A value passes the `typeof … === 'string'` test exactly when it is a string, and its text is returned. |
| Values.Truthy | src/main.js:151-160 | A value is falsy exactly when it is `undefined`, `null`, `false`, `0` or the empty string. |
| Values.Or | src/main.js:216 | `a \|\| b` is `a` when `a` is truthy and `b` otherwise. |
| Substrings.IndexOf | installer/ui/script.js:177 | The first occurrence at or after `from`, and absent exactly when there is none. |
| VersionText.AlnumRun | src/main.js:39-40 | The tag run is the maximal run of ASCII letters and digits. |
| VersionText.TagLength | src/main.js:39-40 | The optional `(-[A-Za-z0-9]+)?` group: present exactly when a `-` is followed by a letter or digit, and then the `-` plus the maximal run of letters and digits. |
| VersionText.MatchLength | src/main.js:39-40 | A pattern matches at a position with exactly the returned length, and no longer match exists there; absent exactly when no match starts there. |
| VersionText.LongestShaped | src/main.js:39-40 | Base plus the maximal tag is the longest match at its start. |
| VersionText.NoBaseNoShape | src/main.js:39-40 | Without the date base at a position, nothing matches there. |
| VersionText.Search | src/main.js:78 | The leftmost match at or after `from`, all earlier positions failing; absent exactly when no position matches. |
| VersionText.ExtractVersionFromText | src/main.js:75-82 | Empty text gives nothing; a result is a substring shaped like a version; it is the leftmost-longest year-first match when one exists, else the leftmost-longest day-first match; nothing exactly when the text is empty or neither pattern matches. |
| VersionText.NoDigitsNoVersion | src/main.js:75-82 | Text without digits has no version. |
| VersionText.ExtractVersionNoMatch | src/main.js:75-82 | Example: `no version here` gives nothing. |
| VersionText.ExtractVersionDayFirst | src/main.js:40 | Example: `11.03.2024` is found by the day-first pattern. |
| VersionText.ExtractVersionWithTag | src/main.js:39 | Example: the tag `-abc123` is kept with the date and stops at the space. |
| VersionReader.CandidateVersion | src/main.js:127-133 | A missing or unreadable candidate yields nothing; a readable one yields the version extracted from its text, which occurs in that text. |
| VersionReader.FirstFound | src/main.js:126-136 | The first present result, every earlier one absent; absent exactly when all are. |
| VersionReader.LaterResultsIgnored | src/main.js:132 | Results after the first present one do not affect the answer. |
| VersionReader.FirstVersion | src/main.js:125-138 | The version of the first candidate that exists, reads and contains a version, earlier ones yielding nothing; absent exactly when no candidate yields one. |
| VersionReader.LaterCandidatesIgnored | src/main.js:132 | Two filesystems that agree on the candidates up to the first one yielding a version give the same result. |
| VersionReader.ReadVersionFromGameDir | src/main.js:125-138 | The loop returns `FirstVersion` over the twelve candidates of `src/main.js:24-37`. |
| VersionReader.NonEmpty | src/main.js:160 | `version \|\| null`: kept exactly when it is a non-empty string. |
| VersionReader.ConfigVersion | src/main.js:150-160 | The channel entry's string version when there is one, else `latest`'s, else `hytale.version`; an empty string gives no version and does not fall through. |
| VersionReader.BetaFallsBackToLatest | src/main.js:152-155 | Without a string `beta` version, `beta` reads what `latest` reads. |
| VersionReader.LocalConfigVersion | src/main.js:146-166 | The first configuration file that exists and parses decides, even when it gives no version; nothing when none parses. |
| VersionReader.ConfigPaths | src/main.js:141-144 | Two locations, each a `config.json` directly inside the application path and the resources path respectively; they coincide only when those paths do. |
| VersionReader.ReadVersionFromLocalConfig | src/main.js:140-167 | The loop returns `LocalConfigVersion` over the two locations, with every channel but `beta` read as `latest`. |
| VersionReader.GetHytaleVersion | src/main.js:213-223 | The normalised channel (argument, else setting); the game directory's version when it has one, the configuration's otherwise. |
| FileSystem.RemoveTree | src/main.js:92 | After `fs.remove`, exactly the paths outside the removed directory remain. |
| FileSystem.EnsureDir | src/main.js:117 | After `fs.ensureDir`, the directory exists, nothing was lost, and only it and its ancestors were added. |
| FileSystem.MoveTree | src/main.js:119 | After `fs.move` with overwrite: paths outside both trees stay, every path of the source tree is at its relocated place, nothing remains under the source, and everything under the destination came from the source. |
| FileSystem.RemoveTreeKeepsTree | src/main.js:92 | Removal keeps every ancestor of an existing path present. |
| FileSystem.EnsureDirKeepsTree | src/main.js:117 | Creating a directory keeps every ancestor of an existing path present. |
| FileSystem.MoveTreeKeepsTree | src/main.js:119 | Moving a tree beside an existing parent keeps every ancestor of an existing path present. |
| FileSystem.AbsentDirHasNothingUnder | src/main.js:272 | When `pathExists` is false for a directory, nothing under it exists. |
| Remover.IsRetryable | src/main.js:47 | An error is retryable exactly when its code is `EBUSY`, `EPERM`, `ENOTEMPTY` or `EACCES`; an error without a code is not. |
| Remover.RemoveDirWithRetry | src/main.js:88-105 | Between 1 and 4 attempts, one wait fewer than attempts; every attempt before the last failed with a lock code; success exactly when the last attempt succeeded, with that attempt count and the tree removed; otherwise the last error is thrown, the disk unchanged, and a lock code is thrown only after all 4 attempts. |
| Remover.RetryPermanentError | src/main.js:88-105 | Scenario: a non-lock error is thrown after one attempt, with no wait. |
| Remover.RetryThirdTimeSucceeds | src/main.js:88-105 | Scenario: two busy failures then success give removal on attempt 3, after two waits. |
| Remover.RetryStuckLock | src/main.js:88-105 | Scenario: a lock that never clears throws the busy error after 4 attempts and 3 waits, the disk unchanged. |
| Repair.MoveToPendingDelete | src/main.js:115-123 | Succeeds exactly when both calls do; keeps the tree invariant; a failed `ensureDir` changes nothing; a failed move leaves only the created base; on success the base exists, nothing is left under the game directory, each of its paths is relocated under `<channel>_<now>`, and all other paths stay; nothing else appears: every path afterwards is an untouched old path, an ancestor of the base, or a relocated game path, so a stale entry already at the quarantine name is replaced. |
| Repair.Reply | src/main.js:285-289 | The reply is a success exactly when nothing was thrown, and otherwise carries the error's message. |
| Repair.RepairGame | src/main.js:263-290 | Exactly one reply; the tree invariant is kept; an absent target gives success with nothing touched; otherwise processes are stopped, 500 ms plus 1000 ms per retry are waited, and the last removal attempt decides: removed, reported verbatim for a non-lock error, or quarantined with the quarantine's outcome as the reply; a success reply means nothing under the target remains. |
| Repair.RepairFallsBackToLatest | src/main.js:263-290 | Scenario: a `beta` request with only `latest` installed removes the `latest` directory on attempt 3, after 2500 ms of waits, and reports success. |
| Repair.RepairQuarantinesLockedDir | src/main.js:263-290 | Scenario: a directory locked through all 4 attempts is quarantined, the repair reports success, the game directory is gone and the quarantine base exists. |
| Repair.RepairReportsPermanentError | src/main.js:263-290 | Scenario: a non-lock error is reported with its message after one attempt, and the disk is unchanged. |
| GpuLines.Split | src/main.js:181 | At least one piece, none containing a newline. |
| GpuLines.JoinSplit | src/main.js:181 | Joining the pieces with newlines gives the output back. |
| GpuLines.SplitJoin | src/main.js:181 | Splitting newline-free pieces joined with newlines gives the pieces back. |
| GpuLines.LeadingTrimmable | src/main.js:181 | The longest prefix of whitespace and line terminators. |
| GpuLines.TrailingTrimmable | src/main.js:181 | The longest suffix of whitespace and line terminators. |
| GpuLines.Trim | src/main.js:181 | The result is a slice of the line that neither starts nor ends with whitespace, and is the line itself when it has none. |
| GpuLines.TrimIdempotent | src/main.js:181 | Trimming a trimmed line changes nothing. |
| GpuLines.TrimDropsCarriageReturn | src/main.js:181 | A Windows line ending is removed by the trim. |
| GpuLines.KeepNames | src/main.js:181 | A line is kept exactly when it is non-empty and not the `Name` header; nothing else changes when all lines qualify. |
| GpuLines.KeepNamesSingle | src/main.js:181 | A single line is kept exactly when it is neither empty nor `Name`. |
| GpuLines.KeepNamesAppend | src/main.js:181 | The filter works line by line: filtering two blocks gives the filtered first block followed by the filtered second, so order and repetitions are kept. |
| GpuLines.TrimAll | src/main.js:181 | Each piece is trimmed, in place. |
| GpuLines.Names | src/main.js:181 | Every listed adapter is a trimmed, non-empty, non-header name; a name is listed exactly when it is a trimmed piece of the output that is neither empty nor `Name`; and the list is the filter of the trimmed pieces in output order. |
| GpuLines.KeepNamesDropsBlank | src/main.js:181 | The empty piece after the final newline adds nothing. |
| GpuLines.CrlfOutputNames | src/main.js:181 | For CRLF-terminated output, the adapter list is the names without the header. |
| GpuLines.ClassifyTwoAdapters | src/main.js:181 | Example: a header plus two CRLF lines gives those two names. |
| GpuLines.Upper | src/main.js:185-186 | ASCII case folding for the `i` flag: lower-case letters map to upper-case, everything else is unchanged. |
| GpuLines.ContainsFrom | src/main.js:185-186 | True exactly when the keyword occurs, ignoring ASCII case, at or after the position. |
| GpuLines.FindFirst | src/main.js:185-186 | The first line mentioning a keyword, every earlier line mentioning none; absent exactly when no line does. |
| GpuLines.FirstMentioning | src/main.js:185-186 | `Array.prototype.find`: present exactly when some line mentions a keyword, and then the first such line. |
| GpuLines.IntelUhdIsIntegrated | src/main.js:185-186 | `Intel UHD` matches the integrated keywords and none of the dedicated ones. |
| GpuLines.NvidiaRtxIsDedicated | src/main.js:186 | `NVIDIA RTX` matches the dedicated keywords. |
| GpuLines.PickRole | src/main.js:185-190 | The first line mentioning a keyword, else the fallback. |
| GpuLines.ClassifyGpus | src/main.js:181-190 | All adapters are the filtered names; integrated is the first mentioning `Intel`/`Display`, else the first adapter; dedicated is the first mentioning `NVIDIA`/`AMD`/`Radeon RX`, else the last adapter when there are at least two. |
| GpuLines.ClassifiedNamesAreListed | src/main.js:183-190 | Integrated is set exactly when some adapter is listed; dedicated exactly when two are listed or one names a dedicated vendor; both are adapters from the list. |
| GpuLines.ClassifyTwoAdapterRoles | src/main.js:181-190 | Example: `Intel UHD` is integrated and `NVIDIA RTX` dedicated. |
| InstallerUi.SpanishComplete | installer/ui/script.js:6-24 | The Spanish table has the English keys, each with a non-empty text. |
| InstallerUi.EnglishComplete | installer/ui/script.js:25-43 | The English table's texts are all non-empty. |
| InstallerUi.GermanComplete | installer/ui/script.js:44-62 | The German table has the English keys, each with a non-empty text. |
| InstallerUi.FrenchComplete | installer/ui/script.js:63-81 | The French table has the English keys, each with a non-empty text. |
| InstallerUi.PortugueseComplete | installer/ui/script.js:82-100 | The Portuguese table has the English keys, each with a non-empty text. |
| InstallerUi.RussianComplete | installer/ui/script.js:101-119 | The Russian table has the English keys, each with a non-empty text. |
| InstallerUi.ChineseComplete | installer/ui/script.js:120-138 | The Chinese table has the English keys, each with a non-empty text. |
| InstallerUi.JapaneseComplete | installer/ui/script.js:139-157 | The Japanese table has the English keys, each with a non-empty text. |
| InstallerUi.Translations | installer/ui/script.js:5-158 | The table has a dictionary exactly for `es`, `en`, `de`, `fr`, `pt`, `ru`, `zh` and `ja`. |
| InstallerUi.DictionaryComplete | installer/ui/script.js:5-158 | Every supported language's table is complete. |
| InstallerUi.PrimarySubtag | installer/ui/script.js:164 | The prefix of the tag before its first `-` (the whole tag when there is none). |
| InstallerUi.DetectLanguage | installer/ui/script.js:162-170 | Fails (the `TypeError` on `undefined`) exactly when both browser values are missing; otherwise the primary subtag of the first non-empty one when the table has it, else `en`. |
| InstallerUi.DetectLanguageExamples | installer/ui/script.js:164 | Examples: `es-MX` gives `es`, `en-US` gives `en`, `it-IT` gives `en`, a missing `language` falls back to `userLanguage`. |
| InstallerUi.Dictionary | installer/ui/script.js:173 | The current language's table, or the English one; always complete. |
| InstallerUi.Entry | installer/ui/script.js:174 | `dict[key]` is usable exactly when the key is present with a non-empty text. |
| InstallerUi.Lookup | installer/ui/script.js:172-174 | A known key gives the language's own text; an unknown key gives the key; a non-empty key never gives an empty text. |
| InstallerUi.Expand | installer/ui/script.js:177 | A replacement with no `$` is inserted unchanged. |
| InstallerUi.ExpandExamples | installer/ui/script.js:177 | `$$`, `` $` ``, `$&` and `$'` expand as `String.prototype.replace` specifies; `$1` stays literal. |
| InstallerUi.ReplaceFirst | installer/ui/script.js:177 | Only the first occurrence is replaced, by the expanded replacement, with the text before and after kept; with no occurrence the text is unchanged. |
| InstallerUi.Placeholder | installer/ui/script.js:177 | The placeholder opens with `{`, closes with `}` and has at least one character between; the body is `"{" + NatToDecimal(i) + "}"`. |
| InstallerUi.ApplyArgs | installer/ui/script.js:176-178 | With no argument left, or no `{` in the text, the text is unchanged. |
| InstallerUi.ApplyArgsWithoutPlaceholders | installer/ui/script.js:176-178 | When none of the remaining arguments' placeholders occurs in the text, the text is unchanged. |
| InstallerUi.NoBraceNoPlaceholder | installer/ui/script.js:177 | A text without `{` contains no placeholder. |
| InstallerUi.FillsFirstPlaceholder | installer/ui/script.js:176-178 | One argument fills the first `{0}` with its text. |
| InstallerUi.SpanishPercentText | installer/ui/script.js:20 | The Spanish download-progress text is `Descargando... {0}%`. |
| InstallerUi.DownloadPercentInSpanish | installer/ui/script.js:172-178 | Example: `t('status_downloading_percent', '42')` in Spanish is `Descargando... 42%`. |
| InstallerUi.MoveActive | installer/ui/script.js:232-235 | The `active` class moves from one element to another, every other element unchanged. |
| InstallerUi.StepsAfter | installer/ui/script.js:230-242 | Step 2 moves the active step from welcome to install, step 3 from install to finish, any other index changes nothing. |
| InstallerUi.ScreensAfter | installer/ui/script.js:230-242 | Step 2 moves the active screen from welcome to progress, step 3 from progress to finish, any other index changes nothing. |
| InstallerUi.WizardAdvances | installer/ui/script.js:230-242 | From the welcome page, steps 2 and 3 reach the install page and then the finish page. |
| InstallerUi.GoToStepIdempotent | installer/ui/script.js:230-242 | Going to the same step twice is the same as once. |
| InstallerUi.Labels | installer/ui/script.js:201-207 | Only elements present on the page receive a label. |
| InstallerUi.LabelsDomain | installer/ui/script.js:201-207 | An element is labelled exactly when it is present and listed in the id-to-key table. |
| InstallerUi.LabelsValues | installer/ui/script.js:201-207 | Each present listed element's label is the lookup of its key. |
| InstallerUi.LabelIdsDistinct | installer/ui/script.js:188-198 | The id-to-key table lists each element id once. |
| InstallerUi.InstallerPage.constructor | installer/ui/script.js:160 | The page starts in English with the given active steps and screens, not aborted. |
| InstallerUi.InstallerPage.T | installer/ui/script.js:172-181 | The loop returns the current language's lookup with the arguments filled into `{0}`, `{1}`, … in turn. |
| InstallerUi.InstallerPage.InitLocales | installer/ui/script.js:183-208 | It throws exactly when both browser language values are missing; then no label is written, the language stays, and the page is marked aborted, because the error escapes the top-level call at `installer/ui/script.js:227` and the rest of the script never runs. Otherwise the detected language becomes current and each present listed element gets that language's text. The wizard state is untouched either way. |
| InstallerUi.InstallerPage.GoToStep | installer/ui/script.js:230-242 | The active steps and screens become `StepsAfter` and `ScreensAfter` of the old ones; the language and the aborted mark are untouched. |

## Left out

- Electron windows, application events, the other IPC handlers, the settings store and logging are outside the repair and version core, and are not modelled.
- `stopGameProcesses` (`taskkill` of the game executable) is an external process call. The model records only that it ran before the removal; its outcome is ignored in the code as well.
- `wait` and `setTimeout` are not performed. The model counts the milliseconds waited instead.
- `Date.now()` is a parameter.
- Repair.MoveToPendingDelete: the background `removeDirWithRetry` of the quarantined copy is not awaited and its failure is only logged, so the model leaves it out. The disk after a successful move still holds the quarantined copy.
- FileSystem.RemoveTree: a failed `fs.remove` is modelled as changing nothing. A partial deletion before the error is not modelled.
- FileSystem.MoveTreeKeepsTree: requires the destination's parent to exist. `fs-extra`'s `move` creates a missing parent and `MoveTree` does not; the quarantine move meets this because `ensureDir` creates the parent first (`src/main.js:117`).
- FileSystem.MoveTree: requires that neither tree contains the other. The repair always meets this, because the quarantine area lies outside every game directory (`GamePaths.PendingOutsideGameDir`); `fs.move`'s own error for moving a directory into itself is not modelled.
- Repair.RepairGame: requires the disk to be a tree (every ancestor of an existing path exists), which every real filesystem is.
- `path.join` normalisation (`..`, `.`, duplicate separators) is not modelled. Paths are sequences of segments, and the root is taken as already normalised.
- The GPU query itself (`exec` of `wmic`), its error path, the non-Windows path, and the cache and shared promise around it are I/O and concurrency. Only the classification of its output at `src/main.js:181-190` is modelled.
- GpuLines.Upper: folds ASCII letters only. JavaScript's case-insensitive matching also folds other letters, but those cannot occur in the ASCII keywords `Intel`, `Display`, `NVIDIA`, `AMD` and `Radeon RX`.
- Reading files and parsing JSON are not modelled. Files are maps from paths to their text or parsed value, and `None` marks a file that cannot be read or parsed.
- JSON numbers are `real`, and only their truthiness matters here.
- Keys inherited from `Object.prototype` (such as `toString`) are not modelled. This applies to the translation table and to parsed configuration objects.
- The preload bridge, the Tauri `invoke`/`listen` calls, the progress bar width, the close and launch buttons, and the DOM itself are outside the core. The page's elements are modelled as a set of present ids, plus the sets of active steps and screens.
- InstallerUi.InstallerPage.GoToStep: does not require the page to be running. After an aborted `initLocales` no button handler exists to call it (`installer/ui/script.js:245-276` never runs), and the model records only the `aborted` mark.
- InstallerUi.InstallerPage.T: arguments are strings. JavaScript's `String()` conversion of other argument types is not modelled.
