# Log anomalous-error grouper: a Dafny model

`log_parser/log_parser.py` scans a log file for error lines and groups them by
a normalised form. It then reports the most frequent forms. This project
models the two parts that carry the logic:

- **`normalize_log_line`** (lines 8-30). Seven fixed `re.sub` rewrites run in
  order:
  - three timestamp shapes become `<TIMESTAMP>`;
  - a UUID becomes `<UUID>`;
  - a word-bounded dotted quad becomes `<IP>`;
  - a source location `path.ext:NNN`, optionally in parentheses, becomes
    `<FILE_LOCATION>`;
  - every whitespace run becomes one space, and the ends are stripped.

  Each pattern is a hand-written matcher (`Patterns.MatchAt`). It gives the
  length of the match Python's `re` finds at a position: greedy quantifiers,
  alternatives in order, backtracking worked out by hand. One generic
  leftmost, non-overlapping scan (`Rewrite.ReplaceFrom`) performs each
  `re.sub`.
- **`find_anomalous_errors`** (lines 33-62), without the file I/O:
  - The keyword filter on the upper-cased line.
  - The `Counter` of normalised lines. This is a class (`ErrorPatternCounter`)
    that holds a count map and the keys in first-insertion order. Its `Add`
    method performs `counter[key] += 1`.
  - The reading loop (`CountErrors`, proved against `Tally`/`FirstSeen` of the
    error keys).
  - `Counter.most_common(top_n)`: a stable sort by descending count, then the
    first `top_n` entries (`Ranking.MostCommon`).
  - The "No error patterns found." case.

Modules:

| module | contents |
|---|---|
| `Text` | character classes and upper-casing |
| `Patterns` | the seven matchers |
| `Rewrite` | the `re.sub` scan and lemmas about it |
| `Locality` | matches do not cross a barrier character such as `<` or `>` |
| `Normalizer` | the normaliser and its output properties |
| `Ranking` | `most_common` |
| `Aggregator` | the filter, the counter and the driver |
| `Scenario` | a whole log worked through `find_anomalous_errors` |

Four modules hold concrete lines worked through the model:

- `Examples`: two lines that differ only in timestamp and address fall into
  one group.
- `Boundaries`: where the IPv4 and file-location patterns do or do not apply.
- `Quirks`: two behaviours of the code as written.
  - The syslog pattern starts inside a word.
  - Normalising is not idempotent.
- `Scenario`: a whole three-line log, run through the filter, the normaliser,
  the counter and `most_common(10)`. The two failed-connection lines make one
  pattern with count 2, and the `INFO` line is left out.

One might expect normalising to be idempotent, since no placeholder token
matches any of the patterns again. The code is not idempotent. A timestamp
written with two spaces is not a timestamp to line 15, but it becomes one after
line 29 collapses the spaces. The model follows the code: `Quirks.NotIdempotent`
proves that some line normalises differently the second time.

## Model

| member | source | states |
|---|---|---|
| Text.Upper | log_parser/log_parser.py:45 | `line.upper()` keeps the length and maps each ASCII lower-case letter to its capital; every other character is kept |
| Patterns.IsoTimestampAt | log_parser/log_parser.py:15 | a match of the ISO timestamp pattern lies inside the line, is non-empty and starts with a digit |
| Patterns.SlashTimestampAt | log_parser/log_parser.py:16 | a match of `dd/dd/dddd dd:dd:dd` lies inside the line and starts with a digit |
| Patterns.SyslogTimestampAt | log_parser/log_parser.py:17 | a match of the `\w{3}\s\w{3}\s\d{1,2}\s…` pattern lies inside the line and starts with a word character |
| Patterns.UuidAt | log_parser/log_parser.py:20 | a UUID match lies inside the line and starts with a hex digit |
| Patterns.Ipv4At | log_parser/log_parser.py:23 | an address match lies inside the line and starts with a digit |
| Patterns.FileLocationFits | log_parser/log_parser.py:26 | a file-location match lies inside the line and starts with `(` or a path character |
| Patterns.WhitespaceAt | log_parser/log_parser.py:29 | a `\s+` match is non-empty, lies inside the line and starts with whitespace |
| Patterns.WhitespaceAtSpec | log_parser/log_parser.py:29 | `\s+` matches exactly the whole whitespace run from the position, and only when that run is non-empty |
| Patterns.DottedGroupSpec | log_parser/log_parser.py:23 | one `\d{1,3}\.` ends after position `d` exactly when one to three digits run up to `d` and `d` holds the dot |
| Patterns.FinalGroupSpec | log_parser/log_parser.py:23 | the last `\d{1,3}\b` ends at `e` exactly when one to three digits run up to `e` and `\b` holds at `e` |
| Patterns.Ipv4AtSpec | log_parser/log_parser.py:23 | the address matcher gives length `n` exactly when `\b`, four one-to-three-digit groups joined by dots, and `\b` spell the `n` characters from the position; so the length is unique |
| Patterns.FileLocationComplete | log_parser/log_parser.py:26 | an optional `(`, path characters ending in `.ext` for a listed extension, `:`, the whole digit run and an optional `)` are matched in full |
| Patterns.FileLocationAtSpec | log_parser/log_parser.py:26 | the file-location matcher gives length `n` exactly when that shape, with the greedy choices of `re`, spells the `n` characters from the position |
| Patterns.MatchAt | log_parser/log_parser.py:15-29 | every match of every pattern is non-empty and inside the line; only `\s+` starts with whitespace |
| Patterns.MatchHoldsLandmark | log_parser/log_parser.py:15-26 | every match holds its pattern's fixed punctuation: timestamps a `:`, UUIDs a `-`, addresses a `.`, file locations a `.` and a `:` |
| Patterns.FileLocationLandmarks | log_parser/log_parser.py:26 | a file-location match holds the dot of its extension and the colon before the line number |
| Patterns.FileLocationMinLength | log_parser/log_parser.py:26 | a file location has at least five characters: one path character, the dot, a one-letter extension, the colon and a digit |
| Patterns.MatchMinLength | log_parser/log_parser.py:15-29 | a match is at least as long as the shortest text its pattern accepts: 19, 19, 18 and 36 for the timestamps and UUID, 7 for an address, 5 for a file location, 1 for whitespace |
| Patterns.NoRoomNoMatch | log_parser/log_parser.py:15-29 | no match starts where fewer characters remain than those shortest lengths |
| Patterns.NoLandmarkNoMatch | log_parser/log_parser.py:15-26 | a line without a pattern's fixed punctuation holds no match of it |
| Rewrite.NoMatchIsIdentity | log_parser/log_parser.py:15-29 | `re.sub` leaves a line without matches unchanged |
| Rewrite.ReplaceOnce | log_parser/log_parser.py:15-29 | a line with exactly one match becomes the text before it, the token, and the text after it |
| Rewrite.ReplaceTwice | log_parser/log_parser.py:15-29 | with exactly two matches, both and nothing else are replaced |
| Rewrite.RewritePrefix | log_parser/log_parser.py:15-29 | when a prefix of the line has the same matches alone as inside the line, the scan rewrites that prefix as if it stood alone |
| Rewrite.RewriteSuffix | log_parser/log_parser.py:15-29 | when a suffix has the same matches alone as inside the line, the scan from it rewrites it as if it stood alone |
| Rewrite.SplitAround | log_parser/log_parser.py:15-29 | when no match starts in a middle piece and the outer pieces match as if alone, `re.sub` rewrites the two outer pieces separately and keeps the middle |
| Locality.MatchAtRight | log_parser/log_parser.py:15-29 | what follows a barrier character does not change a match before it |
| Locality.MatchAtShift | log_parser/log_parser.py:15-29 | what precedes a barrier character does not change a match after it, including the `\b` look-behind |
| Locality.NoMatchInTokenName | log_parser/log_parser.py:15-29 | no pattern matches inside a name of capitals and `_`, such as `TIMESTAMP` |
| Normalizer.Normalize | log_parser/log_parser.py:8-30 | the result has no leading or trailing whitespace, and its only whitespace is single spaces |
| Normalizer.CollapseIsSingleSpaced | log_parser/log_parser.py:29 | after `re.sub(r'\s+', ' ', …)` the only whitespace is single spaces |
| Normalizer.StripKeepsSingleSpaced | log_parser/log_parser.py:29 | `strip()` keeps single spacing and leaves both ends non-blank |
| Normalizer.NormalizeEmptyIffBlank | log_parser/log_parser.py:8-30 | a line normalises to `""` exactly when it is empty or all whitespace |
| Normalizer.MaskPassKeepsBlank | log_parser/log_parser.py:15-26 | the masking rewrites leave an all-whitespace line unchanged |
| Normalizer.ReplaceKeepsSolid | log_parser/log_parser.py:15-26 | a rewrite whose token starts with a non-space keeps a non-blank line non-blank |
| Normalizer.CollapseKeepsSolid | log_parser/log_parser.py:29 | the whitespace collapse keeps a non-blank line non-blank |
| Normalizer.CollapseSingleSpaced | log_parser/log_parser.py:29 | the collapse leaves single-spaced text unchanged |
| Normalizer.StripTrimmed | log_parser/log_parser.py:29 | `strip()` leaves text with non-blank ends unchanged |
| Normalizer.OneMatchPass | log_parser/log_parser.py:15-26 | a pattern with one match in a line replaces exactly that match by its token |
| Normalizer.TwoMatchPass | log_parser/log_parser.py:15-26 | a pattern with two matches in a line replaces exactly those two |
| Normalizer.LeadingMatchPass | log_parser/log_parser.py:15-26 | a match at the start, with no landmark after it, is the only one replaced |
| Normalizer.TokensArePlaceholders | log_parser/log_parser.py:15-26 | `<TIMESTAMP>`, `<UUID>`, `<IP>` and `<FILE_LOCATION>` are `<`, a name of capitals and `_`, and `>` |
| Normalizer.NoMatchInPlaceholder | log_parser/log_parser.py:15-29 | no pattern has a match starting inside a placeholder token, whatever surrounds it |
| Normalizer.PlaceholderSurvives | log_parser/log_parser.py:15-29 | every rewrite keeps a placeholder token as it is and rewrites the text on each side as if it stood alone |
| Normalizer.MaskKeepsPlaceholder | log_parser/log_parser.py:15-26 | the six masking rewrites never alter a placeholder an earlier rewrite inserted: `Mask(a + t + b) == Mask(a) + t + Mask(b)` |
| Examples.TokensHoldNoLandmark | log_parser/log_parser.py:15-26 | neither `<TIMESTAMP>` nor `<IP>` holds a digit, `:`, `/`, `-` or `.` |
| Examples.MaskFailedLine | log_parser/log_parser.py:15-26 | for any ISO timestamp without fraction or zone and any four groups of one to three digits joined by dots, the failed-connection line masks to `<TIMESTAMP> ERROR Connection failed to <IP>` plus its newline |
| Examples.FailedLinesGroupTogether | log_parser/log_parser.py:15-29 | every such line, whatever its timestamp and address, normalises to `<TIMESTAMP> ERROR Connection failed to <IP>` |
| Examples.FirstFailedLine | log_parser/log_parser.py:15-29 | `2024-01-15T10:23:45 ERROR Connection failed to 192.168.1.5` plus a newline normalises to that group |
| Examples.SecondFailedLine | log_parser/log_parser.py:15-29 | the line with `2024-01-16T11:00:02` and `10.0.0.9` gives the identical string |
| Boundaries.NoAddressInsideNumber | log_parser/log_parser.py:23 | no address starts between two digits, where `\b` fails |
| Boundaries.NoAddressNearEnd | log_parser/log_parser.py:23 | no address starts where fewer than seven characters remain |
| Boundaries.OneDigitAddress | log_parser/log_parser.py:23 | four one-digit groups between non-word characters are a seven-character address |
| Boundaries.LongFirstGroupKept | log_parser/log_parser.py:23 | `1234.5.6.7` is left unchanged |
| Boundaries.LongLastGroupKept | log_parser/log_parser.py:23 | `1.2.3.4567` is left unchanged |
| Boundaries.EightGroupsTwoAddresses | log_parser/log_parser.py:23 | `1.2.3.4.5.6.7.8` becomes `<IP>.<IP>` |
| Boundaries.NoLocationWithoutExtension | log_parser/log_parser.py:26 | no file location starts at a character other than `(` when the path run from there does not end in a listed extension |
| Boundaries.ShortestLocation | log_parser/log_parser.py:26 | `x.c:1` is a file location of exactly the shortest length, five |
| Boundaries.KotlinLocationKept | log_parser/log_parser.py:26 | `x.kt:5` is left unchanged, since `kt` is not in the extension list |
| Boundaries.JavaFrameMasked | log_parser/log_parser.py:26 | `(Class.java:123)`, parentheses included, becomes `<FILE_LOCATION>` |
| Quirks.SyslogInsideWord | log_parser/log_parser.py:17 | `ERROR foo 12 10:00:00` normalises to `ER<TIMESTAMP>`, because the syslog pattern has no word boundary |
| Quirks.NormalizeTwice | log_parser/log_parser.py:15-29 | `2024-01-15  10:23:45 ERROR` (two spaces) normalises to `2024-01-15 10:23:45 ERROR`, and that normalises to `<TIMESTAMP> ERROR` |
| Quirks.NotIdempotent | log_parser/log_parser.py:15-29 | some line normalises to a different string the second time |
| Ranking.SortIsPermutation | log_parser/log_parser.py:60 | the sort behind `most_common` is a permutation of the counter's entries |
| Ranking.SortDescending | log_parser/log_parser.py:60 | the sorted entries have non-increasing counts |
| Ranking.SortIsStable | log_parser/log_parser.py:60 | entries with equal counts keep the counter's order |
| Ranking.MostCommon | log_parser/log_parser.py:60 | `most_common(n)` has `min(n, len)` entries, and none when `n <= 0` |
| Ranking.MostCommonIsPrefix | log_parser/log_parser.py:60 | `most_common(n)` is a prefix of the full sorted list |
| Ranking.MostCommonDescending | log_parser/log_parser.py:60 | `most_common(n)` lists counts from the largest down |
| Ranking.MostCommonFromItems | log_parser/log_parser.py:60 | every listed entry is an entry of the counter, and none is listed more often than it occurs there |
| Ranking.MostCommonKeepsEarliest | log_parser/log_parser.py:60 | among equal counts, the entries listed are the earliest-inserted ones, in insertion order |
| Ranking.MostCommonLeavesSmaller | log_parser/log_parser.py:60 | every entry left out counts no more than every entry listed |
| Ranking.MostCommonBeatsLeftOut | log_parser/log_parser.py:60 | an entry of the counter that `most_common(n)` leaves out counts no more than any entry it lists |
| Ranking.MostCommonDistinct | log_parser/log_parser.py:60 | when the counter's entries are for distinct keys, so are those `most_common(n)` lists |
| Ranking.MostCommonEmpty | log_parser/log_parser.py:60 | `most_common(n)` is empty exactly when `n <= 0` or the counter is empty |
| Aggregator.ErrorLineIgnoresCase | log_parser/log_parser.py:45 | a line qualifies exactly when its upper-cased form does, so the keyword test ignores letter case |
| Aggregator.FailureModeIsError | log_parser/log_parser.py:38-45 | `failuremode` qualifies, because `FAILURE` is a plain substring of its upper-cased form |
| Aggregator.ServiceStartedIsNoError | log_parser/log_parser.py:38-45 | `INFO Service started` does not qualify |
| Aggregator.TallyCounts | log_parser/log_parser.py:46-47 | the counter holds exactly the keys counted, each with the number of times it was counted, which is at least 1 |
| Aggregator.FirstSeenKeys | log_parser/log_parser.py:46-47 | the counter's key order lists each counted key once |
| Aggregator.FirstSeenInOrder | log_parser/log_parser.py:46-47 | the key order is the order of first appearance |
| Aggregator.ItemsCount | log_parser/log_parser.py:46-47 | each entry of `counter.items()` is a counted key with its number of occurrences |
| Aggregator.ItemsTotal | log_parser/log_parser.py:46-47 | the counts add up to the number of keys counted, that is, the length of `ErrorKeys` |
| Aggregator.ItemsEmpty | log_parser/log_parser.py:56 | the counter is empty exactly when nothing was counted |
| Aggregator.NoErrorKeys | log_parser/log_parser.py:43-47 | no key is counted exactly when no line qualifies |
| Aggregator.ErrorPatternCounter.constructor | log_parser/log_parser.py:39 | `Counter()` starts empty |
| Aggregator.ErrorPatternCounter.Add | log_parser/log_parser.py:47 | `counter[key] += 1` raises that key's count by 1, starting from 0, and changes no other count; a new key goes last in the order |
| Aggregator.TopOfCounter | log_parser/log_parser.py:60 | `most_common(n)` of a counter lists distinct keys with their counts, largest first, equal counts in insertion order, and every key left out counts no more than every key listed |
| Aggregator.UnlistedCountsLess | log_parser/log_parser.py:60 | a key of the counter that `most_common(n)` does not list counts no more than any key it lists |
| Aggregator.ErrorPatternCounter.MostCommonN | log_parser/log_parser.py:60 | `most_common(n)` is `Ranking.MostCommon` of the counter's entries in insertion order: a stable sort by descending count, cut to `min(n, len)` entries (none for `n <= 0`); each pair is a key with its count, and no key is listed twice; among equal counts the earliest-inserted keys come first, in insertion order; no key left out counts more than one listed |
| Aggregator.CountLine | log_parser/log_parser.py:45-47 | one loop step counts the normalised form of an error line and skips any other line |
| Aggregator.CountErrors | log_parser/log_parser.py:41-47 | after the loop, the counter is the tally of the error lines' normalised forms, in first-seen order |
| Aggregator.NothingToReport | log_parser/log_parser.py:56-58 | the counter is empty exactly when no line qualifies |
| Aggregator.FindAnomalousErrors | log_parser/log_parser.py:33-62 | a missing file gives the not-found message and any other read failure gives the unexpected-error message; otherwise the result is "no patterns" exactly when no line qualifies, and else `most_common(top_n)` of the normalised error lines |
| Scenario.FailedLineIsError | log_parser/log_parser.py:38-45 | a line with the keyword `ERROR` after a 19-character timestamp passes the keyword filter |
| Scenario.ThreeLinesFiltered | log_parser/log_parser.py:38-45 | of the three lines, the filter keeps both failed-connection lines and drops `INFO Service started` |
| Scenario.ThreeLinesKeys | log_parser/log_parser.py:43-47 | the log gives the key `<TIMESTAMP> ERROR Connection failed to <IP>` twice and nothing else; the code keeps `<TIMESTAMP>` in the key |
| Scenario.ThreeLinesTop | log_parser/log_parser.py:39-60 | `most_common(10)` of the log's counter is the single pair (`<TIMESTAMP> ERROR Connection failed to <IP>`, 2) |
| Scenario.ThreeLinesReport | log_parser/log_parser.py:33-62 | `find_anomalous_errors` on the log with the default `top_n` reports that one pattern with count 2 |

## Left out

- `main` and its argument parsing (lines 65-84) are not modelled. They are command-line plumbing.
- Opening the file is not modelled: the path, `encoding='utf-8'`, `errors='ignore'`, the decoding and the split into lines. The model takes the outcome as a `LogSource`: the lines, each with its terminator, a missing file, or another failure.
- The model does not cover a failure in the middle of the read. In the code, the lines read so far are counted and then discarded; the model goes straight to the message.
- Printing is not modelled: the header with `os.path.basename`, the `{count:<5}` column and the separator line. `FindAnomalousErrors` returns a `Report` that says which message is printed and which entries are listed.
- Character classes are ASCII only, plus the separators U+001C..U+001F that `str.isspace` counts as whitespace. Python gives `\d`, `\w`, `\s`, `\b` and `str.upper()` their Unicode meaning; those tables are not modelled.
- There is no general regular-expression engine. Each of the seven fixed patterns has a hand-written matcher that resolves the pattern's backtracking. A comment on each matcher explains how.
- Aggregator.CountErrors: takes the normaliser as a parameter. `FindAnomalousErrors` passes `Normalize`, so the proof of the loop does not depend on how normalisation works.
- Patterns.IsoTimestampAt: its contract states only that a match lies inside the line and starts with a digit. What it accepts is its body: the 19 fixed characters, read atom by atom (`Patterns.FixedAtSpec`), then the optional fraction and `Z`. No separate characterisation lemma restates that body.
- Patterns.SlashTimestampAt: its contract states only that a match lies inside the line and starts with a digit. What it accepts is the fixed shape in its body, read atom by atom (`Patterns.FixedAtSpec`).
- Patterns.SyslogTimestampAt: its contract states only that a match lies inside the line and starts with a word character. What it accepts is its body: the head, then two digits for the day if they fit, else one. `Quirks.SyslogInsideWord` shows that behaviour on a line.
- Patterns.UuidAt: its contract states only that a match lies inside the line and starts with a hex digit. What it accepts is the fixed shape in its body, read atom by atom (`Patterns.FixedAtSpec`).
- Patterns.Ipv4At: its own contract states only where a match lies. What it accepts is stated by `Patterns.Ipv4AtSpec`.
- Patterns.FileLocationAt: it has no contract of its own. `Patterns.FileLocationFits` states where a match lies, and `Patterns.FileLocationAtSpec` states what it accepts.
