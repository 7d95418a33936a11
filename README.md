# SysCheck-Lite collectors and HTML report, in Dafny

SysCheck-Lite gathers a system snapshot from a remote host over an
already-connected SSH or WinRM session and renders it. This project models
the core of that pipeline:

- **The three collectors** are `LinuxCollector`, `RHELCollector` and
  `WindowsCollector`. Each has a fixed per-platform table of metric names and
  shell or PowerShell commands. It runs each command through the connector,
  trims the text that comes back and stores it as a scalar or as a list of
  lines. Then it runs the **service pass**:
  - list the host's services;
  - derive a name from each line;
  - union the `fnmatch.filter` results of every effective pattern (the
    built-in defaults followed by the caller's patterns);
  - ask the host for the status of each matched name.
- **The HTML line builder of `to_html`** builds the `html_lines` list from a
  collection result, with every datum passed through `html.escape`, and
  joins the list with `"\n"`.

## How it is modelled

- **The connector** is the class `Remote.Connector`. It has a `respond`
  function from command string to the text that `run_command` returns, and a
  ghost `log` of every command issued, oldest first. `RunCommand` returns
  `respond(command)` and appends the command to the log.
- **Every collector's `collect`** is an imperative method. It mutates the
  connector (its log) and returns the result. Its `ensures` ties the result
  and the new log to two specification functions of the respond function:
  `LinuxInfo` and `LinuxCommands`, `RhelInfo` and `RhelCommands`,
  `WindowsInfo` and `WindowsCommands`. Lemmas then state what those
  functions promise.
- **Dicts** keep their insertion order. A result is a `seq<(string, Value)>`,
  with `Value = Scalar | Lines | StatusMap`. `Results.Put` models
  `d[k] = v` and `Results.Get` models `d.get(k)`.
- **The set of matched services** is a Dafny `set`. The loop over it, which
  queries the statuses, picks its elements in an arbitrary order. That order
  is returned as a ghost out-parameter. Every lemma about the "Services"
  entry holds whatever the order.
- **`line.split()[0]` on a blank listing line** raises `IndexError` in the
  Linux and RHEL collectors. Here it is the result `Failure(IndexError(line))`.
- **Python's string builtins** are written out in `PyStr` from their
  documented behaviour: `strip`, `strip('"')`, `splitlines`, `split('\n')`,
  `split()[0]`, `replace` and `join`. So is `fnmatch` (module `Fnmatch`),
  including `translate`'s treatment of `[...]` classes, of ranges and of
  empty ranges. So is `html.escape` (module `Html`), written as the five
  successive `replace` calls of the standard library.

Some behaviours of the program are worth stating plainly:

- A failed command's text is stored as the connector returned it. No
  error-tagged value is made.
- `.service` is removed wherever it occurs in a unit name (`str.replace`),
  not only as a suffix.
- `fnmatch` classes `[...]` are modelled, besides `*` and `?`.
- When no service matches, Linux and RHEL store an empty map under
  "Services". Windows stores the text "No matching services found".
- A blank listing line fails the whole `collect` of the Linux and RHEL
  collectors.
- An unknown or missing distribution makes `LinuxCollector` raise
  `ValueError("Unsupported Distribution")`.
- RHEL and Windows always store "Disk Usage" and the error log as lists,
  whatever the number of lines. Only the Linux collector applies the
  scalar-or-lines rule.

## Model

| member | source | states |
|---|---|---|
| PyStr.TrimEnds | syscheck/collectors/LinuxCollector.py:45 | `strip()` keeps a slice of the input that starts right after the leading whitespace and neither starts nor ends with whitespace; everything after it is whitespace |
| PyStr.Trim | syscheck/collectors/RHELCollector.py:23 | `strip(chars)` is never longer than its input, and what it keeps neither starts nor ends with a stripped character |
| PyStr.Strip | syscheck/collectors/LinuxCollector.py:45 | `strip()` is never longer than its input, and what it keeps neither starts nor ends with whitespace |
| PyStr.TrimOf | syscheck/collectors/RHELCollector.py:23 | stripping a core with kept ends, surrounded by runs of dropped characters, gives exactly the core |
| PyStr.TrimIdempotent | syscheck/collectors/LinuxCollector.py:45 | stripping twice is stripping once, and a string that neither starts nor ends with a dropped character is left as it is |
| PyStr.SplitOn | syscheck/collectors/RHELCollector.py:34 | `split('\n')` gives at least one piece, and no piece holds the separator |
| PyStr.JoinSplitOn | syscheck/collectors/RHELCollector.py:34 | joining the pieces of `split(sep)` with `sep` gives back the string |
| PyStr.SplitOnJoin | syscheck/formatter/htmlFormatter.py:84 | splitting a `sep`-join of one or more separator-free pieces gives back the pieces |
| PyStr.SplitLines | syscheck/collectors/LinuxCollector.py:46 | `splitlines()` gives no lines exactly for the empty string, and no line holds a line break |
| PyStr.SplitLinesJoin | syscheck/collectors/LinuxCollector.py:46 | `splitlines()` of the `"\n"`-join or the `"\r\n"`-join of break-free lines whose last line is non-empty gives back the lines |
| PyStr.SplitLinesCons | syscheck/collectors/LinuxCollector.py:46 | a break-free line followed by `"\n"` or `"\r\n"` is the first line of `splitlines()`, and the rest are the lines of what follows |
| PyStr.SplitLinesOfInnerBreak | syscheck/collectors/LinuxCollector.py:46 | a stripped text that contains `"\n"` has at least two lines |
| PyStr.FirstToken | syscheck/collectors/LinuxCollector.py:50 | `split()[0]` is absent exactly for a blank line; otherwise it is the non-empty whitespace-free run right after the leading whitespace, ending at whitespace or at the end of the line |
| PyStr.TokenFrom | syscheck/collectors/LinuxCollector.py:50 | the run of non-space characters from a non-space position is non-empty, lies inside the line and ends at whitespace or at the end of the line |
| PyStr.FirstTokenOf | syscheck/collectors/LinuxCollector.py:50 | whitespace, then a whitespace-free token, then nothing or whitespace: the first field is that token |
| PyStr.ReplaceAbsent | syscheck/collectors/LinuxCollector.py:50 | `replace` leaves a string that lacks the pattern's first character unchanged |
| PyStr.Replace | syscheck/collectors/LinuxCollector.py:50 | `replace` with the pattern itself changes nothing, and a replacement at least as long as the pattern never shortens the string |
| PyStr.ReplaceSuffix | syscheck/collectors/LinuxCollector.py:50 | replacing the pattern in a name that lacks its first character, followed by the pattern, keeps the name and replaces the pattern |
| PyStr.ReplaceCharAppend | syscheck/formatter/htmlFormatter.py:4 | replacing a one-character pattern distributes over concatenation |
| Fnmatch.Filter | syscheck/collectors/LinuxCollector.py:54 | `fnmatch.filter` keeps exactly the names that match the pattern, and no more names than it was given |
| Fnmatch.Translate | syscheck/collectors/LinuxCollector.py:54 | `translate` gives at most one atom per pattern character, exactly one each when the pattern has no `[`, and no any-run atom when it has no `*` |
| Fnmatch.MatchAtoms | syscheck/collectors/LinuxCollector.py:54 | atoms without an any-run match only names with one character per atom |
| Fnmatch.FnMatch | syscheck/collectors/LinuxCollector.py:54 | a pattern without `*` matches no name longer than itself |
| Fnmatch.StarMatchesEveryName | syscheck/collectors/LinuxCollector.py:54 | `*` matches every name |
| Fnmatch.PlainPatternMatchesItself | syscheck/collectors/LinuxCollector.py:54 | a pattern without `*`, `?` or `[` matches a name exactly when it equals the name |
| Fnmatch.InfixPatternMatches | syscheck/collectors/LinuxCollector.py:3-13 | `*x*` with a wildcard-free x matches a name exactly when x occurs in it |
| Fnmatch.AnyRunMatchesAll | syscheck/collectors/LinuxCollector.py:54 | the translation of `*` matches every name, including the empty one |
| Fnmatch.MatchAnyRun | syscheck/collectors/LinuxCollector.py:54 | a leading `*` matches exactly when the rest of the pattern matches some suffix of the name |
| Fnmatch.QuestionMarkMatchesOneChar | syscheck/collectors/LinuxCollector.py:54 | `?` matches exactly the one-character names |
| Fnmatch.TranslateRange | syscheck/collectors/LinuxCollector.py:54 | `[a-b]` translates to one class atom built from the two range ends |
| Fnmatch.RangeClassMatches | syscheck/collectors/LinuxCollector.py:54 | `[a-b]` with a <= b matches a one-character name exactly when its character lies between a and b |
| Fnmatch.EmptyRangeMatchesNothing | syscheck/collectors/LinuxCollector.py:54 | `[a-b]` with a > b matches no name at all |
| Fnmatch.NegatedClassMatches | syscheck/collectors/LinuxCollector.py:54 | `[!body]` without ranges matches a one-character name exactly when its character is not in the body |
| Results.Keys | syscheck/collectors/LinuxCollector.py:42-46 | the keys of a dict, one per item and in item order |
| Results.Items | syscheck/collectors/RHELCollector.py:20-31 | a dict display pairs each name with the value at the same position, and its keys are the names in order |
| Results.Get | syscheck/collectors/LinuxCollector.py:46 | `get` finds nothing exactly for a missing key, and what it finds is the value of an item with that key |
| Results.Put | syscheck/collectors/LinuxCollector.py:46 | `d[k] = v` keeps the keys when k is present, appends the item when k is new, and never creates a repeated key |
| Results.PutGet | syscheck/collectors/LinuxCollector.py:46 | after `d[k] = v`, `get` finds v under k and the old value under every other key |
| Results.PutAppends | syscheck/collectors/LinuxCollector.py:59 | storing a key that no item carries appends its item |
| Results.PutNew | syscheck/collectors/RHELCollector.py:52 | storing a key that is not among the keys appends its item |
| Results.PutTwoNew | syscheck/collectors/RHELCollector.py:33-37 | storing two different new keys appends both items in order |
| Results.GetAppend | syscheck/collectors/RHELCollector.py:52 | after a new key is appended, `get` finds its value under it and the old value under every other key |
| Results.KeysAligned | syscheck/collectors/LinuxCollector.py:44-46 | two dicts with the same key at every position have the same keys, and either both or neither repeat a key |
| Results.GetAligned | syscheck/collectors/LinuxCollector.py:56-59 | a dict pairing distinct names, in order, with their images under a function maps exactly those names, each to its image |
| Results.GetAt | syscheck/collectors/LinuxCollector.py:46 | in a dict without repeated keys, `get` of an item's key finds that item's value |
| Results.DistinctByKeys | syscheck/collectors/RHELCollector.py:20-37 | a dict whose keys are distinct names repeats no key |
| Results.GetByKeys | syscheck/collectors/RHELCollector.py:33-37 | when the keys are distinct names, `get` of the i-th name finds the i-th value |
| Results.AppendNewKey | syscheck/collectors/RHELCollector.py:52 | appending an item under a new key adds that key at the end, and `get` finds its value |
| Remote.Connector.constructor | syscheck/connectors/ssh.py:30-36 | a fresh session answers with the given function and has issued no command |
| Remote.Connector.RunCommand | syscheck/connectors/ssh.py:30-36 | `run_command` returns the host's answer to the command and appends the command to the log |
| ServicePass.UnitNames | syscheck/collectors/LinuxCollector.py:50 | the derivation of names fails exactly when some listing line is blank, naming a blank line; otherwise there is one name per line, each the first field with `.service` removed |
| ServicePass.EffectivePatterns | syscheck/collectors/LinuxCollector.py:17 | `DEFAULT_SERVICE_PATTERNS + (services or [])` starts with the defaults and holds exactly the defaults and the caller's patterns |
| ServicePass.UnitName | syscheck/collectors/LinuxCollector.py:50 | a listing line yields no name exactly when it is blank, where `split()[0]` raises |
| ServicePass.AvailableUnits | syscheck/collectors/LinuxCollector.py:49-50 | the names of the listing fail exactly when some `splitlines()` line is blank, and otherwise there is one name per line |
| ServicePass.UnitNameOfListingLine | syscheck/collectors/LinuxCollector.py:50 | the line "NAME.service  loaded active ..." yields NAME |
| ServicePass.MatchServices | syscheck/collectors/LinuxCollector.py:52-54 | the loop over the patterns leaves exactly the listed names that some pattern matches |
| ServicePass.MatchedSet | syscheck/collectors/LinuxCollector.py:52-54 | every matched name is a listed name |
| ServicePass.StarPatternKeepsAll | syscheck/collectors/LinuxCollector.py:52-54 | with `*` among the patterns, every listed name is matched |
| ServicePass.MatchedSetOfSamePatterns | syscheck/collectors/LinuxCollector.py:53-54 | only the set of patterns counts: a repeated or reordered pattern list matches the same names |
| ServicePass.MatchedSetGrows | syscheck/collectors/LinuxCollector.py:17 | adding patterns never loses a matched name |
| ServicePass.InfixPatternKeepsService | syscheck/collectors/LinuxCollector.py:3-13 | a listed name that contains x is matched when `*x*` is among the patterns |
| ServicePass.StatusCommands | syscheck/collectors/LinuxCollector.py:57-58 | one status command per visited name, in visiting order |
| ServicePass.StatusEntriesItems | syscheck/collectors/LinuxCollector.py:56-59 | `status_results` holds the visited names in visiting order, each with the trimmed answer to its own status command |
| ServicePass.StatusEntriesKeys | syscheck/collectors/LinuxCollector.py:56-59 | the keys of `status_results` are exactly the visited names, without repetition |
| ServicePass.StatusEntriesLookup | syscheck/collectors/LinuxCollector.py:56-59 | `get` finds each visited name's trimmed status and nothing for any other name |
| ServicePass.StatusesIndependentOfOrder | syscheck/collectors/LinuxCollector.py:57 | two visits of the same set give the same statuses, and the keys are exactly the set |
| ServicePass.EnumerationLength | syscheck/collectors/LinuxCollector.py:57 | the loop over a set visits as many names as the set has |
| ServicePass.QueryStatuses | syscheck/collectors/LinuxCollector.py:56-59 | the status loop visits every matched name once, stores the statuses in visiting order and logs one status command per name |
| ServicePass.CollectUnitStatuses | syscheck/collectors/LinuxCollector.py:49-59 | the systemd pass issues the listing command, fails on a blank line, and otherwise issues one `systemctl is-active` command per matched unit, in the visiting order |
| ServicePass.UnitStatusesContent | syscheck/collectors/LinuxCollector.py:56-61 | after a well-formed listing, the pass maps exactly the matched units, each to its trimmed `is-active` answer, with one command more than there are matched units |
| ServicePass.UnitStatuses | syscheck/collectors/LinuxCollector.py:49-59 | the systemd pass fails exactly when the listing's names fail |
| Linux.PackageCommand | syscheck/collectors/LinuxCollector.py:20-25 | rhel and rocky read dnf's log, debian and ubuntu read apt's log, and every other distribution (or none) is refused with "Unsupported Distribution" |
| Linux.MetricNamesDistinct | syscheck/collectors/LinuxCollector.py:27-40 | the twelve metric names are distinct, and none is "Services" |
| Linux.ManifestKeys | syscheck/collectors/LinuxCollector.py:27-40 | the manifest has twelve items with the metric names in order and distinct, "Last Update" bound to the package command |
| Linux.Normalize | syscheck/collectors/LinuxCollector.py:45-46 | the stored value is the trimmed text exactly when that text has no `"\n"`; otherwise it is the text's `splitlines()`, which then has at least two lines |
| Linux.ManifestCommands | syscheck/collectors/LinuxCollector.py:44-45 | one command per manifest item, in manifest order |
| Linux.ManifestInfoItems | syscheck/collectors/LinuxCollector.py:44-46 | the manifest loop stores one item per metric, in manifest order, each holding its own command's normalised output |
| Linux.ManifestInfoKeys | syscheck/collectors/LinuxCollector.py:44-46 | the keys after the manifest loop are the manifest's names, without repetition |
| Linux.ManifestInfoLookup | syscheck/collectors/LinuxCollector.py:44-46 | `get` finds each metric's normalised output |
| Linux.LinuxCollector.constructor | syscheck/collectors/LinuxCollector.py:16-40 | the collector holds the given patterns and the manifest for the package command |
| Linux.LinuxCollector.New | syscheck/collectors/LinuxCollector.py:16-40 | construction fails exactly for an unsupported distribution; otherwise the patterns are the defaults followed by the caller's, and the manifest uses the distribution's package command |
| Linux.LinuxCollector.Collect | syscheck/collectors/LinuxCollector.py:41-63 | the result and the commands issued are those of the manifest loop followed, when there are patterns, by the systemd pass over an enumeration of the matched units |
| Linux.LinuxCollector.RunManifest | syscheck/collectors/LinuxCollector.py:44-46 | the manifest loop issues each command in order and stores its normalised output |
| Linux.LinuxInfoKeys | syscheck/collectors/LinuxCollector.py:41-63 | a collection fails exactly when there are patterns and the listing has a blank line; otherwise its keys are the manifest names in order, then "Services" when there are patterns, holding the pass's statuses |
| Linux.LinuxInfo | syscheck/collectors/LinuxCollector.py:41-63 | a collection fails exactly when there are patterns and the listing's names fail |
| Linux.LinuxMetric | syscheck/collectors/LinuxCollector.py:44-46 | in a successful collection, each metric holds its own command's normalised output |
| Linux.LinuxCommandCount | syscheck/collectors/LinuxCollector.py:44-58 | with patterns and a well-formed listing: manifest size + 1 + number of matched units commands, the manifest's first and in order, then the listing |
| Linux.NewCollectorHasPatterns | syscheck/collectors/LinuxCollector.py:3-17 | the effective patterns always include the nine defaults, so the service pass always runs |
| Rhel.MetricNamesDistinct | syscheck/collectors/RHELCollector.py:20-37 | the twelve metric names are distinct, and none is "Services" |
| Rhel.LaterKeysFresh | syscheck/collectors/RHELCollector.py:20-37 | "Disk Usage" and "Last 10 Journalctl Errors" are distinct new keys after the dict literal |
| Rhel.OsVersionUnquoted | syscheck/collectors/RHELCollector.py:23 | the `PRETTY_NAME` value `"name"` followed by a newline is stored as the bare name |
| Rhel.Unquoted | syscheck/collectors/RHELCollector.py:23 | `.strip().strip('"')` is never longer than the output, and what it keeps neither starts nor ends with `"` |
| Rhel.TextLines | syscheck/collectors/RHELCollector.py:33-37 | `split('\n')` of the trimmed output: at least one line, no line holds `"\n"`, and joined with `"\n"` they give the trimmed output back |
| Rhel.TextLinesOfOneLine | syscheck/collectors/RHELCollector.py:33-37 | a trimmed output without `"\n"` gives a list of that one line, so an empty output gives `[""]` |
| Rhel.ScalarValues | syscheck/collectors/RHELCollector.py:20-31 | one value per name of the dict literal |
| Rhel.MetricsInfoKeys | syscheck/collectors/RHELCollector.py:20-37 | before the service pass, the keys are the ten names of the dict literal, then "Disk Usage", then "Last 10 Journalctl Errors" |
| Rhel.MetricsInfo | syscheck/collectors/RHELCollector.py:20-37 | before the service pass there are twelve items, the last two being line lists |
| Rhel.ServicesKeyFresh | syscheck/collectors/RHELCollector.py:52 | "Services" is not among the metric keys |
| Rhel.MetricsStored | syscheck/collectors/RHELCollector.py:33-37 | storing the two line lists after the dict literal appends them in order |
| Rhel.RhelCollector.constructor | syscheck/collectors/RHELCollector.py:16-17 | the patterns are the defaults followed by the caller's |
| Rhel.RhelCollector.Collect | syscheck/collectors/RHELCollector.py:19-54 | the result and the commands issued are those of the metrics followed by the systemd pass over an enumeration of the matched units |
| Rhel.RhelCollector.CollectMetrics | syscheck/collectors/RHELCollector.py:20-37 | the dict literal, then the disk usage and the journal errors, with their twelve commands in order |
| Rhel.RhelCollector.CollectScalars | syscheck/collectors/RHELCollector.py:20-31 | the ten commands of the dict literal in order, each output trimmed, the OS version also unquoted |
| Rhel.MetricsInfoDistinct | syscheck/collectors/RHELCollector.py:20-37 | the metrics never repeat a key |
| Rhel.RhelInfoKeys | syscheck/collectors/RHELCollector.py:19-54 | a collection fails exactly when there are patterns and the listing has a blank line; otherwise its keys are the twelve metric names in order, then "Services" when there are patterns, holding the pass's statuses |
| Rhel.RhelInfo | syscheck/collectors/RHELCollector.py:19-54 | a collection fails exactly when there are patterns and the listing's names fail; otherwise it has twelve items, thirteen with patterns |
| Rhel.ServicesAppended | syscheck/collectors/RHELCollector.py:52 | "Services" comes after every metric, and `get` finds its value |
| Rhel.RhelMetric | syscheck/collectors/RHELCollector.py:19-54 | in a successful collection, every metric is the one stored before the service pass |
| Rhel.ScalarMetric | syscheck/collectors/RHELCollector.py:20-31 | each name of the dict literal holds its own command's output, trimmed |
| Rhel.DiskUsageMetric | syscheck/collectors/RHELCollector.py:33-34 | "Disk Usage" holds the `split('\n')` lines of the trimmed disk output |
| Rhel.JournalErrorsMetric | syscheck/collectors/RHELCollector.py:36-37 | "Last 10 Journalctl Errors" holds the `split('\n')` lines of the trimmed journal output |
| Rhel.RhelCommandCount | syscheck/collectors/RHELCollector.py:19-52 | with patterns and a well-formed listing: 13 + number of matched units commands, the twelve metric commands first, then the listing |
| Rhel.CollectorHasPatterns | syscheck/collectors/RHELCollector.py:3-17 | the effective patterns always include the nine defaults, so the service pass always runs |
| Windows.MetricNamesDistinct | syscheck/collectors/WindowsCollector.py:19-63 | the twelve metric names are distinct, and none is "Services" |
| Windows.LaterKeysFresh | syscheck/collectors/WindowsCollector.py:19-63 | "Disk Usage" and "Last 10 System Errors" are distinct new keys after the dict literal |
| Windows.CpuText | syscheck/collectors/WindowsCollector.py:30-34 | the CPU value is the trimmed reading followed by " %" |
| Windows.ScalarValues | syscheck/collectors/WindowsCollector.py:19-50 | one value per name of the dict literal |
| Windows.OutputLines | syscheck/collectors/WindowsCollector.py:52-63 | `splitlines()` of the trimmed output is empty exactly when the trimmed output is empty |
| Windows.MetricsInfoKeys | syscheck/collectors/WindowsCollector.py:19-63 | before the service pass, the keys are the ten names of the dict literal, then "Disk Usage", then "Last 10 System Errors" |
| Windows.MetricsInfo | syscheck/collectors/WindowsCollector.py:19-63 | before the service pass there are twelve items, the last two being line lists |
| Windows.AvailableServices | syscheck/collectors/WindowsCollector.py:67-69 | the listed names are the `splitlines()` lines of the `Get-Service` output: none exactly for an empty output, and none holding a line break |
| Windows.ServiceListing | syscheck/collectors/WindowsCollector.py:67-69 | an output that is the `"\r\n"`-join of break-free names, the last one non-empty, lists exactly those names, in order |
| Windows.ServiceStatusCommandInjective | syscheck/collectors/WindowsCollector.py:77-79 | two different names get two different status queries |
| Windows.ServicesKeyFresh | syscheck/collectors/WindowsCollector.py:82 | "Services" is not among the metric keys |
| Windows.MetricsStored | syscheck/collectors/WindowsCollector.py:52-63 | storing the two line lists after the dict literal appends them in order |
| Windows.ServicesValue | syscheck/collectors/WindowsCollector.py:82 | "Services" is the sentinel text exactly when there are no statuses, and otherwise the statuses themselves |
| Windows.WindowsCollector.constructor | syscheck/collectors/WindowsCollector.py:14-15 | the patterns are the defaults followed by the caller's |
| Windows.WindowsCollector.Collect | syscheck/collectors/WindowsCollector.py:17-85 | the result and the commands issued are those of the metrics followed, when there are patterns, by the `Get-Service` listing and one status query per matched name, in an enumeration of the matched set |
| Windows.WindowsCollector.CollectMetrics | syscheck/collectors/WindowsCollector.py:19-63 | the dict literal, then the disk usage and the system errors, with their twelve commands in order |
| Windows.WindowsCollector.CollectScalars | syscheck/collectors/WindowsCollector.py:19-50 | the ten commands of the dict literal in order, each output trimmed, the CPU reading followed by " %" |
| Windows.MetricsInfoDistinct | syscheck/collectors/WindowsCollector.py:19-63 | the metrics never repeat a key |
| Windows.WindowsInfoKeys | syscheck/collectors/WindowsCollector.py:17-85 | the keys are the twelve metric names in order, then "Services" exactly when there are patterns |
| Windows.WindowsInfo | syscheck/collectors/WindowsCollector.py:17-85 | a collection has twelve items, thirteen with patterns, and then "Services" is the last |
| Windows.ServicesEntry | syscheck/collectors/WindowsCollector.py:65-82 | "Services" is present, holds the sentinel exactly when no listed name matched, and otherwise maps exactly the matched names, each to its trimmed `Get-Service` status, whatever the visiting order |
| Windows.WindowsMetric | syscheck/collectors/WindowsCollector.py:17-85 | every metric is the one stored before the service pass |
| Windows.ScalarMetric | syscheck/collectors/WindowsCollector.py:19-50 | each name of the dict literal holds its own command's trimmed output, the CPU reading followed by " %" |
| Windows.DiskUsageMetric | syscheck/collectors/WindowsCollector.py:52-56 | "Disk Usage" holds the `splitlines()` of the trimmed disk output |
| Windows.SystemErrorsMetric | syscheck/collectors/WindowsCollector.py:59-63 | "Last 10 System Errors" holds the `splitlines()` of the trimmed event-log output |
| Windows.WindowsCommandCount | syscheck/collectors/WindowsCollector.py:17-80 | with patterns: 13 + number of matched names commands, the twelve metric commands first, then the listing |
| Windows.CollectorHasPatterns | syscheck/collectors/WindowsCollector.py:3-15 | the effective patterns always include the seven defaults, so "Services" is always present |
| Html.ReplacingAppend | syscheck/formatter/htmlFormatter.py:4 | the five replacements of `html.escape` distribute over concatenation |
| Html.EscapeChar | syscheck/formatter/htmlFormatter.py:4 | one character escapes to between one and six characters |
| Html.Escape | syscheck/formatter/htmlFormatter.py:4 | `html.escape` never shortens a text and at most sextuples it |
| Html.EscapeByReplacing | syscheck/formatter/htmlFormatter.py:4 | the five replacements of `html.escape` never shorten a text |
| Html.ReplacingOneChar | syscheck/formatter/htmlFormatter.py:4 | the five replacements turn one character into its escape |
| Html.ReplacingEscapes | syscheck/formatter/htmlFormatter.py:4 | `html.escape` by successive replacements equals escaping each character on its own |
| Html.EscapedHasNoMarkup | syscheck/formatter/htmlFormatter.py:58 | an escaped text holds no `<`, `>`, `"` or `'` |
| Html.EscapeCharBreaks | syscheck/formatter/htmlFormatter.py:4 | the escape of a character holds a given line break once if the character is that break, and otherwise not at all |
| Html.EscapeKeepsBreaks | syscheck/formatter/htmlFormatter.py:70 | escaping keeps every line break character as many times as the text had it, so `"\n"` occurs in the escape exactly when it occurs in the text |
| Html.EscapePlain | syscheck/formatter/htmlFormatter.py:70 | text without `&` and markup characters is left as it is |
| Html.SubEntryLines | syscheck/formatter/htmlFormatter.py:61-64 | one line per sub-entry, in dict order, with the key and the value escaped |
| Html.ItemLines | syscheck/formatter/htmlFormatter.py:69-70 | one escaped line per list item, in list order |
| Html.ToHtml | syscheck/formatter/htmlFormatter.py:7-84 | the content is the header, the entries' lines and the footer, joined with `"\n"` |
| Html.AppendEntries | syscheck/formatter/htmlFormatter.py:57-75 | the loop over the result appends the lines of every entry in order |
| Html.AppendEntry | syscheck/formatter/htmlFormatter.py:58-75 | one entry appends its key line, the lines of its value's shape and "</li>" |
| Html.AppendValue | syscheck/formatter/htmlFormatter.py:59-74 | the branch on the value's type appends the lines of its shape |
| Html.EntriesLinesStep | syscheck/formatter/htmlFormatter.py:57-75 | one more entry adds its lines after those of the entries before it |
| Html.AppendSubEntries | syscheck/formatter/htmlFormatter.py:61-64 | the loop over a dict value appends one sub-entry line per item |
| Html.AppendItems | syscheck/formatter/htmlFormatter.py:69-70 | the loop over a list value appends one escaped line per item |
| Html.HtmlLines | syscheck/formatter/htmlFormatter.py:7-82 | the page opens with "<html>" and "<head>", has the escaped host in its title line and its heading line, has 51 lines besides the entries', and ends with the four footer lines |
| Html.ValueLines | syscheck/formatter/htmlFormatter.py:59-74 | a value has at least one line, and only a dict value opens with "<ul>" |
| Html.EntryLines | syscheck/formatter/htmlFormatter.py:58-75 | an entry has at least three lines, opening with its escaped key line and closing with "</li>" |
| Html.ConcatMapAppend | syscheck/formatter/htmlFormatter.py:57 | the lines produced for two sequences laid end to end are those of the first, then those of the second |
| Html.EntriesLinesAppend | syscheck/formatter/htmlFormatter.py:57 | the lines of two results laid end to end are the lines of each, in order |
| Html.EntryBetween | syscheck/formatter/htmlFormatter.py:57-75 | an entry's lines sit between those of the entries before it and after it |
| Html.EntryInPlace | syscheck/formatter/htmlFormatter.py:57-75 | the lines of entry i of the result come after those of entries 0 to i - 1 and before those of the rest |
| Html.DictValueShape | syscheck/formatter/htmlFormatter.py:59-65 | a dict value is "<ul>", then one sub-entry line per item, then "</ul>", so its lines number two more than its items |
| Html.ListValueShape | syscheck/formatter/htmlFormatter.py:67-71 | a list value is the `<pre>` line, then its escaped items, then "</pre>" |
| Html.ScalarValueShape | syscheck/formatter/htmlFormatter.py:73-74 | any other value is the one `<code>` line holding the escaped text |
| Html.ItemLinesInert | syscheck/formatter/htmlFormatter.py:70 | no line that carries a list item holds a markup character |
| Html.ContentSplits | syscheck/formatter/htmlFormatter.py:84 | when no line holds a break, splitting the content at `"\n"` gives back the lines |

## Left out

- The connector transports (`syscheck/connectors/ssh.py`, `syscheck/connectors/winrm.py`) are not modelled: connecting, authenticating, decoding, their own trimming, and the "NO_OUTPUT" and "ERROR_COLLECTING" replies. The connector is the function from command to the text `run_command` returns, so every reply is covered.
- WindowsCollector passes a progress label as a second argument to `run_command`, which `WinRMConnection.run_command` does not accept. The model's connector takes the command only.
- Transport exceptions raised by `run_command` are not modelled: the connector is total.
- The meaning of the shell and PowerShell command strings is not modelled. They are compared only as literals.
- The iteration order of Python's `set` is unspecified. The order in which the status loop visits the matched names is a ghost out-parameter, and the lemmas hold for every such order.
- `to_html` is modelled up to `html_content`. The temporary-file write and `webbrowser.open` are I/O.
- `str(key)`, `str(sub_value)` and `str(item)` in `to_html` are identities here, because every key and datum of a collection result is already a string.
- `fnmatch` is modelled as on a POSIX client, where `os.path.normcase` does not change case. On a Windows client, names and patterns would be case-folded first.
- `fnmatch.translate` merges consecutive `*`. The model keeps them apart, which matches the same names.
- `syscheck/main.py` (argument parsing, prompts, dispatch, printing), `syscheck/formatter/TerminalFormatter.py` (coloured `print` output) and the tests are not part of this model.
- Rhel.ScalarValues, Windows.ScalarValues: their own contract gives only the length. The value under each name is stated by Rhel.ScalarMetric and Windows.ScalarMetric.
