# BGvACC sector update plugin — a Dafny model

The BGvACC EuroScope plugin (`src/BGvACC.cpp`) checks whether the sector file
package is up to date. It does this in four steps:
- It reads the version label embedded in the loaded sector file's name, e.g.
  `... 2510/2-2 LBSR 20251013`, which gives AIRAC cycle 2510, AIRAC version 2
  and package 2.
- It fetches a small JSON manifest and pulls six fields out of it with
  regular expressions.
- It compares the two `(cycle, version, package)` triples lexicographically.
- It alerts the controller when the remote package is newer.

The plugin's per-second `OnTimer` callback does the following:
- On the first tick, it shows a one-time welcome notice, runs a verbose check
  and shows a usage hint.
- It repeats the check quietly every `m_IntervalSec` seconds, until a sector
  name has been seen once.
- It keeps a session timer that fires a break reminder once per
  `m_ReminderMinutes` interval of unbroken connection.

The project is split into these modules:
- `text.dfy` (`Text`):
  - the character classes of the regular expressions (C locale);
  - greedy runs, through `RunEnd` and `RunStart`;
  - the leftmost search `Leftmost` that `std::regex_search` performs;
  - decimal reading and spelling;
  - the plugin's `Trim` helper.
- `local_label.dfy` (`LocalLabel`): `ParseLocalFromInfoString`.
  - `IsLabelMatch` says declaratively what a match of the label pattern is.
  - `MatchAt` is the anchored matcher.
  - `ParseLocal` takes the leftmost match.
  - Lemmas tie `ParseLocal` to the declarative definition in both directions.
  - A round trip shows that every well-formed label, spelled inside any name
    with no `2` before it, parses back to its own triple.
- `manifest.dfy` (`Manifest`): `RegGet` and `ParseRemoteJson`, built the same
  way: `IsFieldMatch` as the reference definition, and `FieldAt` with
  `Leftmost` as the search.
- `versions.dfy` (`Versions`): the `newer` comparison of `DoCheck`. It is
  proved equal to lexicographic order, and from that it is a strict total
  order.
- `plugin.dfy` (`Plugin`): the plugin object.
  - `class Monitor` has the plugin's fields and the methods `DoCheck`,
    `ShowWelcomeIfAvailable`, `OnTimer` and two pieces of `OnTimer`.
    `AutoCheck` is the periodic check. `TrackSession` is the session timer.
  - Each method is proved against a pure specification: `CheckOutcome`,
    `WelcomeNotice` and `SessionTick`.
  - Lemmas state what those specifications promise:
    - an update is reported exactly when both versions are read and the
      remote one is newer;
    - the reminder latch stays in step with the timer;
    - over an unbroken connection, one reminder fires per whole interval;
    - disconnecting resets the timer.

Host calls are not modelled. Values that come from EuroScope or from the
network arrive as parameters:
- the loaded sector file name, "" when none is loaded;
- the connection type, 0 when offline;
- the bodies returned by the two HTTP fetches.

`HttpGet` clears its output and reports success exactly when the body it read
is not empty (`src/BGvACC.cpp:102`, `src/BGvACC.cpp:134`). So a fetch is
modelled by its body, and "" stands for a failed fetch. What the plugin shows
the user comes back from each method as a result: the check's outcome and
how it was announced, the welcome text, the hint, and the reminder.

## Model

| member | source | states |
|---|---|---|
| Text.Trim | src/BGvACC.cpp:367-372 | the result is a slice of the input with only `" \t\r\n"` before and after it; it is empty exactly when the input consists only of those characters; otherwise it neither starts nor ends with one of them |
| Text.TrimUnique | src/BGvACC.cpp:367-372 | whatever whitespace-only prefix and suffix surround a core that neither starts nor ends with whitespace, `Trim` returns that core |
| Text.TrimIdempotent | src/BGvACC.cpp:367-372 | trimming twice gives the same result as trimming once |
| Text.Leftmost | src/BGvACC.cpp:43 | the search of `std::regex_search`: the result is a position where the anchored matcher succeeds, with no success at any earlier position; no result means no position succeeds |
| Text.Value | src/BGvACC.cpp:45-47 | the number `std::stoi` reads from a digit string; its partners `Text.Decimal` (which `Value` reads back) and `Text.ValueLeadingZero` pin it down |
| Text.Decimal | src/BGvACC.cpp:45-47 | the canonical spelling of `n`: at least one digit, all digits, no leading zero, and `Value` reads it back as `n` |
| Text.ValueLeadingZero | src/BGvACC.cpp:45-47 | a leading zero does not change the value read |
| LocalLabel.MatchAtComplete | src/BGvACC.cpp:41 | every match of the label pattern is the one the anchored matcher finds at its start, so greedy runs and backtracking agree |
| LocalLabel.ParseLocal | src/BGvACC.cpp:40-50 | on success the cycle lies in 2500..2599, the package name is the whole label, and the values are the captures of a genuine match of the pattern |
| LocalLabel.ParseLocalNoneIffNoMatch | src/BGvACC.cpp:40-43 | parsing fails exactly when no part of the label matches the pattern |
| LocalLabel.ParseLocalFindsMatch | src/BGvACC.cpp:40-43 | a label that holds a match always yields a version |
| LocalLabel.ParseLocalLeftmost | src/BGvACC.cpp:42-49 | the values are read from the groups of the leftmost match, whichever later matches the label holds |
| LocalLabel.ParseLocalPackageDefault | src/BGvACC.cpp:47 | when the optional `-n` group is absent from the leftmost match, the package number is 0 |
| LocalLabel.ParseLocalSpelled | src/BGvACC.cpp:40-50 | round trip: any well-formed label (cycle 25dd, any whitespace around the slash, optional package, four capitals, a 20dddddd date) placed after text with no `2` parses back to exactly its cycle, version and package (0 when absent) |
| LocalLabel.ParseLocalHintExample | src/BGvACC.cpp:389-390 | the label of the plugin's own hint, `2510/2-2 LBSR 20251013`, parses as cycle 2510, version 2, package 2 |
| LocalLabel.ParseLocalNoPackageExample | src/BGvACC.cpp:41-47 | `2510 / 3 LBSR 20251013` parses as cycle 2510, version 3, package 0 |
| Manifest.RegGet | src/BGvACC.cpp:53-56 | a number value is all digits and a quoted value holds no double quote |
| Manifest.RegGetLeftmost | src/BGvACC.cpp:53-56 | with a match of the field pattern and none starting earlier, `RegGet` returns that match's group 1 |
| Manifest.RegGetAbsent | src/BGvACC.cpp:53-56 | when the pattern occurs nowhere, `RegGet` returns "" |
| Manifest.RegGetNumberFound | src/BGvACC.cpp:53-56 | a number field is found exactly when `RegGet` returns a non-empty string |
| Manifest.NumberFieldSpelled | src/BGvACC.cpp:59-61 | round trip: a number field spelled with any whitespace around its colon, after text with no double quote, is read back as the decimal spelling of its value |
| Manifest.ParseRemote | src/BGvACC.cpp:58-73 | `ParseRemoteJson` as a function from the body to an optional record; what it promises is stated by `Manifest.ParseRemoteFailsIff`, `Manifest.ParseRemoteDefaults`, `Manifest.ParseRemoteReadsNumber` and `Manifest.ParseRemoteReadsQuoted` |
| Manifest.ParseRemoteFailsIff | src/BGvACC.cpp:58-65 | parsing fails exactly when the `airac_cycle` or the `airac_version` field is missing |
| Manifest.ParseRemoteDefaults | src/BGvACC.cpp:61-71 | a missing `package_version` reads as 0, and a missing name, URL or notes field reads as "" |
| Manifest.ParseRemoteReadsNumber | src/BGvACC.cpp:59-68 | on success cycle, version and package hold the values of their fields' leftmost occurrences |
| Manifest.ParseRemoteReadsQuoted | src/BGvACC.cpp:62-71 | on success name, download URL and notes hold the text of their fields' leftmost occurrences |
| Versions.NewerIsLexicographic | src/BGvACC.cpp:416-420 | `newer` holds exactly when the remote triple is above the local one in lexicographic order |
| Versions.Newer | src/BGvACC.cpp:416-420 | the `newer` expression; `Versions.NewerIsLexicographic` proves it equal to lexicographic order, and the lemmas below state its order properties |
| Versions.NewerIrreflexive | src/BGvACC.cpp:416-420 | an equal triple is never newer |
| Versions.NewerAsymmetric | src/BGvACC.cpp:416-420 | if the remote triple is newer than the local one, the local one is not newer than the remote one |
| Versions.NewerTransitive | src/BGvACC.cpp:416-420 | `newer` is transitive |
| Versions.NewerTrichotomy | src/BGvACC.cpp:416-420 | two triples are equal, or exactly one is newer than the other |
| Versions.HigherCycleNewer | src/BGvACC.cpp:417 | a higher remote cycle is newer whatever the versions and packages |
| Versions.LowerCycleNotNewer | src/BGvACC.cpp:416-420 | a lower remote cycle is never newer |
| Versions.NewerExamples | src/BGvACC.cpp:416-420 | 2510/2-1 is newer than 2510/2-0; 2510/2-0 and 2509/9-9 are not |
| Plugin.UpdateAvailableIff | src/BGvACC.cpp:374-422 | a check reports an update exactly when a sector name is loaded, its label parses, the manifest is fetched and parses, and the remote triple is newer |
| Plugin.CheckOutcome | src/BGvACC.cpp:374-422 | the conclusion `DoCheck` reaches on each path; `Plugin.UpdateAvailableIff`, `Plugin.MissingCycleNotCompared` and `Plugin.SameVersionUpToDate` state its cases, and `Plugin.Monitor.DoCheck` is proved to reach it |
| Plugin.NoticeFor | src/BGvACC.cpp:377-441 | which outcomes the user sees; `Plugin.QuietUnlessUpdate` states that a quiet check shows only an update, and that an update always alerts |
| Plugin.MissingCycleNotCompared | src/BGvACC.cpp:407-412 | a fetched manifest without `airac_cycle` ends the check as missing fields, with no comparison |
| Plugin.SameVersionUpToDate | src/BGvACC.cpp:416-422 | a manifest announcing exactly the installed triple is up to date |
| Plugin.QuietUnlessUpdate | src/BGvACC.cpp:377-440 | a quiet check shows nothing unless an update is available, and an update alerts whether or not the check is verbose |
| Plugin.WelcomeNoticeFields | src/BGvACC.cpp:177-190 | a body with neither a `title` nor a `message` field shows nothing, and a non-empty title starts the notice |
| Plugin.WelcomeNotice | src/BGvACC.cpp:168-188 | the welcome text for a fetched body; `Plugin.WelcomeNoticeFields` and `Plugin.WelcomeNoticeDefaults` state when it is empty and how its parts are chosen |
| Plugin.WelcomeNoticeDefaults | src/BGvACC.cpp:185-188 | a missing title becomes `BGvACC` and a missing message becomes `Welcome!` |
| Plugin.ReminderInterval | src/BGvACC.cpp:261-262 | the reminder period is at least a minute and at least the configured minutes; it is exactly the configured minutes when those are at least 1 |
| Plugin.SessionTick | src/BGvACC.cpp:245-284 | a tick records the connection type; offline clears the timer and latch without a reminder; online counts one second, from 1 after going online |
| Plugin.SessionTickLatched | src/BGvACC.cpp:257-276 | the latch stays equal to the number of whole intervals online, and the reminder fires exactly when a connected tick completes an interval |
| Plugin.SessionTickAdvances | src/BGvACC.cpp:264-268 | a reminder moves the latch to a later bucket, so no interval fires twice |
| Plugin.ConnectedRun | src/BGvACC.cpp:257-269 | over an unbroken connection the timer counts every tick, and the number of reminders is the number of interval boundaries crossed |
| Plugin.SessionFromOffline | src/BGvACC.cpp:248-269 | a session starting from offline fires `k / interval` reminders in its first `k` connected seconds |
| Plugin.ReminderExample | src/BGvACC.cpp:257-269 | with a one-minute period the 60th and 120th seconds fire and the 61st does not |
| Plugin.ReconnectResets | src/BGvACC.cpp:248-283 | a disconnected tick clears timer and latch, and reconnecting starts again at second 1 without a reminder |
| Plugin.Monitor.constructor | src/BGvACC.cpp:207-221 | the state after loading: no check yet, checks not stopped, no link, connection type -1, timer and latch 0, no welcome shown, first tick pending |
| Plugin.Monitor.DoCheck | src/BGvACC.cpp:374-443 | the outcome is `CheckOutcome`; an update alerts and other outcomes are reported only when verbose; a non-empty sector name stops the periodic checks; the download link changes only when the manifest parses |
| Plugin.Monitor.ShowWelcomeIfAvailable | src/BGvACC.cpp:163-203 | shows `WelcomeNotice` unless already shown, and sets the flag exactly when something is shown |
| Plugin.Monitor.AutoCheck | src/BGvACC.cpp:238-243 | a quiet check runs exactly when checks are not stopped and at least `intervalSec` seconds have passed, and only then moves the last-check counter |
| Plugin.Monitor.TrackSession | src/BGvACC.cpp:245-284 | the session fields and the reminder are those of `SessionTick` |
| Plugin.Monitor.OnTimer | src/BGvACC.cpp:226-285 | the first tick alone shows the welcome, the verbose check and the hint; the quiet check runs when due and not stopped by that first check; the session follows `SessionTick`; the reminder latch stays in step with the timer |

## Left out

- Host API: `GetLoadedSectorName`, `GetConnectionType`, `DisplayUserMessage` and `MessageBoxA` are not modelled. Their inputs are parameters and their outputs are the methods' results. The message flags (unread, flashing, confirmation) and the exact message texts are not modelled. `Notice` only records whether the user saw nothing, a chat line, or the alert.
- `HttpGet`: the WinHTTP transfer and its URL splitting are not modelled. A fetch is its body, with "" for failure. The two fixed URLs play no part.
- `Widen`: the UTF-8 to UTF-16 conversion is used only for WinHTTP, so it is not modelled.
- The command handler `OnCompileCommand` is not modelled. Its update command runs `DoCheck(true)`, which is modelled. The open, status and flavour commands change no field of the plugin. The status command does read the sector name and fetch and parse the manifest, but only to format a message.
- `LocalLabel.ParseLocal`, `Manifest.ParseRemote`: numbers are unbounded. `std::stoi` throws on a value beyond `int`, and `DoCheck` does not catch that; such values are not modelled.
- `Plugin.ReminderInterval`: `m_ReminderMinutes * 60` is computed on unbounded integers. The 32-bit overflow is not modelled, since the value is the constant 120.
- `Plugin.Monitor.ShowWelcomeIfAvailable`: the `try`/`catch` that swallows regex exceptions is not modelled. The fixed patterns cannot throw on a body.
- `Plugin.Monitor.OnTimer`: one `sector` and one `manifestBody` serve both checks of a tick. In the source each `DoCheck` asks the host for the sector name again and fetches the manifest again. The shared outcome in the contract assumes the host returns the same name both times within one tick. Given that, at most one fetch happens per tick: a non-empty name stops the periodic check, and an empty name ends the check before any fetch.
- `Plugin.Monitor.OnTimer`: `m_NextReminderAtSec` and `wentOffline` are computed but never read, so they are left out. The function-local `static bool firstTick` is the field `firstTick`. It is shared across instances in the source, and per instance here, since the plugin is created once.
- `Plugin.ConnectedRun`, `Plugin.SessionFromOffline` assume positive connection types. The sentinel -1 is never reported by the host.
- The parsers' output parameters become `Option` results. On failure the source leaves its output unchanged, and no caller reads it then.
- Plugin loading and unloading (`EuroScopePlugInInit`, `EuroScopePlugInExit`) only create and delete the object; the constructor is modelled.
