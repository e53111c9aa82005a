# Attendance scanner: a verified model

This project models the logic of a React Native app that event staff use to take attendance
by scanning QR codes. The model covers five screens:

- **Scanner** (`scanner.dfy`, over `backend.dfy`). A decoded QR payload is cleaned of
  whitespace. An empty payload is rejected, and scanning re-arms after a delay. Otherwise the
  user confirms or cancels. A confirmed scan reads the registration's `attendance` flag from
  the hosted table and writes `true` only when the flag reads `false`. The `scanned` and
  `cameraOn` flags debounce the camera: no scan handler is attached while a scan is being
  dealt with.
- **Settings** (`settings.dfy`). A four-step wizard (day, session, gate, summary) stores the
  choice as the string `day{d}_{session}_{gate}`. When the screen opens it reads the day and
  the session back from that string.
- **Attendance list** (`list.dfy`). The registrations are fetched, filtered by a
  case-insensitive search over name and registration number, and shown with present rows
  first, each group in name order. A switch flips a registration's flag on the server and
  then locally.
- **Local roster** (`roster.dfy`). A fixed list of registration numbers is shown red or
  green. A scanned number turns the matching student green, and a tap flips the colour.
- **Scan history** (`history.dfy`). The link and scan time the screen was opened with are
  appended once, so links stay unique, and entries can be deleted by position.

`strings.dfy` models the ECMAScript string and number built-ins that these screens rely on:
`\s`, `trim`, `toLowerCase`/`toUpperCase`, `includes`, `replace`, `split` and `parseInt`
(section 19.2.5 of ECMA-262), and how a template literal renders a number.

The hosted table is a class `Backend.Table`. It maps each `qrID` to its `attendance` flag
and keeps a ghost log of the requests made to it. Whether a request meets an error is a
parameter: `Option<ApiError>`, carrying the HTTP status. Local device storage is a ghost
copy of the last value saved. What a storage read returns, and whether a storage call
throws, are also parameters.

In four places the model follows what the code actually does:

- The scanner reports a write error whose status is 406 as a successful marking. The code
  treats 406 as "no error" for the update as well as for the read. `Scanner.Attend` states
  this case: `Marked` is reported whenever the write fault is absent or has status 406.
- An unknown `qrID` makes the `.single()` read answer 406 with no data. The code lets a 406
  through, so the destructuring of the missing data throws, and the user sees an error.
  This is outcome `NoData`.
- The code always reads and writes the fixed column `attendance`. The day/session/gate
  configuration selects no column, and the model adds no such mapping.
- The history's append effect depends on the list itself, so it runs again after every
  change of the list, a delete included. Deleting the entry whose link is the one the
  screen was opened with therefore appends it again at the end, with the route's scan
  time, and saves it: that entry cannot be deleted while those parameters are in place.
  `History.HistoryScreen.HandleDelete` and `History.DeleteRouteLinkReappears` state this.

## Model

| member | source | states |
|---|---|---|
| Strings.StripSpaces | components/Scanner.tsx:30-32 | the result has no whitespace and keeps every other character exactly as often as the input has it; it is empty exactly when the input is all whitespace |
| Strings.StripSpacesAppend | components/Scanner.tsx:30-32 | stripping distributes over concatenation, so the remaining characters keep their order |
| Strings.StripSpacesIdempotent | components/Scanner.tsx:30-32 | cleaning an already cleaned payload changes nothing |
| Strings.TrimStart | components/Settings.tsx:38 | the leading whitespace is dropped and only it: the result is a suffix of the input that does not start with whitespace, and what was dropped is all whitespace |
| Strings.TrimPieces | app/attendance/index.tsx:41 | dropping the leading and then the trailing whitespace leaves the piece with only whitespace around it, with no whitespace at either end |
| Strings.TrimKeepsClean | app/attendance/index.tsx:41 | a string without whitespace is trimmed to itself |
| Strings.Trim | app/attendance/index.tsx:41 | the result is a contiguous piece of the input with only whitespace around it, and it neither starts nor ends with whitespace |
| Strings.TrimmedUnique | app/attendance/index.tsx:41 | at most one piece of a string has only whitespace around it and whitespace at neither end, so that description fixes the trimmed result |
| Strings.TrimPadded | app/attendance/index.tsx:41 | a core with no whitespace at its ends, padded with whitespace on both sides, trims to the core |
| Strings.Lower | components/List.tsx:100-101 | lower-casing keeps the length, turns each upper-case ASCII letter into its lower-case partner, leaves no upper-case letter and keeps every other character |
| Strings.Upper | app/attendance/index.tsx:41-44 | upper-casing keeps the length, turns each lower-case ASCII letter into its upper-case partner, leaves no lower-case letter and keeps every other character |
| Strings.LowerUpper | components/List.tsx:100-101 | lower-casing forgets any earlier upper-casing, so lower-cased comparisons ignore case |
| Strings.IndexOf | components/List.tsx:100-101 | returns -1 exactly when the pattern occurs nowhere; otherwise the pattern occurs at the result and at no earlier index |
| Strings.Includes | components/List.tsx:100-101 | true exactly when some window of the string spells the query; the empty query is always included |
| Strings.RemoveFirst | components/Settings.tsx:38 | a string without the pattern is unchanged, and a pattern at the very start is cut off and the rest kept |
| Strings.RemoveFirstAt | components/Settings.tsx:38 | wherever the first occurrence lies, exactly that occurrence is removed and the text before and after it is kept in order |
| Strings.Split | components/Settings.tsx:37 | at least one piece, no piece holds the separator, and there is exactly one piece when the string has no separator |
| Strings.JoinSplit | components/Settings.tsx:37 | joining the pieces with the separator gives the string back |
| Strings.SplitAtFirst | components/Settings.tsx:37-39 | the first piece is everything before the first separator, and the rest are the pieces of what follows |
| Strings.SplitWhole | components/Settings.tsx:37-39 | a string without the separator splits into itself alone |
| Strings.SplitThree | components/Settings.tsx:37-39 | in pieces joined by the separator, each separator-free leading piece comes off whole |
| Strings.NatToString | components/Settings.tsx:56 | a non-empty run of decimal digits with no leading zero |
| Strings.NumberToString | components/Settings.tsx:56 | a rendered number holds no underscore; an integer renders with a leading minus exactly when it is negative, and decimal digits after it |
| Strings.DigitPrefix | components/Settings.tsx:38 | the longest prefix made of digits of the radix |
| Strings.ParseInt | components/Settings.tsx:38 | a string with no decimal digit parses to NaN |
| Strings.ParseDigits | components/Settings.tsx:38 | a string with no decimal digit reads as NaN (the values read are stated by the two lemmas below) |
| Strings.ParseDigitsOfNumeral | components/Settings.tsx:38 | a decimal numeral reads as the number it denotes, negated when a minus sign preceded it |
| Strings.ParseDigitsOfHex | components/Settings.tsx:38 | after a `0x` prefix the digits are read in base 16, and an empty run reads as NaN |
| Strings.ParseIntOfNumeral | components/Settings.tsx:38 | a decimal numeral, with or without a minus sign, parses to the number it denotes |
| Strings.ParseIntOfNumberToString | components/Settings.tsx:38 | parseInt inverts the template-literal rendering of every integer and of NaN |
| Backend.ReadSingle | components/Scanner.tsx:77-81 | a `.single()` read returns a row exactly when there is no fault and the qrID is stored, with the stored flag; a fault is returned as it is, and a missing row gives a 406 error |
| Backend.Written | components/Scanner.tsx:88-91 | an update keeps the set of qrIDs and every other registration; it sets the flag when there is no fault and the row exists, and a fault leaves the table unchanged |
| Backend.Table.Select | components/Scanner.tsx:77-81 | the reply is the row's flag, the fault, or a 406 error for an unknown qrID; the read is logged and the table is unchanged |
| Backend.Table.Update | components/Scanner.tsx:88-91 | the flag is set only when there is no fault and the row exists; the error is returned and the write is logged |
| Backend.Table.SelectEvery | components/List.tsx:35-37 | the read of every registration is logged, and the table is unchanged |
| Scanner.ScanIntake | components/Scanner.tsx:34-65 | a payload that is all whitespace is rejected; any other payload is offered as a non-empty identifier: the payload with its whitespace removed and every other character kept, in order |
| Scanner.Attend | components/Scanner.tsx:74-110 | one read, then one write exactly when the stored flag was false; "already present" exactly when it was true; only that registration can change, and only to true; a non-406 read error is reported as it is; a 406 read error and an unknown qrID write nothing and end in the missing-data error; after a write, a non-406 write error is reported and otherwise, a 406 write error included, the scan is reported as marked |
| Scanner.AttendTwice | components/Scanner.tsx:83-100 | a second scan of a marked registration reports "already present" and changes nothing |
| Scanner.Scanner.constructor | components/Scanner.tsx:15-23 | the lifted flags start as handed down, and the scanner is not loading |
| Scanner.Scanner.HandleBarCodeScanned | components/Scanner.tsx:34-38 | every scan stops scanning and turns the camera off, whatever the payload, and yields the decision of ScanIntake |
| Scanner.Scanner.HandlerAttached | components/Scanner.tsx:124-130 | a scan handler is attached only while the camera is on and no scan is pending |
| Scanner.Scanner.OnBarcodeScanned | components/Scanner.tsx:124-132 | a code reaches the handler only while the camera is on and no scan is pending; otherwise nothing changes |
| Scanner.Scanner.ReArm | components/Scanner.tsx:59-63 | after the delay, scanning is armed again |
| Scanner.Scanner.HandleCancel | components/Scanner.tsx:67-72 | cancelling arms scanning again without touching the backend |
| Scanner.Scanner.GiveAttendance | components/Scanner.tsx:74-110 | the backend ends as Attend says, with exactly its requests logged and its outcome reported; loading ends and scanning is re-armed in every case |
| Scanner.Scanner.ToggleCamera | components/Scanner.tsx:112-115 | the camera flips and the scan flag clears |
| Scanner.Scanner.ToggleTorch | components/Scanner.tsx:117-119 | the torch flips |
| Scanner.ScanCycle | components/Scanner.tsx:34-110 | one scan from an armed scanner ends armed again; the backend is asked something only when a valid code is confirmed, and then exactly as Attend says |
| Settings.Select | components/Settings.tsx:68 | the chosen value is set on the named key, and the other two keys keep their values |
| Settings.ConfigString | components/Settings.tsx:56 | the string starts with `day`; its first `_`-separated piece is `day` and the rendered day, its second is the session whenever the session holds no `_`, and when neither session nor gate holds a `_` its pieces are exactly day, session and gate |
| Settings.StaleGateSaved | components/Settings.tsx:53-74 | encoding the selections from before the gate tap, as the code does, stores the gate `null` on the first pass, which differs from the string with the chosen gate |
| Settings.ParseConfig | components/Settings.tsx:37-39 | the session is undefined exactly when the string has no underscore, and a recovered session holds no underscore |
| Settings.ConfigRoundTrip | components/Settings.tsx:37-56 | reading back a saved configuration gives the saved day and session, whatever the gate, when the session holds no underscore |
| Settings.OfferedConfigRoundTrip | components/Settings.tsx:12-14 | the round trip holds for every day, session and gate the wizard offers |
| Settings.ProgressDots | components/Settings.tsx:201-206 | one dot for each step before the summary, lit exactly when that step has been reached |
| Settings.LitDots | components/Settings.tsx:201-206 | the first step lights one dot, each later step lights one more, and the summary lights all three |
| Settings.SettingsScreen.constructor | components/Settings.tsx:17-25 | the wizard starts on the day step with nothing selected, loading, and not saving |
| Settings.SettingsScreen.LoadStoredSettings | components/Settings.tsx:31-51 | a non-empty stored string restores the parsed day and session and keeps the gate; a missing or empty string, or a failed read, changes nothing; loading ends in every case |
| Settings.SettingsScreen.SaveSettings | components/Settings.tsx:53-65 | a successful save stores and returns the encoded selections and moves to the summary; a failed save keeps the step; saving ends in every case |
| Settings.SettingsScreen.HandleSelection | components/Settings.tsx:67-74 | only the named key changes; below the gate step the wizard advances by exactly one step; at the gate it stores `ConfigString` of the selections including the choice just made (the corrected encoding) and moves to the summary, and a failed write changes neither |
| Settings.SettingsScreen.Back | components/Settings.tsx:212-220 | offered on every step but the summary; one step back, never before the first step |
| Settings.SettingsScreen.Edit | components/Settings.tsx:164 | back to the first step |
| Settings.Walkthrough | components/Settings.tsx:67-74 | three choices from the first step reach the summary, store their encoding, and read back as the day and session chosen |
| AttendanceList.Matches | components/List.tsx:99-101 | a row matches exactly when the lower-cased query occurs in its lower-cased name or registration number; the empty query matches every row |
| AttendanceList.MatchesIgnoresCase | components/List.tsx:99-101 | the search finds the same rows whether the query is typed in capitals or not |
| AttendanceList.FilterRows | components/List.tsx:98-102 | each row is kept exactly when it matches the query, as often as it occurs, and no other row is kept |
| AttendanceList.FilterEmptyQuery | components/List.tsx:98-102 | the empty search keeps every row, in order |
| AttendanceList.NameLe | components/List.tsx:105 | a name comes no later than any name it is a prefix of, and always after a proper prefix of itself |
| AttendanceList.RowLe | components/List.tsx:103-108 | a present row comes before an absent one, and rows with the same attendance compare by name |
| AttendanceList.NameLeTotal | components/List.tsx:105 | any two names are comparable |
| AttendanceList.NameLeTransitive | components/List.tsx:105 | the name order is transitive |
| AttendanceList.RowLeTotal | components/List.tsx:103-108 | the comparator orders any two rows |
| AttendanceList.RowLeTransitive | components/List.tsx:103-108 | the comparator is transitive |
| AttendanceList.Insert | components/List.tsx:103-108 | inserting adds exactly the one row |
| AttendanceList.InsertSorted | components/List.tsx:103-108 | inserting into a sorted list keeps it sorted |
| AttendanceList.SortRows | components/List.tsx:103-108 | the sort is a permutation of its input |
| AttendanceList.SortRowsSorted | components/List.tsx:103-108 | the sort's output is sorted by the comparator |
| AttendanceList.View | components/List.tsx:97-109 | exactly the matching rows, each as often as in the data; every present row comes before every absent one, and rows with the same attendance are in name order |
| AttendanceList.Find | components/List.tsx:58 | nothing exactly when no row has the qrID; otherwise the first row that has it |
| AttendanceList.SetAttendance | components/List.tsx:76-80 | the rows with the qrID take the new value; no other row and no other field changes |
| AttendanceList.ToggleTwice | components/List.tsx:56-91 | flipping a registration twice restores the list when its rows agree on the flag |
| AttendanceList.AttendanceList.constructor | components/List.tsx:28-30 | not loading, no rows, empty search |
| AttendanceList.AttendanceList.FetchData | components/List.tsx:32-54 | the rows are replaced only by a successful read; the read is logged and loading ends |
| AttendanceList.AttendanceList.ToggleAttendance | components/List.tsx:56-91 | an unknown qrID does nothing at all; otherwise the negated flag is written, set locally only if the write succeeded, and the list is fetched again in every case |
| Roster.InitialRoster | app/attendance/index.tsx:12-17 | four students, all red, with distinct upper-cased registration numbers |
| Roster.Normalize | app/attendance/index.tsx:41 | the key is no longer than the scanned value and holds no lower-case letter; a value without whitespace normalizes to its upper-case form |
| Roster.NormalizePadded | app/attendance/index.tsx:40-45 | a scan made of whitespace, a core with no whitespace at its ends, and whitespace is compared as the upper-cased core |
| Roster.FindIndex | app/attendance/index.tsx:43-45 | -1 exactly when no registration number matches the key; otherwise the first index that matches |
| Roster.FindIndexIgnoresColor | app/attendance/index.tsx:43-45 | recolouring students does not change the search |
| Roster.ScanKey | app/attendance/index.tsx:47-62 | no match exactly when the search finds nothing; "already marked" exactly when the match is green; otherwise only the match turns green, and in every other case the roster is unchanged |
| Roster.Paint | app/attendance/index.tsx:51-53 | only the student at the index takes the colour, and every other student is kept |
| Roster.ScanRoster | app/attendance/index.tsx:40-63 | the roster keeps its length and registration numbers; the scan reports no match exactly when no upper-cased registration number equals the trimmed, upper-cased scan; anything but a marking leaves the roster unchanged |
| Roster.ScanTwice | app/attendance/index.tsx:40-63 | scanning the same number twice leaves the roster as scanning it once |
| Roster.ScanKeyTwice | app/attendance/index.tsx:47-62 | the second scan of a number changes nothing and reports "already marked", or "no match" when the number is not listed |
| Roster.Flip | app/attendance/index.tsx:67 | red turns green, and every other colour turns red |
| Roster.Toggled | app/attendance/index.tsx:65-68 | only the tapped student changes, and only its colour |
| Roster.ToggleTwice | app/attendance/index.tsx:65-71 | tapping a red or green student twice restores the roster |
| Roster.AttendanceScreen.constructor | app/attendance/index.tsx:12-17 | the screen starts with the fixed roster and nothing saved |
| Roster.AttendanceScreen.LoadAttendance | app/attendance/index.tsx:19-32 | a stored roster replaces the current one; otherwise it stays |
| Roster.AttendanceScreen.HandleQrScan | app/attendance/index.tsx:40-63 | the roster and notice are those of ScanRoster, and the roster is saved exactly when a student was marked |
| Roster.AttendanceScreen.ToggleAttendance | app/attendance/index.tsx:65-71 | the tapped colour flips, and the new roster is saved |
| History.HasLink | app/history/index.tsx:45 | true exactly when some entry has the link |
| History.Record | app/history/index.tsx:44-50 | the entry is appended exactly when both parameters are non-empty and its link is not listed; otherwise the list is unchanged |
| History.RecordKeepsUnique | app/history/index.tsx:44-50 | appending keeps links unique |
| History.RecordIdempotent | app/history/index.tsx:44-50 | re-running the effect on its own result with the same parameters changes nothing |
| History.RemoveAt | app/history/index.tsx:52-53 | the entry at the position is removed and the others keep their order; a position outside the list removes nothing |
| History.RemoveAtKeepsUnique | app/history/index.tsx:52-53 | deleting keeps links unique |
| History.DeleteRouteLinkReappears | app/history/index.tsx:44-56 | in a list with unique links, deleting the entry whose link is the route's link is followed by the effect appending that link again at the end, with the route's scan time, so the list keeps its length |
| History.HistoryScreen.constructor | app/history/index.tsx:17-18 | the list starts empty with nothing saved, and the route parameters are kept |
| History.HistoryScreen.RunEffect | app/history/index.tsx:44-50 | the list becomes Record's result with the route parameters, and it is saved exactly when it changed |
| History.HistoryScreen.LoadQrData | app/history/index.tsx:21-30 | a stored list replaces the current one and the effect runs on it; with nothing stored the list and the saved copy stay |
| History.HistoryScreen.OnScanParams | app/history/index.tsx:44-50 | the route parameters are replaced, the list becomes Record's result with them, and it is saved exactly when it changed |
| History.HistoryScreen.HandleDelete | app/history/index.tsx:44-56 | the list without that entry is saved, and the effect then runs on it with the route parameters, so the result is Record of the shortened list, and it is saved |

## Left out

- Rendering, styling, alerts and toasts are left out because they are visual. The scanner's and the roster's alerts and toasts that report an outcome become outcome values (`Scanner.Outcome`, `Roster.ScanNotice`).
- AttendanceList.AttendanceList.FetchData and AttendanceList.AttendanceList.ToggleAttendance: the list's alerts and toasts (fetched, failed, updated, unexpected error) are left out, and these methods return no outcome value. Only their effect on the data is modelled.
- Camera hardware, torch hardware and QR decoding are left out because the platform owns them. A decoded payload is the input.
- The 3000 ms timer after an invalid scan is left out because the model has no clock. Its callback is `Scanner.Scanner.ReArm`.
- The backend client, the network and authentication (lib/supabase.ts) are not part of this model. A request's outcome is the `Option<ApiError>` parameter.
- An exception thrown by the client itself, as opposed to an error it returns, is not modelled separately. It leaves the modelled state as the corresponding returned error does, but the code handles it in a different branch. For the scanner's write, a returned error is alerted at components/Scanner.tsx:92-93 and a thrown one is caught at :102-104. For the list's toggle, a returned error is handled at components/List.tsx:70-73 and a thrown one at :83-86, with a different message. For the list's fetch, a returned error is handled at :39-42 and a thrown one at :47-50.
- Scanner.Attend: a stored `attendance` of `null` is not modelled. The table holds booleans, so the branch that does nothing for a flag that is neither true nor false is not represented.
- Scanner.Attend: races between two devices marking the same registration are not modelled. Each call sees one consistent table.
- AttendanceList.AttendanceList.FetchData: the names and registration numbers are not part of the modelled table, so the full-table reply is a parameter and is not derived from `Backend.Table.rows`.
- AttendanceList.NameLe: `localeCompare` is modelled as code-point lexicographic order. Locale collation is not modelled.
- AttendanceList.SortRows: the sort is an insertion sort specified by its result. The engine's sort algorithm is not modelled, and its stability is not stated.
- Strings.Lower and Strings.Upper map ASCII letters only. Unicode case mapping is not modelled.
- Strings.ParseInt: numbers are unbounded integers. Float precision for long numerals, `-0`, and `Infinity` are not modelled.
- Settings.SettingsScreen.HandleSelection: the encoder sees the selection just made. In the code, `saveSettings` always reads the selections of the render in which the gate was tapped, so it stores the previous gate: on the first pass that is `day{d}_{session}_null`. The model follows the evidently intended encoding; see "## Findings" and `Settings.StaleGateSaved`. React's state scheduling is not modelled.
- Settings.SettingsScreen.HandleSelection: any key/value pair is not modelled. Selections are typed, so a day is a number and a session or gate is a string.
- Local storage and JSON encoding are not modelled. A read is its parsed result (an `Option`), and a write is recorded in a ghost field (`saved`) or returned (`SaveSettings`). A failed roster or history save is only logged by the code, so it does not change the modelled state.
- History.HistoryScreen.OnScanParams: an array-valued route parameter is not modelled. Parameters are strings or absent.
- Roster.AttendanceScreen.HandleQrScan: the race between the load effect and the scan effect, which both run when the screen opens, is not modelled. A late load can overwrite a student just marked. An array-valued `qrLink`, on which `trim()` throws, is not modelled either: the scanned value is a string.
- History.HistoryScreen.OnScanParams: the race between the initial load and the first append is not modelled. The effects run one at a time.
- Opening a history link (`handleOpenLink`), navigation, the tab layout, the developer and options screens, App.tsx and app/index.tsx are left out because they are navigation and I/O with no logic of their own.

## Findings

| source | as written | input that shows it | evidently intended | confidence | as-written member | corrected member |
|---|---|---|---|---|---|---|
| components/Settings.tsx:53-74 | the gate tap calls `saveSettings` from the same render, so the stored string encodes the selections from before the tap | a first pass choosing day 1, session `fn`, gate `in` stores `day1_fn_null` | store the gate just chosen, `day1_fn_in`, the gate the summary lists next to the stored string | high, not executed | Settings.StaleGateSaved | Settings.SettingsScreen.HandleSelection |
