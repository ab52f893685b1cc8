# area-code-counter, modelled in Dafny

The area-code counter reads a text file of raw telephone numbers, one per line. It
normalises them through six stages, classifies each one by its area code (longest listed
prefix, with three-character numbers as their own code), counts the numbers per area code
and writes the counts as sorted `code:count` lines to an output file.

This project models that core:

- `Common`: `Option`, `Result` and the error kinds of the run.
- `Seqs`: `Array.prototype.filter` and `map` as `Keep` and `Apply`, with their algebra.
- `Text`: the JavaScript string operations the code relies on:
  - `substring` clamping and swapping its indexes;
  - `charAt`;
  - `trim` with the ECMAScript white-space set;
  - `indexOf`, and `replace` with a string pattern;
  - `split` on one character, and `join`;
  - decimal numerals;
  - the relational order `<` on strings.
- `Constants`: the shared constants of util/constants.js.
- `Dto`: `NumberDto.build`, the prefix classifier, as written and as intended.
- `FileService`:
  - path joining;
  - the path checks;
  - reading a file as lines;
  - `writeOnFile`, as an imperative method. It builds the lines in a loop, sorts them in place in an array, then writes them in a loop.
- `AreaCodeService`:
  - the six stages and their chain;
  - `groupByAreaCode`, modelled as a lodash `countBy` into a `map<string, nat>`;
  - the whole run, from an input path to the report text.

The file system is a parameter, a map from full paths to files and directories. The
working directory is a parameter too. The list of known area codes is passed in as a
sequence of strings.

Two facts about the code shape the model:

- The first stage drops an item that starts with `+00`. It accepts an item starting
  with `+` only when characters 1..2 are not `00`
  (services/area-code/area-code.service.js:150-151), so the plus and double-zero stages
  never see such an item (`AreaCodeService.DoubleZeroAfterPlusDropped`). An item written
  `+0 0...` passes the first stage. Once its blank is removed, the later stages reduce
  it to the number after the zeros (`AreaCodeService.BlankHidesDoubleZero`).
- `NumberDto.build` splits a number after its area code (dto/number.dto.js:43). The
  index constants mix 0-based and 1-based counting: FIRST_ITEM = 0 and SECOND_ITEM = 1,
  but THIRD_ITEM = 3 and FOURTH_ITEM = 4 (util/constants.js:17-21). So after a two- or
  three-character code one character is skipped (see Findings). The model keeps the
  code's split, and it proves that the counts do not depend on it.

## Model

| member | source | states |
|---|---|---|
| Dto.Build | dto/number.dto.js:38-71 | valid exactly when the number has three characters or one of its 3-, 2- or 1-character prefixes is listed; valid exactly when there is an area code; an invalid record keeps the whole input as its number |
| Dto.BuildShortCode | dto/number.dto.js:40-42 | a three-character number is valid and its own area code, with an empty number part, whatever the list |
| Dto.BuildLongestListedPrefix | dto/number.dto.js:43-66 | for other lengths the area code is the longest listed prefix of at most three characters: no longer prefix is listed |
| Dto.BuildNoListedPrefix | dto/number.dto.js:67-70 | with no listed prefix (and length not three) the record is invalid, has no area code and keeps the whole input |
| Dto.BuildAreaCodeIsPrefix | dto/number.dto.js:40-66 | a valid record's area code is a prefix of the input, of at most three characters, and not empty for a non-empty input |
| Dto.BuildSplit | dto/number.dto.js:45-65 | for a number longer than three characters: after a one-character code the area code followed by the number is the input; after a two- or three-character code exactly one character is in neither part |
| Dto.BuildMembershipOnly | dto/number.dto.js:44-60 | lists with the same members classify every number alike, so reordering the list changes nothing |
| Dto.BuildIntended | dto/number.dto.js:44-57 | the corrected split has the same area code and validity as `Build`, and the area code followed by the number is the input |
| Dto.BuildSkipsDigitExample | dto/number.dto.js:45-49 | with "351" listed, "351961111111" gets the number part "61111111", so area code and number do not rebuild the input; the intended split gives "961111111" |
| AreaCodeService.NonEmpty | services/area-code/area-code.service.js:161-165 | a stage succeeds exactly when its result is not empty, and fails naming the stage otherwise |
| AreaCodeService.HasValidInitialMeans | services/area-code/area-code.service.js:141-156 | an item passes the initial-character test exactly when it starts with a digit, or with '+' and a digit where characters 1..2 are not "00" |
| AreaCodeService.CheckInitialChars | services/area-code/area-code.service.js:131-166 | succeeds exactly when some item has valid initials; keeps those items in order; fails at this stage otherwise |
| AreaCodeService.RemoveBlanks | services/area-code/area-code.service.js:184-193 | removing tabs, then splitting on spaces and joining with nothing, deletes every tab and every space and keeps the other characters in order |
| AreaCodeService.RemoveBlankSpaces | services/area-code/area-code.service.js:174-203 | succeeds exactly on a non-empty batch; same length and order, each item without blanks |
| AreaCodeService.RemovePlus | services/area-code/area-code.service.js:221-226 | an item starting with '+' loses exactly that '+'; any other item is unchanged |
| AreaCodeService.RemovePlusSignal | services/area-code/area-code.service.js:211-236 | succeeds exactly on a non-empty batch; same length and order, each item without its leading '+' |
| AreaCodeService.RemoveZeros | services/area-code/area-code.service.js:254-259 | an item starting with "00" loses exactly one leading "00" (so "0000x" becomes "00x"); any other item is unchanged |
| AreaCodeService.RemoveZerosAtLeft | services/area-code/area-code.service.js:244-269 | succeeds exactly on a non-empty batch; same length and order, each item without one leading "00" |
| AreaCodeService.CheckOnlyNumbers | services/area-code/area-code.service.js:307-330 | succeeds exactly when some item is one or more ASCII digits; keeps those items in order |
| AreaCodeService.HasValidLengthMeans | services/area-code/area-code.service.js:287-289 | an item has an accepted length exactly when it has 3 or 7 to 12 characters |
| AreaCodeService.CheckNumberOfChars | services/area-code/area-code.service.js:277-299 | succeeds exactly when some item has an accepted length; keeps those items in order |
| AreaCodeService.Then | services/area-code/area-code.service.js:104-116 | a `.then` step: a failure skips the stage and is passed on unchanged; a success gives its batch to the stage |
| AreaCodeService.Normalize | services/area-code/area-code.service.js:100-122 | on success the batch is not empty and every item is digits only and of an accepted length; a failure comes from one of the three filter stages, never from a map stage |
| AreaCodeService.NormalizeIsFilterMapFilter | services/area-code/area-code.service.js:100-122 | the chain equals one filter (valid initials), one map (blanks, then '+', then "00") and one filter (accepted), failing at the first filter stage left with nothing |
| AreaCodeService.NormalizeMembers | services/area-code/area-code.service.js:100-122 | an item is in a successful output exactly when it is accepted and some input line with valid initials cleans to it |
| AreaCodeService.ReadAndValidateInputPath | services/area-code/area-code.service.js:89-123 | a missing or empty path fails first; a read failure is passed on; otherwise the result is the chain on the file's lines, digits only and of accepted lengths |
| AreaCodeService.ReadChainAsWritten | services/area-code/area-code.service.js:100-122 | reading and then running the six-stage chain gives the same result as chaining each stage directly onto the read |
| AreaCodeService.DoubleZeroAfterPlusDropped | services/area-code/area-code.service.js:145-152 | every item "+00..." fails the first stage, and a batch of only such an item fails there |
| AreaCodeService.BlankHidesDoubleZero | services/area-code/area-code.service.js:104-114 | "+0 0" followed by an accepted number passes the chain and comes out as that number |
| AreaCodeService.PlusBeforeZeros | services/area-code/area-code.service.js:106-110 | on "+00" followed by d, removing '+' then "00" gives d, while the other order gives "00" followed by d |
| AreaCodeService.CountBy | services/area-code/area-code.service.js:80 | the keys are exactly the distinct keys counted, each with its number of occurrences |
| AreaCodeService.CountByTotal | services/area-code/area-code.service.js:80 | the counts of countBy add up to the number of keys counted |
| AreaCodeService.CountAreaCodesCounts | services/area-code/area-code.service.js:75-80 | each area code is counted as many times as items build to a record with that area code |
| AreaCodeService.GroupByAreaCode | services/area-code/area-code.service.js:56-81 | fails exactly on an empty batch; otherwise a key exactly for each area code some item builds to, with the number of such items; invalid items add no key |
| AreaCodeService.GroupTotal | services/area-code/area-code.service.js:79-80 | the counts add up to the number of valid items |
| AreaCodeService.GroupMembershipOnly | services/area-code/area-code.service.js:66-75 | area-code lists with the same members give the same grouping, so sort().reverse() has no effect |
| AreaCodeService.GroupIntendedSame | services/area-code/area-code.service.js:75-80 | grouping with the corrected split gives exactly the same counts |
| AreaCodeService.GroupKeysArePlain | services/area-code/area-code.service.js:41-45 | every key grouped from normalised numbers is digits only, so it holds no ':' or white space |
| AreaCodeService.CountNumbersByAreaCode | services/area-code/area-code.service.js:35-48 | fails exactly when reading and normalising fails, with that error; otherwise returns the text written, which is a sorted report of the grouping and reads back as its lines when some number had an area code |
| FileService.GetFullPath | services/file/file.service.js:204-206 | the working directory, then one '/', then the path without its leading '/' if it had one |
| FileService.GetFullPathJoin | services/file/file.service.js:204-206 | for a working directory not ending in '/', the join adds no "//" (two separators there only when the path began with "//"), and the full path is longer than the path |
| FileService.GetFullPathLeadingSlash | services/file/file.service.js:204-206 | a path with or without one leading '/' names the same full path |
| FileService.CheckIfPathExists | services/file/file.service.js:182-197 | a missing or empty path fails before the file system is looked at; otherwise it builds the same full path as getFullPath and returns what is there, or fails with not found |
| FileService.ValidatePath | services/file/file.service.js:34-62 | a missing or empty path fails; succeeds with the path exactly when something exists at its full path |
| FileService.Lines | services/file/file.service.js:84 | never an empty list; no line holds '\n'; joining the lines with '\n' gives the trimmed content |
| FileService.LinesOfJoin | services/file/file.service.js:84 | lines without '\n', joined with no white space at either end, read back as themselves |
| FileService.ReadFile | services/file/file.service.js:70-85 | fails on a `null` or empty path, on a path with nothing there, and on a directory; otherwise returns the file's content as lines |
| FileService.FormatLine | services/file/file.service.js:118 | a report line is the key, then ':', then a numeral of digits only that parses back to the count |
| FileService.ParseFormatLine | services/file/file.service.js:118 | splitting a `key:value` line on ':' gives back the key and the numeral of the count, when the key holds no ':' |
| FileService.FormatLineInjective | services/file/file.service.js:118 | different keys or counts give different lines |
| FileService.ReportOneLinePerKey | services/file/file.service.js:115-119 | a report has exactly one line per key and no other line |
| FileService.ReportUnique | services/file/file.service.js:115-125 | the sorted report of a map is unique, so the order in which the keys are visited does not matter |
| FileService.ReportReadBack | services/file/file.service.js:115-131 | the written report of a non-empty map with plain keys reads back as its lines; each line splits into a key of the map and the numeral of its count; every key is read back |
| FileService.SortByKey | services/file/file.service.js:122-125 | the array ends sorted ascending by the text before ':' and is a permutation of the lines it held |
| FileService.FormatEntries | services/file/file.service.js:115-119 | the lines built are exactly one `key:value` line per key, in any order |
| FileService.Terminated | services/file/file.service.js:128-131 | writing each line followed by '\n' gives the lines joined by '\n' with one final '\n', and nothing for no lines |
| FileService.WriteLines | services/file/file.service.js:128-131 | the text written is each line in order, each followed by '\n' |
| FileService.WriteOnFile | services/file/file.service.js:93-141 | fails exactly on a missing object; otherwise writes a sorted report of the map, each line followed by '\n' |
| Text.Substring | dto/number.dto.js:44 | for indexes 0 <= start <= end, the characters from start to end, both clamped to the length |
| Text.IndexOf | services/area-code/area-code.service.js:256 | the first occurrence of the pattern, or -1 when there is none; 0 exactly when the string starts with it |
| Text.ReplaceFirst | services/area-code/area-code.service.js:257 | removes the first occurrence of the pattern and nothing else |
| Text.CharAt | services/area-code/area-code.service.js:149 | charAt: the one-character string at an index inside the string, the empty string outside it |
| Text.Join | services/area-code/area-code.service.js:191 | a join of at least one part starts with the first part; splitting undoes it (Text.SplitJoin) |
| Text.Trim | services/file/file.service.js:84 | the input with its leading and trailing white space removed and nothing else: only white space before and after the result, none at the result's ends; a string without white space at its ends is unchanged |
| Text.Split | services/file/file.service.js:84 | at least one piece; no piece holds the separator; joining the pieces with it gives the input |
| Text.SplitJoin | services/file/file.service.js:84 | splitting undoes joining when no part holds the separator |
| Text.JoinSplitDeletes | services/area-code/area-code.service.js:190-191 | split on a character, then joined with nothing, deletes every occurrence of that character and keeps the rest in order |
| Text.NatToString | services/file/file.service.js:118 | the decimal numeral of a count: digits only, no leading zero, and it parses back to the count |
| Text.BelowIsLexicographic | services/file/file.service.js:123-124 | the string comparison used by the sort is the lexicographic order: a proper prefix comes first, otherwise the first differing character decides |
| Text.BelowTotal | services/file/file.service.js:123-124 | two different strings are ordered one way or the other |
| Text.BelowTransitive | services/file/file.service.js:123-124 | the string order is transitive |
| Text.AtMostAntisymmetric | services/file/file.service.js:123-124 | two strings each at most the other are equal |
| Seqs.Apply | services/area-code/area-code.service.js:184-193 | map: same length, and each item is the function applied to the input item at the same place |
| Seqs.Keep | services/area-code/area-code.service.js:141 | the kept items all pass and come from the input, and every passing input item is kept |
| Seqs.KeepKeep | services/area-code/area-code.service.js:112-114 | two filters in a row are one filter by both tests |
| Seqs.KeepApply | services/area-code/area-code.service.js:75-80 | filtering after a map is mapping after filtering by the composed test |

## Left out

- File-system effects are not modelled. This covers `fs.stat`, `fs.access`, `readFileSync`, the write stream and `removeOutputIfExists` with its `unlink`. The file system is a map from full paths to contents, and the output is the text that would be written.
- The working directory (`process.cwd()`) and the configured paths are parameters. The environment configuration is not part of this model.
- Promises, async sequencing and all logging calls are left out. The chain is plain function composition: `Then` passes a failure on.
- app.js (command-line parsing) and the config files are not part of this model.
- Dynamic typing is not modelled. Every item is a string. A `null` or non-string path is `None`, and a `null` report object is `None`. Numbers, booleans and arrays passed where strings or objects are expected are not modelled.
- The `.catch(e => { throw new Error(e) })` wrapper is not modelled. It re-wraps the message; the model passes the error kind on unchanged.
- The area-code data file is not read. Its lines are the `areaCodes` parameter. Its `sort().reverse()` is not modelled, because classification only asks which strings are members (`AreaCodeService.GroupMembershipOnly`).
- FileService.ReadFile: only an explicit `null` (modelled as `None`) or `''` fails. Called with no argument, the source reads the area-code data file by default; the model takes that file's lines as the `areaCodes` parameter instead.
- FileService.ValidatePath: read and write permissions are not modelled, so it never fails with "no access".
- FileService.WriteOnFile:
  - The order in which `forOwn` visits the keys is left open. `ReportUnique` shows that the result does not depend on it.
  - The sort comparator returns a boolean instead of a number. In V8's TimSort (Node 11 and later) a comparator that never returns a negative number leaves the array as it was. The lines then come out in `forOwn` order, which for integer-like keys is numeric order ("35" before "112"), not string order. The model sorts ascending by key as strings, the order the comment at services/file/file.service.js:121 asks for ("alphabetically by area code").
  - Failures of the output-directory check and of the removal of an old output file are not modelled.
- AreaCodeService.CountNumbersByAreaCode: returns the text written to the output file instead of the fixed success message.
- Dto.Build and AreaCodeService.GroupByAreaCode: a Dafny string is a sequence of Unicode code points, while JavaScript's `length`, `substring` and `charAt` count UTF-16 code units. For text outside the Basic Multilingual Plane the results differ. For example, "a😀" has JavaScript length 3, so the source classifies it as its own area code, while the model gives it length 2 and an invalid record. A full run only passes strings of ASCII digits to them, and there the two agree.
- Text.Below compares Unicode code points. JavaScript compares UTF-16 code units, so the two orders differ only for characters outside the Basic Multilingual Plane.
- Decoding the file's bytes as UTF-8 (`toString()`) is not modelled. File contents are strings.

## Findings

| source | as written | input that shows it | evidently intended | confidence | as-written member | corrected member |
|---|---|---|---|---|---|---|
| dto/number.dto.js:44-57 | the number part starts at FOURTH_ITEM = 4 after a three-character code and at THIRD_ITEM = 3 after a two-character one (util/constants.js:20-21), so one character after the code is lost | area codes ["351"], number "351961111111": area code "351", number part "61111111" | the number part is the whole rest, "961111111", so area code and number rebuild the input | high, not executed | Dto.BuildSkipsDigitExample | Dto.BuildIntended |

The number part never reaches the report: `AreaCodeService.GroupIntendedSame` proves that grouping gives the same counts with either split. The grouping therefore uses the split as written.
