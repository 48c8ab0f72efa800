# Control-network passes of the lunar co-registration pipeline, in Dafny

The pipeline co-registers lunar images with ISIS and then post-processes the
control networks it produces. The networks are PVL text: `Object = ControlPoint`
blocks that hold `Group = ControlMeasure` blocks of `key = value` lines.
This project models the text-processing core of that work and proves what it
does:

- **`pvl.py`**: the line scanner (`all_substrings_in`, `read_till`) and the block
  codec (`pvlgroup_to_dict`, `clean_pvldict`, `update_pvlgroup`).
- **`pvl.py`**: the three passes over a network.
  - `filter_coreg_result` marks the control points whose measures match a
    flagged statistics row.
  - `translate_coreg_res` moves measures back onto their source images.
  - `count_ignored` counts the marked points.
- **`helper.py`**: the string and path helpers (`str_to_tuple`,
  `filename_frompath_noext`, `get_stats_filename`, `get_artifacts_prefix`), and
  `get_apollo_pan_params` from the selected table row on.
- **`validation.py`**: the input validators.

Modules:

- `Options`: the `Option` datatype.
- `Text`: Python `str` operations: `in`, `strip`, `split`, `join`, `str(int)`.
- `Scanner`: how raw lines are joined and what a `read_till` call returns
  (`TakeTill`), plus the scanner itself, the `LineCursor` class whose
  `ReadTill` is proved against `TakeTill`.
- `Codec`: the three dictionary operations, each a method proved against a
  specification function.
- `FilterPass`: `point_in_measures`, `filter_coreg_result` and `count_ignored`.
  The pass is defined block by block on the joined lines (`FilterBlock`,
  `FilterPieces`). `FilterCoregResult` reads the file through a `LineCursor`
  and is proved to write exactly what `FilterPieces` describes.
- `FilterRerun`: what `filter_coreg_result` does when run again on the
  network it wrote. When every point's measures are closed by `End_Object`
  before the next point, the second run writes the same lines and inserts
  nothing.
- `Translation`: `translate_coreg_res`. The ISIS programs are an oracle value
  `Isis`. The pass is specified by `TranslateBlock`/`TranslateLines` and
  implemented by `TranslateCoregRes`.
- `Helpers`, `Validation`: the helpers and the validators.

The file system enters only as inputs:

- the raw lines of a network file;
- whether a folder exists and the names it lists;
- the values of the environment variables;
- the selected row of the panoramic-camera table.

## Model

| member | source | states |
|---|---|---|
| Text.ContainsIff | pvl.py:20 | Python's `in` on strings, used at this line: `sub in s` holds exactly when `sub` occurs at some index of `s` |
| Text.FirstCharAbsent | pvl.py:20 | a substring whose first character is absent from a line is not in it |
| Text.TrimLeftSuffix | pvl.py:39 | trimming the left end gives a suffix of the input; every character dropped is in the set; the result does not start with one |
| Text.TrimRightPrefix | pvl.py:39 | trimming the right end gives a prefix of the input; every character dropped is in the set; the result does not end with one |
| Text.Strip | pvl.py:63-64 | `strip` returns a slice of its input; everything cut from either end is in the set; the result neither starts nor ends with a stripped character |
| Text.Split | helper.py:85 | `split(sep)` gives one piece more than there are separators; no piece holds the separator; the first piece is the text before the first separator |
| Text.JoinSplit | helper.py:85 | joining the pieces of a split with the separator gives the string back |
| Text.SplitJoin | helper.py:85 | pieces free of the separator are recovered by splitting their join |
| Text.SplitWithoutSeparator | helper.py:85 | a string without the separator splits into itself |
| Text.SplitAfterPiece | helper.py:85 | splitting `p + sep + x` yields `p` and then the pieces of `x` |
| Text.FirstToken | pvl.py:77 | `val.split(' ')[0]` is the prefix before the first space; it has no space; it is non-empty when the value does not start with a space |
| Text.IndexOf | pvl.py:61 | the search for an `=` that `parse('{}={}', line)` performs at this line: the first index at or after a position that holds the character, or none |
| Text.NatToString | helper.py:93 | Python's `str()` of an index, used at this line: a non-empty string of decimal digits that starts with `0` only for 0 |
| Text.IntToStringRoundTrip | helper.py:93 | `int(str(i)) == i`, with the rendering made of an optional sign and digits |
| Text.IntToStringInjective | helper.py:93 | distinct integers render differently |
| Text.NatToStringValue | helper.py:93 | the digits of `n` denote `n` |
| Text.DigitChar | helper.py:93 | a digit character encodes its digit |
| Scanner.JoinedLength | pvl.py:32-43 | every raw line without `-\n` yields exactly one joined line; continued lines yield none of their own |
| Scanner.JoinedWithoutContinuations | pvl.py:32-43 | a file without continuation lines is read unchanged |
| Scanner.JoinedDropsTrailingContinuation | pvl.py:32-36 | text still held back when the file ends is lost |
| Scanner.NextLine | pvl.py:32-43 | one raw line read by the scanner is either held back, extending the held-back text, or handed out as the next joined line; the joined lines still to come are unchanged either way |
| Scanner.TakeTill | pvl.py:27-50 | `read_till` on joined lines: head and rest reassemble the input; no head line before the last matches; when some line matches, the last head line is the first match and is returned; otherwise everything is read and `''` returned |
| Scanner.TakeTillAt | pvl.py:44-48 | reading stops exactly at the first matching line |
| Scanner.TakeTillNothingFound | pvl.py:27-50 | with a non-empty first marker, returning `''` means the file was read to the end |
| Scanner.TakeTillNone | pvl.py:32-50 | with no matching line, every line is read and `''` returned |
| Scanner.TakeTillSplit | pvl.py:27-50 | any head/found/rest split with the stopping properties is the result of `read_till` |
| Scanner.AllSubstringsIn | pvl.py:13-24 | the flag is true exactly when every substring occurs in the line |
| Scanner.LineCursor.constructor | pvl.py:120-125 | an opened file: nothing consumed, all joined lines pending |
| Scanner.LineCursor.ReadTill | pvl.py:27-50 | the scanner loop with its held-back text returns exactly `TakeTill` of the pending joined lines and consumes what it read |
| Codec.ParseAssignment | pvl.py:61-64 | `parse('{}={}')` succeeds exactly when some `=` after the first character is followed by text; key and value are the stripped text around the first such `=` |
| Codec.DictOfEntry | pvl.py:60-65 | a key is in the dictionary iff some entry has it, and it holds the value of the last such entry |
| Codec.AssignedKeyPresent | pvl.py:60-65 | every key some line assigns ends up in the dictionary |
| Codec.PresentKeyLastAssigned | pvl.py:60-65 | a key in the dictionary holds the value of the last line assigning it |
| Codec.GroupToDictEntry | pvl.py:53-67 | a key is in the group's dictionary iff some line assigns it, with the value the last such line gives |
| Codec.NoEqualsNoAssignment | pvl.py:61-62 | a line without `=` contributes nothing |
| Codec.PvlGroupToDict | pvl.py:53-67 | the update loop builds exactly the dictionary `GroupToDict` describes |
| Codec.Cleaned | pvl.py:70-84 | `clean_pvldict` raises iff a present numeric entry's first token is not a float; otherwise it keeps the keys; numeric entries become floats; `Reference` becomes whether its first token is non-empty; other entries are unchanged |
| Codec.ReferenceFalseIsTrue | pvl.py:83 | `Reference = False` cleans to `True`, since `bool` of a non-empty string is true |
| Codec.ConvertStep | pvl.py:73-81 | converting one more numeric key keeps the copy exact: converted keys hold their floats, the others their strings |
| Codec.CleanedAfterNumbers | pvl.py:80-84 | converting `Reference` after the numeric keys completes the cleaning |
| Codec.CleanPvlDict | pvl.py:70-84 | the copy-and-convert loop returns `Cleaned`, raising at the first numeric entry that does not parse |
| Codec.AssignmentLineMatches | pvl.py:92 | an indented `key = value` line is matched by its key |
| Codec.ResidualLineNotMatched | pvl.py:92 | a `SampleResidual = …` line is not matched by `Sample`: the key needs a space on both sides |
| Codec.UpdatedLineMeaning | pvl.py:90-93 | a line matched by no key is kept; otherwise it becomes the assignment of the last key that matches it |
| Codec.UnmatchedLineKept | pvl.py:90-93 | a line no key matches is kept |
| Codec.MatchedLineAssigned | pvl.py:90-93 | a line some key matches becomes the assignment of the last key that matches it |
| Codec.UpdatedGroup | pvl.py:87-94 | same length as the group, each line updated independently |
| Codec.UpdatedGroupChanges | pvl.py:90-93 | a line either stays or becomes the assignment of a key that matches it; unmatched lines stay |
| Codec.UpdatedGroupNoKeys | pvl.py:87-94 | with no keys the group comes back unchanged |
| Codec.UpdatePvlGroup | pvl.py:87-94 | the nested loops over lines and keys produce `UpdatedGroup` |
| FilterPass.IsCloseProperties | pvl.py:211-222 | `isclose` is symmetric and accepts values within the absolute tolerance 0.01 |
| FilterPass.IsCloseNearZero | pvl.py:206 | near zero the absolute tolerance decides: 0.01 apart is close, 0.0101 apart is not |
| FilterPass.MeasureValue | pvl.py:211-222 | `.get(key, -1)`: -1 for a missing key, the float otherwise |
| FilterPass.PointInMeasures | pvl.py:206-230 | true exactly when some flagged row matches: same point (original or translated position) and same residuals; false for no rows |
| FilterPass.Render | pvl.py:270-273 | one written line per piece, the inserted line for each mark |
| FilterPass.KeepAll | pvl.py:244-273 | the network's lines, passed through one by one |
| FilterPass.FilterBlock | pvl.py:245-273 | a turn that does not raise consumes lines, and strictly fewer remain when it stopped on a line; a turn that finds nothing leaves nothing |
| FilterPass.RenderBlock | pvl.py:265-271 | a block writes its head, the inserted line if marked, the point's lines and the measures |
| FilterPass.FilterTurn | pvl.py:245-273 | one loop turn on the cursor emits the lines of `FilterBlock` of the pending lines, or reports that cleaning raised |
| FilterPass.FilterCoregResult | pvl.py:233-280 | with no flagged rows returns 0 without reading; otherwise writes exactly `Render(FilterPieces(...))` of the joined file and returns the number of flagged rows, or raises where `FilterPieces` does |
| FilterPass.KeptLinesAppend | pvl.py:244-273 | the network lines among pieces distribute over concatenation |
| FilterPass.KeptLinesKeepAll | pvl.py:244-273 | passing lines through keeps them |
| FilterPass.KeptLinesOfBlock | pvl.py:265-273 | the network lines of a block are its head, point and measure lines, in order |
| FilterPass.BlockKeepsLines | pvl.py:245-273 | a block's own lines are exactly the joined lines it consumed |
| FilterPass.FilterKeepsLines | pvl.py:233-280 | the pass only inserts: without the inserted lines, the output is the input's joined lines in order |
| FilterPass.MarksFollowPointsAppend | pvl.py:265 | mark placement survives concatenation |
| FilterPass.CandidateFollowsPoint | pvl.py:245-255 | a point with a `PointId` was found after an `Object = ControlPoint` line |
| FilterPass.BlockMarksFollowPoints | pvl.py:263-265 | within a block the inserted line follows the `Object = ControlPoint` line |
| FilterPass.CandidateMarksFollowPoint | pvl.py:257-271 | the same for a candidate point |
| FilterPass.MarkAfterHead | pvl.py:265-271 | a mark after a head that ends with a point line sits right after that line |
| FilterPass.FilterMarksFollowPoints | pvl.py:233-280 | every inserted ` Ignore = True` line directly follows an `Object = ControlPoint` line |
| FilterPass.BlockMarksSelected | pvl.py:253-271 | within one turn, an inserted line stands in front of the lines of a point whose dictionary has `PointId` and no `Ignore` and whose measures match a flagged row |
| FilterPass.PassMarksSelected | pvl.py:244-273 | the same for every turn of the pass: each inserted line stands in front of such a point |
| FilterPass.FilterMarksSelected | pvl.py:233-280 | every inserted ` Ignore = True` line directly follows an `Object = ControlPoint` line, and the point after it has `PointId`, no `Ignore`, and measures matching a flagged row |
| FilterPass.SelectedBlockMarked | pvl.py:253-265 | a turn that reads such a point does not raise and inserts the line right after the point's `Object = ControlPoint` line |
| FilterPass.SelectedPointsMarked | pvl.py:244-273 | the converse of FilterMarksSelected: wherever a turn of the pass starts on such a point, an inserted line stands right in front of that point's lines |
| FilterPass.RowMatchesWithinTolerance | pvl.py:209-225 | with `math.isclose` taken as `IsClose`, a flagged row whose sample, line and residual differences are within 0.01 of the measure's values matches it |
| FilterPass.CountMatchingAppend | pvl.py:168-177 | the count of matching lines distributes over concatenation |
| FilterPass.CountMatchingNone | pvl.py:168-177 | lines with no match count zero |
| FilterPass.MatchNotEmpty | pvl.py:172-175 | a line that holds a non-empty marker is non-empty, so a found line is truthy |
| FilterPass.CountMatchingTake | pvl.py:172-175 | one `read_till` accounts for one matching line when it finds one, and for none when it reads to the end |
| FilterPass.FoundHeadCountsOne | pvl.py:172-175 | a `read_till` that finds a matching line has read exactly one |
| FilterPass.CountIgnored | pvl.py:168-177 | `count_ignored` returns the number of joined lines holding `Ignore`, `=` and `True` |
| FilterPass.IgnoreLineCounted | pvl.py:168-177 | the inserted line is one `count_ignored` counts |
| FilterPass.CountRender | pvl.py:168-177 | the count over written lines is the count over the network's own lines plus the number of insertions |
| FilterPass.FilterCountsMarks | pvl.py:168-177 | after the filter pass, `count_ignored` finds the network's own ignored points plus one per marked point |
| FilterRerun.FilterRerunInsertsNothing | pvl.py:233-280 | for a file without continued lines whose measures are closed before the next point, wherever the pass does not raise, running it again with the same flagged rows on the network it wrote writes every line back unchanged and inserts no ` Ignore = True` line |
| FilterRerun.RenderedWithoutContinuations | pvl.py:265 | the written lines are continued only where the network's own lines are: the inserted line is not |
| FilterRerun.FilterRerunKeeps | pvl.py:244-273 | the same, turn by turn, for the output behind lines that hold no point |
| FilterRerun.RerunBlock | pvl.py:245-273 | every turn of the first run reads again as lines kept unchanged, followed by lines without a point that the next turn reads |
| FilterRerun.RerunPlain | pvl.py:245-273 | a point that was not a candidate is read again into the same lines and is still not a candidate |
| FilterRerun.RerunUnmarked | pvl.py:254-271 | a candidate point left unmarked is read again with the same point and measure dictionaries and stays unmarked |
| FilterRerun.RerunMarked | pvl.py:249-273 | a marked point, read again, carries `Ignore` in its dictionary, so its lines are written back and its measures are left to the next turn |
| FilterRerun.MarkedGroup | pvl.py:250-265 | a point's group with the inserted line in front cleans without raising and has `Ignore` |
| FilterRerun.GroupToDictIgnored | pvl.py:53-67 | the inserted line contributes `Ignore = True` to the group's dictionary unless a later line assigns `Ignore` |
| FilterRerun.IgnoreLineAssigns | pvl.py:265 | the inserted line parses as the entry `Ignore` = `True` |
| FilterRerun.IgnoreLineIsNoMarker | pvl.py:245-249 | the inserted line stops neither the point read nor the group read |
| FilterRerun.CleanedIgnored | pvl.py:70-84 | adding an `Ignore` entry to a dictionary that cleans does not make cleaning raise, and the key is kept |
| FilterRerun.TakeTillAgain | pvl.py:27-50 | with lines in front that hold no match, `read_till` stops on the line it stopped on before |
| FilterRerun.MeasuresHoldNoPoint | pvl.py:257 | when measures are closed, the measures read after a group hold no `Object = ControlPoint` line |
| FilterRerun.FilterPiecesNoPoint | pvl.py:244-273 | lines without a point are written back as they are |
| Translation.RelocatedValues | pvl.py:135-154 | the new values cover `Sample`, `Line` and `SerialNumber`: the pixel ISIS gives on the source image for the ground point of the measure, and the stripped `getsn` output |
| Translation.Relocation | pvl.py:132-155 | a relocation that succeeds gives values for all three keys `update_pvlgroup` writes: `Sample`, `Line` and `SerialNumber` |
| Translation.RelocationValues | pvl.py:135-154 | a moved measure is relocated exactly when it has `Sample` and `Line` and both `campt` calls and `getsn` succeed; the new `Sample` and `Line` are then the pixel ISIS gives on the source image for the measure's ground point, and `SerialNumber` is the stripped `getsn` output |
| Translation.SourceFromReference | pvl.py:141-144 | the LROC cube when the raw `Reference` entry's first token is non-empty, `False` included; otherwise the old cube |
| Translation.CleanedTyped | pvl.py:129-136 | a cleaned dictionary holds floats for the numeric keys and a string for `SerialNumber` |
| Translation.KeyedGroupNotEmpty | pvl.py:128-129 | a group whose `[:-1]` assigns a key has at least two lines |
| Translation.MovedMeasureRewritten | pvl.py:152-155 | a moved measure's group is rewritten line for line, only at `Sample`, `Line` and `SerialNumber` lines |
| Translation.MovedMeasureLine | pvl.py:149 | the loop variable `line` becomes the `Line` value ISIS printed |
| Translation.TranslateBlock | pvl.py:124-160 | a turn never leaves more joined lines than it started with, and strictly fewer when it stops on a non-empty line |
| Translation.MoveMeasure | pvl.py:132-155 | the relocating part of the loop body yields `MovedMeasure`: the group rewritten with the values ISIS printed and the new `Line`, or a raise exactly when `MovedMeasure` has none |
| Translation.TranslateTurn | pvl.py:124-160 | one loop turn on the cursor emits the lines of `TranslateBlock` of the pending lines, or reports that it raised |
| Translation.TranslateCoregRes | pvl.py:113-165 | the pass writes exactly `TranslateLines` of the joined file, or raises where it does |
| Translation.JoinAppend | pvl.py:126-160 | extending the written lines is associative |
| Translation.RewrittenAppend | pvl.py:155-160 | line-for-line rewriting survives concatenation |
| Translation.ReadsRewritten | pvl.py:125-160 | the two reads of a turn, with the group rewritten, cover a prefix of the lines |
| Translation.TranslateBlockRewrites | pvl.py:124-160 | one turn writes the lines it read, rewritten, and leaves the rest |
| Translation.TranslateRewrites | pvl.py:113-165 | the pass writes the network's joined lines in order, rewriting only `Sample`, `Line` and `SerialNumber` lines; it writes all of them unless ISIS prints an empty `Line` |
| Translation.PrefixesRewritten | pvl.py:124-160 | rewritten prefixes compose |
| Translation.NoSerialInReads | pvl.py:125-132 | without `SerialNumber` lines, a read group has no `SerialNumber` entry |
| Translation.UnmovedBlock | pvl.py:159-160 | a measure without `SerialNumber` is written back as read |
| Translation.TranslateWithoutSerials | pvl.py:113-165 | a network with no `SerialNumber` line is written back unchanged, unless the pass raises |
| Translation.TranslateTurnWrites | pvl.py:124-160 | at every turn the loop reaches, the output from that place starts with the lines before the measure group as read, then the group: as read when its dictionary has no `SerialNumber`, otherwise `update_pvlgroup` of it with the relocated values |
| Translation.TranslateLineWritten | pvl.py:124-160 | every written line is the joined line read at that place, unless it lies in the measure group of a turn whose dictionary has `SerialNumber` and matches one of `Sample`, `Line`, `SerialNumber`; it then is that key assigned the value ISIS gave |
| Helpers.StrToTuple | helper.py:83-85 | one element more than the commas in the stripped text; no element holds a comma; joined with commas they give that text back |
| Helpers.StrToTupleRoundTrip | helper.py:83-85 | `str_to_tuple('(' + ','.join(parts) + ')') == parts` for comma-free parts whose join does not start or end with a bracket or space |
| Helpers.StripInner | helper.py:85 | stripping a bracketed text whose ends are not stripped characters gives the text |
| Helpers.LastIndexOf | helper.py:67-71 | the index of the last occurrence of the character, or none |
| Helpers.Name | helper.py:145 | `Path.name` is the whole last component: a suffix of the path, after its trailing separators are dropped, that has no separator and is the whole path or preceded by a separator |
| Helpers.StemSuffix | helper.py:67-71 | a name is its stem followed by its suffix; the suffix is empty or a dot, then at least one character, then no further dot; it is non-empty exactly when the last dot is neither the first nor the last character; a non-empty name has a non-empty stem |
| Helpers.FilenameFromPathNoExt | helper.py:67-71 | the result has no separator and, followed by the suffix, is the path's last component |
| Helpers.GetStatsFilename | helper.py:88-97 | `<prefix>_<template stem>.stats_<index>.csv` for a truthy index, `.stats.csv` otherwise |
| Helpers.StatsFilenameZero | helper.py:92 | `index=0` names the same file as no index |
| Helpers.StatsFilenameInjective | helper.py:88-97 | for one prefix and template, distinct truthy indices give distinct names, and no indexed name equals the unindexed one |
| Helpers.IndexedNamesAgree | helper.py:92-93 | two indexed names on one base agree only when their index texts do |
| Helpers.IndexedNotPlain | helper.py:92-95 | an indexed name never equals the unindexed one |
| Helpers.TemplateName | helper.py:16 | the default template's file name is `pointreg_00.def` |
| Helpers.TemplateStem | helper.py:16 | its stem is `pointreg_00` |
| Helpers.TemplateFilename | helper.py:16 | the default template without its directory and extension is `pointreg_00` |
| Helpers.StatsFilenameOfStem | helper.py:90-95 | the unindexed name is the prefix, `_`, the template's stem and `.stats.csv` |
| Helpers.DefaultStatsFilename | helper.py:88-97 | with the default template and no index: `<prefix>_pointreg_00.stats.csv` |
| Helpers.GetArtifactsPrefix | helper.py:143-147 | empty for a missing or empty path, otherwise the path's last component |
| Helpers.GetApolloPanParams | helper.py:107-118 | defined iff both points hold exactly one comma; then the nadir and axis coordinates, joined with a comma, are the stripped points; `gmt` is the UTC time; the constants are 5, 270, 1.61 and 0.1 |
| Validation.ValidateIsisEnv | validation.py:5-9 | -1 iff any variable is unset, 0 iff all are set |
| Validation.ValidateMission | validation.py:52-55 | 0 iff the acronym is one of the nine missions, else -1 |
| Validation.MissionIsCaseSensitive | validation.py:52-55 | `lro` is accepted; `LRO` and `lro ` are not |
| Validation.Extension | validation.py:18-22 | `os.path.splitext(p)[1]` is empty or a dot with no further dot or separator, and is a suffix of the path; when non-empty, a character other than a dot precedes it in the same component |
| Validation.ExtensionOfName | validation.py:18-22 | a file name made of a base and a dotted extension has that extension |
| Validation.ImagesSelects | validation.py:18-22 | the comprehension keeps exactly the listed names whose extension is accepted |
| Validation.ValidateFolder | validation.py:28-38 | -1 iff the folder is missing; -2 iff it exists and no listed name has an accepted extension; 0 iff some name has one |
| Validation.MissingFolderIgnoresListing | validation.py:14-15 | a missing folder is rejected whatever its listing |
| Validation.ValidateApollo | validation.py:11-26 | -1 without a folder; for `metric` and `panoramic`, 0 iff some name has an extension of that camera's list, else -2; any other camera gives -2 |
| Validation.ValidateLro | validation.py:28-38 | -1 without a folder, 0 iff some name has an LROC extension, else -2 |
| Validation.ValidateLo | validation.py:40-50 | -1 without a folder, 0 iff some name has an extension of the Lunar Orbiter list as written, else -2 |
| Validation.NoExtensionIsCommaCub | helper.py:34 | no file has the extension `, .CUB` |
| Validation.CubExtension | validation.py:47 | `M1.CUB` has the extension `.CUB` |
| Validation.LoRejectsCubFolder | helper.py:34 | a folder holding only `M1.CUB` fails `validate_lo` with -2, but passes `validate_lro` and the metric Apollo validator |
| Validation.ValidateLoIntended | validation.py:40-50 | `validate_lo` with the corrected list: -1 without a folder, 0 iff some name has an accepted extension, else -2 |
| Validation.LoIntendedAcceptsCubes | validation.py:47 | with the corrected list, any folder with a `.cub` or `.CUB` image is accepted |

## Left out

- Writing the output network (`write_final_cn`): the file written, and its
  conversion through `cnetpvl2bin`/`cnetbin2pvl`, are out of scope; the passes
  end with the lines they join.
- `filter_points` and the modified z-score (`zscore.py`): pandas work. The
  flagged rows are an input of `FilterCoregResult`.
- `float` and `math.isclose` are parameters (`FloatParser`, `Closeness`), since
  floating-point parsing and arithmetic are not modelled; `IsClose` states the
  intended comparison on exact reals.
- `Text.Whitespace` holds only the ASCII characters `str.strip()` removes;
  non-ASCII whitespace is not modelled.
- `Helpers.Name`: paths are split at `/` only; pathlib's handling of `.`
  components, `..` and Windows drives is not modelled.
- `Codec.ParseAssignment`: models `parse.parse('{}={}', line)` as a cut at the
  first `=` after the first character, with a non-empty remainder; the `parse`
  library's regular-expression matching details are not modelled.
- `Codec.UpdatePvlGroup` requires `ValuesCover`: the `KeyError` that
  `update_pvlgroup` raises for a matched key without a value is not
  modelled. Its one caller always supplies all three keys.
- `Translation.TranslateCoregRes`: the ISIS programs are an oracle. A program
  that raises becomes `None`, and the pass raises with it. The transformed cube
  `output_folder / SerialNumber` is identified by the serial-number string. The
  temporary `camtp.pvl` is not modelled.
- `Translation.TranslateRewrites`: the loop runs while `line` is truthy, and
  `line` is overwritten by the `Line` value ISIS prints. An empty printed value
  ends the loop early. The model reproduces that, and the lemma states that all
  lines are written only when ISIS never prints an empty `Line`.
- `Translation.TranslateRewrites`: states only which lines may change and
  that the lines keep their order. Which lines do change, and to which
  values, is stated by `TranslateTurnWrites` and `TranslateLineWritten`.
- `Translation.TranslateWithoutSerials`: covers only networks with no
  `SerialNumber` line at all. An unmoved group among moved ones is covered
  by `TranslateTurnWrites`.
- `Helpers.GetApolloPanParams`: reading the CSV file and the pandas row lookup
  are not modelled; the selected row is the input, and `iloc[0]` on no match
  is not modelled.
- Raw file reading: a file is its sequence of raw lines, each with its line
  break; encoding errors are not modelled.
- `validate_*`: `os.path.exists` and `os.listdir` are inputs (a flag and a
  listing); listing errors are not modelled.
- `FilterPass.FilterCoregResult`: the inserted line goes first in the point's
  group list. `Piece` keeps it apart from the network's own lines, and the
  in-place `insert` is modelled as building the new list.
- `FilterRerun.FilterRerunInsertsNothing`: stated only for files whose
  measures are closed by `End_Object` before the next `Object = ControlPoint`
  line, and whose raw lines hold no `-\n` continuation. On other files the
  pass promises nothing about a second run: a point swallowed by an unclosed
  measure read in the first run may be marked in the second.

## Findings

| source | as written | input that shows it | evidently intended | confidence | as-written member | corrected member |
|---|---|---|---|---|---|---|
| helper.py:34 | the Lunar Orbiter list holds `', .CUB'` instead of `'.CUB'`, so `validate_lo` (validation.py:47) never accepts an upper-case `.CUB` image | a folder that exists and lists only `M1.CUB`: `validate_lo` returns -2, while `validate_lro` returns 0 | `.CUB` is accepted, as in the other three lists | high, not executed | Validation.LoRejectsCubFolder | Validation.LoIntendedAcceptsCubes |
