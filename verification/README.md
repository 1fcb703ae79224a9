# Measurement-file parser of the AeroFAIR first-article-inspection demo

This project models `parse_cmm_file`, the parser that turns an uploaded
coordinate-measuring-machine (CMM) file into the table of the inspection
report. The parser first looks at the file name. Lower-cased, a name ending
in `.csv` goes to a tabular CSV reader. A name ending in `.dfq` is read as
text, line by line. Any other name yields nothing. In a `.dfq` file, a line
becomes a measurement row only if it starts with the tag `CC` and splits on
commas into at least six fields. Each field is stripped of surrounding
whitespace. Fields 1 to 4 become Characteristic, Nominal, Measured and
Deviation. Field 7 becomes Status when the line has more than seven fields;
otherwise Status is `"?"`. A `.dfq` file with no such line yields nothing,
not an empty table.

Files and modules:

- `wrappers.dfy` (`Wrappers`): `Option`, standing for Python's `Optional`.
- `strings.dfy` (`Strings`): Python's `str.lower`, `startswith`, `endswith`
  and argument-less `strip`. `strip` uses the full set of characters for
  which Python's `str.isspace` holds.
- `fields.dfy` (`Fields`): `str.split(",")` and its inverse `",".join`.
- `lines.dfy` (`Lines`): `str.splitlines()`. It uses every line boundary
  Python recognises, and it treats `\r\n` as one boundary.
- `filter_map.dfy` (`FilterMaps`): the "append the result of every element
  that passes" loop, stated for any function, with its order and count facts.
- `cmm_parser.dfy` (`CmmParser`): the row and table types, the extension
  dispatch, the one-line parser, the `.dfq` branch as a function and as the
  source's loop, and the whole parser.
- `cmm_properties.dfy` (`CmmProperties`): lemmas relating these.

The input is the uploaded file's content, together with its name. In the
`.dfq` branch the content is the decoded text. The `.csv` branch is opaque:
there `content` stands for the undecoded upload, and the result
`CsvTable(content)` records only that it was handed to the external CSV
reader.

## Model

| member | source | states |
|---|---|---|
| `CmmParser.Classify` | streamlit_app.py:34-38 | the `.csv` branch is taken exactly when the last four characters of the name, each lower-cased, spell `.csv`; the `.dfq` branch exactly when that fails and they spell `.dfq` |
| `Strings.Lower` | streamlit_app.py:34 | the lower-cased name has the same length, and each character is the lower-case form of the character at that position (ASCII letters only, see below) |
| `CmmParser.LowerSuffix` | streamlit_app.py:34 | lower-casing the whole name and then testing the suffix decides the same as comparing the suffix character by character, ignoring case |
| `Strings.EndsWith` | streamlit_app.py:34-38 | `endswith` holds exactly when the suffix is no longer than the name and agrees, position by position, with the name's last characters |
| `CmmProperties.ClassifyIgnoresCase` | streamlit_app.py:34-38 | a name and its lower-cased form always take the same branch |
| `CmmProperties.ClassifySameUpToCase` | streamlit_app.py:34-38 | two names that differ only in letter case take the same branch |
| `CmmProperties.ClassifyMixedCase` | streamlit_app.py:34-38 | `PART-7.DFQ` takes the `.dfq` branch and `report.Csv` the `.csv` branch |
| `CmmProperties.ClassifyLastExtension` | streamlit_app.py:34-38 | only the final extension counts: `probe.dfq.csv` is CSV and `probe.csv.dfq` is DFQ |
| `CmmProperties.ClassifyUnsupported` | streamlit_app.py:58 | `notes.txt`, and `dfq` without its dot, take neither branch |
| `CmmProperties.UnsupportedYieldsNothing` | streamlit_app.py:58 | a name ending in neither extension, in any letter case, yields nothing whatever the content |
| `CmmParser.ParseCmmFile` | streamlit_app.py:32-58 | a CSV name hands the content on unchanged; any other unsupported name yields nothing; a DFQ name yields nothing exactly when the `.dfq` branch does; a DFQ table is never empty |
| `CmmProperties.DfqUploadResult` | streamlit_app.py:38-56 | a `.dfq` upload yields nothing exactly when none of its text lines qualifies, and otherwise the rows of its qualifying lines |
| `CmmProperties.DfqFileOfLines` | streamlit_app.py:39-56 | a `.dfq` text written as line-feed-terminated lines parses exactly as that sequence of lines does |
| `Lines.IsLineBreak` | streamlit_app.py:41 | the boundary set is exactly the ten characters Python's `str.splitlines` splits on, listed one by one in `LineBreakChars` (`\n`, `\r`, `\x0b`, `\x0c`, `\x1c`, `\x1d`, `\x1e`, `\x85`, `\u2028`, `\u2029`), and each of them is whitespace to `str.isspace` |
| `Lines.SplitLines` | streamlit_app.py:41 | no produced line contains a line boundary; there are at most as many lines as characters; non-empty text has at least one line |
| `Lines.SplitJoinLines` | streamlit_app.py:41 | boundary-free lines, each written with a line feed after it, split back into exactly those lines |
| `Lines.LfIsOneBoundary` | streamlit_app.py:41 | a line feed after a boundary-free line ends exactly that line, and splitting continues with the text after it |
| `Lines.CrLfIsOneBoundary` | streamlit_app.py:41 | a carriage return directly followed by a line feed ends one line, not two |
| `Lines.SplitSingleLine` | streamlit_app.py:41 | text without a boundary is one line, or no line when it is empty |
| `Strings.IsSpace` | streamlit_app.py:43 | the whitespace `strip()` removes is exactly the 29 characters for which Python's `str.isspace` holds, listed one by one in `WhitespaceChars` |
| `Strings.Strip` | streamlit_app.py:43 | the result has no whitespace at either end and is no longer than the input |
| `Strings.StripDropsOnlySpace` | streamlit_app.py:43 | every character cut off before or after the stripped slice is whitespace |
| `Strings.StripTrimmed` | streamlit_app.py:43 | a string without whitespace at either end is its own strip |
| `Strings.StripIdempotent` | streamlit_app.py:43 | stripping twice is the same as stripping once |
| `Strings.SkipSpace` | streamlit_app.py:43 | the forward scan stops at the first non-whitespace character and passes only whitespace |
| `Strings.SkipSpaceBack` | streamlit_app.py:43 | the backward scan stops after the last non-whitespace character above its floor and passes only whitespace |
| `Strings.LowerIdempotent` | streamlit_app.py:34 | lower-casing twice is the same as lower-casing once |
| `Fields.Split` | streamlit_app.py:43 | there is one more piece than there are commas, and no piece contains a comma |
| `Fields.JoinSplit` | streamlit_app.py:43 | joining the pieces with commas gives back the original line |
| `Fields.SplitJoin` | streamlit_app.py:43 | comma-free pieces joined with commas split back into exactly those pieces |
| `CmmParser.RawFields` | streamlit_app.py:43 | `line.split(",")` has one more field than the line has commas, no field holds a comma, and joining the fields with commas gives back the line |
| `CmmParser.StrippedFields` | streamlit_app.py:43 | one field per comma plus one; every field is comma-free and has no surrounding whitespace |
| `Strings.StartsWith` | streamlit_app.py:42 | `startswith` holds exactly when the prefix is no longer than the line and agrees with it at every position of the prefix |
| `CmmParser.Qualifies` | streamlit_app.py:42-44 | a line is kept exactly when it starts with `CC` and has at least five commas, that is at least six raw fields |
| `CmmParser.ParseLine` | streamlit_app.py:42-53 | a line yields a row exactly when it starts with `CC` and has at least five commas; the four measurement columns have no surrounding whitespace; a line with fewer than seven commas gets status `?` |
| `CmmProperties.ParseLineOfFields` | streamlit_app.py:43-51 | a tagged line with at least six raw fields yields stripped fields 1, 2, 3 and 4, then stripped field 7 if it exists and `?` if not |
| `CmmProperties.ParseLineStatus` | streamlit_app.py:51 | the status is stripped field 7 when the line has at least seven commas, and `?` otherwise |
| `CmmProperties.ParseJoinedFields` | streamlit_app.py:43-51 | writing comma-free fields as one line, the first one tagged, and parsing that line gives the row built from those fields |
| `CmmProperties.JoinedFieldsTagged` | streamlit_app.py:42-43 | a comma-joined line splits back into its fields and starts with the tag of its first field |
| `CmmProperties.TagStaysInFieldZero` | streamlit_app.py:42-47 | in a kept line the `CC` tag lies in field 0, a field no row column copies |
| `CmmProperties.OtherFieldsIgnored` | streamlit_app.py:45-53 | two kept lines that agree on stripped fields 1 to 4 and 7 give the same row, whatever fields 0, 5, 6 and those after 7 hold |
| `CmmProperties.RowColumnsClean` | streamlit_app.py:43-51 | no column of a row holds a comma, and the status has no surrounding whitespace |
| `CmmParser.KeptRows` | streamlit_app.py:40-53 | the loop keeps at most one row per line; `KeptRowsFollowLines` and `RowCountIsQualifyingCount` below state which rows and in what order |
| `CmmParser.KeptRowsEmpty` | streamlit_app.py:41-55 | no row is kept exactly when no line qualifies |
| `CmmParser.ParseDfq` | streamlit_app.py:54-56 | the `.dfq` branch yields nothing exactly when no line qualifies; otherwise it yields between one row and one row per line |
| `CmmParser.ParseDfqLines` | streamlit_app.py:40-56 | the source's single pass, which appends the row of each qualifying line and then turns an empty list into nothing, computes the `.dfq` branch |
| `CmmProperties.KeptRowsFollowLines` | streamlit_app.py:41-53 | the k-th row is the row of the k-th qualifying line; qualifying positions strictly increase and none is missed, so rows keep line order |
| `CmmProperties.RowCountIsQualifyingCount` | streamlit_app.py:41-53 | the number of rows equals the number of qualifying lines |
| `CmmProperties.KeptRowsAppend` | streamlit_app.py:41-53 | the rows of two concatenated line sequences are the rows of the first followed by the rows of the second |
| `CmmProperties.NonQualifyingLinesKeepNothing` | streamlit_app.py:41-44 | lines that do not qualify produce no rows |
| `CmmProperties.PaddingIgnored` | streamlit_app.py:41-44 | adding non-qualifying lines before or after the lines does not change the result |

## Left out

- The `.csv` branch calls the pandas CSV reader, whose behaviour is not part of this model. The branch is modelled only as handing the content on (`CsvTable(content)`).
- UTF-8 decoding with `errors="ignore"` is left out. In the `.dfq` branch the model takes the already-decoded text.
- In the `.csv` branch the source hands the raw, undecoded upload bytes to the CSV reader. There, `content` stands for those bytes, not for decoded text.
- `Strings.Lower`: only the ASCII letters `A`-`Z` are lower-cased, not all of Python's Unicode case mapping. No non-ASCII character lower-cases to one of `.`, `c`, `s`, `v`, `d`, `f`, `q`, so both suffix tests decide the same as in Python.
- `build_pdf` (report layout and a wall-clock timestamp) and the page script (upload widget, preview, download) are not part of this model. The page script's "nothing or empty" check only decides whether to show an error.
- The exceptions the pandas reader could raise are not modelled. The decoder, with `errors="ignore"`, raises none.
- The generic `FilterMaps` lemmas have no rows of their own; their instances for the parser (`KeptRowsFollowLines`, `KeptRowsAppend`, `RowCountIsQualifyingCount`, `KeptRowsEmpty`) are listed above.

## Observations

The length guard asks for at least six fields, but Status is read from field
7, and only when there are more than seven fields. So a line with six or
seven fields is kept and gets status `?`, and fields 0, 5 and 6 never reach
the table. The model keeps this behaviour as written (`ParseLineStatus`,
`OtherFieldsIgnored`). It is not listed as a defect, because the code does
not show which field was meant to hold the status.
