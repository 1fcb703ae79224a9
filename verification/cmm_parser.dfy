/**
 The measurement-file parser of the first-article-inspection demo
 (`parse_cmm_file`). A file is dispatched on its lower-cased extension:
 `.csv` files go to a tabular reader, `.dfq` files are read line by line,
 and every other name yields nothing. In a `.dfq` file only lines tagged
 `CC` with at least six comma-separated fields become measurement rows.
 */
module CmmParser {
  import opened Wrappers
  import opened Strings
  import opened Fields
  import opened Lines
  import opened FilterMaps

  /** One measurement row: the five columns of the inspection table. */
  datatype Row = Row(
    characteristic: string,
    nominal: string,
    measured: string,
    deviation: string,
    status: string)

  /** The parsed table. A `.csv` upload is handed unchanged to the external
      tabular reader, so its table is only known by the text it came from. */
  datatype Table = CsvTable(content: string) | DfqTable(rows: seq<Row>)

  /** The three branches of the extension dispatch. */
  datatype Format = Csv | Dfq | Unsupported

  const CsvExtension: string := ".csv"
  const DfqExtension: string := ".dfq"
  /** Tag that opens a characteristic line of a `.dfq` file. */
  const CharacteristicTag: string := "CC"
  const FieldSeparator: char := ','
  /** Fewest comma-separated fields a tagged line needs to be kept. */
  const MinFields: nat := 6
  /** Position of the status field; it is read only when the line has more
      fields than this index. */
  const StatusIndex: nat := 7
  const UnknownStatus: string := "?"

  /** Case-insensitive suffix test, character by character: the last
      `|suffix|` characters of `name`, lower-cased, spell `suffix`. */
  predicate HasExtension(name: string, suffix: string) {
    && |suffix| <= |name|
    && forall k :: 0 <= k < |suffix| ==> LowerChar(name[|name| - |suffix| + k]) == suffix[k]
  }

  /** Chooses the branch from the lower-cased file name; `.csv` is tested
      first. */
  function Classify(filename: string): (f: Format)
    ensures f == Csv <==> HasExtension(filename, CsvExtension)
    ensures f == Dfq <==> !HasExtension(filename, CsvExtension) && HasExtension(filename, DfqExtension)
  {
    var lower := Lower(filename);
    LowerSuffix(filename, CsvExtension);
    LowerSuffix(filename, DfqExtension);
    if EndsWith(lower, CsvExtension) then Csv
    else if EndsWith(lower, DfqExtension) then Dfq
    else Unsupported
  }

  /** Lower-casing the whole name and testing the suffix is the same as
      the character-wise case-insensitive test. */
  lemma LowerSuffix(name: string, suffix: string)
    ensures EndsWith(Lower(name), suffix) <==> HasExtension(name, suffix)
  {
  }

  /** The raw comma-separated fields of a line, as `line.split(",")`:
      one more field than commas, none holding a comma, and joined again
      with commas they give back the line. */
  function RawFields(line: string): (parts: seq<string>)
    ensures |parts| == Count(line, FieldSeparator) + 1
    ensures forall k :: 0 <= k < |parts| ==> FieldSeparator !in parts[k]
    ensures Join(parts, FieldSeparator) == line
  {
    JoinSplit(line, FieldSeparator);
    Split(line, FieldSeparator)
  }

  /** The fields after whitespace stripping, as the list comprehension
      `[p.strip() for p in line.split(",")]`. */
  function StrippedFields(line: string): (fields: seq<string>)
    ensures |fields| == Count(line, FieldSeparator) + 1
    ensures forall k :: 0 <= k < |fields| ==> IsTrimmed(fields[k]) && FieldSeparator !in fields[k]
  {
    var raw := RawFields(line);
    seq(|raw|, k requires 0 <= k < |raw| => Strip(raw[k]))
  }

  /** A line contributes a row exactly when it starts with the tag and has
      at least `MinFields` fields. */
  predicate Qualifies(line: string)
    ensures Qualifies(line) <==>
      StartsWith(line, CharacteristicTag) && Count(line, FieldSeparator) >= MinFields - 1
  {
    StartsWith(line, CharacteristicTag) && |RawFields(line)| >= MinFields
  }

  /** True if no line of `lines` qualifies. */
  predicate NoLineQualifies(lines: seq<string>) {
    forall k :: 0 <= k < |lines| ==> !Qualifies(lines[k])
  }

  /** Positions of the qualifying lines. */
  function QualifyingLines(lines: seq<string>): set<nat> {
    set i | 0 <= i < |lines| && Qualifies(lines[i])
  }

  /** Builds the row of one line: fields 1 to 4 in order, then field 7 when
      the line has more than seven fields and `UnknownStatus` otherwise.
      Lines that do not qualify yield nothing. */
  function ParseLine(line: string): (r: Option<Row>)
    ensures r.Some? <==> StartsWith(line, CharacteristicTag) && Count(line, FieldSeparator) >= MinFields - 1
    ensures r.Some? ==>
      && IsTrimmed(r.value.characteristic) && IsTrimmed(r.value.nominal)
      && IsTrimmed(r.value.measured) && IsTrimmed(r.value.deviation)
    ensures r.Some? && Count(line, FieldSeparator) < StatusIndex ==> r.value.status == UnknownStatus
  {
    if !Qualifies(line) then None
    else
      var fields := StrippedFields(line);
      Some(Row(
        fields[1],
        fields[2],
        fields[3],
        fields[4],
        if |fields| > StatusIndex then fields[StatusIndex] else UnknownStatus))
  }

  /** The rows of a line sequence, in line order: the row of every line
      that yields one. There are never more rows than lines. */
  function KeptRows(lines: seq<string>): (rows: seq<Row>)
    ensures |rows| <= |lines|
  {
    FilterMap(ParseLine, lines)
  }

  /** No row is kept exactly when no line qualifies. */
  lemma KeptRowsEmpty(lines: seq<string>)
    ensures |KeptRows(lines)| == 0 <==> NoLineQualifies(lines)
  {
    FilterMapEmpty(ParseLine, lines);
    assert forall k :: 0 <= k < |lines| ==> (ParseLine(lines[k]).None? <==> !Qualifies(lines[k]));
  }

  /** The `.dfq` branch on already split lines: nothing when no line
      qualifies, otherwise the non-empty row sequence. */
  function ParseDfq(lines: seq<string>): (r: Option<seq<Row>>)
    ensures r.None? <==> NoLineQualifies(lines)
    ensures r.Some? ==> 0 < |r.value| <= |lines|
  {
    KeptRowsEmpty(lines);
    var rows := KeptRows(lines);
    if |rows| == 0 then None else Some(rows)
  }

  /** The whole parser on decoded text and a file name. */
  function ParseCmmFile(content: string, filename: string): (r: Option<Table>)
    ensures Classify(filename) == Csv ==> r == Some(CsvTable(content))
    ensures Classify(filename) == Unsupported ==> r == None
    ensures Classify(filename) == Dfq ==> (r.None? <==> ParseDfq(SplitLines(content)).None?)
    ensures r.Some? && r.value.DfqTable? ==> |r.value.rows| > 0
  {
    match Classify(filename)
    case Csv => Some(CsvTable(content))
    case Dfq =>
      (match ParseDfq(SplitLines(content))
       case None => None
       case Some(rows) => Some(DfqTable(rows)))
    case Unsupported => None
  }

  /** The `.dfq` branch as the source writes it: one pass over the lines
      that appends the row of every qualifying line, then the check that
      turns an empty row list into nothing. */
  method ParseDfqLines(lines: seq<string>) returns (result: Option<seq<Row>>)
    ensures result == ParseDfq(lines)
    ensures result.None? <==> NoLineQualifies(lines)
  {
    var rows: seq<Row> := [];
    var i := 0;
    while i < |lines|
      invariant 0 <= i <= |lines|
      invariant rows == KeptRows(lines[..i])
    {
      var parsed := ParseLine(lines[i]);
      assert lines[..i + 1][..i] == lines[..i];
      assert lines[..i + 1][i] == lines[i];
      if parsed.Some? {
        rows := rows + [parsed.value];
      }
      i := i + 1;
    }
    assert lines[..i] == lines;
    KeptRowsEmpty(lines);
    if |rows| == 0 {
      result := None;
    } else {
      result := Some(rows);
    }
  }
}
