/**
 Properties of the measurement-file parser that relate several calls or
 compare it with independent descriptions of its behaviour.
 */
module CmmProperties {
  import opened Wrappers
  import opened Strings
  import opened Fields
  import opened Lines
  import opened CmmParser
  import opened FilterMaps

  // ---------------------------------------------------------------------
  // Extension dispatch
  // ---------------------------------------------------------------------

  /** The dispatch ignores letter case: a name and its lower-cased form
      take the same branch. */
  lemma ClassifyIgnoresCase(filename: string)
    ensures Classify(Lower(filename)) == Classify(filename)
  {
    LowerIdempotent(filename);
  }

  /** Names that agree up to letter case take the same branch. */
  lemma ClassifySameUpToCase(a: string, b: string)
    requires Lower(a) == Lower(b)
    ensures Classify(a) == Classify(b)
  {
    ClassifyIgnoresCase(a);
    ClassifyIgnoresCase(b);
  }

  /** A name ending, in any letter case, in neither extension yields
      nothing, whatever the content. */
  lemma UnsupportedYieldsNothing(content: string, filename: string)
    requires !HasExtension(filename, CsvExtension) && !HasExtension(filename, DfqExtension)
    ensures ParseCmmFile(content, filename) == None
  {
  }

  /** Upper-case and mixed-case extensions are recognised. */
  lemma ClassifyMixedCase()
    ensures Classify("PART-7.DFQ") == Dfq
    ensures Classify("report.Csv") == Csv
  {
    assert !HasExtension("PART-7.DFQ", CsvExtension) by {
      assert LowerChar("PART-7.DFQ"[9]) != CsvExtension[3];
    }
    assert HasExtension("PART-7.DFQ", DfqExtension);
    assert HasExtension("report.Csv", CsvExtension);
  }

  /** Only the last extension counts, and `.csv` is tested before `.dfq`. */
  lemma ClassifyLastExtension()
    ensures Classify("probe.dfq.csv") == Csv
    ensures Classify("probe.csv.dfq") == Dfq
  {
    assert HasExtension("probe.dfq.csv", CsvExtension);
    assert !HasExtension("probe.csv.dfq", CsvExtension) by {
      assert LowerChar("probe.csv.dfq"[12]) != CsvExtension[3];
    }
    assert HasExtension("probe.csv.dfq", DfqExtension);
  }

  /** Other extensions, and a bare name without the dot, are unsupported. */
  lemma ClassifyUnsupported()
    ensures Classify("notes.txt") == Unsupported
    ensures Classify("dfq") == Unsupported
  {
    assert !HasExtension("notes.txt", CsvExtension) by {
      assert LowerChar("notes.txt"[8]) != CsvExtension[3];
    }
    assert !HasExtension("notes.txt", DfqExtension) by {
      assert LowerChar("notes.txt"[8]) != DfqExtension[3];
    }
  }

  // ---------------------------------------------------------------------
  // One line
  // ---------------------------------------------------------------------

  /** The status is the stripped raw field 7 when the line has at least
      seven commas, and `UnknownStatus` otherwise. */
  lemma ParseLineStatus(line: string)
    requires Qualifies(line)
    ensures Count(line, FieldSeparator) >= StatusIndex ==>
      ParseLine(line).value.status == Strip(RawFields(line)[StatusIndex])
    ensures Count(line, FieldSeparator) < StatusIndex ==>
      ParseLine(line).value.status == UnknownStatus
  {
  }

  /** The tag field 0 of a kept line begins with the tag, so the tag lives
      in a field the row never copies. */
  lemma TagStaysInFieldZero(line: string)
    requires Qualifies(line)
    ensures StartsWith(RawFields(line)[0], CharacteristicTag)
  {
  }

  /** Only fields 1 to 4 and 7 reach the row: two kept lines whose stripped
      fields agree there, and which both have or both lack a field 7, give
      the same row, whatever their fields 0, 5, 6 and beyond 7 hold. */
  lemma OtherFieldsIgnored(a: string, b: string)
    requires Qualifies(a) && Qualifies(b)
    requires var fa, fb := StrippedFields(a), StrippedFields(b);
      && (|fa| > StatusIndex <==> |fb| > StatusIndex)
      && (forall k :: 1 <= k <= 4 ==> fa[k] == fb[k])
      && (|fa| > StatusIndex ==> fa[StatusIndex] == fb[StatusIndex])
    ensures ParseLine(a) == ParseLine(b)
  {
  }

  /** Which field goes where: a tagged line with at least six raw fields
      parses to stripped fields 1, 2, 3 and 4, then stripped field 7 if
      there is one and `UnknownStatus` if not. */
  lemma ParseLineOfFields(line: string, fields: seq<string>)
    requires RawFields(line) == fields && |fields| >= MinFields
    requires StartsWith(line, CharacteristicTag)
    ensures ParseLine(line) == Some(Row(
      Strip(fields[1]), Strip(fields[2]), Strip(fields[3]), Strip(fields[4]),
      if |fields| > StatusIndex then Strip(fields[StatusIndex]) else UnknownStatus))
  {
  }

  /** A line written as comma-joined fields, the first one tagged, parses
      to the row of those fields: the writer and the parser agree. */
  lemma ParseJoinedFields(fields: seq<string>)
    requires |fields| >= MinFields
    requires forall k :: 0 <= k < |fields| ==> FieldSeparator !in fields[k]
    requires StartsWith(fields[0], CharacteristicTag)
    ensures ParseLine(Join(fields, FieldSeparator)) == Some(Row(
      Strip(fields[1]), Strip(fields[2]), Strip(fields[3]), Strip(fields[4]),
      if |fields| > StatusIndex then Strip(fields[StatusIndex]) else UnknownStatus))
  {
    JoinedFieldsTagged(fields);
    ParseLineOfFields(Join(fields, FieldSeparator), fields);
  }

  /** Comma-joined fields split back into themselves, and the join keeps
      the tag of its first field at its front. */
  lemma JoinedFieldsTagged(fields: seq<string>)
    requires |fields| > 0
    requires forall k :: 0 <= k < |fields| ==> FieldSeparator !in fields[k]
    requires StartsWith(fields[0], CharacteristicTag)
    ensures RawFields(Join(fields, FieldSeparator)) == fields
    ensures StartsWith(Join(fields, FieldSeparator), CharacteristicTag)
  {
    var line := Join(fields, FieldSeparator);
    SplitJoin(fields, FieldSeparator);
    JoinStartsWithFirst(fields, FieldSeparator);
    assert line[..|CharacteristicTag|] == fields[0][..|CharacteristicTag|];
  }

  /** No column of a row holds a comma, and the status, like the other
      columns, carries no surrounding whitespace. */
  lemma RowColumnsClean(line: string)
    requires ParseLine(line).Some?
    ensures var row := ParseLine(line).value;
      && FieldSeparator !in row.characteristic && FieldSeparator !in row.nominal
      && FieldSeparator !in row.measured && FieldSeparator !in row.deviation
      && FieldSeparator !in row.status && IsTrimmed(row.status)
  {
  }

  // ---------------------------------------------------------------------
  // Many lines
  // ---------------------------------------------------------------------

  /** The k-th row is the row of the k-th qualifying line. The qualifying
      positions increase strictly and include every qualifying line, so rows
      keep the order of their lines and no qualifying line is lost. */
  lemma KeptRowsFollowLines(lines: seq<string>)
    ensures var idx, rows := Hits(ParseLine, lines), KeptRows(lines);
      && |rows| == |idx|
      && (forall k :: 0 <= k < |idx| ==> idx[k] < |lines| && Qualifies(lines[idx[k]]))
      && (forall j, k :: 0 <= j < k < |idx| ==> idx[j] < idx[k])
      && (forall i :: 0 <= i < |lines| && Qualifies(lines[i]) ==> i in idx)
      && (forall k :: 0 <= k < |idx| ==> ParseLine(lines[idx[k]]) == Some(rows[k]))
  {
    FilterMapAtHits(ParseLine, lines);
  }

  /** The rows of concatenated line sequences are the concatenated rows. */
  lemma KeptRowsAppend(a: seq<string>, b: seq<string>)
    ensures KeptRows(a + b) == KeptRows(a) + KeptRows(b)
  {
    FilterMapAppend(ParseLine, a, b);
  }

  /** Lines that do not qualify contribute nothing. */
  lemma NonQualifyingLinesKeepNothing(lines: seq<string>)
    requires NoLineQualifies(lines)
    ensures KeptRows(lines) == []
  {
    KeptRowsEmpty(lines);
  }

  /** Surrounding the lines with lines that do not qualify, such as a
      header or lines with another tag, changes nothing. */
  lemma PaddingIgnored(before: seq<string>, lines: seq<string>, after: seq<string>)
    requires NoLineQualifies(before)
    requires NoLineQualifies(after)
    ensures ParseDfq(before + lines + after) == ParseDfq(lines)
  {
    NonQualifyingLinesKeepNothing(before);
    NonQualifyingLinesKeepNothing(after);
    KeptRowsAppend(before, lines);
    KeptRowsAppend(before + lines, after);
    assert KeptRows(before + lines + after) == KeptRows(lines);
  }

  /** The row count equals the number of qualifying lines. */
  lemma RowCountIsQualifyingCount(lines: seq<string>)
    ensures |KeptRows(lines)| == |QualifyingLines(lines)|
  {
    FilterMapCount(ParseLine, lines);
    forall i | 0 <= i < |lines|
      ensures Qualifies(lines[i]) <==> ParseLine(lines[i]).Some?
    {
    }
    assert QualifyingLines(lines) == Accepted(ParseLine, lines);
  }

  // ---------------------------------------------------------------------
  // A whole file
  // ---------------------------------------------------------------------

  /** A `.dfq` upload yields nothing exactly when none of its lines
      qualifies, and otherwise the rows of its qualifying lines. */
  lemma DfqUploadResult(content: string, filename: string)
    requires Classify(filename) == Dfq
    ensures var lines := SplitLines(content);
      && (ParseCmmFile(content, filename) == None
          <==> NoLineQualifies(lines))
      && (ParseCmmFile(content, filename).Some? ==>
          ParseCmmFile(content, filename) == Some(DfqTable(KeptRows(lines))))
  {
  }

  /** A `.dfq` file written one line-feed-terminated line at a time parses
      as those lines do. */
  lemma DfqFileOfLines(lines: seq<string>, filename: string)
    requires Classify(filename) == Dfq
    requires forall k :: 0 <= k < |lines| ==> IsSingleLine(lines[k])
    ensures ParseCmmFile(JoinLines(lines), filename)
      == (if |KeptRows(lines)| == 0 then None else Some(DfqTable(KeptRows(lines))))
  {
    SplitJoinLines(lines);
  }
}
