/**
  The school directory: a positional comma-separated parser for the school
  registry file, a case-insensitive substring search capped at ten results,
  and an exact lookup by UDISE code (the school's registry identifier).
 */
module SchoolData {
  import opened Wrappers
  import opened Text
  import opened Seqs

  /** One row of the registry, columns in file order. */
  datatype School = School(
    district: string,
    block: string,
    udiseCode: string,
    schoolName: string,
    category: string,
    area: string,
    management: string)

  /** Number of columns the parser reads from each line. */
  const ColumnCount: nat := 7

  /** Most records a search returns. */
  const MaxResults: nat := 10

  /** The record's fields in column order. */
  function Fields(s: School): (r: seq<string>)
    ensures |r| == ColumnCount
  {
    [s.district, s.block, s.udiseCode, s.schoolName, s.category, s.area, s.management]
  }

  /** `values[i]?.trim() || ''`: the trimmed i-th value, or empty when the line is too short. */
  function Column(values: seq<string>, i: nat): string {
    if i < |values| then Trim(values[i]) else ""
  }

  /** A value the parser can produce for one column: no comma and no surrounding whitespace. */
  predicate CleanField(f: string) {
    ',' !in f && Trimmed(f)
  }

  /** Every field of the record is clean. */
  predicate Clean(s: School) {
    && CleanField(s.district) && CleanField(s.block) && CleanField(s.udiseCode) && CleanField(s.schoolName)
    && CleanField(s.category) && CleanField(s.area) && CleanField(s.management)
  }

  /** `Clean` read column by column. */
  lemma CleanFields(s: School)
    requires Clean(s)
    ensures forall i :: 0 <= i < ColumnCount ==> CleanField(Fields(s)[i])
  {
    var fs := Fields(s);
    forall i | 0 <= i < ColumnCount
      ensures CleanField(fs[i])
    {
      if i == 0 {
      } else if i == 1 {
      } else if i == 2 {
      } else if i == 3 {
      } else if i == 4 {
      } else if i == 5 {
      } else {
        assert i == 6;
      }
    }
  }

  lemma ColumnClean(values: seq<string>, i: nat)
    requires forall k :: 0 <= k < |values| ==> ',' !in values[k]
    ensures CleanField(Column(values, i))
  {
    if i < |values| {
      TrimKeepsAbsence(values[i], ',');
    }
  }

  /** The record one data line maps to: its comma-separated values by position, trimmed. */
  function ParseLine(line: string): (r: School)
    ensures Clean(r)
  {
    var values := Split(line, ',');
    ColumnClean(values, 0); ColumnClean(values, 1); ColumnClean(values, 2); ColumnClean(values, 3);
    ColumnClean(values, 4); ColumnClean(values, 5); ColumnClean(values, 6);
    School(Column(values, 0), Column(values, 1), Column(values, 2), Column(values, 3),
           Column(values, 4), Column(values, 5), Column(values, 6))
  }

  /** `line.trim()` is truthy. */
  predicate NonBlank(line: string) {
    !AllSpace(line)
  }

  /** `school.udise_code` is truthy. */
  predicate HasCode(s: School) {
    s.udiseCode != []
  }

  /** A data line that yields a directory entry. */
  predicate IsRecordLine(line: string) {
    HasCode(ParseLine(line))
  }

  /**
    `parseSchoolsCSV`: split into lines, drop the first (header) line, drop blank
    lines, parse each remaining line, drop records without a UDISE code.
   */
  function ParseSchoolsCSV(csv: string): (r: seq<School>)
    ensures |r| <= |Split(csv, '\n')| - 1
    ensures forall i :: 0 <= i < |r| ==> r[i].udiseCode != []
    ensures IsSubsequence(r, Map(Split(csv, '\n')[1..], ParseLine))
  {
    var lines := Split(csv, '\n');
    var kept := Filter(lines[1..], NonBlank);
    var r := Filter(Map(kept, ParseLine), HasCode);
    MapSubsequence(kept, lines[1..], ParseLine);
    SubsequenceTransitive(r, Map(kept, ParseLine), Map(lines[1..], ParseLine));
    r
  }

  /** A blank line has a blank third column, so it could never produce a record. */
  lemma BlankLineHasNoCode(line: string)
    requires AllSpace(line)
    ensures !IsRecordLine(line)
  {
    var values := Split(line, ',');
    SplitOfBlank(line, ',');
    if 2 < |values| {
      assert AllSpace(values[2]);
    }
  }

  /**
    The directory is exactly the records of the data lines (every line after the
    first) whose UDISE column is non-blank, in line order. The blank-line filter
    is subsumed by the code filter.
   */
  lemma ParseKeepsRecordLines(csv: string)
    ensures ParseSchoolsCSV(csv) == Map(Filter(Split(csv, '\n')[1..], IsRecordLine), ParseLine)
  {
    forall x: string
      ensures IsRecordLine(x) == (NonBlank(x) && HasCode(ParseLine(x)))
    {
      if AllSpace(x) {
        BlankLineHasNoCode(x);
      }
    }
    FilterMapFilter(Split(csv, '\n')[1..], NonBlank, ParseLine, HasCode, IsRecordLine);
  }

  /** Whatever the first line holds, it contributes nothing: only the lines after it are read. */
  lemma HeaderIgnored(header: string, body: string)
    requires '\n' !in header
    ensures ParseSchoolsCSV(header + "\n" + body) == Map(Filter(Split(body, '\n'), IsRecordLine), ParseLine)
  {
    SplitAppend(header, body, '\n');
    SplitWithoutSeparator(header, '\n');
    assert Split(header + "\n" + body, '\n')[1..] == Split(body, '\n');
    ParseKeepsRecordLines(header + "\n" + body);
  }

  /**
    Columns are taken by position: column i of a line built from the values
    `cols` is `cols[i]` trimmed, a missing column is empty, and values past the
    seventh are ignored.
   */
  lemma ParseLineColumns(cols: seq<string>)
    requires |cols| >= 1
    requires forall k :: 0 <= k < |cols| ==> ',' !in cols[k]
    ensures forall i :: 0 <= i < ColumnCount ==>
      Fields(ParseLine(Join(cols, ',')))[i] == (if i < |cols| then Trim(cols[i]) else "")
  {
    SplitJoin(cols, ',');
    assert Split(Join(cols, ','), ',') == cols;
    ParseLineFields(Join(cols, ','));
  }

  /** Column i of the record is column i of the comma-split line. */
  lemma ParseLineFields(line: string)
    ensures forall i :: 0 <= i < ColumnCount ==> Fields(ParseLine(line))[i] == Column(Split(line, ','), i)
  {
    var v := Split(line, ',');
    var fs := Fields(ParseLine(line));
    assert fs == [Column(v, 0), Column(v, 1), Column(v, 2), Column(v, 3), Column(v, 4), Column(v, 5), Column(v, 6)];
    forall i | 0 <= i < ColumnCount
      ensures fs[i] == Column(v, i)
    {
      if i == 0 {
      } else if i == 1 {
      } else if i == 2 {
      } else if i == 3 {
      } else if i == 4 {
      } else if i == 5 {
      } else {
        assert i == 6;
      }
    }
  }

  /** Appending an eighth or later column to a line with at least seven does not change its record. */
  lemma ExtraColumnsIgnored(line: string, extra: string)
    requires |Split(line, ',')| >= ColumnCount
    ensures ParseLine(line + "," + extra) == ParseLine(line)
  {
    SplitAppend(line, extra, ',');
    assert line + "," + extra == line + [','] + extra;
    var vs := Split(line + "," + extra, ',');
    assert forall i :: 0 <= i < ColumnCount ==> vs[i] == Split(line, ',')[i];
  }

  /** One line of the registry file holding this record. */
  function FormatLine(s: School): string {
    Join(Fields(s), ',')
  }

  /** A registry file: the header line followed by one line per record. */
  function FormatCSV(header: string, schools: seq<School>): string {
    if |schools| == 0 then header else header + "\n" + Join(Map(schools, FormatLine), '\n')
  }

  /** A record the registry file can carry unchanged: clean single-line fields and a UDISE code. */
  predicate WellFormed(s: School) {
    && HasCode(s)
    && Clean(s)
    && (forall i :: 0 <= i < ColumnCount ==> '\n' !in Fields(s)[i])
  }

  /** Parsing a formatted line gives the record back when its fields are clean. */
  lemma ParseFormatLine(s: School)
    requires Clean(s)
    ensures ParseLine(FormatLine(s)) == s
  {
    var fs := Fields(s);
    CleanFields(s);
    SplitJoin(fs, ',');
    assert Split(FormatLine(s), ',') == fs;
    ColumnOfClean(fs, 0); ColumnOfClean(fs, 1); ColumnOfClean(fs, 2); ColumnOfClean(fs, 3);
    ColumnOfClean(fs, 4); ColumnOfClean(fs, 5); ColumnOfClean(fs, 6);
  }

  /** A clean value is its own column. */
  lemma ColumnOfClean(fs: seq<string>, i: nat)
    requires i < |fs| && CleanField(fs[i])
    ensures Column(fs, i) == fs[i]
  {
    TrimOfTrimmed(fs[i]);
  }

  /** The lines written for well-formed records are single lines that each yield a record. */
  lemma FormattedLinesAreRecords(schools: seq<School>)
    requires forall i :: 0 <= i < |schools| ==> WellFormed(schools[i])
    ensures forall i :: 0 <= i < |schools| ==>
      '\n' !in Map(schools, FormatLine)[i] && IsRecordLine(Map(schools, FormatLine)[i])
  {
    forall i | 0 <= i < |schools|
      ensures '\n' !in FormatLine(schools[i]) && IsRecordLine(FormatLine(schools[i]))
    {
      JoinKeepsAbsence(Fields(schools[i]), ',', '\n');
      ParseFormatLine(schools[i]);
    }
  }

  lemma ParseFormatLines(schools: seq<School>)
    requires forall i :: 0 <= i < |schools| ==> WellFormed(schools[i])
    ensures Map(Map(schools, FormatLine), ParseLine) == schools
  {
    forall i | 0 <= i < |schools|
      ensures Map(Map(schools, FormatLine), ParseLine)[i] == schools[i]
    {
      ParseFormatLine(schools[i]);
    }
  }

  /** Round trip: parsing a registry file written from well-formed records yields those records. */
  lemma ParseFormatCSV(header: string, schools: seq<School>)
    requires '\n' !in header
    requires forall i :: 0 <= i < |schools| ==> WellFormed(schools[i])
    ensures ParseSchoolsCSV(FormatCSV(header, schools)) == schools
  {
    if |schools| == 0 {
      SplitWithoutSeparator(header, '\n');
    } else {
      var lines := Map(schools, FormatLine);
      FormattedLinesAreRecords(schools);
      HeaderIgnored(header, Join(lines, '\n'));
      SplitJoin(lines, '\n');
      FilterAll(lines, IsRecordLine);
      ParseFormatLines(schools);
    }
  }

  /** Case-insensitive match of an already lower-cased query against code, name or district. */
  predicate Matches(s: School, lowerQuery: string) {
    || Contains(ToLower(s.udiseCode), lowerQuery)
    || Contains(ToLower(s.schoolName), lowerQuery)
    || Contains(ToLower(s.district), lowerQuery)
  }

  function MatcherFor(lowerQuery: string): School -> bool {
    s => Matches(s, lowerQuery)
  }

  /** All records matching the query, in directory order, before the cap is applied. */
  function AllMatches(schools: seq<School>, query: string): seq<School> {
    Filter(schools, MatcherFor(ToLower(query)))
  }

  /**
    `searchSchools`: nothing for a blank query; otherwise the first ten records
    whose code, name or district contains the lower-cased (untrimmed) query.
   */
  function SearchSchools(schools: seq<School>, query: string): (r: seq<School>)
    ensures |r| <= MaxResults
    ensures AllSpace(query) ==> r == []
    ensures IsSubsequence(r, schools)
    ensures forall i :: 0 <= i < |r| ==> Matches(r[i], ToLower(query))
  {
    if AllSpace(query) then []
    else
      var m := AllMatches(schools, query);
      var r := Take(m, MaxResults);
      PrefixOfSubsequence(m, schools, |r|);
      assert forall i :: 0 <= i < |r| ==> r[i] == m[i] && MatcherFor(ToLower(query))(m[i]);
      r
  }

  /**
    No match is skipped before the cap: a matching record preceded by fewer than
    ten matches is returned, at the position given by the matches before it.
   */
  lemma SearchTakesFirstMatches(schools: seq<School>, query: string, j: nat)
    requires !AllSpace(query)
    requires j < |schools| && Matches(schools[j], ToLower(query))
    requires |AllMatches(schools[..j], query)| < MaxResults
    ensures var n := |AllMatches(schools[..j], query)|;
      n < |SearchSchools(schools, query)| && SearchSchools(schools, query)[n] == schools[j]
  {
    var p := MatcherFor(ToLower(query));
    assert schools == schools[..j] + ([schools[j]] + schools[j + 1..]);
    FilterConcat(schools[..j], [schools[j]] + schools[j + 1..], p);
    FilterConcat([schools[j]], schools[j + 1..], p);
    assert Filter([schools[j]], p) == [schools[j]];
  }

  /** Below the cap the search is complete: every matching record is returned. */
  lemma SearchCompleteBelowCap(schools: seq<School>, query: string, j: nat)
    requires !AllSpace(query)
    requires j < |schools| && Matches(schools[j], ToLower(query))
    requires |AllMatches(schools, query)| <= MaxResults
    ensures schools[j] in SearchSchools(schools, query)
  {
    assert MatcherFor(ToLower(query))(schools[j]);
  }

  /** With at least ten matches the search returns exactly ten records. */
  lemma SearchSaturates(schools: seq<School>, query: string)
    requires !AllSpace(query)
    requires |AllMatches(schools, query)| >= MaxResults
    ensures |SearchSchools(schools, query)| == MaxResults
  {
  }

  /** Queries that agree after lower-casing give the same results. */
  lemma SearchCaseInsensitive(schools: seq<School>, q1: string, q2: string)
    requires ToLower(q1) == ToLower(q2)
    ensures SearchSchools(schools, q1) == SearchSchools(schools, q2)
  {
    ToLowerKeepsBlankness(q1);
    ToLowerKeepsBlankness(q2);
  }

  /** `getSchoolByUDISE`: the first record whose code equals `code` exactly, or none. */
  function GetSchoolByUDISE(schools: seq<School>, code: string): (r: Option<School>)
    ensures r.None? <==> forall i :: 0 <= i < |schools| ==> schools[i].udiseCode != code
    ensures r.Some? ==> r.value in schools && r.value.udiseCode == code
    decreases |schools|
  {
    if |schools| == 0 then None
    else if schools[0].udiseCode == code then Some(schools[0])
    else
      var r := GetSchoolByUDISE(schools[1..], code);
      assert forall i :: 1 <= i < |schools| ==> schools[i] == schools[1..][i - 1];
      r
  }

  /** The lookup returns the earliest record carrying the code, not merely some record. */
  lemma {:induction false} LookupReturnsFirst(schools: seq<School>, code: string, i: nat)
    requires i < |schools| && schools[i].udiseCode == code
    requires forall j :: 0 <= j < i ==> schools[j].udiseCode != code
    ensures GetSchoolByUDISE(schools, code) == Some(schools[i])
    decreases i
  {
    if i > 0 {
      LookupReturnsFirst(schools[1..], code, i - 1);
    }
  }

  /** A parsed directory never answers a lookup for the empty code. */
  lemma ParsedLookupOfEmptyCode(csv: string)
    ensures GetSchoolByUDISE(ParseSchoolsCSV(csv), "") == None
  {
  }
}
