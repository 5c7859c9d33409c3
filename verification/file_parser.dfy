/**
 * The seed-file parsers: a TSV of `profile key <TAB> cluster id` lines read
 * into a lookup map, and a CSV of cluster descriptions read into records,
 * with a one-line CSV reader that understands double-quoted fields and
 * doubled quotes inside them.
 */
module FileParser {
  import opened Wrappers
  import opened Text
  import opened Js

  // ---------------------------------------------------------------------------
  // parseTSV
  // ---------------------------------------------------------------------------

  /**
   * What one data line contributes: the trimmed line split on tabs, with at
   * least two parts, a non-blank first part as the key and a second part
   * that `parseInt` reads as the value.
   */
  function LineEntry(line: string): (e: Option<(string, int)>)
    ensures e.Some? ==> e.value.0 != "" && '\t' !in e.value.0
  {
    var t := Trim(line);
    if t == "" then None
    else
      var parts := Split(t, '\t');
      if |parts| < 2 then None
      else
        var key := Trim(parts[0]);
        match ParseInt(Trim(parts[1]))
        case None => None
        case Some(v) =>
          if key == "" then None
          else
            TrimInside(parts[0]);
            Some((key, v))
  }

  /** A blank line, and a line without a tab between its ends, contribute nothing. */
  lemma LineEntrySkips(line: string)
    requires IsBlank(line) || '\t' !in Trim(line)
    ensures LineEntry(line).None?
  {
  }

  /** A trimmed string is a slice of the original, so it has no character the original lacks. */
  lemma TrimInside(s: string)
    ensures forall c :: c in Trim(s) ==> c in s
  {
    var r := Trim(s);
    if r != "" {
      forall c | c in r
        ensures c in s
      {
        var k :| 0 <= k < |r| && r[k] == c;
        assert s[LeadingSpace(s) + k] == c;
      }
    }
  }

  /** The contribution of each line, in order. */
  function Entries(lines: seq<string>): (es: seq<Option<(string, int)>>)
    ensures |es| == |lines|
    ensures forall i :: 0 <= i < |es| && es[i].Some? ==> es[i].value.0 != ""
  {
    if lines == [] then [] else [LineEntry(lines[0])] + Entries(lines[1..])
  }

  /** Entry `i` is what line `i` contributes. */
  lemma {:induction false} EntriesPointwise(lines: seq<string>, i: nat)
    requires i < |lines|
    ensures Entries(lines)[i] == LineEntry(lines[i])
  {
    if i > 0 {
      EntriesPointwise(lines[1..], i - 1);
    }
  }

  /** The entries applied in order to a map: a later key overwrites an earlier one. */
  function Collect(es: seq<Option<(string, int)>>): map<string, int> {
    if es == [] then map[]
    else
      var m := Collect(es[..|es| - 1]);
      match es[|es| - 1]
      case None => m
      case Some(e) => m[e.0 := e.1]
  }

  /** `parseTSV`: the entries of every line after the header. */
  function ParseTSV(text: string): (m: map<string, int>)
    ensures forall k :: k in m ==> k != ""
  {
    var es := Entries(Split(Trim(text), '\n'))[1..];
    CollectKeys(es);
    Collect(es)
  }

  lemma {:induction false} CollectKeys(es: seq<Option<(string, int)>>)
    requires forall i :: 0 <= i < |es| && es[i].Some? ==> es[i].value.0 != ""
    ensures forall k :: k in Collect(es) ==> k != ""
  {
    if es != [] {
      CollectKeys(es[..|es| - 1]);
    }
  }

  /** Entry `j` is for `key`. */
  predicate Yields(es: seq<Option<(string, int)>>, j: int, key: string)
    requires 0 <= j < |es|
  {
    es[j].Some? && es[j].value.0 == key
  }

  /** The map holds a key exactly when some line yields it. */
  lemma {:induction false} CollectHasKey(es: seq<Option<(string, int)>>, key: string)
    ensures key in Collect(es) <==> exists j :: 0 <= j < |es| && Yields(es, j, key)
  {
    if es != [] {
      var last := |es| - 1;
      var init := es[..last];
      CollectHasKey(init, key);
      if Yields(es, last, key) {
        assert key in Collect(es);
      } else {
        assert key in Collect(es) <==> key in Collect(init);
        if key in Collect(init) {
          var j :| 0 <= j < |init| && Yields(init, j, key);
          assert Yields(es, j, key);
        } else {
          forall j | 0 <= j < |es|
            ensures !Yields(es, j, key)
          {
            if j < last {
              assert !Yields(init, j, key);
            }
          }
        }
      }
    }
  }

  /** For a duplicate key, the last line that yields it decides the value. */
  lemma {:induction false} CollectLastWins(es: seq<Option<(string, int)>>, key: string, j: nat)
    requires j < |es| && Yields(es, j, key)
    requires forall k :: j < k < |es| ==> !Yields(es, k, key)
    ensures key in Collect(es) && Collect(es)[key] == es[j].value.1
  {
    var last := |es| - 1;
    var init := es[..last];
    if j < last {
      assert !Yields(es, last, key);
      assert Yields(init, j, key);
      forall k | j < k < |init|
        ensures !Yields(init, k, key)
      {
        assert !Yields(es, k, key);
      }
      CollectLastWins(init, key, j);
    }
  }

  /**
   * In the file as a whole: the header line never contributes, and a key
   * maps to the value of the last data line that yields it.
   */
  lemma ParseTSVLastLineWins(text: string, j: nat, key: string, value: int)
    requires var es := Entries(Split(Trim(text), '\n'));
      && 1 <= j < |es| && es[j] == Some((key, value))
      && forall k :: j < k < |es| ==> !Yields(es, k, key)
    ensures key in ParseTSV(text) && ParseTSV(text)[key] == value
  {
    DataLastWins(Entries(Split(Trim(text), '\n')), j, key, value);
  }

  /** Dropping the header entry keeps the last-wins reading of the data entries. */
  lemma DataLastWins(es: seq<Option<(string, int)>>, j: nat, key: string, value: int)
    requires 1 <= j < |es| && es[j] == Some((key, value))
    requires forall k :: j < k < |es| ==> !Yields(es, k, key)
    ensures key in Collect(es[1..]) && Collect(es[1..])[key] == value
  {
    var data := es[1..];
    assert data[j - 1] == es[j];
    forall k | j - 1 < k < |data|
      ensures !Yields(data, k, key)
    {
      assert data[k] == es[k + 1];
      assert !Yields(es, k + 1, key);
    }
    CollectLastWins(data, key, j - 1);
  }

  /** A string without whitespace at either end is its own trim. */
  lemma TrimmedIsTrim(s: string)
    requires s != "" && !IsWhitespace(s[0]) && !IsWhitespace(s[|s| - 1])
    ensures Trim(s) == s
  {
    assert LeadingSpace(s) == 0;
    assert SpaceFreeEnd(s) == |s|;
  }

  /**
   * The line `key <TAB> value` that a seed file holds is read back as that
   * entry, whenever the key is non-empty, tab-free and has no whitespace at
   * either end.
   */
  lemma LineEntryReadsWrittenLine(key: string, value: int)
    requires key != "" && '\t' !in key
    requires !IsWhitespace(key[0]) && !IsWhitespace(key[|key| - 1])
    ensures LineEntry(key + "\t" + IntToString(value)) == Some((key, value))
  {
    var v := IntToString(value);
    var line := key + "\t" + v;
    assert v == (if value < 0 then "-" + NatToString(-value) else NatToString(value));
    assert v != "" && !IsWhitespace(v[|v| - 1]) && !IsWhitespace(v[0]);
    assert '\t' !in v by {
      if value < 0 {
        assert forall i :: 1 <= i < |v| ==> IsDigit(v[i]);
      }
    }
    assert line[0] == key[0] && line[|line| - 1] == v[|v| - 1];
    TrimmedIsTrim(line);
    assert line == Join([key, v], '\t');
    SplitJoin([key, v], '\t');
    TrimmedIsTrim(key);
    TrimmedIsTrim(v);
    ParseIntToString(value);
  }

  // ---------------------------------------------------------------------------
  // parseCSVLine
  // ---------------------------------------------------------------------------

  /**
   * The reader's loop over the rest `s` of the line, in quoted mode or not,
   * with the field read so far in `current`: a doubled quote inside quotes
   * adds one quote, any other quote toggles the mode, a comma outside quotes
   * ends the field, and every other character is kept. Each field is
   * trimmed when it ends.
   */
  function Scan(s: string, inQuotes: bool, current: string): (fields: seq<string>)
    ensures |fields| >= 1
    decreases |s|
  {
    if s == [] then [Trim(current)]
    else if s[0] == '"' then
      if inQuotes && |s| > 1 && s[1] == '"' then Scan(s[2..], inQuotes, current + "\"")
      else Scan(s[1..], !inQuotes, current)
    else if s[0] == ',' && !inQuotes then [Trim(current)] + Scan(s[1..], false, "")
    else Scan(s[1..], inQuotes, current + [s[0]])
  }

  /** `parseCSVLine`. */
  function ParseCSVLine(line: string): (fields: seq<string>)
    ensures |fields| == 1 + Separators(line, false)
  {
    ScanCount(line, false, "");
    Scan(line, false, "")
  }

  /**
   * The commas that separate fields: those met outside quotes, where the
   * quote state follows the same toggling, with a doubled quote inside
   * quotes counting as a literal.
   */
  function Separators(s: string, inQuotes: bool): nat
    decreases |s|
  {
    if s == [] then 0
    else if s[0] == '"' then
      if inQuotes && |s| > 1 && s[1] == '"' then Separators(s[2..], inQuotes)
      else Separators(s[1..], !inQuotes)
    else (if s[0] == ',' && !inQuotes then 1 else 0) + Separators(s[1..], inQuotes)
  }

  lemma {:induction false} ScanCount(s: string, inQuotes: bool, current: string)
    ensures |Scan(s, inQuotes, current)| == 1 + Separators(s, inQuotes)
    decreases |s|
  {
    if s == [] {
    } else if s[0] == '"' {
      if inQuotes && |s| > 1 && s[1] == '"' {
        ScanCount(s[2..], inQuotes, current + "\"");
      } else {
        ScanCount(s[1..], !inQuotes, current);
      }
    } else if s[0] == ',' && !inQuotes {
      ScanCount(s[1..], false, "");
    } else {
      ScanCount(s[1..], inQuotes, current + [s[0]]);
    }
  }

  /** Without any quote, every comma separates: a line has one field more than it has commas. */
  lemma {:induction false} QuoteFreeSeparators(s: string, inQuotes: bool)
    requires '"' !in s
    requires !inQuotes
    ensures Separators(s, inQuotes) == CountChar(s, ',')
    decreases |s|
  {
    if s != [] {
      QuoteFreeSeparators(s[1..], inQuotes);
    }
  }

  /** `f` with every quote doubled, the way a CSV writer escapes a quoted field. */
  function Escape(f: string): (e: string)
    ensures |e| >= |f|
  {
    if f == [] then []
    else (if f[0] == '"' then "\"\"" else [f[0]]) + Escape(f[1..])
  }

  /** `f` as a quoted CSV field. */
  function Quote(f: string): string {
    "\"" + Escape(f) + "\""
  }

  lemma ScanDoubledQuote(t: string, current: string)
    ensures Scan("\"\"" + t, true, current) == Scan(t, true, current + "\"")
  {
    assert ("\"\"" + t)[2..] == t;
  }

  lemma ScanOrdinary(c: char, t: string, current: string)
    requires c != '"'
    ensures Scan([c] + t, true, current) == Scan(t, true, current + [c])
  {
    assert ([c] + t)[1..] == t;
  }

  lemma ScanClosingQuote(rest: string, current: string)
    requires rest == [] || rest[0] != '"'
    ensures Scan("\"" + rest, true, current) == Scan(rest, false, current)
  {
    assert ("\"" + rest)[1..] == rest;
  }

  /** Reading an escaped body up to its closing quote adds the field's text as it was. */
  lemma {:induction false} ScanEscaped(f: string, rest: string, current: string)
    requires rest == [] || rest[0] != '"'
    ensures Scan(Escape(f) + "\"" + rest, true, current) == Scan(rest, false, current + f)
    decreases |f|
  {
    if f == [] {
      assert Escape(f) + "\"" + rest == "\"" + rest;
      ScanClosingQuote(rest, current);
      assert current + f == current;
    } else {
      ScanEscaped(f[1..], rest, current + [f[0]]);
      assert current + [f[0]] + f[1..] == current + f;
      ScanEscapedHead(f, rest, current);
    }
  }

  /** One step of `ScanEscaped`: the first character of the field, escaped, is read as itself. */
  lemma ScanEscapedHead(f: string, rest: string, current: string)
    requires f != []
    ensures Scan(Escape(f) + "\"" + rest, true, current) == Scan(Escape(f[1..]) + "\"" + rest, true, current + [f[0]])
  {
    var tail := Escape(f[1..]) + "\"" + rest;
    if f[0] == '"' {
      assert Escape(f) + "\"" + rest == "\"\"" + tail;
      ScanDoubledQuote(tail, current);
      assert current + "\"" == current + [f[0]];
    } else {
      assert Escape(f) + "\"" + rest == [f[0]] + tail;
      ScanOrdinary(f[0], tail, current);
    }
  }

  /** Quoted fields joined by commas. */
  function JoinQuoted(fields: seq<string>): string
    requires |fields| >= 1
  {
    if |fields| == 1 then Quote(fields[0]) else Quote(fields[0]) + "," + JoinQuoted(fields[1..])
  }

  /**
   * Quoted fields joined by commas read back as the trimmed fields: commas
   * inside quotes stay in their field, and a doubled quote is one quote.
   */
  lemma {:induction false} ParseCSVLineReadsQuotedFields(fields: seq<string>)
    requires |fields| >= 1
    ensures ParseCSVLine(JoinQuoted(fields)) == TrimAll(fields)
  {
    var f := fields[0];
    var rest := if |fields| == 1 then "" else "," + JoinQuoted(fields[1..]);
    var body := Escape(f) + "\"" + rest;
    assert JoinQuoted(fields) == "\"" + body;
    assert ("\"" + body)[1..] == body;
    assert Scan(JoinQuoted(fields), false, "") == Scan(body, true, "");
    ScanEscaped(f, rest, "");
    assert "" + f == f;
    if |fields| > 1 {
      ParseCSVLineReadsQuotedFields(fields[1..]);
      assert rest[1..] == JoinQuoted(fields[1..]);
      assert Scan(rest, false, f) == [Trim(f)] + Scan(JoinQuoted(fields[1..]), false, "");
    }
  }

  /** Every field trimmed. */
  function TrimAll(fields: seq<string>): (r: seq<string>)
    ensures |r| == |fields|
    ensures forall i :: 0 <= i < |fields| ==> r[i] == Trim(fields[i])
  {
    if fields == [] then [] else [Trim(fields[0])] + TrimAll(fields[1..])
  }

  // ---------------------------------------------------------------------------
  // parseCSV
  // ---------------------------------------------------------------------------

  const DefaultName := "알 수 없는 캐릭터"
  const DefaultTagline := "설명이 없습니다."

  /** The non-float columns of a cluster record. */
  datatype ClusterRecord = ClusterRecord(id: int, nameKo: string, taglineKo: string)

  /**
   * `row[name]` after `headers.forEach((h, i) => row[h] = values[i] || '')`:
   * the value under the last header with that name, '' when that value is
   * missing, and `None` (undefined) when no header has that name.
   */
  function Column(headers: seq<string>, values: seq<string>, name: string): (v: Option<string>)
    ensures v.Some? <==> name in headers
  {
    match LastHeader(headers, name)
    case None => None
    case Some(i) => Some(if i < |values| then values[i] else "")
  }

  /** The position of the last header called `name`. */
  function LastHeader(headers: seq<string>, name: string): (i: Option<nat>)
    ensures i.None? <==> name !in headers
    ensures i.Some? ==> i.value < |headers| && headers[i.value] == name
    ensures i.Some? ==> forall j :: i.value < j < |headers| ==> headers[j] != name
  {
    if headers == [] then None
    else if headers[|headers| - 1] == name then Some(|headers| - 1)
    else LastHeader(headers[..|headers| - 1], name)
  }

  /** Headers named once: the column is the value in that header's position, '' if the line is short. */
  lemma ColumnOfUniqueHeader(headers: seq<string>, values: seq<string>, i: nat)
    requires i < |headers|
    requires forall j :: 0 <= j < |headers| && j != i ==> headers[j] != headers[i]
    ensures Column(headers, values, headers[i]) == Some(if i < |values| then values[i] else "")
  {
  }

  /** `s || fallback` for a string that may be undefined. */
  function OrText(s: Option<string>, fallback: string): string {
    if NonEmpty(s) then s.value else fallback
  }

  /** One data line, the `idx`-th (from 0), as a record. */
  function ParseRecord(headers: seq<string>, line: string, idx: nat): (r: ClusterRecord)
    ensures var values := ParseCSVLine(line);
      var id := Column(headers, values, "id");
      && (id.Some? && Truthy(ParseInt(id.value)) ==> Some(r.id) == ParseInt(id.value))
      && (id.None? || !Truthy(ParseInt(id.value)) ==> r.id == idx + 1)
      && (NonEmpty(Column(headers, values, "name_ko")) ==> r.nameKo == Column(headers, values, "name_ko").value)
      && (NonEmpty(Column(headers, values, "tagline_ko")) ==> r.taglineKo == Column(headers, values, "tagline_ko").value)
      && (!NonEmpty(Column(headers, values, "name_ko")) ==> r.nameKo == DefaultName)
      && (!NonEmpty(Column(headers, values, "tagline_ko")) ==> r.taglineKo == DefaultTagline)
  {
    var values := ParseCSVLine(line);
    var id := Column(headers, values, "id");
    ClusterRecord(
      if id.Some? then Or(ParseInt(id.value), idx + 1) else idx + 1,
      OrText(Column(headers, values, "name_ko"), DefaultName),
      OrText(Column(headers, values, "tagline_ko"), DefaultTagline))
  }

  /**
   * `parseCSV`: fewer than two lines give no records; otherwise the first
   * line names the columns and every further line gives one record.
   */
  function ParseCSV(text: string): (records: seq<ClusterRecord>)
    ensures var lines := Split(Trim(text), '\n');
      && (|lines| < 2 ==> records == [])
      && (|lines| >= 2 ==> |records| == |lines| - 1)
      && (|lines| >= 2 ==> forall i :: 0 <= i < |records| ==>
            records[i] == ParseRecord(ParseCSVLine(lines[0]), lines[i + 1], i))
  {
    var lines := Split(Trim(text), '\n');
    if |lines| < 2 then []
    else
      var headers := ParseCSVLine(lines[0]);
      seq(|lines| - 1, i requires 0 <= i < |lines| - 1 => ParseRecord(headers, lines[i + 1], i))
  }

  /** A record whose line lacks a column gets that column's default. */
  lemma MissingColumnDefaults(headers: seq<string>, line: string, idx: nat)
    requires "id" !in headers && "name_ko" !in headers
    ensures ParseRecord(headers, line, idx).id == idx + 1
    ensures ParseRecord(headers, line, idx).nameKo == DefaultName
  {
  }
}
