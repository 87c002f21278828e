/** The audit log export, and a reader for it after section 2 of RFC 4180 with records ended by LF. */
module Csv {
  import opened Wrappers

  /** A column as text; None for null and undefined. */
  type Value = Option<string>

  /** What the export reads of an audit record, dates already in ISO form. */
  datatype Audit = Audit(id: Value, tokenName: Value, contractId: Value, status: Value, errorMessage: Value,
                         createdAt: Value)

  const CSV_HEADERS := "id" + "," + "tokenName" + "," + "contractId" + "," + "status" + "," + "errorMessage" + ","
    + "createdAt" + "\n"

  // ----- Writing -----

  function DoubleQuotes(s: string): string {
    if s == [] then [] else (if s[0] == '"' then ['"', '"'] else [s[0]]) + DoubleQuotes(s[1..])
  }

  function EscapeCSV(val: Value): string {
    if val.None? then ""
    else if ',' in val.value || '"' in val.value || '\n' in val.value then ['"'] + DoubleQuotes(val.value) + ['"']
    else val.value
  }

  lemma {:induction false} DoublingOnlyAdds(s: string)
    ensures |DoubleQuotes(s)| >= |s|
  {
    if s != "" {
      DoublingOnlyAdds(s[1..]);
    }
  }

  /** A text stays as it is exactly if it has no comma, no quote and no line break. */
  lemma StaysPlainExactly(s: string)
    ensures EscapeCSV(Some(s)) == s <==> forall i :: 0 <= i < |s| ==> s[i] !in {',', '"', '\n'}
  {
    DoublingOnlyAdds(s);
    assert |['"'] + DoubleQuotes(s) + ['"']| > |s|;
  }

  function Columns(doc: Audit): seq<Value> {
    [doc.id, doc.tokenName, doc.contractId, doc.status, doc.errorMessage, doc.createdAt]
  }

  /** Escaped values with commas between them. */
  function Joined(vals: seq<Value>): string {
    if vals == [] then "" else if |vals| == 1 then EscapeCSV(vals[0]) else EscapeCSV(vals[0]) + "," + Joined(vals[1..])
  }

  function RowToCSV(doc: Audit): string {
    Joined(Columns(doc)) + "\n"
  }

  function Rows(docs: seq<Audit>): string {
    if docs == [] then "" else RowToCSV(docs[0]) + Rows(docs[1..])
  }

  function Export(docs: seq<Audit>): string {
    CSV_HEADERS + Rows(docs)
  }

  // ----- Reading -----

  type Record = seq<string>

  datatype Mode = FieldStart | Plain | Quoted | QuoteSeen | Malformed

  /** A reader between two characters: finished records, finished fields of the current one, current field. */
  datatype Reader = Reader(records: seq<Record>, fields: Record, field: string, mode: Mode)

  const START := Reader([], [], "", FieldStart)

  function EndField(r: Reader): Reader {
    Reader(r.records, r.fields + [r.field], "", FieldStart)
  }

  function EndRecord(r: Reader): Reader {
    Reader(r.records + [r.fields + [r.field]], [], "", FieldStart)
  }

  function Read(r: Reader, c: char): Reader {
    match r.mode
    case Malformed => r
    case Quoted => if c == '"' then r.(mode := QuoteSeen) else r.(field := r.field + [c])
    case QuoteSeen =>
      if c == '"' then r.(field := r.field + [c], mode := Quoted)
      else if c == ',' then EndField(r)
      else if c == '\n' then EndRecord(r)
      else r.(mode := Malformed)
    case _ =>
      if c == ',' then EndField(r)
      else if c == '\n' then EndRecord(r)
      else if c == '"' then (if r.mode.FieldStart? then r.(mode := Quoted) else r.(mode := Malformed))
      else r.(field := r.field + [c], mode := Plain)
  }

  function ReadAll(r: Reader, text: string): Reader
    decreases |text|
  {
    if text == [] then r else ReadAll(Read(r, text[0]), text[1..])
  }

  /** The records of a text; the last one may lack its line break. */
  function Parse(text: string): Option<seq<Record>> {
    var r := ReadAll(START, text);
    if r.mode.Malformed? || r.mode.Quoted? then None
    else if r.mode.FieldStart? && r.fields == [] then Some(r.records)
    else Some(EndRecord(r).records)
  }

  // ----- Round trip -----

  function Shown(val: Value): string {
    if val.None? then "" else val.value
  }

  function ShownAll(vals: seq<Value>): Record {
    seq(|vals|, i requires 0 <= i < |vals| => Shown(vals[i]))
  }

  lemma {:induction false} ReadConcat(r: Reader, a: string, b: string)
    ensures ReadAll(r, a + b) == ReadAll(ReadAll(r, a), b)
    decreases |a|
  {
    if a == [] {
      assert a + b == b;
    } else {
      assert (a + b)[1..] == a[1..] + b;
      ReadConcat(Read(r, a[0]), a[1..], b);
    }
  }

  /** Inside quotes, text with its quotes doubled reads as itself. */
  lemma {:induction false} QuotedReads(r: Reader, s: string)
    requires r.mode.Quoted?
    ensures ReadAll(r, DoubleQuotes(s)) == r.(field := r.field + s)
    decreases |s|
  {
    if s == [] {
      assert r.field + s == r.field;
    } else {
      var next := r.(field := r.field + [s[0]]);
      var rest := DoubleQuotes(s[1..]);
      assert r.field + s == next.field + s[1..];
      QuotedReads(next, s[1..]);
      if s[0] == '"' {
        var t := DoubleQuotes(s);
        assert t[0] == '"' && t[1..] == ['"'] + rest;
        assert t[1..][0] == '"' && t[1..][1..] == rest;
      } else {
        assert DoubleQuotes(s)[1..] == rest;
      }
    }
  }

  lemma {:induction false} PlainReads(r: Reader, s: string)
    requires (r.mode.FieldStart? || r.mode.Plain?) && s != []
    requires ',' !in s && '"' !in s && '\n' !in s
    ensures ReadAll(r, s) == r.(field := r.field + s, mode := Plain)
    decreases |s|
  {
    var next := Read(r, s[0]);
    if |s| == 1 {
      assert s[1..] == [] && s == [s[0]];
    } else {
      PlainReads(next, s[1..]);
      assert r.field + s == next.field + s[1..];
    }
  }

  /** An escaped value followed by a comma or line break ends one field that reads as the value. */
  lemma FieldReads(r: Reader, val: Value, c: char)
    requires r.mode.FieldStart? && r.field == "" && (c == ',' || c == '\n')
    ensures ReadAll(r, EscapeCSV(val) + [c])
            == (if c == ',' then EndField(r.(field := Shown(val))) else EndRecord(r.(field := Shown(val))))
  {
    var text := EscapeCSV(val);
    ReadConcat(r, text, [c]);
    if val.None? || val.value == "" {
      assert text + [c] == [c];
    } else {
      var s := val.value;
      assert r.field + s == s;
      if ',' in s || '"' in s || '\n' in s {
        var q := Read(r, '"');
        ReadConcat(r, ['"'] + DoubleQuotes(s), ['"']);
        ReadConcat(r, ['"'], DoubleQuotes(s));
        QuotedReads(q, s);
      } else {
        PlainReads(r, s);
      }
    }
  }

  lemma {:induction false} RowReads(r: Reader, vals: seq<Value>)
    requires r.mode.FieldStart? && r.field == "" && vals != []
    ensures ReadAll(r, Joined(vals) + "\n") == Reader(r.records + [r.fields + ShownAll(vals)], [], "", FieldStart)
    decreases |vals|
  {
    hide EscapeCSV;
    if |vals| == 1 {
      FieldReads(r, vals[0], '\n');
      assert ShownAll(vals) == [Shown(vals[0])];
    } else {
      var rest := Joined(vals[1..]) + "\n";
      FieldReads(r, vals[0], ',');
      var next := EndField(r.(field := Shown(vals[0])));
      ReadConcat(r, EscapeCSV(vals[0]) + ",", rest);
      RowReads(next, vals[1..]);
      assert Joined(vals) + "\n" == (EscapeCSV(vals[0]) + ",") + rest;
      assert r.fields + ShownAll(vals) == next.fields + ShownAll(vals[1..]);
    }
  }

  function Expected(docs: seq<Audit>): seq<Record> {
    seq(|docs|, i requires 0 <= i < |docs| => ShownAll(Columns(docs[i])))
  }

  lemma {:induction false} RowsRead(r: Reader, docs: seq<Audit>)
    requires r.mode.FieldStart? && r.field == "" && r.fields == []
    ensures ReadAll(r, Rows(docs)) == r.(records := r.records + Expected(docs))
    decreases |docs|
  {
    if docs == [] {
      assert r.records + Expected(docs) == r.records;
    } else {
      var record := ShownAll(Columns(docs[0]));
      RowReads(r, Columns(docs[0]));
      assert r.fields + record == record;
      var next := r.(records := r.records + [record]);
      ReadConcat(r, RowToCSV(docs[0]), Rows(docs[1..]));
      RowsRead(next, docs[1..]);
      assert r.records + Expected(docs) == next.records + Expected(docs[1..]);
    }
  }

  const HEADER := Audit(Some("id"), Some("tokenName"), Some("contractId"), Some("status"), Some("errorMessage"),
    Some("createdAt"))

  predicate Bare(s: string) {
    ',' !in s && '"' !in s && '\n' !in s
  }

  lemma BareJoins(front: string, name: string, vals: seq<Value>, all: seq<Value>)
    requires Bare(name) && vals != [] && all == [Some(name)] + vals
    ensures front + Joined(all) == front + name + "," + Joined(vals)
  {
    assert all[1..] == vals;
  }

  lemma BareRow(a: string, b: string, c: string, d: string, e: string, f: string)
    requires Bare(a) && Bare(b) && Bare(c) && Bare(d) && Bare(e) && Bare(f)
    ensures Joined([Some(a), Some(b), Some(c), Some(d), Some(e), Some(f)]) + "\n"
            == a + "," + b + "," + c + "," + d + "," + e + "," + f + "\n"
  {
    assert Joined([Some(f)]) == f;
    hide Joined, Bare;
    BareJoins("", a, [Some(b), Some(c), Some(d), Some(e), Some(f)],
      [Some(a), Some(b), Some(c), Some(d), Some(e), Some(f)]);
    BareJoins(a + ",", b, [Some(c), Some(d), Some(e), Some(f)], [Some(b), Some(c), Some(d), Some(e), Some(f)]);
    BareJoins(a + "," + b + ",", c, [Some(d), Some(e), Some(f)], [Some(c), Some(d), Some(e), Some(f)]);
    BareJoins(a + "," + b + "," + c + ",", d, [Some(e), Some(f)], [Some(d), Some(e), Some(f)]);
    BareJoins(a + "," + b + "," + c + "," + d + ",", e, [Some(f)], [Some(e), Some(f)]);
  }

  lemma HeaderIsARow()
    ensures RowToCSV(HEADER) == CSV_HEADERS
  {
    BareRow("id", "tokenName", "contractId", "status", "errorMessage", "createdAt");
    hide Joined, Bare;
  }

  /** Whatever the values hold, commas, quotes and line breaks included, rows read back as one record each with
      the row's own six values; null reads as the empty string. */
  lemma RowsReadBack(docs: seq<Audit>)
    ensures Parse(Rows(docs)) == Some(Expected(docs))
  {
    RowsRead(START, docs);
    hide ReadAll, Rows, Expected;
    assert [] + Expected(docs) == Expected(docs);
  }

  lemma ExportReadsBack(docs: seq<Audit>)
    ensures Parse(Export(docs)) == Some([ShownAll(Columns(HEADER))] + Expected(docs))
  {
    var all := [HEADER] + docs;
    RowsReadBack(all);
    hide Parse, RowToCSV, ShownAll, Columns;
    HeaderIsARow();
    assert all[0] == HEADER && all[1..] == docs;
    assert Expected(all) == [ShownAll(Columns(HEADER))] + Expected(docs);
    hide HEADER, CSV_HEADERS;
  }
}
