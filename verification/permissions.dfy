/** `formatData` of public/js/permissions.js: renders the JSON answer of an endpoint as
    HTML — a table for an array, a `<pre>` block for an object, a paragraph otherwise. */
module Permissions {
  import opened Wrappers
  import opened Sequences
  import opened Text

  /** A value produced by `response.json()`. An object keeps its properties in the order
      `Object.keys` enumerates them. */
  datatype Json =
    | JNull
    | JBool(b: bool)
    | JNumber(n: real)
    | JString(s: string)
    | JArray(items: seq<Json>)
    | JObject(fields: seq<(string, Json)>)

  /** Host operations the model leaves abstract: the decimal text of a number and
      `JSON.stringify(v, null, 2)`. */
  datatype Host = Host(numberText: real -> string, stringify: Json -> string)

  /** JavaScript falsiness of a JSON value: null, false, 0 and the empty string. */
  predicate Falsy(v: Json) {
    v == JNull || v == JBool(false) || v == JNumber(0.0) || v == JString("")
  }

  /** `parts.join(sep)`. */
  function Join(parts: seq<string>, sep: string): string
    decreases |parts|
  {
    if |parts| == 0 then ""
    else if |parts| == 1 then parts[0]
    else Join(parts[..|parts| - 1], sep) + sep + parts[|parts| - 1]
  }

  /** Whether `String(v)` returns at all. A parsed object with an own property named
      `toString` shadows the inherited method with a value that cannot be called, so the
      conversion falls back to `valueOf`, gets the object back and throws a TypeError; an
      array converts through `join`, which converts each element in turn. */
  predicate HasStringForm(v: Json)
    decreases v
  {
    match v
    case JObject(fields) => forall i :: 0 <= i < |fields| ==> fields[i].0 != "toString"
    case JArray(items) => forall i :: 0 <= i < |items| ==> HasStringForm(items[i])
    case _ => true
  }

  /** `${v}`, that is `String(v)`. Inside an array, null prints as the empty string. */
  function ToText(v: Json, host: Host): string
    requires HasStringForm(v)
    decreases v
  {
    match v
    case JNull => "null"
    case JBool(b) => if b then "true" else "false"
    case JNumber(n) => host.numberText(n)
    case JString(s) => s
    case JArray(items) =>
      Join(seq(|items|, i requires 0 <= i < |items| => if items[i] == JNull then "" else ToText(items[i], host)), ",")
    case JObject(_) => "[object Object]"
  }

  /** The decimal index strings "0", "1", ..., of a sequence of length n. */
  function IndexKeys(n: nat): (r: seq<string>)
    ensures |r| == n
  {
    seq(n, i requires 0 <= i < n => NatToString(i))
  }

  /** `Object.keys(v)` for a non-null value. */
  function Keys(v: Json): seq<string> {
    match v
    case JObject(fields) => seq(|fields|, i requires 0 <= i < |fields| => fields[i].0)
    case JArray(items) => IndexKeys(|items|)
    case JString(s) => IndexKeys(|s|)
    case _ => []
  }

  /** `Object.values(v)` for a non-null value (for null it throws). */
  function Values(v: Json): seq<Json> {
    match v
    case JObject(fields) => seq(|fields|, i requires 0 <= i < |fields| => fields[i].1)
    case JArray(items) => items
    case JString(s) => seq(|s|, i requires 0 <= i < |s| => JString([s[i]]))
    case _ => []
  }

  /** `Object.keys(data[0] || {})`. */
  function HeaderKeys(items: seq<Json>): seq<string> {
    if |items| == 0 || Falsy(items[0]) then [] else Keys(items[0])
  }

  function Heading(endpoint: string): string {
    "<h4>Results for " + endpoint + ":</h4>"
  }

  const TableOpen := "<table border=\"1\" style=\"width: 100%; border-collapse: collapse;\">"

  /** The header row: one `<th>` per key. */
  function HeaderRow(keys: seq<string>): string {
    "<tr>" + Flatten(seq(|keys|, i requires 0 <= i < |keys| => "<th>" + keys[i] + "</th>")) + "</tr>"
  }

  /** `<td>${value || 'N/A'}</td>`. */
  function Cell(v: Json, host: Host): string
    requires HasStringForm(v)
  {
    "<td>" + (if Falsy(v) then "N/A" else ToText(v, host)) + "</td>"
  }

  /** Whether the row of `record` renders: the record is not null (`Object.values(null)`
      throws) and every value it holds has a string form. */
  predicate RowRenders(record: Json) {
    record != JNull && forall k :: 0 <= k < |Values(record)| ==> HasStringForm(Values(record)[k])
  }

  /** Whether every record of an array renders. */
  predicate TableRenders(items: seq<Json>) {
    forall i :: 0 <= i < |items| ==> RowRenders(items[i])
  }

  /** A data row: one `<td>` per value of the record. */
  function DataRow(record: Json, host: Host): string
    requires RowRenders(record)
  {
    var values := Values(record);
    "<tr>" + Flatten(seq(|values|, i requires 0 <= i < |values| => Cell(values[i], host))) + "</tr>"
  }

  /** The data rows of the records, in order. */
  function DataRows(items: seq<Json>, host: Host): (r: seq<string>)
    requires TableRenders(items)
    ensures |r| == |items|
  {
    seq(|items|, i requires 0 <= i < |items| => DataRow(items[i], host))
  }

  /** What `formatData(data, endpoint)` returns; None when it throws, which happens when
      an array holds a record whose row does not render. */
  function Formatted(data: Json, endpoint: string, host: Host): Option<string> {
    match data
    case JArray(items) =>
      if !TableRenders(items) then None
      else Some(Heading(endpoint) + TableOpen + HeaderRow(HeaderKeys(items)) +
                Flatten(DataRows(items, host)) + "</table>")
    case JObject(_) => Some(Heading(endpoint) + "<pre>" + host.stringify(data) + "</pre>")
    case JNull => Some(Heading(endpoint) + "<pre>" + host.stringify(data) + "</pre>")
    case _ => Some(Heading(endpoint) + "<p>" + ToText(data, host) + "</p>")
  }

  /** `formatData`: an array becomes a table, an object or null a `<pre>` block with its
      JSON text, anything else a paragraph with its string form. */
  method FormatData(data: Json, endpoint: string, host: Host) returns (r: Option<string>)
    ensures r == Formatted(data, endpoint, host)
  {
    if data.JArray? {
      r := FormatTable(data.items, endpoint, host);
    } else if data.JObject? || data.JNull? {
      r := Some(Heading(endpoint) + "<pre>" + host.stringify(data) + "</pre>");
    } else {
      r := Some(Heading(endpoint) + "<p>" + ToText(data, host) + "</p>");
    }
  }

  /** The array branch: the heading, the table tag and the header row, then one row per
      record appended in order, then the closing tag. */
  method FormatTable(items: seq<Json>, endpoint: string, host: Host) returns (r: Option<string>)
    ensures r == Formatted(JArray(items), endpoint, host)
  {
    var table := Heading(endpoint);
    table := table + TableOpen;
    table := table + HeaderRow(HeaderKeys(items));
    ghost var head := table;
    var i := 0;
    while i < |items|
      invariant 0 <= i <= |items|
      invariant TableRenders(items[..i])
      invariant table == head + Flatten(DataRows(items[..i], host))
    {
      if !RowRenders(items[i]) {
        return None;
      }
      DataRowsStep(head, items, i, host);
      table := table + DataRow(items[i], host);
      i := i + 1;
    }
    assert items[..i] == items;
    table := table + "</table>";
    r := Some(table);
  }

  /** Appending the row of record `i` extends the rendered rows of the records before it. */
  lemma DataRowsStep(head: string, items: seq<Json>, i: nat, host: Host)
    requires i < |items| && TableRenders(items[..i]) && RowRenders(items[i])
    ensures TableRenders(items[..i + 1])
    ensures head + Flatten(DataRows(items[..i + 1], host)) == head + Flatten(DataRows(items[..i], host)) + DataRow(items[i], host)
  {
    assert items[..i + 1] == items[..i] + [items[i]];
    DataRowsSnoc(items[..i], items[i], host);
    var done, row := Flatten(DataRows(items[..i], host)), DataRow(items[i], host);
    FlattenAppend(DataRows(items[..i], host), row);
    assert head + (done + row) == head + done + row;
  }

  lemma DataRowsSnoc(records: seq<Json>, last: Json, host: Host)
    requires TableRenders(records) && RowRenders(last)
    ensures TableRenders(records + [last])
    ensures DataRows(records + [last], host) == DataRows(records, host) + [DataRow(last, host)]
  {
    var all := records + [last];
    forall k | 0 <= k < |all|
      ensures DataRows(all, host)[k] == (DataRows(records, host) + [DataRow(last, host)])[k]
    {
      if k < |records| {
        assert all[k] == records[k];
      }
    }
  }

  /** Every branch starts with the heading naming the endpoint. */
  lemma StartsWithHeading(data: Json, endpoint: string, host: Host)
    ensures Formatted(data, endpoint, host).Some? ==> IsPrefix(Heading(endpoint), Formatted(data, endpoint, host).value)
  {
    var h := Heading(endpoint);
    assert h[..|h|] == h;
    if data.JArray? && TableRenders(data.items) {
      PrefixGrows(h, h, TableOpen);
      PrefixGrows(h, h + TableOpen, HeaderRow(HeaderKeys(data.items)));
      PrefixGrows(h, h + TableOpen + HeaderRow(HeaderKeys(data.items)), Flatten(DataRows(data.items, host)));
      PrefixGrows(h, h + TableOpen + HeaderRow(HeaderKeys(data.items)) + Flatten(DataRows(data.items, host)), "</table>");
    } else if data.JObject? || data.JNull? {
      PrefixGrows(h, h, "<pre>");
      PrefixGrows(h, h + "<pre>", host.stringify(data));
      PrefixGrows(h, h + "<pre>" + host.stringify(data), "</pre>");
    } else if !data.JArray? {
      PrefixGrows(h, h, "<p>");
      PrefixGrows(h, h + "<p>", ToText(data, host));
      PrefixGrows(h, h + "<p>" + ToText(data, host), "</p>");
    }
  }

  /** Rendering throws exactly for an array that holds a null record or a record with a
      value lacking a string form; objects, null and primitives always render. */
  lemma ThrowsExactlyOnUnrenderableRecord(data: Json, endpoint: string, host: Host)
    ensures Formatted(data, endpoint, host).None? <==>
      data.JArray? &&
      exists i :: 0 <= i < |data.items| && (data.items[i] == JNull || exists k ::
                    0 <= k < |Values(data.items[i])| && !HasStringForm(Values(data.items[i])[k]))
  {
  }

  /** `[{"a": {"toString": 1}}]` and `[[[{"toString": null}]]]` both throw: the first
      converts the inner object directly, the second through two nested `join`s. */
  lemma OwnToStringThrows(endpoint: string, host: Host)
    ensures Formatted(JArray([JObject([("a", JObject([("toString", JNumber(1.0))]))])]), endpoint, host).None?
    ensures Formatted(JArray([JArray([JArray([JObject([("toString", JNull)])])])]), endpoint, host).None?
    ensures Formatted(JArray([JObject([("toString", JNumber(1.0))])]), endpoint, host).Some?
  {
    var inner := JObject([("toString", JNumber(1.0))]);
    var record := JObject([("a", inner)]);
    assert Values(record)[0] == inner;
    assert inner.fields[0].0 == "toString";
    var nested := JArray([JObject([("toString", JNull)])]);
    assert nested.items[0].fields[0].0 == "toString";
    assert !HasStringForm(nested.items[0]);
    assert Values(JArray([nested]))[0] == nested;
    var own := JObject([("toString", JNumber(1.0))]);
    assert Values(own)[0] == JNumber(1.0);
    assert TableRenders([own]);
  }

  /** A row string: `<tr>` ... `</tr>`. */
  predicate IsRow(row: string) {
    IsPrefix("<tr>", row) && |row| >= 9 && row[|row| - 5..] == "</tr>"
  }

  lemma RowShape(inner: string)
    ensures IsRow("<tr>" + inner + "</tr>")
  {
    var row := "<tr>" + inner + "</tr>";
    assert row[..4] == "<tr>";
    assert row[|row| - 5..] == "</tr>";
  }

  lemma HeaderRowIsRow(keys: seq<string>)
    ensures IsRow(HeaderRow(keys))
  {
    RowShape(Flatten(seq(|keys|, k requires 0 <= k < |keys| => "<th>" + keys[k] + "</th>")));
  }

  lemma DataRowIsRow(record: Json, host: Host)
    requires RowRenders(record)
    ensures IsRow(DataRow(record, host))
  {
    var values := Values(record);
    RowShape(Flatten(seq(|values|, k requires 0 <= k < |values| => Cell(values[k], host))));
  }

  /** The table of an array: exactly one header row built from the first record's keys,
      followed by one row per record in array order, closed by `</table>`. */
  lemma TableShape(items: seq<Json>, endpoint: string, host: Host) returns (rows: seq<string>)
    requires TableRenders(items)
    ensures |rows| == |items| + 1
    ensures rows[0] == HeaderRow(HeaderKeys(items))
    ensures forall i :: 0 <= i < |items| ==> rows[i + 1] == DataRow(items[i], host)
    ensures forall i :: 0 <= i < |rows| ==> IsRow(rows[i])
    ensures Formatted(JArray(items), endpoint, host) ==
            Some(Heading(endpoint) + TableOpen + Flatten(rows) + "</table>")
  {
    rows := TableRows(items, host);
    TableText(items, endpoint, host);
  }

  /** The header row followed by the data rows. */
  lemma TableRows(items: seq<Json>, host: Host) returns (rows: seq<string>)
    requires TableRenders(items)
    ensures |rows| == |items| + 1
    ensures rows[0] == HeaderRow(HeaderKeys(items))
    ensures forall i :: 0 <= i < |items| ==> rows[i + 1] == DataRow(items[i], host)
    ensures forall i :: 0 <= i < |rows| ==> IsRow(rows[i])
    ensures Flatten(rows) == HeaderRow(HeaderKeys(items)) + Flatten(DataRows(items, host))
  {
    var head, data := HeaderRow(HeaderKeys(items)), DataRows(items, host);
    rows := [head] + data;
    forall i | 0 <= i < |items| ensures rows[i + 1] == DataRow(items[i], host) {
      assert rows[i + 1] == data[i];
    }
    forall i | 0 <= i < |rows| ensures IsRow(rows[i]) {
      if i == 0 {
        HeaderRowIsRow(HeaderKeys(items));
      } else {
        assert rows[i] == DataRow(items[i - 1], host);
        DataRowIsRow(items[i - 1], host);
      }
    }
    FlattenPrepend(head, data);
  }

  lemma TableText(items: seq<Json>, endpoint: string, host: Host)
    requires TableRenders(items)
    ensures Formatted(JArray(items), endpoint, host) ==
            Some(Heading(endpoint) + TableOpen + (HeaderRow(HeaderKeys(items)) + Flatten(DataRows(items, host))) + "</table>")
  {
    var front, header, rows := Heading(endpoint) + TableOpen, HeaderRow(HeaderKeys(items)), Flatten(DataRows(items, host));
    assert front + header + rows == front + (header + rows);
  }

  lemma {:induction false} FlattenPrepend(first: string, rest: seq<string>)
    ensures Flatten([first] + rest) == first + Flatten(rest)
    decreases |rest|
  {
    if rest == [] {
      assert [first] + rest == [first];
      assert Flatten([first]) == Flatten([]) + first;
    } else {
      var front, last := rest[..|rest| - 1], rest[|rest| - 1];
      FlattenPrepend(first, front);
      assert [first] + rest == ([first] + front) + [last];
      FlattenAppend([first] + front, last);
      FlattenAppend(front, last);
      assert rest == front + [last];
    }
  }

  /** An empty array renders the header row `<tr></tr>` and no data row. */
  lemma EmptyArrayTable(endpoint: string, host: Host)
    ensures Formatted(JArray([]), endpoint, host) ==
            Some(Heading(endpoint) + TableOpen + "<tr></tr>" + "</table>")
  {
    var none: seq<string> := [];
    assert HeaderKeys([]) == none;
    assert HeaderRow(none) == "<tr></tr>";
    assert DataRows([], host) == [];
    assert Flatten(DataRows([], host)) == [];
    var h := Heading(endpoint) + TableOpen;
    assert h + HeaderRow(HeaderKeys([])) + Flatten(DataRows([], host)) == h + "<tr></tr>";
  }

  /** When the first record is an object, the header cells are its property names, in order. */
  lemma HeaderFromFirstRecord(items: seq<Json>)
    requires |items| > 0 && items[0].JObject?
    ensures |HeaderKeys(items)| == |items[0].fields|
    ensures forall i :: 0 <= i < |items[0].fields| ==> HeaderKeys(items)[i] == items[0].fields[i].0
  {
  }

  /** A cell shows `N/A` for a falsy value and the value's string form otherwise; a
      non-empty string is shown verbatim. A falsy value is never converted. */
  lemma CellContent(v: Json, host: Host)
    ensures Falsy(v) ==> HasStringForm(v) && Cell(v, host) == "<td>N/A</td>"
    ensures !Falsy(v) && HasStringForm(v) ==> Cell(v, host) == "<td>" + ToText(v, host) + "</td>"
    ensures v.JString? && v.s != "" ==> Cell(v, host) == "<td>" + v.s + "</td>"
    ensures Falsy(JNumber(0.0)) && Falsy(JBool(false)) && Falsy(JNull) && Falsy(JString(""))
  {
  }

  /** An object converts exactly when it has no own `toString` property, and its cell then
      shows `[object Object]`. */
  lemma ObjectCell(v: Json, host: Host)
    ensures v.JObject? ==> (HasStringForm(v) <==> forall i :: 0 <= i < |v.fields| ==> v.fields[i].0 != "toString")
    ensures v.JObject? && HasStringForm(v) ==> Cell(v, host) == "<td>[object Object]</td>"
  {
  }

  /** A data row has one cell per value of its record, each cell the rendering of that value. */
  lemma RowCells(record: Json, host: Host) returns (cells: seq<string>)
    requires RowRenders(record)
    ensures |cells| == |Values(record)|
    ensures forall i :: 0 <= i < |cells| ==> cells[i] == Cell(Values(record)[i], host)
    ensures DataRow(record, host) == "<tr>" + Flatten(cells) + "</tr>"
  {
    var values := Values(record);
    cells := seq(|values|, i requires 0 <= i < |values| => Cell(values[i], host));
  }
}
