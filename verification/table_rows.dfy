/**
 * Turning a component's records into the header and rows of a spreadsheet
 * table (`buildTableRows`). A record is a JavaScript object; it is modelled as
 * its entries in `Object.keys` order, so the order the program sees is explicit.
 */
module TableRows {
  import opened Wrappers
  import opened Errors

  /** A scalar cell value, `Undefined` included (what reading a missing key gives). */
  datatype Value = Undefined | Null | Bool(b: bool) | Num(n: int) | Str(s: string)

  type Entry = (string, Value)

  /** An object never holds the same key twice. */
  predicate DistinctKeys(entries: seq<Entry>) {
    forall i, j :: 0 <= i < j < |entries| ==> entries[i].0 != entries[j].0
  }

  type Record = entries: seq<Entry> | DistinctKeys(entries)

  /** A component of an exported page; `data[0]` holds the records of its table. */
  datatype Component = Component(uuid: string, title: string, typeName: string, data: seq<seq<Record>>)

  /** A table column as handed to the spreadsheet library. */
  datatype Column = Column(name: string, filterButton: bool)

  datatype TableRows = TableRows(columns: seq<Column>, rows: seq<seq<Value>>)

  /** The two keys the program destructures out of every record. */
  predicate IsNameOrValue(key: string) {
    key == "name" || key == "value"
  }

  /** `Object.keys(d)`. */
  function Keys(d: seq<Entry>): seq<string> {
    seq(|d|, i requires 0 <= i < |d| => d[i].0)
  }

  /** The values of some entries, in order. */
  function Values(d: seq<Entry>): seq<Value> {
    seq(|d|, i requires 0 <= i < |d| => d[i].1)
  }

  /** `d[k]`: the value stored under `k`, or `undefined` when `d` has no such key. */
  function Get(d: seq<Entry>, k: string): (v: Value)
    ensures (forall e :: e in d ==> e.0 != k) ==> v == Undefined
    ensures DistinctKeys(d) ==> forall e :: e in d && e.0 == k ==> v == e.1
  {
    if |d| == 0 then Undefined
    else if d[0].0 == k then d[0].1
    else
      assert DistinctKeys(d) ==> DistinctKeys(d[1..]);
      assert forall e :: e in d && e != d[0] ==> e in d[1..];
      Get(d[1..], k)
  }

  /** `rest` in `const { name, value, ...rest } = d`: every other entry, in order. */
  function Rest(d: seq<Entry>): (rest: seq<Entry>)
    ensures |rest| <= |d|
    ensures forall i :: 0 <= i < |rest| ==> !IsNameOrValue(rest[i].0)
  {
    if |d| == 0 then []
    else if IsNameOrValue(d[0].0) then Rest(d[1..])
    else [d[0]] + Rest(d[1..])
  }

  /** The rest holds exactly the entries whose key is neither `name` nor `value`. */
  lemma {:induction false} RestEntries(d: seq<Entry>)
    ensures forall e :: e in Rest(d) ==> e in d && !IsNameOrValue(e.0)
    ensures forall e :: e in d && !IsNameOrValue(e.0) ==> e in Rest(d)
  {
    if |d| > 0 {
      RestEntries(d[1..]);
      assert d == [d[0]] + d[1..];
    }
  }

  /** A single entry is kept exactly when its key is neither `name` nor `value`. */
  lemma RestOne(e: Entry)
    ensures !IsNameOrValue(e.0) ==> Rest([e]) == [e]
    ensures IsNameOrValue(e.0) ==> Rest([e]) == []
  {
    assert [e][1..] == [];
  }

  /**
   * The rest of a concatenation is the concatenation of the rests, so the
   * kept entries stay in the record's order; with `RestOne` this pins down
   * `Rest` completely.
   */
  lemma {:induction false} RestAppend(a: seq<Entry>, b: seq<Entry>)
    ensures Rest(a + b) == Rest(a) + Rest(b)
  {
    if |a| == 0 {
      assert a + b == b;
    } else {
      assert (a + b)[0] == a[0];
      assert (a + b)[1..] == a[1..] + b;
      RestAppend(a[1..], b);
    }
  }

  /** `['name', 'value', ...Object.keys(rest)]`. */
  function RowKeys(d: seq<Entry>): seq<string> {
    ["name", "value"] + Keys(Rest(d))
  }

  /** `keys.map((k) => d[k])`. */
  function Row(d: seq<Entry>): (row: seq<Value>)
    ensures |row| == 2 + |Rest(d)|
    ensures row[0] == Get(d, "name") && row[1] == Get(d, "value")
  {
    var keys := RowKeys(d);
    seq(|keys|, i requires 0 <= i < |keys| => Get(d, keys[i]))
  }

  /** `keys.map(k => ({ name: `(${k})`, filterButton: false }))`. */
  function Header(d: seq<Entry>): (columns: seq<Column>)
    ensures |columns| == 2 + |Rest(d)|
    ensures forall j :: 0 <= j < |columns| ==> !columns[j].filterButton
  {
    var keys := RowKeys(d);
    seq(|keys|, i requires 0 <= i < |keys| => Column("(" + keys[i] + ")", false))
  }

  /**
   * A row lists the record's `name`, then its `value`, then the values of its
   * remaining entries in the record's own order.
   */
  lemma RowLayout(d: Record)
    ensures Row(d) == [Get(d, "name"), Get(d, "value")] + Values(Rest(d))
  {
    var rest := Rest(d);
    RestEntries(d);
    forall j | 0 <= j < |rest|
      ensures Get(d, rest[j].0) == rest[j].1
    {
      assert rest[j] in rest;
    }
  }

  /**
   * `buildTableRows`: one row per record of `data[0]`, and one header column
   * per key of the first record; it throws when `data[0]` or its first record
   * is missing.
   */
  function BuildTableRows(c: Component): (r: Result<TableRows, Failure>)
    ensures r.Ok? <==> |c.data| > 0 && |c.data[0]| > 0
    ensures |c.data| == 0 ==> r == Err(MissingDataSet)
    ensures |c.data| > 0 && |c.data[0]| == 0 ==> r == Err(MissingFirstRecord)
    ensures r.Ok? ==> |r.value.rows| == |c.data[0]|
  {
    if |c.data| == 0 then Err(MissingDataSet)
    else
      var records := c.data[0];
      var rows := seq(|records|, i requires 0 <= i < |records| => Row(records[i]));
      if |records| == 0 then Err(MissingFirstRecord)
      else Ok(TableRows(Header(records[0]), rows))
  }

  /**
   * What `buildTableRows` puts in a table: every row is the record's `name`,
   * its `value`, then its remaining values in record order; the header is
   * "(name)", "(value)", then "(k)" for each remaining key k of the first
   * record, in that record's order, none with a filter button.
   */
  lemma BuildTableRowsContent(c: Component)
    requires BuildTableRows(c).Ok?
    ensures var t := BuildTableRows(c).value; var first := c.data[0][0];
      && (forall i :: 0 <= i < |c.data[0]| ==>
            t.rows[i] == [Get(c.data[0][i], "name"), Get(c.data[0][i], "value")] + Values(Rest(c.data[0][i])))
      && |t.columns| == 2 + |Rest(first)|
      && t.columns[..2] == [Column("(name)", false), Column("(value)", false)]
      && (forall j :: 0 <= j < |Rest(first)| ==> t.columns[j + 2] == Column("(" + Rest(first)[j].0 + ")", false))
  {
    RowsLayout(c.data[0]);
    HeaderLayout(c.data[0][0]);
  }

  lemma HeaderLayout(d: seq<Entry>)
    ensures |Header(d)| == 2 + |Rest(d)|
    ensures Header(d)[..2] == [Column("(name)", false), Column("(value)", false)]
    ensures forall j :: 0 <= j < |Rest(d)| ==> Header(d)[j + 2] == Column("(" + Rest(d)[j].0 + ")", false)
  {
    assert "(" + "name" + ")" == "(name)";
    assert "(" + "value" + ")" == "(value)";
  }

  lemma RowsLayout(records: seq<Record>)
    ensures forall i :: 0 <= i < |records| ==>
      Row(records[i]) == [Get(records[i], "name"), Get(records[i], "value")] + Values(Rest(records[i]))
  {
    forall i | 0 <= i < |records| {
      RowLayout(records[i]);
    }
  }

  /**
   * When every record keeps its remaining keys in the first record's order,
   * column j of every row holds the value of the key column j is named after.
   */
  lemma HeaderAlignsWithRows(c: Component)
    requires BuildTableRows(c).Ok?
    requires forall i :: 0 <= i < |c.data[0]| ==> Keys(Rest(c.data[0][i])) == Keys(Rest(c.data[0][0]))
    ensures var t := BuildTableRows(c).value;
      forall i, j :: 0 <= i < |t.rows| && 0 <= j < |t.columns| ==>
        j < |t.rows[i]| && t.columns[j].name == "(" + RowKeys(c.data[0][0])[j] + ")"
        && t.rows[i][j] == Get(c.data[0][i], RowKeys(c.data[0][0])[j])
  {
  }
}
