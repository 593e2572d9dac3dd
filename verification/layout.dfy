/**
 * The layout engine of `fillSheet`: every component becomes one table,
 * anchored at "B3" for the first and two rows below the previous table's
 * bottom edge for each next one. `sheet.addTable` is modelled as appending
 * the table, with the spread computed for it, to the result.
 */
module Layout {
  import opened Wrappers
  import opened Errors
  import opened CellRef
  import opened TableRows

  /** The table properties passed to `sheet.addTable` (its style is left out). */
  datatype Table = Table(
    name: string,
    ref: string,
    headerRow: bool,
    totalsRow: bool,
    columns: seq<Column>,
    rows: seq<seq<Value>>)

  /** An added table together with the `[from, to]` spread computed for it. */
  datatype Placement = Placement(table: Table, from: Cell, to: Cell)

  /** The tables added, in order, and the exception that ended the loop early, if any. */
  datatype Filled = Filled(placed: seq<Placement>, failure: Option<Failure>)

  /** The anchor of the first table. */
  const FirstAnchor: string := "B3"

  /** Rows between one table's last row and the next table's header row, plus one. */
  const Gap: nat := 2

  /** `s.replace(c, '')` with a one-character pattern: only the first occurrence goes. */
  function RemoveFirst(s: string, c: char): (r: string)
    ensures c !in s ==> r == s
    ensures c in s ==> |r| == |s| - 1
  {
    if |s| == 0 then s
    else if s[0] == c then s[1..]
    else [s[0]] + RemoveFirst(s[1..], c)
  }

  /** The character removed is the first occurrence of `c`; everything around it stays in place. */
  lemma {:induction false} RemoveFirstSplit(pre: string, c: char, post: string)
    requires c !in pre
    ensures RemoveFirst(pre + [c] + post, c) == pre + post
  {
    var s := pre + [c] + post;
    if |pre| > 0 {
      assert s[0] == pre[0] && s[1..] == pre[1..] + [c] + post;
      RemoveFirstSplit(pre[1..], c, post);
      assert pre + post == [pre[0]] + (pre[1..] + post);
    } else {
      assert s[1..] == post;
    }
  }

  /** Removing the first occurrence of a character that is present drops exactly one copy of it. */
  lemma {:induction false} RemoveFirstCount(s: string, c: char)
    requires c in s
    ensures multiset(RemoveFirst(s, c)) + multiset{c} == multiset(s)
  {
    assert s == [s[0]] + s[1..];
    if s[0] != c {
      RemoveFirstCount(s[1..], c);
      assert RemoveFirst(s, c) == [s[0]] + RemoveFirst(s[1..], c);
    }
  }

  /** `Component${c.uuid.replace('-', '')}`. */
  function TableName(uuid: string): (name: string)
    ensures |name| == 9 + |uuid| - (if '-' in uuid then 1 else 0)
    ensures name[..9] == "Component"
  {
    "Component" + RemoveFirst(uuid, '-')
  }

  /** The table name drops the uuid's first '-' and keeps every later one. */
  lemma TableNameDropsFirstDash(pre: string, post: string)
    requires '-' !in pre
    ensures TableName(pre + "-" + post) == "Component" + pre + post
  {
    RemoveFirstSplit(pre, '-', post);
    assert pre + "-" + post == pre + ['-'] + post;
  }

  lemma TableNameExample()
    ensures TableName("a-b-c") == "Componentab-c"
  {
  }

  /**
   * `getSpread`: the parsed anchor, and the bottom-right cell, which lies
   * `columns - 1` columns right of the anchor and one row per data row below
   * it (the header sits on the anchor's own row). The right edge's letter is
   * `undefined` when that column is not one of A to Z.
   */
  function GetSpread(t: Table): (r: Result<(Cell, Cell), Failure>)
    ensures r.Ok? <==> ParseCell(t.ref).Ok?
    ensures r.Err? ==> r.error == UnmatchedRef(t.ref)
    ensures r.Ok? ==> r.value.0 == ParseCell(t.ref).value
    ensures r.Ok? ==> r.value.1.col - r.value.0.col + 1 == |t.columns|
    ensures r.Ok? ==> r.value.1.row - r.value.0.row == |t.rows|
    ensures r.Ok? ==> (r.value.1.letter.Some? <==> 1 <= r.value.1.col <= 26)
    ensures r.Ok? && r.value.1.letter.Some? ==> ColumnOf(r.value.1.letter.value) == r.value.1.col
    ensures r.Ok? && |t.columns| >= 1 ==>
      r.value.0.col <= r.value.1.col && r.value.0.row <= r.value.1.row
  {
    var from :- ParseCell(t.ref);
    var right := from.col + |t.columns| - 1;
    Ok((from, Cell(right, AlphabetAt(right - 1), from.row + |t.rows|)))
  }

  /**
   * One pass of the loop body: build the rows of `c` (which may throw), add
   * the table at `anchor`, and compute its spread.
   */
  function PlaceTable(anchor: string, c: Component): (r: Result<Placement, Failure>)
    requires ParseCell(anchor).Ok?
    ensures r.Err? <==> BuildTableRows(c).Err?
    ensures r.Err? ==> BuildTableRows(c) == Err(r.error)
    ensures r.Ok? ==> r.value.table.ref == anchor && r.value.from == ParseCell(anchor).value
  {
    var tr :- BuildTableRows(c);
    var table := Table(TableName(c.uuid), anchor, true, false, tr.columns, tr.rows);
    var (from, to) := GetSpread(table).value;
    Ok(Placement(table, from, to))
  }

  /** A table the loop body adds is the table of its component. */
  lemma PlaceTableFor(anchor: string, c: Component)
    requires ParseCell(anchor).Ok?
    ensures PlaceTable(anchor, c).Ok? ==> PlacedFor(c, PlaceTable(anchor, c).value)
  {
  }

  /** `${from.letter}${to.row + 2}`: the anchor of the table after `p`. */
  function NextAnchor(p: Placement): (next: string)
    requires p.from.letter.Some? && |p.from.letter.value| > 0 && AllUpper(p.from.letter.value)
    ensures ParseCell(next) == Ok(Cell(ColumnOf(p.from.letter.value), p.from.letter, p.to.row + Gap))
  {
    ParseFormatCell(p.from.letter.value, p.to.row + Gap);
    FormatCell(p.from.letter.value, p.to.row + Gap)
  }

  /**
   * The `forEach` loop of `fillSheet`, from the given anchor on: one table per
   * component until `buildTableRows` throws, which ends the loop.
   */
  function Fill(anchor: string, cs: seq<Component>): (r: Filled)
    requires ParseCell(anchor).Ok?
    ensures |r.placed| <= |cs|
    ensures r.failure.None? <==> |r.placed| == |cs|
    decreases |cs|
  {
    if |cs| == 0 then Filled([], None)
    else
      match PlaceTable(anchor, cs[0])
      case Err(e) => Filled([], Some(e))
      case Ok(p) =>
        var rest := Fill(NextAnchor(p), cs[1..]);
        Filled([p] + rest.placed, rest.failure)
  }

  /** The loop stops early only at a component whose rows cannot be built, and reports that error. */
  lemma {:induction false} FillStops(anchor: string, cs: seq<Component>)
    requires ParseCell(anchor).Ok?
    ensures var r := Fill(anchor, cs);
      r.failure.Some? ==> BuildTableRows(cs[|r.placed|]) == Err(r.failure.value)
    decreases |cs|
  {
    if |cs| > 0 {
      match PlaceTable(anchor, cs[0])
      case Err(e) =>
        assert Fill(anchor, cs) == Filled([], Some(e));
      case Ok(p) =>
        var next := NextAnchor(p);
        FillStops(next, cs[1..]);
        var rest := Fill(next, cs[1..]);
        assert Fill(anchor, cs) == Filled([p] + rest.placed, rest.failure);
        if rest.failure.Some? {
          assert cs[1..][|rest.placed|] == cs[|rest.placed| + 1];
        }
    }
  }

  /**
   * `p` is the table added for component `c` at `p`'s own anchor: named after
   * the uuid, with a header row and no totals row, holding the component's
   * built rows, and spread as `getSpread` says.
   */
  ghost predicate PlacedFor(c: Component, p: Placement) {
    && BuildTableRows(c).Ok?
    && p.table.name == TableName(c.uuid)
    && p.table.headerRow && !p.table.totalsRow
    && p.table.columns == BuildTableRows(c).value.columns
    && p.table.rows == BuildTableRows(c).value.rows
    && GetSpread(p.table) == Ok((p.from, p.to))
  }

  /** The i-th table of `ps` is the one added for the i-th component of `cs`. */
  ghost predicate AllPlacedFor(cs: seq<Component>, ps: seq<Placement>) {
    |ps| <= |cs| && forall i :: 0 <= i < |ps| ==> PlacedFor(cs[i], ps[i])
  }

  lemma AllPlacedForCons(c: Component, p: Placement, cs: seq<Component>, ps: seq<Placement>)
    requires PlacedFor(c, p) && AllPlacedFor(cs, ps)
    ensures AllPlacedFor([c] + cs, [p] + ps)
  {
    var ds, qs := [c] + cs, [p] + ps;
    forall i | 0 <= i < |qs|
      ensures PlacedFor(ds[i], qs[i])
    {
      if i > 0 {
        assert ds[i] == cs[i - 1] && qs[i] == ps[i - 1];
      }
    }
  }

  /** A placed table spans one column per header entry and one row per data row below its anchor. */
  lemma PlacedExtent(c: Component, p: Placement)
    requires PlacedFor(c, p)
    ensures p.from == ParseCell(p.table.ref).value
    ensures p.to.col == p.from.col + |p.table.columns| - 1
    ensures p.to.row == p.from.row + |p.table.rows|
    ensures p.to.letter.Some? <==> 1 <= p.to.col <= 26
    ensures p.to.letter.Some? ==> ColumnOf(p.to.letter.value) == p.to.col
  {
  }

  /** Every table added by the loop is the table of the component at the same position. */
  lemma {:induction false} FillTables(anchor: string, cs: seq<Component>)
    requires ParseCell(anchor).Ok?
    ensures AllPlacedFor(cs, Fill(anchor, cs).placed)
    decreases |cs|
  {
    if |cs| > 0 && PlaceTable(anchor, cs[0]).Ok? {
      var p := PlaceTable(anchor, cs[0]).value;
      PlaceTableFor(anchor, cs[0]);
      var next := NextAnchor(p);
      FillTables(next, cs[1..]);
      var rest := Fill(next, cs[1..]).placed;
      assert Fill(anchor, cs).placed == [p] + rest;
      AllPlacedForCons(cs[0], p, cs[1..], rest);
      assert cs == [cs[0]] + cs[1..];
    }
  }

  /** The loop's first table sits at the anchor it was started with. */
  lemma FillStarts(anchor: string, cs: seq<Component>)
    requires ParseCell(anchor).Ok?
    ensures var r := Fill(anchor, cs);
      |r.placed| > 0 ==> r.placed[0].table.ref == anchor && r.placed[0].from == ParseCell(anchor).value
  {
  }

  /** Every table starts in column `col`, whose letter is `letter`. */
  ghost predicate InColumn(col: int, letter: Option<string>, ps: seq<Placement>) {
    forall k :: 0 <= k < |ps| ==> ps[k].from.col == col && ps[k].from.letter == letter
  }

  /** Every table after the first is anchored at `letter`, `Gap` rows below the previous bottom row. */
  ghost predicate Threaded(letter: string, ps: seq<Placement>) {
    forall k :: 0 < k < |ps| ==> ps[k].table.ref == FormatCell(letter, ps[k - 1].to.row + Gap)
  }

  lemma InColumnCons(col: int, letter: Option<string>, p: Placement, ps: seq<Placement>)
    requires p.from.col == col && p.from.letter == letter && InColumn(col, letter, ps)
    ensures InColumn(col, letter, [p] + ps)
  {
  }

  /** Every table the loop adds starts in the column of the anchor it was started with. */
  lemma {:induction false} FillInColumn(anchor: string, cs: seq<Component>)
    requires ParseCell(anchor).Ok?
    ensures InColumn(ParseCell(anchor).value.col, ParseCell(anchor).value.letter, Fill(anchor, cs).placed)
    decreases |cs|
  {
    if |cs| > 0 && PlaceTable(anchor, cs[0]).Ok? {
      var a := ParseCell(anchor).value;
      var p := PlaceTable(anchor, cs[0]).value;
      assert p.from == a;
      var next := NextAnchor(p);
      assert ParseCell(next) == Ok(Cell(a.col, a.letter, p.to.row + Gap));
      FillInColumn(next, cs[1..]);
      var rest := Fill(next, cs[1..]).placed;
      assert Fill(anchor, cs).placed == [p] + rest;
      InColumnCons(a.col, a.letter, p, rest);
    }
  }

  /** Each next anchor is the first anchor's letter with the row `Gap` below the previous table's bottom row. */
  lemma ThreadedCons(letter: string, p: Placement, ps: seq<Placement>)
    requires Threaded(letter, ps)
    requires |ps| > 0 ==> ps[0].table.ref == FormatCell(letter, p.to.row + Gap)
    ensures Threaded(letter, [p] + ps)
  {
  }

  lemma {:induction false} FillThreaded(anchor: string, cs: seq<Component>)
    requires ParseCell(anchor).Ok?
    ensures Threaded(ParseCell(anchor).value.letter.value, Fill(anchor, cs).placed)
    decreases |cs|
  {
    if |cs| > 0 && PlaceTable(anchor, cs[0]).Ok? {
      var letter := ParseCell(anchor).value.letter.value;
      var p := PlaceTable(anchor, cs[0]).value;
      assert p.from.letter.value == letter;
      var next := NextAnchor(p);
      assert ParseCell(next).value.letter.value == letter;
      FillThreaded(next, cs[1..]);
      FillStarts(next, cs[1..]);
      var rest := Fill(next, cs[1..]).placed;
      assert Fill(anchor, cs).placed == [p] + rest;
      ThreadedCons(letter, p, rest);
    }
  }

  lemma StackedCons(p: Placement, ps: seq<Placement>)
    requires Stacked(ps)
    requires |ps| > 0 ==> ps[0].from.row == p.to.row + Gap
    ensures Stacked([p] + ps)
  {
  }

  /** Each table the loop adds starts `Gap` rows below the bottom row of the one before it. */
  lemma {:induction false} FillStacked(anchor: string, cs: seq<Component>)
    requires ParseCell(anchor).Ok?
    ensures Stacked(Fill(anchor, cs).placed)
    decreases |cs|
  {
    if |cs| > 0 && PlaceTable(anchor, cs[0]).Ok? {
      var p := PlaceTable(anchor, cs[0]).value;
      var next := NextAnchor(p);
      assert ParseCell(next).value.row == p.to.row + Gap;
      FillStacked(next, cs[1..]);
      FillStarts(next, cs[1..]);
      var rest := Fill(next, cs[1..]).placed;
      assert Fill(anchor, cs).placed == [p] + rest;
      StackedCons(p, rest);
    }
  }

  /** Every table ends at or below the row it starts on. */
  ghost predicate TopDown(ps: seq<Placement>) {
    forall k :: 0 <= k < |ps| ==> ps[k].from.row <= ps[k].to.row
  }

  /** Every table starts `Gap` rows below the bottom row of the one before it. */
  ghost predicate Stacked(ps: seq<Placement>) {
    forall k :: 0 < k < |ps| ==> ps[k].from.row == ps[k - 1].to.row + Gap
  }

  /** Stacked top-down tables keep every later table strictly below every earlier one. */
  lemma {:induction false} RowsIncrease(ps: seq<Placement>, i: int, j: int)
    requires TopDown(ps) && Stacked(ps)
    requires 0 <= i < j < |ps|
    ensures ps[i].to.row < ps[j].from.row
    decreases j - i
  {
    if j > i + 1 {
      RowsIncrease(ps, i, j - 1);
      assert ps[j - 1].from.row <= ps[j - 1].to.row;
    }
  }

  lemma StackedApart(ps: seq<Placement>)
    requires TopDown(ps) && Stacked(ps)
    ensures forall i, j :: 0 <= i < j < |ps| ==> ps[i].to.row < ps[j].from.row
  {
    forall i, j | 0 <= i < j < |ps|
      ensures ps[i].to.row < ps[j].from.row
    {
      RowsIncrease(ps, i, j);
    }
  }

  /**
   * Tables never share a row: each occupies the rows from its anchor down to
   * its bottom edge, and every later table starts strictly below that edge.
   */
  lemma NoOverlap(anchor: string, cs: seq<Component>)
    requires ParseCell(anchor).Ok?
    ensures var r := Fill(anchor, cs);
      && (forall i :: 0 <= i < |r.placed| ==> r.placed[i].from.row <= r.placed[i].to.row)
      && (forall i, j :: 0 <= i < j < |r.placed| ==> r.placed[i].to.row < r.placed[j].from.row)
  {
    var ps := Fill(anchor, cs).placed;
    FillTables(anchor, cs);
    FillStacked(anchor, cs);
    assert TopDown(ps);
    StackedApart(ps);
  }

  lemma FirstAnchorCell()
    ensures ParseCell(FirstAnchor) == Ok(Cell(2, Some("B"), 3))
  {
    ParseSingleLetter('B', "3");
    assert FirstAnchor == ['B'] + "3";
  }

  /**
   * `fillSheet`: one table per component, in input order, until a component
   * without records throws.
   */
  function FillSheet(cs: seq<Component>): (r: Filled)
    ensures |r.placed| <= |cs|
    ensures r.failure.None? <==> |r.placed| == |cs|
    ensures r.failure.Some? ==> BuildTableRows(cs[|r.placed|]) == Err(r.failure.value)
    ensures forall i :: 0 <= i < |r.placed| ==>
      && BuildTableRows(cs[i]).Ok?
      && r.placed[i].table.name == TableName(cs[i].uuid)
      && r.placed[i].table.columns == BuildTableRows(cs[i]).value.columns
      && r.placed[i].table.rows == BuildTableRows(cs[i]).value.rows
  {
    FirstAnchorCell();
    FillTables(FirstAnchor, cs);
    FillStops(FirstAnchor, cs);
    var r := Fill(FirstAnchor, cs);
    assert forall i :: 0 <= i < |r.placed| ==> PlacedFor(cs[i], r.placed[i]);
    r
  }

  /**
   * Where `fillSheet` anchors its tables: the first at "B3", all in column B,
   * each next one `Gap` rows under the previous table's bottom row.
   */
  lemma FillSheetAnchors(cs: seq<Component>)
    ensures var ps := FillSheet(cs).placed;
      && (|ps| > 0 ==> ps[0].table.ref == FirstAnchor && ps[0].from.row == 3)
      && (forall i :: 0 <= i < |ps| ==> ps[i].from.col == 2 && ps[i].from.letter == Some("B"))
      && (forall i :: 0 < i < |ps| ==> ps[i].table.ref == FormatCell("B", ps[i - 1].to.row + Gap))
      && (forall i :: 0 < i < |ps| ==> ps[i].from.row == ps[i - 1].to.row + Gap)
  {
    FirstAnchorCell();
    FillStarts(FirstAnchor, cs);
    FillInColumn(FirstAnchor, cs);
    FillThreaded(FirstAnchor, cs);
    FillStacked(FirstAnchor, cs);
  }

  /**
   * How far `fillSheet`'s tables reach: one column per header entry, one row
   * per data row below the header, and a right-edge letter exactly when that
   * column is within A to Z.
   */
  lemma FillSheetExtents(cs: seq<Component>)
    ensures var ps := FillSheet(cs).placed;
      && (forall i :: 0 <= i < |ps| ==>
            && ps[i].to.col == 1 + |ps[i].table.columns|
            && ps[i].to.row == ps[i].from.row + |ps[i].table.rows|)
      && (forall i :: 0 <= i < |ps| ==>
            && (ps[i].to.letter.Some? <==> ps[i].to.col <= 26)
            && (ps[i].to.letter.Some? ==> ColumnOf(ps[i].to.letter.value) == ps[i].to.col))
  {
    var ps := FillSheet(cs).placed;
    FirstAnchorCell();
    assert ps == Fill(FirstAnchor, cs).placed;
    FillTables(FirstAnchor, cs);
    FillInColumn(FirstAnchor, cs);
    forall i | 0 <= i < |ps|
      ensures ps[i].to.col == 1 + |ps[i].table.columns|
      ensures ps[i].to.row == ps[i].from.row + |ps[i].table.rows|
      ensures ps[i].to.letter.Some? <==> ps[i].to.col <= 26
      ensures ps[i].to.letter.Some? ==> ColumnOf(ps[i].to.letter.value) == ps[i].to.col
    {
      PlacedExtent(cs[i], ps[i]);
    }
  }

  /** No two of `fillSheet`'s tables share a row: each later one starts below every earlier one's last row. */
  lemma FillSheetNoOverlap(cs: seq<Component>)
    ensures var ps := FillSheet(cs).placed;
      forall i, j :: 0 <= i < j < |ps| ==> ps[i].to.row < ps[j].from.row
  {
    FirstAnchorCell();
    assert FillSheet(cs).placed == Fill(FirstAnchor, cs).placed;
    NoOverlap(FirstAnchor, cs);
  }
}
