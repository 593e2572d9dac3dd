/**
 * The page the export endpoint renders (src/app.controller.ts): two
 * components, one with four records of four keys and one with four records of
 * two keys, and where `fillSheet` puts their tables.
 */
module Sample {
  import opened Wrappers
  import opened CellRef
  import opened TableRows
  import opened Layout

  function Staff(): seq<Record> {
    [ [("name", Str("后台")), ("value", Num(14)), ("increase", Num(0)), ("decrease", Num(1))],
      [("name", Str("前端")), ("value", Num(20)), ("increase", Num(0)), ("decrease", Num(1))],
      [("name", Str("测试")), ("value", Num(7)), ("increase", Num(0)), ("decrease", Num(1))],
      [("name", Str("数据")), ("value", Num(8)), ("increase", Num(0)), ("decrease", Num(1))] ]
  }

  function Projects(): seq<Record> {
    [ [("name", Str("2020-1")), ("value", Num(14))],
      [("name", Str("2020-2")), ("value", Num(20))],
      [("name", Str("2020-3")), ("value", Num(7))],
      [("name", Str("2020-4")), ("value", Num(8))] ]
  }

  function Page(): seq<Component> {
    [ Component("121231231231231", "人力分布", "表格", [Staff()]),
      Component("121231231231232", "项目情况", "柱状图", [Projects()]) ]
  }

  lemma PageShape(cs: seq<Component>)
    requires cs == Page()
    ensures BuildTableRows(cs[0]).Ok? && BuildTableRows(cs[1]).Ok?
    ensures |BuildTableRows(cs[0]).value.columns| == 4 && |BuildTableRows(cs[0]).value.rows| == 4
    ensures |BuildTableRows(cs[1]).value.columns| == 2 && |BuildTableRows(cs[1]).value.rows| == 4
  {
  }

  /** The first table spans B3..E7 and the second B9..C13. */
  lemma SampleLayout(cs: seq<Component>)
    requires cs == Page()
    ensures var r := FillSheet(cs);
      && r.failure == None && |r.placed| == 2
      && r.placed[0].table.ref == "B3"
      && r.placed[0].from == Cell(2, Some("B"), 3) && r.placed[0].to == Cell(5, Some("E"), 7)
      && r.placed[1].table.ref == "B9"
      && r.placed[1].from == Cell(2, Some("B"), 9) && r.placed[1].to == Cell(3, Some("C"), 13)
  {
    var r := FillSheet(cs);
    PageShape(cs);
    FillSheetAnchors(cs);
    FillSheetExtents(cs);
    assert |r.placed| == 2;
    var p0, p1 := r.placed[0], r.placed[1];
    assert p0.to.col == 5 && p0.to.row == 7;
    assert p1.from.row == 9 && p1.to.col == 3 && p1.to.row == 13;
    LetterOf(p0.to.letter, 5);
    LetterOf(p1.to.letter, 3);
    RefB9();
  }

  /** The staff table's header lists its four keys in record order, none with a filter button. */
  lemma StaffHeader(cs: seq<Component>)
    requires cs == Page()
    ensures BuildTableRows(cs[0]).Ok?
    ensures BuildTableRows(cs[0]).value.columns ==
      [Column("(name)", false), Column("(value)", false), Column("(increase)", false), Column("(decrease)", false)]
  {
    StaffHeaderColumns();
    assert BuildTableRows(cs[0]).value.columns == Header(Staff()[0]);
  }

  lemma StaffHeaderColumns()
    ensures Header(Staff()[0]) ==
      [Column("(name)", false), Column("(value)", false), Column("(increase)", false), Column("(decrease)", false)]
  {
    StaffRest();
    StaffColumnNames();
    var keys := RowKeys(Staff()[0]);
    assert keys == ["name", "value"] + ["increase", "decrease"];
    assert "(" + "name" + ")" == "(name)";
    assert "(" + "value" + ")" == "(value)";
  }

  lemma StaffColumnNames()
    ensures "(" + "increase" + ")" == "(increase)"
    ensures "(" + "decrease" + ")" == "(decrease)"
  {
  }

  /** The staff table's first row is the first record's values: name, value, increase, decrease. */
  lemma StaffFirstRow(cs: seq<Component>)
    requires cs == Page()
    ensures BuildTableRows(cs[0]).Ok?
    ensures BuildTableRows(cs[0]).value.rows[0] == [Str("后台"), Num(14), Num(0), Num(1)]
  {
    var first := Staff()[0];
    StaffRest();
    BuildTableRowsContent(cs[0]);
    assert first[0] == ("name", Str("后台")) && first[1].0 != "name";
    assert Get(first, "name") == Str("后台");
    assert Get(first, "value") == Num(14);
  }

  lemma StaffRest()
    ensures Rest(Staff()[0]) == [("increase", Num(0)), ("decrease", Num(1))]
  {
  }

  lemma RefB9()
    ensures FormatCell("B", 9) == "B9"
  {
  }

  /** The only letter naming column `col` is the one with code 64 + `col`. */
  lemma LetterOf(letter: Option<string>, col: int)
    requires 1 <= col <= 26
    requires letter.Some? && ColumnOf(letter.value) == col
    ensures letter == Some([(64 + col) as char])
  {
    assert letter.value == [letter.value[0]];
  }
}
