/** The table `stock`: its rows as `replaceAll` renders them, and what the packet bound is for it. */
module StockTable {
  import opened Batches
  import opened MySqlConn
  import opened Sequences
  import opened StatementTexts

  // Numbers as `std::to_string` renders them. An integer has a digit. A floating-point number has a digit, a point and six
  // digits more, unless it is rendered as "inf" or "nan".
  type Integer = s: string | |s| >= 1 witness "0"
  type Decimal = s: string | |s| >= 3 witness "inf"

  datatype Stock = Stock(num: Integer, weight: Decimal, price: Decimal, sdate: string, description: string)

  const FIELD_LIST := "item, num, weight, price, sdate, description"

  /** The characters of a row of empty texts and the shortest numbers. */
  const SHORTEST: nat := 24

  function ValueList(row: Row<string, Stock>): (r: string)
    ensures |r| == 17 + |row.key| + |row.value.num| + |row.value.weight| + |row.value.price| + |row.value.sdate|
                   + |row.value.description|
  {
    "'" + row.key + "','" + row.value.num + "','" + row.value.weight + "','" + row.value.price + "','"
    + row.value.sdate + "','" + row.value.description + "'"
  }

  const COLUMNS := ["item", "num", "weight", "price", "sdate", "description"]

  /** What a row has in a column. */
  function ValueOf(row: Row<string, Stock>, column: string): string {
    if column == "item" then row.key
    else if column == "num" then row.value.num
    else if column == "weight" then row.value.weight
    else if column == "price" then row.value.price
    else if column == "sdate" then row.value.sdate
    else if column == "description" then row.value.description
    else ""
  }

  function Quoted(row: Row<string, Stock>, columns: seq<string>): seq<string> {
    seq(|columns|, i requires 0 <= i < |columns| => "'" + ValueOf(row, columns[i]) + "'")
  }

  lemma JoinedFirst(part: string, rest: seq<string>, separator: string)
    requires rest != []
    ensures Joined([part] + rest, separator) == part + separator + Joined(rest, separator)
  {
    assert ([part] + rest)[1..] == rest;
  }

  lemma LastColumns()
    ensures Joined(["price", "sdate", "description"], ", ") == "price, sdate, description"
  {
    var rest: seq<string> := ["description"];
    var more: seq<string> := ["sdate", "description"];
    JoinedFirst("sdate", rest, ", ");
    JoinedFirst("price", more, ", ");
    assert ["sdate"] + rest == more && ["price"] + more == ["price", "sdate", "description"];
    hide Joined;
    assert "sdate" + ", " == "sdate, " && "price" + ", " == "price, ";
    assert "sdate, " + "description" == "sdate, description";
    assert "price, " + "sdate, description" == "price, sdate, description";
  }

  lemma FirstColumns(rest: string)
    ensures "item" + ", " + ("num" + ", " + ("weight" + ", " + rest)) == "item, num, weight, " + rest
  {
    assert "weight" + ", " == "weight, " && "num" + ", " == "num, " && "item" + ", " == "item, ";
    Behind("num, ", "weight, ", rest);
    assert "num, " + "weight, " == "num, weight, ";
    Behind("item, ", "num, weight, ", rest);
    assert "item, " + "num, weight, " == "item, num, weight, ";
  }

  lemma AllColumns()
    ensures "item, num, weight, " + "price, sdate, description" == FIELD_LIST
  {
  }

  /** The names that `field_list` gives are the columns, in their order. */
  lemma ColumnsInOrder()
    ensures FIELD_LIST == Joined(COLUMNS, ", ")
  {
    var rest: seq<string> := ["price", "sdate", "description"];
    JoinedFirst("weight", rest, ", ");
    JoinedFirst("num", ["weight"] + rest, ", ");
    JoinedFirst("item", ["num"] + (["weight"] + rest), ", ");
    LastColumns();
    hide Joined;
    assert COLUMNS == ["item"] + (["num"] + (["weight"] + rest));
    FirstColumns("price, sdate, description");
    AllColumns();
  }

  lemma NextQuoted(t: string, v: string)
    ensures t + "','" + v + "'" == t + "'" + "," + ("'" + v + "'")
  {
    assert "','" == "'" + "," + "'";
    Behind(t, "'", ",");
    Behind(t, "'" + ",", "'");
    Behind(t + "'" + ",", "'", v);
    Behind(t + "'" + ",", "'" + v, "'");
  }

  lemma QuotedNext(row: Row<string, Stock>, columns: seq<string>, column: string)
    requires columns != []
    ensures Joined(Quoted(row, columns + [column]), ",")
         == Joined(Quoted(row, columns), ",") + "," + ("'" + ValueOf(row, column) + "'")
  {
    assert Quoted(row, columns + [column]) == Quoted(row, columns) + ["'" + ValueOf(row, column) + "'"];
    JoinedSnoc(Quoted(row, columns), ",", "'" + ValueOf(row, column) + "'");
  }

  /** The values that `value_list` gives are those of the columns, in the order of the names. */
  lemma ValuesInOrder(row: Row<string, Stock>)
    ensures ValueList(row) == Joined(Quoted(row, COLUMNS), ",")
  {
    var v := row.value;
    var t0 := "'" + row.key;
    var t1 := t0 + "','" + v.num;
    var t2 := t1 + "','" + v.weight;
    var t3 := t2 + "','" + v.price;
    var t4 := t3 + "','" + v.sdate;
    assert ValueList(row) == t4 + "','" + v.description + "'";
    assert Joined(Quoted(row, COLUMNS[..1]), ",") == t0 + "'";
    assert Values(row) == [row.key, v.num, v.weight, v.price, v.sdate, v.description];
    hide Joined, Quoted, ValueList, ValueOf;
    NextQuoted(t0, v.num);
    NextQuoted(t1, v.weight);
    NextQuoted(t2, v.price);
    NextQuoted(t3, v.sdate);
    NextQuoted(t4, v.description);
    OneColumnMore(row, 1);
    OneColumnMore(row, 2);
    OneColumnMore(row, 3);
    OneColumnMore(row, 4);
    OneColumnMore(row, 5);
    assert COLUMNS[..6] == COLUMNS;
  }

  /** What a row has in all the columns. */
  function Values(row: Row<string, Stock>): seq<string> {
    seq(|COLUMNS|, i requires 0 <= i < |COLUMNS| => ValueOf(row, COLUMNS[i]))
  }

  lemma OneColumnMore(row: Row<string, Stock>, i: nat)
    requires 1 <= i < |COLUMNS|
    ensures Joined(Quoted(row, COLUMNS[..i + 1]), ",")
         == Joined(Quoted(row, COLUMNS[..i]), ",") + "," + ("'" + Values(row)[i] + "'")
  {
    hide Joined;
    assert COLUMNS[..i] + [COLUMNS[i]] == COLUMNS[..i + 1];
    QuotedNext(row, COLUMNS[..i], COLUMNS[i]);
  }

  /** A row of `k` characters: the item takes what the rest leaves. */
  function OfLength(k: nat): Row<string, Stock> {
    Row(seq(if k >= SHORTEST then k - SHORTEST else 0, _ => 'x'), Stock("0", "inf", "inf", "", ""))
  }

  function Replace(maxPacket: nat): Form<Row<string, Stock>> {
    ReplaceForm("stock", FIELD_LIST, ValueList, SafeSize(maxPacket))
  }

  lemma StockHasEveryLength(maxPacket: nat, size: nat)
    ensures Lengths(Replace(maxPacket), OfLength, SHORTEST, size)
  {
  }

  /** For this table 997 characters a row are exactly what can be promised, whenever the packet size leaves a row room. */
  lemma StockFitsExactly(maxPacket: nat, size: nat)
    requires maxPacket > SURPLUS && |Replace(maxPacket).head| < SafeSize(maxPacket)
    ensures AllFit(Replace(maxPacket), size, maxPacket) <==>
      size <= if |Replace(maxPacket).head| + 2 + SHORTEST <= SafeSize(maxPacket) then 997
              else maxPacket - |Replace(maxPacket).head| - 2
  {
    StockHasEveryLength(maxPacket, size);
    ReplaceFitsExactly("stock", FIELD_LIST, ValueList, maxPacket, OfLength, SHORTEST, size);
  }

  // ---------- what a server can read ----------

  predicate NoQuote(row: Row<string, Stock>) {
    && '\'' !in row.key && '\'' !in row.value.num && '\'' !in row.value.weight && '\'' !in row.value.price
    && '\'' !in row.value.sdate && '\'' !in row.value.description
  }

  /** One field more, between the marks that separate fields. */
  function Field(text: string, field: string): string { text + "','" + field }

  /** The text up to the row's last field. */
  function Fields(text: string, row: Row<string, Stock>): string {
    var v := row.value;
    Field(Field(Field(Field(Field(text + row.key, v.num), v.weight), v.price), v.sdate), v.description)
  }

  lemma PieceIsFields(maxPacket: nat, text: string, row: Row<string, Stock>)
    ensures text + Piece(Replace(maxPacket), row) == Fields(text + "('", row) + "')"
  {
    var v, k := row.value, row.key;
    var k1 := Field("'" + k, v.num);
    var k2 := Field(k1, v.weight);
    var k3 := Field(k2, v.price);
    var k4 := Field(k3, v.sdate);
    var k5 := Field(k4, v.description);
    assert ValueList(row) == k5 + "'";
    assert Piece(Replace(maxPacket), row) == "(" + (k5 + "'") + ")";
    var t := text + "(";
    assert t + Field(k4, v.description) == Field(t + k4, v.description);
    assert t + Field(k3, v.sdate) == Field(t + k3, v.sdate);
    assert t + Field(k2, v.price) == Field(t + k2, v.price);
    assert t + Field(k1, v.weight) == Field(t + k1, v.weight);
    assert t + Field("'" + k, v.num) == Field(t + ("'" + k), v.num);
    Behind(t, "'", k);
    assert t + "'" == text + "('";
    hide Field;
    assert t + k5 == Fields(text + "('", row);
    assert text + ("(" + (k5 + "'") + ")") == t + k5 + "')";
  }

  /** The last field shows, if no field has a quote in it. */
  lemma FieldShows(a: string, x: string, b: string, y: string)
    requires Field(a, x) == Field(b, y) && '\'' !in x && '\'' !in y
    ensures a == b && x == y
  {
    assert Field(a, x) == a + "'," + ['\''] + x && Field(b, y) == b + "'," + ['\''] + y;
    BehindLastMark(a + "',", x, b + "',", y, '\'');
    SameStart(a, b, "',");
  }

  lemma FieldsShow(a: string, x: Row<string, Stock>, b: string, y: Row<string, Stock>)
    requires Fields(a + "('", x) == Fields(b + "('", y) && NoQuote(x) && NoQuote(y)
    ensures a == b && x == y
  {
    var p, q, s, t := a + "('", b + "('", x.value, y.value;
    var p1, q1 := Field(p + x.key, s.num), Field(q + y.key, t.num);
    var p2, q2 := Field(p1, s.weight), Field(q1, t.weight);
    var p3, q3 := Field(p2, s.price), Field(q2, t.price);
    var p4, q4 := Field(p3, s.sdate), Field(q3, t.sdate);
    hide Field;
    FieldShows(p4, s.description, q4, t.description);
    FieldShows(p3, s.sdate, q3, t.sdate);
    FieldShows(p2, s.price, q2, t.price);
    FieldShows(p1, s.weight, q1, t.weight);
    FieldShows(p + x.key, s.num, q + y.key, t.num);
    assert p == a + "(" + ['\''] && q == b + "(" + ['\''];
    BehindLastMark(a + "(", x.key, b + "(", y.key, '\'');
    SameStart(a, b, "(");
  }

  lemma StockShowsLast(maxPacket: nat)
    ensures ShowsLast(Replace(maxPacket), NoQuote)
  {
    var f := Replace(maxPacket);
    hide Piece, Replace, Fields;
    forall x, y, a: string, b: string | NoQuote(x) && NoQuote(y) && a + Piece(f, x) == b + Piece(f, y)
      ensures a == b && x == y
    {
      PieceIsFields(maxPacket, a, x);
      PieceIsFields(maxPacket, b, y);
      SameStart(Fields(a + "('", x), Fields(b + "('", y), "')");
      FieldsShow(a, x, b, y);
    }
  }

  /** For rows without a quote in their texts some server understands every statement that `replaceAll` can send. */
  lemma PlainStockIsUnderstood(maxPacket: nat, rows: seq<Row<string, Stock>>)
    requires AllClean(NoQuote, rows)
    ensures var f := Replace(maxPacket);
      exists meaning: (string, map<string, Stock>) -> map<string, Stock> ::
        Understood(meaning, f, ReplaceEach, Split(f, [], rows))
  {
    var f := Replace(maxPacket);
    var groups := Split(f, [], rows);
    StockShowsLast(maxPacket);
    SplitIsCut(f, NoQuote, rows);
    CleanIsUnambiguous<map<string, Stock>, Row<string, Stock>>(f, NoQuote, ReplaceEach, groups);
    SomeServerUnderstands<map<string, Stock>, Row<string, Stock>>(f, ReplaceEach, groups);
  }

  lemma Regrouped(p: string, d: string, e: string, t: string)
    ensures p + (d + "','" + e) + "','" + t + "'" == p + d + "','" + (e + "','" + t) + "'"
  {
    Behind(p, d + "','", e);
    Behind(p, d, "','");
    Behind(p + d + "','", e, "','");
    Behind(p + d + "','", e + "','", t);
  }

  /** With quotes in them, two rows can have one text. */
  lemma SameValueList(key: string, v: Stock, e: string)
    ensures ValueList(Row(key, v.(sdate := v.sdate + "','" + e)))
         == ValueList(Row(key, v.(description := e + "','" + v.description)))
  {
    Regrouped("'" + key + "','" + v.num + "','" + v.weight + "','" + v.price + "','", v.sdate, e, v.description);
  }

  lemma OneRow(maxPacket: nat, row: Row<string, Stock>)
    ensures Statement(Replace(maxPacket), [row]) == Replace(maxPacket).head + ("(" + ValueList(row) + ")")
  {
    OpenedLast(Replace(maxPacket), [row]);
  }

  /** And no server reads it as both. */
  lemma StockMayBeAmbiguous(maxPacket: nat, key: string, v: Stock, e: string)
    ensures var x, y := Row(key, v.(sdate := v.sdate + "','" + e)), Row(key, v.(description := e + "','" + v.description));
      !Unambiguous<map<string, Stock>, Row<string, Stock>>(Replace(maxPacket), ReplaceEach, [[x], [y]])
  {
    hide ValueList;
    var x, y := Row(key, v.(sdate := v.sdate + "','" + e)), Row(key, v.(description := e + "','" + v.description));
    var f, groups := Replace(maxPacket), [[x], [y]];
    SameValueList(key, v, e);
    OneRow(maxPacket, x);
    OneRow(maxPacket, y);
    hide Statement, Replace;
    assert |x.value.sdate| > |y.value.sdate|;
    assert ReplaceEach(map[], [x]) == map[key := x.value] && ReplaceEach(map[], [y]) == map[key := y.value];
    assert map[key := x.value][key] != map[key := y.value][key];
    assert !SameEffect<map<string, Stock>, Row<string, Stock>>(ReplaceEach, [x], [y]);
    assert groups[0] == [x] && groups[1] == [y];
  }

  // ---------- statements spelled out ----------

  /** What every statement of `replaceAll` for this table starts with. */
  lemma StockHead(maxPacket: nat)
    ensures Replace(maxPacket).head
         == "REPLACE INTO `stock` (" + "item, num, weight, price, sdate, description" + ") VALUES"
  {
    assert "REPLACE INTO `" + "stock" == "REPLACE INTO `stock";
    assert "REPLACE INTO `stock" + "` (" == "REPLACE INTO `stock` (";
  }

  lemma FirstValues()
    ensures ValueList(Row("nut", Stock("12", "0.5", "2.5", "", "M8"))) == "'nut','12','0.5','2.5','','M8'"
  {
    assert "'" + "nut" + "','" == "'nut','";
    assert "'nut','" + "12" + "','" == "'nut','12','";
    assert "'nut','12','" + "0.5" + "','" == "'nut','12','0.5','";
    assert "'nut','12','0.5','" + "2.5" + "','" == "'nut','12','0.5','2.5','";
    assert "'nut','12','0.5','2.5','" + "" + "','" == "'nut','12','0.5','2.5','','";
  }

  lemma SecondValues()
    ensures ValueList(Row("bolt", Stock("7", "1.5", "3.5", "", ""))) == "'bolt','7','1.5','3.5','',''"
  {
    assert "'" + "bolt" + "','" == "'bolt','";
    assert "'bolt','" + "7" + "','" == "'bolt','7','";
    assert "'bolt','7','" + "1.5" + "','" == "'bolt','7','1.5','";
    assert "'bolt','7','1.5','" + "3.5" + "','" == "'bolt','7','1.5','3.5','";
    assert "'bolt','7','1.5','3.5','" + "" + "','" == "'bolt','7','1.5','3.5','','";
  }

  lemma TwoRows(maxPacket: nat, x: Row<string, Stock>, y: Row<string, Stock>)
    ensures Statement(Replace(maxPacket), [x, y])
         == Replace(maxPacket).head + ("(" + ValueList(x) + ")") + "," + ("(" + ValueList(y) + ")")
  {
    var f := Replace(maxPacket);
    OpenedLast(f, [x]);
    OpenedLast(f, [x, y]);
    assert [x, y][..1] == [x];
    hide ValueList;
    assert Opened(f, [x, y]) + "" == Opened(f, [x, y]);
  }

  /** Two rows in one statement. */
  lemma TwoRowsSpelledOut(maxPacket: nat)
    ensures Statement(Replace(maxPacket), [Row("nut", Stock("12", "0.5", "2.5", "", "M8")),
                                           Row("bolt", Stock("7", "1.5", "3.5", "", ""))])
         == "REPLACE INTO `stock` (" + "item, num, weight, price, sdate, description" + ") VALUES"
            + "('nut','12','0.5','2.5','','M8')" + "," + "('bolt','7','1.5','3.5','','')"
  {
    TwoRows(maxPacket, Row("nut", Stock("12", "0.5", "2.5", "", "M8")), Row("bolt", Stock("7", "1.5", "3.5", "", "")));
    FirstValues();
    SecondValues();
    hide ValueList, Statement, Replace;
    StockHead(maxPacket);
    FirstInBrackets();
    SecondInBrackets();
  }

  lemma FirstInBrackets()
    ensures "(" + "'nut','12','0.5','2.5','','M8'" + ")" == "('nut','12','0.5','2.5','','M8')"
  {
    assert "(" + "'nut','12','0.5','2.5','','M8'" == "('nut','12','0.5','2.5','','M8'";
  }

  lemma SecondInBrackets()
    ensures "(" + "'bolt','7','1.5','3.5','',''" + ")" == "('bolt','7','1.5','3.5','','')"
  {
    assert "(" + "'bolt','7','1.5','3.5','',''" == "('bolt','7','1.5','3.5','',''";
  }

  lemma DeleteHead()
    ensures "DELETE FROM `" + "stock" + "` WHERE " + "item" + " IN(" == "DELETE FROM `stock` WHERE item IN("
  {
    assert "DELETE FROM `" + "stock" == "DELETE FROM `stock";
    assert "DELETE FROM `stock" + "` WHERE " == "DELETE FROM `stock` WHERE ";
    assert "DELETE FROM `stock` WHERE " + "item" == "DELETE FROM `stock` WHERE item";
    assert "DELETE FROM `stock` WHERE item" + " IN(" == "DELETE FROM `stock` WHERE item IN(";
  }

  lemma DeleteEnd()
    ensures "`" + "nut" + "`" + "," + ("`" + "bolt" + "`") == "`nut`,`bolt`"
  {
    assert "`" + "nut" + "`" == "`nut`" && "`" + "bolt" + "`" == "`bolt`";
    assert "`nut`" + "," == "`nut`,";
  }

  /** Two keys in one statement. */
  lemma TwoKeysSpelledOut(safe: nat)
    requires safe > 0
    ensures Statement(Verbatim("stock", "item", safe), ["nut", "bolt"])
         == "DELETE FROM `stock` WHERE item IN(" + "`nut`,`bolt`" + ")"
  {
    var f, g: seq<string> := Verbatim("stock", "item", safe), ["nut", "bolt"];
    StatementIs(f, g);
    assert Pieces(f, g) == ["`" + "nut" + "`"] + ["`" + "bolt" + "`"];
    JoinedFirst("`" + "nut" + "`", ["`" + "bolt" + "`"], ",");
    assert Joined(["`" + "bolt" + "`"], ",") == "`" + "bolt" + "`";
    hide Joined, Pieces;
    DeleteHead();
    DeleteEnd();
  }
}
