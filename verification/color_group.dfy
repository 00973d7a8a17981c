/**
 * `ColorGroupWidget.get_data`: the rows of one colour group in the
 * inventory editor, turned into the variant list sent with PUT /products.
 */
module ColorGroup {
  import opened Wrappers
  import opened Text
  import opened Numerals
  import opened Schema
  import opened PriceInput

  /** The three line edits of one size row: size, price (a `PriceInput`) and stock. */
  datatype SizeRow = SizeRow(size: string, priceText: string, stockText: string)

  /** `int(stock_text or 0)`: an empty stock reads as 0; unreadable text raises ValueError (None). */
  function StockValue(stockText: string): (r: Option<int>)
    ensures stockText == "" ==> r == Some(0)
  {
    if stockText == "" then Some(0) else ParseInt(stockText)
  }

  /**
   * The loop over the rows: each row's price and stock are read (an
   * unreadable one aborts the whole call), and a row with a size adds an
   * entry without an id.
   */
  function Entries(color: string, rows: seq<SizeRow>): Option<seq<VariantUpdate>>
  {
    if rows == [] then Some([])
    else
      match Entries(color, rows[..|rows| - 1])
      case None => None
      case Some(es) =>
        var row := rows[|rows| - 1];
        var price, stock := GetValue(row.priceText), StockValue(row.stockText);
        if price.None? || stock.None? then None
        else if row.size != "" then Some(es + [VariantUpdate(None, color, row.size, price.value, stock.value)])
        else Some(es)
  }

  /** The whole of `get_data`: nothing for a blank colour name. */
  function GroupData(colorText: string, rows: seq<SizeRow>): Option<seq<VariantUpdate>>
  {
    var color := Strip(colorText);
    if color == "" then Some([]) else Entries(color, rows)
  }

  /** Once a row is unreadable, the rows after it do not matter. */
  lemma {:induction false} UnreadableIsFinal(color: string, rows: seq<SizeRow>, k: nat)
    requires k <= |rows| && Entries(color, rows[..k]).None?
    ensures Entries(color, rows).None?
    decreases |rows|
  {
    if k < |rows| {
      assert rows[..k] == rows[..|rows| - 1][..k];
      UnreadableIsFinal(color, rows[..|rows| - 1], k);
    } else {
      assert rows[..k] == rows;
    }
  }

  /** The loop of `get_data` over the size rows. */
  method ReadRows(color: string, rows: seq<SizeRow>) returns (r: Option<seq<VariantUpdate>>)
    ensures r == Entries(color, rows)
  {
    var variants := [];
    var i := 0;
    while i < |rows|
      invariant i <= |rows|
      invariant Entries(color, rows[..i]) == Some(variants)
    {
      var row := rows[i];
      assert rows[..i + 1][..i] == rows[..i] && rows[..i + 1][i] == row;
      var price := GetValue(row.priceText);
      var stock := StockValue(row.stockText);
      if price.None? || stock.None? {
        UnreadableIsFinal(color, rows, i + 1);
        return None;
      }
      if row.size != "" {
        variants := variants + [VariantUpdate(None, color, row.size, price.value, stock.value)];
      }
      i := i + 1;
    }
    assert rows[..i] == rows;
    return Some(variants);
  }

  /** `get_data` itself: the colour name is stripped, then the rows are read. */
  method GetData(colorText: string, rows: seq<SizeRow>) returns (r: Option<seq<VariantUpdate>>)
    ensures r == GroupData(colorText, rows)
  {
    var color := Strip(colorText);
    if color == "" {
      return Some([]);
    }
    r := ReadRows(color, rows);
  }

  /** The rows that have a size, in order. */
  function Sized(rows: seq<SizeRow>): seq<SizeRow>
  {
    if rows == [] then []
    else Sized(rows[..|rows| - 1]) + (if rows[|rows| - 1].size != "" then [rows[|rows| - 1]] else [])
  }

  /** A row whose price and stock can both be read. */
  predicate RowReadable(row: SizeRow)
  {
    GetValue(row.priceText).Some? && StockValue(row.stockText).Some?
  }

  /** Every row's price and stock can be read. */
  predicate Readable(rows: seq<SizeRow>)
  {
    forall i | 0 <= i < |rows| :: RowReadable(rows[i])
  }

  /** The loop succeeds exactly when every row is readable, rows without a size included. */
  lemma {:induction false} EntriesSomeIffReadable(color: string, rows: seq<SizeRow>)
    ensures Entries(color, rows).Some? <==> Readable(rows)
  {
    if rows != [] {
      var p := rows[..|rows| - 1];
      var last := rows[|rows| - 1];
      EntriesSomeIffReadable(color, p);
      assert Entries(color, rows).Some? <==> Entries(color, p).Some? && RowReadable(last);
      assert Readable(rows) ==> Readable(p) by {
        if Readable(rows) {
          forall i | 0 <= i < |p| ensures RowReadable(p[i]) {
            assert p[i] == rows[i];
          }
        }
      }
      assert Readable(p) && RowReadable(last) ==> Readable(rows) by {
        if Readable(p) && RowReadable(last) {
          forall i | 0 <= i < |rows| ensures RowReadable(rows[i]) {
            if i < |p| { assert p[i] == rows[i]; } else { assert rows[i] == last; }
          }
        }
      }
    }
  }

  /**
   * The loop succeeds exactly when every row is readable, and then yields
   * one entry per row with a size, in order, carrying the given colour, no
   * id, and the row's price and stock.
   */
  lemma {:induction false} EntriesAreSizedRows(color: string, rows: seq<SizeRow>)
    ensures Entries(color, rows).Some? <==> Readable(rows)
    ensures Entries(color, rows).Some? ==>
      var es, sized := Entries(color, rows).value, Sized(rows);
      && |es| == |sized|
      && forall j | 0 <= j < |es| ::
           && es[j].id == None && es[j].color == color && es[j].size == sized[j].size
           && GetValue(sized[j].priceText) == Some(es[j].price)
           && StockValue(sized[j].stockText) == Some(es[j].stock)
  {
    EntriesSomeIffReadable(color, rows);
    if rows != [] && Entries(color, rows).Some? {
      var p := rows[..|rows| - 1];
      EntriesAreSizedRows(color, p);
      var es, ep := Entries(color, rows).value, Entries(color, p).value;
      var sized, sp := Sized(rows), Sized(p);
      assert |es| == |sized|;
      forall j | 0 <= j < |ep| ensures es[j] == ep[j] && sized[j] == sp[j] {
      }
    }
  }

  /** A blank colour name (whitespace only) yields no entries, whatever the rows hold. */
  lemma BlankColorYieldsNothing(colorText: string, rows: seq<SizeRow>)
    requires AllWhitespace(colorText)
    ensures GroupData(colorText, rows) == Some([])
  {
    StripIsTrimmedSlice(colorText);
  }

  /** Otherwise every entry carries the colour name trimmed of surrounding whitespace. */
  lemma EntriesCarryTrimmedColor(colorText: string, rows: seq<SizeRow>)
    requires !AllWhitespace(colorText) && GroupData(colorText, rows).Some?
    ensures forall e | e in GroupData(colorText, rows).value ::
      e.color == Strip(colorText) && e.id.None? && e.size != ""
  {
    StripIsTrimmedSlice(colorText);
    var color := Strip(colorText);
    EntriesAreSizedRows(color, rows);
    SizedHaveSize(rows);
  }

  lemma {:induction false} SizedHaveSize(rows: seq<SizeRow>)
    ensures forall j | 0 <= j < |Sized(rows)| :: Sized(rows)[j].size != ""
  {
    if rows != [] {
      SizedHaveSize(rows[..|rows| - 1]);
    }
  }
}
