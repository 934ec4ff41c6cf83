/** The Markdown serialiser for screening results: a header row, a separator
 *  row and one row per record, joined by line breaks.
 *
 *  A record is a dictionary from column name to an already rendered cell,
 *  kept as its list of fields in insertion order (the order Python iterates a
 *  dictionary's keys).
 */
module MarkdownTable {
  import opened PyStr

  /** One entry of a record: a column name and its rendered value. */
  datatype Field = Field(name: string, text: string)

  type Record = seq<Field>

  /** The record's column names, in order. */
  function Keys(r: Record): (ks: seq<string>)
    ensures |ks| == |r|
    ensures forall i :: 0 <= i < |r| ==> ks[i] == r[i].name
  {
    seq(|r|, i requires 0 <= i < |r| => r[i].name)
  }

  predicate HasKey(r: Record, h: string)
  {
    exists i :: 0 <= i < |r| && r[i].name == h
  }

  /** Position of the first field named `h`. */
  function IndexOf(r: Record, h: string): (i: nat)
    requires HasKey(r, h)
    ensures i < |r| && r[i].name == h
    ensures forall j :: 0 <= j < i ==> r[j].name != h
  {
    if r[0].name == h then 0
    else
      assert HasKey(r[1..], h) by {
        var j :| 0 <= j < |r| && r[j].name == h;
        assert r[1..][j - 1].name == h;
      }
      1 + IndexOf(r[1..], h)
  }

  /** `row[h]`: the value stored under column `h`. */
  function Lookup(r: Record, h: string): string
    requires HasKey(r, h)
  {
    r[IndexOf(r, h)].text
  }

  /** The record holds a value for every header (otherwise `row[header]` raises). */
  predicate HasHeaders(r: Record, headers: seq<string>)
  {
    forall i :: 0 <= i < |headers| ==> HasKey(r, headers[i])
  }

  /** No two fields of a record share a name, as in a dictionary. */
  predicate DistinctNames(r: Record)
  {
    forall i, j :: 0 <= i < j < |r| ==> r[i].name != r[j].name
  }

  /** Every record is a dictionary, and has every column of the first record. */
  predicate WellFormed(data: seq<Record>)
  {
    && (forall i :: 0 <= i < |data| ==> DistinctNames(data[i]))
    && (|data| == 0 || forall i :: 0 <= i < |data| ==> HasHeaders(data[i], Keys(data[0])))
  }

  /** `"| " + " | ".join(cells) + " |"`. */
  function RowLine(cells: seq<string>): string
  {
    "| " + Join(" | ", cells) + " |"
  }

  /** One `"---"` per header. */
  function Dashes(n: nat): (d: seq<string>)
    ensures |d| == n && forall i :: 0 <= i < n ==> d[i] == "---"
  {
    seq(n, _ => "---")
  }

  /** The cells of one record, in header order. */
  function Cells(r: Record, headers: seq<string>): (cs: seq<string>)
    requires HasHeaders(r, headers)
    ensures |cs| == |headers|
    ensures forall i :: 0 <= i < |headers| ==> cs[i] == Lookup(r, headers[i])
  {
    seq(|headers|, i requires 0 <= i < |headers| => Lookup(r, headers[i]))
  }

  /** One data row per record, in input order. */
  function DataRows(data: seq<Record>, headers: seq<string>): (rows: seq<string>)
    requires forall i :: 0 <= i < |data| ==> HasHeaders(data[i], headers)
    ensures |rows| == |data|
    ensures forall i :: 0 <= i < |data| ==> rows[i] == RowLine(Cells(data[i], headers))
  {
    seq(|data|, i requires 0 <= i < |data| => RowLine(Cells(data[i], headers)))
  }

  /** The lines of the table: header row, separator row, data rows. */
  function TableLines(data: seq<Record>): seq<string>
    requires |data| > 0 && WellFormed(data)
  {
    var headers := Keys(data[0]);
    [RowLine(headers), RowLine(Dashes(|headers|))] + DataRows(data, headers)
  }

  /** The table as one string: empty for no records, otherwise its lines joined
   *  by line breaks with none at the end. */
  function Markdown(data: seq<Record>): string
    requires WellFormed(data)
  {
    if |data| == 0 then "" else Join("\n", TableLines(data))
  }

  /** Builds the table, appending one data row per record in a loop. */
  method FormatTableMarkdown(data: seq<Record>) returns (table: string)
    requires WellFormed(data)
    ensures table == Markdown(data)
    ensures data == [] <==> table == ""
  {
    if |data| == 0 {
      return "";
    }
    var headers := Keys(data[0]);
    var headerRow := RowLine(headers);
    var separatorRow := RowLine(Dashes(|headers|));
    var dataRows: seq<string> := [];
    for i := 0 to |data|
      invariant |dataRows| == i
      invariant forall k :: 0 <= k < i ==> dataRows[k] == RowLine(Cells(data[k], headers))
    {
      dataRows := dataRows + [RowLine(Cells(data[i], headers))];
    }
    assert dataRows == DataRows(data, headers);
    table := Join("\n", [headerRow, separatorRow] + dataRows);
    assert |table| >= |headerRow| by {
      JoinStartsWith("\n", [headerRow, separatorRow] + dataRows);
    }
  }

  /** The join of several parts starts with the first part. */
  lemma {:induction false} JoinStartsWith(sep: string, parts: seq<string>)
    requires |parts| > 0
    ensures |Join(sep, parts)| >= |parts[0]|
    ensures Join(sep, parts)[..|parts[0]|] == parts[0]
  {
  }

  /** `str` concatenation of `" " + c + " |"` over the cells: each cell framed
   *  on its own. */
  function Framed(cells: seq<string>): string
  {
    if |cells| == 0 then "" else " " + cells[0] + " |" + Framed(cells[1..])
  }

  /** A row of at least one cell is `"|"` followed by each cell in its own
   *  `" … |"` frame. */
  lemma {:induction false} RowLineFramesEachCell(cells: seq<string>)
    requires |cells| >= 1
    ensures RowLine(cells) == "|" + Framed(cells)
    decreases |cells|
  {
    if |cells| == 1 {
      assert Framed(cells[1..]) == "";
      assert RowLine(cells) == "| " + cells[0] + " |";
    } else {
      var rest := cells[1..];
      RowLineFramesEachCell(rest);
      var j := Join(" | ", rest);
      assert "| " + j + " |" == "|" + Framed(rest);
      assert Framed(rest) == " " + j + " |" by {
        assert ("| " + j + " |")[1..] == " " + j + " |";
        assert ("|" + Framed(rest))[1..] == Framed(rest);
      }
      calc {
        RowLine(cells);
        "| " + (cells[0] + " | " + j) + " |";
        "|" + (" " + cells[0] + " |") + (" " + j + " |");
        "|" + (" " + cells[0] + " |") + Framed(rest);
        "|" + Framed(cells);
      }
    }
  }

  /** `n` copies of `s`, concatenated. */
  function Repeat(s: string, n: nat): string
  {
    if n == 0 then "" else s + Repeat(s, n - 1)
  }

  /** The separator row of `n >= 1` headers is `"|"` followed by exactly `n`
   *  copies of `" --- |"`. */
  lemma {:induction false} SeparatorHasOneDashPerHeader(n: nat)
    requires n >= 1
    ensures RowLine(Dashes(n)) == "|" + Repeat(" --- |", n)
  {
    RowLineFramesEachCell(Dashes(n));
    FramedDashes(n);
  }

  lemma {:induction false} FramedDashes(n: nat)
    ensures Framed(Dashes(n)) == Repeat(" --- |", n)
  {
    if n > 0 {
      assert Dashes(n)[1..] == Dashes(n - 1);
      FramedDashes(n - 1);
    }
  }

  /** No column name and no cell holds a line break. */
  predicate SingleLineCells(data: seq<Record>)
  {
    forall i, j :: 0 <= i < |data| && 0 <= j < |data[i]| ==> '\n' !in data[i][j].name && '\n' !in data[i][j].text
  }

  /** Splitting a non-empty table on line breaks gives back exactly its header
   *  row, its separator row and one row per record: `|data| + 2` lines. */
  lemma TableSplitsIntoRows(data: seq<Record>)
    requires |data| > 0 && WellFormed(data) && SingleLineCells(data)
    ensures SplitLines(Markdown(data)) == TableLines(data)
    ensures |SplitLines(Markdown(data))| == |data| + 2
  {
    var headers := Keys(data[0]);
    var lines := TableLines(data);
    forall i | 0 <= i < |lines|
      ensures '\n' !in lines[i]
    {
      var cells := if i == 0 then headers
                   else if i == 1 then Dashes(|headers|)
                   else Cells(data[i - 2], headers);
      assert lines[i] == RowLine(cells);
      forall k | 0 <= k < |cells|
        ensures '\n' !in cells[k]
      {
        if i == 0 {
          assert cells[k] == data[0][k].name;
        } else if i >= 2 {
          var r := data[i - 2];
          var p := IndexOf(r, headers[k]);
          assert cells[k] == r[p].text;
        }
      }
      JoinAvoids(" | ", cells, '\n');
    }
    SplitJoinLines(lines);
  }

  /** The empty record list renders as the empty string. */
  lemma EmptyTable()
    ensures Markdown([]) == ""
  {
  }

  /** `sep.join` of three parts. */
  lemma JoinThree(sep: string, a: string, b: string, c: string)
    ensures Join(sep, [a, b, c]) == a + sep + b + sep + c
  {
    assert [a, b, c][1..] == [b, c];
    assert [b, c][1..] == [c];
    assert Join(sep, [b, c]) == b + sep + c;
  }

  /** A record of three distinct columns is a well-formed table on its own. */
  lemma ThreeColumnsWellFormed(h1: string, h2: string, h3: string, v1: string, v2: string, v3: string)
    requires h1 != h2 && h1 != h3 && h2 != h3
    ensures WellFormed([[Field(h1, v1), Field(h2, v2), Field(h3, v3)]])
  {
    var r := [Field(h1, v1), Field(h2, v2), Field(h3, v3)];
    assert r[0].name == h1 && r[1].name == h2 && r[2].name == h3;
    assert DistinctNames(r);
    assert HasHeaders(r, Keys(r));
  }

  /** The lines of a one-record table with three distinct columns. */
  lemma ThreeColumnLines(h1: string, h2: string, h3: string, v1: string, v2: string, v3: string)
    requires h1 != h2 && h1 != h3 && h2 != h3
    ensures WellFormed([[Field(h1, v1), Field(h2, v2), Field(h3, v3)]])
    ensures TableLines([[Field(h1, v1), Field(h2, v2), Field(h3, v3)]])
         == [RowLine([h1, h2, h3]), RowLine(["---", "---", "---"]), RowLine([v1, v2, v3])]
  {
    ThreeColumnsWellFormed(h1, h2, h3, v1, v2, v3);
    var r := [Field(h1, v1), Field(h2, v2), Field(h3, v3)];
    var headers := [h1, h2, h3];
    assert Keys(r) == headers;
    assert r[0].name == h1 && r[1].name == h2 && r[2].name == h3;
    assert IndexOf(r, h2) == 1 by { assert IndexOf(r[1..], h2) == 0; }
    assert IndexOf(r, h3) == 2 by {
      assert r[1..][1..] == [Field(h3, v3)];
      assert IndexOf(r[1..][1..], h3) == 0;
    }
    assert Cells(r, headers) == [v1, v2, v3];
    assert Dashes(3) == ["---", "---", "---"];
  }

  /** The single-record test in general form: one record of three distinct
   *  columns renders as its header row, three `---` cells and its values, in
   *  the record's column order. */
  lemma SingleRowOfThreeColumns(h1: string, h2: string, h3: string, v1: string, v2: string, v3: string)
    requires h1 != h2 && h1 != h3 && h2 != h3
    ensures Markdown([[Field(h1, v1), Field(h2, v2), Field(h3, v3)]])
         == "| " + (h1 + " | " + h2 + " | " + h3) + " |" + "\n"
          + "| " + ("---" + " | " + "---" + " | " + "---") + " |" + "\n"
          + "| " + (v1 + " | " + v2 + " | " + v3) + " |"
  {
    var data := [[Field(h1, v1), Field(h2, v2), Field(h3, v3)]];
    var header, separator, row := RowLine([h1, h2, h3]), RowLine(["---", "---", "---"]), RowLine([v1, v2, v3]);
    ThreeColumnLines(h1, h2, h3, v1, v2, v3);
    assert Markdown(data) == Join("\n", [header, separator, row]);
    JoinThree("\n", header, separator, row);
    JoinThree(" | ", h1, h2, h3);
    JoinThree(" | ", "---", "---", "---");
    JoinThree(" | ", v1, v2, v3);
    assert header == "| " + (h1 + " | " + h2 + " | " + h3) + " |";
    assert separator == "| " + ("---" + " | " + "---" + " | " + "---") + " |";
    assert row == "| " + (v1 + " | " + v2 + " | " + v3) + " |";
  }
}
