/** The CSV text of the results table: every cell quoted with embedded
    quotes doubled, cells joined by "," and rows by "\n"; and a reader for
    quoted fields following section 2 (rule 7) of RFC 4180, the inverse the
    encoding is checked against. */
module Csv {
  import opened FmeaTypes
  import opened SeqUtil

  /** `text.replace(/"/g, '""')`: every quote doubled, other characters kept. */
  function Escape(text: string): (r: string)
    ensures |r| >= |text|
    ensures text == [] <==> r == []
  {
    if text == [] then []
    else (if text[0] == '"' then "\"\"" else [text[0]]) + Escape(text[1..])
  }

  /** One cell: the escaped text between a pair of quotes. */
  function EncodeCell(text: string): (r: string)
    ensures |r| >= 2 && r[0] == '"' && r[|r| - 1] == '"'
  {
    "\"" + Escape(text) + "\""
  }

  /** One row: its encoded cells joined by ",". */
  function EncodeRow(cells: seq<string>): string {
    Join(seq(|cells|, i requires 0 <= i < |cells| => EncodeCell(cells[i])), ",")
  }

  /** The whole table: its encoded rows joined by "\n". */
  function EncodeTable(rows: seq<seq<string>>): string {
    Join(seq(|rows|, i requires 0 <= i < |rows| => EncodeRow(rows[i])), "\n")
  }

  /** Reads a quoted field's body up to its closing quote, a doubled quote
      standing for one quote; gives the text and what follows the closing
      quote, or nothing when the closing quote is missing. */
  function ReadQuoted(s: string): (r: Option<(string, string)>)
    ensures r.Some? ==> |r.value.1| < |s|
  {
    if s == [] then None
    else if s[0] == '"' then
      if |s| >= 2 && s[1] == '"' then
        match ReadQuoted(s[2..])
        case None => None
        case Some(p) => Some(("\"" + p.0, p.1))
      else Some(("", s[1..]))
    else
      match ReadQuoted(s[1..])
      case None => None
      case Some(p) => Some(([s[0]] + p.0, p.1))
  }

  /** Reads one record of quoted fields separated by ","; it ends at the end
      of the text or before a "\n". */
  function ParseRecord(s: string): (r: Option<(seq<string>, string)>)
    ensures r.Some? ==> |r.value.0| >= 1 && |r.value.1| < |s|
    ensures r.Some? ==> r.value.1 == [] || r.value.1[0] == '\n'
    decreases |s|
  {
    if s == [] || s[0] != '"' then None
    else
      match ReadQuoted(s[1..])
      case None => None
      case Some(p) =>
        if p.1 == [] || p.1[0] == '\n' then Some(([p.0], p.1))
        else if p.1[0] == ',' then
          match ParseRecord(p.1[1..])
          case None => None
          case Some(q) => Some(([p.0] + q.0, q.1))
        else None
  }

  /** Reads records separated by "\n" up to the end of the text. */
  function ParseTable(s: string): (r: Option<seq<seq<string>>>)
    ensures r.Some? ==> forall i :: 0 <= i < |r.value| ==> |r.value[i]| >= 1
    decreases |s|
  {
    if s == [] then Some([])
    else
      match ParseRecord(s)
      case None => None
      case Some(p) =>
        if p.1 == [] then Some([p.0])
        else
          match ParseTable(p.1[1..])
          case None => None
          case Some(t) => Some([p.0] + t)
  }

  /** Reading an escaped text followed by the closing quote gives the text
      back, provided no quote follows the closing one. */
  lemma {:induction false} ReadQuotedEscape(text: string, tail: string)
    requires tail == [] || tail[0] != '"'
    ensures ReadQuoted(Escape(text) + "\"" + tail) == Some((text, tail))
  {
    var s := Escape(text) + "\"" + tail;
    if text == [] {
      assert s == "\"" + tail;
      assert s[1..] == tail;
    } else {
      ReadQuotedEscape(text[1..], tail);
      assert text == [text[0]] + text[1..];
      if text[0] == '"' {
        assert s == "\"\"" + (Escape(text[1..]) + "\"" + tail);
        assert s[2..] == Escape(text[1..]) + "\"" + tail;
      } else {
        assert s == [text[0]] + (Escape(text[1..]) + "\"" + tail);
        assert s[1..] == Escape(text[1..]) + "\"" + tail;
      }
    }
  }

  lemma EncodeRowSingle(cells: seq<string>)
    requires |cells| == 1
    ensures EncodeRow(cells) == EncodeCell(cells[0])
  {
  }

  lemma EncodeTableSingle(rows: seq<seq<string>>)
    requires |rows| == 1
    ensures EncodeTable(rows) == EncodeRow(rows[0])
  {
  }

  lemma EncodeRowCons(cells: seq<string>)
    requires |cells| >= 2
    ensures EncodeRow(cells) == EncodeCell(cells[0]) + "," + EncodeRow(cells[1..])
  {
    var parts := seq(|cells|, i requires 0 <= i < |cells| => EncodeCell(cells[i]));
    assert parts[1..] == seq(|cells[1..]|, i requires 0 <= i < |cells[1..]| => EncodeCell(cells[1..][i]));
  }

  lemma EncodeTableCons(rows: seq<seq<string>>)
    requires |rows| >= 2
    ensures EncodeTable(rows) == EncodeRow(rows[0]) + "\n" + EncodeTable(rows[1..])
  {
    var parts := seq(|rows|, i requires 0 <= i < |rows| => EncodeRow(rows[i]));
    assert parts[1..] == seq(|rows[1..]|, i requires 0 <= i < |rows[1..]| => EncodeRow(rows[1..][i]));
  }

  /** Decoding an encoded cell by section 2, rule 7 of RFC 4180 gives its
      text back, leaving what follows, when no quote follows it. */
  lemma ReadCell(text: string, rest: string)
    requires rest == [] || rest[0] != '"'
    ensures (EncodeCell(text) + rest)[0] == '"'
    ensures ReadQuoted((EncodeCell(text) + rest)[1..]) == Some((text, rest))
  {
    assert (EncodeCell(text) + rest)[1..] == Escape(text) + "\"" + rest;
    ReadQuotedEscape(text, rest);
  }

  /** An encoded non-empty row reads back as its cells, leaving what follows. */
  lemma {:induction false} RecordRoundTrip(cells: seq<string>, tail: string)
    requires |cells| >= 1
    requires tail == [] || tail[0] == '\n'
    ensures ParseRecord(EncodeRow(cells) + tail) == Some((cells, tail))
  {
    if |cells| == 1 {
      EncodeRowSingle(cells);
      ReadCell(cells[0], tail);
      assert cells == [cells[0]];
    } else {
      EncodeRowCons(cells);
      var rest := EncodeRow(cells[1..]) + tail;
      assert EncodeRow(cells) + tail == EncodeCell(cells[0]) + ("," + rest);
      ReadCell(cells[0], "," + rest);
      assert ("," + rest)[1..] == rest;
      RecordRoundTrip(cells[1..], tail);
      assert cells == [cells[0]] + cells[1..];
    }
  }

  /** `exportToCSV`'s text reads back as the table it was made from, as long
      as no row is empty. */
  lemma {:induction false} TableRoundTrip(rows: seq<seq<string>>)
    requires forall i :: 0 <= i < |rows| ==> |rows[i]| >= 1
    ensures ParseTable(EncodeTable(rows)) == Some(rows)
  {
    if |rows| == 1 {
      EncodeTableSingle(rows);
      RecordRoundTrip(rows[0], "");
      assert EncodeTable(rows) == EncodeRow(rows[0]) + "";
      assert rows == [rows[0]];
    } else if |rows| >= 2 {
      EncodeTableCons(rows);
      var rest := EncodeTable(rows[1..]);
      RecordRoundTrip(rows[0], "\n" + rest);
      assert EncodeTable(rows) == EncodeRow(rows[0]) + ("\n" + rest);
      assert ("\n" + rest)[1..] == rest;
      TableRoundTrip(rows[1..]);
      assert rows == [rows[0]] + rows[1..];
    }
  }
}
