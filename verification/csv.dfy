/** `escapeCsvField` of `include/utils/csv_writer.h`, checked against a reader that follows
    section 2 of RFC 4180 (accepting a bare line feed as well as CRLF between records). */
module Csv {
  import opened Common

  predicate IsTrigger(c: char) {
    c == '=' || c == '+' || c == '-' || c == '@' || c == '\t' || c == '\r'
  }

  predicate Special(c: char) { c == '"' || c == ',' || c == '\n' || c == '\r' }

  predicate NeedsQuote(s: string) { exists i :: 0 <= i < |s| && Special(s[i]) }

  /** The value a reader gets: a quote character in front of a formula. */
  function Guarded(s: string): string {
    if s != "" && IsTrigger(s[0]) then "'" + s else s
  }

  function Double(c: char): string { if c == '"' then "\"\"" else [c] }

  function Doubled(s: string): string {
    if s == "" then "" else Double(s[0]) + Doubled(s[1..])
  }

  function Escaped(s: string): string {
    if s != "" && (NeedsQuote(s) || IsTrigger(s[0])) then "\"" + Doubled(Guarded(s)) + "\"" else s
  }

  method EscapeField(s: string) returns (r: string)
    ensures r == Escaped(s)
  {
    if s == "" { return s; }
    var out := "";
    var guard := IsTrigger(s[0]);
    if guard { out := out + "'"; }
    ghost var prefix := out;
    var needsQuote := false;
    for i := 0 to |s|
      invariant out + Doubled(s[i..]) == prefix + Doubled(s)
      invariant needsQuote <==> exists k :: 0 <= k < i && Special(s[k])
      invariant !needsQuote ==> out == prefix + s[..i]
    {
      ghost var before := out;
      if s[i] == '"' {
        out := out + "\"" + "\"";
        needsQuote := true;
      } else if s[i] == ',' || s[i] == '\n' || s[i] == '\r' {
        out := out + [s[i]];
        needsQuote := true;
      } else {
        out := out + [s[i]];
      }
      assert out == before + Double(s[i]);
      DoubledStep(s, i, before, prefix);
      PlainStep(s, i, prefix);
    }
    assert s[..|s|] == s && s[|s|..] == "";
    assert out == prefix + Doubled(s);
    EscapedIs(s, out);
    if needsQuote || guard {
      return "\"" + out + "\"";
    }
    r := out;
  }

  lemma EscapedIs(s: string, out: string)
    requires s != "" && out == (if IsTrigger(s[0]) then "'" else "") + Doubled(s)
    ensures Escaped(s) == if NeedsQuote(s) || IsTrigger(s[0]) then "\"" + out + "\"" else s
  {
    if IsTrigger(s[0]) {
      GuardDoubled(s);
      assert out == Doubled(Guarded(s));
    } else {
      assert out == Doubled(s) && Guarded(s) == s;
    }
  }

  lemma DoubledStep(s: string, i: nat, before: string, prefix: string)
    requires i < |s| && before + Doubled(s[i..]) == prefix + Doubled(s)
    ensures before + Double(s[i]) + Doubled(s[i + 1..]) == prefix + Doubled(s)
  {
    assert s[i..][1..] == s[i + 1..];
    assert s[i..][0] == s[i];
    assert before + (Double(s[i]) + Doubled(s[i + 1..])) == before + Double(s[i]) + Doubled(s[i + 1..]);
  }

  lemma PlainStep(s: string, i: nat, prefix: string)
    requires i < |s|
    ensures prefix + s[..i] + [s[i]] == prefix + s[..i + 1]
  {
  }

  lemma GuardDoubled(s: string)
    ensures Doubled("'" + s) == "'" + Doubled(s)
  {
    assert ("'" + s)[1..] == s;
  }

  // ----- printing -----

  type Table = seq<seq<string>>

  function PrintRow(row: seq<string>): string
    requires row != []
  {
    Escaped(row[0]) + if |row| == 1 then "\n" else "," + PrintRow(row[1..])
  }

  predicate NoEmptyRow(table: Table) { forall i :: 0 <= i < |table| ==> table[i] != [] }

  /** Rows of escaped fields, commas between fields and a line feed after each row. */
  function Print(table: Table): string
    requires NoEmptyRow(table)
  {
    if table == [] then "" else PrintRow(table[0]) + Print(table[1..])
  }

  function GuardedRow(row: seq<string>): seq<string> {
    if row == [] then [] else [Guarded(row[0])] + GuardedRow(row[1..])
  }

  function GuardedTable(table: Table): Table {
    if table == [] then [] else [GuardedRow(table[0])] + GuardedTable(table[1..])
  }

  // ----- reading -----

  datatype Result = Ok(table: Table) | Malformed

  datatype Mode = Start | Plain | Quoted | AfterQuote

  function WithRow(row: seq<string>, r: Result): Result {
    if r.Ok? then Ok([row] + r.table) else r
  }

  /** `field` and `row` hold what has been read of the present field and record. */
  function ParseFrom(s: string, mode: Mode, field: string, row: seq<string>): Result
    decreases |s|
  {
    if s == "" then
      if mode == Quoted then Malformed
      else if mode == Start && row == [] then Ok([])
      else Ok([row + [field]])
    else if mode == Quoted then
      if s[0] == '"' then ParseFrom(s[1..], AfterQuote, field, row)
      else ParseFrom(s[1..], Quoted, field + [s[0]], row)
    else if s[0] == '"' then
      if mode == Start then ParseFrom(s[1..], Quoted, field, row)
      else if mode == AfterQuote then ParseFrom(s[1..], Quoted, field + "\"", row)
      else Malformed
    else if s[0] == ',' then ParseFrom(s[1..], Start, "", row + [field])
    else if s[0] == '\n' then WithRow(row + [field], ParseFrom(s[1..], Start, "", []))
    else if s[0] == '\r' then
      if |s| > 1 && s[1] == '\n' then WithRow(row + [field], ParseFrom(s[2..], Start, "", []))
      else Malformed
    else if mode == AfterQuote then Malformed
    else ParseFrom(s[1..], Plain, field + [s[0]], row)
  }

  function Parse(s: string): Result { ParseFrom(s, Start, "", []) }

  // ----- the round trip -----

  lemma {:induction false} ReadPlain(p: string, tail: string, field: string, row: seq<string>)
    requires !NeedsQuote(p)
    ensures ParseFrom(p + tail, Plain, field, row) == ParseFrom(tail, Plain, field + p, row)
    decreases p
  {
    if p == "" {
      assert p + tail == tail && field + p == field;
    } else {
      assert !Special(p[0]);
      assert (p + tail)[1..] == p[1..] + tail;
      assert field + p == field + [p[0]] + p[1..];
      assert forall i :: 0 <= i < |p[1..]| ==> p[1..][i] == p[i + 1];
      ReadPlain(p[1..], tail, field + [p[0]], row);
    }
  }

  lemma {:induction false} ReadQuoted(q: string, tail: string, field: string, row: seq<string>)
    ensures ParseFrom(Doubled(q) + "\"" + tail, Quoted, field, row) == ParseFrom(tail, AfterQuote, field + q, row)
    decreases q
  {
    var all := Doubled(q) + "\"" + tail;
    if q == "" {
      assert all == "\"" + tail && all[1..] == tail && field + q == field;
    } else {
      var rest := Doubled(q[1..]) + "\"" + tail;
      assert field + q == field + [q[0]] + q[1..];
      if q[0] == '"' {
        assert all == "\"\"" + rest;
        assert all[1..] == "\"" + rest && all[1..][1..] == rest;
      } else {
        assert all == [q[0]] + rest && all[1..] == rest;
      }
      ReadQuoted(q[1..], tail, field + [q[0]], row);
    }
  }

  lemma ReadQuotedField(g: string, tail: string, row: seq<string>)
    requires tail != "" && (tail[0] == ',' || tail[0] == '\n')
    ensures ParseFrom("\"" + Doubled(g) + "\"" + tail, Start, "", row) == ParseFrom(tail, Plain, g, row)
  {
    var all := "\"" + Doubled(g) + "\"" + tail;
    assert all[1..] == Doubled(g) + "\"" + tail;
    ReadQuoted(g, tail, "", row);
    assert "" + g == g;
  }

  lemma ReadBareField(f: string, tail: string, row: seq<string>)
    requires f != "" && !NeedsQuote(f)
    ensures ParseFrom(f + tail, Start, "", row) == ParseFrom(tail, Plain, f, row)
  {
    assert !Special(f[0]);
    assert (f + tail)[1..] == f[1..] + tail && [f[0]] + f[1..] == f && "" + [f[0]] == [f[0]];
    assert forall i :: 0 <= i < |f[1..]| ==> f[1..][i] == f[i + 1];
    ReadPlain(f[1..], tail, [f[0]], row);
  }

  /** Any escaped field reads back as the guarded field, up to the separator behind it. */
  lemma ReadEscaped(f: string, tail: string, row: seq<string>)
    requires tail != "" && (tail[0] == ',' || tail[0] == '\n')
    ensures ParseFrom(Escaped(f) + tail, Start, "", row) == ParseFrom(tail, Plain, Guarded(f), row)
  {
    if f == "" {
      assert Escaped(f) + tail == tail;
    } else if NeedsQuote(f) || IsTrigger(f[0]) {
      ReadQuotedField(Guarded(f), tail, row);
    } else {
      ReadBareField(f, tail, row);
    }
  }

  lemma {:induction false} ReadRow(row: seq<string>, tail: string, before: seq<string>)
    requires row != []
    ensures ParseFrom(PrintRow(row) + tail, Start, "", before) == WithRow(before + GuardedRow(row), Parse(tail))
    decreases row
  {
    PrintedRow(row, tail);
    if |row| == 1 {
      ReadEscaped(row[0], "\n" + tail, before);
      assert ("\n" + tail)[1..] == tail;
      assert GuardedRow(row) == [Guarded(row[0])];
    } else {
      var rest := PrintRow(row[1..]) + tail;
      ReadEscaped(row[0], "," + rest, before);
      assert ("," + rest)[1..] == rest;
      ReadRow(row[1..], tail, before + [Guarded(row[0])]);
      Associative(before, [Guarded(row[0])], GuardedRow(row[1..]));
    }
  }

  lemma PrintedRow(row: seq<string>, tail: string)
    requires row != []
    ensures PrintRow(row) + tail
            == Escaped(row[0]) + if |row| == 1 then "\n" + tail else "," + (PrintRow(row[1..]) + tail)
  {
    if |row| == 1 {
      Associative(Escaped(row[0]), ['\n'], tail);
    } else {
      Associative(Escaped(row[0]), "," + PrintRow(row[1..]), tail);
      Associative(",", PrintRow(row[1..]), tail);
    }
  }

  lemma ReadFirstRow(row: seq<string>, tail: string)
    requires row != []
    ensures Parse(PrintRow(row) + tail) == WithRow(GuardedRow(row), Parse(tail))
  {
    ReadRow(row, tail, []);
    assert [] + GuardedRow(row) == GuardedRow(row);
  }

  /** Printing and reading a table gives back exactly the guarded fields, in the same rows
      and columns. */
  lemma {:induction false} ParsePrint(table: Table)
    requires NoEmptyRow(table)
    ensures Parse(Print(table)) == Ok(GuardedTable(table))
    decreases table
  {
    if table != [] {
      var rest := table[1..];
      ParsePrint(rest);
      ReadFirstRow(table[0], Print(rest));
    }
  }

  lemma {:induction false} GuardedRowAt(row: seq<string>, j: nat)
    requires j < |row|
    ensures |GuardedRow(row)| == |row| && GuardedRow(row)[j] == Guarded(row[j])
    decreases row
  {
    if |row| > 1 {
      GuardedRowAt(row[1..], if j > 0 then j - 1 else 0);
    }
  }

  lemma {:induction false} GuardedTableAt(table: Table, i: nat)
    requires i < |table|
    ensures |GuardedTable(table)| == |table| && GuardedTable(table)[i] == GuardedRow(table[i])
    decreases table
  {
    if |table| > 1 {
      GuardedTableAt(table[1..], if i > 0 then i - 1 else 0);
    }
  }

  /** The characters that make a spreadsheet take a field for a formula. */
  const TRIGGERS: set<char> := {'=', '+', '-', '@', '\t', '\r'}

  /** Field by field: column j of row i reads back with a quote character in front if it starts
      with one of the six formula triggers, and unchanged otherwise; so nothing that is read
      back starts with a trigger. */
  lemma FieldReadsBack(table: Table, i: nat, j: nat)
    requires NoEmptyRow(table) && i < |table| && j < |table[i]|
    ensures var r := Parse(Print(table));
            && r.Ok? && |r.table| == |table| && |r.table[i]| == |table[i]|
            && (r.table[i][j] == "" || r.table[i][j][0] !in TRIGGERS)
            && r.table[i][j] == if table[i][j] != "" && table[i][j][0] in TRIGGERS then "'" + table[i][j] else table[i][j]
  {
    ParsePrint(table);
    GuardedTableAt(table, i);
    GuardedRowAt(table[i], j);
  }

  /** A field goes out as it is exactly when it needs neither quotes nor a guard. */
  lemma EscapedUnchangedIff(s: string)
    ensures Escaped(s) == s <==>
        s == "" || (s[0] !in TRIGGERS && '"' !in s && ',' !in s && '\n' !in s && '\r' !in s)
  {
    if NeedsQuote(s) {
      var i :| 0 <= i < |s| && Special(s[i]);
      assert s[i] in s;
    }
    if s != "" && (NeedsQuote(s) || IsTrigger(s[0])) {
      EscapedIsLonger(s);
    }
  }

  lemma EscapedIsLonger(s: string)
    requires s != "" && (NeedsQuote(s) || IsTrigger(s[0]))
    ensures |Escaped(s)| > |s|
  {
    DoubledIsNoShorter(Guarded(s));
  }

  lemma {:induction false} DoubledIsNoShorter(s: string)
    ensures |Doubled(s)| >= |s|
    decreases s
  {
    if s != "" {
      DoubledIsNoShorter(s[1..]);
    }
  }

  /** The guard loses information in one way only: a formula and the same text already
      written behind a quote character read back alike. */
  lemma GuardCollision(f: string, g: string)
    ensures Guarded(f) == Guarded(g) <==>
        f == g || (g != "" && IsTrigger(g[0]) && f == "'" + g) || (f != "" && IsTrigger(f[0]) && g == "'" + f)
  {
    if f != "" && IsTrigger(f[0]) { assert Guarded(f)[1..] == f; }
    if g != "" && IsTrigger(g[0]) { assert Guarded(g)[1..] == g; }
    if g != "" && IsTrigger(g[0]) && f == "'" + g { assert f[0] == '\''; }
    if f != "" && IsTrigger(f[0]) && g == "'" + f { assert g[0] == '\''; }
  }
}
