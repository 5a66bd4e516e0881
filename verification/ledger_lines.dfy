/** Ledger lines, the pages a query returns, and the decimal cursor between pages. */
module LedgerLines {
  import opened Options
  import opened MachineIntegers

  // ------------------------------------------------------------------ decimal cursors

  predicate IsDigit(c: char) {
    '0' <= c <= '9'
  }

  function DigitOf(d: nat): char
    requires d < 10
  {
    ('0' as int + d) as char
  }

  function ValueOf(c: char): nat
    requires IsDigit(c)
  {
    c as int - '0' as int
  }

  function Digits(n: nat): (s: string)
    ensures s != "" && forall i :: 0 <= i < |s| ==> IsDigit(s[i])
  {
    if n < 10 then [DigitOf(n)] else Digits(n / 10) + [DigitOf(n % 10)]
  }

  /** As printed by %d. */
  function Decimal(n: int): string {
    if n < 0 then "-" + Digits(-n) else Digits(n)
  }

  /** The digits at the front. */
  function DigitRun(s: string): (r: string)
    ensures forall i :: 0 <= i < |r| ==> IsDigit(r[i])
  {
    if s == "" || !IsDigit(s[0]) then "" else [s[0]] + DigitRun(s[1..])
  }

  function Number(s: string): nat
    requires forall i :: 0 <= i < |s| ==> IsDigit(s[i])
  {
    if s == "" then 0 else Number(s[..|s| - 1]) * 10 + ValueOf(s[|s| - 1])
  }

  /** As scanned by %d into an int64: a sign, then digits; nothing if there are none, or too many. */
  function Scan(s: string): Option<int> {
    var signed := s != "" && (s[0] == '-' || s[0] == '+');
    var run := DigitRun(if signed then s[1..] else s);
    if run == "" then None
    else
      var n: int := if signed && s[0] == '-' then 0 - Number(run) else Number(run);
      if InInt64(n) then Some(n) else None
  }

  lemma {:induction false} NumberOfDigits(n: nat)
    ensures Number(Digits(n)) == n
  {
    if n >= 10 {
      NumberOfDigits(n / 10);
      assert Digits(n)[..|Digits(n)| - 1] == Digits(n / 10);
    }
  }

  lemma {:induction false} DigitRunOfDigits(s: string)
    requires forall i :: 0 <= i < |s| ==> IsDigit(s[i])
    ensures DigitRun(s) == s
  {
    if s != "" {
      DigitRunOfDigits(s[1..]);
      assert [s[0]] + s[1..] == s;
    }
  }

  /** The printed cursor is scanned back to the same number. */
  lemma ScanDecimal(n: int)
    requires InInt64(n)
    ensures Scan(Decimal(n)) == Some(n)
  {
    var m := if n < 0 then -n else n;
    DigitRunOfDigits(Digits(m));
    NumberOfDigits(m);
    assert ("-" + Digits(m))[1..] == Digits(m);
    assert IsDigit(Digits(m)[0]);
  }

  // ------------------------------------------------------------------ rows and pages

  datatype Line = Line(id: int, amount: int, kind: string, createdAt: string)

  /** A row of the ledger table; `time` is what the window is compared with. */
  datatype Row = Row(customer: string, time: int, line: Line)

  datatype Window = Window(customer: string, from: int, to: int)

  predicate Inside(row: Row, w: Window) {
    row.customer == w.customer && w.from <= row.time < w.to
  }

  /** Identity column: positive, increasing in table order. */
  ghost predicate Increasing(rows: seq<Row>) {
    && (forall i :: 0 <= i < |rows| ==> 0 < rows[i].line.id <= MAX_INT64)
    && (forall i, j :: 0 <= i < j < |rows| ==> rows[i].line.id < rows[j].line.id)
  }

  ghost predicate IncreasingLines(lines: seq<Line>) {
    && (forall i :: 0 <= i < |lines| ==> 0 < lines[i].id <= MAX_INT64)
    && (forall i, j :: 0 <= i < j < |lines| ==> lines[i].id < lines[j].id)
  }

  /** The lines of a window, in id order. */
  function Select(rows: seq<Row>, w: Window): seq<Line> {
    if rows == [] then []
    else Select(rows[..|rows| - 1], w) + if Inside(rows[|rows| - 1], w) then [rows[|rows| - 1].line] else []
  }

  lemma {:induction false} SelectGrows(rows: seq<Row>, more: seq<Row>, w: Window)
    ensures Select(rows, w) <= Select(rows + more, w)
  {
    if more == [] {
      assert rows + more == rows;
    } else {
      SelectGrows(rows, more[..|more| - 1], w);
      assert (rows + more)[..|rows + more| - 1] == rows + more[..|more| - 1];
    }
  }

  /** The line is that of a row of this customer, from `from` on and before `to`. */
  ghost predicate IsLineOf(rows: seq<Row>, customer: string, from: int, to: int, line: Line) {
    exists i :: 0 <= i < |rows| && rows[i].line == line && rows[i].customer == customer && from <= rows[i].time < to
  }

  /** A line is in the window exactly if it is that of a row of the customer within the period. */
  lemma {:induction false} SelectMembers(rows: seq<Row>, w: Window, line: Line)
    ensures line in Select(rows, w) <==> IsLineOf(rows, w.customer, w.from, w.to, line)
  {
    if rows != [] {
      SelectMembers(rows[..|rows| - 1], w, line);
      assert forall i :: 0 <= i < |rows| - 1 ==> rows[..|rows| - 1][i] == rows[i];
    }
  }

  lemma {:induction false} SelectIncreases(rows: seq<Row>, w: Window)
    requires Increasing(rows)
    ensures IncreasingLines(Select(rows, w))
  {
    if rows != [] {
      var front, last := rows[..|rows| - 1], rows[|rows| - 1];
      SelectIncreases(front, w);
      forall k | 0 <= k < |Select(front, w)| ensures Select(front, w)[k].id < last.line.id {
        SelectMembers(front, w, Select(front, w)[k]);
      }
    }
  }

  /** The query's WHERE on the cursor: 0 is no cursor. */
  function After(lines: seq<Line>, cursor: int): seq<Line> {
    if lines == [] then []
    else
      var front, last := lines[..|lines| - 1], lines[|lines| - 1];
      After(front, cursor) + if cursor == 0 || last.id > cursor then [last] else []
  }

  function Page(lines: seq<Line>, cursor: int, limit: nat): seq<Line> {
    var found := After(lines, cursor);
    if |found| <= limit then found else found[..limit]
  }

  /** The cursor of the first `k` lines of the window: none yet, or the id of the last of them. */
  function CursorAt(lines: seq<Line>, k: nat): int
    requires k <= |lines|
  {
    if k == 0 then 0 else lines[k - 1].id
  }

  lemma {:induction false} AfterIsRest(lines: seq<Line>, k: nat)
    requires IncreasingLines(lines) && k <= |lines|
    ensures After(lines, CursorAt(lines, k)) == lines[k..]
  {
    if lines != [] {
      var front := lines[..|lines| - 1];
      if k < |lines| {
        assert CursorAt(front, k) == CursorAt(lines, k);
        AfterIsRest(front, k);
        assert lines[k..] == front[k..] + [lines[|lines| - 1]];
      } else {
        NothingAfter(front, lines[k - 1].id);
      }
    }
  }

  lemma {:induction false} NothingAfter(lines: seq<Line>, cursor: int)
    requires cursor != 0 && forall i :: 0 <= i < |lines| ==> lines[i].id <= cursor
    ensures After(lines, cursor) == []
  {
    if lines != [] {
      NothingAfter(lines[..|lines| - 1], cursor);
    }
  }

  /** A page asked for with that cursor continues where the last one ended. */
  lemma PageContinues(lines: seq<Line>, k: nat, limit: nat)
    requires IncreasingLines(lines) && k <= |lines|
    ensures Page(lines, CursorAt(lines, k), limit) == lines[k..if k + limit <= |lines| then k + limit else |lines|]
  {
    AfterIsRest(lines, k);
  }

  /** The cursor handed out with a page: only a full page has one. */
  function NextCursor(page: seq<Line>, limit: nat): string {
    if |page| == limit && |page| > 0 then Decimal(page[|page| - 1].id) else ""
  }
}
