/** Exporting ledger lines to a file, page by page, and the status of the jobs that do it. */
module LedgerExport {
  import opened Options
  import opened Surroundings
  import opened MachineIntegers
  import opened LedgerLines

  const EXPORT_ROW_LIMIT_DEFAULT: nat := 100_000
  const HEADER := ["id", "amount_micro", "ledger_type", "created_at"]

  function MaxRows(rowLimit: int): nat {
    if rowLimit <= 0 then EXPORT_ROW_LIMIT_DEFAULT else rowLimit
  }

  // ------------------------------------------------------------------ the two formats

  datatype Content = Csv(records: seq<seq<string>>) | Ndjson(lines: seq<Line>)

  function Record(line: Line): seq<string> {
    [Decimal(line.id), Decimal(line.amount), line.kind, line.createdAt]
  }

  function Records(lines: seq<Line>): seq<seq<string>> {
    seq(|lines|, i requires 0 <= i < |lines| => Record(lines[i]))
  }

  function CsvRecords(lines: seq<Line>): seq<seq<string>> {
    [HEADER] + Records(lines)
  }

  function Rendered(format: string, lines: seq<Line>): Content {
    if format == "ndjson" then Ndjson(lines) else Csv(CsvRecords(lines))
  }

  predicate Stored(line: Line) {
    InInt64(line.id) && InInt64(line.amount)
  }

  /** Nothing is lost in either format: equal files come from equal lines. */
  lemma RenderedDetermines(format: string, a: seq<Line>, b: seq<Line>)
    requires forall line :: line in a || line in b ==> Stored(line)
    requires Rendered(format, a) == Rendered(format, b)
    ensures a == b
  {
    if format != "ndjson" {
      assert ([HEADER] + Records(a))[1..] == Records(a) && ([HEADER] + Records(b))[1..] == Records(b);
      assert |a| == |Records(a)| == |b|;
      forall i | 0 <= i < |a| ensures a[i] == b[i] {
        assert Records(a)[i] == Records(b)[i];
        RecordDetermines(a[i], b[i]);
      }
    }
  }

  lemma RecordDetermines(a: Line, b: Line)
    requires Stored(a) && Stored(b) && Record(a) == Record(b)
    ensures a == b
  {
    assert Record(a)[0] == Record(b)[0] && Record(a)[1] == Record(b)[1]
        && Record(a)[2] == Record(b)[2] && Record(a)[3] == Record(b)[3];
    ScanDecimal(a.id);
    ScanDecimal(b.id);
    ScanDecimal(a.amount);
    ScanDecimal(b.amount);
  }

  /** The columns: a header, then id and amount in decimal, type and time of each line. */
  lemma CsvColumns(lines: seq<Line>, k: nat)
    requires k < |lines| && Stored(lines[k])
    ensures var file := CsvRecords(lines);
            && |file| == |lines| + 1 && file[0] == ["id", "amount_micro", "ledger_type", "created_at"]
            && |file[k + 1]| == 4
            && Scan(file[k + 1][0]) == Some(lines[k].id) && Scan(file[k + 1][1]) == Some(lines[k].amount)
            && file[k + 1][2] == lines[k].kind && file[k + 1][3] == lines[k].createdAt
  {
    assert CsvRecords(lines)[k + 1] == Records(lines)[k] == Record(lines[k]);
    ScanDecimal(lines[k].id);
    ScanDecimal(lines[k].amount);
  }

  // ------------------------------------------------------------------ the ledger

  /** The ledger table. Rows may be added before any query, with larger ids. */
  class Ledger {
    var rows: seq<Row>

    constructor (rows: seq<Row>)
      requires Increasing(rows)
      ensures Valid() && this.rows == rows
    {
      this.rows := rows;
    }

    ghost predicate Valid()
      reads this
    {
      Increasing(rows)
    }

    method ListLedgerLinesInWindow(w: Window, cursor: int, limit: int)
      returns (page: seq<Line>, next: string, failed: bool)
      requires Valid()
      modifies this
      ensures Valid() && old(rows) <= rows
      ensures var n := if limit <= 0 then 1000 else limit;
              !failed ==> page == Page(Select(rows, w), cursor, n) && next == NextCursor(page, n)
    {
      var n := if limit <= 0 then 1000 else limit;
      var more: seq<Row> := *;
      if Ascending(rows + more) {
        rows := rows + more;
      }
      failed := Happens();
      page := if failed then [] else Page(Select(rows, w), cursor, n);
      next := NextCursor(page, n);
    }
  }

  predicate Ascending(rows: seq<Row>)
    ensures Ascending(rows) <==> Increasing(rows)
  {
    && (forall i :: 0 <= i < |rows| ==> 0 < rows[i].line.id <= MAX_INT64)
    && (forall i, j :: 0 <= i < j < |rows| ==> rows[i].line.id < rows[j].line.id)
  }

  // ------------------------------------------------------------------ what an export must hold

  /** The lines are the first ones of the window, without gap or repeat; if they are fewer than the
      limit, none of the `had` lines that were there when the job was created is missing. */
  ghost predicate Covers(lines: seq<Line>, table: seq<Line>, had: nat, max: nat) {
    lines <= table && |lines| <= max && (|lines| == max || |lines| >= had)
  }

  /** Over a ledger that did not grow: exactly the first min(limit, n) lines. */
  lemma CoversStatic(lines: seq<Line>, table: seq<Line>, max: nat)
    requires Covers(lines, table, |table|, max)
    ensures lines == table[..if |table| <= max then |table| else max]
  {
  }

  /** The lines are those of rows of this customer in this period, in id order; below the limit, no such
      row that was among the first `born` is missing. */
  ghost predicate RightRows(lines: seq<Line>, rows: seq<Row>, customer: string, from: int, to: int, born: nat,
                            max: nat) {
    && (forall line :: line in lines ==> IsLineOf(rows, customer, from, to, line))
    && (forall j, k :: 0 <= j < k < |lines| ==> lines[j].id < lines[k].id)
    && (|lines| < max ==>
          forall i :: 0 <= i < born && i < |rows| && rows[i].customer == customer && from <= rows[i].time < to
            ==> rows[i].line in lines)
  }

  lemma CoversRows(lines: seq<Line>, rows: seq<Row>, w: Window, born: nat, had: nat, max: nat)
    requires Increasing(rows) && born <= |rows| && had == |Select(rows[..born], w)|
    requires Covers(lines, Select(rows, w), had, max)
    ensures RightRows(lines, rows, w.customer, w.from, w.to, born, max)
  {
    SelectIncreases(rows, w);
    forall line | line in lines ensures IsLineOf(rows, w.customer, w.from, w.to, line) {
      assert line in Select(rows, w);
      SelectMembers(rows, w, line);
    }
    if |lines| < max {
      TableGrows(rows[..born], rows, w);
      forall i | 0 <= i < born && rows[i].customer == w.customer && w.from <= rows[i].time < w.to
        ensures rows[i].line in lines
      {
        assert rows[..born][i] == rows[i];
        SelectMembers(rows[..born], w, rows[i].line);
        assert Select(rows[..born], w) <= lines;
      }
    }
  }

  lemma CoversLater(lines: seq<Line>, rows: seq<Row>, rows': seq<Row>, w: Window, had: nat, max: nat)
    requires Covers(lines, Select(rows, w), had, max) && rows <= rows'
    ensures Covers(lines, Select(rows', w), had, max)
  {
    TableGrows(rows, rows', w);
  }

  /** A further page, as the loops ask for it: at most what is still wanted, starting where the
      written lines end; the last one if it comes back short. */
  ghost predicate NextPage(page: seq<Line>, next: string, table: seq<Line>, written: nat, max: nat) {
    && written + |page| <= |table| && written + |page| <= max
    && page == table[written..written + |page|]
    && (next == "" ==> written + |page| == |table|)
    && (next != "" ==> page != [] && Scan(next) == Some(CursorAt(table, written + |page|)))
  }

  lemma PageIsNext(table: seq<Line>, written: nat, max: nat, limit: nat)
    requires IncreasingLines(table) && written <= |table| && 0 < limit <= max - written
    ensures var page := Page(table, CursorAt(table, written), limit);
            NextPage(page, NextCursor(page, limit), table, written, max)
  {
    PageContinues(table, written, limit);
    var page := Page(table, CursorAt(table, written), limit);
    if |page| == limit {
      ScanDecimal(page[limit - 1].id);
      assert Decimal(page[limit - 1].id) != "";
    }
  }

  /** Where a loop stands: what it has written is the front of the window. */
  ghost predicate Paging(lines: seq<Line>, table: seq<Line>, written: nat, cursor: int, had: nat, max: nat) {
    lines <= table && |lines| == written <= max && had <= |table| && cursor == CursorAt(lines, written)
  }

  lemma PageAppends(lines: seq<Line>, page: seq<Line>, next: string, table: seq<Line>, written: nat, cursor: int,
                    had: nat, max: nat)
    requires Paging(lines, table, written, cursor, had, max) && NextPage(page, next, table, written, max)
    ensures next != "" ==> page != [] && Paging(lines + page, table, written + |page|, ParseCursor(next), had, max)
    ensures next == "" || written + |page| >= max ==> Covers(lines + page, table, had, max)
  {
    assert table[..written] + table[written..written + |page|] == table[..written + |page|];
  }

  /** A cursor that cannot be scanned counts as none. */
  function ParseCursor(next: string): int {
    var parsed := Scan(next);
    if parsed.Some? then parsed.value else 0
  }

  lemma TableGrows(rows: seq<Row>, rows': seq<Row>, w: Window)
    requires rows <= rows'
    ensures Select(rows, w) <= Select(rows', w)
  {
    SelectGrows(rows, rows'[|rows|..], w);
    assert rows + rows'[|rows|..] == rows';
  }

  lemma CsvAppend(a: seq<Line>, b: seq<Line>)
    ensures CsvRecords(a + b) == CsvRecords(a) + Records(b)
  {
    assert Records(a + b) == Records(a) + Records(b);
  }

  // ------------------------------------------------------------------ jobs

  datatype Status = Pending | Running | Completed | Failed

  /** What is asked for, as text. */
  datatype Spec = Spec(customerId: string, from: string, to: string, format: string, rowLimit: int)

  datatype Path = Path(job: string, extension: string)

  datatype Job = Job(spec: Spec, window: Window, status: Status, file: Option<Path>)

  function Extension(format: string): string {
    if format == "" then "csv" else format
  }

  /** Every completed job has its file, and the file is complete; no window has lost lines. */
  ghost predicate AllDelivered(jobs: map<string, Job>, files: map<Path, Content>, rows: seq<Row>,
                               born: map<string, nat>) {
    forall id :: id in jobs ==>
      && id in born && born[id] <= |rows|
      && (jobs[id].status.Completed? ==> Delivered(id, jobs[id], files, rows, born[id]))
  }

  ghost predicate Delivered(id: string, job: Job, files: map<Path, Content>, rows: seq<Row>, born: nat) {
    && job.file == Some(Path(id, Extension(job.spec.format))) && job.file.value in files
    && Complete(files[job.file.value], job, rows, born)
  }

  lemma AllDeliveredLater(jobs: map<string, Job>, files: map<Path, Content>, rows: seq<Row>, rows': seq<Row>,
                          born: map<string, nat>)
    requires AllDelivered(jobs, files, rows, born) && rows <= rows' && Increasing(rows')
    ensures AllDelivered(jobs, files, rows', born)
  {
    forall id | id in jobs && jobs[id].status.Completed? ensures Delivered(id, jobs[id], files, rows', born[id]) {
      CompleteLater(files[jobs[id].file.value], jobs[id], rows, rows', born[id]);
    }
  }

  lemma CompleteLater(content: Content, job: Job, rows: seq<Row>, rows': seq<Row>, born: nat)
    requires Complete(content, job, rows, born) && rows <= rows' && Increasing(rows')
    ensures Complete(content, job, rows', born)
  {
    var lines :| content == Rendered(job.spec.format, lines) && Exported(lines, job, rows, born);
    ExportedLater(lines, job, rows, rows', born);
  }

  lemma ExportedLater(lines: seq<Line>, job: Job, rows: seq<Row>, rows': seq<Row>, born: nat)
    requires Exported(lines, job, rows, born) && rows <= rows' && Increasing(rows')
    ensures Exported(lines, job, rows', born)
  {
    var w, max := job.window, MaxRows(job.spec.rowLimit);
    FrontStays(rows, rows', born);
    CoversLater(lines, rows, rows', w, |Select(rows[..born], w)|, max);
    CoversRows(lines, rows', w, born, |Select(rows'[..born], w)|, max);
  }

  lemma FrontStays(rows: seq<Row>, rows': seq<Row>, born: nat)
    requires rows <= rows' && born <= |rows|
    ensures rows'[..born] == rows[..born]
  {
  }

  lemma Overwritten(jobs: map<string, Job>, id: string, first: Job, second: Job)
    ensures jobs[id := first][id := second] == jobs[id := second]
  {
  }

  class JobRunner {
    const ledger: Ledger
    const parseUuid: string -> Option<string>
    const parseTime: string -> Option<int>
    var fetchRows: int
    var jobs: map<string, Job>
    var files: map<Path, Content>
    /** How many rows the ledger had when each job was created. */
    ghost var born: map<string, nat>

    constructor (ledger: Ledger, parseUuid: string -> Option<string>, parseTime: string -> Option<int>)
      requires ledger.Valid()
      ensures Valid() && this.ledger == ledger && jobs == map[]
    {
      this.ledger, this.parseUuid, this.parseTime := ledger, parseUuid, parseTime;
      fetchRows, jobs, files, born := 1000, map[], map[], map[];
    }

    ghost predicate Valid()
      reads this, ledger
    {
      && ledger.Valid() && fetchRows > 0 && jobs.Keys == born.Keys
      && (forall id :: id in jobs ==> jobs[id].spec.format in {"", "csv", "ndjson"})
      && AllDelivered(jobs, files, ledger.rows, born)
    }

    method ConfigureExport(rows: int)
      requires Valid()
      modifies this`fetchRows
      ensures Valid() && fetchRows == if rows > 0 then rows else old(fetchRows)
    {
      if rows > 0 {
        fetchRows := rows;
      }
    }

    /** A customer id and a period that can be read, and a known format, make a job; ids are new. */
    method CreateJob(id: string, spec: Spec, thisMonth: (int, int)) returns (ok: bool)
      requires Valid() && id !in jobs
      modifies this`jobs, this`born
      ensures Valid()
      ensures ok <==> && parseUuid(spec.customerId).Some?
                      && (spec.from == "" || spec.to == "" || (parseTime(spec.from).Some? && parseTime(spec.to).Some?))
                      && spec.format in {"", "csv", "ndjson"}
      ensures !ok ==> jobs == old(jobs) && born == old(born)
      ensures ok ==> id in jobs && jobs == old(jobs)[id := jobs[id]]
      ensures ok ==> jobs[id].spec == spec && jobs[id].status.Pending? && jobs[id].file.None?
      ensures ok ==> jobs[id].window.customer == parseUuid(spec.customerId).value
                     && (jobs[id].window.from, jobs[id].window.to) ==
                        (if spec.from == "" || spec.to == "" then thisMonth
                         else (parseTime(spec.from).value, parseTime(spec.to).value))
      ensures ok ==> born == old(born)[id := |ledger.rows|]
    {
      var customer := parseUuid(spec.customerId);
      if customer.None? {
        return false;
      }
      var period := ParsePeriod(spec.from, spec.to, thisMonth);
      if period.None? {
        return false;
      }
      if spec.format != "" && spec.format != "csv" && spec.format != "ndjson" {
        return false;
      }
      var window := Window(customer.value, period.value.0, period.value.1);
      jobs := jobs[id := Job(spec, window, Pending, None)];
      born := born[id := |ledger.rows|];
      return true;
    }

    /** An open-ended period means the current month. */
    function ParsePeriod(from: string, to: string, thisMonth: (int, int)): Option<(int, int)> {
      if from == "" || to == "" then Some(thisMonth)
      else if parseTime(from).None? || parseTime(to).None? then None
      else Some((parseTime(from).value, parseTime(to).value))
    }

    /** Running, then completed, or failed if something was in the way: an operation on the file, a query, a
        cancellation. Other jobs are left alone. */
    method RunJob(id: string) returns (ghost trouble: bool)
      requires Valid()
      requires id in jobs ==> jobs[id].status.Pending?
      modifies this`jobs, this`files, ledger
      ensures Valid() && old(ledger.rows) <= ledger.rows
      ensures id !in old(jobs) ==> jobs == old(jobs)
      ensures id in old(jobs) ==> id in jobs && jobs == old(jobs)[id := jobs[id]]
      ensures id in old(jobs) ==> jobs[id].spec == old(jobs)[id].spec && jobs[id].window == old(jobs)[id].window
      ensures id in old(jobs) ==> jobs[id].status == if trouble then Failed else Completed
    {
      trouble := false;
      if id !in jobs {
        return;
      }
      SetJob(id, jobs[id].(status := Running));
      var path, ok := Path(id, ""), false;
      var mkdirFailed := Happens();
      trouble := mkdirFailed;
      if !mkdirFailed {
        path, ok, trouble := Produce(id);
      }
      var job := if ok then jobs[id].(status := Completed, file := Some(path)) else jobs[id].(status := Failed);
      Overwritten(old(jobs), id, jobs[id], job);
      SetJob(id, job);
    }

    method SetJob(id: string, job: Job)
      requires Valid() && id in jobs && job.spec == jobs[id].spec && job.window == jobs[id].window
      requires job.status.Completed? ==> Delivered(id, job, files, ledger.rows, born[id])
      modifies this`jobs
      ensures Valid() && jobs == old(jobs)[id := job]
    {
      jobs := jobs[id := job];
    }

    /** Write the job's file. It counts only if nothing failed and the job was not cancelled. */
    method Produce(id: string) returns (path: Path, ok: bool, ghost trouble: bool)
      requires Valid() && id in jobs && jobs[id].status.Running?
      modifies this`files, ledger
      ensures Valid() && old(ledger.rows) <= ledger.rows
      ensures path == Path(id, Extension(jobs[id].spec.format))
      ensures ok ==> path in files && Complete(files[path], jobs[id], ledger.rows, born[id])
      ensures ok <==> !trouble
    {
      path := Path(id, Extension(jobs[id].spec.format));
      ghost var before := ledger.rows;
      var content, failed;
      content, failed, trouble := WriteFile(jobs[id], path.extension, born[id]);
      AllDeliveredLater(jobs, files, before, ledger.rows, born);
      files := files[path := content];
      var cancelled := Happens();
      var statFailed := Happens();
      trouble := trouble || cancelled || statFailed;
      ok := !failed && !cancelled && !statFailed;
    }

    /** A download is handed out for a completed job whose file is still there, and it is the complete export. */
    method OpenDownload(id: string) returns (r: Option<Content>, ghost trouble: bool)
      requires Valid()
      ensures r.Some? ==> id in jobs && jobs[id].status.Completed? && Complete(r.value, jobs[id], ledger.rows, born[id])
      ensures r.None? <==> id !in jobs || !jobs[id].status.Completed? || trouble
    {
      trouble := false;
      if id !in jobs || !jobs[id].status.Completed? || jobs[id].file.None? {
        return None, false;
      }
      var gone := Happens();
      trouble := gone;
      r := if gone then None else Some(files[jobs[id].file.value]);
    }

    // ---------------------------------------------------------------- the paging loops

    method WriteFile(job: Job, extension: string, ghost born: nat)
      returns (content: Content, failed: bool, ghost trouble: bool)
      requires ledger.Valid() && fetchRows > 0 && extension == Extension(job.spec.format)
      requires born <= |ledger.rows|
      modifies ledger
      ensures ledger.Valid() && old(ledger.rows) <= ledger.rows
      ensures !failed ==> Complete(content, job, ledger.rows, born)
      ensures failed <==> trouble
    {
      ghost var lines;
      if extension == "ndjson" {
        var written;
        written, failed, lines, trouble := WriteNDJSON(job, born);
        content := Ndjson(written);
      } else {
        var written;
        written, failed, lines, trouble := WriteCSV(job, born);
        content := Csv(written);
      }
      assert !failed ==> content == Rendered(job.spec.format, lines);
    }

    /** One query of either loop. */
    method FetchPage(w: Window, cursor: int, written: nat, max: nat, ghost lines: seq<Line>, ghost had: nat)
      returns (page: seq<Line>, next: string, failed: bool, ghost trouble: bool)
      requires ledger.Valid() && fetchRows > 0 && written < max
      requires Paging(lines, Select(ledger.rows, w), written, cursor, had, max)
      modifies ledger
      ensures ledger.Valid() && old(ledger.rows) <= ledger.rows
      ensures Paging(lines, Select(ledger.rows, w), written, cursor, had, max)
      ensures !failed ==> NextPage(page, next, Select(ledger.rows, w), written, max)
      ensures failed <==> trouble
    {
      var batchLimit := fetchRows;
      if batchLimit > max - written {
        batchLimit := max - written;
      }
      ghost var before := ledger.rows;
      page, next, failed := ledger.ListLedgerLinesInWindow(w, cursor, batchLimit);
      trouble := failed;
      TableGrows(before, ledger.rows, w);
      SelectIncreases(ledger.rows, w);
      PageIsNext(Select(ledger.rows, w), written, max, batchLimit);
    }

    /** One CSV record per line of the page. */
    static method WriteRecords(file: seq<seq<string>>, page: seq<Line>, written: nat, maxRows: nat)
      returns (file': seq<seq<string>>, written': nat, failed: bool, ghost trouble: bool)
      requires written + |page| <= maxRows
      ensures !failed ==> file' == file + Records(page) && written' == written + |page|
      ensures failed <==> trouble
    {
      file', written', failed, trouble := file, written, false, false;
      for i := 0 to |page|
        invariant file' == file + Records(page[..i]) && written' == written + i && !failed && !trouble
      {
        if written' >= maxRows {
          break;
        }
        failed := Happens();
        trouble := failed;
        if failed {
          return;
        }
        file', written' := file' + [Record(page[i])], written' + 1;
      }
    }

    /** One JSON document per line of the page. */
    static method EncodeLines(file: seq<Line>, page: seq<Line>, written: nat, maxRows: nat)
      returns (file': seq<Line>, written': nat, failed: bool, ghost trouble: bool)
      requires written + |page| <= maxRows
      ensures !failed ==> file' == file + page && written' == written + |page|
      ensures failed <==> trouble
    {
      file', written', failed, trouble := file, written, false, false;
      for i := 0 to |page|
        invariant file' == file + page[..i] && written' == written + i && !failed && !trouble
      {
        if written' >= maxRows {
          break;
        }
        failed := Happens();
        trouble := failed;
        if failed {
          return;
        }
        file', written' := file' + [page[i]], written' + 1;
      }
    }

    method WriteCSV(job: Job, ghost born: nat)
      returns (file: seq<seq<string>>, failed: bool, ghost lines: seq<Line>, ghost trouble: bool)
      requires ledger.Valid() && fetchRows > 0 && born <= |ledger.rows|
      modifies ledger
      ensures ledger.Valid() && old(ledger.rows) <= ledger.rows
      ensures !failed ==> file == CsvRecords(lines)
      ensures !failed ==> Exported(lines, job, ledger.rows, born)
      ensures failed <==> trouble
    {
      file, lines, failed := [HEADER], [], false;
      var createFailed := Happens();
      trouble := createFailed;
      if createFailed {
        failed := true;
        return;
      }
      ghost var had := |Select(ledger.rows[..born], job.window)|;
      TableGrows(ledger.rows[..born], ledger.rows, job.window);
      file, failed, lines, trouble := WriteCSVPages(job.window, MaxRows(job.spec.rowLimit), had);
      if failed {
        return;
      }
      FrontStays(old(ledger.rows), ledger.rows, born);
      CoversRows(lines, ledger.rows, job.window, born, had, MaxRows(job.spec.rowLimit));
      failed := Happens();
      trouble := failed;
    }

    /** The loop: page after page, until one is the last or the row limit is reached. */
    method WriteCSVPages(w: Window, maxRows: nat, ghost had: nat)
      returns (file: seq<seq<string>>, failed: bool, ghost lines: seq<Line>, ghost trouble: bool)
      requires ledger.Valid() && fetchRows > 0 && had <= |Select(ledger.rows, w)|
      modifies ledger
      ensures ledger.Valid() && old(ledger.rows) <= ledger.rows
      ensures !failed ==> file == CsvRecords(lines) && Covers(lines, Select(ledger.rows, w), had, maxRows)
      ensures failed <==> trouble
    {
      file, lines, failed, trouble := [HEADER], [], false, false;
      assert CsvRecords([]) == [HEADER];
      var cursor, written := 0, 0;
      while true
        invariant ledger.Valid() && old(ledger.rows) <= ledger.rows
        invariant Paging(lines, Select(ledger.rows, w), written, cursor, had, maxRows)
        invariant !failed && !trouble && file == CsvRecords(lines)
        decreases maxRows - written
      {
        var cancelled := Happens();
        if cancelled {
          failed, trouble := true, true;
          return;
        }
        if written >= maxRows {
          break;
        }
        var page, next;
        page, next, failed, trouble := FetchPage(w, cursor, written, maxRows, lines, had);
        if failed {
          return;
        }
        file, written, failed, trouble := WriteRecords(file, page, written, maxRows);
        if failed {
          return;
        }
        CsvAppend(lines, page);
        PageAppends(lines, page, next, Select(ledger.rows, w), |lines|, cursor, had, maxRows);
        lines := lines + page;
        if written >= maxRows || next == "" {
          break;
        }
        cursor := ParseCursor(next);
      }
    }

    method WriteNDJSON(job: Job, ghost born: nat)
      returns (file: seq<Line>, failed: bool, ghost lines: seq<Line>, ghost trouble: bool)
      requires ledger.Valid() && fetchRows > 0 && born <= |ledger.rows|
      modifies ledger
      ensures ledger.Valid() && old(ledger.rows) <= ledger.rows
      ensures !failed ==> file == lines
      ensures !failed ==> Exported(lines, job, ledger.rows, born)
      ensures failed <==> trouble
    {
      file, lines, failed := [], [], false;
      var createFailed := Happens();
      trouble := createFailed;
      if createFailed {
        failed := true;
        return;
      }
      ghost var had := |Select(ledger.rows[..born], job.window)|;
      TableGrows(ledger.rows[..born], ledger.rows, job.window);
      file, failed, lines, trouble := WriteNDJSONPages(job.window, MaxRows(job.spec.rowLimit), had);
      if failed {
        return;
      }
      FrontStays(old(ledger.rows), ledger.rows, born);
      CoversRows(lines, ledger.rows, job.window, born, had, MaxRows(job.spec.rowLimit));
    }

    /** The loop: page after page, until one is the last or the row limit is reached. */
    method WriteNDJSONPages(w: Window, maxRows: nat, ghost had: nat)
      returns (file: seq<Line>, failed: bool, ghost lines: seq<Line>, ghost trouble: bool)
      requires ledger.Valid() && fetchRows > 0 && had <= |Select(ledger.rows, w)|
      modifies ledger
      ensures ledger.Valid() && old(ledger.rows) <= ledger.rows
      ensures !failed ==> file == lines && Covers(lines, Select(ledger.rows, w), had, maxRows)
      ensures failed <==> trouble
    {
      file, lines, failed, trouble := [], [], false, false;
      var cursor, written := 0, 0;
      while true
        invariant ledger.Valid() && old(ledger.rows) <= ledger.rows
        invariant Paging(lines, Select(ledger.rows, w), written, cursor, had, maxRows)
        invariant !failed && !trouble && file == lines
        decreases maxRows - written
      {
        var cancelled := Happens();
        if cancelled {
          failed, trouble := true, true;
          return;
        }
        if written >= maxRows {
          break;
        }
        var page, next;
        page, next, failed, trouble := FetchPage(w, cursor, written, maxRows, lines, had);
        if failed {
          return;
        }
        file, written, failed, trouble := EncodeLines(file, page, written, maxRows);
        if failed {
          return;
        }
        PageAppends(lines, page, next, Select(ledger.rows, w), |lines|, cursor, had, maxRows);
        lines := lines + page;
        if written >= maxRows || next == "" {
          break;
        }
        cursor := ParseCursor(next);
      }
    }
  }

  /** The lines are the first of the job's window, and so those of the right rows. */
  ghost predicate Exported(lines: seq<Line>, job: Job, rows: seq<Row>, born: nat) {
    var w, max := job.window, if job.spec.rowLimit <= 0 then 100_000 else job.spec.rowLimit;
    && born <= |rows| && Covers(lines, Select(rows, w), |Select(rows[..born], w)|, max)
    && RightRows(lines, rows, w.customer, w.from, w.to, born, max)
  }

  /** The file is the rendering of such lines, in the format asked for. */
  ghost predicate Complete(content: Content, job: Job, rows: seq<Row>, born: nat) {
    && (content.Ndjson? <==> job.spec.format == "ndjson")
    && exists lines :: content == Rendered(job.spec.format, lines) && Exported(lines, job, rows, born)
  }
}
