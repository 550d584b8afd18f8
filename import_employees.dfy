/** The import_employees management command
    (visitor_portal/visitors/management/commands/import_employees.py): an
    upsert of employees keyed by name from an already-parsed CSV, with
    change detection, counters and an optional deactivation of the names the
    file does not mention. */
module EmployeeImport {
  import opened Wrappers
  import opened Text
  import opened Models

  // ---------------------------------------------------------------- cells

  /** normalize_phone: the digits of the stripped cell, which are the digits
      of the cell itself since strip removes only whitespace. */
  function NormalizePhone(raw: string): (r: string)
    ensures r == Digits(raw)
  {
    StripKeepsDigits(raw);
    Digits(Strip(raw))
  }

  lemma NormalizePhoneIdempotent(raw: string)
    ensures AllDigits(NormalizePhone(raw))
    ensures NormalizePhone(NormalizePhone(raw)) == NormalizePhone(raw)
  {
    DigitsOfDigits(Digits(raw));
  }

  /** The spellings of the active column that mean "active"; a blank or
      missing cell does too. */
  const ActiveWords: set<string> := {"", "1", "true", "yes", "y"}

  /** The active cell: a blank or missing cell means active. */
  function ParseActive(raw: string): (active: bool)
    ensures Strip(raw) == [] ==> active
  {
    Lower(Strip(raw)) in ActiveWords
  }

  /** export_employees writes the flag as '1' or '0'. */
  function ExportActive(active: bool): string {
    if active then "1" else "0"
  }

  /** An exported flag imports back unchanged. */
  lemma ActiveRoundTrip(active: bool)
    ensures ParseActive(ExportActive(active)) == active
  {
    var s := ExportActive(active);
    AllDigitsStrip(s);
    assert Lower(s) == s;
  }

  /** The flag ignores letter case: two cells that lower-case alike read alike. */
  lemma ActiveIgnoresCase(a: string, b: string)
    requires Lower(a) == Lower(b)
    ensures ParseActive(a) == ParseActive(b)
  {
    LowerStrip(a);
    LowerStrip(b);
  }

  /** The flag ignores whitespace on either side of the word. */
  lemma ActiveIgnoresPadding(raw: string, c: char)
    requires IsSpace(c)
    ensures ParseActive([c] + raw) == ParseActive(raw)
    ensures ParseActive(raw + [c]) == ParseActive(raw)
  {
    StripConsSpace(c, raw);
    StripSnocSpace(raw, c);
  }

  /** " Yes " counts as active and "no", like any word outside the list, as inactive. */
  lemma ActiveSpellings()
    ensures ParseActive(" Yes ")
    ensures !ParseActive("no")
  {
    assert Strip(" Yes ") == "Yes" by {
      assert TrimLeft(" Yes ") == "Yes " by {
        assert " Yes "[1..] == "Yes ";
      }
      assert TrimRight("Yes ") == "Yes" by {
        assert "Yes "[..3] == "Yes";
      }
    }
    assert Lower("Yes") == "yes";
    assert Strip("no") == "no";
    assert Lower("no") == "no";
  }

  /** A CSV row as csv.DictReader gives it: the cells by header. A short row's
      missing cells are absent keys. */
  type Row = map<string, string>

  /** `row.get(key) or ''`: the cell under exactly this header, blank when absent. */
  function Cell(row: Row, key: string): string {
    if key in row then row[key] else ""
  }

  /** The values one row supplies, cleaned as the command cleans them. */
  datatype Entry = Entry(name: string, department: string, phone: string, email: string, active: bool)

  function ParseRow(row: Row): Entry {
    Entry(Strip(Cell(row, "name")), Strip(Cell(row, "department")), NormalizePhone(Cell(row, "phone")),
          Strip(Cell(row, "email")), ParseActive(Cell(row, "active")))
  }

  /** The values of a row come out cleaned: the text cells carry no
      surrounding whitespace and the phone holds only digits. */
  lemma ParseRowCleaned(row: Row)
    ensures var e := ParseRow(row);
      && AllDigits(e.phone)
      && Strip(e.name) == e.name && Strip(e.department) == e.department && Strip(e.email) == e.email
  {
    StripIdempotent(Cell(row, "name"));
    StripIdempotent(Cell(row, "department"));
    StripIdempotent(Cell(row, "email"));
  }

  /** A row without a name or without a phone digit is skipped. */
  predicate Importable(e: Entry) {
    e.name != "" && e.phone != ""
  }

  // ---------------------------------------------------------------- headers

  function CanonicalHeader(h: string): string {
    Lower(Strip(h))
  }

  const RequiredHeaders: set<string> := {"name", "department", "phone"}

  /** The header check, case- and blank-insensitive. */
  predicate HeadersOk(fieldnames: seq<string>) {
    RequiredHeaders <= set h | h in fieldnames :: CanonicalHeader(h)
  }

  /** Two header rows whose columns have the same canonical names, column
      by column, pass or fail the header check together. */
  lemma HeadersAlike(a: seq<string>, b: seq<string>)
    requires |a| == |b|
    requires forall i :: 0 <= i < |a| ==> CanonicalHeader(a[i]) == CanonicalHeader(b[i])
    ensures HeadersOk(a) <==> HeadersOk(b)
  {
    forall h | h in a
      ensures CanonicalHeader(h) in (set h | h in b :: CanonicalHeader(h))
    {
      var i :| 0 <= i < |a| && a[i] == h;
      assert b[i] in b;
    }
    forall h | h in b
      ensures CanonicalHeader(h) in (set h | h in a :: CanonicalHeader(h))
    {
      var i :| 0 <= i < |b| && b[i] == h;
      assert a[i] in a;
    }
  }

  /** The header check ignores the case and the padding of each column
      name, and extra columns never make a passing header fail. */
  lemma HeadersRespelled(fieldnames: seq<string>, respelled: seq<string>, extra: seq<string>)
    requires |respelled| == |fieldnames|
    requires forall i :: 0 <= i < |fieldnames| ==> Lower(respelled[i]) == Lower(fieldnames[i])
    ensures HeadersOk(respelled + extra) <==> HeadersOk(fieldnames + extra)
    ensures HeadersOk(fieldnames) ==> HeadersOk(fieldnames + extra)
  {
    var a, b := fieldnames + extra, respelled + extra;
    forall i | 0 <= i < |a|
      ensures CanonicalHeader(a[i]) == CanonicalHeader(b[i])
    {
      if i < |fieldnames| {
        assert Lower(a[i]) == Lower(b[i]);
        LowerStrip(a[i]);
        LowerStrip(b[i]);
      } else {
        assert a[i] == b[i];
      }
    }
    HeadersAlike(a, b);
    assert forall h :: h in fieldnames ==> h in a;
  }

  /** The row re-keyed by canonical header; of two headers with the same
      canonical name the later column wins, as a dict built from the columns
      in order would have it. */
  function CanonicalRow(fieldnames: seq<string>, row: Row): Row
    decreases |fieldnames|
  {
    if fieldnames == [] then map[]
    else
      var init := CanonicalRow(fieldnames[..|fieldnames| - 1], row);
      var h := fieldnames[|fieldnames| - 1];
      if h in row then init[CanonicalHeader(h) := row[h]] else init
  }

  /** A canonical key is present exactly when some present header has that
      canonical form. */
  lemma {:induction false} CanonicalRowKeys(fieldnames: seq<string>, row: Row, k: string)
    ensures k in CanonicalRow(fieldnames, row) <==>
      exists i :: 0 <= i < |fieldnames| && fieldnames[i] in row && CanonicalHeader(fieldnames[i]) == k
    decreases |fieldnames|
  {
    if fieldnames != [] {
      var n := |fieldnames| - 1;
      var init := fieldnames[..n];
      CanonicalRowKeys(init, row, k);
      if exists i :: 0 <= i < |init| && init[i] in row && CanonicalHeader(init[i]) == k {
        var i :| 0 <= i < |init| && init[i] in row && CanonicalHeader(init[i]) == k;
        assert fieldnames[i] == init[i];
      }
      if exists i :: 0 <= i < |fieldnames| && fieldnames[i] in row && CanonicalHeader(fieldnames[i]) == k {
        var i :| 0 <= i < |fieldnames| && fieldnames[i] in row && CanonicalHeader(fieldnames[i]) == k;
        if i < n {
          assert init[i] == fieldnames[i];
        }
      }
    }
  }

  /** Under headers that are already canonical, re-keying keeps the cells of
      the headers named. */
  lemma {:induction false} CanonicalRowOfCanonical(fieldnames: seq<string>, row: Row)
    requires forall i :: 0 <= i < |fieldnames| ==> CanonicalHeader(fieldnames[i]) == fieldnames[i]
    ensures CanonicalRow(fieldnames, row) == map k | k in row && k in fieldnames :: row[k]
    decreases |fieldnames|
  {
    if fieldnames == [] {
      assert (map k | k in row && k in fieldnames :: row[k]) == map[];
    } else {
      var n := |fieldnames| - 1;
      var init := fieldnames[..n];
      var h := fieldnames[n];
      CanonicalRowOfCanonical(init, row);
      assert forall k :: k in fieldnames <==> k in init || k == h;
    }
  }

  /** On a file whose headers are already lower-case and unpadded, with every
      cell under a header, the corrected lookup reads what the exact lookup reads. */
  lemma CanonicalLookupAgrees(fieldnames: seq<string>, row: Row)
    requires forall i :: 0 <= i < |fieldnames| ==> CanonicalHeader(fieldnames[i]) == fieldnames[i]
    requires forall k :: k in row ==> k in fieldnames
    ensures ParseRow(CanonicalRow(fieldnames, row)) == ParseRow(row)
  {
    CanonicalRowOfCanonical(fieldnames, row);
    assert CanonicalRow(fieldnames, row) == row;
  }

  /** As written, the cells are looked up under the exact lower-case names, so
      a file whose header is accepted only because header validation folds case
      has every row skipped. */
  lemma {:induction false} ExactLookupSkipsRows(fieldnames: seq<string>, row: Row)
    requires "name" !in fieldnames
    requires forall k :: k in row ==> k in fieldnames
    ensures !Importable(ParseRow(row))
  {
    assert Cell(row, "name") == "";
    assert Strip("") == "";
  }

  const SampleHeader: seq<string> := ["Name", "Department", "Phone"]

  const SampleRow: Row := map["Name" := "Asha Rao", "Department" := "Finance", "Phone" := "98765 43210"]

  lemma SampleHeaderPasses()
    ensures HeadersOk(SampleHeader)
  {
    CanonicalIs("Name", "name");
    CanonicalIs("Department", "department");
    CanonicalIs("Phone", "phone");
    var names := set h | h in SampleHeader :: CanonicalHeader(h);
    assert SampleHeader[0] in SampleHeader && SampleHeader[1] in SampleHeader && SampleHeader[2] in SampleHeader;
    assert "name" in names && "department" in names && "phone" in names;
  }

  lemma SampleCanonicalRow()
    ensures CanonicalRow(SampleHeader, SampleRow)
      == map["name" := "Asha Rao", "department" := "Finance", "phone" := "98765 43210"]
  {
    CanonicalIs("Name", "name");
    CanonicalIs("Department", "department");
    CanonicalIs("Phone", "phone");
    assert SampleHeader[..2] == ["Name", "Department"];
    assert SampleHeader[..2][..1] == ["Name"];
    assert ["Name"][..0] == [];
  }

  lemma SampleRowSkipped()
    ensures !Importable(ParseRow(SampleRow))
  {
    assert "name" !in SampleRow;
    assert Cell(SampleRow, "name") == "";
    assert Strip("") == "";
  }

  lemma SampleRowImported()
    ensures Importable(ParseRow(map["name" := "Asha Rao", "department" := "Finance", "phone" := "98765 43210"]))
  {
    var r: Row := map["name" := "Asha Rao", "department" := "Finance", "phone" := "98765 43210"];
    assert Cell(r, "name") == "Asha Rao";
    assert Cell(r, "phone") == "98765 43210";
    NotBlank("Asha Rao");
    assert Digits("98765 43210") != [] by {
      assert "98765 43210" == "9" + "8765 43210";
      DigitsAppend("9", "8765 43210");
    }
  }

  /** A header "Name,Department,Phone" passes header validation; the exact lookup
      then skips the row, while the canonical lookup imports it. */
  lemma HeaderCaseCounterexample()
    ensures HeadersOk(SampleHeader)
    ensures !Importable(ParseRow(SampleRow))
    ensures Importable(ParseRow(CanonicalRow(SampleHeader, SampleRow)))
  {
    SampleHeaderPasses();
    SampleRowSkipped();
    SampleCanonicalRow();
    SampleRowImported();
  }

  lemma CanonicalIs(h: string, c: string)
    requires h != [] && !IsSpace(h[0]) && !IsSpace(h[|h| - 1])
    requires |c| == |h| && forall i :: 0 <= i < |h| ==> c[i] == LowerChar(h[i])
    ensures CanonicalHeader(h) == c
  {
    StripUnchanged(h);
    assert Lower(h) == c;
  }

  lemma NotBlank(s: string)
    requires s != [] && !IsSpace(s[0])
    ensures Strip(s) != []
  {
    TrimLeftShape(s);
    assert TrimLeft(s) == s;
    TrimRightShape(s);
    TrimRightDropsSpaces(s);
  }

  // ---------------------------------------------------------------- the upsert

  /** The employee table keyed by name, the counters, and the names seen. */
  datatype ImportState = ImportState(table: map<string, Employee>, created: nat, updated: nat, seen: set<string>)

  /** Every employee is filed under its own name. */
  predicate Keyed(table: map<string, Employee>) {
    forall k :: k in table ==> table[k].name == k
  }

  function NewEmployee(e: Entry): Employee {
    Employee(e.name, e.phone, e.email, e.department, e.active)
  }

  /** An existing employee after the row: department, phone and active from
      the row, the email only when the row gives one. */
  function Merge(emp: Employee, e: Entry): (r: Employee)
    ensures r.name == emp.name
    ensures r.department == e.department && r.phone == e.phone && r.active == e.active
    ensures e.email != "" ==> r.email == e.email
    ensures e.email == "" ==> r.email == emp.email
    ensures r == emp <==>
      emp.department == e.department && emp.phone == e.phone && (e.email == "" || emp.email == e.email)
      && emp.active == e.active
  {
    emp.(department := e.department, phone := e.phone,
         email := if e.email != "" then e.email else emp.email, active := e.active)
  }

  /** One row: skipped, created (counted in `created`), or merged into the
      existing employee (counted in `updated` only if that changes it). */
  function Step(st: ImportState, e: Entry): (r: ImportState)
    ensures r.table.Keys == st.table.Keys + (if Importable(e) then {e.name} else {})
    ensures r.seen == st.seen + (if Importable(e) then {e.name} else {})
    ensures r.created + r.updated <= st.created + st.updated + 1
    ensures r.created >= st.created && r.updated >= st.updated
    ensures forall k :: k in st.table && k != e.name ==> r.table[k] == st.table[k]
  {
    if !Importable(e) then st
    else if e.name !in st.table then
      st.(table := st.table[e.name := NewEmployee(e)], created := st.created + 1, seen := st.seen + {e.name})
    else
      var before := st.table[e.name];
      var after := Merge(before, e);
      st.(table := st.table[e.name := after],
          updated := if after != before then st.updated + 1 else st.updated,
          seen := st.seen + {e.name})
  }

  /** The rows in file order. */
  function Run(st: ImportState, entries: seq<Entry>): (r: ImportState)
    ensures st.table.Keys <= r.table.Keys && st.seen <= r.seen
    decreases |entries|
  {
    if entries == [] then st else Step(Run(st, entries[..|entries| - 1]), entries[|entries| - 1])
  }

  /** The names of the rows that are not skipped. */
  function ImportedNames(entries: seq<Entry>): set<string> {
    set i | 0 <= i < |entries| && Importable(entries[i]) :: entries[i].name
  }

  lemma ImportedNamesSnoc(entries: seq<Entry>)
    requires entries != []
    ensures var n := |entries| - 1;
      ImportedNames(entries) == ImportedNames(entries[..n]) + (if Importable(entries[n]) then {entries[n].name} else {})
  {
    var n := |entries| - 1;
    var init := entries[..n];
    forall x | x in ImportedNames(entries)
      ensures x in ImportedNames(init) + (if Importable(entries[n]) then {entries[n].name} else {})
    {
      var i :| 0 <= i < |entries| && Importable(entries[i]) && entries[i].name == x;
      if i < n {
        assert init[i] == entries[i];
      }
    }
    forall x | x in ImportedNames(init)
      ensures x in ImportedNames(entries)
    {
      var i :| 0 <= i < |init| && Importable(init[i]) && init[i].name == x;
      assert entries[i] == init[i];
    }
  }

  /** The table gains exactly the names of the imported rows, and those are
      the names seen. */
  lemma {:induction false} RunNames(st: ImportState, entries: seq<Entry>)
    ensures Run(st, entries).table.Keys == st.table.Keys + ImportedNames(entries)
    ensures Run(st, entries).seen == st.seen + ImportedNames(entries)
    decreases |entries|
  {
    if entries != [] {
      RunNames(st, entries[..|entries| - 1]);
      ImportedNamesSnoc(entries);
    }
  }

  /** `created` counts exactly the employees added to the table, and each
      row adds to at most one counter. */
  lemma {:induction false} RunCounts(st: ImportState, entries: seq<Entry>)
    ensures Run(st, entries).created >= st.created && Run(st, entries).updated >= st.updated
    ensures |Run(st, entries).table| == |st.table| + (Run(st, entries).created - st.created)
    ensures (Run(st, entries).created - st.created) + (Run(st, entries).updated - st.updated) <= |entries|
    decreases |entries|
  {
    if entries != [] {
      RunCounts(st, entries[..|entries| - 1]);
    }
  }

  /** Employees stay filed under their own names. */
  lemma {:induction false} RunKeyed(st: ImportState, entries: seq<Entry>)
    requires Keyed(st.table)
    ensures Keyed(Run(st, entries).table)
    decreases |entries|
  {
    if entries != [] {
      RunKeyed(st, entries[..|entries| - 1]);
    }
  }

  /** An employee no row names is left as it was. */
  lemma {:induction false} RunLeavesOthers(st: ImportState, entries: seq<Entry>, name: string)
    requires name !in ImportedNames(entries)
    ensures name in Run(st, entries).table <==> name in st.table
    ensures name in st.table ==> Run(st, entries).table[name] == st.table[name]
    decreases |entries|
  {
    if entries != [] {
      ImportedNamesSnoc(entries);
      RunLeavesOthers(st, entries[..|entries| - 1], name);
    }
  }

  /** A skipped row changes nothing: no employee, no counter, no seen name. */
  lemma SkippedRowIsInert(st: ImportState, entries: seq<Entry>, e: Entry)
    requires !Importable(e)
    ensures Run(st, entries + [e]) == Run(st, entries)
  {
    assert (entries + [e])[..|entries|] == entries;
  }

  /** A name not yet in the table is created from the row. */
  lemma NewNameCreated(st: ImportState, e: Entry)
    requires Importable(e) && e.name !in st.table
    ensures Step(st, e).table == st.table[e.name := NewEmployee(e)]
    ensures Step(st, e).created == st.created + 1 && Step(st, e).updated == st.updated
  {
  }

  /** For a known name: `updated` moves exactly when some field the row
      carries differs, the email only counting when the row has one; a blank
      email cell keeps the stored email. */
  lemma ExistingNameMerged(st: ImportState, e: Entry)
    requires Importable(e) && e.name in st.table
    ensures var emp := st.table[e.name];
      Step(st, e).updated == st.updated + 1 <==>
        (emp.department != e.department || emp.phone != e.phone
         || (e.email != "" && emp.email != e.email) || emp.active != e.active)
    ensures var r := Step(st, e).table[e.name];
      && r.name == st.table[e.name].name
      && r.department == e.department && r.phone == e.phone && r.active == e.active
      && r.email == (if e.email != "" then e.email else st.table[e.name].email)
    ensures Step(st, e).created == st.created
  {
  }

  // ---------------------------------------------------------------- deactivation

  /** The active employees whose names the file did not mention. */
  function Stale(table: map<string, Employee>, seen: set<string>): (s: set<string>)
    ensures s <= table.Keys
  {
    set k | k in table && table[k].active && k !in seen
  }

  /** --deactivate-missing: the stale employees become inactive. */
  function Deactivate(table: map<string, Employee>, seen: set<string>): (r: map<string, Employee>)
    ensures forall k :: k in r <==> k in table
    ensures forall k :: k in r ==> (r[k].active <==> table[k].active && k in seen)
  {
    map k | k in table :: if k in Stale(table, seen) then table[k].(active := false) else table[k]
  }

  /** Exactly the stale employees change, and only their active flag. */
  lemma DeactivateExact(table: map<string, Employee>, seen: set<string>, k: string)
    requires k in table
    ensures k in Deactivate(table, seen)
    ensures Deactivate(table, seen)[k].active == (table[k].active && k in seen)
    ensures Deactivate(table, seen)[k] == table[k].(active := Deactivate(table, seen)[k].active)
    ensures Deactivate(table, seen)[k] != table[k] <==> k in Stale(table, seen)
  {
  }

  lemma DeactivateKeys(table: map<string, Employee>, seen: set<string>)
    ensures Deactivate(table, seen).Keys == table.Keys
  {
  }

  // ---------------------------------------------------------------- the command

  datatype ImportError = MissingHeaders

  /** The table after the import, and the three numbers the command reports. */
  datatype Outcome = Outcome(table: map<string, Employee>, created: nat, updated: nat, deactivated: nat)

  /** The rows' values, read through the canonical headers. */
  function Entries(fieldnames: seq<string>, rows: seq<Row>): (es: seq<Entry>)
    ensures |es| == |rows|
  {
    seq(|rows|, i requires 0 <= i < |rows| => ParseRow(CanonicalRow(fieldnames, rows[i])))
  }

  /** Upserting the entries in order and, when asked, deactivating the stale names. */
  function Finish(table: map<string, Employee>, entries: seq<Entry>, deactivateMissing: bool): Outcome {
    var st := Run(ImportState(table, 0, 0, {}), entries);
    if deactivateMissing then
      Outcome(Deactivate(st.table, st.seen), st.created, st.updated, |Stale(st.table, st.seen)|)
    else Outcome(st.table, st.created, st.updated, 0)
  }

  /** What the command does: refuse a file without the required headers,
      otherwise upsert every row and, when asked, deactivate the stale names. */
  function ImportResult(table: map<string, Employee>, fieldnames: seq<string>, rows: seq<Row>,
                        deactivateMissing: bool): Result<Outcome, ImportError>
  {
    if !HeadersOk(fieldnames) then Failure(MissingHeaders)
    else Success(Finish(table, Entries(fieldnames, rows), deactivateMissing))
  }

  /** The command refuses exactly the files that fail the header check; an
      accepted file adds exactly the names of its importable rows, deletes
      no one, and reports deactivations only when asked to deactivate. */
  lemma ImportResultShape(table: map<string, Employee>, fieldnames: seq<string>, rows: seq<Row>,
                          deactivateMissing: bool)
    ensures var r := ImportResult(table, fieldnames, rows, deactivateMissing);
      && (r.Failure? <==> !HeadersOk(fieldnames))
      && (r.Success? ==> r.value.table.Keys == table.Keys + ImportedNames(Entries(fieldnames, rows)))
      && (r.Success? && !deactivateMissing ==> r.value.deactivated == 0)
  {
    RunNames(ImportState(table, 0, 0, {}), Entries(fieldnames, rows));
  }

  /** The rows' values as the command reads them: under the exact lower-case
      names, whatever case the header row used. */
  function RawEntries(rows: seq<Row>): (es: seq<Entry>)
    ensures |es| == |rows|
  {
    seq(|rows|, i requires 0 <= i < |rows| => ParseRow(rows[i]))
  }

  /** Command.handle as written: the header check folds case, the cell
      lookup does not. */
  function ImportAsWritten(table: map<string, Employee>, fieldnames: seq<string>, rows: seq<Row>,
                           deactivateMissing: bool): (r: Result<Outcome, ImportError>)
    ensures r.Failure? <==> !HeadersOk(fieldnames)
  {
    if !HeadersOk(fieldnames) then Failure(MissingHeaders)
    else Success(Finish(table, RawEntries(rows), deactivateMissing))
  }

  /** Rows that are all skipped leave the state as it was. */
  lemma {:induction false} RunAllSkipped(st: ImportState, entries: seq<Entry>)
    requires forall i :: 0 <= i < |entries| ==> !Importable(entries[i])
    ensures Run(st, entries) == st
    decreases |entries|
  {
    if entries != [] {
      RunAllSkipped(st, entries[..|entries| - 1]);
    }
  }

  /** As written, a file whose header passes only because header validation folds
      case (no column is literally `name`) imports nothing, and with
      --deactivate-missing every active employee is deactivated. */
  lemma AsWrittenDeactivatesEveryone(table: map<string, Employee>, fieldnames: seq<string>, rows: seq<Row>)
    requires HeadersOk(fieldnames) && "name" !in fieldnames
    requires forall i, k :: 0 <= i < |rows| && k in rows[i] ==> k in fieldnames
    ensures ImportAsWritten(table, fieldnames, rows, true)
         == Success(Outcome(Deactivate(table, {}), 0, 0, |Stale(table, {})|))
    ensures ImportAsWritten(table, fieldnames, rows, false) == Success(Outcome(table, 0, 0, 0))
    ensures forall k :: k in table ==> !Deactivate(table, {})[k].active
  {
    var es := RawEntries(rows);
    forall i | 0 <= i < |es|
      ensures !Importable(es[i])
    {
      ExactLookupSkipsRows(fieldnames, rows[i]);
    }
    RunAllSkipped(ImportState(table, 0, 0, {}), es);
  }

  /** The body of the loop over the rows: get_or_create by name, then the
      field-by-field comparison with its `changed` flag. */
  method UpsertRow(employees: map<string, Employee>, created: nat, updated: nat, seen: set<string>, e: Entry)
    returns (employees': map<string, Employee>, created': nat, updated': nat, seen': set<string>)
    ensures ImportState(employees', created', updated', seen') == Step(ImportState(employees, created, updated, seen), e)
  {
    employees', created', updated', seen' := employees, created, updated, seen;
    var name := e.name;
    if name == "" || e.phone == "" {
      return;
    }
    if name !in employees {
      employees' := employees[name := Employee(name, e.phone, e.email, e.department, e.active)];
      created' := created + 1;
    } else {
      var emp := employees[name];
      var changed := false;
      if emp.department != e.department {
        emp := emp.(department := e.department);
        changed := true;
      }
      if emp.phone != e.phone {
        emp := emp.(phone := e.phone);
        changed := true;
      }
      if e.email != "" && emp.email != e.email {
        emp := emp.(email := e.email);
        changed := true;
      }
      if emp.active != e.active {
        emp := emp.(active := e.active);
        changed := true;
      }
      assert emp == Merge(employees[name], e);
      assert changed <==> emp != employees[name];
      if changed {
        employees' := employees[name := emp];
        updated' := updated + 1;
      } else {
        assert employees[name := emp] == employees;
      }
    }
    seen' := seen + {name};
  }

  /** The cells of one row, cleaned as the loop body cleans them. */
  method ReadRow(row: Row) returns (e: Entry)
    ensures e == ParseRow(row)
  {
    var name := Strip(Cell(row, "name"));
    var dept := Strip(Cell(row, "department"));
    var phone := NormalizePhone(Cell(row, "phone"));
    var email := Strip(Cell(row, "email"));
    var active := ParseActive(Cell(row, "active"));
    e := Entry(name, dept, phone, email, active);
  }

  /** The bulk update of --deactivate-missing and the count it reports. */
  method DeactivateMissing(employees: map<string, Employee>, seen: set<string>)
    returns (employees': map<string, Employee>, deactivated: nat)
    ensures employees' == Deactivate(employees, seen)
    ensures deactivated == |Stale(employees, seen)|
  {
    var stale := set k | k in employees && employees[k].active && k !in seen;
    employees' := map k | k in employees :: if k in stale then employees[k].(active := false) else employees[k];
    deactivated := |stale|;
  }

  /** The loop over the rows, each read through the canonical headers. */
  method UpsertRows(table: map<string, Employee>, fieldnames: seq<string>, rows: seq<Row>)
    returns (employees: map<string, Employee>, created: nat, updated: nat, seen: set<string>)
    ensures ImportState(employees, created, updated, seen) == Run(ImportState(table, 0, 0, {}), Entries(fieldnames, rows))
  {
    ghost var entries := Entries(fieldnames, rows);
    ghost var start := ImportState(table, 0, 0, {});
    employees, created, updated, seen := table, 0, 0, {};
    for i := 0 to |rows|
      invariant Run(start, entries[..i]) == ImportState(employees, created, updated, seen)
    {
      assert entries[..i + 1][..i] == entries[..i];
      var entry := ReadRow(CanonicalRow(fieldnames, rows[i]));
      assert entry == entries[i];
      employees, created, updated, seen := UpsertRow(employees, created, updated, seen, entry);
    }
    assert entries[..|rows|] == entries;
  }

  /** Command.handle on an already-opened file: `fieldnames` is the header
      row (empty for an empty file), `rows` the data rows. */
  method Import(table: map<string, Employee>, fieldnames: seq<string>, rows: seq<Row>, deactivateMissing: bool)
    returns (r: Result<Outcome, ImportError>)
    ensures r == ImportResult(table, fieldnames, rows, deactivateMissing)
  {
    if !HeadersOk(fieldnames) {
      return Failure(MissingHeaders);
    }
    var employees, created, updated, seen := UpsertRows(table, fieldnames, rows);
    var deactivated := 0;
    if deactivateMissing {
      employees, deactivated := DeactivateMissing(employees, seen);
    }
    return Success(Outcome(employees, created, updated, deactivated));
  }
}
