/** The bulk import (`upload_service`): a spreadsheet's rows are normalised,
    each non-blank row is upserted as an employee or as a SIM card (with its
    phone line) in a transaction of its own, and an `UploadSummary` counts
    what was created, updated and refused. `Ingest` says what a whole run
    does to the database and the summary; `IngestRows` performs it in place
    on a `Database`, row by row. */
module UploadService {
  import opened Common
  import opened TelecomModels
  import opened EmployeeModels
  import opened AllocationModels
  import opened Store
  import opened SlugText
  import AllocationService

  /** A row after `_normalize_row`: lower-case column names to text. */
  type Row = map<string, string>

  datatype UploadSummary = UploadSummary(
    rowsProcessed: nat,
    employeesCreated: nat,
    employeesUpdated: nat,
    simcardsCreated: nat,
    simcardsUpdated: nat,
    errors: seq<string>)

  const EmptySummary: UploadSummary := UploadSummary(0, 0, 0, 0, 0, [])

  /** `UploadSummary.has_errors`. */
  predicate HasErrors(s: UploadSummary) {
    s.errors != []
  }

  // ---------------------------------------------------------------------
  // File format

  datatype Format = Csv | Xlsx

  /** `process_upload_file`'s dispatch on the lowercased suffix. */
  function UploadFormat(fileName: string): (r: Result<Format, string>)
    ensures r == Ok(Csv) <==> Lower(PathSuffix(fileName)) == ".csv"
    ensures r == Ok(Xlsx) <==> Lower(PathSuffix(fileName)) == ".xlsx"
    ensures r.Err? ==> r.error == "Formato de arquivo não suportado: use CSV ou XLSX."
  {
    var ext := Lower(PathSuffix(fileName));
    if ext == ".csv" then Ok(Csv)
    else if ext == ".xlsx" then Ok(Xlsx)
    else Err("Formato de arquivo não suportado: use CSV ou XLSX.")
  }

  // ---------------------------------------------------------------------
  // Row normalisation

  /** `_stringify`: None is "", anything else its text, stripped. */
  function Stringify(v: Option<string>): (r: string)
    ensures v.None? ==> r == ""
    ensures v.Some? ==> r == Strip(v.value)
    ensures r == [] || (!IsSpace(r[0]) && !IsSpace(r[|r| - 1]))
  {
    if v.None? then "" else Strip(v.value)
  }

  function NormalizeKey(k: string): string {
    Lower(Strip(k))
  }

  /** Whether a raw (key, value) pair is kept under column `k` when keys
      are normalised by `norm`. */
  predicate KeyIs(item: (Option<string>, Option<string>), norm: string -> string, k: string) {
    item.0.Some? && norm(item.0.value) == k
  }

  /** The dict comprehension of `_normalize_row`, with the key
      normalisation and the value conversion as parameters: pairs with a None key are dropped,
      values are converted, and a later pair overwrites an
      earlier one whose key normalises alike. */
  function BuildRow(items: seq<(Option<string>, Option<string>)>, norm: string -> string,
                    val: Option<string> -> string): (r: Row)
  {
    if items == [] then map[]
    else
      var n := |items| - 1;
      var m := BuildRow(items[..n], norm, val);
      if items[n].0.None? then m
      else m[norm(items[n].0.value) := val(items[n].1)]
  }

  /** `_normalize_row`: keys are stripped and lowercased. */
  function NormalizeRow(items: seq<(Option<string>, Option<string>)>): (r: Row)
    ensures forall k :: k in r <==> exists i :: 0 <= i < |items| && KeyIs(items[i], NormalizeKey, k)
  {
    BuildRowKeysAll(items, NormalizeKey, Stringify);
    BuildRow(items, NormalizeKey, Stringify)
  }

  lemma BuildRowKeysAll(items: seq<(Option<string>, Option<string>)>, norm: string -> string,
                        val: Option<string> -> string)
    ensures forall k :: k in BuildRow(items, norm, val) <==> exists i :: 0 <= i < |items| && KeyIs(items[i], norm, k)
  {
    forall k ensures k in BuildRow(items, norm, val) <==> exists i :: 0 <= i < |items| && KeyIs(items[i], norm, k) {
      BuildRowKeys(items, norm, val, k);
    }
  }

  /** The columns of a built row are exactly the normalised keys. */
  lemma {:induction false} BuildRowKeys(items: seq<(Option<string>, Option<string>)>, norm: string -> string,
                                        val: Option<string> -> string, k: string)
    ensures k in BuildRow(items, norm, val) <==> exists i :: 0 <= i < |items| && KeyIs(items[i], norm, k)
  {
    if items != [] {
      var n := |items| - 1;
      var p := items[..n];
      BuildRowKeys(p, norm, val, k);
      if exists i :: 0 <= i < |p| && KeyIs(p[i], norm, k) {
        var i :| 0 <= i < |p| && KeyIs(p[i], norm, k);
        assert items[i] == p[i];
      }
      if exists i :: 0 <= i < |items| && KeyIs(items[i], norm, k) {
        var i :| 0 <= i < |items| && KeyIs(items[i], norm, k);
        if i < n { assert p[i] == items[i]; }
      }
    }
  }

  /** A column holds the value of the last pair whose key normalises to it. */
  lemma {:induction false} BuildRowLastWins(items: seq<(Option<string>, Option<string>)>, norm: string -> string,
                                            val: Option<string> -> string, k: string)
    requires k in BuildRow(items, norm, val)
    ensures exists i :: && 0 <= i < |items| && KeyIs(items[i], norm, k)
                        && BuildRow(items, norm, val)[k] == val(items[i].1)
                        && forall j :: i < j < |items| ==> !KeyIs(items[j], norm, k)
  {
    var n := |items| - 1;
    var p := items[..n];
    if KeyIs(items[n], norm, k) {
      assert BuildRow(items, norm, val)[k] == val(items[n].1);
    } else {
      assert BuildRow(items, norm, val)[k] == BuildRow(p, norm, val)[k];
      BuildRowLastWins(p, norm, val, k);
      var i :| && 0 <= i < |p| && KeyIs(p[i], norm, k)
               && BuildRow(p, norm, val)[k] == val(p[i].1)
               && forall j :: i < j < |p| ==> !KeyIs(p[j], norm, k);
      assert items[i] == p[i];
      forall j | i < j < |items| ensures !KeyIs(items[j], norm, k) {
        if j < n { assert items[j] == p[j]; }
      }
      assert BuildRow(items, norm, val)[k] == val(items[i].1);
    }
  }

  /** `_normalize_row` keeps exactly the normalised keys, each with the
      stripped value of its last occurrence. */
  lemma NormalizeRowLastWins(items: seq<(Option<string>, Option<string>)>, k: string)
    ensures k in NormalizeRow(items) <==> exists i :: 0 <= i < |items| && KeyIs(items[i], NormalizeKey, k)
    ensures k in NormalizeRow(items) ==>
      exists i :: && 0 <= i < |items| && KeyIs(items[i], NormalizeKey, k)
                  && NormalizeRow(items)[k] == Stringify(items[i].1)
                  && forall j :: i < j < |items| ==> !KeyIs(items[j], NormalizeKey, k)
  {
    BuildRowKeys(items, NormalizeKey, Stringify, k);
    if k in NormalizeRow(items) {
      BuildRowLastWins(items, NormalizeKey, Stringify, k);
    }
  }

  /** `row.get(f)` read as text: an absent column is "". */
  function Cell(row: Row, f: string): string {
    if f in row then row[f] else ""
  }

  /** `not any(raw.values())`. */
  predicate Blank(row: Row) {
    row.Values <= {""}
  }

  // ---------------------------------------------------------------------
  // Required columns

  predicate Missing(row: Row, f: string) {
    f !in row || row[f] == ""
  }

  /** `a` is `b` with some elements left out, order kept. */
  predicate IsSubsequence(a: seq<string>, b: seq<string>)
    decreases |b|
  {
    if a == [] then true
    else if b == [] then false
    else (a[0] == b[0] && IsSubsequence(a[1..], b[1..])) || IsSubsequence(a, b[1..])
  }

  /** `[f for f in required if not row.get(f)]`: exactly the missing or
      empty columns, in the order they are required. */
  function MissingColumns(row: Row, required: seq<string>): (m: seq<string>)
    ensures forall f :: f in m <==> f in required && Missing(row, f)
    ensures IsSubsequence(m, required)
  {
    if required == [] then []
    else
      var t := MissingColumns(row, required[1..]);
      assert required == [required[0]] + required[1..];
      if Missing(row, required[0]) then
        assert ([required[0]] + t)[1..] == t;
        [required[0]] + t
      else
        assert t != [] ==> IsSubsequence(t, required[1..]);
        t
  }

  /** `_ensure_required`: refuses a row exactly when a required column is
      missing or empty, naming all of them. */
  function EnsureRequired(row: Row, required: seq<string>): (r: Result<(), string>)
    ensures r.Err? <==> exists f :: f in required && Missing(row, f)
    ensures r.Err? ==> r.error == "Colunas obrigatórias ausentes ou vazias: " + Join(MissingColumns(row, required), ", ") + "."
  {
    var missing := MissingColumns(row, required);
    if missing != [] then
      assert missing[0] in missing;
      Err("Colunas obrigatórias ausentes ou vazias: " + Join(missing, ", ") + ".")
    else
      assert forall f :: f in required ==> !Missing(row, f);
      Ok(())
  }

  // ---------------------------------------------------------------------
  // Status cells

  const EmployeeStatusError: string := "Status de colaborador inválido. Use 'active'/'inactive' ou 'ativo'/'inativo'."
  const SimStatusError: string := "Status de SIM card inválido. Use AVAILABLE/ACTIVE/BLOCKED/CANCELLED ou equivalentes em português."

  /** `_normalize_employee_status`: an empty cell is `inactive`; otherwise
      the status key is looked up among the Portuguese aliases, then among
      the lowercased stored values. */
  function NormalizeEmployeeStatus(raw: string): (r: Result<EmployeeStatus, string>)
    ensures raw == "" ==> r == Ok(Inactive)
    ensures raw != "" ==> (r == Ok(Active) <==> StatusKey(raw) == "ativo" || StatusKey(raw) == "active")
    ensures raw != "" ==> (r == Ok(Inactive) <==> StatusKey(raw) == "inativo" || StatusKey(raw) == "inactive")
    ensures r.Err? ==> r.error == EmployeeStatusError
  {
    if raw == "" then Ok(Inactive)
    else
      var key := StatusKey(raw);
      if key == "ativo" then Ok(Active)
      else if key == "inativo" then Ok(Inactive)
      else if key == "active" then Ok(Active)
      else if key == "inactive" then Ok(Inactive)
      else Err(EmployeeStatusError)
  }

  /** `_normalize_sim_status`: an empty cell is AVAILABLE; otherwise the
      key is looked up among the Portuguese aliases, then among the
      lowercased stored values. */
  function NormalizeSimStatus(raw: string): (r: Result<SimStatus, string>)
    ensures raw == "" ==> r == Ok(SimAvailable)
    ensures raw != "" ==> (r == Ok(SimAvailable) <==> StatusKey(raw) == "disponivel" || StatusKey(raw) == "available")
    ensures raw != "" ==> (r == Ok(SimActive) <==> StatusKey(raw) == "ativo" || StatusKey(raw) == "active")
    ensures raw != "" ==> (r == Ok(SimBlocked) <==> StatusKey(raw) == "bloqueado" || StatusKey(raw) == "blocked")
    ensures raw != "" ==> (r == Ok(SimCancelled) <==> StatusKey(raw) == "cancelado" || StatusKey(raw) == "cancelled")
    ensures r.Err? ==> r.error == SimStatusError
  {
    if raw == "" then Ok(SimAvailable)
    else
      var key := StatusKey(raw);
      if key == "disponivel" then Ok(SimAvailable)
      else if key == "ativo" then Ok(SimActive)
      else if key == "bloqueado" then Ok(SimBlocked)
      else if key == "cancelado" then Ok(SimCancelled)
      else if key == "available" then Ok(SimAvailable)
      else if key == "active" then Ok(SimActive)
      else if key == "blocked" then Ok(SimBlocked)
      else if key == "cancelled" then Ok(SimCancelled)
      else Err(SimStatusError)
  }

  /** Status cells are read without regard to case. */
  lemma NormalizersIgnoreCase(raw: string)
    ensures NormalizeEmployeeStatus(Lower(raw)) == NormalizeEmployeeStatus(raw)
    ensures NormalizeSimStatus(Lower(raw)) == NormalizeSimStatus(raw)
  {
    if raw != "" {
      assert |Lower(raw)| == |raw|;
      StatusKeyIgnoresCase(raw);
      SameKeySameEmployeeStatus(Lower(raw), raw);
      SameKeySameSimStatus(Lower(raw), raw);
    }
  }

  lemma SameKeySameEmployeeStatus(a: string, b: string)
    requires a != "" && b != "" && StatusKey(a) == StatusKey(b)
    ensures NormalizeEmployeeStatus(a) == NormalizeEmployeeStatus(b)
  {
  }

  lemma SameKeySameSimStatus(a: string, b: string)
    requires a != "" && b != "" && StatusKey(a) == StatusKey(b)
    ensures NormalizeSimStatus(a) == NormalizeSimStatus(b)
  {
  }

  /** A cell holding one of the employee status words, in any ASCII
      capitalisation, is read as that status. */
  lemma EmployeeStatusWord(w: string)
    requires w != "" && forall i :: 0 <= i < |w| ==> IsLetter(w[i])
    ensures Lower(w) == "active" || Lower(w) == "ativo" ==> NormalizeEmployeeStatus(w) == Ok(Active)
    ensures Lower(w) == "inactive" || Lower(w) == "inativo" ==> NormalizeEmployeeStatus(w) == Ok(Inactive)
  {
    StatusKeyOfWord(w);
  }

  /** A cell holding one of the SIM status words, in any ASCII
      capitalisation, is read as that status. */
  lemma SimStatusWord(w: string)
    requires w != "" && forall i :: 0 <= i < |w| ==> IsLetter(w[i])
    ensures Lower(w) == "available" || Lower(w) == "disponivel" ==> NormalizeSimStatus(w) == Ok(SimAvailable)
    ensures Lower(w) == "active" || Lower(w) == "ativo" ==> NormalizeSimStatus(w) == Ok(SimActive)
    ensures Lower(w) == "blocked" || Lower(w) == "bloqueado" ==> NormalizeSimStatus(w) == Ok(SimBlocked)
    ensures Lower(w) == "cancelled" || Lower(w) == "cancelado" ==> NormalizeSimStatus(w) == Ok(SimCancelled)
  {
    StatusKeyOfWord(w);
  }

  /** The Portuguese alias by which an employee status is also read. */
  function EmployeeStatusAlias(st: EmployeeStatus): string {
    match st
    case Active => "ativo"
    case Inactive => "inativo"
  }

  lemma LowerEmployeeValue(st: EmployeeStatus)
    ensures EmployeeStatusValue(st) != "" && forall i :: 0 <= i < |EmployeeStatusValue(st)| ==> IsLetter(EmployeeStatusValue(st)[i])
    ensures Lower(EmployeeStatusValue(st)) == EmployeeStatusValue(st)
  {
    match st
    case Active => LowerIs("active", "active");
    case Inactive => LowerIs("inactive", "inactive");
  }

  lemma LowerEmployeeLabel(st: EmployeeStatus)
    ensures EmployeeStatusLabel(st) != "" && forall i :: 0 <= i < |EmployeeStatusLabel(st)| ==> IsLetter(EmployeeStatusLabel(st)[i])
    ensures Lower(EmployeeStatusLabel(st)) == EmployeeStatusAlias(st)
  {
    match st
    case Active => LowerIs("Ativo", "ativo");
    case Inactive => LowerIs("Inativo", "inativo");
  }

  /** A non-empty cell whose key is a status's value or alias reads as it. */
  lemma EmployeeKeyReads(raw: string, st: EmployeeStatus)
    requires raw != ""
    requires StatusKey(raw) == EmployeeStatusValue(st) || StatusKey(raw) == EmployeeStatusAlias(st)
    ensures NormalizeEmployeeStatus(raw) == Ok(st)
  {
  }

  /** Every employee status is read back both from its stored value and
      from its display label. */
  lemma EmployeeStatusRoundTrip(st: EmployeeStatus)
    ensures NormalizeEmployeeStatus(EmployeeStatusValue(st)) == Ok(st)
    ensures NormalizeEmployeeStatus(EmployeeStatusLabel(st)) == Ok(st)
  {
    LowerEmployeeValue(st);
    LowerEmployeeLabel(st);
    StatusKeyOfWord(EmployeeStatusValue(st));
    StatusKeyOfWord(EmployeeStatusLabel(st));
    EmployeeKeyReads(EmployeeStatusValue(st), st);
    EmployeeKeyReads(EmployeeStatusLabel(st), st);
  }

  /** The stored value of a SIM status, lowercased. */
  function SimStatusKey(st: SimStatus): string {
    match st
    case SimAvailable => "available"
    case SimActive => "active"
    case SimBlocked => "blocked"
    case SimCancelled => "cancelled"
  }

  lemma SimValueLetters(st: SimStatus)
    ensures SimStatusValue(st) != "" && forall i :: 0 <= i < |SimStatusValue(st)| ==> IsLetter(SimStatusValue(st)[i])
  {
  }

  lemma LowerSimValue(st: SimStatus)
    ensures Lower(SimStatusValue(st)) == SimStatusKey(st)
  {
    match st
    case SimAvailable => LowerIs("AVAILABLE", "available");
    case SimActive => LowerIs("ACTIVE", "active");
    case SimBlocked => LowerIs("BLOCKED", "blocked");
    case SimCancelled => LowerIs("CANCELLED", "cancelled");
  }

  lemma SimValueKey(st: SimStatus)
    ensures StatusKey(SimStatusValue(st)) == SimStatusKey(st)
  {
    SimValueLetters(st);
    LowerSimValue(st);
    StatusKeyOfWord(SimStatusValue(st));
  }

  /** A non-empty value whose key is a status's stored key reads as it. */
  lemma SimKeyReads(raw: string, st: SimStatus)
    requires raw != "" && StatusKey(raw) == SimStatusKey(st)
    ensures NormalizeSimStatus(raw) == Ok(st)
  {
  }

  /** Every SIM status is read back from its stored value. */
  lemma SimStatusRoundTrip(st: SimStatus)
    ensures NormalizeSimStatus(SimStatusValue(st)) == Ok(st)
  {
    var v := SimStatusValue(st);
    assert v != "";
    SimValueKey(st);
    SimKeyReads(v, st);
  }

  // ---------------------------------------------------------------------
  // Upserts

  const EmployeeColumns: seq<string> := ["full_name", "corporate_email", "employee_id"]
  const SimColumns: seq<string> := ["iccid", "carrier"]
  /** The source's own text for a missing team, including its mis-encoded
      accent. */
  const TeamsError: string := "Coluna obrigatÃ³ria ausente ou vazia: teams."

  /** `row.get("teams") or row.get("team") or row.get("department")`. */
  function Teams(row: Row): (t: string)
    ensures t == "" <==> Cell(row, "teams") == "" && Cell(row, "team") == "" && Cell(row, "department") == ""
    ensures Cell(row, "teams") != "" ==> t == Cell(row, "teams")
    ensures Cell(row, "teams") == "" && Cell(row, "team") != "" ==> t == Cell(row, "team")
  {
    if Cell(row, "teams") != "" then Cell(row, "teams")
    else if Cell(row, "team") != "" then Cell(row, "team")
    else Cell(row, "department")
  }

  /** A successful `update_or_create`: the new database, the key of the
      saved row and whether it was created. */
  datatype Upsert = Upsert(db: Db, pk: Id, created: bool)

  /** The tables the upsert edits keep their key sequences valid. */
  ghost predicate TablesValid(db: Db) {
    db.employees.Valid() && db.sims.Valid() && db.lines.Valid()
  }

  /** `_upsert_employee`: the required columns, then a team, then the status
      cell; then `Employee.all_objects.update_or_create(employee_id=...)`,
      which also revives a soft-deleted row. The save may still be refused
      by the unique index on the corporate email. */
  function UpsertEmployee(db: Db, row: Row, now: Time): (r: Result<Upsert, string>)
    requires TablesValid(db)
    ensures (exists f :: f in EmployeeColumns && Missing(row, f)) ==> r.Err? && r.error == EnsureRequired(row, EmployeeColumns).error
    ensures EnsureRequired(row, EmployeeColumns).Ok? && Teams(row) == "" ==> r == Err(TeamsError)
    ensures EnsureRequired(row, EmployeeColumns).Ok? && Teams(row) != "" && NormalizeEmployeeStatus(Cell(row, "status")).Err? ==>
      r == Err(EmployeeStatusError)
    ensures UniqueEmployeeIds(db.employees.rows) ==>
      (r.Ok? <==> && EnsureRequired(row, EmployeeColumns).Ok? && Teams(row) != ""
                  && NormalizeEmployeeStatus(Cell(row, "status")).Ok?
                  && !EmailHeldByOther(db.employees.rows, Cell(row, "corporate_email"), Cell(row, "employee_id")))
    ensures r.Ok? ==>
      && EnsureRequired(row, EmployeeColumns).Ok? && Teams(row) != ""
      && "employee_id" in row && "full_name" in row && "corporate_email" in row
      && NormalizeEmployeeStatus(Cell(row, "status")).Ok?
      && TablesValid(r.value.db)
      && r.value.db == db.(employees := r.value.db.employees)
      && r.value.pk in r.value.db.employees.rows
      && var e := r.value.db.employees.rows[r.value.pk];
      && e.employeeId == row["employee_id"]
      && e.fullName == row["full_name"] && e.corporateEmail == row["corporate_email"]
      && e.teams == Teams(row)
      && e.status == NormalizeEmployeeStatus(Cell(row, "status")).value
      && !e.isDeleted && e.updatedAt == now
      && (r.value.created <==> !EmployeeIdTaken(db.employees.rows, row["employee_id"], None))
      && (!r.value.created ==> r.value.pk in db.employees.rows
                               && db.employees.rows[r.value.pk].employeeId == row["employee_id"]
                               && e.createdAt == db.employees.rows[r.value.pk].createdAt)
      && r.value.db.employees.rows.Keys == db.employees.rows.Keys + {r.value.pk}
      && (forall k :: k in db.employees.rows && k != r.value.pk ==> r.value.db.employees.rows[k] == db.employees.rows[k])
  {
    match EnsureRequired(row, EmployeeColumns)
    case Err(m) => Err(m)
    case Ok(_) =>
      var teams := Teams(row);
      if teams == "" then Err(TeamsError)
      else
        match NormalizeEmployeeStatus(Cell(row, "status"))
        case Err(m) => Err(m)
        case Ok(status) =>
          assert "employee_id" in EmployeeColumns && "full_name" in EmployeeColumns && "corporate_email" in EmployeeColumns;
          var eid := row["employee_id"];
          var found := FindRow(db.employees, (e: Employee) => e.employeeId == eid);
          EmailFreeForUpsert(db.employees.rows, found, eid, row["corporate_email"]);
          match found
          case Some(k) =>
            var e := db.employees.rows[k].(fullName := row["full_name"], corporateEmail := row["corporate_email"],
                                          teams := teams, status := status, isDeleted := false, updatedAt := now);
            (match SaveEmployee(db.employees, Some(k), e)
             case Err(m) => Err(m)
             case Ok(saved) => Ok(Upsert(db.(employees := saved.0), k, false)))
          case None =>
            var e := NewEmployee(row["full_name"], row["corporate_email"], eid, teams, Some(status), now);
            match SaveEmployee(db.employees, None, e)
            case Err(m) => Err(m)
            case Ok(saved) => Ok(Upsert(db.(employees := saved.0), saved.1, true))
  }

  /** An employee with another employee id already uses the e-mail. */
  predicate EmailHeldByOther(rows: map<Id, Employee>, email: string, employeeId: string) {
    exists k :: k in rows && rows[k].employeeId != employeeId && rows[k].corporateEmail == email
  }

  /** With employee ids unique, saving under the key found for the id (or
      under a new key when none was found) never clashes on the id, and
      clashes on the e-mail exactly when another employee holds it. */
  lemma EmailFreeForUpsert(rows: map<Id, Employee>, found: Option<Id>, eid: string, email: string)
    requires found.Some? ==> found.value in rows && rows[found.value].employeeId == eid
    requires found.None? ==> forall k :: k in rows ==> rows[k].employeeId != eid
    ensures UniqueEmployeeIds(rows) ==>
      && !EmployeeIdTaken(rows, eid, found)
      && (EmailTaken(rows, email, found) <==> EmailHeldByOther(rows, email, eid))
  {
    if UniqueEmployeeIds(rows) && EmailHeldByOther(rows, email, eid) {
      var k :| k in rows && rows[k].employeeId != eid && rows[k].corporateEmail == email;
      assert Some(k) != found;
    }
  }

  /** What `_upsert_simcard` leaves behind: the outcome of the row, and the
      SIM counter it bumped, if any (`Some(created)`). The counter is bumped
      as soon as the SIM card is saved, before the phone line is. */
  datatype SimUpsert = SimUpsert(result: Result<Upsert, string>, counted: Option<bool>)

  /** `SIMcard.objects.update_or_create(iccid=...)`. */
  function SaveSimRow(db: Db, row: Row, status: SimStatus, now: Time): (r: Result<Upsert, string>)
    requires TablesValid(db)
    requires "iccid" in row && "carrier" in row
    ensures r.Ok? ==>
      && TablesValid(r.value.db)
      && r.value.db == db.(sims := r.value.db.sims)
      && r.value.pk in r.value.db.sims.rows
      && var c := r.value.db.sims.rows[r.value.pk];
      && c.iccid == row["iccid"] && c.carrier == row["carrier"] && c.status == status && !c.isDeleted
      && (r.value.created <==> !IccidTaken(db.sims.rows, row["iccid"], None))
      && (!r.value.created ==> r.value.pk in db.sims.rows && db.sims.rows[r.value.pk].iccid == row["iccid"])
      && (r.value.created ==> r.value.pk !in db.sims.rows)
      && r.value.db.sims.rows.Keys >= db.sims.rows.Keys
      && (forall k :: k in db.sims.rows && k != r.value.pk ==> r.value.db.sims.rows[k] == db.sims.rows[k])
    ensures UniqueIccids(db.sims.rows) ==> r.Ok?
  {
    var iccid := row["iccid"];
    match FindRow(db.sims, (c: SimCard) => c.iccid == iccid)
    case Some(k) =>
      var c := db.sims.rows[k].(carrier := row["carrier"], status := status, isDeleted := false, updatedAt := now);
      (match SaveSimCard(db.sims, Some(k), c)
       case Err(e) => Err(e.reason)
       case Ok(saved) => Ok(Upsert(db.(sims := saved.0), k, false)))
    case None =>
      match SaveSimCard(db.sims, None, NewSimCard(iccid, row["carrier"], Some(status), now))
      case Err(e) => Err(e.reason)
      case Ok(saved) => Ok(Upsert(db.(sims := saved.0), saved.1, true))
  }

  /** `PhoneLine.objects.update_or_create(phone_number=..., defaults={sim_card, AVAILABLE, not deleted})`,
      which also finds soft-deleted lines and does not look at allocations.
      The save is refused when the number is fresh but the SIM card already
      has another line (one-to-one). */
  function SaveLineRow(db: Db, phone: string, sim: Id, now: Time): (r: Result<Upsert, string>)
    requires TablesValid(db)
    ensures r.Ok? ==>
      && TablesValid(r.value.db)
      && r.value.db == db.(lines := r.value.db.lines)
      && r.value.pk in r.value.db.lines.rows
      && var l := r.value.db.lines.rows[r.value.pk];
      && l.phoneNumber == phone && l.simCard == sim && l.status == Available && !l.isDeleted
      && (r.value.created <==> !PhoneNumberTaken(db.lines.rows, phone, None))
      && (!r.value.created ==> r.value.pk in db.lines.rows && db.lines.rows[r.value.pk].phoneNumber == phone)
      && r.value.db.lines.rows.Keys >= db.lines.rows.Keys
      && (forall k :: k in db.lines.rows && k != r.value.pk ==> r.value.db.lines.rows[k] == db.lines.rows[k])
    ensures r.Err? <==> (SimTaken(db.lines.rows, sim, FindRow(db.lines, (l: PhoneLine) => l.phoneNumber == phone))
                         || sim !in db.sims.rows
                         || (FindRow(db.lines, (l: PhoneLine) => l.phoneNumber == phone).Some? && PhoneNumberTaken(db.lines.rows, phone, FindRow(db.lines, (l: PhoneLine) => l.phoneNumber == phone))))
  {
    var found := FindRow(db.lines, (l: PhoneLine) => l.phoneNumber == phone);
    match found
    case Some(k) =>
      var l := db.lines.rows[k].(simCard := sim, status := Available, isDeleted := false, updatedAt := now);
      (match SavePhoneLine(db.lines, db.sims.rows, Some(k), l)
       case Err(e) => Err(e.reason)
       case Ok(saved) => Ok(Upsert(db.(lines := saved.0), k, false)))
    case None =>
      match SavePhoneLine(db.lines, db.sims.rows, None, NewPhoneLine(phone, sim, Some(Available), now))
      case Err(e) => Err(e.reason)
      case Ok(saved) => Ok(Upsert(db.(lines := saved.0), saved.1, true))
  }

  /** `_upsert_simcard`: the required columns, the status cell, the SIM card
      upsert (the counter is bumped here), then, when the row names a phone
      number, the phone line upsert. The `Upsert` returned on success names
      the SIM card. */
  function UpsertSimcard(db: Db, row: Row, now: Time): (r: SimUpsert)
    requires TablesValid(db)
    ensures (exists f :: f in SimColumns && Missing(row, f)) ==>
      r.result.Err? && r.result.error == EnsureRequired(row, SimColumns).error && r.counted.None?
    ensures EnsureRequired(row, SimColumns).Ok? && NormalizeSimStatus(Cell(row, "status")).Err? ==>
      r == SimUpsert(Err(SimStatusError), None)
    ensures UniqueIccids(db.sims.rows) ==>
      (r.counted.Some? <==> EnsureRequired(row, SimColumns).Ok? && NormalizeSimStatus(Cell(row, "status")).Ok?)
    ensures r.counted.None? ==> r.result.Err?
    ensures r.counted.Some? ==>
      && "iccid" in row && "carrier" in row && NormalizeSimStatus(Cell(row, "status")).Ok?
      && var sim := SaveSimRow(db, row, NormalizeSimStatus(Cell(row, "status")).value, now);
      && sim.Ok? && r.counted == Some(sim.value.created)
      && (r.result.Ok? <==> || Cell(row, "phone_number") == ""
                            || SaveLineRow(sim.value.db, Cell(row, "phone_number"), sim.value.pk, now).Ok?)
    ensures r.result.Ok? ==> r.counted == Some(r.result.value.created)
    ensures r.result.Ok? ==>
      && EnsureRequired(row, SimColumns).Ok? && "iccid" in row
      && NormalizeSimStatus(Cell(row, "status")).Ok?
      && TablesValid(r.result.value.db)
      && var d := r.result.value.db;
      && d.employees == db.employees && d.allocations == db.allocations && d.users == db.users
      && r.result.value.pk in d.sims.rows
      && d.sims.rows[r.result.value.pk].iccid == row["iccid"]
      && (Cell(row, "phone_number") == "" ==> d.lines == db.lines)
      && (Cell(row, "phone_number") != "" ==>
            exists k :: && k in d.lines.rows && d.lines.rows[k].phoneNumber == Cell(row, "phone_number")
                        && d.lines.rows[k].simCard == r.result.value.pk
                        && d.lines.rows[k].status == Available && !d.lines.rows[k].isDeleted)
  {
    match EnsureRequired(row, SimColumns)
    case Err(m) => SimUpsert(Err(m), None)
    case Ok(_) =>
      match NormalizeSimStatus(Cell(row, "status"))
      case Err(m) => SimUpsert(Err(m), None)
      case Ok(status) =>
        assert "iccid" in SimColumns && "carrier" in SimColumns;
        match SaveSimRow(db, row, status, now)
        case Err(m) => SimUpsert(Err(m), None)
        case Ok(sim) =>
          var phone := Cell(row, "phone_number");
          if phone == "" then SimUpsert(Ok(sim), Some(sim.created))
          else
            match SaveLineRow(sim.db, phone, sim.pk, now)
            case Err(m) => SimUpsert(Err(m), Some(sim.created))
            case Ok(line) =>
              assert line.db.lines.rows[line.pk].phoneNumber == phone;
              SimUpsert(Ok(sim.(db := line.db)), Some(sim.created))
  }

  // ---------------------------------------------------------------------
  // One row, then the whole run

  const TypeError: string := "Coluna 'type' deve ser 'employee' ou 'simcard'."

  /** The text appended for a refused row: "Linha <index>: <message>". */
  function RowError(index: nat, message: string): (s: string)
    ensures "Linha " + NatToString(index) + ": " <= s
    ensures s[|"Linha " + NatToString(index) + ": "|..] == message
  {
    "Linha " + NatToString(index) + ": " + message
  }

  /** `summary.employees_created += 1` or `summary.employees_updated += 1`. */
  function BumpEmployee(s: UploadSummary, created: bool): (r: UploadSummary)
    ensures Upserted(r) == Upserted(s) + 1
    ensures r.employeesCreated == s.employeesCreated + (if created then 1 else 0)
    ensures r.employeesUpdated == s.employeesUpdated + (if created then 0 else 1)
    ensures r == s.(employeesCreated := r.employeesCreated, employeesUpdated := r.employeesUpdated)
  {
    if created then s.(employeesCreated := s.employeesCreated + 1)
    else s.(employeesUpdated := s.employeesUpdated + 1)
  }

  /** The SIM counter bump of `_upsert_simcard`, when the card was saved. */
  function BumpSim(s: UploadSummary, counted: Option<bool>): (r: UploadSummary)
    ensures Upserted(r) == Upserted(s) + (if counted.Some? then 1 else 0)
    ensures r.simcardsCreated == s.simcardsCreated + (if counted == Some(true) then 1 else 0)
    ensures r.simcardsUpdated == s.simcardsUpdated + (if counted == Some(false) then 1 else 0)
    ensures r == s.(simcardsCreated := r.simcardsCreated, simcardsUpdated := r.simcardsUpdated)
  {
    match counted
    case None => s
    case Some(created) =>
      if created then s.(simcardsCreated := s.simcardsCreated + 1)
      else s.(simcardsUpdated := s.simcardsUpdated + 1)
  }

  /** The four create/update counters together. */
  function Upserted(s: UploadSummary): nat {
    s.employeesCreated + s.employeesUpdated + s.simcardsCreated + s.simcardsUpdated
  }

  /** One iteration of `_ingest_rows` on the row at spreadsheet line
      `index`. A blank row is skipped; otherwise the lowercased `type`
      chooses the upsert; a refused row rolls back its own changes and
      appends its error, a successful one counts as processed. The SIM
      counter bumped inside `_upsert_simcard` is not rolled back. */
  function IngestRow(db: Db, s: UploadSummary, index: nat, row: Row, now: Time): (r: (Db, UploadSummary))
    requires TablesValid(db)
    ensures TablesValid(r.0)
    ensures Blank(row) ==> r == (db, s)
    ensures !Blank(row) ==>
      || (r.1.rowsProcessed == s.rowsProcessed + 1 && r.1.errors == s.errors)
      || (&& r.1.rowsProcessed == s.rowsProcessed && r.0 == db
          && |r.1.errors| == |s.errors| + 1 && r.1.errors[..|s.errors|] == s.errors
          && "Linha " + NatToString(index) + ": " <= r.1.errors[|s.errors|])
    ensures !Blank(row) && Lower(Cell(row, "type")) == "employee" ==>
      var u := UpsertEmployee(db, row, now);
      && (u.Ok? ==> r == (u.value.db, BumpEmployee(s, u.value.created).(rowsProcessed := s.rowsProcessed + 1)))
      && (u.Err? ==> r == (db, s.(errors := s.errors + [RowError(index, u.error)])))
    ensures !Blank(row) && Lower(Cell(row, "type")) == "simcard" ==>
      var o := UpsertSimcard(db, row, now);
      && (o.result.Ok? ==> r == (o.result.value.db, BumpSim(s, o.counted).(rowsProcessed := s.rowsProcessed + 1)))
      && (o.result.Err? ==> r == (db, BumpSim(s, o.counted).(errors := s.errors + [RowError(index, o.result.error)])))
    ensures !Blank(row) && Lower(Cell(row, "type")) != "employee" && Lower(Cell(row, "type")) != "simcard" ==>
      r == (db, s.(errors := s.errors + [RowError(index, TypeError)]))
    ensures r.0.allocations == db.allocations && r.0.users == db.users
  {
    if Blank(row) then (db, s)
    else
      var kind := Lower(Cell(row, "type"));
      if kind == "employee" then
        match UpsertEmployee(db, row, now)
        case Ok(u) => (u.db, BumpEmployee(s, u.created).(rowsProcessed := s.rowsProcessed + 1))
        case Err(m) => (db, s.(errors := s.errors + [RowError(index, m)]))
      else if kind == "simcard" then
        var o := UpsertSimcard(db, row, now);
        var s1 := BumpSim(s, o.counted);
        match o.result
        case Ok(u) => (u.db, s1.(rowsProcessed := s.rowsProcessed + 1))
        case Err(m) => (db, s1.(errors := s.errors + [RowError(index, m)]))
      else
        (db, s.(errors := s.errors + [RowError(index, TypeError)]))
  }

  /** `_ingest_rows(rows)`: the rows folded in order, the first at
      spreadsheet line 2 (line 1 is the header). */
  function Ingest(db: Db, rows: seq<Row>, now: Time): (r: (Db, UploadSummary))
    requires TablesValid(db)
    ensures TablesValid(r.0)
    ensures r.0.allocations == db.allocations && r.0.users == db.users
  {
    if rows == [] then (db, EmptySummary)
    else
      var n := |rows| - 1;
      var p := Ingest(db, rows[..n], now);
      IngestRow(p.0, p.1, n + 2, rows[n], now)
  }

  /** `_ingest_rows` over the live database: each row's upsert is applied
      to the tables in place, in order, and the summary accumulated. */
  method IngestRows(store: Database, rows: seq<Row>, now: Time) returns (summary: UploadSummary)
    requires TablesValid(store.State())
    modifies store
    ensures (store.State(), summary) == Ingest(old(store.State()), rows, now)
  {
    summary := EmptySummary;
    var i := 0;
    while i < |rows|
      invariant 0 <= i <= |rows|
      invariant (store.State(), summary) == Ingest(old(store.State()), rows[..i], now)
    {
      IngestPrefixStep(old(store.State()), rows, i, now);
      var r := IngestRow(store.State(), summary, i + 2, rows[i], now);
      store.employees, store.sims, store.lines := r.0.employees, r.0.sims, r.0.lines;
      summary := r.1;
      i := i + 1;
    }
    assert rows[..|rows|] == rows;
  }

  /** Importing one more row of the file is one more row step. */
  lemma IngestPrefixStep(db: Db, rows: seq<Row>, i: nat, now: Time)
    requires TablesValid(db) && i < |rows|
    ensures var p := Ingest(db, rows[..i], now);
      Ingest(db, rows[..i + 1], now) == IngestRow(p.0, p.1, i + 2, rows[i], now)
  {
    assert rows[..i + 1][..i] == rows[..i];
  }

  // ---------------------------------------------------------------------
  // A sheet of new or updated employees is imported whole

  /** A non-blank employee row with the required columns, a team and a
      readable status: `_upsert_employee` takes it unless another employee
      already uses its e-mail. */
  predicate EmployeeRowReady(row: Row) {
    && !Blank(row) && Lower(Cell(row, "type")) == "employee"
    && EnsureRequired(row, EmployeeColumns).Ok? && Teams(row) != ""
    && NormalizeEmployeeStatus(Cell(row, "status")).Ok?
  }

  /** The employee carries the row's id and e-mail. */
  predicate HoldsRow(e: Employee, row: Row) {
    e.employeeId == Cell(row, "employee_id") && e.corporateEmail == Cell(row, "corporate_email")
  }

  /** Ready employee rows with distinct ids and distinct e-mails, on a table
      with unique ids where an e-mail of the sheet can only belong to the
      employee the sheet gives it to. */
  ghost predicate EmployeeSheet(db: Db, rows: seq<Row>) {
    && UniqueEmployeeIds(db.employees.rows)
    && (forall i :: 0 <= i < |rows| ==> EmployeeRowReady(rows[i]))
    && (forall i, j :: 0 <= i < j < |rows| ==>
          Cell(rows[i], "employee_id") != Cell(rows[j], "employee_id")
          && Cell(rows[i], "corporate_email") != Cell(rows[j], "corporate_email"))
    && (forall i, k :: 0 <= i < |rows| && k in db.employees.rows
          && db.employees.rows[k].corporateEmail == Cell(rows[i], "corporate_email")
          ==> db.employees.rows[k].employeeId == Cell(rows[i], "employee_id"))
  }

  /** Some employee of the table carries the row's id and e-mail. */
  predicate TableHolds(t: map<Id, Employee>, row: Row) {
    exists k :: k in t && HoldsRow(t[k], row)
  }

  /** After importing `rows` into `db0`, table `d` keeps ids unique, holds
      every row's employee, and every other employee is one of `db0`'s,
      untouched. */
  ghost predicate SheetImported(db0: Db, d: Db, rows: seq<Row>) {
    && UniqueEmployeeIds(d.employees.rows)
    && (forall i :: 0 <= i < |rows| ==> TableHolds(d.employees.rows, rows[i]))
    && (forall k :: k in d.employees.rows ==>
          || (k in db0.employees.rows && d.employees.rows[k] == db0.employees.rows[k])
          || exists i :: 0 <= i < |rows| && HoldsRow(d.employees.rows[k], rows[i]))
  }

  /** A sheet of employee rows with distinct ids and e-mails, whose e-mails
      no other employee uses, is imported whole: every row is processed and
      counted, none is reported, and each row's employee ends up in the
      table with its id and e-mail. */
  lemma {:induction false} IngestImportsEmployeeSheet(db: Db, rows: seq<Row>, now: Time)
    requires TablesValid(db) && EmployeeSheet(db, rows)
    ensures var r := Ingest(db, rows, now);
      && r.1.rowsProcessed == |rows| && r.1.errors == []
      && r.1.employeesCreated + r.1.employeesUpdated == |rows|
      && SheetImported(db, r.0, rows)
  {
    if rows == [] {
      assert SheetImported(db, db, rows);
    } else {
      var n := |rows| - 1;
      EmployeeSheetPrefix(db, rows, n);
      IngestImportsEmployeeSheet(db, rows[..n], now);
      var p := Ingest(db, rows[..n], now);
      SheetLastRow(db, p.0, p.1, rows, now);
    }
  }

  /** The row step on the sheet's last row accepts it and completes the
      import of the sheet. */
  lemma SheetLastRow(db0: Db, d: Db, s: UploadSummary, rows: seq<Row>, now: Time)
    requires TablesValid(d) && rows != []
    requires EmployeeSheet(db0, rows) && SheetImported(db0, d, rows[..|rows| - 1])
    ensures var r := IngestRow(d, s, |rows| + 1, rows[|rows| - 1], now);
      && SheetImported(db0, r.0, rows)
      && r.1.rowsProcessed == s.rowsProcessed + 1 && r.1.errors == s.errors
      && r.1.employeesCreated + r.1.employeesUpdated == s.employeesCreated + s.employeesUpdated + 1
  {
    SheetRowStep(db0, d, rows, now);
    AcceptedEmployeeRow(d, s, |rows| + 1, rows[|rows| - 1], now);
  }

  /** An employee row whose upsert succeeds is processed and counted once,
      and adds no error. */
  lemma AcceptedEmployeeRow(db: Db, s: UploadSummary, index: nat, row: Row, now: Time)
    requires TablesValid(db) && EmployeeRowReady(row) && UpsertEmployee(db, row, now).Ok?
    ensures var r := IngestRow(db, s, index, row, now);
      && r.0 == UpsertEmployee(db, row, now).value.db
      && r.1.rowsProcessed == s.rowsProcessed + 1 && r.1.errors == s.errors
      && r.1.employeesCreated + r.1.employeesUpdated == s.employeesCreated + s.employeesUpdated + 1
  {
  }

  lemma EmployeeSheetPrefix(db: Db, rows: seq<Row>, n: nat)
    requires EmployeeSheet(db, rows) && n <= |rows|
    ensures EmployeeSheet(db, rows[..n])
  {
    var p := rows[..n];
    assert forall i :: 0 <= i < n ==> p[i] == rows[i];
  }

  /** The last row of a sheet is accepted on the table the earlier rows
      left, and the table then holds the whole sheet. */
  lemma SheetRowStep(db0: Db, d: Db, rows: seq<Row>, now: Time)
    requires TablesValid(d) && rows != []
    requires EmployeeSheet(db0, rows) && SheetImported(db0, d, rows[..|rows| - 1])
    ensures UpsertEmployee(d, rows[|rows| - 1], now).Ok?
    ensures SheetImported(db0, UpsertEmployee(d, rows[|rows| - 1], now).value.db, rows)
  {
    var row := rows[|rows| - 1];
    assert EmployeeRowReady(row);
    SheetEmailFree(db0, d, rows);
    ReadyRowSaved(d, row, now);
    SheetStepKeeps(db0, d, UpsertEmployee(d, row, now).value, rows);
  }

  /** No other employee holds the e-mail of the sheet's last row: the
      untouched employees by the sheet's premise, the imported ones because
      the sheet's e-mails are distinct. */
  lemma SheetEmailFree(db0: Db, d: Db, rows: seq<Row>)
    requires rows != [] && EmployeeSheet(db0, rows) && SheetImported(db0, d, rows[..|rows| - 1])
    ensures var row := rows[|rows| - 1];
      !EmailHeldByOther(d.employees.rows, Cell(row, "corporate_email"), Cell(row, "employee_id"))
  {
    var n := |rows| - 1;
    var p := rows[..n];
    var t := d.employees.rows;
    forall k | k in t && !(k in db0.employees.rows && t[k] == db0.employees.rows[k])
      ensures t[k].corporateEmail != Cell(rows[n], "corporate_email")
    {
      var i :| 0 <= i < |p| && HoldsRow(t[k], p[i]);
      assert p[i] == rows[i];
    }
  }

  /** A ready row whose e-mail no other employee holds is saved, as one
      sheet step. */
  lemma ReadyRowSaved(d: Db, row: Row, now: Time)
    requires TablesValid(d) && UniqueEmployeeIds(d.employees.rows) && EmployeeRowReady(row)
    requires !EmailHeldByOther(d.employees.rows, Cell(row, "corporate_email"), Cell(row, "employee_id"))
    ensures UpsertEmployee(d, row, now).Ok?
    ensures SheetStep(d, UpsertEmployee(d, row, now).value, row)
  {
    var u := UpsertEmployee(d, row, now).value;
    if !u.created {
      assert u.pk in d.employees.rows;
    }
  }

  /** What one accepted upsert of the sheet's last row does to the table. */
  ghost predicate SheetStep(d: Db, u: Upsert, row: Row) {
    var t := d.employees.rows; var t2 := u.db.employees.rows;
    && u.pk in t2 && HoldsRow(t2[u.pk], row)
    && t2.Keys == t.Keys + {u.pk}
    && (forall k :: k in t && k != u.pk ==> t2[k] == t[k])
    && (!u.created ==> u.pk in t && t[u.pk].employeeId == Cell(row, "employee_id"))
    && (u.created ==> u.pk !in t && forall k :: k in t ==> t[k].employeeId != Cell(row, "employee_id"))
  }

  lemma SheetStepKeeps(db0: Db, d: Db, u: Upsert, rows: seq<Row>)
    requires rows != [] && EmployeeSheet(db0, rows) && SheetImported(db0, d, rows[..|rows| - 1])
    requires SheetStep(d, u, rows[|rows| - 1])
    ensures SheetImported(db0, u.db, rows)
  {
    SheetStepUnique(d, u, rows[|rows| - 1]);
    SheetImportedHolds(db0, d, rows);
    SheetStepHolds(d, u, rows);
    SheetStepOrigin(db0, d, u, rows);
  }

  lemma SheetImportedHolds(db0: Db, d: Db, rows: seq<Row>)
    requires rows != [] && SheetImported(db0, d, rows[..|rows| - 1])
    ensures forall i :: 0 <= i < |rows| - 1 ==> TableHolds(d.employees.rows, rows[i])
  {
    var p := rows[..|rows| - 1];
    forall i | 0 <= i < |rows| - 1 ensures TableHolds(d.employees.rows, rows[i]) {
      assert p[i] == rows[i];
    }
  }

  lemma SheetStepUnique(d: Db, u: Upsert, row: Row)
    requires UniqueEmployeeIds(d.employees.rows) && SheetStep(d, u, row)
    ensures UniqueEmployeeIds(u.db.employees.rows)
  {
    var t := d.employees.rows;
    var t2 := u.db.employees.rows;
    forall a, b | a in t2 && b in t2 && a != b ensures t2[a].employeeId != t2[b].employeeId {
      if a == u.pk {
        assert t2[b] == t[b];
      } else if b == u.pk {
        assert t2[a] == t[a];
      }
    }
  }

  lemma SheetStepHolds(d: Db, u: Upsert, rows: seq<Row>)
    requires rows != [] && SheetStep(d, u, rows[|rows| - 1])
    requires forall i :: 0 <= i < |rows| - 1 ==> Cell(rows[i], "employee_id") != Cell(rows[|rows| - 1], "employee_id")
    requires forall i :: 0 <= i < |rows| - 1 ==> TableHolds(d.employees.rows, rows[i])
    ensures forall i :: 0 <= i < |rows| ==> TableHolds(u.db.employees.rows, rows[i])
  {
    var n := |rows| - 1;
    var t := d.employees.rows;
    var t2 := u.db.employees.rows;
    forall i | 0 <= i < |rows| ensures TableHolds(t2, rows[i]) {
      if i < n {
        var k :| k in t && HoldsRow(t[k], rows[i]);
        EarlierRowKept(d, u, rows[i], rows[n], k);
      } else {
        assert HoldsRow(t2[u.pk], rows[i]);
      }
    }
  }

  /** An employee of an earlier row (another employee id) is not the one the
      step saves, so it stays. */
  lemma EarlierRowKept(d: Db, u: Upsert, earlier: Row, row: Row, k: Id)
    requires SheetStep(d, u, row)
    requires k in d.employees.rows && HoldsRow(d.employees.rows[k], earlier)
    requires Cell(earlier, "employee_id") != Cell(row, "employee_id")
    ensures k in u.db.employees.rows && HoldsRow(u.db.employees.rows[k], earlier)
  {
    assert k != u.pk;
  }

  lemma SheetStepOrigin(db0: Db, d: Db, u: Upsert, rows: seq<Row>)
    requires rows != [] && SheetImported(db0, d, rows[..|rows| - 1])
    requires SheetStep(d, u, rows[|rows| - 1])
    ensures forall k :: k in u.db.employees.rows ==>
      || (k in db0.employees.rows && u.db.employees.rows[k] == db0.employees.rows[k])
      || exists i :: 0 <= i < |rows| && HoldsRow(u.db.employees.rows[k], rows[i])
  {
    var n := |rows| - 1;
    var p := rows[..n];
    var t := d.employees.rows;
    var t2 := u.db.employees.rows;
    forall k | k in t2 ensures || (k in db0.employees.rows && t2[k] == db0.employees.rows[k])
                               || exists i :: 0 <= i < |rows| && HoldsRow(t2[k], rows[i])
    {
      if k == u.pk {
        assert HoldsRow(t2[k], rows[n]);
      } else if !(k in db0.employees.rows && t[k] == db0.employees.rows[k]) {
        var i :| 0 <= i < |p| && HoldsRow(t[k], p[i]);
        assert p[i] == rows[i];
      }
    }
  }

  function NonBlankCount(rows: seq<Row>): nat {
    if rows == [] then 0
    else NonBlankCount(rows[..|rows| - 1]) + (if Blank(rows[|rows| - 1]) then 0 else 1)
  }

  /** An import reports errors exactly when some non-blank row was not
      processed. */
  lemma IngestHasErrorsIffRowRefused(db: Db, rows: seq<Row>, now: Time)
    requires TablesValid(db)
    ensures var s := Ingest(db, rows, now).1;
      HasErrors(s) <==> s.rowsProcessed < NonBlankCount(rows)
  {
    IngestAccountsEveryRow(db, rows, now);
  }

  /** Every non-blank row ends up either processed or reported, never both
      and never neither; blank rows are in neither count. */
  lemma {:induction false} IngestAccountsEveryRow(db: Db, rows: seq<Row>, now: Time)
    requires TablesValid(db)
    ensures var s := Ingest(db, rows, now).1;
      s.rowsProcessed + |s.errors| == NonBlankCount(rows)
  {
    if rows != [] {
      IngestAccountsEveryRow(db, rows[..|rows| - 1], now);
    }
  }

  /** The spreadsheet lines of the rows a run refused, in order. */
  ghost function RefusedLines(db: Db, rows: seq<Row>, now: Time): seq<nat>
    requires TablesValid(db)
  {
    if rows == [] then []
    else
      var n := |rows| - 1;
      var p := Ingest(db, rows[..n], now);
      RefusedLines(db, rows[..n], now)
        + (if |IngestRow(p.0, p.1, n + 2, rows[n], now).1.errors| > |p.1.errors| then [n + 2] else [])
  }

  /** Error text `e` starts by naming spreadsheet line `n`. */
  predicate NamesLine(e: string, n: nat) {
    "Linha " + NatToString(n) + ": " <= e
  }

  /** `errors[j]` names spreadsheet line `lines[j]`, a non-blank row of
      `rows`; the lines increase. */
  ghost predicate ErrorsName(lines: seq<nat>, errors: seq<string>, rows: seq<Row>) {
    && |lines| == |errors|
    && (forall j :: 0 <= j < |lines| ==>
          && 2 <= lines[j] < |rows| + 2 && !Blank(rows[lines[j] - 2])
          && NamesLine(errors[j], lines[j]))
    && (forall i, j :: 0 <= i < j < |lines| ==> lines[i] < lines[j])
  }

  lemma ErrorsNameGrowRows(lines: seq<nat>, errors: seq<string>, rows: seq<Row>)
    requires rows != [] && ErrorsName(lines, errors, rows[..|rows| - 1])
    ensures ErrorsName(lines, errors, rows)
  {
    var p := rows[..|rows| - 1];
    forall j | 0 <= j < |lines| ensures !Blank(rows[lines[j] - 2]) {
      assert p[lines[j] - 2] == rows[lines[j] - 2];
    }
  }

  lemma ErrorsNameAppend(lines: seq<nat>, errors: seq<string>, rows: seq<Row>, e: string)
    requires rows != [] && ErrorsName(lines, errors, rows)
    requires forall j :: 0 <= j < |lines| ==> lines[j] < |rows| + 1
    requires !Blank(rows[|rows| - 1]) && NamesLine(e, |rows| + 1)
    ensures ErrorsName(lines + [|rows| + 1], errors + [e], rows)
  {
    var l := lines + [|rows| + 1];
    var es := errors + [e];
    forall j | 0 <= j < |l| ensures 2 <= l[j] < |rows| + 2 && !Blank(rows[l[j] - 2]) && NamesLine(es[j], l[j]) {
      if j < |lines| {
        assert l[j] == lines[j] && es[j] == errors[j];
      } else {
        assert l[j] == |rows| + 1 && es[j] == e;
      }
    }
    forall i, j | 0 <= i < j < |l| ensures l[i] < l[j] {
      assert l[i] == lines[i];
      if j < |lines| { assert l[j] == lines[j]; }
    }
  }

  /** The j-th error names the spreadsheet line of the j-th refused row;
      refused rows are non-blank and come in row order. */
  lemma {:induction false} IngestErrorsNameTheirRows(db: Db, rows: seq<Row>, now: Time)
    requires TablesValid(db)
    ensures ErrorsName(RefusedLines(db, rows, now), Ingest(db, rows, now).1.errors, rows)
  {
    if rows != [] {
      var n := |rows| - 1;
      var p := Ingest(db, rows[..n], now);
      IngestErrorsNameTheirRows(db, rows[..n], now);
      var s := IngestRow(p.0, p.1, n + 2, rows[n], now).1;
      ErrorsNameStep(RefusedLines(db, rows[..n], now), p.1.errors, s.errors, rows);
    }
  }

  /** One more row keeps the errors naming their lines: either no error
      was added, or one naming the new row's line. */
  lemma ErrorsNameStep(before: seq<nat>, errors: seq<string>, next: seq<string>, rows: seq<Row>)
    requires rows != [] && ErrorsName(before, errors, rows[..|rows| - 1])
    requires || next == errors
             || (&& !Blank(rows[|rows| - 1]) && |next| == |errors| + 1 && next[..|errors|] == errors
                 && NamesLine(next[|errors|], |rows| + 1))
    ensures ErrorsName(before + (if |next| > |errors| then [|rows| + 1] else []), next, rows)
  {
    ErrorsNameGrowRows(before, errors, rows);
    if |next| > |errors| {
      assert next == errors + [next[|errors|]];
      ErrorsNameAppend(before, errors, rows, next[|errors|]);
    } else {
      assert before + [] == before;
    }
  }

  // ---------------------------------------------------------------------
  // The SIM counter survives a rolled-back row

  /** As written, a row can bump a counter without being processed: the
      counters can only run ahead of the processed rows. */
  lemma {:induction false} UpsertedNeverBehindProcessed(db: Db, rows: seq<Row>, now: Time)
    requires TablesValid(db)
    ensures var s := Ingest(db, rows, now).1;
      s.rowsProcessed <= Upserted(s)
  {
    if rows != [] {
      var n := |rows| - 1;
      UpsertedNeverBehindProcessed(db, rows[..n], now);
      var p := Ingest(db, rows[..n], now);
      IngestRowCountsAhead(p.0, p.1, n + 2, rows[n], now);
    }
  }

  /** One row adds at least as much to the counters as to the processed
      rows. */
  lemma IngestRowCountsAhead(db: Db, s: UploadSummary, index: nat, row: Row, now: Time)
    requires TablesValid(db)
    ensures var r := IngestRow(db, s, index, row, now).1;
      r.rowsProcessed - s.rowsProcessed <= Upserted(r) - Upserted(s)
  {
    if !Blank(row) && Lower(Cell(row, "type")) == "simcard" {
      var o := UpsertSimcard(db, row, now);
      assert o.result.Ok? ==> o.counted.Some?;
    }
  }

  /** A database with SIM "S1" bound to line "111" and nothing else. */
  function BoundSimDb(): (db: Db)
    ensures Valid(db) && TablesValid(db)
  {
    var sim := NewSimCard("S1", "Vivo", None, 0);
    var line := NewPhoneLine("111", 1, None, 0);
    var db := Db(EmptyTable(), Table(map[1 := sim], 2), Table(map[1 := line], 2), [], EmptyTable());
    db
  }

  const ReimportRow: Row := map["type" := "simcard", "iccid" := "S1", "carrier" := "Vivo", "phone_number" := "222"]

  /** The SIM card is found and saved, then the new line "222" is refused
      because SIM "S1" already has a line. */
  lemma ReimportSimUpsertFails()
    ensures UpsertSimcard(BoundSimDb(), ReimportRow, 0).counted == Some(false)
    ensures UpsertSimcard(BoundSimDb(), ReimportRow, 0).result.Err?
  {
    var db := BoundSimDb();
    var row := ReimportRow;
    assert Cell(row, "status") == "";
    assert !Missing(row, "iccid") && !Missing(row, "carrier");
    assert EnsureRequired(row, SimColumns).Ok?;
    assert FindFrom(db.sims, (c: SimCard) => c.iccid == "S1", 1) == Some(1);
    var sim := SaveSimRow(db, row, SimAvailable, 0);
    assert sim.Ok? && sim.value.pk == 1 && !sim.value.created;
    assert Cell(row, "phone_number") == "222";
    var d := sim.value.db;
    assert d.lines == db.lines;
    assert FindFrom(d.lines, (l: PhoneLine) => l.phoneNumber == "222", 1) == None;
    assert SimTaken(d.lines.rows, 1, None);
    assert SaveLineRow(d, "222", 1, 0).Err?;
  }

  /** Re-importing the bound SIM with a new number: the row is reported,
      yet `simcards_updated` is 1 with no row processed. */
  lemma SimCounterOutlivesRollback()
    ensures var s := Ingest(BoundSimDb(), [ReimportRow], 0).1;
      && s.rowsProcessed == 0 && |s.errors| == 1 && s.simcardsUpdated == 1
      && Upserted(s) > s.rowsProcessed
  {
    ReimportRowIsSim();
    ReimportSimUpsertFails();
    assert [ReimportRow][..0] == [];
  }

  lemma ReimportRowIsSim()
    ensures !Blank(ReimportRow) && Lower(Cell(ReimportRow, "type")) == "simcard"
  {
    var row := ReimportRow;
    assert !Blank(row) by { assert "type" in row && row["type"] != ""; }
    assert Cell(row, "type") == "simcard";
    LowerIs("simcard", "simcard");
  }

  /** The evidently intended iteration: the SIM counter is bumped only when
      the whole row commits. */
  function IngestRowCommitted(db: Db, s: UploadSummary, index: nat, row: Row, now: Time): (r: (Db, UploadSummary))
    requires TablesValid(db)
    ensures TablesValid(r.0)
    ensures Blank(row) ==> r == (db, s)
    ensures Upserted(r.1) - Upserted(s) == r.1.rowsProcessed - s.rowsProcessed
    ensures r.1.rowsProcessed >= s.rowsProcessed && Upserted(r.1) >= Upserted(s)
  {
    if Blank(row) then (db, s)
    else
      var kind := Lower(Cell(row, "type"));
      if kind == "employee" then
        match UpsertEmployee(db, row, now)
        case Ok(u) => (u.db, BumpEmployee(s, u.created).(rowsProcessed := s.rowsProcessed + 1))
        case Err(m) => (db, s.(errors := s.errors + [RowError(index, m)]))
      else if kind == "simcard" then
        var o := UpsertSimcard(db, row, now);
        match o.result
        case Ok(u) => (u.db, BumpSim(s, o.counted).(rowsProcessed := s.rowsProcessed + 1))
        case Err(m) => (db, s.(errors := s.errors + [RowError(index, m)]))
      else
        (db, s.(errors := s.errors + [RowError(index, TypeError)]))
  }

  function IngestCommitted(db: Db, rows: seq<Row>, now: Time): (r: (Db, UploadSummary))
    requires TablesValid(db)
    ensures TablesValid(r.0)
  {
    if rows == [] then (db, EmptySummary)
    else
      var n := |rows| - 1;
      var p := IngestCommitted(db, rows[..n], now);
      IngestRowCommitted(p.0, p.1, n + 2, rows[n], now)
  }

  /** With the correction, the counters add up to the processed rows. */
  lemma {:induction false} CommittedCountersMatchProcessed(db: Db, rows: seq<Row>, now: Time)
    requires TablesValid(db)
    ensures var s := IngestCommitted(db, rows, now).1;
      Upserted(s) == s.rowsProcessed
  {
    if rows != [] {
      CommittedCountersMatchProcessed(db, rows[..|rows| - 1], now);
    }
  }

  /** The correction changes the counters only: the database after the run
      is the same. */
  lemma {:induction false} CommittedSameDatabase(db: Db, rows: seq<Row>, now: Time)
    requires TablesValid(db)
    ensures IngestCommitted(db, rows, now).0 == Ingest(db, rows, now).0
    ensures IngestCommitted(db, rows, now).1.errors == Ingest(db, rows, now).1.errors
    ensures IngestCommitted(db, rows, now).1.rowsProcessed == Ingest(db, rows, now).1.rowsProcessed
  {
    if rows != [] {
      var n := |rows| - 1;
      CommittedSameDatabase(db, rows[..n], now);
      var p := IngestCommitted(db, rows[..n], now);
      var q := Ingest(db, rows[..n], now);
      CommittedRowSame(p.0, p.1, q.1, n + 2, rows[n], now);
    }
  }

  /** One row: the corrected and the as-written step agree on everything
      but the counters. */
  lemma CommittedRowSame(db: Db, s: UploadSummary, t: UploadSummary, index: nat, row: Row, now: Time)
    requires TablesValid(db)
    requires s.errors == t.errors && s.rowsProcessed == t.rowsProcessed
    ensures var a := IngestRowCommitted(db, s, index, row, now);
      var b := IngestRow(db, t, index, row, now);
      a.0 == b.0 && a.1.errors == b.1.errors && a.1.rowsProcessed == b.1.rowsProcessed
  {
  }

  // ---------------------------------------------------------------------
  // What an import does to an allocated line

  /** Importing a SIM row whose phone number is an allocated line sets that
      line AVAILABLE while its allocation stays active, so the engine's
      status invariant no longer holds. */
  lemma ImportFreesAllocatedLine(db: Db, row: Row, now: Time, l: Id)
    requires TablesValid(db)
    requires l in db.lines.rows && Cell(row, "phone_number") == db.lines.rows[l].phoneNumber != ""
    requires UniquePhoneNumbers(db.lines.rows)
    requires HasActiveForLine(db.allocations, l)
    requires UpsertSimcard(db, row, now).result.Ok?
    ensures var d := UpsertSimcard(db, row, now).result.value.db;
      l in d.lines.rows && d.lines.rows[l].status == Available && HasActiveForLine(d.allocations, l)
      && !AllocationService.StatusConsistent(d.lines.rows, d.allocations)
  {
    var d := UpsertSimcard(db, row, now).result.value.db;
    var k :| && k in d.lines.rows && d.lines.rows[k].phoneNumber == Cell(row, "phone_number")
             && d.lines.rows[k].status == Available;
    if k != l {
      assert l in d.lines.rows;
    }
  }
}
