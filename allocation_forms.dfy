/** The validation of the two telephony forms: the per-field hooks that
    refuse a duplicate ICCID or phone number when a new line is registered,
    and `clean`, which checks the fields each `line_action` needs, guards
    manual status changes against the allocation table and rewrites the
    cleaned data. The pure functions say what validation produces; the two
    form classes perform it in place. */
module AllocationForms {
  import opened Common
  import opened TelecomModels
  import opened EmployeeModels
  import opened AllocationModels
  import opened Store
  import AllocationService

  /** A cleaned field value: the text of a character or choice field, the
      instance a model-choice field selected, or None. */
  datatype Value =
    | Text(text: string)
    | LineValue(lineId: Id, line: PhoneLine)
    | EmployeeValue(employeeId: Id, employee: Employee)
    | Null

  /** Python truthiness of a cleaned value. */
  predicate Truthy(v: Value) {
    match v
    case Text(s) => s != ""
    case Null => false
    case _ => true
  }

  /** `cleaned.get(field)`. */
  function Get(cleaned: map<string, Value>, field: string): (v: Value)
    ensures field !in cleaned ==> v == Null
    ensures field in cleaned ==> v == cleaned[field]
  {
    if field in cleaned then cleaned[field] else Null
  }

  /** `cleaned.get(field) or ""`. */
  function OrEmpty(cleaned: map<string, Value>, field: string): (v: Value)
    ensures Truthy(Get(cleaned, field)) ==> v == cleaned[field]
    ensures !Truthy(Get(cleaned, field)) ==> v == Text("")
  {
    if Truthy(Get(cleaned, field)) then cleaned[field] else Text("")
  }

  /** What validation has produced so far: the cleaned data and the errors
      in the order `add_error` recorded them. */
  datatype FormState = FormState(cleaned: map<string, Value>, errors: seq<(string, string)>)

  /** `add_error(field, message)`: records the error and drops the field from
      the cleaned data. */
  function AddError(st: FormState, field: string, message: string): (r: FormState)
    ensures r.errors == st.errors + [(field, message)]
    ensures r.cleaned.Keys == st.cleaned.Keys - {field}
    ensures forall f :: f in r.cleaned ==> r.cleaned[f] == st.cleaned[f]
  {
    FormState(st.cleaned - {field}, st.errors + [(field, message)])
  }

  predicate HasErrorOn(errors: seq<(string, string)>, field: string) {
    exists i :: 0 <= i < |errors| && errors[i].0 == field
  }

  // ---------------------------------------------------------------------
  // Required fields

  /** The fields of `fields`, in order, whose cleaned value is falsy. */
  function Missing(cleaned: map<string, Value>, fields: seq<string>): (m: seq<string>)
    ensures forall f :: f in m <==> f in fields && !Truthy(Get(cleaned, f))
    ensures |m| <= |fields|
  {
    if fields == [] then []
    else (if Truthy(Get(cleaned, fields[0])) then [] else [fields[0]]) + Missing(cleaned, fields[1..])
  }

  /** One `(field, message)` error per field, in order. */
  function ErrorsFor(fields: seq<string>, message: string): seq<(string, string)> {
    seq(|fields|, i requires 0 <= i < |fields| => (fields[i], message))
  }

  /** `for field in fields: if not cleaned.get(field): add_error(field, message)`. */
  function RequireAll(st: FormState, fields: seq<string>, message: string): (r: FormState)
    ensures st.errors <= r.errors
    decreases |fields|
  {
    if fields == [] then st
    else
      var f := fields[0];
      RequireAll(if Truthy(Get(st.cleaned, f)) then st else AddError(st, f, message), fields[1..], message)
  }

  /** The loop reports exactly the fields that were missing when it began, in
      the order they are listed, and drops exactly those from the cleaned
      data. */
  lemma RequireAllReportsMissing(st: FormState, fields: seq<string>, message: string)
    ensures RequireAll(st, fields, message).errors == st.errors + ErrorsFor(Missing(st.cleaned, fields), message)
    ensures RequireAll(st, fields, message).cleaned == st.cleaned - set f | f in Missing(st.cleaned, fields)
  {
    RequireAllErrors(st, fields, message);
    RequireAllCleaned(st, fields, message);
  }

  lemma {:induction false} RequireAllErrors(st: FormState, fields: seq<string>, message: string)
    ensures RequireAll(st, fields, message).errors == st.errors + ErrorsFor(Missing(st.cleaned, fields), message)
    decreases |fields|
  {
    if fields == [] {
      assert st.errors + [] == st.errors;
    } else if Truthy(Get(st.cleaned, fields[0])) {
      RequireAllErrors(st, fields[1..], message);
      assert Missing(st.cleaned, fields) == Missing(st.cleaned, fields[1..]);
    } else {
      RequireAllErrors(AddError(st, fields[0], message), fields[1..], message);
      RequireAllErrorsStep(st, fields, message);
    }
  }

  /** A falsy first field: its error comes first, then those of the rest. */
  lemma RequireAllErrorsStep(st: FormState, fields: seq<string>, message: string)
    requires fields != [] && !Truthy(Get(st.cleaned, fields[0]))
    requires var next := AddError(st, fields[0], message);
      RequireAll(next, fields[1..], message).errors == next.errors + ErrorsFor(Missing(next.cleaned, fields[1..]), message)
    ensures RequireAll(st, fields, message).errors == st.errors + ErrorsFor(Missing(st.cleaned, fields), message)
  {
    var f := fields[0];
    var next := AddError(st, f, message);
    var rest := Missing(st.cleaned, fields[1..]);
    assert RequireAll(st, fields, message) == RequireAll(next, fields[1..], message);
    assert Missing(st.cleaned, fields) == [f] + rest;
    MissingAfterDrop(st.cleaned, f, fields[1..]);
    AppendError(st.errors, f, rest, message);
  }

  lemma AppendError(errors: seq<(string, string)>, f: string, rest: seq<string>, message: string)
    ensures (errors + [(f, message)]) + ErrorsFor(rest, message) == errors + ErrorsFor([f] + rest, message)
  {
    ErrorsForCons(f, rest, message);
  }

  lemma ErrorsForCons(f: string, rest: seq<string>, message: string)
    ensures ErrorsFor([f] + rest, message) == [(f, message)] + ErrorsFor(rest, message)
  {
    assert ([f] + rest)[1..] == rest;
  }

  lemma {:induction false} RequireAllCleaned(st: FormState, fields: seq<string>, message: string)
    ensures RequireAll(st, fields, message).cleaned == st.cleaned - set f | f in Missing(st.cleaned, fields)
    decreases |fields|
  {
    if fields != [] {
      var f := fields[0];
      var next := if Truthy(Get(st.cleaned, f)) then st else AddError(st, f, message);
      RequireAllCleaned(next, fields[1..], message);
      MissingAfterDrop(st.cleaned, f, fields[1..]);
    }
  }

  /** Dropping a field that is already falsy leaves every falsy/truthy
      verdict unchanged. */
  lemma {:induction false} MissingAfterDrop(cleaned: map<string, Value>, f: string, fields: seq<string>)
    ensures !Truthy(Get(cleaned, f)) ==> Missing(cleaned - {f}, fields) == Missing(cleaned, fields)
    decreases |fields|
  {
    if fields != [] && !Truthy(Get(cleaned, f)) {
      MissingAfterDrop(cleaned, f, fields[1..]);
      assert Truthy(Get(cleaned - {f}, fields[0])) == Truthy(Get(cleaned, fields[0]));
    }
  }

  // ---------------------------------------------------------------------
  // The per-field hooks (identical in both forms)

  /** `clean_iccid`: refused only when the action is `new`, the ICCID is not
      empty and a non-deleted SIM card already holds it; otherwise the value
      is kept as it is. */
  function CleanIccid(cleaned: map<string, Value>, sims: map<Id, SimCard>): (r: Result<Value, string>)
    requires "iccid" in cleaned
    ensures r.Err? <==> && Get(cleaned, "line_action") == Text("new")
                        && cleaned["iccid"].Text? && cleaned["iccid"].text != ""
                        && exists k :: k in sims && !sims[k].isDeleted && sims[k].iccid == cleaned["iccid"].text
    ensures r.Err? ==> r.error == "ICCID ja cadastrado."
    ensures r.Ok? ==> r.value == cleaned["iccid"]
  {
    var v := cleaned["iccid"];
    if && Get(cleaned, "line_action") == Text("new") && v.Text? && v.text != ""
       && exists k :: k in sims && !sims[k].isDeleted && sims[k].iccid == v.text
    then Err("ICCID ja cadastrado.")
    else Ok(v)
  }

  /** `clean_phone_number`: the same rule against non-deleted lines. */
  function CleanPhoneNumber(cleaned: map<string, Value>, lines: map<Id, PhoneLine>): (r: Result<Value, string>)
    requires "phone_number" in cleaned
    ensures r.Err? <==> && Get(cleaned, "line_action") == Text("new")
                        && cleaned["phone_number"].Text? && cleaned["phone_number"].text != ""
                        && exists k :: k in lines && !lines[k].isDeleted && lines[k].phoneNumber == cleaned["phone_number"].text
    ensures r.Err? ==> r.error == "Linha ja cadastrada."
    ensures r.Ok? ==> r.value == cleaned["phone_number"]
  {
    var v := cleaned["phone_number"];
    if && Get(cleaned, "line_action") == Text("new") && v.Text? && v.text != ""
       && exists k :: k in lines && !lines[k].isDeleted && lines[k].phoneNumber == v.text
    then Err("Linha ja cadastrada.")
    else Ok(v)
  }

  /** The hooks as field cleaning runs them, in field order (phone number
      before ICCID), each only on a field that passed its own checks; a hook
      that raises becomes an error on its field. */
  function RunHooks(st: FormState, db: Db): (r: FormState)
    ensures r.cleaned.Keys <= st.cleaned.Keys
    ensures Get(st.cleaned, "line_action") != Text("new") ==> r == st
    ensures st.errors <= r.errors
  {
    var a := if "phone_number" in st.cleaned then
               match CleanPhoneNumber(st.cleaned, db.lines.rows)
               case Ok(_) => st
               case Err(m) => AddError(st, "phone_number", m)
             else st;
    if "iccid" in a.cleaned then
      match CleanIccid(a.cleaned, db.sims.rows)
      case Ok(_) => a
      case Err(m) => AddError(a, "iccid", m)
    else a
  }

  // ---------------------------------------------------------------------
  // TelephonyAssignmentForm.clean

  const RequiredForNew: seq<string> := ["phone_number", "iccid", "carrier"]

  /** The allocation `.first()` returns for a line: the newest active one. */
  function FirstActiveForLine(s: seq<LineAllocation>, l: Id): (r: Option<LineAllocation>)
    ensures r.Some? <==> HasActiveForLine(s, l)
    ensures r.Some? ==> r.value in s && r.value.isActive && r.value.phoneLine == l
    ensures r.Some? ==> forall x | x in s && x.isActive && x.phoneLine == l :: x.allocatedAt <= r.value.allocatedAt
  {
    var matching := FilterActiveForLine(s, l);
    var ordered := OrderByNewest(matching);
    if ordered == [] then
      assert multiset(matching) == multiset{};
      None
    else
      assert ordered[0] in multiset(matching);
      forall x | x in s && x.isActive && x.phoneLine == l ensures x.allocatedAt <= ordered[0].allocatedAt {
        assert x in multiset(matching);
        assert x in multiset(ordered);
        var j :| 0 <= j < |ordered| && ordered[j] == x;
      }
      Some(ordered[0])
  }

  /** `LineAllocation.objects.filter(phone_line=l, is_active=True)`. */
  function FilterActiveForLine(s: seq<LineAllocation>, l: Id): (r: seq<LineAllocation>)
    ensures forall x :: x in r <==> x in s && x.isActive && x.phoneLine == l
    ensures r == [] <==> !HasActiveForLine(s, l)
  {
    if s == [] then []
    else
      var rest := FilterActiveForLine(s[1..], l);
      assert HasActiveForLine(s[1..], l) ==> HasActiveForLine(s, l) by {
        if HasActiveForLine(s[1..], l) {
          var i :| 0 <= i < |s[1..]| && s[1..][i].isActive && s[1..][i].phoneLine == l;
          assert s[i + 1] == s[1..][i];
        }
      }
      assert HasActiveForLine(s, l) && !(s[0].isActive && s[0].phoneLine == l) ==> HasActiveForLine(s[1..], l) by {
        if HasActiveForLine(s, l) && !(s[0].isActive && s[0].phoneLine == l) {
          var i :| 0 <= i < |s| && s[i].isActive && s[i].phoneLine == l;
          assert i > 0 && s[1..][i - 1] == s[i];
        }
      }
      assert forall x :: x in s <==> x == s[0] || x in s[1..] by {
        assert s == [s[0]] + s[1..];
      }
      if s[0].isActive && s[0].phoneLine == l then [s[0]] + rest else rest
  }

  /** The name the status guard reports for the employee of an allocation. */
  function HolderName(db: Db, a: LineAllocation): (name: string)
    ensures a.employee != 0 && a.employee in db.employees.rows ==> name == db.employees.rows[a.employee].fullName
    ensures a.employee == 0 ==> name == "usuário desconhecido"
  {
    if a.employee != 0 && a.employee in db.employees.rows then db.employees.rows[a.employee].fullName
    else "usuário desconhecido"
  }

  /** The manual status-change guard: with a line and a status chosen, an
      active allocation demands ALLOCATED, and ALLOCATED demands an active
      allocation. */
  function StatusGuard(st: FormState, db: Db, pl: Value, status: Value): (r: FormState)
    ensures !(pl.LineValue? && Truthy(status)) ==> r == st
    ensures pl.LineValue? && Truthy(status) ==>
      (r == st <==> (HasActiveForLine(db.allocations, pl.lineId) <==> status == Text("ALLOCATED")))
    ensures r != st ==> && |r.errors| == |st.errors| + 1 && r.errors[..|st.errors|] == st.errors
                        && r.errors[|st.errors|].0 == "status_line"
  {
    if pl.LineValue? && Truthy(status) then
      var active := FirstActiveForLine(db.allocations, pl.lineId);
      if active.Some? && status != Text("ALLOCATED") then
        AddError(st, "status_line",
                 "Libere a linha primeiro e tente novamente!" +
                 "Status atual: " + LineStatusValue(pl.line.status) + ". " +
                 "Usuário vinculado: " + HolderName(db, active.value) + ". ")
      else if active.None? && status == Text("ALLOCATED") then
        AddError(st, "status_line", "Use o vínculo com usuário para deixar ALLOCATED.")
      else st
    else st
  }

  /** `TelephonyAssignmentForm.clean` on the state field cleaning left. */
  function TelephonyClean(st: FormState, db: Db): (r: FormState)
    ensures st.errors <= r.errors
    ensures var a := Get(st.cleaned, "line_action");
      a != Text("new") && a != Text("existing") && a != Text("change_status") ==> r == st
  {
    var c := st.cleaned;
    var action := Get(c, "line_action");
    if action == Text("new") then
      var s1 := RequireAll(st, RequiredForNew, "Campo obrigatorio.");
      s1.(cleaned := s1.cleaned["phone_line" := Null]["status_line" := Text("")]["phone_line_status" := Null])
    else if action == Text("existing") then
      var s1 := if !Truthy(Get(c, "employee")) then AddError(st, "employee", "Selecione o usuário.") else st;
      var s2 := if !Truthy(Get(s1.cleaned, "phone_line")) then AddError(s1, "phone_line", "Selecione uma linha disponivel.")
                else if s1.cleaned["phone_line"].LineValue? && s1.cleaned["phone_line"].line.status != Available then
                  AddError(s1, "phone_line", "A linha selecionada nao esta disponivel.")
                else s1;
      var c2 := s2.cleaned;
      s2.(cleaned := c2["phone_number" := OrEmpty(c2, "phone_number")]["iccid" := OrEmpty(c2, "iccid")]
                       ["carrier" := OrEmpty(c2, "carrier")]["status_line" := Text("")]["phone_line_status" := Null])
    else if action == Text("change_status") then
      var pl := Get(c, "phone_line_status");
      var status := Get(c, "status_line");
      var s1 := if !Truthy(pl) then AddError(st, "phone_line_status", "Selecione a linha.") else st;
      var s2 := if !Truthy(status) then AddError(s1, "status_line", "Selecione o novo status.") else s1;
      var s3 := StatusGuard(s2, db, pl, status);
      var c3 := s3.cleaned;
      s3.(cleaned := c3["phone_number" := OrEmpty(c3, "phone_number")]["iccid" := OrEmpty(c3, "iccid")]
                       ["carrier" := OrEmpty(c3, "carrier")]["phone_line" := Null]["employee" := Null])
    else st
  }

  /** Full validation of a submission: hooks, then `clean`. */
  function TelephonyValidate(st: FormState, db: Db): (r: FormState)
    ensures st.errors <= r.errors
    ensures Get(st.cleaned, "line_action") != Text("new") ==> r == TelephonyClean(st, db)
  {
    TelephonyClean(RunHooks(st, db), db)
  }

  /** For `new`: an error on each of phone number, ICCID and carrier that is
      missing (in that order), after the hooks' errors; the line fields are
      cleared. */
  lemma TelephonyNewRequiresFields(st: FormState, db: Db)
    requires Get(st.cleaned, "line_action") == Text("new")
    ensures var h := RunHooks(st, db);
      && TelephonyClean(h, db).errors == h.errors + ErrorsFor(Missing(h.cleaned, RequiredForNew), "Campo obrigatorio.")
      && TelephonyClean(h, db).cleaned["phone_line"] == Null
      && TelephonyClean(h, db).cleaned["status_line"] == Text("")
      && TelephonyClean(h, db).cleaned["phone_line_status"] == Null
  {
    var h := RunHooks(st, db);
    assert Get(h.cleaned, "line_action") == Text("new") by {
      assert "line_action" in h.cleaned && h.cleaned["line_action"] == st.cleaned["line_action"] by {
        assert "phone_number" != "line_action" && "iccid" != "line_action";
      }
    }
    RequireAllReportsMissing(h, RequiredForNew, "Campo obrigatorio.");
  }

  /** For `existing`: the form is refused on the employee exactly when none
      was chosen, and on the line exactly when none was chosen or the chosen
      one is not AVAILABLE. */
  lemma TelephonyExistingChecks(st: FormState, db: Db)
    requires Get(st.cleaned, "line_action") == Text("existing")
    requires !HasErrorOn(st.errors, "employee") && !HasErrorOn(st.errors, "phone_line")
    ensures var r := TelephonyClean(st, db);
      && (HasErrorOn(r.errors, "employee") <==> !Truthy(Get(st.cleaned, "employee")))
      && (HasErrorOn(r.errors, "phone_line") <==>
            (!Truthy(Get(st.cleaned, "phone_line"))
             || (st.cleaned["phone_line"].LineValue? && st.cleaned["phone_line"].line.status != Available)))
      && r.cleaned["status_line"] == Text("") && r.cleaned["phone_line_status"] == Null
  {
    var c := st.cleaned;
    var s1 := if !Truthy(Get(c, "employee")) then AddError(st, "employee", "Selecione o usuário.") else st;
    assert Get(s1.cleaned, "phone_line") == Get(c, "phone_line");
    var r := TelephonyClean(st, db);
    var s2 := if !Truthy(Get(s1.cleaned, "phone_line")) then AddError(s1, "phone_line", "Selecione uma linha disponivel.")
              else if s1.cleaned["phone_line"].LineValue? && s1.cleaned["phone_line"].line.status != Available then
                AddError(s1, "phone_line", "A linha selecionada nao esta disponivel.")
              else s1;
    assert r.errors == s2.errors;
    if s2 != s1 {
      assert s2.errors[|s1.errors|].0 == "phone_line";
    }
    if HasErrorOn(r.errors, "phone_line") {
      var i :| 0 <= i < |r.errors| && r.errors[i].0 == "phone_line";
      assert i >= |s1.errors|;
    }
    if !Truthy(Get(c, "employee")) {
      assert s1.errors[|st.errors|] == ("employee", "Selecione o usuário.");
      assert r.errors[|st.errors|] == s1.errors[|st.errors|];
    }
  }

  /** For `change_status` with a line and a status chosen: the guard refuses
      exactly the requests where "has an active allocation" and "asks for
      ALLOCATED" disagree. */
  lemma ChangeStatusGuard(st: FormState, db: Db, id: Id, line: PhoneLine, status: string)
    requires Get(st.cleaned, "line_action") == Text("change_status")
    requires Get(st.cleaned, "phone_line_status") == LineValue(id, line)
    requires Get(st.cleaned, "status_line") == Text(status) && status != ""
    ensures var r := TelephonyClean(st, db);
      (r.errors == st.errors) <==> (HasActiveForLine(db.allocations, id) <==> status == "ALLOCATED")
    ensures var r := TelephonyClean(st, db);
      && r.cleaned["phone_line"] == Null && r.cleaned["employee"] == Null
  {
    assert Text(status) == Text("ALLOCATED") <==> status == "ALLOCATED";
    var r := TelephonyClean(st, db);
    var s3 := StatusGuard(st, db, LineValue(id, line), Text(status));
    assert r.errors == s3.errors;
    if s3 != st {
      assert |s3.errors| > |st.errors|;
    }
  }

  /** For `change_status`: an error on the line exactly when none was
      chosen, and with no status chosen exactly the two required-field
      errors (the guard does not run); the line and employee are cleared. */
  lemma TelephonyChangeStatusRequiresFields(st: FormState, db: Db)
    requires Get(st.cleaned, "line_action") == Text("change_status")
    ensures var r := TelephonyClean(st, db);
      && r.cleaned["phone_line"] == Null && r.cleaned["employee"] == Null
      && (HasErrorOn(r.errors[|st.errors|..], "phone_line_status") <==> !Truthy(Get(st.cleaned, "phone_line_status")))
      && (!Truthy(Get(st.cleaned, "status_line")) ==>
            r.errors == st.errors
                        + (if Truthy(Get(st.cleaned, "phone_line_status")) then [] else [("phone_line_status", "Selecione a linha.")])
                        + [("status_line", "Selecione o novo status.")])
  {
    var c := st.cleaned;
    var pl := Get(c, "phone_line_status");
    var status := Get(c, "status_line");
    var s1 := if !Truthy(pl) then AddError(st, "phone_line_status", "Selecione a linha.") else st;
    var s2 := if !Truthy(status) then AddError(s1, "status_line", "Selecione o novo status.") else s1;
    var s3 := StatusGuard(s2, db, pl, status);
    var r := TelephonyClean(st, db);
    assert r.errors == s3.errors;
    var added := r.errors[|st.errors|..];
    assert added == s1.errors[|st.errors|..] + s2.errors[|s1.errors|..] + s3.errors[|s2.errors|..];
    assert !HasErrorOn(s2.errors[|s1.errors|..], "phone_line_status");
    assert !HasErrorOn(s3.errors[|s2.errors|..], "phone_line_status");
    if HasErrorOn(added, "phone_line_status") {
      var i :| 0 <= i < |added| && added[i].0 == "phone_line_status";
      assert i < |s1.errors| - |st.errors|;
    }
    if !Truthy(pl) {
      assert added[0] == ("phone_line_status", "Selecione a linha.");
    }
  }

  /** A status change this form accepts, once applied to the line, keeps the
      engine's status invariant: the one the form was written to protect. */
  lemma AcceptedStatusChangeKeepsConsistency(st: FormState, db: Db, id: Id, line: PhoneLine, s: LineStatus)
    requires id in db.lines.rows
    requires AllocationService.StatusConsistent(db.lines.rows, db.allocations)
    requires Get(st.cleaned, "line_action") == Text("change_status")
    requires Get(st.cleaned, "phone_line_status") == LineValue(id, line)
    requires Get(st.cleaned, "status_line") == Text(LineStatusValue(s))
    requires TelephonyClean(st, db).errors == st.errors
    ensures var d := db.(lines := db.lines.Update(id, db.lines.rows[id].(status := s)));
      AllocationService.StatusConsistent(d.lines.rows, d.allocations)
  {
    ChangeStatusGuard(st, db, id, line, LineStatusValue(s));
    assert LineStatusValue(s) == "ALLOCATED" <==> s == Allocated;
  }

  // ---------------------------------------------------------------------
  // CombinedRegistrationForm.clean

  /** `CombinedRegistrationForm.clean`: no action, no further checks; `new`
      requires the three line fields, `existing` only a line, `change_status`
      a line and a status. The cleaned data is returned as it is. */
  function CombinedClean(st: FormState): (r: FormState)
    ensures !Truthy(Get(st.cleaned, "line_action")) ==> r == st
    ensures Get(st.cleaned, "line_action") == Text("existing") ==>
      r.errors == st.errors + (if Truthy(Get(st.cleaned, "phone_line")) then [] else [("phone_line", "Selecione uma linha disponivel.")])
    ensures Get(st.cleaned, "line_action") == Text("change_status") ==>
      r.errors == st.errors
                  + (if Truthy(Get(st.cleaned, "phone_line_status")) then [] else [("phone_line_status", "Selecione a linha.")])
                  + (if Truthy(Get(st.cleaned, "status_line")) then [] else [("status_line", "Selecione o novo status.")])
    ensures var a := Get(st.cleaned, "line_action");
      a != Text("new") && a != Text("existing") && a != Text("change_status") ==> r == st
    ensures forall f :: f in r.cleaned ==> f in st.cleaned && r.cleaned[f] == st.cleaned[f]
    ensures st.errors <= r.errors
  {
    var c := st.cleaned;
    var action := Get(c, "line_action");
    if !Truthy(action) then st
    else if action == Text("new") then RequireAll(st, RequiredForNew, "Campo obrigatorio.")
    else if action == Text("existing") then
      if !Truthy(Get(c, "phone_line")) then AddError(st, "phone_line", "Selecione uma linha disponivel.") else st
    else if action == Text("change_status") then
      var s1 := if !Truthy(Get(c, "phone_line_status")) then AddError(st, "phone_line_status", "Selecione a linha.") else st;
      if !Truthy(Get(s1.cleaned, "status_line")) then AddError(s1, "status_line", "Selecione o novo status.") else s1
    else st
  }

  /** Full validation of a `CombinedRegistrationForm` submission. */
  function CombinedValidate(st: FormState, db: Db): (r: FormState)
    ensures st.errors <= r.errors
    ensures Get(st.cleaned, "line_action") != Text("new") ==> r == CombinedClean(st)
  {
    CombinedClean(RunHooks(st, db))
  }

  lemma CombinedNewRequiresFields(st: FormState)
    requires Get(st.cleaned, "line_action") == Text("new")
    ensures CombinedClean(st).errors == st.errors + ErrorsFor(Missing(st.cleaned, RequiredForNew), "Campo obrigatorio.")
  {
    RequireAllReportsMissing(st, RequiredForNew, "Campo obrigatorio.");
  }

  // ---------------------------------------------------------------------
  // The forms as objects: validation updates `cleaned` and `errors` in place

  /** A bound form (the state Django's `Form` keeps while validating); both
      forms share it and differ only in their `clean`. */
  class BoundForm {
    var cleaned: map<string, Value>
    var errors: seq<(string, string)>

    function State(): FormState
      reads this
    {
      FormState(cleaned, errors)
    }

    /** A bound form whose fields cleaned to `data`, before any hook. */
    constructor (data: map<string, Value>)
      ensures State() == FormState(data, [])
    {
      cleaned, errors := data, [];
    }

    method AddErrorTo(field: string, message: string)
      modifies this
      ensures State() == AddError(old(State()), field, message)
    {
      cleaned := cleaned - {field};
      errors := errors + [(field, message)];
    }

    /** The required-fields loop of the `new` branch. */
    method RequireFields(fields: seq<string>, message: string)
      modifies this
      ensures State() == RequireAll(old(State()), fields, message)
    {
      var i := 0;
      while i < |fields|
        invariant 0 <= i <= |fields|
        invariant RequireAll(State(), fields[i..], message) == RequireAll(old(State()), fields, message)
      {
        assert fields[i..][1..] == fields[i + 1..];
        if !Truthy(Get(cleaned, fields[i])) {
          AddErrorTo(fields[i], message);
        }
        i := i + 1;
      }
    }

    /** `TelephonyAssignmentForm`: `_clean_fields`' hooks, then `clean()`. */
    method ValidateTelephonyAssignment(db: Db)
      modifies this
      ensures State() == TelephonyValidate(old(State()), db)
    {
      var h := RunHooks(State(), db);
      cleaned, errors := h.cleaned, h.errors;
      var action := Get(cleaned, "line_action");
      if action == Text("new") {
        RequireFields(RequiredForNew, "Campo obrigatorio.");
        cleaned := cleaned["phone_line" := Null]["status_line" := Text("")]["phone_line_status" := Null];
      } else if action == Text("existing") {
        if !Truthy(Get(cleaned, "employee")) {
          AddErrorTo("employee", "Selecione o usuário.");
        }
        if !Truthy(Get(cleaned, "phone_line")) {
          AddErrorTo("phone_line", "Selecione uma linha disponivel.");
        } else if cleaned["phone_line"].LineValue? && cleaned["phone_line"].line.status != Available {
          AddErrorTo("phone_line", "A linha selecionada nao esta disponivel.");
        }
        var c := cleaned;
        cleaned := c["phone_number" := OrEmpty(c, "phone_number")]["iccid" := OrEmpty(c, "iccid")]
                    ["carrier" := OrEmpty(c, "carrier")]["status_line" := Text("")]["phone_line_status" := Null];
      } else if action == Text("change_status") {
        var pl := Get(cleaned, "phone_line_status");
        var status := Get(cleaned, "status_line");
        if !Truthy(pl) {
          AddErrorTo("phone_line_status", "Selecione a linha.");
        }
        if !Truthy(status) {
          AddErrorTo("status_line", "Selecione o novo status.");
        }
        var g := StatusGuard(State(), db, pl, status);
        cleaned, errors := g.cleaned, g.errors;
        var c := cleaned;
        cleaned := c["phone_number" := OrEmpty(c, "phone_number")]["iccid" := OrEmpty(c, "iccid")]
                    ["carrier" := OrEmpty(c, "carrier")]["phone_line" := Null]["employee" := Null];
      }
    }

    /** `CombinedRegistrationForm`: the same hooks, then its `clean()`. */
    method ValidateCombinedRegistration(db: Db)
      modifies this
      ensures State() == CombinedValidate(old(State()), db)
    {
      var h := RunHooks(State(), db);
      cleaned, errors := h.cleaned, h.errors;
      var action := Get(cleaned, "line_action");
      if !Truthy(action) {
        return;
      }
      if action == Text("new") {
        RequireFields(RequiredForNew, "Campo obrigatorio.");
      } else if action == Text("existing") {
        if !Truthy(Get(cleaned, "phone_line")) {
          AddErrorTo("phone_line", "Selecione uma linha disponivel.");
        }
      } else if action == Text("change_status") {
        if !Truthy(Get(cleaned, "phone_line_status")) {
          AddErrorTo("phone_line_status", "Selecione a linha.");
        }
        if !Truthy(Get(cleaned, "status_line")) {
          AddErrorTo("status_line", "Selecione o novo status.");
        }
      }
    }
  }
}
