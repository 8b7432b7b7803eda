/** The bulk user import, `src/app/api/admin/users/import/route.ts`: after the caller and the
    request are checked, every row of the sheet is classified in turn and either inserted or
    logged with the first check it fails. The database is the set of registered emails; the
    password hash and the insert, which can throw, are an oracle `insertFails` telling for
    each row index whether they do. */
module UserImport {
  import opened JsText
  import opened Auth
  import opened Utils

  /** One row of the sheet; `None` is a field the row does not have. */
  datatype Row = Row(email: Option<string>, password: Option<string>, fullName: Option<string>,
                     role: Option<string>)

  /** An error logged for a row; `row` is the sheet's line number, the header being line 1. */
  datatype RowError = RowError(row: nat, email: Option<string>, error: string)

  datatype Results = Results(success: nat, failed: nat, errors: seq<RowError>)

  datatype ImportResponse =
    | Refused(status: nat, error: string)
    | Imported(results: Results)

  const MissingFields := "ข้อมูลไม่ครบถ้วน (ต้องมี email, password, full_name)"
  const BadEmail := "รูปแบบอีเมลไม่ถูกต้อง"
  const BadRole := "บทบาทไม่ถูกต้อง (ต้องเป็น s, t, หรือ a)"
  const EmailTaken := "อีเมลนี้มีอยู่ในระบบแล้ว"
  const SaveFailed := "เกิดข้อผิดพลาดในการบันทึกข้อมูล"
  const NoUsers := "ไม่มีข้อมูลผู้ใช้"

  /** A field JavaScript treats as true: present and not the empty string. */
  predicate Truthy(f: Option<string>) { f.Some? && f.value != [] }

  /** `userData.role || 's'`. */
  function RoleOf(row: Row): (r: string)
    ensures Truthy(row.role) ==> r == row.role.value
    ensures !Truthy(row.role) ==> r == "s"
  {
    if Truthy(row.role) then row.role.value else "s"
  }

  /** The checks on one row, in order; `None` means the row is inserted. */
  function RowVerdict(row: Row, registered: set<string>, insertFails: bool): Option<string>
  {
    if !Truthy(row.email) || !Truthy(row.password) || !Truthy(row.fullName) then Some(MissingFields)
    else if !IsValidEmail(row.email.value) then Some(BadEmail)
    else if RoleOf(row) !in ["s", "t", "a"] then Some(BadRole)
    else if row.email.value in registered then Some(EmailTaken)
    else if insertFails then Some(SaveFailed)
    else None
  }

  /** A row is inserted exactly when it has all three fields, a well-formed email that is not
      registered yet and a role among `s`, `t` and `a` (absent meaning `s`), and the insert
      goes through; otherwise the message names the first check it fails, in the order
      fields, email, role, existing email, insert. */
  lemma RowVerdictSpec(row: Row, registered: set<string>, insertFails: bool)
    ensures var v := RowVerdict(row, registered, insertFails);
      var fields := Truthy(row.email) && Truthy(row.password) && Truthy(row.fullName);
      var roleOk := RoleOf(row) in {"s", "t", "a"};
      && (v.None? <==>
            fields && IsValidEmail(row.email.value) && roleOk &&
            row.email.value !in registered && !insertFails)
      && (v == Some(MissingFields) <==> !fields)
      && (v == Some(BadEmail) <==> fields && !IsValidEmail(row.email.value))
      && (v == Some(BadRole) <==> fields && IsValidEmail(row.email.value) && !roleOk)
      && (v == Some(EmailTaken) <==>
            fields && IsValidEmail(row.email.value) && roleOk && row.email.value in registered)
      && (v == Some(SaveFailed) <==>
            fields && IsValidEmail(row.email.value) && roleOk &&
            row.email.value !in registered && insertFails)
  {
    assert RoleOf(row) in ["s", "t", "a"] <==> RoleOf(row) in {"s", "t", "a"};
  }

  /** The import state after some rows: the results so far and the registered emails. */
  datatype Progress = Progress(results: Results, registered: set<string>)

  /** The loop body for row `i`. */
  function Step(p: Progress, row: Row, i: nat, insertFails: bool): Progress
  {
    var v := RowVerdict(row, p.registered, insertFails);
    if v.None? then
      Progress(Results(p.results.success + 1, p.results.failed, p.results.errors),
               p.registered + {row.email.value})
    else
      Progress(Results(p.results.success, p.results.failed + 1,
                       p.results.errors + [RowError(i + 2, row.email, v.value)]),
               p.registered)
  }

  /** The rows processed in order, starting from `registered`. */
  function RunRows(rows: seq<Row>, registered: set<string>, insertFails: nat -> bool): Progress
  {
    if rows == [] then Progress(Results(0, 0, []), registered)
    else
      var n := |rows| - 1;
      Step(RunRows(rows[..n], registered, insertFails), rows[n], n, insertFails(n))
  }

  /** Every row is counted once, as a success or a failure, and every failure logs exactly
      one error. The logged lines are strictly increasing and lie between 2 and the number
      of rows plus one. */
  lemma {:induction false} RunRowsBookkeeping(rows: seq<Row>, registered: set<string>,
                                              insertFails: nat -> bool)
    ensures var r := RunRows(rows, registered, insertFails).results;
      && r.success + r.failed == |rows|
      && |r.errors| == r.failed
      && (forall a :: 0 <= a < |r.errors| ==> 2 <= r.errors[a].row <= |rows| + 1)
      && (forall a, b :: 0 <= a < b < |r.errors| ==> r.errors[a].row < r.errors[b].row)
  {
    if rows != [] {
      var n := |rows| - 1;
      RunRowsBookkeeping(rows[..n], registered, insertFails);
    }
  }

  /** Emails only ever get added: every email registered before the import still is, and
      every new one comes from a row of the sheet. */
  lemma {:induction false} RunRowsRegisters(rows: seq<Row>, registered: set<string>,
                                            insertFails: nat -> bool)
    ensures var db := RunRows(rows, registered, insertFails).registered;
      && registered <= db
      && (forall e :: e in db && e !in registered ==>
            exists i :: 0 <= i < |rows| && rows[i].email == Some(e))
      && |db| <= |registered| + RunRows(rows, registered, insertFails).results.success
  {
    if rows != [] {
      var n := |rows| - 1;
      RunRowsRegisters(rows[..n], registered, insertFails);
      var p := RunRows(rows[..n], registered, insertFails);
      var db := RunRows(rows, registered, insertFails).registered;
      forall e | e in db && e !in registered
        ensures exists i :: 0 <= i < |rows| && rows[i].email == Some(e)
      {
        if e in p.registered {
          var i :| 0 <= i < |rows[..n]| && rows[..n][i].email == Some(e);
          assert rows[i].email == Some(e);
        } else {
          assert rows[n].email == Some(e);
        }
      }
    }
  }

  /** The registered emails only grow from one row to the next. */
  lemma {:induction false} RegisteredGrows(rows: seq<Row>, registered: set<string>,
                                           insertFails: nat -> bool, i: nat, j: nat)
    requires i <= j <= |rows|
    ensures RunRows(rows[..i], registered, insertFails).registered <=
            RunRows(rows[..j], registered, insertFails).registered
    decreases j
  {
    if i < j {
      RegisteredGrows(rows, registered, insertFails, i, j - 1);
      assert rows[..j][..j - 1] == rows[..j - 1];
    }
  }

  /** A row that appears twice is inserted at most once: once the first copy is in, the
      second is refused as already registered. */
  lemma SameRowTwice(rows: seq<Row>, registered: set<string>, insertFails: nat -> bool, i: nat, j: nat)
    requires i < j < |rows| && rows[j] == rows[i]
    requires RowVerdict(rows[i], RunRows(rows[..i], registered, insertFails).registered, insertFails(i)).None?
    ensures RowVerdict(rows[j], RunRows(rows[..j], registered, insertFails).registered, insertFails(j)) ==
            Some(EmailTaken)
  {
    assert rows[..i + 1][..i] == rows[..i];
    RegisteredGrows(rows, registered, insertFails, i + 1, j);
  }

  /** The answer to the request. `token` is the auth cookie and `verify` stands for
      `verifyToken`; `databaseReady` is whether the admin client exists; `users` is the
      body's `users`, `None` when it is absent or not an array. */
  function ImportOf(token: Option<string>, verify: string -> Option<AuthUser>, databaseReady: bool,
                    users: Option<seq<Row>>, registered: set<string>, insertFails: nat -> bool): ImportResponse
  {
    if token.None? || token.value == [] then Refused(401, "Unauthorized")
    else if !IsAdmin(verify(token.value)) then Refused(403, "Forbidden")
    else if !databaseReady then Refused(500, "Database not available")
    else if users.None? || users.value == [] then Refused(400, NoUsers)
    else Imported(RunRows(users.value, registered, insertFails).results)
  }

  /** No row is looked at unless the caller is an administrator, the database is there and
      the sheet has rows; in that order, the refusals are 401, 403, 500 and 400. */
  lemma ImportGate(token: Option<string>, verify: string -> Option<AuthUser>, databaseReady: bool,
                   users: Option<seq<Row>>, registered: set<string>, insertFails: nat -> bool)
    ensures var r := ImportOf(token, verify, databaseReady, users, registered, insertFails);
      && (r.Imported? <==> token.Some? && token.value != [] && IsAdmin(verify(token.value)) &&
                           databaseReady && users.Some? && users.value != [])
      && (token.None? || token.value == [] ==> r == Refused(401, "Unauthorized"))
      && (token.Some? && token.value != [] && !IsAdmin(verify(token.value)) ==> r == Refused(403, "Forbidden"))
      && (r.Imported? ==> r.results.success + r.results.failed == |users.value|)
  {
    if users.Some? {
      RunRowsBookkeeping(users.value, registered, insertFails);
    }
  }

  /** `POST`: the handler, with the row loop. `db` is the set of registered emails
      afterwards. */
  method Import(token: Option<string>, verify: string -> Option<AuthUser>, databaseReady: bool,
                users: Option<seq<Row>>, registered: set<string>, insertFails: nat -> bool)
    returns (resp: ImportResponse, db: set<string>)
    ensures resp == ImportOf(token, verify, databaseReady, users, registered, insertFails)
    ensures resp.Imported? ==> db == RunRows(users.value, registered, insertFails).registered
    ensures resp.Refused? ==> db == registered
  {
    db := registered;
    if token.None? || token.value == [] {
      return Refused(401, "Unauthorized"), db;
    }
    var user := verify(token.value);
    if user.None? || user.value.role != Admin {
      return Refused(403, "Forbidden"), db;
    }
    if !databaseReady {
      return Refused(500, "Database not available"), db;
    }
    if users.None? || users.value == [] {
      return Refused(400, NoUsers), db;
    }
    var rows := users.value;
    var success, failed, errors := 0, 0, [];
    var i := 0;
    while i < |rows|
      invariant 0 <= i <= |rows|
      invariant RunRows(rows[..i], registered, insertFails) ==
        Progress(Results(success, failed, errors), db)
    {
      assert rows[..i + 1][..i] == rows[..i];
      var row := rows[i];
      if !Truthy(row.email) || !Truthy(row.password) || !Truthy(row.fullName) {
        failed := failed + 1;
        errors := errors + [RowError(i + 2, row.email, MissingFields)];
      } else if !IsValidEmail(row.email.value) {
        failed := failed + 1;
        errors := errors + [RowError(i + 2, row.email, BadEmail)];
      } else if RoleOf(row) !in ["s", "t", "a"] {
        failed := failed + 1;
        errors := errors + [RowError(i + 2, row.email, BadRole)];
      } else if row.email.value in db {
        failed := failed + 1;
        errors := errors + [RowError(i + 2, row.email, EmailTaken)];
      } else if insertFails(i) {
        failed := failed + 1;
        errors := errors + [RowError(i + 2, row.email, SaveFailed)];
      } else {
        db := db + {row.email.value};
        success := success + 1;
      }
      i := i + 1;
    }
    assert rows[..|rows|] == rows;
    resp := Imported(Results(success, failed, errors));
  }
}
