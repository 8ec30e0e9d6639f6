/** System users: the role column and its default, the string form, and the
    custom manager that creates users and superusers (the defaults it puts
    on the staff and superuser flags, and the checks it makes on them). */
module UserModels {
  import opened Common

  /** `SystemUser.Role` values. */
  const RoleAdmin: string := "admin"
  const RoleOperator: string := "operator"

  datatype SystemUser = SystemUser(
    email: string,
    /** What `set_password` was given; `None` is an unusable password.
        Hashing is not modelled. */
    password: Option<string>,
    role: string,
    isStaff: bool,
    isSuperuser: bool)

  /** The keyword arguments a caller hands to the manager. Only the two flags
      and the role are modelled; an absent key is `None`. */
  datatype ExtraFields = ExtraFields(isStaff: Option<bool>, isSuperuser: Option<bool>, role: Option<string>)

  /** `value is True` for an optional flag. */
  predicate IsTrue(v: Option<bool>) {
    v.Some? && v.value
  }

  /** A flag the caller set explicitly to False. */
  predicate IsFalse(v: Option<bool>) {
    v.Some? && !v.value
  }

  /** `SystemUser.__str__`: "email - role". */
  function UserStr(u: SystemUser): (s: string)
    ensures u.email <= s
    ensures |s| == |u.email| + 3 + |u.role|
    ensures s[|u.email|..] == " - " + u.role
  {
    u.email + " - " + u.role
  }

  /** `BaseUserManager.normalize_email`: when the stripped address contains an
      '@', the part after the last one is lowercased; otherwise the address
      is returned as given. */
  function NormalizeEmail(email: string): (r: string)
    ensures '@' !in Strip(email) ==> r == email
    ensures '@' in Strip(email) ==>
      exists i :: && 0 <= i < |Strip(email)| && Strip(email)[i] == '@'
                  && '@' !in Strip(email)[i + 1..]
                  && r == Strip(email)[..i] + "@" + Lower(Strip(email)[i + 1..])
  {
    var s := Strip(email);
    match LastIndexOf(s, '@')
    case None => email
    case Some(i) => s[..i] + "@" + Lower(s[i + 1..])
  }

  /** The unique index on `email`. */
  predicate EmailInUse(users: map<Id, SystemUser>, email: string) {
    exists k :: k in users && users[k].email == email
  }

  ghost predicate UniqueUserEmails(users: map<Id, SystemUser>) {
    forall a, b :: a in users && b in users && a != b ==> users[a].email != users[b].email
  }

  /** `SystemUserManager._create_user`: an empty email is refused; otherwise
      the user is built from the normalised email and the extra fields (the
      role defaults to `operator`, a flag left unset is False) and saved,
      which the unique index on email may refuse. */
  function CreateUserRow(users: Table<SystemUser>, email: string, password: Option<string>, extra: ExtraFields)
    : (r: Result<(Table<SystemUser>, Id), string>)
    requires users.Valid()
    ensures email == "" ==> r == Err("The email field must be set")
    ensures email != "" ==> (r.Err? <==> EmailInUse(users.rows, NormalizeEmail(email)))
    ensures r.Ok? ==>
      && r.value.1 !in users.rows && r.value.1 in r.value.0.rows
      && r.value.0.Valid()
      && r.value.0.rows == users.rows[r.value.1 := r.value.0.rows[r.value.1]]
      && var u := r.value.0.rows[r.value.1];
      && u.email == NormalizeEmail(email)
      && u.password == password
      && u.role == (if extra.role.Some? then extra.role.value else RoleOperator)
      && u.isStaff == (IsTrue(extra.isStaff))
      && u.isSuperuser == (IsTrue(extra.isSuperuser))
  {
    if email == "" then Err("The email field must be set")
    else
      var e := NormalizeEmail(email);
      var u := SystemUser(e,
                          password,
                          if extra.role.Some? then extra.role.value else RoleOperator,
                          IsTrue(extra.isStaff),
                          IsTrue(extra.isSuperuser));
      if EmailInUse(users.rows, e) then Err("UNIQUE constraint failed: email")
      else Ok((users.Insert(u), users.nextId))
  }

  /** `dict.setdefault` for one optional flag. */
  function SetDefault(v: Option<bool>, d: bool): (r: Option<bool>)
    ensures r.Some?
    ensures v.Some? ==> r == v
    ensures v.None? ==> r.value == d
  {
    if v.Some? then v else Some(d)
  }

  /** `create_user`: both flags default to False, the caller's values stay. */
  function CreateUser(users: Table<SystemUser>, email: string, password: Option<string>, extra: ExtraFields)
    : (r: Result<(Table<SystemUser>, Id), string>)
    requires users.Valid()
    ensures email == "" ==> r.Err?
    ensures email != "" ==> (r.Err? <==> EmailInUse(users.rows, NormalizeEmail(email)))
    ensures r.Ok? ==> r.value.1 in r.value.0.rows
    ensures r.Ok? ==> var u := r.value.0.rows[r.value.1];
      && u.email == NormalizeEmail(email)
      && u.isStaff == (IsTrue(extra.isStaff))
      && u.isSuperuser == (IsTrue(extra.isSuperuser))
      && (extra.role.None? ==> u.role == RoleOperator)
  {
    CreateUserRow(users, email, password,
                  extra.(isStaff := SetDefault(extra.isStaff, false),
                         isSuperuser := SetDefault(extra.isSuperuser, false)))
  }

  /** `create_superuser`: both flags default to True; a flag the caller set
      to anything but True is refused, the staff flag first. */
  function CreateSuperuser(users: Table<SystemUser>, email: string, password: Option<string>, extra: ExtraFields)
    : (r: Result<(Table<SystemUser>, Id), string>)
    requires users.Valid()
    ensures IsFalse(extra.isStaff) ==> r == Err("Superuser must have is_staff=True.")
    ensures !IsFalse(extra.isStaff) && IsFalse(extra.isSuperuser) ==> r == Err("Superuser must have is_superuser=True.")
    ensures r.Ok? ==> r.value.1 in r.value.0.rows
    ensures r.Ok? ==> var u := r.value.0.rows[r.value.1]; u.isStaff && u.isSuperuser
  {
    var x := extra.(isStaff := SetDefault(extra.isStaff, true),
                    isSuperuser := SetDefault(extra.isSuperuser, true));
    if !IsTrue(x.isStaff) then Err("Superuser must have is_staff=True.")
    else if !IsTrue(x.isSuperuser) then Err("Superuser must have is_superuser=True.")
    else CreateUserRow(users, email, password, x)
  }

  /** A superuser request that passes the flag checks is a `create_user` call
      with both flags set; both refuse exactly the same emails. */
  lemma SuperuserIsUserWithBothFlags(users: Table<SystemUser>, email: string, password: Option<string>, extra: ExtraFields)
    requires users.Valid()
    requires !IsFalse(extra.isStaff) && !IsFalse(extra.isSuperuser)
    ensures CreateSuperuser(users, email, password, extra)
         == CreateUser(users, email, password, extra.(isStaff := Some(true), isSuperuser := Some(true)))
  {
  }

  /** Creating a user keeps emails unique. */
  lemma CreateUserRowKeepsUnique(users: Table<SystemUser>, email: string, password: Option<string>, extra: ExtraFields)
    requires users.Valid() && UniqueUserEmails(users.rows)
    ensures var r := CreateUserRow(users, email, password, extra);
      r.Ok? ==> UniqueUserEmails(r.value.0.rows)
  {
    var r := CreateUserRow(users, email, password, extra);
    if r.Ok? {
      var k := r.value.1;
      var rows := r.value.0.rows;
      forall a, b | a in rows && b in rows && a != b ensures rows[a].email != rows[b].email {
        if a == k { assert b in users.rows && !EmailInUse(users.rows, rows[k].email); }
        else if b == k { assert a in users.rows && !EmailInUse(users.rows, rows[k].email); }
      }
    }
  }
}
