/**
 * Accounts: registration with duplicate detection, login by e-mail or NIM, reading and
 * updating one's own profile, and changing the password. Password hashing, hash
 * verification and token signing are library calls, passed in as functions.
 */
module AuthController {
  import opened Wrappers
  import opened Seqs
  import opened Text
  import opened ErrorMiddleware
  import opened Schema

  /** The claims a token carries. */
  datatype Payload = Payload(userId: Id, email: string, role: string)

  /** A user as the API shows it: every column except the password hash. */
  datatype UserView = UserView(
    id: Id, name: string, nim: string, email: string,
    phone: Option<string>, faculty: Option<string>, program: Option<string>,
    role: string, totalBorrowings: int, activeBorrowings: int)

  function View(u: User): (v: UserView)
    ensures v.id == u.id && v.name == u.name && v.nim == u.nim && v.email == u.email
    ensures v.phone == u.phone && v.faculty == u.faculty && v.program == u.program
    ensures v.role == u.role && v.totalBorrowings == u.totalBorrowings && v.activeBorrowings == u.activeBorrowings
  {
    UserView(u.id, u.name, u.nim, u.email, u.phone, u.faculty, u.program, u.role,
             u.totalBorrowings, u.activeBorrowings)
  }

  datatype AuthResult = AuthResult(user: UserView, token: string)

  function PayloadOf(u: User): Payload {
    Payload(u.id, u.email, u.role)
  }

  datatype RegisterBody = RegisterBody(
    name: string, nim: string, email: string, password: string,
    phone: Option<string>, faculty: Option<string>, program: Option<string>,
    role: Option<string>)

  /** Some stored user has this e-mail or this NIM. */
  predicate Registered(users: seq<User>, email: string, nim: string) {
    exists i :: 0 <= i < |users| && (users[i].email == email || users[i].nim == nim)
  }

  const DefaultRole := "USER"

  /** The row `register` stores: the password hashed, the role defaulted, no borrowings yet. */
  function NewUser(body: RegisterBody, id: Id, hash: string -> string): (u: User)
    ensures u.id == id && u.name == body.name && u.nim == body.nim && u.email == body.email
    ensures u.password == hash(body.password)
    ensures u.phone == body.phone && u.faculty == body.faculty && u.program == body.program
    ensures Truthy(body.role) ==> u.role == body.role.value
    ensures !Truthy(body.role) ==> u.role == DefaultRole
    ensures u.totalBorrowings == 0 && u.activeBorrowings == 0
  {
    User(id, body.name, body.nim, body.email, hash(body.password), body.phone, body.faculty,
         body.program, if Truthy(body.role) then body.role.value else DefaultRole, 0, 0)
  }

  /** `register`. */
  method Register(db: Database, body: RegisterBody, hash: string -> string, sign: Payload -> string, newId: Id)
    returns (r: Outcome<AuthResult>)
    requires db.Valid()
    requires FindUser(db.users, newId).None?
    modifies db
    ensures db.Valid()
    ensures db.items == old(db.items) && db.borrowings == old(db.borrowings) && db.categories == old(db.categories)
    ensures Registered(old(db.users), body.email, body.nim) ==>
      FailsWith(r, 409, "Email atau NIM sudah terdaftar") && db.users == old(db.users)
    ensures !Registered(old(db.users), body.email, body.nim) ==>
      var u := NewUser(body, newId, hash);
      && db.users == old(db.users) + [u]
      && r == Ok(AuthResult(View(u), sign(PayloadOf(u))))
  {
    var existing := IndexWhere(db.users, (u: User) => u.email == body.email || u.nim == body.nim);
    if existing.Some? {
      return Throw("Email atau NIM sudah terdaftar", 409);
    }
    var u := NewUser(body, newId, hash);
    db.users := db.users + [u];
    r := Ok(AuthResult(View(u), sign(PayloadOf(u))));
  }

  /** The login field matches a user's e-mail or NIM. */
  predicate Identifies(u: User, login: string) {
    u.email == login || u.nim == login
  }

  function IdentifiedBy(login: string): User -> bool {
    (u: User) => Identifies(u, login)
  }

  /** `users[k]` is the first user the login field identifies (what `findFirst` returns). */
  predicate FirstIdentified(users: seq<User>, login: string, k: int) {
    0 <= k < |users| && Identifies(users[k], login)
    && forall j :: 0 <= j < k ==> !Identifies(users[j], login)
  }

  const BadCredentials := "Email/NIM atau password salah"

  /**
   * `login`: the first user whose e-mail or NIM equals the submitted `email` field, if
   * the password verifies against its hash. Both failures give the same answer.
   */
  function Login(users: seq<User>, login: string, password: string,
                 verify: (string, string) -> bool, sign: Payload -> string): (r: Outcome<AuthResult>)
    ensures r.Ok? ==> exists i :: (0 <= i < |users| && Identifies(users[i], login)
      && verify(password, users[i].password)
      && r.value == AuthResult(View(users[i]), sign(PayloadOf(users[i]))))
    ensures (forall i :: 0 <= i < |users| ==> !Identifies(users[i], login)) ==> FailsWith(r, 401, BadCredentials)
    ensures r.Thrown? ==> FailsWith(r, 401, BadCredentials)
    ensures r.Thrown? ==> forall i :: (0 <= i < |users| && Identifies(users[i], login) ==>
      !verify(password, users[i].password) || exists j :: 0 <= j < i && Identifies(users[j], login))
    ensures r.Ok? <==> exists k :: FirstIdentified(users, login, k) && verify(password, users[k].password)
    ensures forall k :: FirstIdentified(users, login, k) && r.Ok? ==>
      r.value == AuthResult(View(users[k]), sign(PayloadOf(users[k])))
  {
    match IndexWhere(users, IdentifiedBy(login))
    case None => Throw(BadCredentials, 401)
    case Some(k) =>
      assert Identifies(users[k], login);
      if !verify(password, users[k].password) then
        assert forall j :: 0 <= j < k ==> !Identifies(users[j], login) by {
          assert forall j :: 0 <= j < k ==> !IdentifiedBy(login)(users[j]);
        }
        Throw(BadCredentials, 401)
      else
        assert FirstIdentified(users, login, k) by {
          assert forall j :: 0 <= j < k ==> !IdentifiedBy(login)(users[j]);
        }
        Ok(AuthResult(View(users[k]), sign(PayloadOf(users[k]))))
  }

  /** `getMe`. */
  function GetMe(users: seq<User>, userId: Id): (r: Outcome<UserView>)
    ensures r.Ok? ==> exists i :: 0 <= i < |users| && users[i].id == userId && r.value == View(users[i])
    ensures r.Thrown? <==> forall i :: 0 <= i < |users| ==> users[i].id != userId
    ensures r.Thrown? ==> FailsWith(r, 404, "User tidak ditemukan")
  {
    match FindUser(users, userId)
    case None => Throw("User tidak ditemukan", 404)
    case Some(k) => Ok(View(users[k]))
  }

  /** The body of `updateProfile`; Some(None) is an explicit `null`. */
  datatype ProfilePatch = ProfilePatch(
    name: Option<string>,
    phone: Option<Option<string>>,
    faculty: Option<Option<string>>,
    program: Option<Option<string>>)

  /** The profile fields after the update; nothing else in the row can change. */
  function MergeProfile(u: User, patch: ProfilePatch): (r: User)
    ensures r.name == (if Truthy(patch.name) then patch.name.value else u.name)
    ensures r.phone == patch.phone.GetOr(u.phone)
    ensures r.faculty == patch.faculty.GetOr(u.faculty)
    ensures r.program == patch.program.GetOr(u.program)
    ensures r.id == u.id && r.nim == u.nim && r.email == u.email && r.role == u.role && r.password == u.password
    ensures r.totalBorrowings == u.totalBorrowings && r.activeBorrowings == u.activeBorrowings
  {
    u.(name := if Truthy(patch.name) then patch.name.value else u.name,
       phone := patch.phone.GetOr(u.phone),
       faculty := patch.faculty.GetOr(u.faculty),
       program := patch.program.GetOr(u.program))
  }

  /** `updateProfile` on the caller's own row; a row that has gone is the ORM's not-found. */
  method UpdateProfile(db: Database, userId: Id, patch: ProfilePatch) returns (r: Outcome<UserView>)
    requires db.Valid()
    modifies db
    ensures db.Valid()
    ensures db.items == old(db.items) && db.borrowings == old(db.borrowings) && db.categories == old(db.categories)
    ensures FindUser(old(db.users), userId).None? ==>
      FailsWith(r, 404, "Data tidak ditemukan") && db.users == old(db.users)
    ensures FindUser(old(db.users), userId).Some? ==>
      var k := FindUser(old(db.users), userId).value;
      && db.users == old(db.users)[k := MergeProfile(old(db.users)[k], patch)]
      && r == Ok(View(db.users[k]))
  {
    var k := FindUser(db.users, userId);
    if k.None? {
      return RowNotFound();
    }
    var merged := MergeProfile(db.users[k.value], patch);
    db.users := db.users[k.value := merged];
    r := Ok(View(merged));
  }

  /** `changePassword`: only the caller's password hash changes, and only after it verifies. */
  method ChangePassword(db: Database, userId: Id, currentPassword: string, newPassword: string,
                        verify: (string, string) -> bool, hash: string -> string) returns (r: Outcome<()>)
    requires db.Valid()
    modifies db
    ensures db.Valid()
    ensures db.items == old(db.items) && db.borrowings == old(db.borrowings) && db.categories == old(db.categories)
    ensures FindUser(old(db.users), userId).None? ==>
      FailsWith(r, 404, "User tidak ditemukan") && db.users == old(db.users)
    ensures var k := FindUser(old(db.users), userId);
      k.Some? && !verify(currentPassword, old(db.users)[k.value].password) ==>
      FailsWith(r, 401, "Password lama salah") && db.users == old(db.users)
    ensures var k := FindUser(old(db.users), userId);
      k.Some? && verify(currentPassword, old(db.users)[k.value].password) ==>
      && r == Ok(())
      && db.users == old(db.users)[k.value := old(db.users)[k.value].(password := hash(newPassword))]
  {
    var k := FindUser(db.users, userId);
    if k.None? {
      return Throw("User tidak ditemukan", 404);
    }
    var user := db.users[k.value];
    if !verify(currentPassword, user.password) {
      return Throw("Password lama salah", 401);
    }
    db.users := db.users[k.value := user.(password := hash(newPassword))];
    r := Ok(());
  }
}
