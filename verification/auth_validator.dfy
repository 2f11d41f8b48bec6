/**
 * The validation chains in front of the account routes. The e-mail format check is a
 * library call, passed in as a function. Passwords are never trimmed.
 */
module AuthValidator {
  import opened Wrappers
  import opened Text
  import opened Validation

  datatype RegisterFields = RegisterFields(
    name: Option<string>,
    nim: Option<string>,
    email: Option<string>,
    password: Option<string>,
    phone: Option<string>,
    faculty: Option<string>,
    program: Option<string>)

  /** `registerValidator`; phone, faculty and program are only trimmed, never refused. */
  function RegisterErrors(f: RegisterFields, isEmail: string -> bool): (errs: seq<string>)
    ensures errs == [] <==>
      && !Blank(f.name)
      && |Trim(Field(f.nim))| >= 5
      && !Blank(f.email) && isEmail(Trim(Field(f.email)))
      && |Field(f.password)| >= 6
    ensures Blank(f.name) ==> "Nama tidak boleh kosong" in errs
    ensures Blank(f.nim) ==> "NIM tidak boleh kosong" in errs
    ensures |Trim(Field(f.nim))| < 5 ==> "NIM minimal 5 karakter" in errs
    ensures Blank(f.email) ==> "Email tidak boleh kosong" in errs
    ensures !isEmail(Trim(Field(f.email))) ==> "Format email tidak valid" in errs
    ensures Field(f.password) == "" ==> "Password tidak boleh kosong" in errs
    ensures |Field(f.password)| < 6 ==> "Password minimal 6 karakter" in errs
  {
    var nim := Trim(Field(f.nim));
    var email := Trim(Field(f.email));
    var password := Field(f.password);
    Check(!Blank(f.name), "Nama tidak boleh kosong")
    + Check(nim != "", "NIM tidak boleh kosong")
    + Check(|nim| >= 5, "NIM minimal 5 karakter")
    + Check(email != "", "Email tidak boleh kosong")
    + Check(isEmail(email), "Format email tidak valid")
    + Check(password != "", "Password tidak boleh kosong")
    + Check(|password| >= 6, "Password minimal 6 karakter")
  }

  /** Six spaces are a password: white space counts because the password is not trimmed. */
  lemma BlankPasswordLongEnough(f: RegisterFields, isEmail: string -> bool)
    requires !Blank(f.name) && |Trim(Field(f.nim))| >= 5
    requires !Blank(f.email) && isEmail(Trim(Field(f.email)))
    requires f.password == Some("      ")
    ensures RegisterErrors(f, isEmail) == []
  {
  }

  /** `loginValidator`: the identifier is trimmed, the password is not. */
  function LoginErrors(email: Option<string>, password: Option<string>): (errs: seq<string>)
    ensures errs == [] <==> !Blank(email) && Field(password) != ""
  {
    Check(!Blank(email), "Email tidak boleh kosong")
    + Check(Field(password) != "", "Password tidak boleh kosong")
  }

  /** `updateProfileValidator`: a name may be left out, but not sent blank. */
  function UpdateProfileErrors(name: Option<string>): (errs: seq<string>)
    ensures errs == [] <==> name.None? || !Blank(name)
  {
    if name.None? then [] else Check(!Blank(name), "Nama tidak boleh kosong")
  }

  /** `changePasswordValidator`. */
  function ChangePasswordErrors(currentPassword: Option<string>, newPassword: Option<string>): (errs: seq<string>)
    ensures errs == [] <==> Field(currentPassword) != "" && |Field(newPassword)| >= 6
  {
    Check(Field(currentPassword) != "", "Password lama harus diisi")
    + Check(Field(newPassword) != "", "Password baru harus diisi")
    + Check(|Field(newPassword)| >= 6, "Password baru minimal 6 karakter")
  }
}
