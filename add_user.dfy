/**
 * The account creator: the roles it offers, the default permission strings
 * per role, and its submit handler. Account creation in the identity service
 * and the record write are effects; their outcome (the new uid, or the error
 * code thrown) is an input.
 */
module AddUser {
  import opened JsValues
  import opened Types
  import opened Users
  import opened Notices

  /** `getAvailableRoles`: never superadmin; a superadmin or an admin is
      offered every role strictly below its own, anyone else only reader. */
  function AvailableRoles(actor: Role): (r: seq<Role>)
    ensures Superadmin !in r
    ensures actor == Superadmin || actor == Admin ==> forall x :: x in r <==> Level(x) < Level(actor)
    ensures actor == Editor || actor == Reader ==> r == [Reader]
    ensures forall i, j :: 0 <= i < j < |r| ==> Level(r[i]) > Level(r[j])
  {
    match actor
    case Superadmin => [Admin, Editor, Reader]
    case Admin => [Editor, Reader]
    case _ => [Reader]
  }

  /** `getDefaultPermissions` */
  function DefaultPermissions(role: Role): (p: seq<string>)
    ensures "manage:admins" in p <==> role == Superadmin
    ensures "manage:users" in p <==> role == Superadmin || role == Admin
    ensures "read:all" in p <==> role != Reader
    ensures role == Reader ==> p == ["read:reservations"]
  {
    match role
    case Superadmin => ["read:all", "write:all", "manage:users", "manage:admins"]
    case Admin => ["read:all", "write:all", "manage:users"]
    case Editor => ["read:all", "write:reservations"]
    case Reader => ["read:reservations"]
  }

  const ShortPasswordMessage: string := "Şifre en az 6 karakter olmalıdır"
  const UserCreatedMessage: string := "Kullanıcı başarıyla oluşturuldu"
  const EmailInUseMessage: string := "Bu e-posta adresi zaten kullanımda"
  const UserCreateFailedMessage: string := "Kullanıcı oluşturulurken bir hata oluştu"
  const EmailInUseCode: string := "auth/email-already-in-use"

  /** The document written to `administrators/<uid>`. */
  datatype AdminRecord = AdminRecord(id: string, name: string, email: string, role: Role, isActive: bool,
                                     createdAt: string, createdBy: Option<string>, permissions: seq<string>)

  datatype Effect =
    | Notify(toast: Toast)
    | CreateAccount(email: string, password: string)
    | WriteAdministrator(record: AdminRecord)
    | Close

  /** The message for an error code thrown by account creation or the write. */
  function FailureMessage(code: string): (m: string)
    ensures m == EmailInUseMessage <==> code == EmailInUseCode
  {
    if code == EmailInUseCode then EmailInUseMessage else UserCreateFailedMessage
  }

  class AddUserForm {
    var name: string
    var email: string
    var password: string
    var role: Role

    /** The form opens empty, with the reader role selected. */
    constructor()
      ensures name == "" && email == "" && password == "" && role == Reader
    {
      name := "";
      email := "";
      password := "";
      role := Reader;
    }

    /** `handleSubmit`. `signup` is the uid the identity service assigns, or
        the code of the error it throws; `writeError` the code of an error
        thrown by the record write, if any. */
    method HandleSubmit(actorEmail: Option<string>, now: string, signup: Result<string>, writeError: Option<string>)
      returns (effects: seq<Effect>)
      modifies this
      ensures |old(password)| < 6 ==> effects == [Notify(Error(ShortPasswordMessage))] && unchanged(this)
      ensures |old(password)| >= 6 ==> |effects| >= 2 && effects[0] == CreateAccount(old(email), old(password))
      ensures |old(password)| >= 6 && signup.Err? ==>
        effects[1..] == [Notify(Error(FailureMessage(signup.error)))] && unchanged(this)
      ensures |old(password)| >= 6 && signup.Ok? ==>
        && effects[1] == WriteAdministrator(AdminRecord(signup.value, old(name), old(email), old(role), true, now,
                                                        actorEmail, DefaultPermissions(old(role))))
        && (writeError.Some? ==> effects[2..] == [Notify(Error(FailureMessage(writeError.value)))] && unchanged(this))
        && (writeError.None? ==>
              && effects[2..] == [Notify(Success(UserCreatedMessage)), Close]
              && name == "" && email == "" && password == "" && role == Reader)
    {
      if |password| < 6 {
        return [Notify(Error(ShortPasswordMessage))];
      }
      effects := [CreateAccount(email, password)];
      if signup.Err? {
        return effects + [Notify(Error(FailureMessage(signup.error)))];
      }
      var record := AdminRecord(signup.value, name, email, role, true, now, actorEmail, DefaultPermissions(role));
      effects := effects + [WriteAdministrator(record)];
      if writeError.Some? {
        return effects + [Notify(Error(FailureMessage(writeError.value)))];
      }
      effects := effects + [Notify(Success(UserCreatedMessage)), Close];
      name := "";
      email := "";
      password := "";
      role := Reader;
    }
  }
}
