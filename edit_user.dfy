/**
 * The account editor: the roles it offers, its own role rule, and the
 * validation and ordering of its submit handler. The form's fields are the
 * component's state; the store write and the password change are effects,
 * and whether each of them throws is an input.
 */
module EditUser {
  import opened JsValues
  import opened Types
  import opened Users
  import opened Notices

  /** `getAvailableRoles`: a superadmin or an admin is offered every role up
      to its own level, highest first; anyone else only reader. */
  function AvailableRoles(actor: Role): (r: seq<Role>)
    ensures actor == Superadmin || actor == Admin ==> forall x :: x in r <==> Level(x) <= Level(actor)
    ensures actor == Editor || actor == Reader ==> r == [Reader]
    ensures forall i, j :: 0 <= i < j < |r| ==> Level(r[i]) > Level(r[j])
  {
    match actor
    case Superadmin => [Superadmin, Admin, Editor, Reader]
    case Admin => [Admin, Editor, Reader]
    case _ => [Reader]
  }

  /** `canUpdateUserRole`: the actor's level is at least the target's. */
  predicate CanUpdateUserRole(current: Role, target: Role)
  {
    Level(current) >= Level(target)
  }

  /** The editor's role rule is a total order: reflexive (an admin may edit
      an admin), total, transitive and antisymmetric. */
  lemma CanUpdateUserRoleIsTotalOrder(a: Role, b: Role, c: Role)
    ensures CanUpdateUserRole(a, a)
    ensures CanUpdateUserRole(a, b) || CanUpdateUserRole(b, a)
    ensures CanUpdateUserRole(a, b) && CanUpdateUserRole(b, c) ==> CanUpdateUserRole(a, c)
    ensures CanUpdateUserRole(a, b) && CanUpdateUserRole(b, a) ==> a == b
  {
  }

  /** The editor lets an admin change an admin's role, which the account
      service's rule refuses for every new role. */
  lemma EditorAndServiceDisagreeOnAdmins(next: Role)
    ensures CanUpdateUserRole(Admin, Admin)
    ensures !CanUpdateRole(Admin, Admin, next)
  {
  }

  const ShortPasswordMessage: string := "Şifre en az 6 karakter olmalıdır"
  const PasswordMismatchMessage: string := "Şifreler eşleşmiyor"
  const SuperadminPasswordMessage: string := "Admin kullanıcılar süper admin şifrelerini değiştiremez"
  const PasswordUpdatedMessage: string := "Şifre başarıyla güncellendi"
  const UserUpdatedMessage: string := "Kullanıcı başarıyla güncellendi"
  const UserUpdateFailedMessage: string := "Kullanıcı güncellenirken bir hata oluştu"

  /** `updateDoc(doc(db, 'administrators', id), { name, email, role, updatedAt, updatedBy })` */
  datatype AdminUpdate = AdminUpdate(id: string, name: string, email: string, role: Role,
                                     updatedAt: string, updatedBy: Option<string>)

  /** What the handler does outside the form, in order. */
  datatype Effect =
    | Notify(toast: Toast)
    | WriteAdministrator(update: AdminUpdate)
    | ChangePassword(id: string, password: string)
    | Close

  class EditUserForm {
    const user: User
    const actor: Role
    var name: string
    var email: string
    var role: Role
    var newPassword: string
    var confirmPassword: string
    var showPasswordFields: bool

    /** The form opens on the account's own name, email and role, with the
        password fields empty and hidden. */
    constructor(user: User, actor: Role)
      ensures this.user == user && this.actor == actor
      ensures name == user.name && email == user.email && role == user.role
      ensures newPassword == "" && confirmPassword == "" && !showPasswordFields
    {
      this.user := user;
      this.actor := actor;
      name := user.name;
      email := user.email;
      role := user.role;
      newPassword := "";
      confirmPassword := "";
      showPasswordFields := false;
    }

    /** The role field differs from the account's role, and the actor's level
        is below the account's existing role. */
    predicate RoleChangeRefused()
      reads this
    {
      role != user.role && !CanUpdateUserRole(actor, user.role)
    }

    /** The password fields are shown and one of them is filled, and the pair
        is too short or does not match. */
    predicate PasswordRejected()
      reads this
    {
      && showPasswordFields
      && (newPassword != "" || confirmPassword != "")
      && (|newPassword| < 6 || newPassword != confirmPassword)
    }

    /** An admin may not change a superadmin's password. */
    predicate PasswordChangeForbidden()
      reads this
    {
      actor == Admin && user.role == Superadmin
    }

    /** `handleSubmit`. Validation happens before any write; the profile is
        written before the password is considered. */
    method HandleSubmit(now: string, actorEmail: Option<string>, writeFails: bool, passwordFails: bool)
      returns (effects: seq<Effect>)
      modifies this
      ensures old(RoleChangeRefused()) ==>
        effects == [Notify(Error(RoleChangeRefusedMessage))] && unchanged(this)
      ensures !old(RoleChangeRefused()) && old(PasswordRejected()) ==>
        && effects == [Notify(Error(if |old(newPassword)| < 6 then ShortPasswordMessage else PasswordMismatchMessage))]
        && unchanged(this)
      ensures !old(RoleChangeRefused()) && !old(PasswordRejected()) ==>
        && |effects| >= 2
        && effects[0] == WriteAdministrator(AdminUpdate(user.id, old(name), old(email), old(role), now, actorEmail))
      ensures !old(RoleChangeRefused()) && !old(PasswordRejected()) && writeFails ==>
        effects[1..] == [Notify(Error(UserUpdateFailedMessage))] && unchanged(this)
      ensures !old(RoleChangeRefused()) && !old(PasswordRejected()) && !writeFails
              && old(showPasswordFields) && old(newPassword) != "" && PasswordChangeForbidden() ==>
        effects[1..] == [Notify(Error(SuperadminPasswordMessage))] && unchanged(this)
      ensures !old(RoleChangeRefused()) && !old(PasswordRejected()) && !writeFails
              && !(old(showPasswordFields) && old(newPassword) != "") ==>
        effects[1..] == [Notify(Success(UserUpdatedMessage)), Close]
      ensures !old(RoleChangeRefused()) && !old(PasswordRejected()) && !writeFails
              && old(showPasswordFields) && old(newPassword) != "" && !PasswordChangeForbidden() && passwordFails ==>
        effects[1..] == [ChangePassword(user.id, old(newPassword)), Notify(Error(UserUpdateFailedMessage))]
        && unchanged(this)
      ensures !old(RoleChangeRefused()) && !old(PasswordRejected()) && !writeFails
              && old(showPasswordFields) && old(newPassword) != "" && !PasswordChangeForbidden() && !passwordFails ==>
        effects[1..] == [ChangePassword(user.id, old(newPassword)), Notify(Success(PasswordUpdatedMessage)),
                         Notify(Success(UserUpdatedMessage)), Close]
      ensures ChangePassword(user.id, old(newPassword)) in effects <==>
        && !old(RoleChangeRefused()) && !old(PasswordRejected()) && !writeFails
        && old(showPasswordFields) && old(newPassword) != "" && !PasswordChangeForbidden()
      ensures Close in effects ==>
        && effects[|effects| - 1] == Close
        && newPassword == "" && confirmPassword == "" && !showPasswordFields
        && name == old(name) && email == old(email) && role == old(role)
      ensures Close !in effects ==> unchanged(this)
    {
      if role != user.role && !CanUpdateUserRole(actor, user.role) {
        return [Notify(Error(RoleChangeRefusedMessage))];
      }
      if showPasswordFields && (newPassword != "" || confirmPassword != "") {
        if |newPassword| < 6 {
          return [Notify(Error(ShortPasswordMessage))];
        }
        if newPassword != confirmPassword {
          return [Notify(Error(PasswordMismatchMessage))];
        }
      }
      var updates := AdminUpdate(user.id, name, email, role, now, actorEmail);
      effects := [WriteAdministrator(updates)];
      if writeFails {
        return effects + [Notify(Error(UserUpdateFailedMessage))];
      }
      if showPasswordFields && newPassword != "" {
        if actor == Admin && user.role == Superadmin {
          return effects + [Notify(Error(SuperadminPasswordMessage))];
        }
        effects := effects + [ChangePassword(user.id, newPassword)];
        if passwordFails {
          return effects + [Notify(Error(UserUpdateFailedMessage))];
        }
        effects := effects + [Notify(Success(PasswordUpdatedMessage))];
      }
      effects := effects + [Notify(Success(UserUpdatedMessage)), Close];
      newPassword := "";
      confirmPassword := "";
      showPasswordFields := false;
    }
  }
}
