/**
 * Staff accounts: the numeric role hierarchy, the role-change rule of the
 * account service, and the guards of account creation and update. The
 * account store is an input (the state of the `users` collection) and the
 * write is an output record.
 */
module Users {
  import opened JsValues
  import opened Types

  /** `ROLE_HIERARCHY` */
  function Level(r: Role): nat
  {
    match r
    case Superadmin => 4
    case Admin => 3
    case Editor => 2
    case Reader => 1
  }

  /** The hierarchy is a strict total order: superadmin 4 > admin 3 > editor 2 > reader 1. */
  lemma HierarchyIsStrict(r: Role, s: Role)
    ensures Level(Superadmin) > Level(Admin) > Level(Editor) > Level(Reader) == 1
    ensures Level(r) == Level(s) <==> r == s
  {
  }

  /** Each permission of a role is also held by every role above it. */
  lemma PermissionsAreMonotone(hi: Role, lo: Role)
    requires Level(lo) <= Level(hi)
    ensures Includes(RolePermissions(hi), RolePermissions(lo))
  {
  }

  /** `canUpdateRole`: may `actor` move an account from `current` to `next`? */
  function CanUpdateRole(actor: Role, current: Role, next: Role): (b: bool)
    ensures actor == Superadmin ==> b
    ensures actor == Admin ==> (b <==> current in {Editor, Reader} && next in {Editor, Reader})
    ensures actor == Editor || actor == Reader ==> !b
  {
    if actor == Superadmin then true
    else if actor == Admin then Level(current) < Level(Admin) && Level(next) < Level(Admin)
    else false
  }

  /** Who is signed in, as far as account creation needs it. */
  datatype Session = Session(uid: string, email: Option<string>)

  /** `setDoc(doc(db, 'users', id), user)` */
  datatype UserDoc = UserDoc(id: string, user: User)

  const NoSessionMessage: string := "Kullanıcı oturumu bulunamadı"
  const UserNotFoundMessage: string := "Kullanıcı bulunamadı"
  const RoleChangeRefusedMessage: string := "Bu kullanıcının rolünü değiştirme yetkiniz yok"

  /** `createUser`. `existingUsers` is the size of the `users` collection, or
      the error its query threw; `requested` is the role argument, which
      defaults to reader. */
  method CreateUser(email: string, name: string, requested: Option<Role>, session: Option<Session>,
                    existingUsers: Result<nat>, now: string)
    returns (r: Result<UserDoc>)
    ensures session.None? ==> r == Err(NoSessionMessage)
    ensures session.Some? && existingUsers.Err? ==> r == Err(existingUsers.error)
    ensures session.Some? && existingUsers.Ok? ==>
      && r.Ok?
      && r.value.id == session.value.uid
      && r.value.user == User(session.value.uid, email, name, r.value.user.role, now, true,
                              session.value.email, None, None)
      && (existingUsers.value == 0 ==> r.value.user.role == Superadmin)
      && (existingUsers.value > 0 && requested.Some? ==> r.value.user.role == requested.value)
      && (existingUsers.value > 0 && requested.None? ==> r.value.user.role == Reader)
  {
    var role := if requested.Some? then requested.value else Reader;
    if session.None? {
      return Err(NoSessionMessage);
    }
    var user := session.value;
    if existingUsers.Err? {
      return Err(existingUsers.error);
    }
    if existingUsers.value == 0 {
      role := Superadmin;
    }
    var userData := User(user.uid, email, name, role, now, true, user.email, None, None);
    return Ok(UserDoc(user.uid, userData));
  }

  /** `Partial<User>` as passed to `updateUser`: any property of the account
      may be named, the identity and creation stamps included. */
  datatype UserPatch = UserPatch(
    id: Option<string>,
    email: Option<string>,
    name: Option<string>,
    role: Option<Role>,
    createdAt: Option<string>,
    isActive: Option<bool>,
    createdBy: Option<string>,
    updatedAt: Option<string>,
    updatedBy: Option<string>)

  /** `updateDoc(doc(db, 'users', id), { ...updates, updatedAt, updatedBy })` */
  datatype UserUpdate = UserUpdate(id: string, patch: UserPatch, updatedAt: string, updatedBy: Option<string>)

  /** `updateUser`: the stored account is looked up first (`stored` is the
      document read, or the error it threw); a patch naming a role is refused
      unless the actor may make that role change. */
  method UpdateUser(userId: string, updates: UserPatch, actor: Role, stored: Result<Option<User>>,
                    now: string, actorEmail: Option<string>)
    returns (r: Result<UserUpdate>)
    ensures stored.Err? ==> r == Err(stored.error)
    ensures stored == Ok(None) ==> r == Err(UserNotFoundMessage)
    ensures stored.Ok? && stored.value.Some? && updates.role.Some?
            && !CanUpdateRole(actor, stored.value.value.role, updates.role.value) ==>
      r == Err(RoleChangeRefusedMessage)
    ensures r.Ok? <==>
      && stored.Ok? && stored.value.Some?
      && (updates.role.Some? ==> CanUpdateRole(actor, stored.value.value.role, updates.role.value))
    ensures r.Ok? ==> r.value == UserUpdate(userId, updates, now, actorEmail)
  {
    if stored.Err? {
      return Err(stored.error);
    }
    if stored.value.None? {
      return Err(UserNotFoundMessage);
    }
    var userData := stored.value.value;
    if updates.role.Some? && !CanUpdateRole(actor, userData.role, updates.role.value) {
      return Err(RoleChangeRefusedMessage);
    }
    return Ok(UserUpdate(userId, updates, now, actorEmail));
  }

  /** The account after an update is applied: every property the patch names
      is overwritten, and the handler's own `updatedAt` and `updatedBy`, which
      follow the spread, win over the patch's. */
  function ApplyUpdate(u: User, w: UserUpdate): User
  {
    u.(id := if w.patch.id.Some? then w.patch.id.value else u.id,
       email := if w.patch.email.Some? then w.patch.email.value else u.email,
       name := if w.patch.name.Some? then w.patch.name.value else u.name,
       role := if w.patch.role.Some? then w.patch.role.value else u.role,
       createdAt := if w.patch.createdAt.Some? then w.patch.createdAt.value else u.createdAt,
       isActive := if w.patch.isActive.Some? then w.patch.isActive.value else u.isActive,
       createdBy := if w.patch.createdBy.Some? then w.patch.createdBy else u.createdBy,
       updatedAt := Some(w.updatedAt),
       updatedBy := w.updatedBy)
  }

  /** Through the account service an admin never changes the role of an admin
      or a superadmin, and never grants admin or superadmin; an editor or a
      reader never changes a role. The service does not protect the other
      properties: a patch naming `id` or `createdAt` overwrites them, and only
      a patch that leaves them out keeps them. The stamp is always the
      handler's own. */
  lemma UpdatedRoleNeedsPermission(u: User, w: UserUpdate, actor: Role)
    requires w.patch.role.Some? ==> CanUpdateRole(actor, u.role, w.patch.role.value)
    ensures var v := ApplyUpdate(u, w);
      && (v.role != u.role ==> actor == Superadmin || (actor == Admin && Level(u.role) < 3 && Level(v.role) < 3))
      && (w.patch.id.None? ==> v.id == u.id)
      && (w.patch.createdAt.None? ==> v.createdAt == u.createdAt)
      && (w.patch.createdAt.Some? ==> v.createdAt == w.patch.createdAt.value)
      && v.updatedAt == Some(w.updatedAt) && v.updatedBy == w.updatedBy
  {
  }
}
