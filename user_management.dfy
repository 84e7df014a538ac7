/**
 * The staff-management page: who may open it, whom an actor may manage, and
 * the guards of the activate/deactivate and delete actions.
 */
module UserManagement {
  import opened JsValues
  import opened Types
  import opened Users
  import opened Notices
  import EditUser

  /** The signed-in account as the page sees it; its role may be missing. */
  datatype Viewer = Viewer(uid: string, email: Option<string>, role: Option<Role>)

  const AccessDeniedMessage: string := "Bu sayfaya erişim yetkiniz bulunmuyor"
  const NotPermittedMessage: string := "Bu işlem için yetkiniz bulunmuyor"
  const StatusUpdateFailedMessage: string := "Durum güncellenirken bir hata oluştu"
  const OnlySuperadminDeletesMessage: string := "Sadece süper adminler kullanıcı silebilir"
  const SelfDeleteMessage: string := "Kendi hesabınızı silemezsiniz"
  const UserDeletedMessage: string := "Kullanıcı başarıyla silindi"
  const UserDeleteFailedMessage: string := "Kullanıcı silinirken bir hata oluştu"

  function StatusUpdatedMessage(active: bool): string
  {
    "Kullanıcı durumu " + (if active then "aktif" else "pasif") + " olarak güncellendi"
  }

  /** The page opens only for a signed-in admin or superadmin. */
  function CanAccessPage(viewer: Option<Viewer>): (b: bool)
    ensures b <==> viewer.Some? && (viewer.value.role == Some(Admin) || viewer.value.role == Some(Superadmin))
  {
    viewer.Some? && viewer.value.role.Some? && RoleName(viewer.value.role.value) in ["admin", "superadmin"]
  }

  /** `canManageUser` */
  function CanManageUser(actor: Role, target: Role): (b: bool)
    ensures actor == Superadmin ==> b
    ensures actor == Admin ==> (b <==> Level(target) < Level(Admin))
    ensures actor == Editor || actor == Reader ==> !b
  {
    if actor == Superadmin then true
    else if actor == Admin then RoleName(target) in ["editor", "reader"]
    else false
  }

  /** The page and the account service agree: an actor may manage exactly the
      accounts whose role it could change to a role below admin. The account
      editor's rule is wider: an admin may edit an admin there. */
  lemma ManageRuleAgainstOtherRules(actor: Role, target: Role)
    ensures CanManageUser(actor, target) <==> CanUpdateRole(actor, target, Reader)
    ensures EditUser.CanUpdateUserRole(Admin, Admin) && !CanManageUser(Admin, Admin)
  {
  }

  /** `updateDoc(doc(db, collection, id), { isActive, updatedAt, updatedBy })` */
  datatype StatusWrite = StatusWrite(collection: string, id: string, isActive: bool,
                                     updatedAt: string, updatedBy: Option<string>)

  datatype StatusOutcome = StatusOutcome(write: Option<StatusWrite>, toast: Toast)

  /** `handleStatusChange`: refused without a role or without the right to
      manage the target; otherwise the account's `isActive` is flipped. The
      write goes to the `users` collection. */
  function HandleStatusChange(viewer: Option<Viewer>, user: User, now: string, writeFails: bool): (o: StatusOutcome)
    ensures o.write.Some? <==> viewer.Some? && viewer.value.role.Some? && CanManageUser(viewer.value.role.value, user.role)
    ensures o.write.None? ==> o.toast == Error(NotPermittedMessage)
    ensures o.write.Some? ==> o.write.value == StatusWrite("users", user.id, !user.isActive, now, viewer.value.email)
    ensures o.write.Some? && !writeFails ==> o.toast == Success(StatusUpdatedMessage(!user.isActive))
    ensures o.write.Some? && writeFails ==> o.toast == Error(StatusUpdateFailedMessage)
  {
    if viewer.None? || viewer.value.role.None? || !CanManageUser(viewer.value.role.value, user.role) then
      StatusOutcome(None, Error(NotPermittedMessage))
    else
      var newStatus := !user.isActive;
      var w := StatusWrite("users", user.id, newStatus, now, viewer.value.email);
      if writeFails then StatusOutcome(Some(w), Error(StatusUpdateFailedMessage))
      else StatusOutcome(Some(w), Success(StatusUpdatedMessage(newStatus)))
  }

  /** Applying the same status change twice restores the flag. */
  lemma StatusChangeTwiceRestores(viewer: Option<Viewer>, user: User, t1: string, t2: string)
    requires HandleStatusChange(viewer, user, t1, false).write.Some?
    ensures var u1 := user.(isActive := HandleStatusChange(viewer, user, t1, false).write.value.isActive);
      HandleStatusChange(viewer, u1, t2, false).write.value.isActive == user.isActive
  {
  }

  /** `deleteDoc(doc(db, 'administrators', id))` when `deleted` is some id. */
  datatype DeleteOutcome = DeleteOutcome(deleted: Option<string>, toast: Option<Toast>)

  /** `handleDeleteUser`: only a superadmin deletes, never its own account,
      and only after confirming. */
  function HandleDeleteUser(viewer: Option<Viewer>, user: User, confirmed: bool, deleteFails: bool): (o: DeleteOutcome)
    ensures o.deleted.Some? <==>
      viewer.Some? && viewer.value.role == Some(Superadmin) && user.id != viewer.value.uid && confirmed
    ensures o.deleted.Some? ==> o.deleted.value == user.id
    ensures !(viewer.Some? && viewer.value.role == Some(Superadmin)) ==> o.toast == Some(Error(OnlySuperadminDeletesMessage))
    ensures viewer.Some? && viewer.value.role == Some(Superadmin) && user.id == viewer.value.uid ==>
      o.toast == Some(Error(SelfDeleteMessage))
    ensures o.toast.None? <==> o.deleted.None? && viewer.Some? && viewer.value.role == Some(Superadmin)
                               && user.id != viewer.value.uid
    ensures o.deleted.Some? ==>
      o.toast == Some(if deleteFails then Error(UserDeleteFailedMessage) else Success(UserDeletedMessage))
  {
    if viewer.None? || viewer.value.role != Some(Superadmin) then DeleteOutcome(None, Some(Error(OnlySuperadminDeletesMessage)))
    else if user.id == viewer.value.uid then DeleteOutcome(None, Some(Error(SelfDeleteMessage)))
    else if !confirmed then DeleteOutcome(None, None)
    else if deleteFails then DeleteOutcome(Some(user.id), Some(Error(UserDeleteFailedMessage)))
    else DeleteOutcome(Some(user.id), Some(Success(UserDeletedMessage)))
  }
}
