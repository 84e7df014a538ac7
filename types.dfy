/**
 * The shared data model: reservations, their change log, staff roles and
 * the permissions and labels attached to each role.
 */
module Types {
  import opened JsValues

  /** `'aktif' | 'iptal'` */
  datatype Status = Aktif | Iptal

  function StatusName(s: Status): (r: string)
    ensures r == "aktif" || r == "iptal"
  {
    match s
    case Aktif => "aktif"
    case Iptal => "iptal"
  }

  /** The stored status string denotes exactly one status. */
  function ParseStatus(s: string): (r: Option<Status>)
    ensures r.Some? <==> s == "aktif" || s == "iptal"
    ensures r.Some? ==> StatusName(r.value) == s
  {
    if s == "aktif" then Some(Aktif) else if s == "iptal" then Some(Iptal) else None
  }

  lemma StatusNameRoundTrip(s: Status)
    ensures ParseStatus(StatusName(s)) == Some(s)
  {
  }

  /** `'bilgi' | 'masa' | 'durum'`: information edit, table assignment, status change. */
  datatype UpdateType = Bilgi | Masa | Durum

  function UpdateTypeName(u: UpdateType): (r: string)
    ensures r in ["bilgi", "masa", "durum"]
  {
    match u
    case Bilgi => "bilgi"
    case Masa => "masa"
    case Durum => "durum"
  }

  lemma UpdateTypeNamesDistinct(u: UpdateType, v: UpdateType)
    ensures UpdateTypeName(u) == UpdateTypeName(v) <==> u == v
  {
  }

  /** One changed field in a change-log entry; old and new values are any
      JavaScript value. */
  datatype Change = Change(field: string, oldValue: JsValue, newValue: JsValue)

  /** One change-log entry. */
  datatype HistoryEntry = HistoryEntry(id: string, timestamp: string, updatedBy: string, changes: seq<Change>)

  /** A stored reservation. Fields that stored documents may lack are
      optional; `childCount` is kept as the JavaScript value it was stored
      as, since the record normaliser can store NaN there. */
  datatype Reservation = Reservation(
    id: string,
    code: string,
    fullName: string,
    phone: string,
    date: string,
    time: string,
    endTime: string,
    guests: int,
    childCount: JsValue,
    notes: Option<string>,
    status: Status,
    createdAt: string,
    updatedAt: string,
    updatedBy: Option<string>,
    updateType: Option<UpdateType>,
    salon: Option<string>,
    masa: Option<string>,
    history: Option<seq<HistoryEntry>>)

  /** `'superadmin' | 'admin' | 'editor' | 'reader'` */
  datatype Role = Superadmin | Admin | Editor | Reader

  function RoleName(r: Role): string
  {
    match r
    case Superadmin => "superadmin"
    case Admin => "admin"
    case Editor => "editor"
    case Reader => "reader"
  }

  /** The role a stored role string denotes, if any. */
  function ParseRole(s: string): (r: Option<Role>)
    ensures r.Some? ==> RoleName(r.value) == s
    ensures r.None? ==> s !in ["superadmin", "admin", "editor", "reader"]
  {
    if s == "superadmin" then Some(Superadmin)
    else if s == "admin" then Some(Admin)
    else if s == "editor" then Some(Editor)
    else if s == "reader" then Some(Reader)
    else None
  }

  lemma RoleNameRoundTrip(r: Role)
    ensures ParseRole(RoleName(r)) == Some(r)
  {
  }

  /** A staff account record. */
  datatype User = User(
    id: string,
    email: string,
    name: string,
    role: Role,
    createdAt: string,
    isActive: bool,
    createdBy: Option<string>,
    updatedAt: Option<string>,
    updatedBy: Option<string>)

  datatype Permissions = Permissions(
    canManageUsers: bool,
    canCreateReservations: bool,
    canEditReservations: bool,
    canViewReservations: bool,
    canManageSystem: bool)

  /** `USER_ROLE_PERMISSIONS` */
  function RolePermissions(r: Role): (p: Permissions)
    ensures p.canViewReservations
    ensures p.canManageSystem <==> r == Superadmin
    ensures p.canManageUsers <==> r == Superadmin || r == Admin
    ensures p.canCreateReservations <==> r != Reader
    ensures p.canEditReservations <==> r != Reader
  {
    match r
    case Superadmin => Permissions(true, true, true, true, true)
    case Admin => Permissions(true, true, true, true, false)
    case Editor => Permissions(false, true, true, true, false)
    case Reader => Permissions(false, false, false, true, false)
  }

  /** Every permission of `lo` is also a permission of `hi`. */
  predicate Includes(hi: Permissions, lo: Permissions)
  {
    && (lo.canManageUsers ==> hi.canManageUsers)
    && (lo.canCreateReservations ==> hi.canCreateReservations)
    && (lo.canEditReservations ==> hi.canEditReservations)
    && (lo.canViewReservations ==> hi.canViewReservations)
    && (lo.canManageSystem ==> hi.canManageSystem)
  }

  /** `USER_ROLE_LABELS` */
  function RoleLabel(r: Role): string
  {
    match r
    case Superadmin => "Süper Admin"
    case Admin => "Yönetici"
    case Editor => "Editör"
    case Reader => "Okuyucu"
  }

  /** Each role has its own label. */
  lemma RoleLabelsDistinct(r: Role, s: Role)
    ensures RoleLabel(r) == RoleLabel(s) <==> r == s
  {
  }
}
