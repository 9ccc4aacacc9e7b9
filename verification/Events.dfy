/** The validated events of the provisioning queue. */
module Events {
  import opened Text
  import opened Schema

  datatype RoleEntry = RoleEntry(role: string, context: string, school: string)
  datatype GuardianRole = GuardianRole(app: string, namespace: string, name: string)

  datatype UserPayload = UserPayload(
    id: Id, dn: Dn, username: string, firstname: string, lastname: string, disabled: bool,
    email: Option<string>, birthday: Option<string>, expiry: Option<string>,
    recordUid: Option<string>, sourceUid: Option<string>,
    schools: seq<string>, roles: seq<RoleEntry>,
    groups: seq<Dn>, wards: seq<Dn>, guardians: seq<Dn>,
    properties: Properties)

  datatype GroupPayload = GroupPayload(
    id: Id, dn: Dn, name: string, email: Option<string>, description: Option<string>,
    roles: seq<RoleEntry>, memberRoles: seq<GuardianRole>,
    users: seq<Dn>, senderUsers: seq<Dn>, senderGroups: seq<Dn>,
    properties: Properties)

  /** A file server reference: UDM gives a DN, older data a bare host name. */
  datatype ServerRef = ByDn(dn: Dn) | ByName(name: string)

  datatype SchoolPayload = SchoolPayload(
    id: Id, dn: Dn, name: string, displayName: string,
    classServer: Option<ServerRef>, homeServer: Option<ServerRef>,
    properties: Properties)

  datatype ServerKind = Educational | Administrative

  datatype Event =
    | UserCreate(user: UserPayload)
    | UserModify(user: UserPayload)
    | UserDelete(id: Id)
    | GroupCreate(group: GroupPayload)
    | GroupModify(group: GroupPayload)
    | GroupDelete(id: Id)
    | SchoolCreate(school: SchoolPayload)
    | SchoolModify(school: SchoolPayload)
    | SchoolDelete(id: Id)
    | HostGroupSet(kind: ServerKind, schoolName: string, hosts: seq<Dn>)
    | HostGroupDelete(kind: ServerKind, schoolName: string)

  const UDM_DENYLIST := {"jpegPhoto", "password"}

  function UdmProperties(properties: Properties): Properties {
    properties - UDM_DENYLIST
  }

  function OrDefault(value: Option<string>, default: string): string {
    if value.Some? && value.value != "" then value.value else default
  }

  function HostName(dn: Dn): string {
    if dn == [] then "" else dn[0].value
  }

  function ServerHostname(server: Option<ServerRef>): Option<string> {
    match server
    case None => None
    case Some(ByDn(dn)) => Some(HostName(dn))
    case Some(ByName(name)) => if name == "" then None else Some(name)
  }

  /** The school a group belongs to: that of its first role, or its name's prefix. */
  function GroupSchoolName(p: GroupPayload): string {
    if p.roles != [] then p.roles[0].school else Before(p.name, '-')
  }

  /** `ucsschoolRole` strings and guardian roles, resolved by name. */
  function RolesNamed(c: Cache, roles: seq<RoleEntry>): set<string> {
    (set r | r in roles :: r.role) * c.roles
  }

  function GuardianRolesNamed(c: Cache, roles: seq<GuardianRole>): set<string> {
    (set r | r in roles :: r.name) * c.roles
  }

  /** The user an event is about, if any. */
  predicate AboutUser(e: Event, u: Id) {
    match e
    case UserCreate(p) => p.id == u
    case UserModify(p) => p.id == u
    case UserDelete(id) => id == u
    case _ => false
  }

  predicate AboutGroup(e: Event, g: Id) {
    match e
    case GroupCreate(p) => p.id == g
    case GroupModify(p) => p.id == g
    case GroupDelete(id) => id == g
    case _ => false
  }

  predicate WritesUser(e: Event) { e.UserCreate? || e.UserModify? }
  predicate WritesGroup(e: Event) { e.GroupCreate? || e.GroupModify? }
  predicate WritesSchool(e: Event) { e.SchoolCreate? || e.SchoolModify? }
}
