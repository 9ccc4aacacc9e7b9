/** What handling one event does to the cache: one database transaction that
    either commits or leaves the cache as it was. */
module Sync {
  import opened Text
  import opened Schema
  import opened Events

  datatype Outcome = Committed(cache: Cache) | Failed

  /** A DN map without the row that holds the DN and the row that holds the id. */
  function Unmapped(dns: map<Dn, Id>, dn: Dn, id: Id): map<Dn, Id> {
    map d | d in dns && d != dn && dns[d] != id :: dns[d]
  }

  /** Replace both rows. The old ones are deleted at once; the new one waits for
      the flush, and no query of the same transaction sees it. */
  function SetMapping(dns: map<Dn, Id>, dn: Dn, id: Id): map<Dn, Id> {
    Unmapped(dns, dn, id)[dn := id]
  }

  /** Rows of a DN map that a deleted row takes along. */
  function DropMapping(dns: map<Dn, Id>, id: Id): map<Dn, Id> {
    map d | d in dns && dns[d] != id :: dns[d]
  }

  /******* Users *******/

  const DEFAULT_NUBUS_SOURCE_UID := "nubus"

  function UserRow(p: UserPayload): User {
    User(p.username, p.firstname, p.lastname, !p.disabled, p.email, p.birthday, p.expiry,
         OrDefault(p.recordUid, p.username), OrDefault(p.sourceUid, DEFAULT_NUBUS_SOURCE_UID),
         UdmProperties(p.properties))
  }

  predicate ValidUser(row: User) {
    ValidUserName(row.name) && row.firstname != "" && row.lastname != ""
    && row.recordUid != "" && row.sourceUid != ""
  }

  predicate UserFits(c: Cache, u: Id, row: User) {
    forall v :: v in c.users && v != u ==> !UsersClash(row, c.users[v])
  }

  function SchoolsOfOu(c: Cache, schools: set<Id>, ou: Option<string>): set<Id>
    requires schools <= c.schools.Keys
  {
    set s | s in schools && ou.Some? && ou.value != "" && Lower(c.schools[s].name) == Lower(ou.value)
  }

  /** The primary school: the one named by the DN's OU, or else the first. */
  function PrimarySchool(c: Cache, schools: set<Id>, ou: Option<string>): Option<Id>
    requires schools <= c.schools.Keys
  {
    var named := SchoolsOfOu(c, schools, ou);
    if named != {} then Some(Least(named))
    else if schools != {} then Some(Least(schools))
    else None
  }

  function MembershipFor(c: Cache, p: UserPayload, schools: set<Id>, s: Id): Membership
    requires s in schools && schools <= c.schools.Keys
  {
    Membership(PrimarySchool(c, schools, SchoolOuFromDn(p.dn)) == Some(s),
               (set r | r in p.roles && r.school == c.schools[s].name :: r.role) * c.roles)
  }

  function UserMemberships(c: Cache, p: UserPayload): map<(Id, Id), Membership> {
    var schools := SchoolsNamed(c, p.schools);
    map k | k in (set s | s in schools :: (p.id, s)) :: MembershipFor(c, p, schools, k.1)
  }

  function UserLinks(c: Cache, p: UserPayload): set<Link> {
    set g | g in GroupsByDns(c, p.groups) && c.groups[g].school in SchoolsNamed(c, p.schools)
      :: Link(g, p.id, c.groups[g].school)
  }

  function GuardiansOf(pairs: set<(Id, Id)>, ward: Id): set<Id> {
    set p | p in pairs && p.1 == ward :: p.0
  }

  function WardsOf(pairs: set<(Id, Id)>, guardian: Id): set<Id> {
    set p | p in pairs && p.0 == guardian :: p.1
  }

  function ReplaceGuardians(pairs: set<(Id, Id)>, u: Id, wanted: set<Id>): set<(Id, Id)> {
    (set p | p in pairs && p.1 != u) + (set g | g in wanted :: (g, u))
  }

  function ReplaceWards(pairs: set<(Id, Id)>, u: Id, wanted: set<Id>): set<(Id, Id)> {
    (set p | p in pairs && p.0 != u) + (set w | w in wanted :: (u, w))
  }

  /** Guardians first, then wards; each only when the stored set differs. */
  function SyncGuardians(pairs: set<(Id, Id)>, u: Id, guardians: set<Id>, wards: set<Id>): set<(Id, Id)> {
    var afterGuardians :=
      if guardians == GuardiansOf(pairs, u) then pairs else ReplaceGuardians(pairs, u, guardians);
    if wards == WardsOf(pairs, u) then afterGuardians else ReplaceWards(afterGuardians, u, wards)
  }

  /** A new row together with its memberships and links. */
  function InsertedUser(c: Cache, p: UserPayload): Cache {
    c.(users := c.users[p.id := UserRow(p)],
       memberships := c.memberships + UserMemberships(c, p),
       members := c.members + UserLinks(c, p),
       guardians := c.guardians
         + (set g | g in UsersByDns(c, p.guardians) :: (g, p.id))
         + (set w | w in UsersByDns(c, p.wards) :: (p.id, w)))
  }

  /** An existing row with everything that hangs on it replaced. */
  function UpdatedUser(c: Cache, p: UserPayload): Cache {
    c.(users := c.users[p.id := UserRow(p)],
       memberships := (map k | k in c.memberships && k.0 != p.id :: c.memberships[k]) + UserMemberships(c, p),
       members := (set l | l in c.members && l.user != p.id) + UserLinks(c, p),
       guardians := SyncGuardians(c.guardians, p.id, UsersByDns(c, p.guardians), UsersByDns(c, p.wards)))
  }

  /** Nothing is validated or written when the patch is empty. */
  function WriteUser(c: Cache, p: UserPayload): Outcome {
    var next := UpdatedUser(c, p);
    if next == c then Committed(c)
    else if ValidUser(UserRow(p)) && UserFits(c, p.id, UserRow(p)) then Committed(next)
    else Failed
  }

  function UnmapUser(c: Cache, p: UserPayload): Cache {
    c.(userDns := Unmapped(c.userDns, p.dn, p.id))
  }

  function MapUser(c: Cache, p: UserPayload): Cache {
    c.(userDns := SetMapping(c.userDns, p.dn, p.id))
  }

  function HandleUserCreate(c: Cache, p: UserPayload): Outcome {
    if SchoolsNamed(c, p.schools) == {} then Committed(c)
    else if p.id in c.users then WriteUser(c, p)
    else if UserFits(c, p.id, UserRow(p)) then Committed(MapUser(InsertedUser(c, p), p))
    else Failed
  }

  function HandleUserModify(c: Cache, p: UserPayload): Outcome {
    if p.id in c.users then
      match WriteUser(UnmapUser(c, p), p)
      case Committed(next) => Committed(MapUser(next, p))
      case Failed => Failed
    else HandleUserCreate(c, p)
  }

  function DeletedUser(c: Cache, u: Id): Cache {
    c.(users := c.users - {u},
       memberships := (map k | k in c.memberships && k.0 != u :: c.memberships[k]),
       members := (set l | l in c.members && l.user != u),
       guardians := (set p | p in c.guardians && p.0 != u && p.1 != u),
       senderUsers := (set p | p in c.senderUsers && p.1 != u),
       userDns := DropMapping(c.userDns, u))
  }

  function HandleUserDelete(c: Cache, u: Id): Outcome {
    if u in c.users then Committed(DeletedUser(c, u)) else Committed(c)
  }

  /******* Groups *******/

  const CONNECTOR_SOURCE_UID := "kelvin-connector"

  function GroupRow(c: Cache, p: GroupPayload, email: Option<string>, sourceUid: string, school: Id): Group {
    Group(p.name, p.name, p.name, sourceUid, email, p.description, true, school,
          RolesNamed(c, p.roles), GuardianRolesNamed(c, p.memberRoles), UdmProperties(p.properties))
  }

  predicate ValidGroup(row: Group) {
    row.name != "" && row.recordUid != "" && row.sourceUid != "" && row.roles != {}
  }

  predicate GroupFits(c: Cache, g: Id, row: Group) {
    forall h :: h in c.groups && h != g ==> !GroupsClash(row, c.groups[h])
  }

  function LinksOf(group: Id, users: set<Id>, school: Id): set<Link> {
    set u | u in users :: Link(group, u, school)
  }

  /** Member lists are compared user by user, and replaced by the memberships
      the wanted users hold of the school the row still has. */
  function SyncMembers(c: Cache, g: Id, wanted: set<Id>): set<Link>
    requires g in c.groups
  {
    if wanted == LinkedUsers(c, g) then c.members
    else
      var school := c.groups[g].school;
      (set l | l in c.members && l.group != g)
      + LinksOf(g, (set u | u in wanted && (u, school) in c.memberships), school)
  }

  function SendersOf(pairs: set<(Id, Id)>, g: Id): set<Id> {
    set p | p in pairs && p.0 == g :: p.1
  }

  function ReplaceSenders(pairs: set<(Id, Id)>, g: Id, wanted: set<Id>): set<(Id, Id)> {
    (set p | p in pairs && p.0 != g) + (set x | x in wanted :: (g, x))
  }

  /** A null mail address keeps the stored one; so does an unknown school. */
  function UpdatedGroupRow(c: Cache, p: GroupPayload, school: Option<Id>): Group
    requires p.id in c.groups
  {
    var stored := c.groups[p.id];
    GroupRow(c, p, if p.email.Some? then p.email else stored.email, stored.sourceUid,
             if school.Some? then school.value else stored.school)
  }

  function UpdatedGroup(c: Cache, p: GroupPayload, school: Option<Id>): Cache
    requires p.id in c.groups
  {
    var row := UpdatedGroupRow(c, p, school);
    c.(groups := c.groups[p.id := row],
       members := SyncMembers(c, p.id, MembersByDns(c, p.users, row.school)),
       senderUsers := ReplaceSenders(c.senderUsers, p.id, UsersByDns(c, p.senderUsers)),
       senderGroups := ReplaceSenders(c.senderGroups, p.id, GroupsByDns(c, p.senderGroups)))
  }

  function WriteGroup(c: Cache, p: GroupPayload, school: Option<Id>): Outcome
    requires p.id in c.groups
  {
    var next := UpdatedGroup(c, p, school);
    var row := UpdatedGroupRow(c, p, school);
    if next == c then Committed(c)
    else if ValidGroup(row) && GroupFits(c, p.id, row) then Committed(next)
    else Failed
  }

  function InsertedGroup(c: Cache, p: GroupPayload, school: Id): Cache {
    c.(groups := c.groups[p.id := GroupRow(c, p, p.email, CONNECTOR_SOURCE_UID, school)],
       members := c.members + LinksOf(p.id, MembersByDns(c, p.users, school), school),
       senderUsers := c.senderUsers + (set u | u in UsersByDns(c, p.senderUsers) :: (p.id, u)),
       senderGroups := c.senderGroups + (set h | h in GroupsByDns(c, p.senderGroups) :: (p.id, h)))
  }

  function UnmapGroup(c: Cache, p: GroupPayload): Cache {
    c.(groupDns := Unmapped(c.groupDns, p.dn, p.id))
  }

  function MapGroup(c: Cache, p: GroupPayload): Cache {
    c.(groupDns := SetMapping(c.groupDns, p.dn, p.id))
  }

  function HandleGroupCreate(c: Cache, p: GroupPayload): Outcome {
    match FindSchool(c, GroupSchoolName(p))
    case None => Committed(c)
    case Some(school) =>
      if p.id in c.groups then WriteGroup(c, p, Some(school))
      else if GroupFits(c, p.id, GroupRow(c, p, p.email, CONNECTOR_SOURCE_UID, school)) then
        Committed(MapGroup(InsertedGroup(c, p, school), p))
      else Failed
  }

  function HandleGroupModify(c: Cache, p: GroupPayload): Outcome {
    if p.id in c.groups then
      var unmapped := UnmapGroup(c, p);
      match WriteGroup(unmapped, p, FindSchool(unmapped, GroupSchoolName(p)))
      case Committed(next) => Committed(MapGroup(next, p))
      case Failed => Failed
    else HandleGroupCreate(c, p)
  }

  function DeletedGroup(c: Cache, g: Id): Cache {
    c.(groups := c.groups - {g},
       members := (set l | l in c.members && l.group != g),
       senderUsers := (set p | p in c.senderUsers && p.0 != g),
       senderGroups := (set p | p in c.senderGroups && p.0 != g && p.1 != g),
       groupDns := DropMapping(c.groupDns, g))
  }

  function HandleGroupDelete(c: Cache, g: Id): Outcome {
    if g in c.groups then Committed(DeletedGroup(c, g)) else Committed(c)
  }

  /******* Schools *******/

  predicate ValidSchool(row: School) {
    ValidSchoolName(row.name) && row.recordUid != "" && row.sourceUid != ""
  }

  predicate SchoolFits(c: Cache, s: Id, row: School) {
    forall t :: t in c.schools && t != s ==> !SchoolsClash(row, c.schools[t])
  }

  function StoreSchool(c: Cache, s: Id, row: School): Outcome {
    if s in c.schools && c.schools[s] == row then Committed(c)
    else if ValidSchool(row) && SchoolFits(c, s, row) then Committed(c.(schools := c.schools[s := row]))
    else Failed
  }

  /** Servers belong to the host group events, the record keys to the creation. */
  function WriteSchool(c: Cache, p: SchoolPayload): Outcome
    requires p.id in c.schools
  {
    StoreSchool(c, p.id, c.schools[p.id].(
      name := p.name, displayName := p.displayName,
      classServer := ServerHostname(p.classServer), homeServer := ServerHostname(p.homeServer),
      udm := UdmProperties(p.properties)))
  }

  function NewSchoolRow(p: SchoolPayload): School {
    School(p.name, p.displayName, p.name, CONNECTOR_SOURCE_UID,
           ServerHostname(p.classServer), ServerHostname(p.homeServer), {}, {},
           UdmProperties(p.properties))
  }

  function UnmapSchool(c: Cache, p: SchoolPayload): Cache {
    c.(schoolDns := Unmapped(c.schoolDns, p.dn, p.id))
  }

  function MapSchool(c: Cache, p: SchoolPayload): Cache {
    c.(schoolDns := SetMapping(c.schoolDns, p.dn, p.id))
  }

  function HandleSchoolCreate(c: Cache, p: SchoolPayload): Outcome {
    if p.id in c.schools then WriteSchool(c, p)
    else if SchoolFits(c, p.id, NewSchoolRow(p)) then
      Committed(MapSchool(c.(schools := c.schools[p.id := NewSchoolRow(p)]), p))
    else Failed
  }

  function HandleSchoolModify(c: Cache, p: SchoolPayload): Outcome {
    if p.id in c.schools then
      match WriteSchool(UnmapSchool(c, p), p)
      case Committed(next) => Committed(MapSchool(next, p))
      case Failed => Failed
    else HandleSchoolCreate(c, p)
  }

  /** Memberships go with their school, and links with their membership. */
  function DeletedSchool(c: Cache, s: Id): Cache {
    c.(schools := c.schools - {s},
       memberships := (map k | k in c.memberships && k.1 != s :: c.memberships[k]),
       members := (set l | l in c.members && l.school != s),
       schoolDns := DropMapping(c.schoolDns, s))
  }

  /** The groups' key has no cascade: a group that refers to the school blocks. */
  function HandleSchoolDelete(c: Cache, s: Id): Outcome {
    if s !in c.schools then Committed(c)
    else if exists g :: g in c.groups && c.groups[g].school == s then Failed
    else Committed(DeletedSchool(c, s))
  }

  function SchoolsMatching(c: Cache, pattern: string): set<Id> {
    set s | s in c.schools && GlobMatchesCi(pattern, c.schools[s].name)
  }

  function SetServers(c: Cache, kind: ServerKind, pattern: string, hosts: set<string>, missingOk: bool): Outcome {
    var found := SchoolsMatching(c, pattern);
    if found == {} then (if missingOk then Committed(c) else Failed)
    else
      var s := Least(found);
      StoreSchool(c, s, match kind
                        case Educational => c.schools[s].(educationalServers := hosts)
                        case Administrative => c.schools[s].(administrativeServers := hosts))
  }

  /******* Any event *******/

  function Handle(c: Cache, e: Event): Outcome {
    match e
    case UserCreate(p) => HandleUserCreate(c, p)
    case UserModify(p) => HandleUserModify(c, p)
    case UserDelete(id) => HandleUserDelete(c, id)
    case GroupCreate(p) => HandleGroupCreate(c, p)
    case GroupModify(p) => HandleGroupModify(c, p)
    case GroupDelete(id) => HandleGroupDelete(c, id)
    case SchoolCreate(p) => HandleSchoolCreate(c, p)
    case SchoolModify(p) => HandleSchoolModify(c, p)
    case SchoolDelete(id) => HandleSchoolDelete(c, id)
    case HostGroupSet(kind, name, hosts) => SetServers(c, kind, name, (set h | h in hosts :: HostName(h)), false)
    case HostGroupDelete(kind, name) => SetServers(c, kind, name, {}, true)
  }

  /** A failed transaction rolls back. */
  function Apply(c: Cache, e: Event): Cache {
    match Handle(c, e)
    case Committed(next) => next
    case Failed => c
  }

  function Run(c: Cache, events: seq<Event>): Cache
    decreases |events|
  {
    if events == [] then c else Apply(Run(c, events[..|events| - 1]), events[|events| - 1])
  }
}
