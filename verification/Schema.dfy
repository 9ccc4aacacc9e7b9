/** The relational cache: rows, link tables, DN maps, and what the database
    constraints demand of them. */
module Schema {
  import opened Text

  /** A public id. Queries without a sort order return rows by public id. */
  type Id = nat

  type Properties = map<string, string>

  datatype School = School(
    name: string, displayName: string, recordUid: string, sourceUid: string,
    classServer: Option<string>, homeServer: Option<string>,
    educationalServers: set<string>, administrativeServers: set<string>,
    udm: Properties)

  datatype User = User(
    name: string, firstname: string, lastname: string, active: bool,
    email: Option<string>, birthday: Option<string>, expiration: Option<string>,
    recordUid: string, sourceUid: string, udm: Properties)

  datatype Group = Group(
    name: string, displayName: string, recordUid: string, sourceUid: string,
    email: Option<string>, description: Option<string>, hasShare: bool,
    school: Id, roles: set<string>, memberRoles: set<string>, udm: Properties)

  datatype Membership = Membership(primary: bool, roles: set<string>)

  /** A row of the group/member table: a group and a (user, school) membership. */
  datatype Link = Link(group: Id, user: Id, school: Id)

  datatype Cache = Cache(
    roles: set<string>,
    schools: map<Id, School>,
    users: map<Id, User>,
    groups: map<Id, Group>,
    memberships: map<(Id, Id), Membership>,  // keyed by (user, school)
    members: set<Link>,
    guardians: set<(Id, Id)>,                // (guardian, ward)
    senderUsers: set<(Id, Id)>,              // (group, user)
    senderGroups: set<(Id, Id)>,             // (group, group)
    schoolDns: map<Dn, Id>,
    groupDns: map<Dn, Id>,
    userDns: map<Dn, Id>)

  /******* The constraints of the schema *******/

  ghost predicate MembershipKeys(memberships: map<(Id, Id), Membership>, users: set<Id>, schools: set<Id>) {
    forall k :: k in memberships ==> k.0 in users && k.1 in schools
  }

  ghost predicate GroupKeys(groups: map<Id, Group>, schools: set<Id>) {
    forall g :: g in groups ==> groups[g].school in schools
  }

  ghost predicate MemberKeys(members: set<Link>, groups: set<Id>, memberships: set<(Id, Id)>) {
    forall l :: l in members ==> l.group in groups && (l.user, l.school) in memberships
  }

  ghost predicate PairKeys(pairs: set<(Id, Id)>, left: set<Id>, right: set<Id>) {
    forall p :: p in pairs ==> p.0 in left && p.1 in right
  }

  /** Foreign keys of rows and link tables. */
  ghost predicate ForeignKeys(c: Cache) {
    && MembershipKeys(c.memberships, c.users.Keys, c.schools.Keys)
    && GroupKeys(c.groups, c.schools.Keys)
    && MemberKeys(c.members, c.groups.Keys, c.memberships.Keys)
    && PairKeys(c.guardians, c.users.Keys, c.users.Keys)
    && PairKeys(c.senderUsers, c.groups.Keys, c.users.Keys)
    && PairKeys(c.senderGroups, c.groups.Keys, c.groups.Keys)
  }

  /** A DN map is a bijection between DNs and some existing rows. */
  ghost predicate DnBijection(dns: map<Dn, Id>, rows: set<Id>) {
    && (forall d :: d in dns ==> dns[d] in rows)
    && (forall d, e :: d in dns && e in dns && dns[d] == dns[e] ==> d == e)
  }

  ghost predicate DnMaps(c: Cache) {
    && DnBijection(c.schoolDns, c.schools.Keys)
    && DnBijection(c.groupDns, c.groups.Keys)
    && DnBijection(c.userDns, c.users.Keys)
  }

  /** The internally managed column that carries the one-primary constraint. */
  function PrimaryUserConstraint(user: Id, m: Membership): Option<Id> {
    if m.primary then Some(user) else None
  }

  /** Its unique key: NULLs do not clash, equal values do. */
  ghost predicate OnePrimary(memberships: map<(Id, Id), Membership>) {
    forall j, k :: j in memberships && k in memberships && j != k
      && PrimaryUserConstraint(j.0, memberships[j]).Some?
      ==> PrimaryUserConstraint(j.0, memberships[j]) != PrimaryUserConstraint(k.0, memberships[k])
  }

  predicate UsersClash(a: User, b: User) {
    || a.name == b.name
    || (a.email.Some? && a.email == b.email)
    || (a.recordUid == b.recordUid && a.sourceUid == b.sourceUid)
  }

  predicate GroupsClash(a: Group, b: Group) {
    || a.name == b.name
    || (a.email.Some? && a.email == b.email)
    || (a.recordUid == b.recordUid && a.sourceUid == b.sourceUid)
  }

  predicate SchoolsClash(a: School, b: School) {
    || a.name == b.name
    || (a.recordUid == b.recordUid && a.sourceUid == b.sourceUid)
  }

  ghost predicate UniqueUsers(users: map<Id, User>) {
    forall i, j :: i in users && j in users && i != j ==> !UsersClash(users[i], users[j])
  }

  ghost predicate UniqueGroups(groups: map<Id, Group>) {
    forall i, j :: i in groups && j in groups && i != j ==> !GroupsClash(groups[i], groups[j])
  }

  ghost predicate UniqueSchools(schools: map<Id, School>) {
    forall i, j :: i in schools && j in schools && i != j ==> !SchoolsClash(schools[i], schools[j])
  }

  ghost predicate UniqueKeys(c: Cache) {
    UniqueUsers(c.users) && UniqueGroups(c.groups) && UniqueSchools(c.schools)
  }

  /** What every committed state of the database satisfies. */
  ghost predicate Valid(c: Cache) {
    ForeignKeys(c) && DnMaps(c) && OnePrimary(c.memberships) && UniqueKeys(c)
  }

  ghost predicate LinksInSchool(members: set<Link>, groups: map<Id, Group>) {
    forall l :: l in members && l.group in groups ==> groups[l.group].school == l.school
  }

  /** Not a database constraint: a group's links go through memberships of the
      group's own school. */
  ghost predicate SameSchool(c: Cache) {
    LinksInSchool(c.members, c.groups)
  }

  /******* Reading the cache *******/

  ghost predicate Linked(c: Cache, group: Id, user: Id) {
    exists s :: Link(group, user, s) in c.members
  }

  function LinkedUsers(c: Cache, group: Id): set<Id> {
    set l | l in c.members && l.group == group :: l.user
  }

  function SchoolsNamed(c: Cache, names: seq<string>): set<Id> {
    set s | s in c.schools && c.schools[s].name in names
  }

  /** The smallest of some ids: the first row a query returns. */
  function Least(s: set<Id>): (m: Id)
    requires s != {}
    ensures m in s && forall x :: x in s ==> m <= x
  {
    LeastExists(s);
    var m :| m in s && forall x :: x in s ==> m <= x;
    m
  }

  lemma LeastExists(s: set<Id>)
    requires s != {}
    ensures exists m :: m in s && forall x :: x in s ==> m <= x
  {
    var y :| y in s;
    LeastUpTo(s, y);
  }

  lemma LeastUpTo(s: set<Id>, y: Id)
    requires y in s
    ensures exists m :: m in s && forall x :: x in s ==> m <= x
    decreases y
  {
    if x :| x in s && x < y {
      LeastUpTo(s, x);
    } else {
      assert y in s && forall x :: x in s ==> y <= x;
    }
  }

  function FindSchool(c: Cache, name: string): Option<Id> {
    var found := SchoolsNamed(c, [name]);
    if found == {} then None else Some(Least(found))
  }

  /** The ids of the references that the mapper knows. */
  function Resolve(dns: map<Dn, Id>, refs: seq<Dn>): set<Id> {
    set d | d in refs && d in dns :: dns[d]
  }

  function UsersByDns(c: Cache, refs: seq<Dn>): set<Id> {
    Resolve(c.userDns, refs) * c.users.Keys
  }

  function GroupsByDns(c: Cache, refs: seq<Dn>): set<Id> {
    (set d | d in refs && !UnsyncableGroupDn(d) && d in c.groupDns :: c.groupDns[d]) * c.groups.Keys
  }

  /** Only users that hold a membership of the school. */
  function MembersByDns(c: Cache, refs: seq<Dn>, school: Id): set<Id> {
    set u | u in UsersByDns(c, refs) && (u, school) in c.memberships
  }

  /******* Facts about the lookups *******/

  lemma UsersByDnsIff(c: Cache, refs: seq<Dn>, dn: Dn)
    requires DnBijection(c.userDns, c.users.Keys) && dn in c.userDns
    ensures c.userDns[dn] in UsersByDns(c, refs) <==> dn in refs
  {
  }

  lemma GroupsByDnsIff(c: Cache, refs: seq<Dn>, dn: Dn)
    requires DnBijection(c.groupDns, c.groups.Keys) && dn in c.groupDns
    ensures c.groupDns[dn] in GroupsByDns(c, refs) <==> dn in refs && !UnsyncableGroupDn(dn)
  {
  }

  /** With unique names, a name finds its school. */
  lemma FindSchoolIff(c: Cache, name: string, s: Id)
    requires UniqueSchools(c.schools)
    ensures FindSchool(c, name) == Some(s) <==> s in c.schools && c.schools[s].name == name
  {
    if s in c.schools && c.schools[s].name == name {
      assert s in SchoolsNamed(c, [name]);
    }
  }
}
