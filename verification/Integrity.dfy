/** Every handler keeps the constraints of the schema, whatever the event. */
module Integrity {
  import opened Text
  import opened Schema
  import opened Events
  import opened Sync

  /******* DN maps *******/

  lemma SetMappingBijection(dns: map<Dn, Id>, rows: set<Id>, dn: Dn, id: Id)
    requires DnBijection(dns, rows)
    ensures DnBijection(SetMapping(dns, dn, id), rows + {id})
    ensures SetMapping(dns, dn, id)[dn] == id
  {
  }

  lemma UnmappedBijection(dns: map<Dn, Id>, rows: set<Id>, dn: Dn, id: Id)
    requires DnBijection(dns, rows)
    ensures DnBijection(Unmapped(dns, dn, id), rows)
  {
  }

  lemma DropMappingBijection(dns: map<Dn, Id>, rows: set<Id>, id: Id)
    requires DnBijection(dns, rows)
    ensures DnBijection(DropMapping(dns, id), rows - {id})
  {
  }

  /******* Users *******/

  lemma UserMembershipsShape(c: Cache, p: UserPayload)
    ensures forall k :: k in UserMemberships(c, p) <==> k.0 == p.id && k.1 in SchoolsNamed(c, p.schools)
  {
    forall k: (Id, Id) | k.0 == p.id && k.1 in SchoolsNamed(c, p.schools)
      ensures k in UserMemberships(c, p)
    {
      assert k == (p.id, k.1);
    }
  }

  lemma UserLinksShape(c: Cache, p: UserPayload)
    ensures forall l :: l in UserLinks(c, p)
              <==> l.user == p.id && l.group in GroupsByDns(c, p.groups)
                   && l.school == c.groups[l.group].school && l.school in SchoolsNamed(c, p.schools)
  {
    forall l: Link | l.user == p.id && l.group in GroupsByDns(c, p.groups)
      && l.school == c.groups[l.group].school && l.school in SchoolsNamed(c, p.schools)
      ensures l in UserLinks(c, p)
    {
      assert l == Link(l.group, p.id, c.groups[l.group].school);
    }
  }

  lemma ReplaceKeepsMembershipKeys(
      stored: map<(Id, Id), Membership>, wanted: map<(Id, Id), Membership>, u: Id, users: set<Id>, schools: set<Id>)
    requires MembershipKeys(stored, users, schools)
    requires forall k :: k in wanted ==> k.0 == u && k.1 in schools
    ensures MembershipKeys(stored + wanted, users + {u}, schools)
    ensures MembershipKeys((map k | k in stored && k.0 != u :: stored[k]) + wanted, users + {u}, schools)
  {
  }

  lemma SyncGuardiansKeys(pairs: set<(Id, Id)>, u: Id, guardians: set<Id>, wards: set<Id>, users: set<Id>)
    requires PairKeys(pairs, users, users) && u in users && guardians <= users && wards <= users
    ensures PairKeys(SyncGuardians(pairs, u, guardians, wards), users, users)
  {
  }

  lemma UserPairKeys(pairs: set<(Id, Id)>, u: Id, guardians: set<Id>, wards: set<Id>, users: set<Id>)
    requires PairKeys(pairs, users, users) && guardians <= users && wards <= users
    ensures PairKeys(pairs + (set g | g in guardians :: (g, u)) + (set w | w in wards :: (u, w)),
                     users + {u}, users + {u})
  {
  }

  lemma UserMemberKeys(c: Cache, p: UserPayload)
    requires MemberKeys(c.members, c.groups.Keys, c.memberships.Keys)
    ensures MemberKeys(UpdatedUser(c, p).members, c.groups.Keys, UpdatedUser(c, p).memberships.Keys)
    ensures MemberKeys(InsertedUser(c, p).members, c.groups.Keys, InsertedUser(c, p).memberships.Keys)
  {
    UserMembershipsShape(c, p);
    UserLinksShape(c, p);
  }

  lemma UpdatedUserForeignKeys(c: Cache, p: UserPayload)
    requires ForeignKeys(c) && p.id in c.users
    ensures ForeignKeys(UpdatedUser(c, p))
  {
    var next := UpdatedUser(c, p);
    assert next.users.Keys == c.users.Keys + {p.id} == c.users.Keys;
    UserMembershipsShape(c, p);
    ReplaceKeepsMembershipKeys(c.memberships, UserMemberships(c, p), p.id, c.users.Keys, c.schools.Keys);
    UserMemberKeys(c, p);
    SyncGuardiansKeys(c.guardians, p.id, UsersByDns(c, p.guardians), UsersByDns(c, p.wards), c.users.Keys);
  }

  lemma InsertedUserForeignKeys(c: Cache, p: UserPayload)
    requires ForeignKeys(c)
    ensures ForeignKeys(InsertedUser(c, p))
  {
    var next := InsertedUser(c, p);
    assert next.users.Keys == c.users.Keys + {p.id};
    UserMembershipsShape(c, p);
    ReplaceKeepsMembershipKeys(c.memberships, UserMemberships(c, p), p.id, c.users.Keys, c.schools.Keys);
    UserMemberKeys(c, p);
    UserPairKeys(c.guardians, p.id, UsersByDns(c, p.guardians), UsersByDns(c, p.wards), c.users.Keys);
  }

  lemma UserUnique(users: map<Id, User>, u: Id, row: User)
    requires UniqueUsers(users)
    requires forall v :: v in users && v != u ==> !UsersClash(row, users[v])
    ensures UniqueUsers(users[u := row])
  {
  }

  lemma UserMembershipsOnePrimary(c: Cache, p: UserPayload)
    ensures OnePrimary(UserMemberships(c, p))
  {
    UserMembershipsShape(c, p);
  }

  lemma JoinOnePrimary(a: map<(Id, Id), Membership>, b: map<(Id, Id), Membership>, u: Id)
    requires OnePrimary(a) && OnePrimary(b)
    requires forall k :: k in a ==> k.0 != u
    requires forall k :: k in b ==> k.0 == u
    ensures OnePrimary(a + b)
  {
    var m := a + b;
    forall j, k | j in m && k in m && j != k && PrimaryUserConstraint(j.0, m[j]).Some?
      ensures PrimaryUserConstraint(j.0, m[j]) != PrimaryUserConstraint(k.0, m[k])
    {
      if j.0 == u && k.0 == u {
        assert m[j] == b[j] && m[k] == b[k];
      } else if j.0 != u && k.0 != u {
        assert m[j] == a[j] && m[k] == a[k];
      }
    }
  }

  lemma UpdatedUserOnePrimary(c: Cache, p: UserPayload)
    requires OnePrimary(c.memberships)
    ensures OnePrimary(UpdatedUser(c, p).memberships)
  {
    UserMembershipsShape(c, p);
    UserMembershipsOnePrimary(c, p);
    hide OnePrimary, UserMemberships;
    var others := map k | k in c.memberships && k.0 != p.id :: c.memberships[k];
    FewerOnePrimary(others, c.memberships);
    JoinOnePrimary(others, UserMemberships(c, p), p.id);
  }

  lemma FewerOnePrimary(fewer: map<(Id, Id), Membership>, memberships: map<(Id, Id), Membership>)
    requires OnePrimary(memberships) && forall k :: k in fewer ==> k in memberships && fewer[k] == memberships[k]
    ensures OnePrimary(fewer)
  {
  }

  lemma InsertedUserOnePrimary(c: Cache, p: UserPayload)
    requires OnePrimary(c.memberships) && forall k :: k in c.memberships ==> k.0 != p.id
    ensures OnePrimary(InsertedUser(c, p).memberships)
  {
    UserMembershipsShape(c, p);
    UserMembershipsOnePrimary(c, p);
    hide OnePrimary, UserMemberships;
    JoinOnePrimary(c.memberships, UserMemberships(c, p), p.id);
  }

  lemma WriteUserValid(c: Cache, p: UserPayload)
    requires Valid(c) && p.id in c.users && WriteUser(c, p).Committed?
    ensures Valid(WriteUser(c, p).cache)
  {
    if UpdatedUser(c, p) != c {
      var next := UpdatedUser(c, p);
      assert next.users.Keys == c.users.Keys;
      UpdatedUserForeignKeys(c, p);
      UserUnique(c.users, p.id, UserRow(p));
      UpdatedUserOnePrimary(c, p);
    }
  }

  lemma UserCreateValid(c: Cache, p: UserPayload)
    requires Valid(c) && HandleUserCreate(c, p).Committed?
    ensures Valid(HandleUserCreate(c, p).cache)
  {
    if SchoolsNamed(c, p.schools) != {} {
      if p.id in c.users {
        WriteUserValid(c, p);
      } else {
        var next := InsertedUser(c, p);
        assert next.users.Keys == c.users.Keys + {p.id};
        InsertedUserForeignKeys(c, p);
        UserUnique(c.users, p.id, UserRow(p));
        InsertedUserOnePrimary(c, p);
        SetMappingBijection(c.userDns, c.users.Keys, p.dn, p.id);
      }
    }
  }

  lemma UnmapUserValid(c: Cache, p: UserPayload)
    requires Valid(c)
    ensures Valid(UnmapUser(c, p))
  {
    UnmappedBijection(c.userDns, c.users.Keys, p.dn, p.id);
  }

  lemma MapUserValid(c: Cache, p: UserPayload)
    requires Valid(c) && p.id in c.users
    ensures Valid(MapUser(c, p))
  {
    SetMappingBijection(c.userDns, c.users.Keys, p.dn, p.id);
    assert c.users.Keys + {p.id} == c.users.Keys;
  }

  lemma UserModifyValid(c: Cache, p: UserPayload)
    requires Valid(c) && HandleUserModify(c, p).Committed?
    ensures Valid(HandleUserModify(c, p).cache)
  {
    if p.id in c.users {
      var unmapped := UnmapUser(c, p);
      UnmapUserValid(c, p);
      WriteUserValid(unmapped, p);
      var next := WriteUser(unmapped, p).cache;
      assert p.id in next.users;
      hide Valid, WriteUser;
      MapUserValid(next, p);
    } else {
      UserCreateValid(c, p);
    }
  }

  lemma UserDeleteValid(c: Cache, u: Id)
    requires Valid(c)
    ensures Valid(DeletedUser(c, u))
  {
    DropMappingBijection(c.userDns, c.users.Keys, u);
    assert DeletedUser(c, u).users.Keys == c.users.Keys - {u};
  }

  /******* Groups *******/

  lemma ReplaceSendersKeys(pairs: set<(Id, Id)>, g: Id, wanted: set<Id>, left: set<Id>, right: set<Id>)
    requires PairKeys(pairs, left, right) && wanted <= right
    ensures PairKeys(ReplaceSenders(pairs, g, wanted), left + {g}, right + {g})
    ensures g in left ==> PairKeys(ReplaceSenders(pairs, g, wanted), left, right)
    ensures PairKeys(pairs + (set x | x in wanted :: (g, x)), left + {g}, right)
  {
  }

  lemma SyncMembersKeys(c: Cache, g: Id, wanted: set<Id>)
    requires MemberKeys(c.members, c.groups.Keys, c.memberships.Keys) && g in c.groups
    ensures MemberKeys(SyncMembers(c, g, wanted), c.groups.Keys, c.memberships.Keys)
  {
  }

  lemma UpdatedGroupForeignKeys(c: Cache, p: GroupPayload, school: Option<Id>)
    requires ForeignKeys(c) && p.id in c.groups && (school.Some? ==> school.value in c.schools)
    ensures ForeignKeys(UpdatedGroup(c, p, school))
  {
    var next := UpdatedGroup(c, p, school);
    assert next.groups.Keys == c.groups.Keys;
    SyncMembersKeys(c, p.id, MembersByDns(c, p.users, UpdatedGroupRow(c, p, school).school));
    ReplaceSendersKeys(c.senderUsers, p.id, UsersByDns(c, p.senderUsers), c.groups.Keys, c.users.Keys);
    ReplaceSendersKeys(c.senderGroups, p.id, GroupsByDns(c, p.senderGroups), c.groups.Keys, c.groups.Keys);
  }

  lemma InsertedGroupForeignKeys(c: Cache, p: GroupPayload, school: Id)
    requires ForeignKeys(c) && school in c.schools
    ensures ForeignKeys(InsertedGroup(c, p, school))
  {
    var next := InsertedGroup(c, p, school);
    assert next.groups.Keys == c.groups.Keys + {p.id};
    ReplaceSendersKeys(c.senderUsers, p.id, UsersByDns(c, p.senderUsers), c.groups.Keys, c.users.Keys);
    ReplaceSendersKeys(c.senderGroups, p.id, GroupsByDns(c, p.senderGroups), c.groups.Keys, c.groups.Keys);
  }

  lemma GroupUnique(groups: map<Id, Group>, g: Id, row: Group)
    requires UniqueGroups(groups)
    requires forall h :: h in groups && h != g ==> !GroupsClash(row, groups[h])
    ensures UniqueGroups(groups[g := row])
  {
  }

  lemma WriteGroupValid(c: Cache, p: GroupPayload, school: Option<Id>)
    requires Valid(c) && p.id in c.groups && (school.Some? ==> school.value in c.schools)
    requires WriteGroup(c, p, school).Committed?
    ensures Valid(WriteGroup(c, p, school).cache)
  {
    if UpdatedGroup(c, p, school) != c {
      assert UpdatedGroup(c, p, school).groups.Keys == c.groups.Keys;
      UpdatedGroupForeignKeys(c, p, school);
      GroupUnique(c.groups, p.id, UpdatedGroupRow(c, p, school));
    }
  }

  lemma GroupCreateValid(c: Cache, p: GroupPayload)
    requires Valid(c) && HandleGroupCreate(c, p).Committed?
    ensures Valid(HandleGroupCreate(c, p).cache)
  {
    var found := FindSchool(c, GroupSchoolName(p));
    if found.Some? {
      if p.id in c.groups {
        WriteGroupValid(c, p, found);
      } else {
        assert InsertedGroup(c, p, found.value).groups.Keys == c.groups.Keys + {p.id};
        InsertedGroupForeignKeys(c, p, found.value);
        GroupUnique(c.groups, p.id, GroupRow(c, p, p.email, CONNECTOR_SOURCE_UID, found.value));
        SetMappingBijection(c.groupDns, c.groups.Keys, p.dn, p.id);
      }
    }
  }

  lemma UnmapGroupValid(c: Cache, p: GroupPayload)
    requires Valid(c)
    ensures Valid(UnmapGroup(c, p))
  {
    UnmappedBijection(c.groupDns, c.groups.Keys, p.dn, p.id);
  }

  lemma MapGroupValid(c: Cache, p: GroupPayload)
    requires Valid(c) && p.id in c.groups
    ensures Valid(MapGroup(c, p))
  {
    SetMappingBijection(c.groupDns, c.groups.Keys, p.dn, p.id);
    assert c.groups.Keys + {p.id} == c.groups.Keys;
  }

  lemma GroupModifyValid(c: Cache, p: GroupPayload)
    requires Valid(c) && HandleGroupModify(c, p).Committed?
    ensures Valid(HandleGroupModify(c, p).cache)
  {
    if p.id in c.groups {
      var unmapped := UnmapGroup(c, p);
      var found := FindSchool(unmapped, GroupSchoolName(p));
      UnmapGroupValid(c, p);
      WriteGroupValid(unmapped, p, found);
      var next := WriteGroup(unmapped, p, found).cache;
      assert p.id in next.groups;
      hide Valid, WriteGroup;
      MapGroupValid(next, p);
    } else {
      GroupCreateValid(c, p);
    }
  }

  lemma GroupDeleteValid(c: Cache, g: Id)
    requires Valid(c)
    ensures Valid(DeletedGroup(c, g))
  {
    DropMappingBijection(c.groupDns, c.groups.Keys, g);
    assert DeletedGroup(c, g).groups.Keys == c.groups.Keys - {g};
  }

  /******* Schools *******/

  lemma SchoolUnique(schools: map<Id, School>, s: Id, row: School)
    requires UniqueSchools(schools)
    requires forall t :: t in schools && t != s ==> !SchoolsClash(row, schools[t])
    ensures UniqueSchools(schools[s := row])
  {
  }

  lemma PutSchoolValid(c: Cache, s: Id, row: School, dns: map<Dn, Id>)
    requires Valid(c) && SchoolFits(c, s, row) && DnBijection(dns, c.schools.Keys + {s})
    ensures Valid(c.(schools := c.schools[s := row], schoolDns := dns))
  {
    var next := c.(schools := c.schools[s := row], schoolDns := dns);
    assert next.schools.Keys == c.schools.Keys + {s};
    SchoolUnique(c.schools, s, row);
  }

  lemma StoreSchoolValid(c: Cache, s: Id, row: School)
    requires Valid(c) && s in c.schools && StoreSchool(c, s, row).Committed?
    ensures Valid(StoreSchool(c, s, row).cache)
  {
    if c.schools[s] != row {
      assert c.schools.Keys + {s} == c.schools.Keys;
      PutSchoolValid(c, s, row, c.schoolDns);
      assert c.(schools := c.schools[s := row], schoolDns := c.schoolDns) == c.(schools := c.schools[s := row]);
    }
  }

  lemma WriteSchoolValid(c: Cache, p: SchoolPayload)
    requires Valid(c) && p.id in c.schools && WriteSchool(c, p).Committed?
    ensures Valid(WriteSchool(c, p).cache)
  {
    StoreSchoolValid(c, p.id, c.schools[p.id].(
      name := p.name, displayName := p.displayName,
      classServer := ServerHostname(p.classServer), homeServer := ServerHostname(p.homeServer),
      udm := UdmProperties(p.properties)));
  }

  lemma SchoolCreateValid(c: Cache, p: SchoolPayload)
    requires Valid(c) && HandleSchoolCreate(c, p).Committed?
    ensures Valid(HandleSchoolCreate(c, p).cache)
  {
    if p.id in c.schools {
      WriteSchoolValid(c, p);
    } else {
      SetMappingBijection(c.schoolDns, c.schools.Keys, p.dn, p.id);
      PutSchoolValid(c, p.id, NewSchoolRow(p), SetMapping(c.schoolDns, p.dn, p.id));
    }
  }

  lemma SchoolModifyValid(c: Cache, p: SchoolPayload)
    requires Valid(c) && HandleSchoolModify(c, p).Committed?
    ensures Valid(HandleSchoolModify(c, p).cache)
  {
    if p.id in c.schools {
      var unmapped := UnmapSchool(c, p);
      UnmappedBijection(c.schoolDns, c.schools.Keys, p.dn, p.id);
      WriteSchoolValid(unmapped, p);
      var next := WriteSchool(unmapped, p).cache;
      SetMappingBijection(next.schoolDns, next.schools.Keys, p.dn, p.id);
      assert next.schools.Keys + {p.id} == next.schools.Keys;
    } else {
      SchoolCreateValid(c, p);
    }
  }

  lemma SchoolDeleteValid(c: Cache, s: Id)
    requires Valid(c) && HandleSchoolDelete(c, s).Committed?
    ensures Valid(HandleSchoolDelete(c, s).cache)
  {
    if s in c.schools {
      DropMappingBijection(c.schoolDns, c.schools.Keys, s);
      assert DeletedSchool(c, s).schools.Keys == c.schools.Keys - {s};
    }
  }

  lemma SetServersValid(c: Cache, kind: ServerKind, pattern: string, hosts: set<string>, missingOk: bool)
    requires Valid(c) && SetServers(c, kind, pattern, hosts, missingOk).Committed?
    ensures Valid(SetServers(c, kind, pattern, hosts, missingOk).cache)
  {
    var found := SchoolsMatching(c, pattern);
    if found != {} {
      var s := Least(found);
      StoreSchoolValid(c, s, match kind
                             case Educational => c.schools[s].(educationalServers := hosts)
                             case Administrative => c.schools[s].(administrativeServers := hosts));
    }
  }

  /******* Any event, any run *******/

  /** Each transaction keeps foreign keys, DN bijections, the single primary
      membership and the unique keys. */
  lemma ApplyKeepsValid(c: Cache, e: Event)
    requires Valid(c)
    ensures Valid(Apply(c, e))
  {
    if Handle(c, e).Committed? {
      match e
      case UserCreate(p) => UserCreateValid(c, p);
      case UserModify(p) => UserModifyValid(c, p);
      case UserDelete(id) => UserDeleteValid(c, id);
      case GroupCreate(p) => GroupCreateValid(c, p);
      case GroupModify(p) => GroupModifyValid(c, p);
      case GroupDelete(id) => GroupDeleteValid(c, id);
      case SchoolCreate(p) => SchoolCreateValid(c, p);
      case SchoolModify(p) => SchoolModifyValid(c, p);
      case SchoolDelete(id) => SchoolDeleteValid(c, id);
      case HostGroupSet(kind, name, hosts) => SetServersValid(c, kind, name, (set h | h in hosts :: HostName(h)), false);
      case HostGroupDelete(kind, name) => SetServersValid(c, kind, name, {}, true);
    }
  }

  lemma {:induction false} RunKeepsValid(c: Cache, events: seq<Event>)
    requires Valid(c)
    ensures Valid(Run(c, events))
  {
    if events != [] {
      RunKeepsValid(c, events[..|events| - 1]);
      ApplyKeepsValid(Run(c, events[..|events| - 1]), events[|events| - 1]);
    }
  }

  /** The unique column allows each user one primary membership. */
  lemma AtMostOnePrimary(c: Cache, u: Id, s: Id, t: Id)
    requires Valid(c)
    requires (u, s) in c.memberships && (u, t) in c.memberships
    requires c.memberships[(u, s)].primary && c.memberships[(u, t)].primary
    ensures s == t
  {
    assert PrimaryUserConstraint((u, s).0, c.memberships[(u, s)]) == Some(u)
        == PrimaryUserConstraint((u, t).0, c.memberships[(u, t)]);
    assert (u, s) == (u, t);
  }
}
