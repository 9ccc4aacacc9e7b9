/** The database session: tables as fields, written statement by statement. */
module Storage {
  import opened Text
  import opened Schema
  import opened Sync

  /** A membership as the synchronisation builds it, keyed by its school. */
  datatype WantedMembership = WantedMembership(primary: bool, roles: set<string>, groups: set<Id>)

  /** Query results come ordered by public id. */
  function Sorted(ids: set<Id>): (r: seq<Id>)
    ensures forall x :: x in r <==> x in ids
    ensures forall i, j :: 0 <= i < j < |r| ==> r[i] < r[j]
  {
    if ids == {} then []
    else
      var m := Least(ids);
      [m] + Sorted(ids - {m})
  }

  predicate PrimaryElsewhere(memberships: map<(Id, Id), Membership>, u: Id, s: Id) {
    exists k :: k in memberships && k.0 == u && k.1 != s && memberships[k].primary
  }

  ghost function WantedTable(u: Id, wanted: map<Id, WantedMembership>): map<(Id, Id), Membership> {
    map k | k in (set s | s in wanted :: (u, s)) :: Membership(wanted[k.1].primary, wanted[k.1].roles)
  }

  ghost function WantedLinks(u: Id, wanted: map<Id, WantedMembership>): set<Link> {
    set s, g | s in wanted && g in wanted[s].groups :: Link(g, u, s)
  }

  ghost predicate AtMostOneWantedPrimary(wanted: map<Id, WantedMembership>) {
    forall s, t :: s in wanted && t in wanted && wanted[s].primary && wanted[t].primary ==> s == t
  }

  /** The user row's memberships in the same shape. */
  function StoredMemberships(c: Cache, u: Id): map<Id, WantedMembership> {
    map s | s in (set k | k in c.memberships && k.0 == u :: k.1)
      :: WantedMembership(c.memberships[(u, s)].primary, c.memberships[(u, s)].roles,
                          set l | l in c.members && l.user == u && l.school == s :: l.group)
  }

  /** The tables after a user row is inserted, and after one is replaced. */
  ghost function WithNewUser(c: Cache, u: Id, row: User, wanted: map<Id, WantedMembership>,
                             guardianIds: set<Id>, wardIds: set<Id>): Cache {
    c.(users := c.users[u := row],
       memberships := c.memberships + WantedTable(u, wanted),
       members := c.members + WantedLinks(u, wanted),
       guardians := c.guardians + (set g | g in guardianIds :: (g, u)) + (set w | w in wardIds :: (u, w)))
  }

  ghost function WithStoredUser(c: Cache, u: Id, row: User, wanted: map<Id, WantedMembership>,
                                guardianIds: set<Id>, wardIds: set<Id>): Cache {
    c.(users := c.users[u := row],
       memberships := (map k | k in c.memberships && k.0 != u :: c.memberships[k]) + WantedTable(u, wanted),
       members := (set l | l in c.members && l.user != u) + WantedLinks(u, wanted),
       guardians := SyncGuardians(c.guardians, u, guardianIds, wardIds))
  }

  function SenderPairs(g: Id, senders: set<Id>): set<(Id, Id)> {
    set x | x in senders :: (g, x)
  }

  function WithNewGroup(c: Cache, g: Id, row: Group, memberIds: set<Id>, userIds: set<Id>, groupIds: set<Id>): Cache {
    c.(groups := c.groups[g := row],
       members := c.members + LinksOf(g, memberIds, row.school),
       senderUsers := c.senderUsers + SenderPairs(g, userIds),
       senderGroups := c.senderGroups + SenderPairs(g, groupIds))
  }

  function WithStoredGroup(c: Cache, g: Id, row: Group, memberIds: set<Id>, userIds: set<Id>, groupIds: set<Id>): Cache
    requires g in c.groups
  {
    c.(groups := c.groups[g := row],
       members := SyncMembers(c, g, memberIds),
       senderUsers := ReplaceSenders(c.senderUsers, g, userIds),
       senderGroups := ReplaceSenders(c.senderGroups, g, groupIds))
  }

  /** DN rows that were added to the session and wait for its flush. */
  datatype Pending = Pending(schoolDns: map<Dn, Id>, groupDns: map<Dn, Id>, userDns: map<Dn, Id>)

  const NOTHING_PENDING := Pending(map[], map[], map[])

  function WithPending(c: Cache, p: Pending): Cache {
    c.(schoolDns := c.schoolDns + p.schoolDns, groupDns := c.groupDns + p.groupDns, userDns := c.userDns + p.userDns)
  }

  class KelvinStorage {
    var roles: set<string>
    var schools: map<Id, School>
    var users: map<Id, User>
    var groups: map<Id, Group>
    var memberships: map<(Id, Id), Membership>
    var members: set<Link>
    var guardians: set<(Id, Id)>
    var senderUsers: set<(Id, Id)>
    var senderGroups: set<(Id, Id)>
    var schoolDns: map<Dn, Id>
    var groupDns: map<Dn, Id>
    var userDns: map<Dn, Id>
    var pending: Pending
    var started: Cache

    /** What the queries of the transaction see: autoflush is off. */
    function Contents(): Cache
      reads this
    {
      Cache(roles, schools, users, groups, memberships, members, guardians, senderUsers, senderGroups,
            schoolDns, groupDns, userDns)
    }

    /******* The transaction *******/

    method Begin()
      modifies this`started, this`pending
      ensures Contents() == old(Contents()) && started == Contents() && pending == NOTHING_PENDING
    {
      started, pending := Contents(), NOTHING_PENDING;
    }

    /** Flush what is pending. */
    method Commit()
      modifies this`schoolDns, this`groupDns, this`userDns, this`pending
      ensures Contents() == WithPending(old(Contents()), old(pending)) && pending == NOTHING_PENDING
    {
      schoolDns, groupDns := schoolDns + pending.schoolDns, groupDns + pending.groupDns;
      userDns := userDns + pending.userDns;
      pending := NOTHING_PENDING;
    }

    /** Bring back what the transaction started from. */
    method Rollback()
      modifies this
      ensures Contents() == old(started) && pending == NOTHING_PENDING
    {
      RestoreRows(started);
      RestoreLinks(started);
      pending := NOTHING_PENDING;
    }

    method RestoreRows(c: Cache)
      modifies this`roles, this`schools, this`users, this`groups, this`memberships, this`members
      ensures roles == c.roles && schools == c.schools && users == c.users && groups == c.groups
      ensures memberships == c.memberships && members == c.members
    {
      roles, schools, users := c.roles, c.schools, c.users;
      groups, memberships, members := c.groups, c.memberships, c.members;
    }

    method RestoreLinks(c: Cache)
      modifies this`guardians, this`senderUsers, this`senderGroups, this`schoolDns, this`groupDns, this`userDns
      ensures guardians == c.guardians && senderUsers == c.senderUsers && senderGroups == c.senderGroups
      ensures schoolDns == c.schoolDns && groupDns == c.groupDns && userDns == c.userDns
    {
      guardians, senderUsers, senderGroups := c.guardians, c.senderUsers, c.senderGroups;
      schoolDns, groupDns, userDns := c.schoolDns, c.groupDns, c.userDns;
    }

    /******* Reads *******/

    method HasUser(u: Id) returns (found: bool)
      ensures found <==> u in Contents().users
    {
      found := u in users;
    }

    /** `get`, or not found. */
    method GetGroup(g: Id) returns (row: Option<Group>)
      ensures row == if g in Contents().groups then Some(Contents().groups[g]) else None
    {
      row := if g in groups then Some(groups[g]) else None;
    }

    method GetSchool(s: Id) returns (row: Option<School>)
      ensures row == if s in Contents().schools then Some(Contents().schools[s]) else None
    {
      row := if s in schools then Some(schools[s]) else None;
    }

    /******* Users *******/

    /** The unique column refuses a second primary membership. */
    method PutMembership(u: Id, s: Id, m: Membership)
      requires m.primary ==> !PrimaryElsewhere(memberships, u, s)
      modifies this`memberships
      ensures memberships == old(memberships)[(u, s) := m]
    {
      memberships := memberships[(u, s) := m];
    }

    /** Delete the memberships of schools that are no longer wanted. */
    method RemoveMemberships(u: Id, wanted: map<Id, WantedMembership>)
      modifies this`memberships, this`members
      ensures forall k :: k in memberships <==> k in old(memberships) && (k.0 == u ==> k.1 in wanted)
      ensures forall k :: k in memberships ==> memberships[k] == old(memberships)[k]
      ensures forall l :: l in members <==>
                l in old(members) && !((l.user, l.school) in old(memberships) && l.user == u && l.school !in wanted)
    {
      var start, startMembers := memberships, members;
      var removed := set k | k in memberships && k.0 == u && k.1 !in wanted;
      var todo := removed;
      while todo != {}
        invariant todo <= removed
        invariant forall k :: k in memberships <==> k in start && (k in removed ==> k in todo)
        invariant forall k :: k in memberships ==> memberships[k] == start[k]
        invariant forall l :: l in members <==>
                    l in startMembers && ((l.user, l.school) in removed ==> (l.user, l.school) in todo)
        decreases |todo|
      {
        var k :| k in todo;
        memberships := memberships - {k};
        members := set l | l in members && (l.user, l.school) != k;
        todo := todo - {k};
      }
    }

    /** Give up the primary flag of kept memberships that are not wanted primary. */
    method DemoteMemberships(u: Id, wanted: map<Id, WantedMembership>)
      requires forall k :: k in memberships && k.0 == u ==> k.1 in wanted
      modifies this`memberships
      ensures memberships.Keys == old(memberships).Keys
      ensures forall k :: k in memberships ==>
                memberships[k] == if k.0 == u && !wanted[k.1].primary then old(memberships)[k].(primary := false)
                                  else old(memberships)[k]
    {
      var kept := memberships;
      var demoted := set k | k in kept && k.0 == u && kept[k].primary && !wanted[k.1].primary;
      var todo := demoted;
      while todo != {}
        invariant todo <= demoted && memberships.Keys == kept.Keys
        invariant forall k :: k in kept ==>
                    memberships[k] == if k in demoted - todo then kept[k].(primary := false) else kept[k]
        decreases |todo|
      {
        var k :| k in todo;
        memberships := memberships[k := memberships[k].(primary := false)];
        todo := todo - {k};
      }
    }

    method PutLinks(u: Id, s: Id, linked: set<Id>)
      modifies this`members
      ensures forall l :: l in members <==> if l.user == u && l.school == s then l.group in linked else l in old(members)
    {
      members := (set l | l in members && !(l.user == u && l.school == s)) + (set g | g in linked :: Link(g, u, s));
      assert forall l: Link :: l == Link(l.group, l.user, l.school);
    }

    method PutOne(u: Id, s: Id, m: WantedMembership)
      requires m.primary ==> !PrimaryElsewhere(memberships, u, s)
      modifies this`memberships, this`members
      ensures memberships == old(memberships)[(u, s) := Membership(m.primary, m.roles)]
      ensures forall l :: l in members <==> if l.user == u && l.school == s then l.group in m.groups else l in old(members)
    {
      PutMembership(u, s, Membership(m.primary, m.roles));
      PutLinks(u, s, m.groups);
    }

    /** One wanted membership of those still to do. */
    method PutNext(u: Id, wanted: map<Id, WantedMembership>, todo: set<Id>, s: Id,
                   ghost start: map<(Id, Id), Membership>, ghost startMembers: set<Link>)
      requires s in todo && todo <= wanted.Keys
      requires AtMostOneWantedPrimary(wanted) && SlotReleased(start, u, wanted)
      requires memberships == start + WantedTable(u, wanted - todo)
      requires forall l :: l in members <==> LinkAfter(startMembers, u, wanted - todo, l)
      modifies this`memberships, this`members
      ensures memberships == start + WantedTable(u, wanted - (todo - {s}))
      ensures forall l :: l in members <==> LinkAfter(startMembers, u, wanted - (todo - {s}), l)
    {
      SlotStaysReleased(start, u, wanted, todo, s);
      GrowTable(start, startMembers, u, wanted, todo, s);
      hide WantedTable, PrimaryElsewhere, LinkAfter;
      PutOne(u, s, wanted[s]);
    }

    /** Create or update the wanted memberships. The primary slot must be free
        or already taken by the wanted one. */
    method PutWanted(u: Id, wanted: map<Id, WantedMembership>)
      requires AtMostOneWantedPrimary(wanted) && SlotReleased(memberships, u, wanted)
      modifies this`memberships, this`members
      ensures memberships == old(memberships) + WantedTable(u, wanted)
      ensures forall l :: l in members <==> LinkAfter(old(members), u, wanted, l)
    {
      ghost var start, startMembers := memberships, members;
      var todo := wanted.Keys;
      hide AtMostOneWantedPrimary, SlotReleased;
      assert wanted - todo == map[];
      assert WantedTable(u, map[]) == map[];
      while todo != {}
        invariant todo <= wanted.Keys
        invariant memberships == start + WantedTable(u, wanted - todo)
        invariant forall l :: l in members <==> LinkAfter(startMembers, u, wanted - todo, l)
        decreases |todo|
      {
        var s :| s in todo;
        PutNext(u, wanted, todo, s, start, startMembers);
        todo := todo - {s};
      }
      assert wanted - todo == wanted;
    }

    /** Replace all memberships of a user and the member links through them:
        the primary slot is released before a membership is promoted. */
    method SyncMemberships(u: Id, wanted: map<Id, WantedMembership>)
      requires MemberKeys(members, groups.Keys, memberships.Keys)
      requires AtMostOneWantedPrimary(wanted)
      modifies this`memberships, this`members
      ensures memberships == (map k | k in old(memberships) && k.0 != u :: old(memberships)[k]) + WantedTable(u, wanted)
      ensures members == (set l | l in old(members) && l.user != u) + WantedLinks(u, wanted)
    {
      ghost var start, startMembers := memberships, members;
      ReleasePrimary(u, wanted);
      ghost var released, releasedMembers := memberships, members;
      ReplacedTable(start, released, u, wanted);
      ReplacedLinks(startMembers, releasedMembers, u, wanted);
      hide SlotReleased, AtMostOneWantedPrimary, WantedTable, WantedLinks, LinkAfter, MemberKeys;
      PutWanted(u, wanted);
    }

    /** Removals and demotions: what is left of the user is wanted, and no flag
        stands in the way of a promotion. */
    method ReleasePrimary(u: Id, wanted: map<Id, WantedMembership>)
      requires MemberKeys(members, groups.Keys, memberships.Keys)
      modifies this`memberships, this`members
      ensures SlotReleased(memberships, u, wanted)
      ensures forall k :: k in memberships <==> k in old(memberships) && (k.0 == u ==> k.1 in wanted)
      ensures forall k :: k in memberships && k.0 != u ==> memberships[k] == old(memberships)[k]
      ensures forall l :: l in members <==> l in old(members) && (l.user == u ==> l.school in wanted)
    {
      RemoveMemberships(u, wanted);
      DemoteMemberships(u, wanted);
    }

    /** Insert a user row with its memberships and relations. */
    method CreateUser(u: Id, row: User, wanted: map<Id, WantedMembership>, guardianIds: set<Id>, wardIds: set<Id>)
      returns (ok: bool)
      requires Valid(Contents()) && u !in Contents().users && AtMostOneWantedPrimary(wanted)
      modifies this`users, this`memberships, this`members, this`guardians
      ensures ok <==> UserFits(old(Contents()), u, row)
      ensures !ok ==> Contents() == old(Contents())
      ensures ok ==> Contents() == WithNewUser(old(Contents()), u, row, wanted, guardianIds, wardIds)
    {
      ValidLinks();
      hide UserFits, WithNewUser, AtMostOneWantedPrimary, Valid, ForeignKeys, MemberKeys;
      ok := UserFits(Contents(), u, row);
      if ok {
        NoRowsOfAbsentUser(Contents(), u);
        InsertUser(u, row, wanted, guardianIds, wardIds);
      }
    }

    lemma ValidLinks()
      requires Valid(Contents())
      ensures ForeignKeys(Contents()) && MemberKeys(members, groups.Keys, memberships.Keys)
    {
    }

    method InsertUser(u: Id, row: User, wanted: map<Id, WantedMembership>, guardianIds: set<Id>, wardIds: set<Id>)
      requires MemberKeys(members, groups.Keys, memberships.Keys) && AtMostOneWantedPrimary(wanted)
      requires memberships == map k | k in memberships && k.0 != u :: memberships[k]
      requires members == set l | l in members && l.user != u
      modifies this`users, this`memberships, this`members, this`guardians
      ensures Contents() == WithNewUser(old(Contents()), u, row, wanted, guardianIds, wardIds)
    {
      hide WantedTable, WantedLinks, MemberKeys, AtMostOneWantedPrimary;
      InsertUserTables(u, row, wanted, guardianIds, wardIds);
    }

    method InsertUserTables(u: Id, row: User, wanted: map<Id, WantedMembership>, guardianIds: set<Id>, wardIds: set<Id>)
      requires MemberKeys(members, groups.Keys, memberships.Keys) && AtMostOneWantedPrimary(wanted)
      requires memberships == map k | k in memberships && k.0 != u :: memberships[k]
      requires members == set l | l in members && l.user != u
      modifies this`users, this`memberships, this`members, this`guardians
      ensures users == old(users)[u := row]
      ensures memberships == old(memberships) + WantedTable(u, wanted)
      ensures members == old(members) + WantedLinks(u, wanted)
      ensures guardians == old(guardians) + (set g | g in guardianIds :: (g, u)) + (set w | w in wardIds :: (u, w))
    {
      hide *;
      users := users[u := row];
      SyncMemberships(u, wanted);
      guardians := guardians + (set g | g in guardianIds :: (g, u)) + (set w | w in wardIds :: (u, w));
    }

    /** Apply a patch to a user; an empty patch touches and validates nothing. */
    method ModifyUser(u: Id, row: User, wanted: map<Id, WantedMembership>, guardianIds: set<Id>, wardIds: set<Id>)
      returns (ok: bool)
      requires Valid(Contents()) && u in Contents().users && AtMostOneWantedPrimary(wanted)
      modifies this`users, this`memberships, this`members, this`guardians
      ensures ok <==> UserPatchEmpty(old(Contents()), u, row, wanted, guardianIds, wardIds)
                      || (ValidUser(row) && UserFits(old(Contents()), u, row))
      ensures !ok ==> Contents() == old(Contents())
      ensures ok ==> Contents() == WithStoredUser(old(Contents()), u, row, wanted, guardianIds, wardIds)
    {
      ValidLinks();
      hide UserPatchEmpty, ValidUser, UserFits, WithStoredUser, AtMostOneWantedPrimary, Valid, ForeignKeys, MemberKeys;
      var empty := UserPatchEmpty(Contents(), u, row, wanted, guardianIds, wardIds);
      ok := empty || (ValidUser(row) && UserFits(Contents(), u, row));
      if empty {
        EmptyUserPatch(Contents(), u, row, wanted, guardianIds, wardIds);
      } else if ok {
        ReplaceUser(u, row, wanted, guardianIds, wardIds);
      }
    }

    method ReplaceUser(u: Id, row: User, wanted: map<Id, WantedMembership>, guardianIds: set<Id>, wardIds: set<Id>)
      requires MemberKeys(members, groups.Keys, memberships.Keys) && AtMostOneWantedPrimary(wanted)
      modifies this`users, this`memberships, this`members, this`guardians
      ensures Contents() == WithStoredUser(old(Contents()), u, row, wanted, guardianIds, wardIds)
    {
      hide WantedTable, WantedLinks, MemberKeys, AtMostOneWantedPrimary, SyncGuardians;
      WriteUserTables(u, row, wanted, guardianIds, wardIds);
    }

    method WriteUserTables(u: Id, row: User, wanted: map<Id, WantedMembership>, guardianIds: set<Id>, wardIds: set<Id>)
      requires MemberKeys(members, groups.Keys, memberships.Keys) && AtMostOneWantedPrimary(wanted)
      modifies this`users, this`memberships, this`members, this`guardians
      ensures users == old(users)[u := row]
      ensures memberships == (map k | k in old(memberships) && k.0 != u :: old(memberships)[k]) + WantedTable(u, wanted)
      ensures members == (set l | l in old(members) && l.user != u) + WantedLinks(u, wanted)
      ensures guardians == SyncGuardians(old(guardians), u, guardianIds, wardIds)
    {
      hide *;
      users := users[u := row];
      SyncMemberships(u, wanted);
      SyncUserGuardians(u, guardianIds, wardIds);
    }

    /** Each direction is replaced only when it differs from what is stored. */
    method SyncUserGuardians(u: Id, guardianIds: set<Id>, wardIds: set<Id>)
      modifies this`guardians
      ensures guardians == SyncGuardians(old(guardians), u, guardianIds, wardIds)
    {
      var stored := guardians;
      if guardianIds != GuardiansOf(stored, u) {
        guardians := ReplaceGuardians(guardians, u, guardianIds);
      }
      if wardIds != WardsOf(stored, u) {
        guardians := ReplaceWards(guardians, u, wardIds);
      }
    }

    method DeleteUser(u: Id) returns (found: bool)
      modifies this`users, this`memberships, this`members, this`guardians, this`senderUsers, this`userDns
      ensures found <==> u in old(Contents()).users
      ensures Contents() == if found then DeletedUser(old(Contents()), u) else old(Contents())
    {
      found := u in users;
      if found {
        users := users - {u};
        CascadeUser(u);
      }
    }

    method CascadeUser(u: Id)
      modifies this`memberships, this`members, this`guardians, this`senderUsers, this`userDns
      ensures memberships == map k | k in old(memberships) && k.0 != u :: old(memberships)[k]
      ensures members == set l | l in old(members) && l.user != u
      ensures guardians == set p | p in old(guardians) && p.0 != u && p.1 != u
      ensures senderUsers == set p | p in old(senderUsers) && p.1 != u
      ensures userDns == DropMapping(old(userDns), u)
    {
      hide DropMapping;
      memberships := map k | k in memberships && k.0 != u :: memberships[k];
      members := set l | l in members && l.user != u;
      guardians := set p | p in guardians && p.0 != u && p.1 != u;
      senderUsers := set p | p in senderUsers && p.1 != u;
      userDns := DropMapping(userDns, u);
    }

    /** The DN maps: the rows of the DN and of the id are deleted at once, the
        new row is only added to the session. */
    method SetUserMapping(dn: Dn, u: Id)
      modifies this`userDns, this`pending
      ensures Contents() == old(Contents()).(userDns := Unmapped(old(Contents()).userDns, dn, u))
      ensures pending == old(pending).(userDns := old(pending).userDns[dn := u])
    {
      userDns := map d | d in userDns && d != dn && userDns[d] != u :: userDns[d];
      pending := pending.(userDns := pending.userDns[dn := u]);
    }

    method SetGroupMapping(dn: Dn, g: Id)
      modifies this`groupDns, this`pending
      ensures Contents() == old(Contents()).(groupDns := Unmapped(old(Contents()).groupDns, dn, g))
      ensures pending == old(pending).(groupDns := old(pending).groupDns[dn := g])
    {
      groupDns := map d | d in groupDns && d != dn && groupDns[d] != g :: groupDns[d];
      pending := pending.(groupDns := pending.groupDns[dn := g]);
    }

    method SetSchoolMapping(dn: Dn, s: Id)
      modifies this`schoolDns, this`pending
      ensures Contents() == old(Contents()).(schoolDns := Unmapped(old(Contents()).schoolDns, dn, s))
      ensures pending == old(pending).(schoolDns := old(pending).schoolDns[dn := s])
    {
      schoolDns := map d | d in schoolDns && d != dn && schoolDns[d] != s :: schoolDns[d];
      pending := pending.(schoolDns := pending.schoolDns[dn := s]);
    }

    /******* Groups *******/

    /** The members are resolved to memberships of the school the row has now,
        before the row is given its new school. */
    method SyncGroupMembers(g: Id, wanted: set<Id>)
      requires g in groups
      modifies this`members
      ensures members == SyncMembers(old(Contents()), g, wanted)
    {
      if wanted != LinkedUsers(Contents(), g) {
        var school := groups[g].school;
        members := (set l | l in members && l.group != g)
                   + LinksOf(g, (set u | u in wanted && (u, school) in memberships), school);
      }
    }

    method CreateGroup(g: Id, row: Group, memberIds: set<Id>, userIds: set<Id>, groupIds: set<Id>) returns (ok: bool)
      requires g !in Contents().groups
      modifies this`groups, this`members, this`senderUsers, this`senderGroups
      ensures ok <==> GroupFits(old(Contents()), g, row)
      ensures !ok ==> Contents() == old(Contents())
      ensures ok ==> Contents() == WithNewGroup(old(Contents()), g, row, memberIds, userIds, groupIds)
    {
      hide GroupFits, LinksOf, SenderPairs;
      ok := GroupFits(Contents(), g, row);
      if ok {
        groups := groups[g := row];
        members := members + LinksOf(g, memberIds, row.school);
        senderUsers := senderUsers + SenderPairs(g, userIds);
        senderGroups := senderGroups + SenderPairs(g, groupIds);
      }
    }

    method SyncSenderUsers(g: Id, wanted: set<Id>)
      modifies this`senderUsers
      ensures senderUsers == ReplaceSenders(old(senderUsers), g, wanted)
    {
      SameSenders(senderUsers, g, wanted);
      if wanted != SendersOf(senderUsers, g) {
        senderUsers := ReplaceSenders(senderUsers, g, wanted);
      }
    }

    method SyncSenderGroups(g: Id, wanted: set<Id>)
      modifies this`senderGroups
      ensures senderGroups == ReplaceSenders(old(senderGroups), g, wanted)
    {
      SameSenders(senderGroups, g, wanted);
      if wanted != SendersOf(senderGroups, g) {
        senderGroups := ReplaceSenders(senderGroups, g, wanted);
      }
    }

    /** Apply a patch to a group; an empty patch touches and validates nothing. */
    method ModifyGroup(g: Id, row: Group, memberIds: set<Id>, userIds: set<Id>, groupIds: set<Id>) returns (ok: bool)
      requires g in Contents().groups
      modifies this`groups, this`members, this`senderUsers, this`senderGroups
      ensures ok <==> GroupPatchEmpty(old(Contents()), g, row, memberIds, userIds, groupIds)
                      || (ValidGroup(row) && GroupFits(old(Contents()), g, row))
      ensures !ok ==> Contents() == old(Contents())
      ensures ok ==> Contents() == WithStoredGroup(old(Contents()), g, row, memberIds, userIds, groupIds)
    {
      hide GroupPatchEmpty, ValidGroup, GroupFits, SyncMembers, ReplaceSenders;
      if GroupPatchEmpty(Contents(), g, row, memberIds, userIds, groupIds) {
        EmptyGroupPatch(Contents(), g, row, memberIds, userIds, groupIds);
        return true;
      }
      ok := ValidGroup(row) && GroupFits(Contents(), g, row);
      if ok {
        SyncGroupMembers(g, memberIds);
        SyncSenderUsers(g, userIds);
        SyncSenderGroups(g, groupIds);
        groups := groups[g := row];
      }
    }

    method DeleteGroup(g: Id) returns (found: bool)
      modifies this`groups, this`members, this`senderUsers, this`senderGroups, this`groupDns
      ensures found <==> g in old(Contents()).groups
      ensures Contents() == if found then DeletedGroup(old(Contents()), g) else old(Contents())
    {
      found := g in groups;
      if found {
        groups := groups - {g};
        members := set l | l in members && l.group != g;
        senderUsers := set p | p in senderUsers && p.0 != g;
        senderGroups := set p | p in senderGroups && p.0 != g && p.1 != g;
        groupDns := DropMapping(groupDns, g);
      }
    }

    /******* Schools *******/

    method CreateSchool(s: Id, row: School) returns (ok: bool)
      modifies this`schools
      ensures ok <==> SchoolFits(old(Contents()), s, row)
      ensures Contents() == if ok then old(Contents()).(schools := old(Contents()).schools[s := row]) else old(Contents())
    {
      ok := SchoolFits(Contents(), s, row);
      if ok {
        schools := schools[s := row];
      }
    }

    method ModifySchool(s: Id, row: School) returns (ok: bool)
      requires s in Contents().schools
      modifies this`schools
      ensures StoreSchool(old(Contents()), s, row) == if ok then Committed(Contents()) else Failed
      ensures !ok ==> Contents() == old(Contents())
    {
      if schools[s] == row {
        return true;
      }
      ok := ValidSchool(row) && SchoolFits(Contents(), s, row);
      if ok {
        schools := schools[s := row];
      }
    }

    /** Refused while a group refers to the school; memberships and links cascade. */
    method DeleteSchool(s: Id) returns (ok: bool)
      modifies this`schools, this`memberships, this`members, this`schoolDns
      ensures HandleSchoolDelete(old(Contents()), s) == if ok then Committed(Contents()) else Failed
      ensures !ok ==> Contents() == old(Contents())
    {
      if s !in schools {
        return true;
      }
      if exists g :: g in groups && groups[g].school == s {
        return false;
      }
      schools := schools - {s};
      memberships := map k | k in memberships && k.1 != s :: memberships[k];
      members := set l | l in members && l.school != s;
      schoolDns := DropMapping(schoolDns, s);
      ok := true;
    }
  }

  /******* Empty patches *******/

  predicate UserPatchEmpty(c: Cache, u: Id, row: User, wanted: map<Id, WantedMembership>,
                           guardianIds: set<Id>, wardIds: set<Id>) {
    && u in c.users && c.users[u] == row
    && StoredMemberships(c, u) == wanted
    && GuardiansOf(c.guardians, u) == guardianIds && WardsOf(c.guardians, u) == wardIds
  }

  lemma StoredMembershipsIff(c: Cache, u: Id, s: Id)
    ensures s in StoredMemberships(c, u) <==> (u, s) in c.memberships
    ensures s in StoredMemberships(c, u) ==>
              && StoredMemberships(c, u)[s].primary == c.memberships[(u, s)].primary
              && StoredMemberships(c, u)[s].roles == c.memberships[(u, s)].roles
              && forall g :: g in StoredMemberships(c, u)[s].groups <==> Link(g, u, s) in c.members
  {
    if (u, s) in c.memberships {
      assert (u, s).1 in (set k | k in c.memberships && k.0 == u :: k.1);
      forall g | Link(g, u, s) in c.members
        ensures g in StoredMemberships(c, u)[s].groups
      {
        assert Link(g, u, s).group == g;
      }
    }
  }

  /** When nothing differs, storing would change no table. */
  lemma EmptyUserPatch(c: Cache, u: Id, row: User, wanted: map<Id, WantedMembership>,
                       guardianIds: set<Id>, wardIds: set<Id>)
    requires ForeignKeys(c) && UserPatchEmpty(c, u, row, wanted, guardianIds, wardIds)
    ensures WithStoredUser(c, u, row, wanted, guardianIds, wardIds) == c
  {
    StoredTables(c, u, wanted);
    hide ForeignKeys, WantedTable, WantedLinks, StoredMemberships;
    assert c.users == c.users[u := row];
  }

  /** The tables say the same as the memberships read from them. */
  lemma StoredTables(c: Cache, u: Id, wanted: map<Id, WantedMembership>)
    requires ForeignKeys(c) && StoredMemberships(c, u) == wanted
    ensures c.memberships == (map k | k in c.memberships && k.0 != u :: c.memberships[k]) + WantedTable(u, wanted)
    ensures c.members == (set l | l in c.members && l.user != u) + WantedLinks(u, wanted)
  {
    WantedTableIff(u, wanted);
    WantedLinksIff(u, wanted);
    forall s
      ensures s in wanted <==> (u, s) in c.memberships
      ensures s in wanted ==> c.memberships[(u, s)] == Membership(wanted[s].primary, wanted[s].roles)
      ensures s in wanted ==> forall g :: g in wanted[s].groups <==> Link(g, u, s) in c.members
    {
      StoredMembershipsIff(c, u, s);
    }
    forall k: (Id, Id) | k.0 == u ensures k == (u, k.1) {
    }
    forall l: Link | l.user == u ensures l == Link(l.group, u, l.school) {
    }
  }

  lemma SameSenders(pairs: set<(Id, Id)>, g: Id, wanted: set<Id>)
    ensures wanted == SendersOf(pairs, g) <==> ReplaceSenders(pairs, g, wanted) == pairs
  {
    var replaced := ReplaceSenders(pairs, g, wanted);
    forall x
      ensures x in SendersOf(pairs, g) <==> (g, x) in pairs
      ensures x in wanted <==> (g, x) in replaced
    {
      if (g, x) in pairs { assert (g, x).1 in SendersOf(pairs, g); }
    }
    forall p: (Id, Id) ensures p == (p.0, p.1) {
    }
  }

  predicate GroupPatchEmpty(c: Cache, g: Id, row: Group, memberIds: set<Id>, userIds: set<Id>, groupIds: set<Id>) {
    && g in c.groups && c.groups[g] == row
    && LinkedUsers(c, g) == memberIds
    && SendersOf(c.senderUsers, g) == userIds && SendersOf(c.senderGroups, g) == groupIds
  }

  lemma EmptyGroupPatch(c: Cache, g: Id, row: Group, memberIds: set<Id>, userIds: set<Id>, groupIds: set<Id>)
    requires GroupPatchEmpty(c, g, row, memberIds, userIds, groupIds)
    ensures WithStoredGroup(c, g, row, memberIds, userIds, groupIds) == c
  {
    SameSenders(c.senderUsers, g, userIds);
    SameSenders(c.senderGroups, g, groupIds);
  }

  lemma NoRowsOfAbsentUser(c: Cache, u: Id)
    requires ForeignKeys(c) && u !in c.users
    ensures c.memberships == map k | k in c.memberships && k.0 != u :: c.memberships[k]
    ensures c.members == set l | l in c.members && l.user != u
  {
    forall l | l in c.members ensures l.user != u {
      assert (l.user, l.school) in c.memberships;
    }
  }

  /** Only wanted memberships of the user are left, and none is primary that
      is not wanted primary. */
  ghost predicate SlotReleased(memberships: map<(Id, Id), Membership>, u: Id, wanted: map<Id, WantedMembership>) {
    forall k :: k in memberships && k.0 == u ==> k.1 in wanted && (memberships[k].primary ==> wanted[k.1].primary)
  }

  ghost predicate LinkAfter(members: set<Link>, u: Id, wanted: map<Id, WantedMembership>, l: Link) {
    if l.user == u && l.school in wanted then l.group in wanted[l.school].groups else l in members
  }

  lemma SlotStaysReleased(
      start: map<(Id, Id), Membership>, u: Id, wanted: map<Id, WantedMembership>, todo: set<Id>, s: Id)
    requires AtMostOneWantedPrimary(wanted) && SlotReleased(start, u, wanted) && s in todo && todo <= wanted.Keys
    ensures wanted[s].primary ==> !PrimaryElsewhere(start + WantedTable(u, wanted - todo), u, s)
  {
    WantedTableIff(u, wanted - todo);
  }

  lemma GrowTable(start: map<(Id, Id), Membership>, members: set<Link>, u: Id,
                  wanted: map<Id, WantedMembership>, todo: set<Id>, s: Id)
    requires s in todo && todo <= wanted.Keys
    ensures (start + WantedTable(u, wanted - todo))[(u, s) := Membership(wanted[s].primary, wanted[s].roles)]
         == start + WantedTable(u, wanted - (todo - {s}))
    ensures forall l :: LinkAfter(members, u, wanted - (todo - {s}), l)
              <==> if l.user == u && l.school == s then l.group in wanted[s].groups
                   else LinkAfter(members, u, wanted - todo, l)
  {
    WantedTableIff(u, wanted - todo);
    WantedTableIff(u, wanted - (todo - {s}));
  }

  lemma ReplacedTable(start: map<(Id, Id), Membership>, released: map<(Id, Id), Membership>, u: Id,
                      wanted: map<Id, WantedMembership>)
    requires forall k :: k in released <==> k in start && (k.0 == u ==> k.1 in wanted)
    requires forall k :: k in released && k.0 != u ==> released[k] == start[k]
    ensures released + WantedTable(u, wanted) == (map k | k in start && k.0 != u :: start[k]) + WantedTable(u, wanted)
  {
    WantedTableIff(u, wanted);
  }

  lemma ReplacedLinks(start: set<Link>, released: set<Link>, u: Id, wanted: map<Id, WantedMembership>)
    requires forall l :: l in released <==> l in start && (l.user == u ==> l.school in wanted)
    ensures forall l :: l in (set x | x in start && x.user != u) + WantedLinks(u, wanted) <==> LinkAfter(released, u, wanted, l)
  {
    WantedLinksIff(u, wanted);
  }

  lemma WantedLinksIff(u: Id, wanted: map<Id, WantedMembership>)
    ensures forall l :: l in WantedLinks(u, wanted) <==>
              l.user == u && l.school in wanted && l.group in wanted[l.school].groups
  {
    forall l: Link ensures l in WantedLinks(u, wanted) <==>
        l.user == u && l.school in wanted && l.group in wanted[l.school].groups {
      assert l == Link(l.group, l.user, l.school);
    }
  }

  lemma WantedTableIff(u: Id, wanted: map<Id, WantedMembership>)
    ensures forall k :: k in WantedTable(u, wanted) <==> k.0 == u && k.1 in wanted
  {
    forall k: (Id, Id) ensures k in WantedTable(u, wanted) <==> k.0 == u && k.1 in wanted {
      assert k == (k.0, k.1);
    }
  }
}
