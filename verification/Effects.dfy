/** The state of one object after its own event, and what other events leave alone. */
module Effects {
  import opened Text
  import opened Schema
  import opened Events
  import opened Sync
  import opened Integrity
  import opened Links
  import opened Redelivery

  /** The event commits and is not dropped for want of a cached school. */
  predicate TakesEffect(c: Cache, e: Event) {
    && Handle(c, e).Committed?
    && match e
       case UserCreate(p) => SchoolsNamed(c, p.schools) != {}
       case UserModify(p) => p.id in c.users || SchoolsNamed(c, p.schools) != {}
       case GroupCreate(p) => FindSchool(c, GroupSchoolName(p)).Some?
       case GroupModify(p) => p.id in c.groups || FindSchool(c, GroupSchoolName(p)).Some?
       case _ => true
  }

  predicate Maps(dns: map<Dn, Id>, dn: Dn, id: Id) {
    dn in dns && dns[dn] == id
  }

  /** The event maps its DN: it is no create event for a stored row. */
  predicate MapsUser(c: Cache, e: Event) {
    WritesUser(e) && TakesEffect(c, e) && (e.UserCreate? ==> e.user.id !in c.users)
  }

  predicate MapsGroup(c: Cache, e: Event) {
    WritesGroup(e) && TakesEffect(c, e) && (e.GroupCreate? ==> e.group.id !in c.groups)
  }

  /** A create event on an existing row leaves the DN map alone, so the DN has
      to be there already. */
  predicate MapsDn(c: Cache, e: Event) {
    match e
    case UserCreate(p) => p.id in c.users ==> Maps(c.userDns, p.dn, p.id)
    case GroupCreate(p) => p.id in c.groups ==> Maps(c.groupDns, p.dn, p.id)
    case _ => true
  }

  function SchoolNames(c: Cache): map<Id, string> {
    map s | s in c.schools :: c.schools[s].name
  }

  /******* A user's own event *******/

  /** The user maps in force while the event's references are resolved. */
  function UserLookups(c: Cache, e: Event): Cache
    requires WritesUser(e)
  {
    if e.UserModify? && e.user.id in c.users then UnmapUser(c, e.user) else c
  }

  lemma UserEventResult(c: Cache, e: Event)
    requires WritesUser(e)
    ensures var p := e.user;
            Apply(c, e) == if !TakesEffect(c, e) then c
                           else if p.id !in c.users then MapUser(InsertedUser(c, p), p)
                           else if e.UserCreate? then UpdatedUser(c, p)
                           else MapUser(UpdatedUser(UnmapUser(c, p), p), p)
  {
    var p := e.user;
    if TakesEffect(c, e) && p.id in c.users {
      WriteUserResult(UserLookups(c, e), p);
    }
  }

  lemma UserEventWritten(c: Cache, e: Event)
    requires Valid(c) && WritesUser(e) && TakesEffect(c, e)
    ensures UserWritten(c, Apply(c, e), e.user)
  {
    var p := e.user;
    UserEventResult(c, e);
    if p.id !in c.users {
      InsertedUserWritten(c, p);
    } else if e.UserModify? {
      UpdatedUnmapped(c, p);
    } else {
      assert UserWritten(c, UpdatedUser(c, p), p);
    }
  }

  /** Which DN belongs to which user after any event. */
  lemma UserMapsIff(c: Cache, e: Event, dn: Dn, u: Id)
    requires DnBijection(c.userDns, c.users.Keys)
    ensures Maps(Apply(c, e).userDns, dn, u) <==>
              if MapsUser(c, e) && (dn == e.user.dn || u == e.user.id) then dn == e.user.dn && u == e.user.id
              else Maps(c.userDns, dn, u) && e != UserDelete(u)
  {
    hide Handle, Apply, TakesEffect;
    if WritesUser(e) {
      UserEventMaps(c, e);
    } else if WritesGroup(e) || e.GroupDelete? {
      GroupEventTables(c, e);
    } else if e.SchoolCreate? || e.SchoolModify? || e.HostGroupSet? || e.HostGroupDelete? {
      SchoolTablesOnly(c, e);
    } else {
      DeleteMaps(c, e, dn, u);
    }
  }

  lemma UserEventMaps(c: Cache, e: Event)
    requires WritesUser(e)
    ensures Apply(c, e).userDns == if MapsUser(c, e) then SetMapping(c.userDns, e.user.dn, e.user.id) else c.userDns
  {
    hide Handle, Apply, TakesEffect, UserMemberships, UserLinks, SyncGuardians, UsersByDns, UserRow, SetMapping, Unmapped;
    UserEventResult(c, e);
    UnmappedTwice(c.userDns, e.user.dn, e.user.id);
  }

  lemma DeleteMaps(c: Cache, e: Event, dn: Dn, u: Id)
    requires DnBijection(c.userDns, c.users.Keys) && (e.UserDelete? || e.SchoolDelete?)
    ensures Maps(Apply(c, e).userDns, dn, u) <==> Maps(c.userDns, dn, u) && e != UserDelete(u)
  {
  }

  /** Whether the event's DN resolves to its user afterwards. */
  lemma UserDnAfter(c: Cache, e: Event)
    requires WritesUser(e) && TakesEffect(c, e)
    ensures Maps(Apply(c, e).userDns, e.user.dn, e.user.id) <==> MapsDn(c, e)
  {
    hide Handle, Apply, TakesEffect;
    UserEventMaps(c, e);
  }

  lemma UpdatedUnmapped(c: Cache, p: UserPayload)
    requires p.id in c.users
    ensures UserWritten(c, MapUser(UpdatedUser(UnmapUser(c, p), p), p), p)
  {
    SameMemberships(c, UnmapUser(c, p), p);
    SameUserLinks(c, UnmapUser(c, p), p);
  }

  lemma UserWrittenMembership(c: Cache, next: Cache, p: UserPayload, s: Id)
    requires UserWritten(c, next, p)
    ensures (p.id, s) in next.memberships <==> s in SchoolsNamed(c, p.schools)
    ensures s in SchoolsNamed(c, p.schools) ==>
              next.memberships[(p.id, s)] == MembershipFor(c, p, SchoolsNamed(c, p.schools), s)
  {
    UserMembershipsShape(c, p);
  }

  lemma UserWrittenLink(c: Cache, next: Cache, p: UserPayload, g: Id)
    requires UserWritten(c, next, p)
    ensures Linked(next, g, p.id)
      <==> g in GroupsByDns(c, p.groups) && c.groups[g].school in SchoolsNamed(c, p.schools)
  {
    UserLinksShape(c, p);
    if g in GroupsByDns(c, p.groups) && c.groups[g].school in SchoolsNamed(c, p.schools) {
      assert Link(g, p.id, c.groups[g].school) in next.members;
    }
  }

  /** The guardian table after a user's own event. */
  function PairsAfter(c: Cache, e: Event): set<(Id, Id)>
    requires WritesUser(e)
  {
    var p := e.user;
    if p.id in c.users then
      SyncGuardians(c.guardians, p.id, UsersByDns(UserLookups(c, e), p.guardians), UsersByDns(UserLookups(c, e), p.wards))
    else InsertedUser(c, p).guardians
  }

  lemma UserEventPairs(c: Cache, e: Event)
    requires WritesUser(e)
    ensures Apply(c, e).guardians == if TakesEffect(c, e) then PairsAfter(c, e) else c.guardians
  {
    hide Handle, Apply, TakesEffect, UserMemberships, UserLinks, SyncGuardians, UsersByDns, UserRow, SetMapping, Unmapped;
    UserEventResult(c, e);
  }

  /** Guardians and wards of the user are those the event lists and the DN
      maps know; the user itself is one when the lists agree about it. */
  lemma UserEventGuardians(c: Cache, e: Event, x: Id)
    requires Valid(c) && WritesUser(e) && TakesEffect(c, e)
    requires x == e.user.id ==> SelfAgrees(UserLookups(c, e), e.user)
    ensures (x, e.user.id) in Apply(c, e).guardians <==> x in UsersByDns(UserLookups(c, e), e.user.guardians)
    ensures (e.user.id, x) in Apply(c, e).guardians <==> x in UsersByDns(UserLookups(c, e), e.user.wards)
  {
    hide Handle, Apply, TakesEffect, PairsAfter, UsersByDns, SelfAgrees, UserLookups;
    UserEventPairs(c, e);
    PairsOfUser(c, e, x);
  }

  lemma PairsOfUser(c: Cache, e: Event, x: Id)
    requires ForeignKeys(c) && WritesUser(e)
    requires x == e.user.id ==> SelfAgrees(UserLookups(c, e), e.user)
    ensures (x, e.user.id) in PairsAfter(c, e) <==> x in UsersByDns(UserLookups(c, e), e.user.guardians)
    ensures (e.user.id, x) in PairsAfter(c, e) <==> x in UsersByDns(UserLookups(c, e), e.user.wards)
  {
    var p := e.user;
    if p.id in c.users {
      SyncedPair(c.guardians, p.id, UsersByDns(UserLookups(c, e), p.guardians), UsersByDns(UserLookups(c, e), p.wards), x);
    } else {
      InsertedGuardianPairs(c, p, x);
    }
  }

  lemma SyncedPair(pairs: set<(Id, Id)>, u: Id, guardians: set<Id>, wards: set<Id>, x: Id)
    requires x == u ==> (u in guardians <==> u in wards)
    ensures (x, u) in SyncGuardians(pairs, u, guardians, wards) <==> x in guardians
    ensures (u, x) in SyncGuardians(pairs, u, guardians, wards) <==> x in wards
  {
    if x == u {
      SyncGuardiansIff(pairs, u, guardians, wards, (u, u));
    } else {
      hide GuardiansOf, WardsOf;
      StoredPair(pairs, u, x);
    }
  }

  lemma StoredPair(pairs: set<(Id, Id)>, u: Id, x: Id)
    ensures x in GuardiansOf(pairs, u) <==> (x, u) in pairs
    ensures x in WardsOf(pairs, u) <==> (u, x) in pairs
  {
    if (x, u) in pairs { assert (x, u).0 in GuardiansOf(pairs, u); }
    if (u, x) in pairs { assert (u, x).1 in WardsOf(pairs, u); }
  }

  lemma InsertedGuardianPairs(c: Cache, p: UserPayload, x: Id)
    requires ForeignKeys(c) && p.id !in c.users
    ensures (x, p.id) in InsertedUser(c, p).guardians <==> x in UsersByDns(c, p.guardians)
    ensures (p.id, x) in InsertedUser(c, p).guardians <==> x in UsersByDns(c, p.wards)
  {
  }

  /******* A group's own event *******/

  function GroupLookups(c: Cache, e: Event): Cache
    requires WritesGroup(e)
  {
    if e.GroupModify? && e.group.id in c.groups then UnmapGroup(c, e.group) else c
  }

  lemma GroupEventResult(c: Cache, e: Event)
    requires WritesGroup(e)
    ensures var p := e.group; var found := FindSchool(c, GroupSchoolName(p));
            Apply(c, e) == if !TakesEffect(c, e) then c
                           else if p.id !in c.groups then MapGroup(InsertedGroup(c, p, found.value), p)
                           else if e.GroupCreate? then UpdatedGroup(c, p, found)
                           else MapGroup(UpdatedGroup(UnmapGroup(c, p), p, found), p)
  {
    var p := e.group;
    var found := FindSchool(c, GroupSchoolName(p));
    if TakesEffect(c, e) && p.id in c.groups {
      SameFindSchool(c, GroupLookups(c, e), GroupSchoolName(p));
      WriteGroupResult(GroupLookups(c, e), p, found);
    }
  }

  lemma UpdatedGroupMembers(c: Cache, e: Event)
    requires WritesGroup(e) && e.group.id in c.groups
    ensures var p := e.group; var found := FindSchool(c, GroupSchoolName(p));
            var next := UpdatedGroup(GroupLookups(c, e), p, found);
            && next.members == SyncMembers(c, p.id, WantedMembers(c, p))
            && next.groups == c.groups[p.id := next.groups[p.id]]
            && next.groups[p.id].school == TargetSchool(c, p)
  {
    var p := e.group;
    var found := FindSchool(c, GroupSchoolName(p));
    UnmappedGroup(c, p);
    var base := GroupLookups(c, e);
    assert MembersByDns(base, p.users, TargetSchool(c, p)) == WantedMembers(c, p);
    assert LinkedUsers(base, p.id) == LinkedUsers(c, p.id);
  }

  lemma GroupEventMembers(c: Cache, e: Event)
    requires WritesGroup(e) && TakesEffect(c, e) && e.group.id in c.groups
    ensures Apply(c, e).members == SyncMembers(c, e.group.id, WantedMembers(c, e.group))
  {
    GroupEventResult(c, e);
    UpdatedGroupMembers(c, e);
  }

  lemma GroupEventLinks(c: Cache, e: Event, u: Id)
    requires Valid(c) && WritesGroup(e) && TakesEffect(c, e)
    ensures var p := e.group;
            Linked(Apply(c, e), p.id, u) <==>
              if p.id in c.groups then
                && u in WantedMembers(c, p)
                && (WantedMembers(c, p) == LinkedUsers(c, p.id) || (u, c.groups[p.id].school) in c.memberships)
              else
                u in MembersByDns(c, p.users, FindSchool(c, GroupSchoolName(p)).value)
  {
    var p := e.group;
    if p.id in c.groups {
      GroupEventMembers(c, e);
      SyncMembersIff(c, p.id, WantedMembers(c, p), Apply(c, e), u);
    } else {
      GroupEventResult(c, e);
      var school := FindSchool(c, GroupSchoolName(p)).value;
      InsertedLinks(c, p, school);
      LinkedUsersIff(InsertedGroup(c, p, school), p.id, u);
    }
  }

  /** The school a group is in after its own event. */
  function SchoolAfter(c: Cache, p: GroupPayload): Id
    requires p.id in c.groups || FindSchool(c, GroupSchoolName(p)).Some?
  {
    if p.id in c.groups then TargetSchool(c, p) else FindSchool(c, GroupSchoolName(p)).value
  }

  lemma GroupEventRow(c: Cache, e: Event)
    requires WritesGroup(e) && TakesEffect(c, e)
    ensures var p := e.group; var next := Apply(c, e);
            p.id in next.groups && next.groups[p.id].school == SchoolAfter(c, p)
  {
    hide Handle, Apply, FindSchool, UpdatedGroup, InsertedGroup, SyncMembers, WantedMembers, TargetSchool;
    GroupEventResult(c, e);
    if e.group.id in c.groups {
      UpdatedGroupMembers(c, e);
    } else {
      InsertedGroupRow(c, e.group, FindSchool(c, GroupSchoolName(e.group)).value);
    }
  }

  lemma InsertedGroupRow(c: Cache, p: GroupPayload, school: Id)
    ensures InsertedGroup(c, p, school).groups.Keys == c.groups.Keys + {p.id}
    ensures InsertedGroup(c, p, school).groups[p.id].school == school
    ensures forall g :: g in c.groups && g != p.id ==> InsertedGroup(c, p, school).groups[g] == c.groups[g]
  {
  }

  lemma GroupEventMaps(c: Cache, e: Event)
    requires WritesGroup(e)
    ensures Apply(c, e).groupDns == if MapsGroup(c, e) then SetMapping(c.groupDns, e.group.dn, e.group.id) else c.groupDns
  {
    hide Handle, Apply, TakesEffect, FindSchool, SyncMembers, MembersByDns, LinksOf, ReplaceSenders, UsersByDns,
      GroupsByDns, GroupRow, UpdatedGroupRow, SetMapping, Unmapped;
    GroupEventResult(c, e);
    UnmappedTwice(c.groupDns, e.group.dn, e.group.id);
  }

  /** Which DN belongs to which group after any event. */
  lemma GroupMapsIff(c: Cache, e: Event, dn: Dn, g: Id)
    requires DnBijection(c.groupDns, c.groups.Keys)
    ensures Maps(Apply(c, e).groupDns, dn, g) <==>
              if MapsGroup(c, e) && (dn == e.group.dn || g == e.group.id) then dn == e.group.dn && g == e.group.id
              else Maps(c.groupDns, dn, g) && e != GroupDelete(g)
  {
    hide Handle, Apply, TakesEffect;
    if WritesGroup(e) {
      GroupEventMaps(c, e);
    } else if WritesUser(e) || e.UserDelete? {
      UserEventTables(c, e);
    } else if e.SchoolCreate? || e.SchoolModify? || e.HostGroupSet? || e.HostGroupDelete? {
      SchoolTablesOnly(c, e);
    } else {
      DeleteGroupMaps(c, e, dn, g);
    }
  }

  lemma DeleteGroupMaps(c: Cache, e: Event, dn: Dn, g: Id)
    requires DnBijection(c.groupDns, c.groups.Keys) && (e.GroupDelete? || e.SchoolDelete?)
    ensures Maps(Apply(c, e).groupDns, dn, g) <==> Maps(c.groupDns, dn, g) && e != GroupDelete(g)
  {
  }

  /******* What other objects' events leave alone *******/

  /** No school comes or goes, and none is renamed. */
  predicate KeepsSchools(c: Cache, e: Event) {
    SchoolNames(Apply(c, e)) == SchoolNames(c)
  }

  lemma KeepsSchoolsIds(c: Cache, e: Event)
    requires KeepsSchools(c, e)
    ensures Apply(c, e).schools.Keys == c.schools.Keys
    ensures e.SchoolDelete? ==> Apply(c, e) == c
  {
    assert SchoolNames(c).Keys == c.schools.Keys;
    assert SchoolNames(Apply(c, e)).Keys == Apply(c, e).schools.Keys;
    if e.SchoolDelete? && e.id in c.schools {
      assert e.id in Apply(c, e).schools.Keys;
    }
  }

  /** The membership rows of one user. */
  function MembershipsOf(c: Cache, u: Id): map<(Id, Id), Membership> {
    map k | k in c.memberships && k.0 == u :: c.memberships[k]
  }

  lemma UserWrittenFrame(c: Cache, next: Cache, p: UserPayload, u: Id)
    requires UserWritten(c, next, p) && p.id != u
    ensures MembershipsOf(next, u) == MembershipsOf(c, u)
    ensures forall g, s :: Link(g, u, s) in next.members <==> Link(g, u, s) in c.members
  {
    hide UserRow, MembershipFor, SchoolsNamed, GroupsByDns;
    UserMembershipsShape(c, p);
    UserLinksShape(c, p);
  }

  lemma UserEventFrame(c: Cache, e: Event, u: Id)
    requires Valid(c) && WritesUser(e) && e.user.id != u
    ensures var next := Apply(c, e);
            && (u in next.users <==> u in c.users)
            && (u in c.users ==> next.users[u] == c.users[u])
            && MembershipsOf(next, u) == MembershipsOf(c, u)
            && (forall g, s :: Link(g, u, s) in next.members <==> Link(g, u, s) in c.members)
  {
    hide Handle, Apply, TakesEffect, MembershipsOf;
    UserEventResult(c, e);
    if TakesEffect(c, e) {
      UserEventWritten(c, e);
      UserEventRows(c, e, u);
      UserWrittenFrame(c, Apply(c, e), e.user, u);
    }
  }

  lemma UserEventRows(c: Cache, e: Event, u: Id)
    requires WritesUser(e) && e.user.id != u
    ensures u in Apply(c, e).users <==> u in c.users
    ensures u in c.users ==> Apply(c, e).users[u] == c.users[u]
  {
    hide Handle, Apply, TakesEffect, UserMemberships, UserLinks, SyncGuardians, UsersByDns, UserRow, SetMapping, Unmapped;
    UserEventResult(c, e);
  }

  lemma GroupEventFrame(c: Cache, e: Event, g: Id)
    requires WritesGroup(e) && e.group.id != g
    ensures var next := Apply(c, e);
            && (g in next.groups <==> g in c.groups)
            && (g in c.groups ==> next.groups[g] == c.groups[g])
            && (forall u, s :: Link(g, u, s) in next.members <==> Link(g, u, s) in c.members)
  {
    hide Handle, Apply, FindSchool, UpdatedGroup, InsertedGroup, SyncMembers, WantedMembers, TargetSchool;
    GroupEventResult(c, e);
    var p := e.group;
    if !TakesEffect(c, e) {
    } else if p.id in c.groups {
      UpdatedGroupMembers(c, e);
      forall u, s
        ensures Link(g, u, s) in SyncMembers(c, p.id, WantedMembers(c, p)) <==> Link(g, u, s) in c.members
      {
        SyncMembersOthers(c, p.id, WantedMembers(c, p), Link(g, u, s));
      }
    } else {
      InsertedGroupRow(c, p, FindSchool(c, GroupSchoolName(p)).value);
      InsertedGroupFrame(c, p, FindSchool(c, GroupSchoolName(p)).value, g);
    }
  }

  lemma InsertedGroupFrame(c: Cache, p: GroupPayload, school: Id, g: Id)
    requires p.id != g
    ensures forall u, s :: Link(g, u, s) in InsertedGroup(c, p, school).members <==> Link(g, u, s) in c.members
  {
    forall u, s ensures Link(g, u, s) in InsertedGroup(c, p, school).members <==> Link(g, u, s) in c.members {
      LinksOfIff(p.id, MembersByDns(c, p.users, school), school, Link(g, u, s));
    }
  }

  /** Group events write the group tables only, user events no group row. */
  lemma GroupEventTables(c: Cache, e: Event)
    requires WritesGroup(e) || e.GroupDelete?
    ensures var next := Apply(c, e);
            && next.users == c.users && next.memberships == c.memberships
            && next.guardians == c.guardians && next.userDns == c.userDns
  {
    if WritesGroup(e) {
      GroupEventResult(c, e);
    }
  }

  lemma UserEventTables(c: Cache, e: Event)
    requires WritesUser(e) || e.UserDelete?
    ensures Apply(c, e).groups == c.groups && Apply(c, e).groupDns == c.groupDns
  {
    if WritesUser(e) {
      UserEventResult(c, e);
    }
  }

  /** A member link changes only at the events of its two ends. */
  lemma LinkFrame(c: Cache, e: Event, g: Id, u: Id)
    requires Valid(c) && KeepsSchools(c, e) && !AboutUser(e, u) && !AboutGroup(e, g)
    ensures Linked(Apply(c, e), g, u) <==> Linked(c, g, u)
  {
    KeepsSchoolsIds(c, e);
    hide Handle, Apply;
    var next := Apply(c, e);
    assert forall s :: Link(g, u, s) in next.members <==> Link(g, u, s) in c.members by {
      if WritesUser(e) {
        UserEventFrame(c, e, u);
      } else if WritesGroup(e) {
        GroupEventFrame(c, e, g);
      } else if e.SchoolCreate? || e.SchoolModify? || e.HostGroupSet? || e.HostGroupDelete? {
        SchoolTablesOnly(c, e);
      }
    }
  }

  /** The user's row and memberships survive other objects' events. */
  lemma UserFrame(c: Cache, e: Event, u: Id)
    requires Valid(c) && KeepsSchools(c, e) && !AboutUser(e, u)
    ensures u in Apply(c, e).users <==> u in c.users
    ensures u in c.users ==> Apply(c, e).users[u] == c.users[u]
    ensures MembershipsOf(Apply(c, e), u) == MembershipsOf(c, u)
  {
    KeepsSchoolsIds(c, e);
    hide Handle, Apply;
    if WritesUser(e) {
      UserEventFrame(c, e, u);
    } else if WritesGroup(e) || e.GroupDelete? {
      GroupEventTables(c, e);
    } else if e.SchoolCreate? || e.SchoolModify? || e.HostGroupSet? || e.HostGroupDelete? {
      SchoolTablesOnly(c, e);
    } else {
      DeleteFrame(c, e, u);
    }
  }

  lemma DeleteFrame(c: Cache, e: Event, u: Id)
    requires (e.UserDelete? && e.id != u) || (e.SchoolDelete? && Apply(c, e) == c)
    ensures u in Apply(c, e).users <==> u in c.users
    ensures u in c.users ==> Apply(c, e).users[u] == c.users[u]
    ensures MembershipsOf(Apply(c, e), u) == MembershipsOf(c, u)
  {
  }

  lemma GroupFrame(c: Cache, e: Event, g: Id)
    requires Valid(c) && KeepsSchools(c, e) && !AboutGroup(e, g)
    ensures g in Apply(c, e).groups <==> g in c.groups
    ensures g in c.groups ==> Apply(c, e).groups[g] == c.groups[g]
  {
    KeepsSchoolsIds(c, e);
    hide Handle, Apply;
    if WritesGroup(e) {
      GroupEventFrame(c, e, g);
    } else if WritesUser(e) || e.UserDelete? {
      UserEventTables(c, e);
    } else if e.SchoolCreate? || e.SchoolModify? || e.HostGroupSet? || e.HostGroupDelete? {
      SchoolTablesOnly(c, e);
    }
  }

  lemma SyncGuardiansOthers(pairs: set<(Id, Id)>, u: Id, guardians: set<Id>, wards: set<Id>, p: (Id, Id))
    requires p.0 != u && p.1 != u
    ensures p in SyncGuardians(pairs, u, guardians, wards) <==> p in pairs
  {
  }

  lemma PairsOfOthers(c: Cache, e: Event, x: Id, y: Id)
    requires WritesUser(e) && x != e.user.id && y != e.user.id
    ensures (x, y) in PairsAfter(c, e) <==> (x, y) in c.guardians
  {
    if e.user.id in c.users {
      SyncGuardiansOthers(c.guardians, e.user.id, UsersByDns(UserLookups(c, e), e.user.guardians),
                          UsersByDns(UserLookups(c, e), e.user.wards), (x, y));
    }
  }

  lemma GuardianFrame(c: Cache, e: Event, x: Id, y: Id)
    requires Valid(c) && KeepsSchools(c, e) && !AboutUser(e, x) && !AboutUser(e, y)
    ensures (x, y) in Apply(c, e).guardians <==> (x, y) in c.guardians
  {
    KeepsSchoolsIds(c, e);
    hide Handle, Apply, PairsAfter;
    if WritesUser(e) {
      UserEventPairs(c, e);
      PairsOfOthers(c, e, x, y);
    } else if WritesGroup(e) || e.GroupDelete? {
      GroupEventTables(c, e);
    } else if e.SchoolCreate? || e.SchoolModify? || e.HostGroupSet? || e.HostGroupDelete? {
      SchoolTablesOnly(c, e);
    }
  }
}
