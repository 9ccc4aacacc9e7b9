/** What an event leaves in the tables, in the terms of its payload. */
module Outcomes {
  import opened Text
  import opened TextFacts
  import opened Schema
  import opened Events
  import opened Sync
  import opened Integrity
  import opened Links
  import opened Redelivery
  import opened Effects

  /******* Deletions *******/

  /** Nothing mentions the user any more, and everything else is as it was. */
  ghost predicate WithoutUser(c: Cache, next: Cache, u: Id) {
    && (forall v :: v in next.users <==> v in c.users && v != u)
    && (forall v :: v in next.users ==> next.users[v] == c.users[v])
    && (forall k :: k in next.memberships <==> k in c.memberships && k.0 != u)
    && (forall k :: k in next.memberships ==> next.memberships[k] == c.memberships[k])
    && (forall l :: l in next.members <==> l in c.members && l.user != u)
    && (forall x :: x in next.guardians <==> x in c.guardians && x.0 != u && x.1 != u)
    && (forall x :: x in next.senderUsers <==> x in c.senderUsers && x.1 != u)
    && (forall d, v :: Maps(next.userDns, d, v) <==> Maps(c.userDns, d, v) && v != u)
    && next.roles == c.roles && next.schools == c.schools && next.groups == c.groups
    && next.senderGroups == c.senderGroups && next.schoolDns == c.schoolDns && next.groupDns == c.groupDns
  }

  ghost predicate WithoutGroup(c: Cache, next: Cache, g: Id) {
    && (forall h :: h in next.groups <==> h in c.groups && h != g)
    && (forall h :: h in next.groups ==> next.groups[h] == c.groups[h])
    && (forall l :: l in next.members <==> l in c.members && l.group != g)
    && (forall x :: x in next.senderUsers <==> x in c.senderUsers && x.0 != g)
    && (forall x :: x in next.senderGroups <==> x in c.senderGroups && x.0 != g && x.1 != g)
    && (forall d, h :: Maps(next.groupDns, d, h) <==> Maps(c.groupDns, d, h) && h != g)
    && next.roles == c.roles && next.schools == c.schools && next.users == c.users
    && next.memberships == c.memberships && next.guardians == c.guardians
    && next.schoolDns == c.schoolDns && next.userDns == c.userDns
  }

  /** A school goes with its memberships and the links through them. */
  ghost predicate WithoutSchool(c: Cache, next: Cache, s: Id) {
    && (forall t :: t in next.schools <==> t in c.schools && t != s)
    && (forall t :: t in next.schools ==> next.schools[t] == c.schools[t])
    && (forall k :: k in next.memberships <==> k in c.memberships && k.1 != s)
    && (forall k :: k in next.memberships ==> next.memberships[k] == c.memberships[k])
    && (forall l :: l in next.members <==> l in c.members && l.school != s)
    && (forall d, t :: Maps(next.schoolDns, d, t) <==> Maps(c.schoolDns, d, t) && t != s)
    && next.roles == c.roles && next.users == c.users && next.groups == c.groups && next.guardians == c.guardians
    && next.senderUsers == c.senderUsers && next.senderGroups == c.senderGroups
    && next.groupDns == c.groupDns && next.userDns == c.userDns
  }

  lemma UserDeleteResult(c: Cache, u: Id)
    ensures Apply(c, UserDelete(u)) == if u in c.users then DeletedUser(c, u) else c
  {
  }

  lemma UnknownUser(c: Cache, u: Id)
    requires ForeignKeys(c) && DnBijection(c.userDns, c.users.Keys) && u !in c.users
    ensures WithoutUser(c, c, u)
  {
    assert forall l :: l in c.members ==> (l.user, l.school) in c.memberships;
  }

  lemma UserDeleteOutcome(c: Cache, u: Id)
    requires Valid(c)
    ensures WithoutUser(c, Apply(c, UserDelete(u)), u)
  {
    hide Handle, Apply, WithoutUser, DeletedUser, UniqueKeys;
    UserDeleteResult(c, u);
    if u in c.users {
      DeletedUserOutcome(c, u);
    } else {
      UnknownUser(c, u);
    }
  }

  lemma DeletedUserOutcome(c: Cache, u: Id)
    ensures WithoutUser(c, DeletedUser(c, u), u)
  {
  }

  lemma GroupDeleteResult(c: Cache, g: Id)
    ensures Apply(c, GroupDelete(g)) == if g in c.groups then DeletedGroup(c, g) else c
  {
  }

  lemma UnknownGroup(c: Cache, g: Id)
    requires ForeignKeys(c) && DnBijection(c.groupDns, c.groups.Keys) && g !in c.groups
    ensures WithoutGroup(c, c, g)
  {
  }

  lemma DeletedGroupOutcome(c: Cache, g: Id)
    ensures WithoutGroup(c, DeletedGroup(c, g), g)
  {
  }

  lemma GroupDeleteOutcome(c: Cache, g: Id)
    requires Valid(c)
    ensures WithoutGroup(c, Apply(c, GroupDelete(g)), g)
  {
    hide Handle, Apply, WithoutGroup, DeletedGroup, UniqueKeys;
    GroupDeleteResult(c, g);
    if g in c.groups {
      DeletedGroupOutcome(c, g);
    } else {
      UnknownGroup(c, g);
    }
  }

  ghost predicate InUse(c: Cache, s: Id) {
    exists g :: g in c.groups && c.groups[g].school == s
  }

  lemma SchoolDeleteResult(c: Cache, s: Id)
    requires s in c.schools || !InUse(c, s)
    ensures Handle(c, SchoolDelete(s))
         == if InUse(c, s) then Failed else Committed(if s in c.schools then DeletedSchool(c, s) else c)
  {
  }

  lemma UnknownSchool(c: Cache, s: Id)
    requires ForeignKeys(c) && DnBijection(c.schoolDns, c.schools.Keys) && s !in c.schools
    ensures WithoutSchool(c, c, s) && !InUse(c, s)
  {
    assert forall l :: l in c.members ==> (l.user, l.school) in c.memberships;
  }

  lemma DeletedSchoolOutcome(c: Cache, s: Id)
    ensures WithoutSchool(c, DeletedSchool(c, s), s)
  {
  }

  /** A school that a group refers to stays, with all that hangs on it. */
  lemma SchoolDeleteOutcome(c: Cache, s: Id)
    requires Valid(c)
    ensures Handle(c, SchoolDelete(s)).Failed? <==> InUse(c, s)
    ensures if InUse(c, s) then Apply(c, SchoolDelete(s)) == c else WithoutSchool(c, Apply(c, SchoolDelete(s)), s)
  {
    hide Handle, WithoutSchool, InUse, DeletedSchool, UniqueKeys;
    if s !in c.schools {
      UnknownSchool(c, s);
    } else {
      DeletedSchoolOutcome(c, s);
    }
    SchoolDeleteResult(c, s);
  }

  /******* Rows *******/

  /** All properties but the two that are never stored. */
  ghost predicate HoldsProperties(stored: Properties, properties: Properties) {
    forall k :: (k in stored <==> k in properties && k != "jpegPhoto" && k != "password")
                && (k in stored ==> stored[k] == properties[k])
  }

  ghost predicate HoldsUser(row: User, p: UserPayload) {
    && row.name == p.username && row.firstname == p.firstname && row.lastname == p.lastname
    && (row.active <==> !p.disabled)
    && row.email == p.email && row.birthday == p.birthday && row.expiration == p.expiry
    && row.recordUid == (if p.recordUid.None? || p.recordUid == Some("") then p.username else p.recordUid.value)
    && row.sourceUid == (if p.sourceUid.None? || p.sourceUid == Some("") then "nubus" else p.sourceUid.value)
    && HoldsProperties(row.udm, p.properties)
  }

  lemma PropertiesIff(stored: Properties, properties: Properties)
    ensures HoldsProperties(stored, properties) <==> stored == UdmProperties(properties)
  {
    if HoldsProperties(stored, properties) {
      assert stored.Keys == UdmProperties(properties).Keys;
    }
  }

  lemma UserRowIff(row: User, p: UserPayload)
    ensures HoldsUser(row, p) <==> row == UserRow(p)
  {
    PropertiesIff(row.udm, p.properties);
  }

  /** After a user event that takes effect, the row is the payload's. */
  lemma UserRowOutcome(c: Cache, e: Event)
    requires Valid(c) && WritesUser(e) && TakesEffect(c, e)
    ensures e.user.id in Apply(c, e).users && HoldsUser(Apply(c, e).users[e.user.id], e.user)
  {
    hide Handle, Apply, TakesEffect, HoldsUser, UserRow;
    UserEventWritten(c, e);
    UserRowIff(UserRow(e.user), e.user);
  }

  /******* Memberships *******/

  /** The payload names the school. */
  predicate Names(c: Cache, p: UserPayload, s: Id) {
    s in c.schools && c.schools[s].name in p.schools
  }

  /** The school's name is the first OU of the user's DN, letter case aside. */
  ghost predicate HomeOf(c: Cache, p: UserPayload, s: Id)
    requires s in c.schools
  {
    exists ou :: LiesIn(p.dn, ou) && SameLetters(c.schools[s].name, ou)
  }

  /** The first of the named schools that are the user's home, or, when none is,
      the first of all named ones. */
  ghost predicate IsPrimary(c: Cache, p: UserPayload, s: Id) {
    && Names(c, p, s)
    && if exists t :: Names(c, p, t) && HomeOf(c, p, t) then
         HomeOf(c, p, s) && forall t :: Names(c, p, t) && HomeOf(c, p, t) ==> s <= t
       else
         forall t :: Names(c, p, t) ==> s <= t
  }

  /** One membership for each named school, with the known roles that the payload
      gives the user there. */
  ghost predicate HoldsMembership(c: Cache, next: Cache, p: UserPayload, s: Id) {
    && ((p.id, s) in next.memberships <==> Names(c, p, s))
    && ((p.id, s) in next.memberships && s in c.schools ==>
          var m := next.memberships[(p.id, s)];
          && (m.primary <==> IsPrimary(c, p, s))
          && (forall r :: r in m.roles <==>
                r in c.roles && exists x :: x in p.roles && x.role == r && x.school == c.schools[s].name))
  }

  lemma HomeIff(c: Cache, p: UserPayload, schools: set<Id>, s: Id)
    requires schools <= c.schools.Keys
    ensures s in SchoolsOfOu(c, schools, SchoolOuFromDn(p.dn)) <==> s in schools && HomeOf(c, p, s)
  {
    var ou := SchoolOuFromDn(p.dn);
    if ou.Some? {
      SchoolOuIff(p.dn, ou.value);
      if s in schools {
        LowerIff(c.schools[s].name, ou.value);
      }
    }
    forall v ensures LiesIn(p.dn, v) <==> ou == Some(v) {
      SchoolOuIff(p.dn, v);
    }
    assert ou.Some? ==> ou.value != "";
  }

  lemma PrimaryIff(c: Cache, p: UserPayload, s: Id)
    requires Names(c, p, s)
    ensures PrimarySchool(c, SchoolsNamed(c, p.schools), SchoolOuFromDn(p.dn)) == Some(s) <==> IsPrimary(c, p, s)
  {
    var schools := SchoolsNamed(c, p.schools);
    var home := SchoolsOfOu(c, schools, SchoolOuFromDn(p.dn));
    forall t ensures t in schools <==> Names(c, p, t)
             ensures t in home <==> Names(c, p, t) && HomeOf(c, p, t) {
      HomeIff(c, p, schools, t);
    }
    hide SchoolsOfOu, HomeOf;
    assert s in schools;
    if home != {} {
      var t := Least(home);
      assert Names(c, p, t) && HomeOf(c, p, t);
    } else {
      assert Least(schools) in schools;
    }
  }

  lemma UserMembershipOutcome(c: Cache, e: Event, s: Id)
    requires Valid(c) && WritesUser(e) && TakesEffect(c, e)
    ensures HoldsMembership(c, Apply(c, e), e.user, s)
  {
    hide Handle, Apply, TakesEffect, HoldsMembership, UserWritten;
    UserEventWritten(c, e);
    WrittenMembershipHolds(c, Apply(c, e), e.user, s);
  }

  lemma WrittenMembershipHolds(c: Cache, next: Cache, p: UserPayload, s: Id)
    requires UserWritten(c, next, p)
    ensures HoldsMembership(c, next, p, s)
  {
    UserWrittenMembership(c, next, p, s);
    hide UserWritten, PrimarySchool, SchoolOuFromDn, IsPrimary;
    if Names(c, p, s) {
      PrimaryIff(c, p, s);
    }
  }

  /******* Links *******/

  /** The groups that the payload lists by a DN that is not skipped, through the
      schools it names. */
  lemma UserLinkOutcome(c: Cache, e: Event, g: Id, s: Id)
    requires Valid(c) && WritesUser(e) && TakesEffect(c, e)
    ensures Link(g, e.user.id, s) in Apply(c, e).members <==>
              && g in c.groups && s == c.groups[g].school && Names(c, e.user, s)
              && exists d :: d in e.user.groups && !UnsyncableGroupDn(d) && Maps(c.groupDns, d, g)
  {
    hide Handle, Apply, TakesEffect, UnsyncableGroupDn;
    UserEventWritten(c, e);
    UserLinksShape(c, e.user);
  }

  /** A user event leaves alone what belongs to others. */
  ghost predicate OnlyUserChanged(c: Cache, next: Cache, u: Id) {
    && next.roles == c.roles && next.schools == c.schools && next.groups == c.groups
    && next.senderUsers == c.senderUsers && next.senderGroups == c.senderGroups
    && next.schoolDns == c.schoolDns && next.groupDns == c.groupDns
    && (forall v :: v != u ==> (v in next.users <==> v in c.users) && (v in c.users ==> next.users[v] == c.users[v]))
    && (forall v :: v != u ==> MembershipsOf(next, v) == MembershipsOf(c, v))
    && (forall l: Link :: l.user != u ==> (l in next.members <==> l in c.members))
    && (forall x: (Id, Id) :: x.0 != u && x.1 != u ==> (x in next.guardians <==> x in c.guardians))
  }

  lemma UserEventTablesKept(c: Cache, e: Event)
    requires WritesUser(e)
    ensures var next := Apply(c, e);
            && next.roles == c.roles && next.schools == c.schools && next.groups == c.groups
            && next.senderUsers == c.senderUsers && next.senderGroups == c.senderGroups
            && next.schoolDns == c.schoolDns && next.groupDns == c.groupDns
  {
    hide Handle, Apply, TakesEffect, UserMemberships, UserLinks, SyncGuardians, UsersByDns, UserRow, SetMapping, Unmapped;
    UserEventResult(c, e);
  }

  lemma UserEventKeepsOthers(c: Cache, e: Event)
    requires Valid(c) && WritesUser(e)
    ensures OnlyUserChanged(c, Apply(c, e), e.user.id)
  {
    hide Handle, Apply, TakesEffect, MembershipsOf, PairsAfter;
    var next, u := Apply(c, e), e.user.id;
    UserEventTablesKept(c, e);
    forall v | v != u
      ensures (v in next.users <==> v in c.users) && (v in c.users ==> next.users[v] == c.users[v])
      ensures MembershipsOf(next, v) == MembershipsOf(c, v)
    {
      UserEventFrame(c, e, v);
    }
    forall l: Link | l.user != u ensures l in next.members <==> l in c.members {
      UserEventFrame(c, e, l.user);
      assert l == Link(l.group, l.user, l.school);
    }
    UserEventPairs(c, e);
    forall x: (Id, Id) | x.0 != u && x.1 != u ensures x in next.guardians <==> x in c.guardians {
      PairsOfOthers(c, e, x.0, x.1);
      assert x == (x.0, x.1);
    }
  }

  /******* Groups *******/

  /** The school of the first role, or what the group's name starts with. */
  predicate BelongsTo(p: GroupPayload, school: string) {
    if p.roles != [] then school == p.roles[0].school
    else '-' !in school && school <= p.name && (school == p.name || p.name[|school|] == '-')
  }

  lemma BelongsToIff(p: GroupPayload, school: string)
    ensures BelongsTo(p, school) <==> school == GroupSchoolName(p)
  {
    if p.roles == [] {
      BeforeIs(p.name, '-');
      var first := Before(p.name, '-');
      if BelongsTo(p, school) {
        FirstSeparator(p.name, '-', |first|, |school|);
        assert school == p.name[..|school|] && first == p.name[..|first|];
      }
    }
  }

  /** The payload's fields, the known ones of its roles, and for the rest what a
      stored row keeps or a new one starts with. */
  ghost predicate HoldsGroup(c: Cache, row: Group, p: GroupPayload) {
    && row.name == p.name && row.displayName == p.name && row.recordUid == p.name
    && row.description == p.description && row.hasShare
    && (forall r :: r in row.roles <==> r in c.roles && exists x :: x in p.roles && x.role == r)
    && (forall r :: r in row.memberRoles <==> r in c.roles && exists x :: x in p.memberRoles && x.name == r)
    && HoldsProperties(row.udm, p.properties)
    && (if p.id in c.groups then
          && row.sourceUid == c.groups[p.id].sourceUid
          && row.email == (if p.email.Some? then p.email else c.groups[p.id].email)
        else row.sourceUid == "kelvin-connector" && row.email == p.email)
  }

  /** The school of that name if it is cached, else the stored one. */
  ghost predicate InSchool(c: Cache, row: Group, p: GroupPayload) {
    if exists s :: s in c.schools && BelongsTo(p, c.schools[s].name) then
      row.school in c.schools && BelongsTo(p, c.schools[row.school].name)
    else p.id in c.groups && row.school == c.groups[p.id].school
  }

  lemma FoundIff(c: Cache, p: GroupPayload, s: Id)
    requires UniqueSchools(c.schools)
    ensures FindSchool(c, GroupSchoolName(p)) == Some(s) <==> s in c.schools && BelongsTo(p, c.schools[s].name)
  {
    FindSchoolIff(c, GroupSchoolName(p), s);
    if s in c.schools {
      BelongsToIff(p, c.schools[s].name);
    }
  }

  lemma GroupRowHolds(c: Cache, p: GroupPayload, email: Option<string>, source: string, school: Id)
    requires if p.id in c.groups then
               source == c.groups[p.id].sourceUid && email == (if p.email.Some? then p.email else c.groups[p.id].email)
             else source == CONNECTOR_SOURCE_UID && email == p.email
    ensures HoldsGroup(c, GroupRow(c, p, email, source, school), p)
  {
    PropertiesIff(UdmProperties(p.properties), p.properties);
  }

  lemma UpdatedRowHolds(c: Cache, base: Cache, p: GroupPayload, school: Option<Id>)
    requires p.id in c.groups && base.groups == c.groups && base.roles == c.roles
    ensures HoldsGroup(c, UpdatedGroup(base, p, school).groups[p.id], p)
  {
    hide HoldsGroup;
    var row := UpdatedGroupRow(base, p, school);
    assert row == GroupRow(c, p, row.email, row.sourceUid, row.school);
    GroupRowHolds(c, p, row.email, row.sourceUid, row.school);
  }

  lemma InsertedRowHolds(c: Cache, p: GroupPayload, school: Id)
    requires p.id !in c.groups
    ensures HoldsGroup(c, InsertedGroup(c, p, school).groups[p.id], p)
  {
    hide HoldsGroup;
    GroupRowHolds(c, p, p.email, CONNECTOR_SOURCE_UID, school);
  }

  lemma GroupRowOutcome(c: Cache, e: Event)
    requires Valid(c) && WritesGroup(e) && TakesEffect(c, e)
    ensures e.group.id in Apply(c, e).groups
    ensures HoldsGroup(c, Apply(c, e).groups[e.group.id], e.group)
    ensures InSchool(c, Apply(c, e).groups[e.group.id], e.group)
  {
    hide Handle, Apply, FindSchool, HoldsGroup, InSchool, UpdatedGroup, InsertedGroup, BelongsTo, GroupSchoolName;
    var p := e.group;
    GroupEventRow(c, e);
    GroupEventResult(c, e);
    if p.id in c.groups {
      UpdatedRowHolds(c, GroupLookups(c, e), p, FindSchool(c, GroupSchoolName(p)));
    } else {
      InsertedRowHolds(c, p, FindSchool(c, GroupSchoolName(p)).value);
    }
    SchoolAfterHolds(c, p, Apply(c, e).groups[p.id]);
  }

  lemma SchoolAfterHolds(c: Cache, p: GroupPayload, row: Group)
    requires UniqueSchools(c.schools) && (p.id in c.groups || FindSchool(c, GroupSchoolName(p)).Some?)
    requires row.school == SchoolAfter(c, p)
    ensures InSchool(c, row, p)
  {
    hide FindSchool, BelongsTo, GroupSchoolName;
    forall s ensures FindSchool(c, GroupSchoolName(p)) == Some(s) <==> s in c.schools && BelongsTo(p, c.schools[s].name) {
      FoundIff(c, p, s);
    }
  }

  /** Senders are those that the payload lists by a DN that is known when the
      event is handled; a modify does not see the group's own. */
  lemma GroupSenderOutcome(c: Cache, e: Event, x: Id)
    requires Valid(c) && WritesGroup(e) && TakesEffect(c, e)
    ensures (e.group.id, x) in Apply(c, e).senderUsers <==>
              exists d :: d in e.group.senderUsers && Maps(c.userDns, d, x)
    ensures (e.group.id, x) in Apply(c, e).senderGroups <==>
              exists d :: d in e.group.senderGroups && !UnsyncableGroupDn(d) && Maps(GroupLookups(c, e).groupDns, d, x)
  {
    hide Handle, Apply, FindSchool, UpdatedGroup, InsertedGroup, UnsyncableGroupDn;
    GroupEventResult(c, e);
    if e.group.id in c.groups {
      SendersOfUpdated(c, GroupLookups(c, e), e.group, FindSchool(c, GroupSchoolName(e.group)), x);
    } else {
      SendersOfInserted(c, e.group, FindSchool(c, GroupSchoolName(e.group)).value, x);
    }
  }

  lemma SendersOfUpdated(c: Cache, base: Cache, p: GroupPayload, school: Option<Id>, x: Id)
    requires p.id in c.groups && base == c.(groupDns := base.groupDns)
    requires DnBijection(c.userDns, c.users.Keys) && forall d :: d in base.groupDns ==> base.groupDns[d] in c.groups
    ensures (p.id, x) in UpdatedGroup(base, p, school).senderUsers <==> exists d :: d in p.senderUsers && Maps(c.userDns, d, x)
    ensures (p.id, x) in UpdatedGroup(base, p, school).senderGroups
      <==> exists d :: d in p.senderGroups && !UnsyncableGroupDn(d) && Maps(base.groupDns, d, x)
  {
    hide UnsyncableGroupDn;
  }

  lemma SendersOfInserted(c: Cache, p: GroupPayload, school: Id, x: Id)
    requires ForeignKeys(c) && DnMaps(c) && p.id !in c.groups
    ensures (p.id, x) in InsertedGroup(c, p, school).senderUsers <==> exists d :: d in p.senderUsers && Maps(c.userDns, d, x)
    ensures (p.id, x) in InsertedGroup(c, p, school).senderGroups
      <==> exists d :: d in p.senderGroups && !UnsyncableGroupDn(d) && Maps(c.groupDns, d, x)
  {
    hide UnsyncableGroupDn;
  }

  ghost predicate OnlyGroupChanged(c: Cache, next: Cache, g: Id) {
    && next.roles == c.roles && next.schools == c.schools && next.users == c.users
    && next.memberships == c.memberships && next.guardians == c.guardians
    && next.schoolDns == c.schoolDns && next.userDns == c.userDns
    && (forall h :: h != g ==> (h in next.groups <==> h in c.groups) && (h in c.groups ==> next.groups[h] == c.groups[h]))
    && (forall l: Link :: l.group != g ==> (l in next.members <==> l in c.members))
    && (forall x: (Id, Id) :: x.0 != g ==> (x in next.senderUsers <==> x in c.senderUsers))
    && (forall x: (Id, Id) :: x.0 != g ==> (x in next.senderGroups <==> x in c.senderGroups))
  }

  lemma GroupEventKeepsOthers(c: Cache, e: Event)
    requires Valid(c) && WritesGroup(e)
    ensures OnlyGroupChanged(c, Apply(c, e), e.group.id)
  {
    hide Handle, Apply, FindSchool, UpdatedGroup, InsertedGroup, OnlyGroupChanged;
    var p := e.group;
    GroupEventResult(c, e);
    if !TakesEffect(c, e) {
      NothingChanged(c, p.id);
    } else if p.id in c.groups {
      UpdatedKeepsOthers(c, GroupLookups(c, e), p, FindSchool(c, GroupSchoolName(p)), Apply(c, e));
    } else {
      InsertedKeepsOthers(c, p, FindSchool(c, GroupSchoolName(p)).value, Apply(c, e));
    }
  }

  lemma NothingChanged(c: Cache, g: Id)
    ensures OnlyGroupChanged(c, c, g)
  {
  }

  lemma UpdatedKeepsOthers(c: Cache, base: Cache, p: GroupPayload, school: Option<Id>, next: Cache)
    requires p.id in c.groups && base == c.(groupDns := base.groupDns)
    requires next == UpdatedGroup(base, p, school).(groupDns := next.groupDns)
    ensures OnlyGroupChanged(c, next, p.id)
  {
    hide GroupRow, MembersByDns, UsersByDns, GroupsByDns, SyncMembers;
    var wanted := MembersByDns(base, p.users, UpdatedGroupRow(base, p, school).school);
    forall l: Link | l.group != p.id ensures l in SyncMembers(base, p.id, wanted) <==> l in c.members {
      SyncMembersOthers(base, p.id, wanted, l);
    }
  }

  lemma InsertedKeepsOthers(c: Cache, p: GroupPayload, school: Id, next: Cache)
    requires next == InsertedGroup(c, p, school).(groupDns := next.groupDns)
    ensures OnlyGroupChanged(c, next, p.id)
  {
    hide GroupRow, MembersByDns, UsersByDns, GroupsByDns, LinksOf;
    var members := MembersByDns(c, p.users, school);
    forall l: Link | l.group != p.id ensures l !in LinksOf(p.id, members, school) {
      LinksOfIff(p.id, members, school, l);
    }
  }

  /** The payload lists the user by a known DN, and the user is a member of the
      school. */
  ghost predicate Asked(c: Cache, p: GroupPayload, school: Id, u: Id) {
    (exists d :: d in p.users && Maps(c.userDns, d, u)) && (u, school) in c.memberships
  }

  ghost predicate ListIsStored(c: Cache, p: GroupPayload, school: Id) {
    p.id in c.groups && forall v :: Asked(c, p, school, v) <==> Linked(c, p.id, v)
  }

  lemma AskedIff(c: Cache, p: GroupPayload, school: Id, u: Id)
    requires DnBijection(c.userDns, c.users.Keys)
    ensures u in MembersByDns(c, p.users, school) <==> Asked(c, p, school, u)
  {
  }

  lemma ListIsStoredIff(c: Cache, p: GroupPayload)
    requires DnBijection(c.userDns, c.users.Keys) && p.id in c.groups
    ensures WantedMembers(c, p) == LinkedUsers(c, p.id) <==> ListIsStored(c, p, TargetSchool(c, p))
  {
    hide TargetSchool, MembersByDns, LinkedUsers, Asked, Linked;
    forall v
      ensures v in WantedMembers(c, p) <==> Asked(c, p, TargetSchool(c, p), v)
      ensures v in LinkedUsers(c, p.id) <==> Linked(c, p.id, v)
    {
      AskedIff(c, p, TargetSchool(c, p), v);
      LinkedUsersIff(c, p.id, v);
    }
  }

  /** A stored list keeps its links. Any other is replaced by links of the asked
      users, through their memberships of the school the row had before. */
  lemma GroupLinkOutcome(c: Cache, e: Event, u: Id, s: Id)
    requires Valid(c) && WritesGroup(e) && TakesEffect(c, e)
    ensures e.group.id in Apply(c, e).groups
    ensures var p := e.group; var school := Apply(c, e).groups[p.id].school;
            Link(p.id, u, s) in Apply(c, e).members <==>
              if ListIsStored(c, p, school) then Link(p.id, u, s) in c.members
              else && Asked(c, p, school, u) && (u, s) in c.memberships
                   && s == if p.id in c.groups then c.groups[p.id].school else school
  {
    hide Handle, Apply, FindSchool, SyncMembers, UpdatedGroup, InsertedGroup, MembersByDns, LinkedUsers, Asked;
    var p := e.group;
    GroupEventResult(c, e);
    GroupEventRow(c, e);
    if p.id in c.groups {
      UpdatedGroupMembers(c, e);
      ListIsStoredIff(c, p);
      AskedIff(c, p, TargetSchool(c, p), u);
      SyncedLink(c, p, u, s);
    } else {
      var school := FindSchool(c, GroupSchoolName(p)).value;
      AskedIff(c, p, school, u);
      InsertedLink(c, p, school, u, s);
    }
  }

  lemma SyncedLink(c: Cache, p: GroupPayload, u: Id, s: Id)
    requires p.id in c.groups
    ensures Link(p.id, u, s) in SyncMembers(c, p.id, WantedMembers(c, p)) <==>
              if WantedMembers(c, p) == LinkedUsers(c, p.id) then Link(p.id, u, s) in c.members
              else u in WantedMembers(c, p) && (u, s) in c.memberships && s == c.groups[p.id].school
  {
    hide WantedMembers, LinkedUsers, LinksOf;
    var wanted, school := WantedMembers(c, p), c.groups[p.id].school;
    LinksOfIff(p.id, (set v | v in wanted && (v, school) in c.memberships), school, Link(p.id, u, s));
  }

  lemma InsertedLink(c: Cache, p: GroupPayload, school: Id, u: Id, s: Id)
    requires ForeignKeys(c) && p.id !in c.groups
    ensures Link(p.id, u, s) in InsertedGroup(c, p, school).members
      <==> u in MembersByDns(c, p.users, school) && s == school
    ensures u in MembersByDns(c, p.users, school) ==> (u, school) in c.memberships
  {
    hide LinksOf;
    LinksOfIff(p.id, MembersByDns(c, p.users, school), school, Link(p.id, u, s));
  }

  /******* Schools *******/

  /** A server reference gives the leaf of a DN, or a name that is not empty. */
  predicate HoldsServer(server: Option<string>, ref: Option<ServerRef>) {
    if ref.None? || ref == Some(ByName("")) then server == None
    else if ref.value.ByName? then server == Some(ref.value.name)
    else server == Some(if ref.value.dn == [] then "" else ref.value.dn[0].value)
  }

  ghost predicate HoldsSchool(c: Cache, row: School, p: SchoolPayload) {
    && row.name == p.name && row.displayName == p.displayName
    && HoldsServer(row.classServer, p.classServer) && HoldsServer(row.homeServer, p.homeServer)
    && HoldsProperties(row.udm, p.properties)
    && (if p.id in c.schools then
          && row.recordUid == c.schools[p.id].recordUid && row.sourceUid == c.schools[p.id].sourceUid
          && row.educationalServers == c.schools[p.id].educationalServers
          && row.administrativeServers == c.schools[p.id].administrativeServers
        else
          && row.recordUid == p.name && row.sourceUid == "kelvin-connector"
          && row.educationalServers == {} && row.administrativeServers == {})
  }

  ghost predicate OnlySchoolChanged(c: Cache, next: Cache, s: Id) {
    && next == c.(schools := next.schools, schoolDns := next.schoolDns)
    && (forall t :: t != s ==> (t in next.schools <==> t in c.schools) && (t in c.schools ==> next.schools[t] == c.schools[t]))
  }

  lemma WriteSchoolResult(c: Cache, p: SchoolPayload)
    requires p.id in c.schools && WriteSchool(c, p).Committed?
    ensures WriteSchool(c, p).cache == c.(schools := c.schools[p.id := WrittenSchoolRow(c, p)])
  {
    hide ValidSchool, SchoolFits, ServerHostname, UdmProperties;
    assert c.schools == c.schools[p.id := c.schools[p.id]];
  }

  lemma SchoolEventResult(c: Cache, p: SchoolPayload, e: Event)
    requires (e == SchoolCreate(p) || e == SchoolModify(p)) && Handle(c, e).Committed?
    ensures var next := Apply(c, e);
            && p.id in next.schools && next == c.(schools := c.schools[p.id := next.schools[p.id]], schoolDns := next.schoolDns)
            && next.schools[p.id] == (if p.id in c.schools then WrittenSchoolRow(c, p) else NewSchoolRow(p))
            && next.schoolDns == (if e.SchoolCreate? && p.id in c.schools then c.schoolDns
                                  else SetMapping(c.schoolDns, p.dn, p.id))
  {
    hide WriteSchool, WrittenSchoolRow, NewSchoolRow, SchoolFits, SetMapping, Unmapped;
    UnmappedTwice(c.schoolDns, p.dn, p.id);
    if p.id in c.schools {
      var base := if e.SchoolCreate? then c else UnmapSchool(c, p);
      WriteSchoolResult(base, p);
      SameWrittenRow(c, base, p);
    }
  }

  lemma SameWrittenRow(c: Cache, base: Cache, p: SchoolPayload)
    requires p.id in c.schools && base.schools == c.schools
    ensures WrittenSchoolRow(base, p) == WrittenSchoolRow(c, p)
  {
  }

  function WrittenSchoolRow(c: Cache, p: SchoolPayload): School
    requires p.id in c.schools
  {
    c.schools[p.id].(
      name := p.name, displayName := p.displayName,
      classServer := ServerHostname(p.classServer), homeServer := ServerHostname(p.homeServer),
      udm := UdmProperties(p.properties))
  }

  /** A school event leaves the payload's row, the record keys and servers of a
      stored one, and the DN map with its DN unless it is a create event for a
      stored row. */
  lemma SchoolOutcome(c: Cache, e: Event)
    requires WritesSchool(e) && Handle(c, e).Committed?
    ensures var p := e.school; var next := Apply(c, e);
            && p.id in next.schools && HoldsSchool(c, next.schools[p.id], p)
            && OnlySchoolChanged(c, next, p.id)
            && (forall d, t :: Maps(next.schoolDns, d, t) <==>
                  if e.SchoolCreate? && p.id in c.schools then Maps(c.schoolDns, d, t)
                  else if d == p.dn || t == p.id then d == p.dn && t == p.id
                  else Maps(c.schoolDns, d, t))
  {
    hide Handle, Apply;
    SchoolEventResult(c, e.school, e);
    PropertiesIff(UdmProperties(e.school.properties), e.school.properties);
  }

  /******* Host groups *******/

  /** The first school whose name the pattern matches. */
  ghost predicate FirstMatch(c: Cache, pattern: string, s: Id) {
    && s in c.schools && GlobMatchesCi(pattern, c.schools[s].name)
    && forall t :: t in c.schools && GlobMatchesCi(pattern, c.schools[t].name) ==> s <= t
  }

  ghost predicate AreHosts(servers: set<string>, e: Event)
    requires e.HostGroupSet? || e.HostGroupDelete?
  {
    forall h :: h in servers <==>
      e.HostGroupSet? && exists d: Dn :: d in e.hosts && h == if d == [] then "" else d[0].value
  }

  /** One kind of servers of the school is replaced, and nothing else. */
  ghost predicate HoldsServers(c: Cache, next: Cache, e: Event, s: Id)
    requires e.HostGroupSet? || e.HostGroupDelete?
    requires s in c.schools
  {
    && s in next.schools && next == c.(schools := c.schools[s := next.schools[s]])
    && if e.kind.Educational? then
         AreHosts(next.schools[s].educationalServers, e)
         && next.schools[s] == c.schools[s].(educationalServers := next.schools[s].educationalServers)
       else
         AreHosts(next.schools[s].administrativeServers, e)
         && next.schools[s] == c.schools[s].(administrativeServers := next.schools[s].administrativeServers)
  }

  lemma HostGroupResult(c: Cache, e: Event, hosts: set<string>, s: Id)
    requires (e.HostGroupSet? && hosts == set h | h in e.hosts :: HostName(h)) || (e.HostGroupDelete? && hosts == {})
    requires FirstMatch(c, e.schoolName, s)
    ensures Handle(c, e) == StoreSchool(c, s, match e.kind
                                              case Educational => c.schools[s].(educationalServers := hosts)
                                              case Administrative => c.schools[s].(administrativeServers := hosts))
  {
    hide GlobMatchesCi, StoreSchool, HostName;
    assert s in SchoolsMatching(c, e.schoolName);
  }

  lemma StoredHolds(c: Cache, e: Event, hosts: set<string>, s: Id, row: School)
    requires (e.HostGroupSet? || e.HostGroupDelete?) && AreHosts(hosts, e) && s in c.schools
    requires row == match e.kind
                    case Educational => c.schools[s].(educationalServers := hosts)
                    case Administrative => c.schools[s].(administrativeServers := hosts)
    requires StoreSchool(c, s, row).Committed?
    ensures HoldsServers(c, StoreSchool(c, s, row).cache, e, s)
  {
    hide AreHosts, ValidSchool, SchoolFits;
    assert c.schools == c.schools[s := c.schools[s]];
  }

  /** The hosts of the group become the servers of one kind of the first school
      that its name matches; without such a school a deletion does nothing and
      any other event fails. */
  lemma HostGroupOutcome(c: Cache, e: Event, s: Id)
    requires (e.HostGroupSet? || e.HostGroupDelete?) && FirstMatch(c, e.schoolName, s)
    requires Handle(c, e).Committed?
    ensures HoldsServers(c, Apply(c, e), e, s)
  {
    hide Handle, StoreSchool, HoldsServers, GlobMatchesCi;
    var hosts := if e.HostGroupSet? then set h | h in e.hosts :: HostName(h) else {};
    HostGroupResult(c, e, hosts, s);
    StoredHolds(c, e, hosts, s, match e.kind
                                case Educational => c.schools[s].(educationalServers := hosts)
                                case Administrative => c.schools[s].(administrativeServers := hosts));
  }

  lemma NoMatchOutcome(c: Cache, e: Event)
    requires e.HostGroupSet? || e.HostGroupDelete?
    requires forall t :: t in c.schools ==> !GlobMatchesCi(e.schoolName, c.schools[t].name)
    ensures Handle(c, e) == if e.HostGroupDelete? then Committed(c) else Failed
  {
    hide GlobMatchesCi;
  }
}
