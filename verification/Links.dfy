/** The link tables after a write, and the same-school invariant. */
module Links {
  import opened Text
  import opened Schema
  import opened Events
  import opened Sync
  import opened Integrity

  /******* The link tables after a write *******/

  lemma SyncGuardiansIff(pairs: set<(Id, Id)>, u: Id, guardians: set<Id>, wards: set<Id>, p: (Id, Id))
    requires u in guardians <==> u in wards
    ensures p in SyncGuardians(pairs, u, guardians, wards)
      <==> if p.1 == u then p.0 in guardians else if p.0 == u then p.1 in wards else p in pairs
  {
    assert p.0 in GuardiansOf(pairs, u) <==> (p.0, u) in pairs by {
      if (p.0, u) in pairs { assert (p.0, u).0 in GuardiansOf(pairs, u); }
    }
    assert p.1 in WardsOf(pairs, u) <==> (u, p.1) in pairs by {
      if (u, p.1) in pairs { assert (u, p.1).1 in WardsOf(pairs, u); }
    }
    assert u in WardsOf(pairs, u) <==> (u, u) in pairs by {
      if (u, u) in pairs { assert (u, u).1 in WardsOf(pairs, u); }
    }
    assert u in GuardiansOf(pairs, u) <==> (u, u) in pairs by {
      if (u, u) in pairs { assert (u, u).0 in GuardiansOf(pairs, u); }
    }
    assert p == (p.0, p.1);
  }

  lemma SelfPair(pairs: set<(Id, Id)>, u: Id)
    ensures u in GuardiansOf(pairs, u) <==> (u, u) in pairs
    ensures u in WardsOf(pairs, u) <==> (u, u) in pairs
  {
    if (u, u) in pairs {
      assert (u, u).0 in GuardiansOf(pairs, u) && (u, u).1 in WardsOf(pairs, u);
    }
  }

  /** Both lists come out as wanted exactly when they agree about the user itself. */
  lemma SyncedGuardians(pairs: set<(Id, Id)>, u: Id, guardians: set<Id>, wards: set<Id>)
    ensures var synced := SyncGuardians(pairs, u, guardians, wards);
            GuardiansOf(synced, u) == guardians && WardsOf(synced, u) == wards
            <==> (u in guardians <==> u in wards)
  {
    var synced := SyncGuardians(pairs, u, guardians, wards);
    SelfPair(synced, u);
    forall x | u in guardians <==> u in wards
      ensures x in GuardiansOf(synced, u) <==> x in guardians
      ensures x in WardsOf(synced, u) <==> x in wards
    {
      SyncGuardiansIff(pairs, u, guardians, wards, (x, u));
      SyncGuardiansIff(pairs, u, guardians, wards, (u, x));
      if x in guardians { assert (x, u).0 in GuardiansOf(synced, u); }
      if x in wards { assert (u, x).1 in WardsOf(synced, u); }
    }
  }

  lemma LinkedUsersIff(c: Cache, g: Id, u: Id)
    ensures u in LinkedUsers(c, g) <==> Linked(c, g, u)
  {
    if Linked(c, g, u) {
      var s :| Link(g, u, s) in c.members;
      assert Link(g, u, s).user in LinkedUsers(c, g);
    }
    if u in LinkedUsers(c, g) {
      var l :| l in c.members && l.group == g && l.user == u;
      assert Link(g, u, l.school) == l;
    }
  }

  lemma LinksOfIff(g: Id, users: set<Id>, s: Id, l: Link)
    ensures l in LinksOf(g, users, s) <==> l.group == g && l.school == s && l.user in users
  {
    if l.group == g && l.school == s && l.user in users {
      assert l == Link(g, l.user, s);
    }
  }

  /** A group event loses members when it moves the group to another school
      and some wanted member holds no membership of the school it leaves. */
  ghost predicate LosesMembers(c: Cache, g: Id, wanted: set<Id>)
    requires g in c.groups
  {
    && wanted != LinkedUsers(c, g)
    && exists u :: u in wanted && (u, c.groups[g].school) !in c.memberships
  }

  /** Who is linked to the group after its member list was written. */
  lemma SyncMembersIff(c: Cache, g: Id, wanted: set<Id>, next: Cache, u: Id)
    requires g in c.groups && next.members == SyncMembers(c, g, wanted)
    ensures Linked(next, g, u)
      <==> u in wanted && (wanted == LinkedUsers(c, g) || (u, c.groups[g].school) in c.memberships)
  {
    LinkedUsersIff(c, g, u);
    if wanted != LinkedUsers(c, g) {
      var school := c.groups[g].school;
      var kept := set v | v in wanted && (v, school) in c.memberships;
      forall s ensures Link(g, u, s) in next.members <==> s == school && u in kept {
        LinksOfIff(g, kept, school, Link(g, u, s));
      }
      assert Linked(next, g, u) <==> u in kept by {
        if u in kept { assert Link(g, u, school) in next.members; }
      }
    }
  }

  lemma SyncMembersOthers(c: Cache, g: Id, wanted: set<Id>, l: Link)
    requires g in c.groups && l.group != g
    ensures l in SyncMembers(c, g, wanted) <==> l in c.members
  {
    if wanted != LinkedUsers(c, g) {
      var school := c.groups[g].school;
      LinksOfIff(g, (set v | v in wanted && (v, school) in c.memberships), school, l);
    }
  }

  lemma SyncedMembers(c: Cache, g: Id, wanted: set<Id>, next: Cache)
    requires g in c.groups && next.members == SyncMembers(c, g, wanted)
    ensures LinkedUsers(next, g) == wanted <==> !LosesMembers(c, g, wanted)
  {
    forall u ensures u in LinkedUsers(next, g) <==> Linked(next, g, u) {
      LinkedUsersIff(next, g, u);
    }
    forall u
      ensures Linked(next, g, u)
        <==> u in wanted && (wanted == LinkedUsers(c, g) || (u, c.groups[g].school) in c.memberships)
    {
      SyncMembersIff(c, g, wanted, next, u);
    }
  }

  /******* The same-school invariant *******/

  /** The school the group row would be given, and the members it would keep. */
  function TargetSchool(c: Cache, p: GroupPayload): Id
    requires p.id in c.groups
  {
    var found := FindSchool(c, GroupSchoolName(p));
    if found.Some? then found.value else c.groups[p.id].school
  }

  function WantedMembers(c: Cache, p: GroupPayload): set<Id>
    requires p.id in c.groups
  {
    MembersByDns(c, p.users, TargetSchool(c, p))
  }

  function GroupOf(e: Event): GroupPayload
    requires WritesGroup(e)
  {
    e.group
  }

  /** The event moves an existing group away from a school of which a wanted
      member still holds a membership. */
  ghost predicate StrandsLinks(c: Cache, e: Event) {
    && WritesGroup(e)
    && GroupOf(e).id in c.groups
    && TargetSchool(c, GroupOf(e)) != c.groups[GroupOf(e).id].school
    && exists u :: u in WantedMembers(c, GroupOf(e)) && (u, c.groups[GroupOf(e).id].school) in c.memberships
  }

  lemma UserWriteSameSchool(c: Cache, p: UserPayload)
    requires SameSchool(c)
    ensures SameSchool(UpdatedUser(c, p)) && SameSchool(InsertedUser(c, p))
  {
    UserLinksShape(c, p);
  }

  lemma GroupInsertSameSchool(c: Cache, p: GroupPayload, school: Id)
    requires SameSchool(c) && ForeignKeys(c) && p.id !in c.groups
    ensures SameSchool(InsertedGroup(c, p, school))
  {
    var next := InsertedGroup(c, p, school);
    forall l | l in next.members && l.group in next.groups
      ensures next.groups[l.group].school == l.school
    {
      LinksOfIff(p.id, MembersByDns(c, p.users, school), school, l);
    }
  }

  lemma GroupUpdateSameSchool(c: Cache, p: GroupPayload, school: Option<Id>)
    requires SameSchool(c) && ForeignKeys(c) && p.id in c.groups
    ensures var stored := c.groups[p.id].school;
            var target := if school.Some? then school.value else stored;
            SameSchool(UpdatedGroup(c, p, school)) <==>
              target == stored || forall u :: u in MembersByDns(c, p.users, target) ==> (u, stored) !in c.memberships
  {
    var next := UpdatedGroup(c, p, school);
    var stored := c.groups[p.id].school;
    var target := if school.Some? then school.value else stored;
    var wanted := MembersByDns(c, p.users, target);
    forall l | l in next.members && l.group != p.id
      ensures l.group in next.groups && next.groups[l.group].school == l.school
    {
      SyncMembersOthers(c, p.id, wanted, l);
    }
    forall l | l in next.members && l.group == p.id
      ensures l.school == stored && l.user in wanted && (l.user, stored) in c.memberships
    {
      GroupLinksAreStored(c, p.id, wanted, l);
    }
    forall u | u in wanted && (u, stored) in c.memberships
      ensures Link(p.id, u, stored) in next.members
    {
      SyncMembersIff(c, p.id, wanted, next, u);
    }
  }

  lemma GroupLinksAreStored(c: Cache, g: Id, wanted: set<Id>, l: Link)
    requires SameSchool(c) && ForeignKeys(c) && g in c.groups
    requires l in SyncMembers(c, g, wanted) && l.group == g
    ensures l.school == c.groups[g].school && l.user in wanted && (l.user, l.school) in c.memberships
  {
    if wanted == LinkedUsers(c, g) {
      assert l.user in LinkedUsers(c, g);
    } else {
      var school := c.groups[g].school;
      LinksOfIff(g, (set v | v in wanted && (v, school) in c.memberships), school, l);
    }
  }

  lemma WriteGroupSameSchool(c: Cache, p: GroupPayload, school: Option<Id>)
    requires SameSchool(c) && ForeignKeys(c) && p.id in c.groups && WriteGroup(c, p, school).Committed?
    ensures var stored := c.groups[p.id].school;
            var target := if school.Some? then school.value else stored;
            SameSchool(WriteGroup(c, p, school).cache) <==>
              target == stored || forall u :: u in MembersByDns(c, p.users, target) ==> (u, stored) !in c.memberships
  {
    GroupUpdateSameSchool(c, p, school);
  }

  lemma UserCreateSameSchool(c: Cache, p: UserPayload)
    requires SameSchool(c) && HandleUserCreate(c, p).Committed?
    ensures SameSchool(HandleUserCreate(c, p).cache)
  {
    UserWriteSameSchool(c, p);
    hide UserRow, UserMemberships, UserLinks, SyncGuardians, UsersByDns;
  }

  lemma UserModifySameSchool(c: Cache, p: UserPayload)
    requires SameSchool(c) && p.id in c.users && HandleUserModify(c, p).Committed?
    ensures SameSchool(HandleUserModify(c, p).cache)
  {
    UserWriteSameSchool(UnmapUser(c, p), p);
    hide UserRow, UserMemberships, UserLinks, SyncGuardians, UsersByDns;
  }

  lemma UserEventSameSchool(c: Cache, e: Event)
    requires SameSchool(c) && WritesUser(e) && Handle(c, e).Committed?
    ensures SameSchool(Apply(c, e))
  {
    hide SameSchool, HandleUserCreate;
    if e.UserModify? && e.user.id in c.users {
      UserModifySameSchool(c, e.user);
    } else {
      UserCreateSameSchool(c, e.user);
    }
  }

  lemma GroupEventSameSchool(c: Cache, e: Event)
    requires SameSchool(c) && ForeignKeys(c) && WritesGroup(e) && Handle(c, e).Committed?
    ensures SameSchool(Apply(c, e)) <==> !StrandsLinks(c, e)
  {
    var p := e.group;
    var found := FindSchool(c, GroupSchoolName(p));
    if p.id !in c.groups {
      if found.Some? {
        GroupInsertSameSchool(c, p, found.value);
      }
    } else if e.GroupCreate? {
      if found.Some? {
        WriteGroupSameSchool(c, p, found);
      }
    } else {
      hide ForeignKeys, SameSchool, StrandsLinks, HandleGroupModify, FindSchool;
      GroupModifySameSchool(c, p);
    }
  }

  lemma GroupModifySameSchool(c: Cache, p: GroupPayload)
    requires SameSchool(c) && ForeignKeys(c) && p.id in c.groups && HandleGroupModify(c, p).Committed?
    ensures SameSchool(HandleGroupModify(c, p).cache) <==> !StrandsLinks(c, GroupModify(p))
  {
    var found := FindSchool(c, GroupSchoolName(p));
    var unmapped := UnmapGroup(c, p);
    assert FindSchool(unmapped, GroupSchoolName(p)) == found;
    assert MembersByDns(unmapped, p.users, TargetSchool(c, p)) == WantedMembers(c, p);
    hide WriteGroup, MembersByDns, FindSchool;
    WriteGroupSameSchool(unmapped, p, found);
    assert HandleGroupModify(c, p).cache.members == WriteGroup(unmapped, p, found).cache.members;
    StrandsIff(c, p, WriteGroup(unmapped, p, found).cache);
  }

  lemma StrandsIff(c: Cache, p: GroupPayload, next: Cache)
    requires p.id in c.groups
    requires SameSchool(next) <==>
               TargetSchool(c, p) == c.groups[p.id].school
               || forall u :: u in WantedMembers(c, p) ==> (u, c.groups[p.id].school) !in c.memberships
    ensures SameSchool(next) <==> !StrandsLinks(c, GroupModify(p))
  {
  }

  lemma SchoolTablesOnly(c: Cache, e: Event)
    requires e.SchoolCreate? || e.SchoolModify? || e.HostGroupSet? || e.HostGroupDelete?
    ensures Apply(c, e) == c.(schools := Apply(c, e).schools, schoolDns := Apply(c, e).schoolDns)
  {
  }

  /** Every committed event keeps each member link within its group's school,
      except exactly the group moves that strand a link. */
  lemma SameSchoolExactly(c: Cache, e: Event)
    requires Valid(c) && SameSchool(c) && Handle(c, e).Committed?
    ensures SameSchool(Apply(c, e)) <==> !StrandsLinks(c, e)
  {
    if WritesUser(e) {
      UserEventSameSchool(c, e);
    } else if WritesGroup(e) {
      GroupEventSameSchool(c, e);
    } else if e.SchoolCreate? || e.SchoolModify? || e.HostGroupSet? || e.HostGroupDelete? {
      SchoolTablesOnly(c, e);
    }
  }

  /** Without such a move, a whole run keeps the links within their schools. */
  lemma {:induction false} RunKeepsSameSchool(c: Cache, events: seq<Event>)
    requires Valid(c) && SameSchool(c)
    requires forall k :: 0 <= k < |events| ==> !StrandsLinks(Run(c, events[..k]), events[k])
    ensures SameSchool(Run(c, events))
  {
    if events != [] {
      var n := |events| - 1;
      forall k | 0 <= k < n
        ensures !StrandsLinks(Run(c, events[..n][..k]), events[..n][k])
      {
        assert events[..n][..k] == events[..k];
      }
      RunKeepsSameSchool(c, events[..n]);
      RunKeepsValid(c, events[..n]);
      if Handle(Run(c, events[..n]), events[n]).Committed? {
        SameSchoolExactly(Run(c, events[..n]), events[n]);
      }
    }
  }

  /******* Deleting a school *******/

  /** A cached school is deleted exactly when no group refers to it. Users and
      groups stay; the school's memberships go; links go exactly when they run
      through such a membership, which a same-school cache rules out. */
  lemma SchoolDeleteEffect(c: Cache, s: Id)
    requires Valid(c) && s in c.schools
    ensures HandleSchoolDelete(c, s).Committed? <==> forall g :: g in c.groups ==> c.groups[g].school != s
    ensures HandleSchoolDelete(c, s).Committed? ==>
              var next := HandleSchoolDelete(c, s).cache;
              && next.users == c.users && next.groups == c.groups
              && s !in next.schools
              && (forall k :: k in next.memberships <==> k in c.memberships && k.1 != s)
              && (next.members == c.members <==> forall l :: l in c.members ==> l.school != s)
              && (SameSchool(c) ==> next.members == c.members)
  {
    if HandleSchoolDelete(c, s).Committed? {
      var next := HandleSchoolDelete(c, s).cache;
      if forall l :: l in c.members ==> l.school != s {
        assert next.members == c.members;
      }
      if l :| l in c.members && l.school == s {
        assert l !in next.members;
      }
    }
  }
}
