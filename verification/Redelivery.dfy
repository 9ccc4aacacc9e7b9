/** Handling an event a second time: exactly when that changes nothing. */
module Redelivery {
  import opened Text
  import opened Schema
  import opened Events
  import opened Sync
  import opened Integrity
  import opened Links

  /******* DN maps *******/

  lemma UnmappedTwice(dns: map<Dn, Id>, dn: Dn, id: Id)
    ensures Unmapped(SetMapping(dns, dn, id), dn, id) == Unmapped(dns, dn, id)
    ensures SetMapping(Unmapped(dns, dn, id), dn, id) == SetMapping(dns, dn, id)
    ensures SetMapping(SetMapping(dns, dn, id), dn, id) == SetMapping(dns, dn, id)
  {
  }

  /** With its rows gone, an object does not resolve itself. */
  lemma UnmappedResolves(dns: map<Dn, Id>, dn: Dn, id: Id, refs: seq<Dn>)
    ensures id !in Resolve(Unmapped(dns, dn, id), refs)
    ensures forall x :: x in Resolve(Unmapped(dns, dn, id), refs) <==>
                          exists d :: d in refs && d != dn && d in dns && dns[d] == x && x != id
  {
  }

  /** The new DN apart, a mapping for a fresh row resolves as before. */
  lemma ResolveAfterInsert(dns: map<Dn, Id>, dn: Dn, id: Id, refs: seq<Dn>)
    requires id !in dns.Values
    ensures dn !in refs ==> Resolve(SetMapping(dns, dn, id), refs) == Resolve(dns, refs)
    ensures id in Resolve(SetMapping(dns, dn, id), refs) <==> dn in refs
    ensures id !in Resolve(dns, refs)
  {
    var mapped := SetMapping(dns, dn, id);
    forall d | d in refs && d in dns && d != dn
      ensures d in mapped && mapped[d] == dns[d]
    {
      assert dns[d] in dns.Values;
    }
    assert forall d :: d in mapped && mapped[d] == id ==> d == dn;
    if dn in refs {
      assert mapped[dn] in Resolve(mapped, refs);
    }
    if dn !in refs {
      forall x ensures x in Resolve(mapped, refs) <==> x in Resolve(dns, refs) {
        if x in Resolve(mapped, refs) {
          var d :| d in refs && d in mapped && mapped[d] == x;
          assert dns[d] == x;
        }
        if x in Resolve(dns, refs) {
          var d :| d in refs && d in dns && dns[d] == x;
          assert mapped[d] == x;
        }
      }
    }
  }

  /******* Users *******/

  lemma SameMemberships(c: Cache, d: Cache, p: UserPayload)
    requires d.roles == c.roles && d.schools == c.schools
    ensures UserMemberships(d, p) == UserMemberships(c, p)
  {
    assert SchoolsNamed(d, p.schools) == SchoolsNamed(c, p.schools);
  }

  lemma SameUserLinks(c: Cache, d: Cache, p: UserPayload)
    requires d.schools == c.schools && d.groups == c.groups && d.groupDns == c.groupDns
    ensures UserLinks(d, p) == UserLinks(c, p)
  {
    assert GroupsByDns(d, p.groups) == GroupsByDns(c, p.groups);
    assert SchoolsNamed(d, p.schools) == SchoolsNamed(c, p.schools);
  }

  lemma ReplaceMembershipsTwice(m: map<(Id, Id), Membership>, w: map<(Id, Id), Membership>, u: Id)
    requires forall k :: k in w ==> k.0 == u
    ensures var once := (map k | k in m && k.0 != u :: m[k]) + w;
            (map k | k in once && k.0 != u :: once[k]) + w == once
  {
  }

  lemma ReplaceLinksTwice(m: set<Link>, w: set<Link>, u: Id)
    requires forall l :: l in w ==> l.user == u
    ensures var once := (set l | l in m && l.user != u) + w;
            (set l | l in once && l.user != u) + w == once
  {
  }

  /** The row, the memberships and the member links are those the payload asks for. */
  ghost predicate UserWritten(c: Cache, next: Cache, p: UserPayload) {
    && p.id in next.users && next.users[p.id] == UserRow(p)
    && next.roles == c.roles && next.schools == c.schools
    && next.groups == c.groups && next.groupDns == c.groupDns
    && next.memberships == (map k | k in c.memberships && k.0 != p.id :: c.memberships[k]) + UserMemberships(c, p)
    && next.members == (set l | l in c.members && l.user != p.id) + UserLinks(c, p)
  }

  /** Writing the same payload to the row it left behind changes at most the
      guardian table. */
  lemma UpdatedUserTwice(c: Cache, next: Cache, p: UserPayload)
    requires UserWritten(c, next, p)
    ensures UpdatedUser(next, p)
         == next.(guardians := SyncGuardians(next.guardians, p.id, UsersByDns(next, p.guardians), UsersByDns(next, p.wards)))
  {
    var twice := UpdatedUser(next, p);
    assert twice.memberships == next.memberships by {
      SameMemberships(c, next, p);
      UserMembershipsShape(c, p);
      ReplaceMembershipsTwice(c.memberships, UserMemberships(c, p), p.id);
    }
    assert twice.members == next.members by {
      SameUserLinks(c, next, p);
      UserLinksShape(c, p);
      ReplaceLinksTwice(c.members, UserLinks(c, p), p.id);
    }
    assert twice.users == next.users;
  }

  /** Guardian and ward sets that disagree about the user itself never settle. */
  lemma SyncGuardiansTwice(pairs: set<(Id, Id)>, u: Id, guardians: set<Id>, wards: set<Id>)
    ensures var once := SyncGuardians(pairs, u, guardians, wards);
            SyncGuardians(once, u, guardians, wards) == once <==> (u in guardians <==> u in wards)
  {
    var once := SyncGuardians(pairs, u, guardians, wards);
    if u in guardians <==> u in wards {
      SyncedGuardians(pairs, u, guardians, wards);
    } else {
      SelfPair(pairs, u);
      SelfPair(once, u);
      var twice := SyncGuardians(once, u, guardians, wards);
      assert (u, u) in once <==> (u, u) !in twice by {
        SelfPairFlips(pairs, u, guardians, wards);
      }
    }
  }

  lemma ReplaceGuardiansIff(pairs: set<(Id, Id)>, u: Id, wanted: set<Id>, p: (Id, Id))
    ensures p in ReplaceGuardians(pairs, u, wanted) <==> if p.1 == u then p.0 in wanted else p in pairs
    ensures p in ReplaceWards(pairs, u, wanted) <==> if p.0 == u then p.1 in wanted else p in pairs
  {
    assert p == (p.0, p.1);
  }

  lemma AfterReplaceGuardians(pairs: set<(Id, Id)>, u: Id, wanted: set<Id>)
    ensures GuardiansOf(ReplaceGuardians(pairs, u, wanted), u) == wanted
    ensures WardsOf(ReplaceWards(pairs, u, wanted), u) == wanted
    ensures forall x :: x != u ==> (x in WardsOf(ReplaceGuardians(pairs, u, wanted), u) <==> x in WardsOf(pairs, u))
  {
    var g := ReplaceGuardians(pairs, u, wanted);
    var w := ReplaceWards(pairs, u, wanted);
    forall x
      ensures x in GuardiansOf(g, u) <==> x in wanted
      ensures x in WardsOf(w, u) <==> x in wanted
      ensures x != u ==> (x in WardsOf(g, u) <==> x in WardsOf(pairs, u))
    {
      ReplaceGuardiansIff(pairs, u, wanted, (x, u));
      ReplaceGuardiansIff(pairs, u, wanted, (u, x));
      if (x, u) in g { assert (x, u).0 in GuardiansOf(g, u); }
      if (u, x) in w { assert (u, x).1 in WardsOf(w, u); }
      if (u, x) in g { assert (u, x).1 in WardsOf(g, u); }
      if (u, x) in pairs { assert (u, x).1 in WardsOf(pairs, u); }
    }
  }

  lemma SelfPairFlips(pairs: set<(Id, Id)>, u: Id, guardians: set<Id>, wards: set<Id>)
    requires (u in guardians) != (u in wards)
    ensures var once := SyncGuardians(pairs, u, guardians, wards);
            (u, u) in once <==> (u, u) !in SyncGuardians(once, u, guardians, wards)
  {
    var once := SyncGuardians(pairs, u, guardians, wards);
    SelfPair(pairs, u);
    SelfPair(once, u);
    ReplaceGuardiansIff(pairs, u, guardians, (u, u));
    ReplaceGuardiansIff(once, u, guardians, (u, u));
    if wards != WardsOf(pairs, u) {
      var mid := if guardians == GuardiansOf(pairs, u) then pairs else ReplaceGuardians(pairs, u, guardians);
      AfterReplaceGuardians(mid, u, wards);
      ReplaceGuardiansIff(mid, u, wards, (u, u));
    } else {
      AfterReplaceGuardians(pairs, u, guardians);
      ReplaceGuardiansIff(once, u, wards, (u, u));
      ReplaceGuardiansIff(ReplaceGuardians(once, u, guardians), u, wards, (u, u));
    }
  }

  /** Handled with these DN maps, the event's guardian and ward lists agree on
      whether they contain the user itself. */
  predicate SelfAgrees(c: Cache, p: UserPayload) {
    p.id in UsersByDns(c, p.guardians) <==> p.id in UsersByDns(c, p.wards)
  }

  lemma UpdatedUserAgain(c: Cache, p: UserPayload)
    requires p.id in c.users
    ensures var once := UpdatedUser(c, p); UpdatedUser(once, p) == once <==> SelfAgrees(c, p)
  {
    var once := UpdatedUser(c, p);
    var guardians, wards := UsersByDns(c, p.guardians), UsersByDns(c, p.wards);
    assert once.users.Keys == c.users.Keys;
    UpdatedUserTwice(c, once, p);
    SyncGuardiansTwice(c.guardians, p.id, guardians, wards);
    assert UsersByDns(once, p.guardians) == guardians && UsersByDns(once, p.wards) == wards;
  }

  lemma WriteUserResult(c: Cache, p: UserPayload)
    requires WriteUser(c, p).Committed?
    ensures WriteUser(c, p).cache == UpdatedUser(c, p)
    ensures UpdatedUser(c, p) != c ==> ValidUser(UserRow(p)) && UserFits(c, p.id, UserRow(p))
  {
  }

  lemma WriteUserTwice(c: Cache, p: UserPayload)
    requires Valid(c) && p.id in c.users && WriteUser(c, p).Committed?
    ensures var once := WriteUser(c, p).cache;
            && once.userDns == c.userDns && p.id in once.users
            && (SelfAgrees(c, p) ==> WriteUser(once, p) == Committed(once))
            && (!SelfAgrees(c, p) ==> WriteUser(once, p).Committed? && WriteUser(once, p).cache != once)
  {
    var once := UpdatedUser(c, p);
    WriteUserResult(c, p);
    UpdatedUserAgain(c, p);
    assert UserFits(c, p.id, UserRow(p)) ==> UserFits(once, p.id, UserRow(p));
    assert once.userDns == c.userDns && p.id in once.users;
    hide Valid, UpdatedUser, UserFits, ValidUser, SelfAgrees;
  }

  lemma InsertedUserWritten(c: Cache, p: UserPayload)
    requires ForeignKeys(c) && p.id !in c.users
    ensures UserWritten(c, MapUser(InsertedUser(c, p), p), p)
    ensures UserWritten(c, InsertedUser(c, p), p)
  {
    assert c.memberships == (map k | k in c.memberships && k.0 != p.id :: c.memberships[k]);
    assert c.members == (set l | l in c.members && l.user != p.id) by {
      forall l | l in c.members ensures l.user != p.id {
        assert (l.user, l.school) in c.memberships;
      }
    }
  }

  /** After a fresh row, a second create event finds the row and its own DN. */
  lemma InsertUserTwice(c: Cache, p: UserPayload)
    requires Valid(c) && p.id !in c.users
    ensures var once := MapUser(InsertedUser(c, p), p);
            UpdatedUser(once, p) == once <==> p.dn !in p.guardians && p.dn !in p.wards
  {
    var once := MapUser(InsertedUser(c, p), p);
    InsertedUserWritten(c, p);
    UpdatedUserTwice(c, once, p);
    InsertedUserRefs(c, p, p.guardians);
    InsertedUserRefs(c, p, p.wards);
    InsertedGuardians(c, p);
    var guardians, wards := UsersByDns(once, p.guardians), UsersByDns(once, p.wards);
    if p.dn in p.guardians || p.dn in p.wards {
      NewSelfPair(once.guardians, p.id, guardians, wards);
    }
  }

  lemma InsertedUserRefs(c: Cache, p: UserPayload, refs: seq<Dn>)
    requires DnBijection(c.userDns, c.users.Keys) && p.id !in c.users
    ensures var once := MapUser(InsertedUser(c, p), p);
            && (p.dn !in refs ==> UsersByDns(once, refs) == UsersByDns(c, refs))
            && (p.id in UsersByDns(once, refs) <==> p.dn in refs)
  {
    ResolveAfterInsert(c.userDns, p.dn, p.id, refs);
    var once := MapUser(InsertedUser(c, p), p);
    assert once.users.Keys == c.users.Keys + {p.id};
  }

  lemma InsertedUnmapped(c: Cache, p: UserPayload)
    requires Valid(c) && p.id !in c.users
    ensures var base := UnmapUser(MapUser(InsertedUser(c, p), p), p);
            && UserWritten(c, base, p)
            && UsersByDns(base, p.guardians) == UsersByDns(UnmapUser(c, p), p.guardians)
            && UsersByDns(base, p.wards) == UsersByDns(UnmapUser(c, p), p.wards)
  {
    hide UniqueKeys, OnePrimary;
    UnmappedTwice(c.userDns, p.dn, p.id);
    InsertedUserWritten(c, p);
    RefsAfterUnmap(c, p, p.guardians);
    RefsAfterUnmap(c, p, p.wards);
    var base := UnmapUser(MapUser(InsertedUser(c, p), p), p);
    assert base.users.Keys == c.users.Keys + {p.id} && base.userDns == UnmapUser(c, p).userDns;
    assert base == InsertedUser(c, p).(userDns := base.userDns);
    hide InsertedUser, ForeignKeys, DnMaps, UserWritten, Unmapped, SetMapping;
    SameRefs(UnmapUser(c, p), base, p.id, p.guardians);
    SameRefs(UnmapUser(c, p), base, p.id, p.wards);
    OtherDns(c, InsertedUser(c, p), base, p);
  }

  lemma SameRefs(c: Cache, d: Cache, u: Id, refs: seq<Dn>)
    requires d.userDns == c.userDns && d.users.Keys == c.users.Keys + {u} && u !in Resolve(c.userDns, refs)
    ensures UsersByDns(d, refs) == UsersByDns(c, refs)
  {
  }

  lemma OtherDns(c: Cache, next: Cache, d: Cache, p: UserPayload)
    requires UserWritten(c, next, p) && d == next.(userDns := d.userDns)
    ensures UserWritten(c, d, p)
  {
  }

  /** A second event that is a modify finds the row without its own DN: only a
      reference that another user held that DN for is gone. */
  lemma InsertThenModify(c: Cache, p: UserPayload)
    requires Valid(c) && p.id !in c.users
    ensures var base := UnmapUser(MapUser(InsertedUser(c, p), p), p);
            UpdatedUser(base, p) == base <==> (p.dn in c.userDns ==> p.dn !in p.guardians && p.dn !in p.wards)
  {
    var base := UnmapUser(MapUser(InsertedUser(c, p), p), p);
    InsertedUnmapped(c, p);
    UpdatedUserTwice(c, base, p);
    InsertedGuardians(c, p);
    RefsAfterUnmap(c, p, p.guardians);
    RefsAfterUnmap(c, p, p.wards);
    hide UserWritten, UsersByDns, SyncGuardians, GuardiansOf, WardsOf, UserMemberships, UserLinks;
    SyncGuardiansSame(base.guardians, p.id, UsersByDns(base, p.guardians), UsersByDns(base, p.wards));
  }

  lemma RefsAfterUnmap(c: Cache, p: UserPayload, refs: seq<Dn>)
    requires DnBijection(c.userDns, c.users.Keys) && p.id !in c.users
    ensures UsersByDns(UnmapUser(c, p), refs) == UsersByDns(c, refs) <==> (p.dn in c.userDns ==> p.dn !in refs)
    ensures p.id !in UsersByDns(UnmapUser(c, p), refs) && p.id !in Resolve(UnmapUser(c, p).userDns, refs)
  {
    var dns := Unmapped(c.userDns, p.dn, p.id);
    UnmappedResolves(c.userDns, p.dn, p.id, refs);
    if p.dn in c.userDns && p.dn in refs {
      assert c.userDns[p.dn] in UsersByDns(c, refs);
      assert c.userDns[p.dn] !in Resolve(dns, refs);
    } else {
      forall x ensures x in Resolve(dns, refs) <==> x in Resolve(c.userDns, refs) {
        if x in Resolve(c.userDns, refs) {
          var d :| d in refs && d in c.userDns && c.userDns[d] == x;
          assert d != p.dn && x in c.users;
        }
      }
    }
  }

  /** The update leaves the table alone exactly when both lists are stored. */
  lemma SyncGuardiansSame(pairs: set<(Id, Id)>, u: Id, guardians: set<Id>, wards: set<Id>)
    ensures SyncGuardians(pairs, u, guardians, wards) == pairs
      <==> GuardiansOf(pairs, u) == guardians && WardsOf(pairs, u) == wards
  {
    if SyncGuardians(pairs, u, guardians, wards) == pairs {
      if wards != WardsOf(pairs, u) {
        var mid := if guardians == GuardiansOf(pairs, u) then pairs else ReplaceGuardians(pairs, u, guardians);
        AfterReplaceGuardians(mid, u, wards);
      } else {
        AfterReplaceGuardians(pairs, u, guardians);
      }
    }
  }

  lemma InsertedGuardians(c: Cache, p: UserPayload)
    requires Valid(c) && p.id !in c.users
    ensures GuardiansOf(InsertedUser(c, p).guardians, p.id) == UsersByDns(c, p.guardians)
    ensures WardsOf(InsertedUser(c, p).guardians, p.id) == UsersByDns(c, p.wards)
    ensures (p.id, p.id) !in InsertedUser(c, p).guardians
  {
    var pairs := InsertedUser(c, p).guardians;
    forall x
      ensures x in GuardiansOf(pairs, p.id) <==> x in UsersByDns(c, p.guardians)
      ensures x in WardsOf(pairs, p.id) <==> x in UsersByDns(c, p.wards)
    {
      if x in UsersByDns(c, p.guardians) {
        assert (x, p.id) in pairs;
        assert (x, p.id).0 in GuardiansOf(pairs, p.id);
      }
      if x in UsersByDns(c, p.wards) {
        assert (p.id, x) in pairs;
        assert (p.id, x).1 in WardsOf(pairs, p.id);
      }
    }
  }

  lemma NewSelfPair(pairs: set<(Id, Id)>, u: Id, guardians: set<Id>, wards: set<Id>)
    requires (u, u) !in pairs && (u in guardians || u in wards)
    ensures SyncGuardians(pairs, u, guardians, wards) != pairs
  {
    SelfPair(pairs, u);
    if wards != WardsOf(pairs, u) {
      var mid := if guardians == GuardiansOf(pairs, u) then pairs else ReplaceGuardians(pairs, u, guardians);
      AfterReplaceGuardians(mid, u, wards);
    } else {
      AfterReplaceGuardians(pairs, u, guardians);
    }
  }

  /******* Groups *******/

  lemma ReplaceSendersTwice(pairs: set<(Id, Id)>, g: Id, wanted: set<Id>)
    ensures ReplaceSenders(ReplaceSenders(pairs, g, wanted), g, wanted) == ReplaceSenders(pairs, g, wanted)
  {
  }

  /** Everything but the member links is what the payload asks for. */
  ghost predicate GroupWritten(once: Cache, p: GroupPayload, school: Option<Id>, row: Group) {
    && p.id in once.groups && once.groups[p.id] == row
    && UpdatedGroupRow(once, p, school) == row
    && ReplaceSenders(once.senderUsers, p.id, UsersByDns(once, p.senderUsers)) == once.senderUsers
    && ReplaceSenders(once.senderGroups, p.id, GroupsByDns(once, p.senderGroups)) == once.senderGroups
  }

  lemma UpdatedGroupTwice(once: Cache, p: GroupPayload, school: Option<Id>, row: Group)
    requires GroupWritten(once, p, school, row)
    ensures UpdatedGroup(once, p, school)
         == once.(members := SyncMembers(once, p.id, MembersByDns(once, p.users, row.school)))
  {
    var twice := UpdatedGroup(once, p, school);
    assert twice.groups == once.groups;
  }

  lemma UpdatedGroupWritten(c: Cache, p: GroupPayload, school: Option<Id>)
    requires p.id in c.groups
    ensures GroupWritten(UpdatedGroup(c, p, school), p, school, UpdatedGroupRow(c, p, school))
  {
    var once := UpdatedGroup(c, p, school);
    assert once.groups.Keys == c.groups.Keys;
    assert GroupsByDns(once, p.senderGroups) == GroupsByDns(c, p.senderGroups);
    ReplaceSendersTwice(c.senderUsers, p.id, UsersByDns(c, p.senderUsers));
    ReplaceSendersTwice(c.senderGroups, p.id, GroupsByDns(c, p.senderGroups));
  }

  lemma UpdatedGroupAgain(c: Cache, p: GroupPayload, school: Option<Id>)
    requires p.id in c.groups
    ensures var once := UpdatedGroup(c, p, school);
            UpdatedGroup(once, p, school) == once
            <==> !LosesMembers(c, p.id, MembersByDns(c, p.users, UpdatedGroupRow(c, p, school).school))
  {
    var once := UpdatedGroup(c, p, school);
    var row := UpdatedGroupRow(c, p, school);
    var wanted := MembersByDns(c, p.users, row.school);
    UpdatedGroupWritten(c, p, school);
    UpdatedGroupTwice(once, p, school, row);
    assert MembersByDns(once, p.users, row.school) == wanted;
    SyncedMembers(c, p.id, wanted, once);
    assert forall u :: u in wanted ==> (u, row.school) in once.memberships;
    assert once.groups[p.id] == row;
    hide UpdatedGroup, UpdatedGroupRow, MembersByDns, GroupWritten, LosesMembers;
    if wanted != LinkedUsers(once, p.id) {
      WrittenAgain(once, p.id, wanted, row);
    }
  }

  lemma WriteGroupResult(c: Cache, p: GroupPayload, school: Option<Id>)
    requires p.id in c.groups && WriteGroup(c, p, school).Committed?
    ensures WriteGroup(c, p, school).cache == UpdatedGroup(c, p, school)
    ensures var row := UpdatedGroupRow(c, p, school);
            UpdatedGroup(c, p, school) != c ==> ValidGroup(row) && GroupFits(c, p.id, row)
  {
  }

  lemma WriteGroupTwice(c: Cache, p: GroupPayload, school: Option<Id>)
    requires Valid(c) && p.id in c.groups && WriteGroup(c, p, school).Committed?
    ensures var once := WriteGroup(c, p, school).cache;
            var wanted := MembersByDns(c, p.users, UpdatedGroupRow(c, p, school).school);
            && p.id in once.groups && once.groupDns == c.groupDns && once.schools == c.schools
            && (!LosesMembers(c, p.id, wanted) ==> WriteGroup(once, p, school) == Committed(once))
            && (LosesMembers(c, p.id, wanted) ==>
                  WriteGroup(once, p, school).Committed? && WriteGroup(once, p, school).cache != once)
  {
    var once := UpdatedGroup(c, p, school);
    var row := UpdatedGroupRow(c, p, school);
    WriteGroupResult(c, p, school);
    UpdatedGroupAgain(c, p, school);
    UpdatedGroupWritten(c, p, school);
    assert GroupFits(c, p.id, row) ==> GroupFits(once, p.id, row);
    assert p.id in once.groups && once.groupDns == c.groupDns && once.schools == c.schools;
    assert UpdatedGroupRow(once, p, school) == row;
    hide Valid, UpdatedGroup, UpdatedGroupRow, GroupFits, ValidGroup, LosesMembers, MembersByDns, GroupWritten;
  }

  lemma WrittenAgain(once: Cache, g: Id, wanted: set<Id>, row: Group)
    requires g in once.groups && once.groups[g] == row && wanted != LinkedUsers(once, g)
    requires forall u :: u in wanted ==> (u, row.school) in once.memberships
    ensures SyncMembers(once, g, wanted) != once.members
  {
    var twice := once.(members := SyncMembers(once, g, wanted));
    SyncedMembers(once, g, wanted, twice);
    assert LinkedUsers(twice, g) == wanted;
  }

  /** The row just inserted is updated with its own payload: all that can change
      is the list of sender groups. */
  lemma InsertedGroupAgain(c: Cache, p: GroupPayload, school: Id, dns: map<Dn, Id>)
    requires Valid(c) && p.id !in c.groups
    ensures var base := InsertedGroup(c, p, school).(groupDns := dns);
            UpdatedGroup(base, p, Some(school)) == base
            <==> GroupsByDns(base, p.senderGroups) == GroupsByDns(c, p.senderGroups)
  {
    var base := InsertedGroup(c, p, school).(groupDns := dns);
    var row := GroupRow(c, p, p.email, CONNECTOR_SOURCE_UID, school);
    var before, after := GroupsByDns(c, p.senderGroups), GroupsByDns(base, p.senderGroups);
    InsertedLinks(c, p, school);
    assert MembersByDns(base, p.users, school) == MembersByDns(c, p.users, school);
    InsertedSenders(c.senderUsers, p.id, UsersByDns(c, p.senderUsers), c.groups.Keys, c.users.Keys);
    InsertedSenders(c.senderGroups, p.id, before, c.groups.Keys, c.groups.Keys);
    if after == before {
      assert GroupWritten(base, p, Some(school), row);
      UpdatedGroupTwice(base, p, Some(school), row);
    } else {
      OtherSenders(c.senderGroups, p.id, before, after, c.groups.Keys);
    }
  }

  lemma OtherSenders(pairs: set<(Id, Id)>, g: Id, before: set<Id>, after: set<Id>, left: set<Id>)
    requires g !in left && (forall p :: p in pairs ==> p.0 in left) && before != after
    ensures ReplaceSenders(pairs + (set x | x in before :: (g, x)), g, after) != pairs + (set x | x in before :: (g, x))
  {
    var stored := pairs + (set x | x in before :: (g, x));
    var x :| (x in before) != (x in after);
    assert (g, x) in stored <==> x in before;
    assert (g, x) in ReplaceSenders(stored, g, after) <==> x in after;
  }

  lemma InsertGroupTwice(c: Cache, p: GroupPayload, school: Id)
    requires Valid(c) && p.id !in c.groups
    ensures var once := MapGroup(InsertedGroup(c, p, school), p);
            UpdatedGroup(once, p, Some(school)) == once <==> p.dn !in p.senderGroups || UnsyncableGroupDn(p.dn)
  {
    var once := MapGroup(InsertedGroup(c, p, school), p);
    assert once.groups.Keys == c.groups.Keys + {p.id};
    SenderGroupsAfterInsert(c, p, once);
    hide UpdatedGroup, InsertedGroup, GroupsByDns, Valid;
    InsertedGroupAgain(c, p, school, SetMapping(c.groupDns, p.dn, p.id));
  }

  lemma InsertThenModifyGroup(c: Cache, p: GroupPayload, school: Id)
    requires Valid(c) && p.id !in c.groups
    ensures var base := UnmapGroup(MapGroup(InsertedGroup(c, p, school), p), p);
            UpdatedGroup(base, p, Some(school)) == base
            <==> (p.dn in c.groupDns ==> p.dn !in p.senderGroups || UnsyncableGroupDn(p.dn))
  {
    var dns := Unmapped(c.groupDns, p.dn, p.id);
    UnmappedTwice(c.groupDns, p.dn, p.id);
    var base := UnmapGroup(MapGroup(InsertedGroup(c, p, school), p), p);
    assert base.groups.Keys == c.groups.Keys + {p.id};
    SenderGroupsAfterUnmap(c, p, base);
    hide UpdatedGroup, InsertedGroup, GroupsByDns, Valid;
    InsertedGroupAgain(c, p, school, dns);
  }

  lemma SenderGroupsAfterUnmap(c: Cache, p: GroupPayload, base: Cache)
    requires Valid(c) && p.id !in c.groups
    requires base.groupDns == Unmapped(c.groupDns, p.dn, p.id) && base.groups.Keys == c.groups.Keys + {p.id}
    ensures GroupsByDns(base, p.senderGroups) == GroupsByDns(c, p.senderGroups)
      <==> (p.dn in c.groupDns ==> p.dn !in p.senderGroups || UnsyncableGroupDn(p.dn))
  {
    if p.dn in c.groupDns && p.dn in p.senderGroups && !UnsyncableGroupDn(p.dn) {
      assert c.groupDns[p.dn] in GroupsByDns(c, p.senderGroups);
      assert c.groupDns[p.dn] !in GroupsByDns(base, p.senderGroups);
    } else {
      forall x ensures x in GroupsByDns(base, p.senderGroups) <==> x in GroupsByDns(c, p.senderGroups) {
        if x in GroupsByDns(c, p.senderGroups) {
          var d :| d in p.senderGroups && !UnsyncableGroupDn(d) && d in c.groupDns && c.groupDns[d] == x;
          assert d in base.groupDns && base.groupDns[d] == x;
        }
      }
    }
  }

  lemma InsertedLinks(c: Cache, p: GroupPayload, school: Id)
    requires Valid(c) && p.id !in c.groups
    ensures LinkedUsers(InsertedGroup(c, p, school), p.id) == MembersByDns(c, p.users, school)
  {
    var next := InsertedGroup(c, p, school);
    var wanted := MembersByDns(c, p.users, school);
    forall u ensures u in LinkedUsers(next, p.id) <==> u in wanted {
      LinkedUsersIff(next, p.id, u);
      if Linked(next, p.id, u) {
        var s :| Link(p.id, u, s) in next.members;
        LinksOfIff(p.id, wanted, school, Link(p.id, u, s));
      }
      if u in wanted {
        LinksOfIff(p.id, wanted, school, Link(p.id, u, school));
        assert Link(p.id, u, school) in next.members;
      }
    }
  }

  lemma InsertedSenders(pairs: set<(Id, Id)>, g: Id, wanted: set<Id>, left: set<Id>, right: set<Id>)
    requires PairKeys(pairs, left, right) && g !in left
    ensures ReplaceSenders(pairs + (set x | x in wanted :: (g, x)), g, wanted) == pairs + (set x | x in wanted :: (g, x))
  {
  }

  lemma SenderGroupsAfterInsert(c: Cache, p: GroupPayload, once: Cache)
    requires Valid(c) && p.id !in c.groups
    requires once.groupDns == SetMapping(c.groupDns, p.dn, p.id) && once.groups.Keys == c.groups.Keys + {p.id}
    ensures p.id !in GroupsByDns(c, p.senderGroups)
    ensures p.id in GroupsByDns(once, p.senderGroups) <==> p.dn in p.senderGroups && !UnsyncableGroupDn(p.dn)
    ensures (p.dn !in p.senderGroups || UnsyncableGroupDn(p.dn)) ==>
              GroupsByDns(once, p.senderGroups) == GroupsByDns(c, p.senderGroups)
  {
    forall d | d in c.groupDns
      ensures c.groupDns[d] != p.id
    {
    }
    if p.dn in p.senderGroups && !UnsyncableGroupDn(p.dn) {
      assert once.groupDns[p.dn] == p.id;
    } else {
      forall x ensures x in GroupsByDns(once, p.senderGroups) <==> x in GroupsByDns(c, p.senderGroups) {
        if x in GroupsByDns(once, p.senderGroups) {
          var d :| d in p.senderGroups && !UnsyncableGroupDn(d) && d in once.groupDns && once.groupDns[d] == x;
          assert d != p.dn && c.groupDns[d] == x;
        }
        if x in GroupsByDns(c, p.senderGroups) {
          var d :| d in p.senderGroups && !UnsyncableGroupDn(d) && d in c.groupDns && c.groupDns[d] == x;
          assert once.groupDns[d] == x;
        }
      }
    }
  }

  /******* Any event *******/

  /** Checked before the first handling. A modify of a stored user always
      settles, because it does not see the user's own DN. */
  ghost predicate Settles(c: Cache, e: Event) {
    match e
    case UserCreate(p) => SchoolsNamed(c, p.schools) == {} || CreateSettles(c, p)
    case UserModify(p) => p.id in c.users || SchoolsNamed(c, p.schools) == {} || ModifySettles(c, p)
    case GroupCreate(p) =>
      || FindSchool(c, GroupSchoolName(p)) == None
      || (if p.id in c.groups then !LosesMembers(c, p.id, WantedMembers(c, p)) else SendersSettle(p))
    case GroupModify(p) =>
      if p.id in c.groups then !LosesMembers(c, p.id, WantedMembers(c, p))
      else FindSchool(c, GroupSchoolName(p)) == None || p.dn !in c.groupDns || SendersSettle(p)
    case _ => true
  }

  /** The stored user is in both its lists or in neither; a new one is in
      neither through the DN that this handling maps. */
  ghost predicate CreateSettles(c: Cache, p: UserPayload) {
    if p.id in c.users then SelfAgrees(c, p) else p.dn !in p.guardians && p.dn !in p.wards
  }

  /** The new user does not refer to the DN while it is another user's. */
  ghost predicate ModifySettles(c: Cache, p: UserPayload) {
    p.dn in c.userDns ==> p.dn !in p.guardians && p.dn !in p.wards
  }

  predicate SendersSettle(p: GroupPayload) {
    p.dn !in p.senderGroups || UnsyncableGroupDn(p.dn)
  }

  ghost predicate RepeatsCleanly(c: Cache, e: Event) {
    Handle(Apply(c, e), e) == Committed(Apply(c, e))
  }

  /** What a modify of a stored user does to the cache it leaves. */
  lemma ModifyAgain(next: Cache, p: UserPayload)
    requires p.id in next.users && MapUser(next, p) == next
    ensures HandleUserModify(next, p) == Committed(next) <==> WriteUser(UnmapUser(next, p), p) == Committed(UnmapUser(next, p))
  {
    UnmappedTwice(next.userDns, p.dn, p.id);
    var base := UnmapUser(next, p);
    assert MapUser(base, p) == next;
    match WriteUser(base, p)
    case Committed(d) => assert d.userDns == base.userDns;
    case Failed =>
  }

  lemma InsertedUserTwice(c: Cache, p: UserPayload, e: Event)
    requires Valid(c) && p.id !in c.users && (e == UserCreate(p) || e == UserModify(p))
    requires SchoolsNamed(c, p.schools) != {} && Handle(c, e).Committed?
    ensures RepeatsCleanly(c, e) <==> Settles(c, e)
  {
    var once := MapUser(InsertedUser(c, p), p);
    assert Apply(c, e) == once;
    UnmappedTwice(c.userDns, p.dn, p.id);
    assert MapUser(once, p) == once;
    assert SchoolsNamed(once, p.schools) == SchoolsNamed(c, p.schools);
    hide InsertedUser, UpdatedUser, UserFits, ValidUser, Valid, SchoolsNamed;
    if e.UserCreate? {
      InsertUserTwice(c, p);
      WrittenUnchanged(once, p);
    } else {
      InsertThenModify(c, p);
      ModifyAgain(once, p);
      WrittenUnchanged(UnmapUser(once, p), p);
    }
  }

  lemma WrittenUnchanged(c: Cache, p: UserPayload)
    ensures WriteUser(c, p) == Committed(c) <==> UpdatedUser(c, p) == c
  {
  }

  lemma ModifiedUserTwice(c: Cache, p: UserPayload)
    requires Valid(c) && p.id in c.users && HandleUserModify(c, p).Committed?
    ensures RepeatsCleanly(c, UserModify(p))
  {
    var base := UnmapUser(c, p);
    UnmapUserValid(c, p);
    UnmappedResolves(c.userDns, p.dn, p.id, p.guardians);
    UnmappedResolves(c.userDns, p.dn, p.id, p.wards);
    assert SelfAgrees(base, p);
    WriteUserTwice(base, p);
    var written := WriteUser(base, p).cache;
    var once := MapUser(written, p);
    UnmappedTwice(written.userDns, p.dn, p.id);
    UnmappedTwice(c.userDns, p.dn, p.id);
    assert Apply(c, UserModify(p)) == once;
    assert UnmapUser(once, p) == written;
    assert MapUser(once, p) == once;
    hide WriteUser, HandleUserModify, Valid;
    ModifyAgain(once, p);
  }

  lemma UserTwice(c: Cache, e: Event)
    requires Valid(c) && WritesUser(e) && Handle(c, e).Committed?
    ensures RepeatsCleanly(c, e) <==> Settles(c, e)
  {
    var p := e.user;
    if p.id in c.users && e.UserModify? {
      hide Valid, HandleUserModify;
      ModifiedUserTwice(c, p);
    } else if SchoolsNamed(c, p.schools) != {} {
      if p.id in c.users {
        WriteUserTwice(c, p);
        var once := Apply(c, e);
        assert SchoolsNamed(once, p.schools) == SchoolsNamed(c, p.schools);
        hide WriteUser, Valid, SchoolsNamed, SelfAgrees;
        assert Handle(once, e) == WriteUser(once, p);
      } else {
        hide Handle, Apply, RepeatsCleanly, Settles, Valid;
        InsertedUserTwice(c, p, e);
      }
    }
  }

  lemma SameFindSchool(c: Cache, d: Cache, name: string)
    requires d.schools == c.schools
    ensures FindSchool(d, name) == FindSchool(c, name)
  {
    assert SchoolsNamed(d, [name]) == SchoolsNamed(c, [name]);
  }

  /** The group's own DN rows play no part in its school and members. */
  lemma UnmappedGroup(c: Cache, p: GroupPayload)
    requires p.id in c.groups
    ensures var unmapped := UnmapGroup(c, p);
            && FindSchool(unmapped, GroupSchoolName(p)) == FindSchool(c, GroupSchoolName(p))
            && LinkedUsers(unmapped, p.id) == LinkedUsers(c, p.id)
            && TargetSchool(unmapped, p) == TargetSchool(c, p)
            && WantedMembers(unmapped, p) == WantedMembers(c, p)
            && LosesMembers(unmapped, p.id, WantedMembers(unmapped, p)) == LosesMembers(c, p.id, WantedMembers(c, p))
  {
    var unmapped := UnmapGroup(c, p);
    SameFindSchool(c, unmapped, GroupSchoolName(p));
    assert MembersByDns(unmapped, p.users, TargetSchool(c, p)) == WantedMembers(c, p);
    assert LinkedUsers(unmapped, p.id) == LinkedUsers(c, p.id);
  }

  lemma FoundGroupTwice(c: Cache, p: GroupPayload)
    requires Valid(c) && p.id in c.groups
    requires WriteGroup(c, p, FindSchool(c, GroupSchoolName(p))).Committed?
    ensures var found := FindSchool(c, GroupSchoolName(p));
            var once := WriteGroup(c, p, found).cache;
            && p.id in once.groups && once.groupDns == c.groupDns
            && FindSchool(once, GroupSchoolName(p)) == found
            && (WriteGroup(once, p, found) == Committed(once) <==> !LosesMembers(c, p.id, WantedMembers(c, p)))
  {
    var found := FindSchool(c, GroupSchoolName(p));
    WriteGroupTwice(c, p, found);
    SameFindSchool(c, WriteGroup(c, p, found).cache, GroupSchoolName(p));
  }

  lemma ModifyGroupAgain(next: Cache, p: GroupPayload)
    requires p.id in next.groups && MapGroup(next, p) == next
    ensures var base := UnmapGroup(next, p);
            HandleGroupModify(next, p) == Committed(next)
            <==> WriteGroup(base, p, FindSchool(base, GroupSchoolName(p))) == Committed(base)
  {
    UnmappedTwice(next.groupDns, p.dn, p.id);
    var base := UnmapGroup(next, p);
    assert MapGroup(base, p) == next;
    match WriteGroup(base, p, FindSchool(base, GroupSchoolName(p)))
    case Committed(d) => assert d.groupDns == base.groupDns;
    case Failed =>
  }

  lemma ModifiedGroupTwice(c: Cache, p: GroupPayload)
    requires Valid(c) && p.id in c.groups && HandleGroupModify(c, p).Committed?
    ensures RepeatsCleanly(c, GroupModify(p)) <==> !LosesMembers(c, p.id, WantedMembers(c, p))
  {
    hide WriteGroup, Valid, LosesMembers, WantedMembers, FindSchool, SetMapping, Unmapped;
    var base := UnmapGroup(c, p);
    UnmapGroupValid(c, p);
    UnmappedGroup(c, p);
    FoundGroupTwice(base, p);
    var written := WriteGroup(base, p, FindSchool(base, GroupSchoolName(p))).cache;
    var once := MapGroup(written, p);
    UnmappedTwice(c.groupDns, p.dn, p.id);
    UnmappedTwice(written.groupDns, p.dn, p.id);
    assert Apply(c, GroupModify(p)) == once;
    assert UnmapGroup(once, p) == written;
    ModifyGroupAgain(once, p);
  }

  /** The second create event of a new group finds the row it inserted. */
  lemma InsertedGroupCreatedAgain(c: Cache, p: GroupPayload, school: Id)
    requires Valid(c) && p.id !in c.groups && FindSchool(c, GroupSchoolName(p)) == Some(school)
    ensures var once := MapGroup(InsertedGroup(c, p, school), p);
            Handle(once, GroupCreate(p)) == Committed(once) <==> SendersSettle(p)
  {
    var once := MapGroup(InsertedGroup(c, p, school), p);
    assert once.schools == c.schools && p.id in once.groups;
    hide InsertedGroup, UpdatedGroup, MapGroup, GroupFits, ValidGroup, Valid, FindSchool;
    SameFindSchool(c, once, GroupSchoolName(p));
    InsertGroupTwice(c, p, school);
    GroupWrittenUnchanged(once, p, Some(school));
    hide WriteGroup;
    assert Handle(once, GroupCreate(p)) == WriteGroup(once, p, Some(school));
  }

  lemma InsertedGroupModifiedAgain(c: Cache, p: GroupPayload, school: Id)
    requires Valid(c) && p.id !in c.groups && FindSchool(c, GroupSchoolName(p)) == Some(school)
    ensures var once := MapGroup(InsertedGroup(c, p, school), p);
            HandleGroupModify(once, p) == Committed(once) <==> (p.dn in c.groupDns ==> SendersSettle(p))
  {
    var once := MapGroup(InsertedGroup(c, p, school), p);
    var base := UnmapGroup(once, p);
    assert once.schools == c.schools && p.id in once.groups && base.schools == c.schools && p.id in base.groups;
    assert MapGroup(once, p) == once by {
      UnmappedTwice(c.groupDns, p.dn, p.id);
    }
    InsertThenModifyGroup(c, p, school);
    hide InsertedGroup, UpdatedGroup, MapGroup, UnmapGroup, GroupFits, ValidGroup, Valid, FindSchool, WriteGroup,
      HandleGroupModify;
    SameFindSchool(c, base, GroupSchoolName(p));
    ModifyGroupAgain(once, p);
    GroupWrittenUnchanged(base, p, Some(school));
  }

  lemma InsertedGroupTwice(c: Cache, p: GroupPayload, e: Event)
    requires Valid(c) && p.id !in c.groups && (e == GroupCreate(p) || e == GroupModify(p))
    requires FindSchool(c, GroupSchoolName(p)).Some? && Handle(c, e).Committed?
    ensures RepeatsCleanly(c, e) <==> Settles(c, e)
  {
    var school := FindSchool(c, GroupSchoolName(p)).value;
    var once := MapGroup(InsertedGroup(c, p, school), p);
    assert Apply(c, e) == once;
    hide Apply, InsertedGroup, MapGroup, GroupFits, Valid, FindSchool, HandleGroupCreate, HandleGroupModify;
    if e.GroupCreate? {
      InsertedGroupCreatedAgain(c, p, school);
    } else {
      InsertedGroupModifiedAgain(c, p, school);
    }
  }

  lemma GroupWrittenUnchanged(c: Cache, p: GroupPayload, school: Option<Id>)
    requires p.id in c.groups
    ensures WriteGroup(c, p, school) == Committed(c) <==> UpdatedGroup(c, p, school) == c
  {
  }

  lemma GroupTwice(c: Cache, e: Event)
    requires Valid(c) && WritesGroup(e) && Handle(c, e).Committed?
    ensures RepeatsCleanly(c, e) <==> Settles(c, e)
  {
    var p := e.group;
    var found := FindSchool(c, GroupSchoolName(p));
    if p.id in c.groups && e.GroupModify? {
      hide Valid, HandleGroupModify;
      ModifiedGroupTwice(c, p);
    } else if found.Some? {
      if p.id in c.groups {
        FoundGroupTwice(c, p);
        hide WriteGroup, Valid, LosesMembers, WantedMembers, FindSchool;
        assert Handle(Apply(c, e), e) == WriteGroup(Apply(c, e), p, found);
      } else {
        hide Handle, Apply, RepeatsCleanly, Settles, Valid;
        InsertedGroupTwice(c, p, e);
      }
    }
  }

  lemma StoreSchoolTwice(c: Cache, s: Id, row: School)
    requires s in c.schools && StoreSchool(c, s, row).Committed?
    ensures var once := StoreSchool(c, s, row).cache;
            s in once.schools && once.schools[s] == row && StoreSchool(once, s, row) == Committed(once)
  {
  }

  lemma WriteSchoolTwice(c: Cache, p: SchoolPayload)
    requires p.id in c.schools && WriteSchool(c, p).Committed?
    ensures var once := WriteSchool(c, p).cache;
            p.id in once.schools && once.schoolDns == c.schoolDns && WriteSchool(once, p) == Committed(once)
  {
  }

  lemma SchoolTwice(c: Cache, p: SchoolPayload, e: Event)
    requires (e == SchoolCreate(p) || e == SchoolModify(p)) && Handle(c, e).Committed?
    ensures RepeatsCleanly(c, e)
  {
    UnmappedTwice(c.schoolDns, p.dn, p.id);
    var once := Apply(c, e);
    if p.id !in c.schools {
      assert MapSchool(once, p) == once;
      assert once.schools[p.id] == NewSchoolRow(p);
    } else if e.SchoolCreate? {
      WriteSchoolTwice(c, p);
    } else {
      var written := WriteSchool(UnmapSchool(c, p), p).cache;
      WriteSchoolTwice(UnmapSchool(c, p), p);
      assert UnmapSchool(once, p) == written && MapSchool(written, p) == once;
    }
  }

  lemma ServersTwice(c: Cache, kind: ServerKind, pattern: string, hosts: set<string>, missingOk: bool)
    requires SetServers(c, kind, pattern, hosts, missingOk).Committed?
    ensures var once := SetServers(c, kind, pattern, hosts, missingOk).cache;
            SetServers(once, kind, pattern, hosts, missingOk) == Committed(once)
  {
    var found := SchoolsMatching(c, pattern);
    if found != {} {
      var s := Least(found);
      var row := match kind
                 case Educational => c.schools[s].(educationalServers := hosts)
                 case Administrative => c.schools[s].(administrativeServers := hosts);
      StoreSchoolTwice(c, s, row);
      assert SchoolsMatching(StoreSchool(c, s, row).cache, pattern) == found;
    }
  }

  /** A committed event commits again without changing anything exactly when
      it settles. */
  lemma RepeatsCleanlyIff(c: Cache, e: Event)
    requires Valid(c) && Handle(c, e).Committed?
    ensures RepeatsCleanly(c, e) <==> Settles(c, e)
  {
    if WritesUser(e) {
      UserTwice(c, e);
    } else if WritesGroup(e) {
      GroupTwice(c, e);
    } else {
      match e
      case UserDelete(id) =>
      case GroupDelete(id) =>
      case SchoolCreate(p) => SchoolTwice(c, p, e);
      case SchoolModify(p) => SchoolTwice(c, p, e);
      case SchoolDelete(id) =>
      case HostGroupSet(kind, name, hosts) => ServersTwice(c, kind, name, (set h | h in hosts :: HostName(h)), false);
      case HostGroupDelete(kind, name) => ServersTwice(c, kind, name, {}, true);
    }
  }

  /******* When the repetition fails *******/

  /** The row of a new group, as validation sees it. */
  predicate NewGroupInvalid(c: Cache, p: GroupPayload) {
    var found := FindSchool(c, GroupSchoolName(p));
    found.Some? && !ValidGroup(GroupRow(c, p, p.email, CONNECTOR_SOURCE_UID, found.value))
  }

  /** An event that does not settle and has inserted an invalid row: nothing is
      validated on insertion, but on the update that follows. */
  ghost predicate FailsAgain(c: Cache, e: Event) {
    && !Settles(c, e)
    && (WritesUser(e) ==> e.user.id !in c.users && !ValidUser(UserRow(e.user)))
    && (WritesGroup(e) ==> e.group.id !in c.groups && NewGroupInvalid(c, e.group))
  }

  lemma WriteUserFailsIff(c: Cache, p: UserPayload)
    requires UserFits(c, p.id, UserRow(p))
    ensures WriteUser(c, p).Failed? <==> UpdatedUser(c, p) != c && !ValidUser(UserRow(p))
  {
  }

  lemma WriteGroupFailsIff(c: Cache, p: GroupPayload, school: Option<Id>)
    requires p.id in c.groups && GroupFits(c, p.id, UpdatedGroupRow(c, p, school))
    ensures WriteGroup(c, p, school).Failed? <==> UpdatedGroup(c, p, school) != c && !ValidGroup(UpdatedGroupRow(c, p, school))
  {
  }

  lemma InsertedUserFailsIff(c: Cache, p: UserPayload, e: Event)
    requires Valid(c) && p.id !in c.users && (e == UserCreate(p) || e == UserModify(p))
    requires SchoolsNamed(c, p.schools) != {} && Handle(c, e).Committed?
    ensures Handle(Apply(c, e), e).Failed? <==> FailsAgain(c, e)
  {
    hide InsertedUser, UpdatedUser, ValidUser, Valid, SchoolsNamed, UserFits, UserRow, WriteUser, SetMapping, Unmapped;
    var once := MapUser(InsertedUser(c, p), p);
    assert Apply(c, e) == once;
    InsertedUserTwice(c, p, e);
    InsertedUserFits(c, p);
    InsertedSchoolsNamed(c, p);
    if e.UserCreate? {
      InsertUserTwice(c, p);
      WriteUserFailsIff(once, p);
    } else {
      InsertThenModify(c, p);
      WriteUserFailsIff(UnmapUser(once, p), p);
    }
  }

  lemma InsertedUserFits(c: Cache, p: UserPayload)
    requires UserFits(c, p.id, UserRow(p))
    ensures var once := MapUser(InsertedUser(c, p), p);
            && UserFits(once, p.id, UserRow(p)) && UserFits(UnmapUser(once, p), p.id, UserRow(p))
            && p.id in once.users
  {
    hide UserRow;
  }

  lemma InsertedSchoolsNamed(c: Cache, p: UserPayload)
    ensures SchoolsNamed(MapUser(InsertedUser(c, p), p), p.schools) == SchoolsNamed(c, p.schools)
  {
  }

  lemma InsertedGroupFits(c: Cache, p: GroupPayload, school: Id)
    requires p.id !in c.groups && GroupFits(c, p.id, GroupRow(c, p, p.email, CONNECTOR_SOURCE_UID, school))
    ensures var once := MapGroup(InsertedGroup(c, p, school), p); var base := UnmapGroup(once, p);
            var row := GroupRow(c, p, p.email, CONNECTOR_SOURCE_UID, school);
            && p.id in once.groups && p.id in base.groups && once.schools == c.schools && base.schools == c.schools
            && UpdatedGroupRow(once, p, Some(school)) == row && GroupFits(once, p.id, row)
            && UpdatedGroupRow(base, p, Some(school)) == row && GroupFits(base, p.id, row)
  {
    hide UdmProperties, MembersByDns, UsersByDns, GroupsByDns, LinksOf;
  }

  lemma InsertedGroupFailsIff(c: Cache, p: GroupPayload, e: Event)
    requires Valid(c) && p.id !in c.groups && (e == GroupCreate(p) || e == GroupModify(p))
    requires FindSchool(c, GroupSchoolName(p)).Some? && Handle(c, e).Committed?
    ensures Handle(Apply(c, e), e).Failed? <==> FailsAgain(c, e)
  {
    hide InsertedGroup, UpdatedGroup, UpdatedGroupRow, GroupRow, ValidGroup, Valid, FindSchool, GroupFits, WriteGroup,
      SetMapping, Unmapped;
    var school := FindSchool(c, GroupSchoolName(p)).value;
    var once := MapGroup(InsertedGroup(c, p, school), p);
    assert Apply(c, e) == once;
    InsertedGroupFits(c, p, school);
    if e.GroupCreate? {
      SameFindSchool(c, once, GroupSchoolName(p));
      InsertGroupTwice(c, p, school);
      WriteGroupFailsIff(once, p, Some(school));
    } else {
      SameFindSchool(c, UnmapGroup(once, p), GroupSchoolName(p));
      InsertThenModifyGroup(c, p, school);
      WriteGroupFailsIff(UnmapGroup(once, p), p, Some(school));
    }
  }

  /** A stored user's event never fails when repeated, settled or not. */
  lemma StoredUserAgain(c: Cache, e: Event)
    requires Valid(c) && WritesUser(e) && e.user.id in c.users && Handle(c, e).Committed?
    ensures Handle(Apply(c, e), e).Committed?
  {
    hide WriteUser, Valid, SelfAgrees, RepeatsCleanly;
    var p := e.user;
    if e.UserModify? {
      ModifiedUserTwice(c, p);
      CleanIsCommitted(c, e);
    } else if SchoolsNamed(c, p.schools) != {} {
      WriteUserTwice(c, p);
    }
  }

  lemma CleanIsCommitted(c: Cache, e: Event)
    requires RepeatsCleanly(c, e)
    ensures Handle(Apply(c, e), e).Committed?
  {
    hide Handle, Apply;
  }

  lemma StoredGroupAgain(c: Cache, e: Event)
    requires Valid(c) && WritesGroup(e) && e.group.id in c.groups && Handle(c, e).Committed?
    ensures Handle(Apply(c, e), e).Committed?
  {
    hide WriteGroup, Valid, LosesMembers, FindSchool, SetMapping, Unmapped;
    var p := e.group;
    var base := if e.GroupModify? then UnmapGroup(c, p) else c;
    UnmapGroupValid(c, p);
    UnmappedGroup(c, p);
    if e.GroupModify? || FindSchool(c, GroupSchoolName(p)).Some? {
      var found := FindSchool(base, GroupSchoolName(p));
      var written := WriteGroup(base, p, found).cache;
      WriteGroupTwice(base, p, found);
      UnmappedTwice(written.groupDns, p.dn, p.id);
      UnmappedTwice(c.groupDns, p.dn, p.id);
      SameFindSchool(base, written, GroupSchoolName(p));
      if e.GroupModify? {
        assert UnmapGroup(MapGroup(written, p), p) == written;
      }
    }
  }

  /** A committed event fails when it is repeated exactly when it does not
      settle and its object is new and invalid. */
  lemma FailsAgainIff(c: Cache, e: Event)
    requires Valid(c) && Handle(c, e).Committed?
    ensures Handle(Apply(c, e), e).Failed? <==> FailsAgain(c, e)
  {
    hide Handle, Apply, Valid, Settles, SchoolsNamed, FindSchool, NewGroupInvalid, UserRow, ValidUser, RepeatsCleanly;
    if WritesUser(e) && e.user.id in c.users {
      StoredUserAgain(c, e);
    } else if WritesGroup(e) && e.group.id in c.groups {
      StoredGroupAgain(c, e);
    } else if WritesUser(e) && SchoolsNamed(c, e.user.schools) != {} {
      InsertedUserFailsIff(c, e.user, e);
    } else if WritesGroup(e) && FindSchool(c, GroupSchoolName(e.group)).Some? {
      InsertedGroupFailsIff(c, e.group, e);
    } else {
      DroppedSettles(c, e);
      RepeatsCleanlyIff(c, e);
      CleanIsCommitted(c, e);
    }
  }

  lemma DroppedSettles(c: Cache, e: Event)
    requires WritesUser(e) ==> e.user.id !in c.users && SchoolsNamed(c, e.user.schools) == {}
    requires WritesGroup(e) ==> e.group.id !in c.groups && FindSchool(c, GroupSchoolName(e.group)) == None
    ensures Settles(c, e)
  {
    hide SchoolsNamed, FindSchool;
  }
}
