/** The first synchronisation: the create events of a directory end in the same
    cache in whatever order they arrive. A reference that cannot be resolved
    yet is skipped, and supplied by the other object's own event. */
module FirstSync {
  import opened Text
  import opened Schema
  import opened Events
  import opened Sync
  import opened Integrity
  import opened Links
  import opened Redelivery
  import opened Convergence

  datatype Population = Population(users: map<Id, UserPayload>, groups: map<Id, GroupPayload>)

  /** Schools and roles are cached, nothing else. */
  ghost predicate Fresh(c: Cache) {
    && Valid(c)
    && c.users == map[] && c.groups == map[] && c.memberships == map[]
    && c.members == {} && c.guardians == {} && c.senderUsers == {} && c.senderGroups == {}
    && c.userDns == map[] && c.groupDns == map[]
  }

  function NewGroupRow(c: Cache, p: GroupPayload): Group
    requires FindSchool(c, GroupSchoolName(p)).Some?
  {
    GroupRow(c, p, p.email, CONNECTOR_SOURCE_UID, FindSchool(c, GroupSchoolName(p)).value)
  }

  predicate NotItsOwnGuardian(p: UserPayload) {
    p.dn !in p.guardians && p.dn !in p.wards
  }

  /** The group lists the user, and the user the group's school. */
  predicate ListedMember(pu: UserPayload, pg: GroupPayload) {
    pu.dn in pg.users && GroupSchoolName(pg) in pu.schools
  }

  ghost predicate UserCreatable(c: Cache, u: Id, p: UserPayload) {
    p.id == u && SchoolsNamed(c, p.schools) != {} && NotItsOwnGuardian(p)
  }

  ghost predicate GroupCreatable(c: Cache, g: Id, p: GroupPayload) {
    && p.id == g && FindSchool(c, GroupSchoolName(p)).Some?
    && p.senderUsers == [] && p.senderGroups == [] && !UnsyncableGroupDn(p.dn)
  }

  ghost predicate UsersAgree(p: UserPayload, q: UserPayload) {
    !UsersClash(UserRow(p), UserRow(q)) && GuardianMirrors(p, q)
  }

  ghost predicate GroupsAgree(c: Cache, p: GroupPayload, q: GroupPayload) {
    FindSchool(c, GroupSchoolName(p)).Some? && FindSchool(c, GroupSchoolName(q)).Some? ==>
      !GroupsClash(NewGroupRow(c, p), NewGroupRow(c, q))
  }

  ghost predicate DistinctDns(dir: Population) {
    && (forall u, v {:trigger dir.users[u].dn, dir.users[v].dn} ::
          u in dir.users && v in dir.users && u != v ==> dir.users[u].dn != dir.users[v].dn)
    && (forall g, h {:trigger dir.groups[g].dn, dir.groups[h].dn} ::
          g in dir.groups && h in dir.groups && g != h ==> dir.groups[g].dn != dir.groups[h].dn)
  }

  /** A directory whose objects have distinct DNs and keys, list each other
      mutually, refer to no email senders, and name cached schools. */
  ghost predicate Consistent(c: Cache, dir: Population) {
    && DistinctDns(dir)
    && (forall u {:trigger UserCreatable(c, u, dir.users[u])} :: u in dir.users ==> UserCreatable(c, u, dir.users[u]))
    && (forall g {:trigger GroupCreatable(c, g, dir.groups[g])} :: g in dir.groups ==> GroupCreatable(c, g, dir.groups[g]))
    && (forall u, v {:trigger UsersAgree(dir.users[u], dir.users[v])} ::
          u in dir.users && v in dir.users && u != v ==> UsersAgree(dir.users[u], dir.users[v]))
    && (forall g, h {:trigger GroupsAgree(c, dir.groups[g], dir.groups[h])} ::
          g in dir.groups && h in dir.groups && g != h ==> GroupsAgree(c, dir.groups[g], dir.groups[h]))
    && (forall u, g {:trigger MembershipMirrors(dir.users[u], dir.groups[g])} ::
          u in dir.users && g in dir.groups ==> MembershipMirrors(dir.users[u], dir.groups[g]))
  }

  /** With unique names, a school is among the named ones just by its name. */
  lemma SchoolInNamed(c: Cache, s: Id, name: string, names: seq<string>)
    requires UniqueSchools(c.schools) && FindSchool(c, name) == Some(s)
    ensures s in SchoolsNamed(c, names) <==> name in names
  {
    FindSchoolIff(c, name, s);
  }

  /******* The cache as a function of what has arrived *******/

  function SchoolOfGroup(c: Cache, dir: Population, g: Id): Id {
    if g in dir.groups && FindSchool(c, GroupSchoolName(dir.groups[g])).Some?
    then FindSchool(c, GroupSchoolName(dir.groups[g])).value else 0
  }

  function UserTable(dir: Population, us: set<Id>): map<Id, User> {
    map u | u in us && u in dir.users :: UserRow(dir.users[u])
  }

  function GroupTable(c: Cache, dir: Population, gs: set<Id>): map<Id, Group> {
    map g | g in gs && g in dir.groups && FindSchool(c, GroupSchoolName(dir.groups[g])).Some?
      :: NewGroupRow(c, dir.groups[g])
  }

  ghost function MembershipTable(c: Cache, dir: Population, us: set<Id>): map<(Id, Id), Membership> {
    map k | k in (set u, s | u in us && u in dir.users && s in SchoolsNamed(c, dir.users[u].schools) :: (u, s))
      :: MembershipFor(c, dir.users[k.0], SchoolsNamed(c, dir.users[k.0].schools), k.1)
  }

  function LinkTable(c: Cache, dir: Population, us: set<Id>, gs: set<Id>): set<Link> {
    set g, u | g in gs && u in us && g in dir.groups && u in dir.users && ListedMember(dir.users[u], dir.groups[g])
      :: Link(g, u, SchoolOfGroup(c, dir, g))
  }

  function GuardianTable(dir: Population, us: set<Id>): set<(Id, Id)> {
    set u, v | u in us && v in us && u in dir.users && v in dir.users && dir.users[v].dn in dir.users[u].wards
      :: (u, v)
  }

  function Arrived<P>(payloads: map<Id, P>, ids: set<Id>): set<Id> {
    set x | x in ids && x in payloads
  }

  ghost function UserDnTable(dir: Population, us: set<Id>): map<Dn, Id>
    requires DistinctDns(dir)
  {
    map u | u in Arrived(dir.users, us) :: dir.users[u].dn := u
  }

  ghost function GroupDnTable(dir: Population, gs: set<Id>): map<Dn, Id>
    requires DistinctDns(dir)
  {
    map g | g in Arrived(dir.groups, gs) :: dir.groups[g].dn := g
  }

  /** The cache once the create events of these users and groups have been handled. */
  ghost function Synced(c: Cache, dir: Population, us: set<Id>, gs: set<Id>): Cache
    requires DistinctDns(dir)
  {
    c.(users := UserTable(dir, us), groups := GroupTable(c, dir, gs),
       memberships := MembershipTable(c, dir, us),
       members := LinkTable(c, dir, us, gs),
       guardians := GuardianTable(dir, us),
       userDns := UserDnTable(dir, us), groupDns := GroupDnTable(dir, gs))
  }

  /******* Lookups in that cache *******/

  lemma SyncedUsers(c: Cache, dir: Population, us: set<Id>, gs: set<Id>, refs: seq<Dn>, v: Id)
    requires DistinctDns(dir)
    ensures v in UsersByDns(Synced(c, dir, us, gs), refs)
      <==> v in us && v in dir.users && dir.users[v].dn in refs
  {
    var s := Synced(c, dir, us, gs);
    if v in us && v in dir.users && dir.users[v].dn in refs {
      assert v in Arrived(dir.users, us);
      assert dir.users[v].dn in s.userDns && s.userDns[dir.users[v].dn] == v;
    }
  }

  lemma SyncedGroups(c: Cache, dir: Population, us: set<Id>, gs: set<Id>, refs: seq<Dn>, g: Id)
    requires DistinctDns(dir) && (g in dir.groups ==> GroupCreatable(c, g, dir.groups[g]))
    ensures g in GroupsByDns(Synced(c, dir, us, gs), refs)
      <==> g in gs && g in dir.groups && dir.groups[g].dn in refs
  {
    var s := Synced(c, dir, us, gs);
    assert g in GroupsByDns(s, refs) ==> g in gs && g in dir.groups && dir.groups[g].dn in refs;
    if g in gs && g in dir.groups && dir.groups[g].dn in refs {
      assert g in Arrived(dir.groups, gs);
      assert dir.groups[g].dn in s.groupDns && s.groupDns[dir.groups[g].dn] == g;
    }
  }

  lemma SyncedSchools(c: Cache, dir: Population, us: set<Id>, gs: set<Id>, names: seq<string>)
    requires Consistent(c, dir)
    ensures SchoolsNamed(Synced(c, dir, us, gs), names) == SchoolsNamed(c, names)
  {
  }

  /******* A user arrives *******/

  lemma SetMappingOfNew(dns: map<Dn, Id>, dn: Dn, id: Id)
    requires dn !in dns && forall d :: d in dns ==> dns[d] != id
    ensures SetMapping(dns, dn, id) == dns[dn := id]
  {
  }

  lemma UserDnAt(dir: Population, us: set<Id>, d: Dn)
    requires DistinctDns(dir) && d in UserDnTable(dir, us)
    ensures var u := UserDnTable(dir, us)[d]; u in us && u in dir.users && dir.users[u].dn == d
  {
    var u :| u in Arrived(dir.users, us) && dir.users[u].dn == d;
    UserDnOf(dir, us, u);
  }

  lemma UserDnOf(dir: Population, us: set<Id>, u: Id)
    requires DistinctDns(dir) && u in us && u in dir.users
    ensures dir.users[u].dn in UserDnTable(dir, us) && UserDnTable(dir, us)[dir.users[u].dn] == u
  {
    assert u in Arrived(dir.users, us);
  }

  lemma UserDnArrives(dir: Population, us: set<Id>, u: Id)
    requires DistinctDns(dir) && u in dir.users && u !in us
    ensures SetMapping(UserDnTable(dir, us), dir.users[u].dn, u) == UserDnTable(dir, us + {u})
  {
    hide DistinctDns, UserDnTable, SetMapping;
    var before, after := UserDnTable(dir, us), UserDnTable(dir, us + {u});
    var dn := dir.users[u].dn;
    UserDnOf(dir, us + {u}, u);
    forall d
      ensures d in before ==> d != dn && before[d] != u && d in after && after[d] == before[d]
      ensures d in after && d != dn ==> d in before
    {
      if d in before {
        UserDnAt(dir, us, d);
        UserDnOf(dir, us + {u}, before[d]);
      }
      if d in after && d != dn {
        UserDnAt(dir, us + {u}, d);
        UserDnOf(dir, us, after[d]);
      }
    }
    SetMappingOfNew(before, dn, u);
    assert after == before[dn := u];
  }

  lemma UserRowArrives(c: Cache, dir: Population, us: set<Id>, gs: set<Id>, u: Id)
    requires Consistent(c, dir) && u in dir.users && u !in us
    ensures UserTable(dir, us)[u := UserRow(dir.users[u])] == UserTable(dir, us + {u})
    ensures UserFits(Synced(c, dir, us, gs), u, UserRow(dir.users[u]))
  {
    forall v | v in UserTable(dir, us) && v != u
      ensures !UsersClash(UserRow(dir.users[u]), UserTable(dir, us)[v])
    {
      assert UsersAgree(dir.users[u], dir.users[v]);
    }
  }

  lemma MembershipTableGrows(c: Cache, dir: Population, us: set<Id>, u: Id)
    requires u in dir.users && dir.users[u].id == u && u !in us
    ensures MembershipTable(c, dir, us) + UserMemberships(c, dir.users[u]) == MembershipTable(c, dir, us + {u})
  {
    hide SchoolsNamed, MembershipFor;
    UserMembershipsShape(c, dir.users[u]);
    var before, wanted, after :=
      MembershipTable(c, dir, us), UserMemberships(c, dir.users[u]), MembershipTable(c, dir, us + {u});
    forall k: (Id, Id)
      ensures k in after <==> k in before || k in wanted
    {
      assert k == (k.0, k.1);
    }
    assert after.Keys == (before + wanted).Keys;
  }

  lemma MembershipsArrive(c: Cache, dir: Population, us: set<Id>, gs: set<Id>, u: Id)
    requires Consistent(c, dir) && u in dir.users && u !in us
    ensures MembershipTable(c, dir, us) + UserMemberships(Synced(c, dir, us, gs), dir.users[u])
         == MembershipTable(c, dir, us + {u})
  {
    SameMemberships(c, Synced(c, dir, us, gs), dir.users[u]);
    assert UserCreatable(c, u, dir.users[u]);
    MembershipTableGrows(c, dir, us, u);
  }

  lemma UserLinksArrive(c: Cache, dir: Population, us: set<Id>, gs: set<Id>, u: Id)
    requires Valid(c) && Consistent(c, dir) && u in dir.users && u !in us
    ensures LinkTable(c, dir, us, gs) + UserLinks(Synced(c, dir, us, gs), dir.users[u])
         == LinkTable(c, dir, us + {u}, gs)
  {
    var s := Synced(c, dir, us, gs);
    var p := dir.users[u];
    UserLinksShape(s, p);
    forall l: Link
      ensures l in UserLinks(s, p) <==>
                l.user == u && l.group in gs && l.group in dir.groups && ListedMember(p, dir.groups[l.group])
                && l.school == SchoolOfGroup(c, dir, l.group)
    {
      assert l.group in dir.groups ==> GroupCreatable(c, l.group, dir.groups[l.group]);
      assert UserCreatable(c, u, p);
      SyncedGroups(c, dir, us, gs, p.groups, l.group);
      SyncedSchools(c, dir, us, gs, p.schools);
      if l.group in gs && l.group in dir.groups {
        assert MembershipMirrors(p, dir.groups[l.group]);
        SchoolInNamed(c, SchoolOfGroup(c, dir, l.group), GroupSchoolName(dir.groups[l.group]), p.schools);
      }
    }
    forall l: Link
      ensures l in LinkTable(c, dir, us + {u}, gs) <==> l in LinkTable(c, dir, us, gs) || l in UserLinks(s, p)
    {
      LinkTableIff(c, dir, us, gs, l);
      LinkTableIff(c, dir, us + {u}, gs, l);
    }
  }

  lemma LinkTableIff(c: Cache, dir: Population, us: set<Id>, gs: set<Id>, l: Link)
    ensures l in LinkTable(c, dir, us, gs) <==>
              l.group in gs && l.user in us && l.group in dir.groups && l.user in dir.users
              && ListedMember(dir.users[l.user], dir.groups[l.group]) && l.school == SchoolOfGroup(c, dir, l.group)
  {
    assert l == Link(l.group, l.user, l.school);
  }

  lemma GuardianTableIff(dir: Population, us: set<Id>, x: (Id, Id))
    ensures x in GuardianTable(dir, us) <==>
              && x.0 in us && x.1 in us && x.0 in dir.users && x.1 in dir.users
              && dir.users[x.1].dn in dir.users[x.0].wards
  {
    assert x == (x.0, x.1);
  }

  /** The pairs a user's own event adds are those with users already there. */
  lemma GuardianPairArrives(c: Cache, dir: Population, us: set<Id>, gs: set<Id>, u: Id, x: (Id, Id))
    requires Consistent(c, dir) && u in dir.users && u !in us
    ensures var s := Synced(c, dir, us, gs); var p := dir.users[u];
            x in GuardianTable(dir, us + {u}) <==>
              || x in GuardianTable(dir, us)
              || (x.1 == u && x.0 in UsersByDns(s, p.guardians))
              || (x.0 == u && x.1 in UsersByDns(s, p.wards))
  {
    var p := dir.users[u];
    assert UserCreatable(c, u, p);
    GuardianTableIff(dir, us, x);
    GuardianTableIff(dir, us + {u}, x);
    SyncedUsers(c, dir, us, gs, p.guardians, x.0);
    SyncedUsers(c, dir, us, gs, p.wards, x.1);
    if x.0 in dir.users && x.0 != u {
      assert UsersAgree(dir.users[x.0], p);
    }
  }

  lemma GuardiansArrive(c: Cache, dir: Population, us: set<Id>, gs: set<Id>, u: Id)
    requires Consistent(c, dir) && u in dir.users && u !in us
    ensures var s := Synced(c, dir, us, gs); var p := dir.users[u];
            GuardianTable(dir, us)
              + (set g | g in UsersByDns(s, p.guardians) :: (g, p.id))
              + (set w | w in UsersByDns(s, p.wards) :: (p.id, w))
            == GuardianTable(dir, us + {u})
  {
    hide Synced, GuardianTable;
    var s := Synced(c, dir, us, gs);
    var p := dir.users[u];
    var guardians := set g | g in UsersByDns(s, p.guardians) :: (g, p.id);
    var wards := set w | w in UsersByDns(s, p.wards) :: (p.id, w);
    OwnIds(c, dir, u);
    forall x: (Id, Id)
      ensures x in GuardianTable(dir, us + {u}) <==> x in GuardianTable(dir, us) || x in guardians || x in wards
    {
      assert x == (x.0, x.1);
      GuardianPairArrives(c, dir, us, gs, u, x);
    }
  }

  lemma OwnIds(c: Cache, dir: Population, u: Id)
    requires Consistent(c, dir) && u in dir.users
    ensures dir.users[u].id == u
  {
    assert UserCreatable(c, u, dir.users[u]);
  }

  /** A user's create event brings the cache up to date with that user. */
  lemma UserArrives(c: Cache, dir: Population, us: set<Id>, gs: set<Id>, u: Id)
    requires Valid(c) && Consistent(c, dir) && u in dir.users && u !in us
    ensures HandleUserCreate(Synced(c, dir, us, gs), dir.users[u]) == Committed(Synced(c, dir, us + {u}, gs))
  {
    var s := Synced(c, dir, us, gs);
    var p := dir.users[u];
    assert UserCreatable(c, u, p);
    SyncedSchools(c, dir, us, gs, p.schools);
    UserRowArrives(c, dir, us, gs, u);
    var next := MapUser(InsertedUser(s, p), p);
    assert next == Synced(c, dir, us + {u}, gs) by {
      hide HandleUserCreate, Valid;
      MembershipsArrive(c, dir, us, gs, u);
      UserLinksArrive(c, dir, us, gs, u);
      GuardiansArrive(c, dir, us, gs, u);
      UserDnArrives(dir, us, u);
    }
  }

  /******* A group arrives *******/

  lemma GroupDnAt(dir: Population, gs: set<Id>, d: Dn)
    requires DistinctDns(dir) && d in GroupDnTable(dir, gs)
    ensures var g := GroupDnTable(dir, gs)[d]; g in gs && g in dir.groups && dir.groups[g].dn == d
  {
    var g :| g in Arrived(dir.groups, gs) && dir.groups[g].dn == d;
    GroupDnOf(dir, gs, g);
  }

  lemma GroupDnOf(dir: Population, gs: set<Id>, g: Id)
    requires DistinctDns(dir) && g in gs && g in dir.groups
    ensures dir.groups[g].dn in GroupDnTable(dir, gs) && GroupDnTable(dir, gs)[dir.groups[g].dn] == g
  {
    assert g in Arrived(dir.groups, gs);
  }

  lemma GroupDnArrives(dir: Population, gs: set<Id>, g: Id)
    requires DistinctDns(dir) && g in dir.groups && g !in gs
    ensures SetMapping(GroupDnTable(dir, gs), dir.groups[g].dn, g) == GroupDnTable(dir, gs + {g})
  {
    hide DistinctDns, GroupDnTable, SetMapping;
    var before, after := GroupDnTable(dir, gs), GroupDnTable(dir, gs + {g});
    var dn := dir.groups[g].dn;
    GroupDnOf(dir, gs + {g}, g);
    forall d
      ensures d in before ==> d != dn && before[d] != g && d in after && after[d] == before[d]
      ensures d in after && d != dn ==> d in before
    {
      if d in before {
        GroupDnAt(dir, gs, d);
        GroupDnOf(dir, gs + {g}, before[d]);
      }
      if d in after && d != dn {
        GroupDnAt(dir, gs + {g}, d);
        GroupDnOf(dir, gs, after[d]);
      }
    }
    SetMappingOfNew(before, dn, g);
    assert after == before[dn := g];
  }

  lemma GroupRowArrives(c: Cache, dir: Population, us: set<Id>, gs: set<Id>, g: Id)
    requires Consistent(c, dir) && g in dir.groups && g !in gs && GroupCreatable(c, g, dir.groups[g])
    ensures GroupTable(c, dir, gs)[g := NewGroupRow(c, dir.groups[g])] == GroupTable(c, dir, gs + {g})
    ensures GroupFits(Synced(c, dir, us, gs), g, NewGroupRow(c, dir.groups[g]))
  {
    forall h | h in GroupTable(c, dir, gs) && h != g
      ensures !GroupsClash(NewGroupRow(c, dir.groups[g]), GroupTable(c, dir, gs)[h])
    {
      assert GroupCreatable(c, h, dir.groups[h]);
      assert GroupsAgree(c, dir.groups[g], dir.groups[h]);
    }
  }

  lemma SyncedMembers(c: Cache, dir: Population, us: set<Id>, gs: set<Id>, g: Id, u: Id)
    requires Valid(c) && Consistent(c, dir) && g in dir.groups
    ensures u in MembersByDns(Synced(c, dir, us, gs), dir.groups[g].users, SchoolOfGroup(c, dir, g))
      <==> u in us && u in dir.users && ListedMember(dir.users[u], dir.groups[g])
  {
    var s := Synced(c, dir, us, gs);
    var school := SchoolOfGroup(c, dir, g);
    SyncedUsers(c, dir, us, gs, dir.groups[g].users, u);
    assert GroupCreatable(c, g, dir.groups[g]);
    if u in us && u in dir.users {
      SchoolInNamed(c, school, GroupSchoolName(dir.groups[g]), dir.users[u].schools);
      assert (u, school) in s.memberships <==> school in SchoolsNamed(c, dir.users[u].schools);
    }
  }

  lemma GroupLinksArrive(c: Cache, dir: Population, us: set<Id>, gs: set<Id>, g: Id)
    requires Valid(c) && Consistent(c, dir) && g in dir.groups && g !in gs
    ensures var school := SchoolOfGroup(c, dir, g);
            LinkTable(c, dir, us, gs)
              + LinksOf(g, MembersByDns(Synced(c, dir, us, gs), dir.groups[g].users, school), school)
            == LinkTable(c, dir, us, gs + {g})
  {
    hide Valid, MembersByDns, LinkTable, LinksOf, Synced, ListedMember, SchoolOfGroup, DistinctDns, GroupCreatable;
    var school := SchoolOfGroup(c, dir, g);
    var members := MembersByDns(Synced(c, dir, us, gs), dir.groups[g].users, school);
    forall l: Link
      ensures l in LinkTable(c, dir, us, gs + {g}) <==> l in LinkTable(c, dir, us, gs) || l in LinksOf(g, members, school)
    {
      LinkTableIff(c, dir, us, gs, l);
      LinkTableIff(c, dir, us, gs + {g}, l);
      LinksOfIff(g, members, school, l);
      SyncedMembers(c, dir, us, gs, g, l.user);
    }
  }

  lemma GroupTablesArrive(c: Cache, dir: Population, us: set<Id>, gs: set<Id>, g: Id)
    requires Fresh(c) && Consistent(c, dir) && g in dir.groups && g !in gs && GroupCreatable(c, g, dir.groups[g])
    ensures var s := Synced(c, dir, us, gs); var p := dir.groups[g];
            MapGroup(InsertedGroup(s, p, SchoolOfGroup(c, dir, g)), p) == Synced(c, dir, us, gs + {g})
  {
    var s := Synced(c, dir, us, gs);
    var p := dir.groups[g];
    var next := MapGroup(InsertedGroup(s, p, SchoolOfGroup(c, dir, g)), p);
    GroupRowArrives(c, dir, us, gs, g);
    assert GroupRow(s, p, p.email, CONNECTOR_SOURCE_UID, SchoolOfGroup(c, dir, g)) == NewGroupRow(c, p);
    GroupLinksArrive(c, dir, us, gs, g);
    GroupDnArrives(dir, gs, g);
    assert next.senderUsers == c.senderUsers && next.senderGroups == c.senderGroups;
  }

  lemma GroupArrives(c: Cache, dir: Population, us: set<Id>, gs: set<Id>, g: Id)
    requires Fresh(c) && Consistent(c, dir) && g in dir.groups && g !in gs
    ensures HandleGroupCreate(Synced(c, dir, us, gs), dir.groups[g]) == Committed(Synced(c, dir, us, gs + {g}))
  {
    var s := Synced(c, dir, us, gs);
    var p := dir.groups[g];
    assert GroupCreatable(c, g, p);
    SameFindSchool(c, s, GroupSchoolName(p));
    GroupRowArrives(c, dir, us, gs, g);
    GroupTablesArrive(c, dir, us, gs, g);
    var school := SchoolOfGroup(c, dir, g);
    assert GroupRow(s, p, p.email, CONNECTOR_SOURCE_UID, school) == NewGroupRow(c, p);
    assert p.id !in s.groups;
  }

  /******* Any order *******/

  ghost predicate CreateEventOf(dir: Population, e: Event) {
    || (e.UserCreate? && e.user.id in dir.users && dir.users[e.user.id] == e.user)
    || (e.GroupCreate? && e.group.id in dir.groups && dir.groups[e.group.id] == e.group)
  }

  ghost predicate EachOnce(dir: Population, events: seq<Event>) {
    forall e :: e in events ==> CreateEventOf(dir, e) && multiset(events)[e] == 1
  }

  ghost function UsersIn(events: seq<Event>): set<Id> {
    set e | e in events && e.UserCreate? :: e.user.id
  }

  ghost function GroupsIn(events: seq<Event>): set<Id> {
    set e | e in events && e.GroupCreate? :: e.group.id
  }

  lemma FreshIsSynced(c: Cache, dir: Population)
    requires Fresh(c) && Consistent(c, dir)
    ensures Synced(c, dir, {}, {}) == c
  {
    assert Arrived(dir.users, {}) == {} && Arrived(dir.groups, {}) == {};
  }

  lemma PrefixOnce(dir: Population, events: seq<Event>)
    requires EachOnce(dir, events) && events != []
    ensures var n := |events| - 1;
            EachOnce(dir, events[..n]) && events[n] !in events[..n] && CreateEventOf(dir, events[n])
  {
    var n := |events| - 1;
    assert events == events[..n] + [events[n]];
    assert multiset(events) == multiset(events[..n]) + multiset{events[n]};
    assert multiset(events)[events[n]] == 1;
    forall e | e in events[..n]
      ensures CreateEventOf(dir, e) && multiset(events[..n])[e] == 1
    {
      assert e in events && e in multiset(events[..n]);
    }
  }

  lemma LastArrival(dir: Population, events: seq<Event>)
    requires EachOnce(dir, events) && events != []
    ensures var n := |events| - 1; var e := events[n];
            if e.UserCreate?
            then UsersIn(events) == UsersIn(events[..n]) + {e.user.id} && e.user.id !in UsersIn(events[..n])
                 && GroupsIn(events) == GroupsIn(events[..n])
            else e.GroupCreate? && GroupsIn(events) == GroupsIn(events[..n]) + {e.group.id} && e.group.id !in GroupsIn(events[..n])
                 && UsersIn(events) == UsersIn(events[..n])
  {
    var n := |events| - 1;
    var e := events[n];
    PrefixOnce(dir, events);
    forall x ensures x in events <==> x in events[..n] || x == e {
      assert events == events[..n] + [e];
    }
    forall x | x in events[..n]
      ensures e.UserCreate? && x.UserCreate? ==> x.user.id != e.user.id
      ensures e.GroupCreate? && x.GroupCreate? ==> x.group.id != e.group.id
    {
      assert CreateEventOf(dir, x);
    }
  }

  lemma EventArrives(c: Cache, dir: Population, us: set<Id>, gs: set<Id>, e: Event)
    requires Fresh(c) && Consistent(c, dir) && CreateEventOf(dir, e)
    requires e.UserCreate? ==> e.user.id !in us
    requires e.GroupCreate? ==> e.group.id !in gs
    ensures e.UserCreate? ==> Apply(Synced(c, dir, us, gs), e) == Synced(c, dir, us + {e.user.id}, gs)
    ensures e.GroupCreate? ==> Apply(Synced(c, dir, us, gs), e) == Synced(c, dir, us, gs + {e.group.id})
  {
    hide HandleUserCreate, HandleGroupCreate, Consistent, Synced;
    if e.UserCreate? {
      UserArrives(c, dir, us, gs, e.user.id);
    } else {
      GroupArrives(c, dir, us, gs, e.group.id);
    }
  }

  /** The first synchronisation computes the cache of the directory. */
  lemma {:induction false} FirstSyncResult(c: Cache, dir: Population, events: seq<Event>)
    requires Fresh(c) && Consistent(c, dir) && EachOnce(dir, events)
    ensures Run(c, events) == Synced(c, dir, UsersIn(events), GroupsIn(events))
  {
    hide Handle, Consistent, Synced;
    if events == [] {
      FreshIsSynced(c, dir);
      assert UsersIn(events) == {} && GroupsIn(events) == {};
    } else {
      var n := |events| - 1;
      PrefixOnce(dir, events);
      FirstSyncResult(c, dir, events[..n]);
      LastArrival(dir, events);
      EventArrives(c, dir, UsersIn(events[..n]), GroupsIn(events[..n]), events[n]);
    }
  }

  /** Every permutation of the create events ends in the same cache. */
  lemma {:induction false} OrderIndependence(c: Cache, dir: Population, events: seq<Event>, others: seq<Event>)
    requires Fresh(c) && Consistent(c, dir) && EachOnce(dir, events)
    requires multiset(events) == multiset(others)
    ensures Run(c, events) == Run(c, others)
  {
    hide Handle, Consistent, Synced, Run;
    forall e ensures e in events <==> e in others {
      assert e in events <==> e in multiset(events);
      assert e in others <==> e in multiset(others);
    }
    assert EachOnce(dir, others);
    FirstSyncResult(c, dir, events);
    FirstSyncResult(c, dir, others);
    assert UsersIn(events) == UsersIn(others) && GroupsIn(events) == GroupsIn(others);
  }
}
