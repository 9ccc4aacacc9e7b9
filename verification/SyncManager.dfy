/** The handlers, step by step against the session, each one transaction. */
module SyncManager {
  import opened Text
  import opened Schema
  import opened Events
  import opened Sync
  import opened Integrity
  import opened Redelivery
  import opened Storage
  import opened Memberships

  class SynchronizationManager {
    const storage: KelvinStorage

    constructor (storage: KelvinStorage)
      ensures this.storage == storage
    {
      this.storage := storage;
    }

    /** What a commit would leave. */
    function Flushed(): Cache
      reads storage
    {
      WithPending(storage.Contents(), storage.pending)
    }

    /******* Fetch helpers *******/

    /** Only the references the mapper knows and whose row exists. */
    method FetchUsersByDns(dns: seq<Dn>) returns (users: set<Id>)
      ensures users == UsersByDns(storage.Contents(), dns)
    {
      var known := Resolve(storage.userDns, dns);
      users := {};
      if known != {} {
        users := set u | u in storage.users && u in known;
      }
    }

    /** Unsyncable references are not even looked up. */
    method FetchGroupsByDns(dns: seq<Dn>) returns (groups: set<Id>)
      ensures groups == GroupsByDns(storage.Contents(), dns)
    {
      var syncable: seq<Dn> := [];
      for i := 0 to |dns|
        invariant forall d :: d in syncable <==> d in dns[..i] && !UnsyncableGroupDn(d)
      {
        if !UnsyncableGroupDn(dns[i]) {
          syncable := syncable + [dns[i]];
        }
      }
      var known := Resolve(storage.groupDns, syncable);
      groups := {};
      if known != {} {
        groups := set g | g in storage.groups && g in known;
      }
    }

    /** Members need a membership of the school already. */
    method FetchMembersByDns(dns: seq<Dn>, school: Id) returns (members: set<Id>)
      ensures members == MembersByDns(storage.Contents(), dns, school)
    {
      var known := Resolve(storage.userDns, dns);
      members := {};
      if known != {} {
        members := set u | u in storage.users && u in known && (u, school) in storage.memberships;
      }
    }

    method FindSchools(names: seq<string>) returns (schools: seq<Id>)
      ensures schools == Sorted(SchoolsNamed(storage.Contents(), names))
      ensures schools == [] <==> SchoolsNamed(storage.Contents(), names) == {}
    {
      schools := Sorted(SchoolsNamed(storage.Contents(), names));
    }

    /******* Users *******/

    /** Everything a user event resolves against the cache. */
    method ResolveUser(p: UserPayload, schools: seq<Id>)
      returns (wanted: map<Id, WantedMembership>, wards: set<Id>, guardians: set<Id>)
      requires schools == Sorted(SchoolsNamed(storage.Contents(), p.schools))
      ensures Wants(storage.Contents(), p, wanted)
      ensures wards == UsersByDns(storage.Contents(), p.wards)
      ensures guardians == UsersByDns(storage.Contents(), p.guardians)
    {
      ghost var c := storage.Contents();
      GroupsExist(c, p.groups);
      assert forall s :: s in schools ==> s in c.schools;
      hide *;
      var groups := FetchGroupsByDns(p.groups);
      wanted := BuildSchoolMemberships(storage.Contents(), schools, groups, p.roles, SchoolOuFromDn(p.dn));
      BuiltIsWanted(c, p, schools, wanted);
      wards := FetchUsersByDns(p.wards);
      guardians := FetchUsersByDns(p.guardians);
    }

    method UserCreated(p: UserPayload) returns (ok: bool)
      requires Valid(storage.Contents())
      requires storage.pending == NOTHING_PENDING
      modifies storage
      ensures HandleUserCreate(old(storage.Contents()), p) == if ok then Committed(Flushed()) else Failed
      ensures storage.started == old(storage.started)
    {
      hide Valid, SchoolsNamed, UserFits, UserRow, InsertedUser, WriteUser, UsersByDns, Wants, Sorted, WithPending, MapUser,
        storage.Contents;
      NothingToFlush(storage.Contents());
      var schools := FindSchools(p.schools);
      if schools == [] {
        return true;
      }
      var wanted, wards, guardians := ResolveUser(p, schools);
      var known := storage.HasUser(p.id);
      if !known {
        ok := UserInserted(p, wanted, wards, guardians);
      } else {
        ok := UserWritten(p, wanted, wards, guardians);
        NothingToFlush(storage.Contents());
      }
    }

    method UserInserted(p: UserPayload, wanted: map<Id, WantedMembership>, wards: set<Id>, guardians: set<Id>)
      returns (ok: bool)
      requires Valid(storage.Contents()) && p.id !in storage.Contents().users
      requires Wants(storage.Contents(), p, wanted)
      requires wards == UsersByDns(storage.Contents(), p.wards)
      requires guardians == UsersByDns(storage.Contents(), p.guardians)
      requires storage.pending == NOTHING_PENDING
      modifies storage
      ensures ok <==> UserFits(old(storage.Contents()), p.id, UserRow(p))
      ensures ok ==> Flushed() == MapUser(InsertedUser(old(storage.Contents()), p), p)
      ensures storage.started == old(storage.started)
    {
      hide Valid, UserFits, UserRow, InsertedUser, UsersByDns, Wants, WithNewUser, SetMapping, Unmapped, WithPending,
        WantedTable, WantedLinks, UserMemberships, UserLinks, AtMostOneWantedPrimary, MapUser, storage.Contents;
      ghost var c := storage.Contents();
      WantedAsTables(c, p, wanted);
      UserTables(c, p, wanted, guardians, wards);
      ok := storage.CreateUser(p.id, UserRow(p), wanted, guardians, wards);
      if ok {
        storage.SetUserMapping(p.dn, p.id);
        FlushedUser(InsertedUser(c, p), storage.Contents(), p);
      }
    }

    /** Track the changes to the stored user and store what differs. */
    method UserWritten(p: UserPayload, wanted: map<Id, WantedMembership>, wards: set<Id>, guardians: set<Id>)
      returns (ok: bool)
      requires Valid(storage.Contents()) && p.id in storage.Contents().users
      requires Wants(storage.Contents(), p, wanted)
      requires wards == UsersByDns(storage.Contents(), p.wards)
      requires guardians == UsersByDns(storage.Contents(), p.guardians)
      modifies storage
      ensures WriteUser(old(storage.Contents()), p) == if ok then Committed(storage.Contents()) else Failed
      ensures storage.pending == old(storage.pending) && storage.started == old(storage.started)
      ensures !ok ==> storage.Contents() == old(storage.Contents())
    {
      hide ForeignKeys, DnMaps, OnePrimary, UniqueKeys, Wants, UsersByDns, WithStoredUser, UpdatedUser, UserPatchEmpty,
        ValidUser, UserFits, UserRow, AtMostOneWantedPrimary, storage.Contents;
      ghost var c := storage.Contents();
      WantedAsTables(c, p, wanted);
      UserTables(c, p, wanted, guardians, wards);
      UserPatchEmptyIff(c, p, wanted, guardians, wards);
      ok := storage.ModifyUser(p.id, UserRow(p), wanted, guardians, wards);
    }

    method UserModified(p: UserPayload) returns (ok: bool)
      requires Valid(storage.Contents())
      requires storage.pending == NOTHING_PENDING
      modifies storage
      ensures HandleUserModify(old(storage.Contents()), p) == if ok then Committed(Flushed()) else Failed
      ensures storage.started == old(storage.started)
    {
      hide Valid, HandleUserCreate, SchoolsNamed, WriteUser, UsersByDns, Wants, Sorted, SetMapping, Unmapped, storage.Contents;
      ghost var c := storage.Contents();
      var known := storage.HasUser(p.id);
      if !known {
        ok := UserCreated(p);
        return;
      }
      UnmapUserValid(c, p);
      storage.SetUserMapping(p.dn, p.id);
      var schools := FindSchools(p.schools);
      var wanted, wards, guardians := ResolveUser(p, schools);
      ok := UserWritten(p, wanted, wards, guardians);
      if ok {
        WritesNoUserDn(UnmapUser(c, p), p);
        FlushedUser(c, storage.Contents(), p);
      }
    }

    /******* Groups *******/

    /** Everything a group event resolves once its school is known. */
    method ResolveGroup(p: GroupPayload, school: Id)
      returns (senderUsers: set<Id>, senderGroups: set<Id>, members: set<Id>)
      ensures senderUsers == UsersByDns(storage.Contents(), p.senderUsers)
      ensures senderGroups == GroupsByDns(storage.Contents(), p.senderGroups)
      ensures members == MembersByDns(storage.Contents(), p.users, school)
    {
      hide *;
      senderUsers := FetchUsersByDns(p.senderUsers);
      senderGroups := FetchGroupsByDns(p.senderGroups);
      members := FetchMembersByDns(p.users, school);
    }

    method FirstSchoolNamed(name: string) returns (school: Option<Id>)
      ensures school == FindSchool(storage.Contents(), name)
    {
      var found := FindSchools([name]);
      school := if found == [] then None else Some(found[0]);
    }

    method GroupCreated(p: GroupPayload) returns (ok: bool)
      requires storage.pending == NOTHING_PENDING
      modifies storage
      ensures HandleGroupCreate(old(storage.Contents()), p) == if ok then Committed(Flushed()) else Failed
      ensures storage.started == old(storage.started)
    {
      hide FindSchool, GroupFits, GroupRow, InsertedGroup, WriteGroup, WithNewGroup, UsersByDns, GroupsByDns, MembersByDns,
        SetMapping, Unmapped, GroupSchoolName, storage.Contents;
      ghost var c := storage.Contents();
      NothingToFlush(c);
      var school := FirstSchoolNamed(GroupSchoolName(p));
      if school == None {
        return true;
      }
      var stored := storage.GetGroup(p.id);
      if stored == None {
        var senderUsers, senderGroups, members := ResolveGroup(p, school.value);
        var row := GroupRow(storage.Contents(), p, p.email, CONNECTOR_SOURCE_UID, school.value);
        NewGroupTables(c, p, school.value);
        ok := storage.CreateGroup(p.id, row, members, senderUsers, senderGroups);
        if ok {
          storage.SetGroupMapping(p.dn, p.id);
          FlushedGroup(InsertedGroup(c, p, school.value), storage.Contents(), p);
        }
      } else {
        ok := GroupWritten(p, stored.value, school);
        NothingToFlush(storage.Contents());
      }
    }

    /** Members are looked up for the school the group will have. */
    method GroupWritten(p: GroupPayload, stored: Group, school: Option<Id>) returns (ok: bool)
      requires p.id in storage.Contents().groups && storage.Contents().groups[p.id] == stored
      modifies storage
      ensures WriteGroup(old(storage.Contents()), p, school) == if ok then Committed(storage.Contents()) else Failed
      ensures storage.pending == old(storage.pending) && storage.started == old(storage.started)
      ensures !ok ==> storage.Contents() == old(storage.Contents())
    {
      hide GroupFits, ValidGroup, UpdatedGroup, WithStoredGroup, GroupPatchEmpty, UsersByDns, GroupsByDns, MembersByDns,
        RolesNamed, GuardianRolesNamed, UdmProperties, storage.Contents;
      ghost var c := storage.Contents();
      var target := if school.Some? then school.value else stored.school;
      var email := if p.email.Some? then p.email else stored.email;
      var row := GroupRow(storage.Contents(), p, email, stored.sourceUid, target);
      var senderUsers, senderGroups, members := ResolveGroup(p, target);
      StoredGroupTables(c, p, school);
      ok := storage.ModifyGroup(p.id, row, members, senderUsers, senderGroups);
    }

    method GroupModified(p: GroupPayload) returns (ok: bool)
      requires storage.pending == NOTHING_PENDING
      modifies storage
      ensures HandleGroupModify(old(storage.Contents()), p) == if ok then Committed(Flushed()) else Failed
      ensures storage.started == old(storage.started)
    {
      hide HandleGroupCreate, FindSchool, WriteGroup, SetMapping, Unmapped, GroupSchoolName, storage.Contents;
      ghost var c := storage.Contents();
      var stored := storage.GetGroup(p.id);
      if stored == None {
        ok := GroupCreated(p);
        return;
      }
      storage.SetGroupMapping(p.dn, p.id);
      var school := FirstSchoolNamed(GroupSchoolName(p));
      ok := GroupWritten(p, stored.value, school);
      if ok {
        WritesNoGroupDn(UnmapGroup(c, p), p, school);
        FlushedGroup(c, storage.Contents(), p);
      }
    }

    /******* Schools *******/

    method SchoolCreated(p: SchoolPayload) returns (ok: bool)
      requires storage.pending == NOTHING_PENDING
      modifies storage
      ensures HandleSchoolCreate(old(storage.Contents()), p) == if ok then Committed(Flushed()) else Failed
      ensures storage.started == old(storage.started)
    {
      hide SchoolFits, NewSchoolRow, WriteSchool, SetMapping, Unmapped, storage.Contents;
      ghost var c := storage.Contents();
      NothingToFlush(c);
      var stored := storage.GetSchool(p.id);
      if stored == None {
        ok := storage.CreateSchool(p.id, NewSchoolRow(p));
        if ok {
          storage.SetSchoolMapping(p.dn, p.id);
          FlushedSchool(c.(schools := c.schools[p.id := NewSchoolRow(p)]), storage.Contents(), p);
        }
      } else {
        ok := SchoolWritten(p, stored.value);
        NothingToFlush(storage.Contents());
      }
    }

    method SchoolWritten(p: SchoolPayload, stored: School) returns (ok: bool)
      requires p.id in storage.Contents().schools && storage.Contents().schools[p.id] == stored
      modifies storage
      ensures WriteSchool(old(storage.Contents()), p) == if ok then Committed(storage.Contents()) else Failed
      ensures storage.pending == old(storage.pending) && storage.started == old(storage.started)
    {
      hide StoreSchool, ServerHostname, UdmProperties, storage.Contents;
      var row := stored.(
        name := p.name, displayName := p.displayName,
        classServer := ServerHostname(p.classServer), homeServer := ServerHostname(p.homeServer),
        udm := UdmProperties(p.properties));
      ok := storage.ModifySchool(p.id, row);
    }

    method SchoolModified(p: SchoolPayload) returns (ok: bool)
      requires storage.pending == NOTHING_PENDING
      modifies storage
      ensures HandleSchoolModify(old(storage.Contents()), p) == if ok then Committed(Flushed()) else Failed
      ensures storage.started == old(storage.started)
    {
      hide HandleSchoolCreate, WriteSchool, SetMapping, Unmapped, storage.Contents;
      ghost var c := storage.Contents();
      var stored := storage.GetSchool(p.id);
      if stored == None {
        ok := SchoolCreated(p);
        return;
      }
      storage.SetSchoolMapping(p.dn, p.id);
      ok := SchoolWritten(p, stored.value);
      if ok {
        WritesNoSchoolDn(UnmapSchool(c, p), p);
        FlushedSchool(c, storage.Contents(), p);
      }
    }

    /** A host group names the servers of the school its name matches. */
    method ServersSet(kind: ServerKind, schoolName: string, hosts: set<string>, missingOk: bool) returns (ok: bool)
      modifies storage
      ensures SetServers(old(storage.Contents()), kind, schoolName, hosts, missingOk)
           == if ok then Committed(storage.Contents()) else Failed
      ensures storage.pending == old(storage.pending) && storage.started == old(storage.started)
    {
      hide GlobMatchesCi, StoreSchool, storage.Contents;
      var found := Sorted(SchoolsMatching(storage.Contents(), schoolName));
      if found == [] {
        return missingOk;
      }
      var stored := storage.GetSchool(found[0]);
      var school := stored.value;
      match kind {
        case Educational => school := school.(educationalServers := hosts);
        case Administrative => school := school.(administrativeServers := hosts);
      }
      ok := storage.ModifySchool(found[0], school);
    }

    /******* One transaction per event *******/

    method Dispatch(e: Event) returns (ok: bool)
      requires Valid(storage.Contents()) && storage.pending == NOTHING_PENDING
      modifies storage
      ensures Handle(old(storage.Contents()), e) == if ok then Committed(Flushed()) else Failed
      ensures storage.started == old(storage.started)
    {
      hide Valid, HandleUserCreate, HandleUserModify, HandleGroupCreate, HandleGroupModify, HandleSchoolCreate,
        HandleSchoolModify, HandleSchoolDelete, SetServers, DeletedUser, DeletedGroup, HostName, storage.Contents,
        WithPending;
      match e {
        case UserCreate(p) => ok := UserCreated(p);
        case UserModify(p) => ok := UserModified(p);
        case UserDelete(id) =>
          var _ := storage.DeleteUser(id);
          ok := true;
          NothingToFlush(storage.Contents());
        case GroupCreate(p) => ok := GroupCreated(p);
        case GroupModify(p) => ok := GroupModified(p);
        case GroupDelete(id) =>
          var _ := storage.DeleteGroup(id);
          ok := true;
          NothingToFlush(storage.Contents());
        case SchoolCreate(p) => ok := SchoolCreated(p);
        case SchoolModify(p) => ok := SchoolModified(p);
        case SchoolDelete(id) =>
          ok := storage.DeleteSchool(id);
          NothingToFlush(storage.Contents());
        case HostGroupSet(kind, name, hosts) =>
          ok := ServersSet(kind, name, set h | h in hosts :: HostName(h), false);
          NothingToFlush(storage.Contents());
        case HostGroupDelete(kind, name) =>
          ok := ServersSet(kind, name, {}, true);
          NothingToFlush(storage.Contents());
      }
    }

    /** Flush and commit when the handler returns, roll back when it raises: the
        session ends with the reference outcome, and valid. */
    method HandleEvent(e: Event) returns (ok: bool)
      requires Valid(storage.Contents())
      modifies storage
      ensures ok <==> Handle(old(storage.Contents()), e).Committed?
      ensures storage.Contents() == Apply(old(storage.Contents()), e)
      ensures Valid(storage.Contents()) && storage.pending == NOTHING_PENDING
    {
      ApplyKeepsValid(storage.Contents(), e);
      hide Handle, Valid, storage.Contents, WithPending;
      storage.Begin();
      ok := Dispatch(e);
      if ok {
        storage.Commit();
      } else {
        storage.Rollback();
      }
    }
  }

  /******* Flushing *******/

  lemma NothingToFlush(c: Cache)
    ensures WithPending(c, NOTHING_PENDING) == c
  {
  }

  lemma FlushedRow(dns: map<Dn, Id>, dn: Dn, id: Id)
    ensures Unmapped(dns, dn, id) + map[dn := id] == SetMapping(Unmapped(dns, dn, id), dn, id)
    ensures SetMapping(Unmapped(dns, dn, id), dn, id) == SetMapping(dns, dn, id)
  {
  }

  lemma FlushedUser(base: Cache, next: Cache, p: UserPayload)
    requires next.userDns == Unmapped(base.userDns, p.dn, p.id)
    ensures WithPending(next, NOTHING_PENDING.(userDns := map[p.dn := p.id])) == MapUser(next, p)
    ensures next == UnmapUser(base, p) ==> MapUser(next, p) == MapUser(base, p)
  {
    FlushedRow(base.userDns, p.dn, p.id);
    NothingToFlush(next);
    hide SetMapping, Unmapped;
  }

  lemma FlushedGroup(base: Cache, next: Cache, p: GroupPayload)
    requires next.groupDns == Unmapped(base.groupDns, p.dn, p.id)
    ensures WithPending(next, NOTHING_PENDING.(groupDns := map[p.dn := p.id])) == MapGroup(next, p)
    ensures next == UnmapGroup(base, p) ==> MapGroup(next, p) == MapGroup(base, p)
  {
    FlushedRow(base.groupDns, p.dn, p.id);
    NothingToFlush(next);
    hide SetMapping, Unmapped;
  }

  lemma FlushedSchool(base: Cache, next: Cache, p: SchoolPayload)
    requires next.schoolDns == Unmapped(base.schoolDns, p.dn, p.id)
    ensures WithPending(next, NOTHING_PENDING.(schoolDns := map[p.dn := p.id])) == MapSchool(next, p)
    ensures next == UnmapSchool(base, p) ==> MapSchool(next, p) == MapSchool(base, p)
  {
    FlushedRow(base.schoolDns, p.dn, p.id);
    NothingToFlush(next);
    hide SetMapping, Unmapped;
  }

  lemma WritesNoUserDn(c: Cache, p: UserPayload)
    ensures WriteUser(c, p).Committed? ==> WriteUser(c, p).cache.userDns == c.userDns
  {
  }

  lemma WritesNoGroupDn(c: Cache, p: GroupPayload, school: Option<Id>)
    requires p.id in c.groups
    ensures WriteGroup(c, p, school).Committed? ==> WriteGroup(c, p, school).cache.groupDns == c.groupDns
  {
  }

  lemma WritesNoSchoolDn(c: Cache, p: SchoolPayload)
    requires p.id in c.schools
    ensures WriteSchool(c, p).Committed? ==> WriteSchool(c, p).cache.schoolDns == c.schoolDns
  {
  }

  lemma NewGroupTables(c: Cache, p: GroupPayload, school: Id)
    ensures WithNewGroup(c, p.id, GroupRow(c, p, p.email, CONNECTOR_SOURCE_UID, school),
                         MembersByDns(c, p.users, school), UsersByDns(c, p.senderUsers), GroupsByDns(c, p.senderGroups))
         == InsertedGroup(c, p, school)
  {
  }

  lemma StoredGroupTables(c: Cache, p: GroupPayload, school: Option<Id>)
    requires p.id in c.groups
    ensures var row := UpdatedGroupRow(c, p, school);
            var members := MembersByDns(c, p.users, row.school);
            var users := UsersByDns(c, p.senderUsers);
            var groups := GroupsByDns(c, p.senderGroups);
            && WithStoredGroup(c, p.id, row, members, users, groups) == UpdatedGroup(c, p, school)
            && (GroupPatchEmpty(c, p.id, row, members, users, groups) <==> UpdatedGroup(c, p, school) == c)
  {
    var row := UpdatedGroupRow(c, p, school);
    var members := MembersByDns(c, p.users, row.school);
    var users := UsersByDns(c, p.senderUsers);
    var groups := GroupsByDns(c, p.senderGroups);
    assert forall u :: u in members ==> (u, row.school) in c.memberships;
    hide UpdatedGroupRow, UsersByDns, GroupsByDns, SyncMembers, ReplaceSenders, GroupPatchEmpty, MembersByDns;
    GroupPatchEmptyIff(c, p.id, row, members, users, groups);
  }

  lemma GroupPatchEmptyIff(c: Cache, g: Id, row: Group, members: set<Id>, users: set<Id>, groups: set<Id>)
    requires g in c.groups && forall u :: u in members ==> (u, row.school) in c.memberships
    ensures GroupPatchEmpty(c, g, row, members, users, groups)
      <==> WithStoredGroup(c, g, row, members, users, groups) == c
  {
    hide SyncMembers, ReplaceSenders, SendersOf, LinkedUsers;
    SameSenders(c.senderUsers, g, users);
    SameSenders(c.senderGroups, g, groups);
    if GroupPatchEmpty(c, g, row, members, users, groups) {
      EmptyGroupPatch(c, g, row, members, users, groups);
    }
    if WithStoredGroup(c, g, row, members, users, groups) == c {
      assert c.groups[g] == row by { assert c.groups == c.groups[g := row]; }
      SameMembers(c, g, members);
    }
  }

  /** Members that all hold a membership of the stored school are written
      completely, so unchanged links mean unchanged members. */
  lemma SameMembers(c: Cache, g: Id, members: set<Id>)
    requires g in c.groups && forall u :: u in members ==> (u, c.groups[g].school) in c.memberships
    requires SyncMembers(c, g, members) == c.members
    ensures LinkedUsers(c, g) == members
  {
    var school := c.groups[g].school;
    forall u | u in members && members != LinkedUsers(c, g) ensures u in LinkedUsers(c, g) {
      assert Link(g, u, school) in LinksOf(g, (set v | v in members && (v, school) in c.memberships), school);
      assert Link(g, u, school) in c.members && Link(g, u, school).user == u;
    }
  }

  lemma GroupsExist(c: Cache, dns: seq<Dn>)
    ensures GroupsByDns(c, dns) <= c.groups.Keys
  {
  }

  lemma BuiltIsWanted(c: Cache, p: UserPayload, schools: seq<Id>, wanted: map<Id, WantedMembership>)
    requires schools == Sorted(SchoolsNamed(c, p.schools))
    requires forall s :: s in schools ==> s in c.schools
    requires forall s :: s in wanted <==> s in schools
    requires forall s :: s in schools ==> MembershipOf(c, GroupsByDns(c, p.groups), p.roles, s, wanted[s])
    requires PrimaryFlags(c, schools, SchoolOuFromDn(p.dn), wanted)
    ensures Wants(c, p, wanted)
  {
    hide PrimarySchool, MembershipOf, PrimaryFlags, Sorted, SchoolsNamed, GroupsByDns, SchoolOuFromDn;
    NamedSchoolsExist(c, p.schools);
    assert forall s :: s in schools <==> s in SchoolsNamed(c, p.schools);
    FlagsOfSorted(c, schools, SchoolsNamed(c, p.schools), SchoolOuFromDn(p.dn), wanted);
  }

  lemma NamedSchoolsExist(c: Cache, names: seq<string>)
    ensures SchoolsNamed(c, names) <= c.schools.Keys
  {
  }

  lemma UserTables(c: Cache, p: UserPayload, wanted: map<Id, WantedMembership>, guardians: set<Id>, wards: set<Id>)
    requires Wants(c, p, wanted)
    requires wards == UsersByDns(c, p.wards) && guardians == UsersByDns(c, p.guardians)
    ensures WithNewUser(c, p.id, UserRow(p), wanted, guardians, wards) == InsertedUser(c, p)
    ensures WithStoredUser(c, p.id, UserRow(p), wanted, guardians, wards) == UpdatedUser(c, p)
  {
    hide Wants, UsersByDns, UserRow, WantedTable, WantedLinks, UserMemberships, UserLinks, SyncGuardians;
    WantedAsTables(c, p, wanted);
  }

  lemma UserPatchEmptyIff(c: Cache, p: UserPayload, wanted: map<Id, WantedMembership>, guardians: set<Id>, wards: set<Id>)
    requires ForeignKeys(c) && p.id in c.users && Wants(c, p, wanted)
    requires wards == UsersByDns(c, p.wards) && guardians == UsersByDns(c, p.guardians)
    ensures UserPatchEmpty(c, p.id, UserRow(p), wanted, guardians, wards) <==> UpdatedUser(c, p) == c
  {
    hide ForeignKeys, Wants, UsersByDns, UserRow, WantedTable, WantedLinks, UserMemberships, UserLinks, SyncGuardians,
      GuardiansOf, WardsOf, StoredMemberships, UserPatchEmpty, UpdatedUser, WithStoredUser;
    UserTables(c, p, wanted, guardians, wards);
    if UserPatchEmpty(c, p.id, UserRow(p), wanted, guardians, wards) {
      EmptyUserPatch(c, p.id, UserRow(p), wanted, guardians, wards);
    }
    if UpdatedUser(c, p) == c {
      SameTablesEmptyPatch(c, p.id, UserRow(p), wanted, guardians, wards);
    }
  }

  lemma SameTablesEmptyPatch(c: Cache, u: Id, row: User, wanted: map<Id, WantedMembership>, guardians: set<Id>, wards: set<Id>)
    requires u in c.users && WithStoredUser(c, u, row, wanted, guardians, wards) == c
    ensures UserPatchEmpty(c, u, row, wanted, guardians, wards)
  {
    hide WantedTable, WantedLinks, SyncGuardians, GuardiansOf, WardsOf, StoredMemberships;
    assert c.users[u] == row by { assert c.users == c.users[u := row]; }
    StoredIsWanted(c, u, wanted);
    SyncGuardiansSame(c.guardians, u, guardians, wards);
  }

  lemma StoredIsWanted(c: Cache, u: Id, wanted: map<Id, WantedMembership>)
    requires c.memberships == (map k | k in c.memberships && k.0 != u :: c.memberships[k]) + WantedTable(u, wanted)
    requires c.members == (set l | l in c.members && l.user != u) + WantedLinks(u, wanted)
    ensures StoredMemberships(c, u) == wanted
  {
    WantedTableIff(u, wanted);
    WantedLinksIff(u, wanted);
    forall s
      ensures s in StoredMemberships(c, u) <==> s in wanted
      ensures s in wanted ==> StoredMemberships(c, u)[s] == wanted[s]
    {
      StoredMembershipsIff(c, u, s);
      assert s in wanted <==> (u, s) in c.memberships;
      if s in wanted {
        assert forall g :: g in wanted[s].groups <==> Link(g, u, s) in c.members;
        assert StoredMemberships(c, u)[s].groups == wanted[s].groups;
      }
    }
  }
}
