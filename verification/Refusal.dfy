/** Which events are dropped, refused or committed, in the terms of the payload. */
module Refusal {
  import opened Text
  import opened TextFacts
  import opened Schema
  import opened Events
  import opened Sync
  import opened Integrity
  import opened Redelivery
  import opened Effects
  import opened Outcomes

  /******* Users *******/

  /** Another user has the name, the mail address or the record keys. */
  ghost predicate UserTaken(c: Cache, p: UserPayload) {
    exists v :: v in c.users && v != p.id
      && (|| c.users[v].name == p.username
          || (p.email.Some? && c.users[v].email == p.email)
          || exists row :: HoldsUser(row, p) && c.users[v].recordUid == row.recordUid && c.users[v].sourceUid == row.sourceUid)
  }

  ghost predicate GoodUser(p: UserPayload) {
    GoodUserName(p.username) && p.firstname != "" && p.lastname != ""
  }

  lemma UserTakenIff(c: Cache, p: UserPayload)
    ensures UserFits(c, p.id, UserRow(p)) <==> !UserTaken(c, p)
  {
    UserRowIff(UserRow(p), p);
    forall row ensures HoldsUser(row, p) <==> row == UserRow(p) {
      UserRowIff(row, p);
    }
    hide HoldsUser;
  }

  lemma GoodUserIff(p: UserPayload)
    ensures ValidUser(UserRow(p)) <==> GoodUser(p)
  {
    hide ValidUserName, GoodUserName;
    UserNameIff(p.username);
    EmptyIsBad();
  }

  lemma EmptyIsBad()
    ensures !GoodUserName("") && !GoodSchoolName("")
  {
    hide NamesDevice;
  }

  lemma WriteUserRefusal(c: Cache, p: UserPayload)
    requires Valid(c) && p.id in c.users
    ensures UserTaken(c, p) ==> WriteUser(c, p).Failed?
    ensures !UserTaken(c, p) && GoodUser(p) ==> WriteUser(c, p).Committed?
    ensures !GoodUser(p) && WriteUser(c, p).Committed? ==> WriteUser(c, p).cache == c
  {
    hide UserTaken, GoodUser, ValidUser, UserRow, ForeignKeys, DnMaps, OnePrimary;
    UserTakenIff(c, p);
    GoodUserIff(p);
    if UpdatedUser(c, p) == c {
      StoredFits(c, p);
    }
  }

  lemma StoredFits(c: Cache, p: UserPayload)
    requires UniqueUsers(c.users) && p.id in c.users && UpdatedUser(c, p) == c
    ensures UserFits(c, p.id, UserRow(p))
  {
    hide UserRow, UserMemberships, UserLinks, SyncGuardians, UsersByDns;
    assert c.users[p.id := UserRow(p)][p.id] == UserRow(p);
  }

  /** Why a user event is dropped, refused or committed: a payload without a
      cached school is dropped, unless a stored user is modified; a taken name,
      mail address or key is refused; and a payload that is not valid may insert a
      user but not change one. */
  lemma UserRefusal(c: Cache, e: Event)
    requires Valid(c) && WritesUser(e)
    ensures var p := e.user;
            if (e.UserCreate? || p.id !in c.users) && (forall s :: !Names(c, p, s)) then Handle(c, e) == Committed(c)
            else
              && (UserTaken(c, p) ==> Handle(c, e).Failed?)
              && (!UserTaken(c, p) && (p.id !in c.users || GoodUser(p)) ==> Handle(c, e).Committed?)
              && (p.id in c.users && !GoodUser(p) && Handle(c, e).Committed? ==>
                    Apply(c, e) == c.(userDns := Apply(c, e).userDns))
  {
    hide Valid, UserTaken, GoodUser, WriteUser, UserFits, UserRow, InsertedUser;
    var p := e.user;
    var base := UserLookups(c, e);
    NamedIff(c, p);
    UserTakenIff(c, p);
    if p.id in c.users {
      LookupsTaken(c, e);
      WriteUserRefusal(base, p);
    }
  }

  lemma NamedIff(c: Cache, p: UserPayload)
    ensures SchoolsNamed(c, p.schools) == {} <==> forall s :: !Names(c, p, s)
  {
    assert forall s :: s in SchoolsNamed(c, p.schools) <==> Names(c, p, s);
  }

  lemma LookupsTaken(c: Cache, e: Event)
    requires Valid(c) && WritesUser(e)
    ensures Valid(UserLookups(c, e)) && (UserTaken(UserLookups(c, e), e.user) <==> UserTaken(c, e.user))
    ensures UserLookups(c, e) == c.(userDns := UserLookups(c, e).userDns)
  {
    hide Valid, HoldsUser;
    UnmapUserValid(c, e.user);
  }

  /******* Groups *******/

  ghost predicate GroupTaken(c: Cache, p: GroupPayload) {
    exists h :: h in c.groups && h != p.id
      && exists row :: HoldsGroup(c, row, p)
           && (|| c.groups[h].name == row.name
               || (row.email.Some? && c.groups[h].email == row.email)
               || (c.groups[h].recordUid == row.recordUid && c.groups[h].sourceUid == row.sourceUid))
  }

  /** A name, a known role, and a source id where one is stored. */
  ghost predicate GoodGroup(c: Cache, p: GroupPayload) {
    && p.name != "" && (exists x :: x in p.roles && x.role in c.roles)
    && (p.id in c.groups ==> c.groups[p.id].sourceUid != "")
  }

  /** A row that is the payload's, in some school. */
  lemma GroupRowFits(c: Cache, p: GroupPayload, row: Group)
    requires HoldsGroup(c, row, p)
    ensures GroupFits(c, p.id, row) <==> !GroupTaken(c, p)
    ensures ValidGroup(row) <==> GoodGroup(c, p)
  {
    hide HoldsProperties;
    assert ValidGroup(row) <==> GoodGroup(c, p) by {
      assert row.roles != {} <==> exists x :: x in p.roles && x.role in c.roles by {
        if r :| r in row.roles { assert exists x :: x in p.roles && x.role == r; }
        if x :| x in p.roles && x.role in c.roles { assert x.role in row.roles; }
      }
    }
    forall h, other | h in c.groups && HoldsGroup(c, other, p)
      ensures GroupsClash(row, c.groups[h]) <==>
                || c.groups[h].name == other.name
                || (other.email.Some? && c.groups[h].email == other.email)
                || (c.groups[h].recordUid == other.recordUid && c.groups[h].sourceUid == other.sourceUid)
    {
    }
  }

  lemma WriteGroupRefusal(c: Cache, base: Cache, p: GroupPayload, school: Option<Id>)
    requires UniqueGroups(c.groups) && p.id in c.groups && base == c.(groupDns := base.groupDns)
    ensures GroupTaken(c, p) ==> WriteGroup(base, p, school).Failed?
    ensures !GroupTaken(c, p) && GoodGroup(c, p) ==> WriteGroup(base, p, school).Committed?
    ensures !GoodGroup(c, p) && WriteGroup(base, p, school).Committed? ==> WriteGroup(base, p, school).cache == base
  {
    hide GroupTaken, GoodGroup, ValidGroup, UpdatedGroupRow, HoldsGroup;
    UpdatedRowHolds(c, base, p, school);
    var row := UpdatedGroupRow(base, p, school);
    UpdatedRowIs(base, p, school);
    GroupRowFits(c, p, row);
    assert GroupFits(base, p.id, row) <==> GroupFits(c, p.id, row);
    if UpdatedGroup(base, p, school) == base {
      assert base.groups[p.id] == row;
    }
  }

  lemma UpdatedRowIs(base: Cache, p: GroupPayload, school: Option<Id>)
    requires p.id in base.groups
    ensures UpdatedGroup(base, p, school).groups[p.id] == UpdatedGroupRow(base, p, school)
  {
    hide UpdatedGroupRow, SyncMembers, MembersByDns;
  }

  ghost predicate KnownSchool(c: Cache, p: GroupPayload) {
    exists s :: s in c.schools && BelongsTo(p, c.schools[s].name)
  }

  lemma KnownSchoolIff(c: Cache, p: GroupPayload)
    requires UniqueSchools(c.schools)
    ensures FindSchool(c, GroupSchoolName(p)).Some? <==> KnownSchool(c, p)
  {
    hide FindSchool, BelongsTo, GroupSchoolName;
    forall s ensures FindSchool(c, GroupSchoolName(p)) == Some(s) <==> s in c.schools && BelongsTo(p, c.schools[s].name) {
      FoundIff(c, p, s);
    }
    var found := FindSchool(c, GroupSchoolName(p));
    if found.Some? {
      assert found == Some(found.value);
    }
  }

  /** The same for groups: dropped without a cached school, unless a stored group
      is modified. */
  lemma GroupRefusal(c: Cache, e: Event)
    requires Valid(c) && WritesGroup(e)
    ensures var p := e.group;
            if (e.GroupCreate? || p.id !in c.groups) && !KnownSchool(c, p) then Handle(c, e) == Committed(c)
            else
              && (GroupTaken(c, p) ==> Handle(c, e).Failed?)
              && (!GroupTaken(c, p) && (p.id !in c.groups || GoodGroup(c, p)) ==> Handle(c, e).Committed?)
              && (p.id in c.groups && !GoodGroup(c, p) && Handle(c, e).Committed? ==>
                    Apply(c, e) == c.(groupDns := Apply(c, e).groupDns))
  {
    hide ForeignKeys, DnMaps, OnePrimary, GroupTaken, GoodGroup, WriteGroup, GroupFits, InsertedGroup, FindSchool, KnownSchool,
      HoldsGroup, GroupRow;
    var p := e.group;
    var base := GroupLookups(c, e);
    var found := FindSchool(c, GroupSchoolName(p));
    KnownSchoolIff(c, p);
    if p.id in c.groups {
      SameFindSchool(c, base, GroupSchoolName(p));
      WriteGroupRefusal(c, base, p, found);
    } else if found.Some? {
      GroupRowHolds(c, p, p.email, CONNECTOR_SOURCE_UID, found.value);
      GroupRowFits(c, p, GroupRow(c, p, p.email, CONNECTOR_SOURCE_UID, found.value));
    }
  }

  /******* Schools *******/

  ghost predicate SchoolTaken(c: Cache, s: Id, row: School) {
    exists t :: t in c.schools && t != s
      && (c.schools[t].name == row.name || (c.schools[t].recordUid == row.recordUid && c.schools[t].sourceUid == row.sourceUid))
  }

  ghost predicate GoodSchool(row: School) {
    GoodSchoolName(row.name) && row.recordUid != "" && row.sourceUid != ""
  }

  lemma StoreSchoolRefusal(c: Cache, s: Id, row: School)
    requires UniqueSchools(c.schools) && s in c.schools
    ensures SchoolTaken(c, s, row) ==> StoreSchool(c, s, row).Failed?
    ensures !SchoolTaken(c, s, row) && GoodSchool(row) ==> StoreSchool(c, s, row).Committed?
    ensures !GoodSchool(row) && StoreSchool(c, s, row).Committed? ==> c.schools[s] == row
  {
    hide ValidSchoolName, GoodSchoolName;
    SchoolNameIff(row.name);
  }

  /** A school event, with the row it stores or would store. */
  lemma SchoolRefusal(c: Cache, e: Event, row: School)
    requires Valid(c) && WritesSchool(e) && HoldsSchool(c, row, e.school)
    ensures SchoolTaken(c, e.school.id, row) ==> Handle(c, e).Failed?
    ensures !SchoolTaken(c, e.school.id, row) && (e.school.id !in c.schools || GoodSchool(row)) ==> Handle(c, e).Committed?
    ensures e.school.id in c.schools && !GoodSchool(row) && Handle(c, e).Committed? ==> c.schools[e.school.id] == row
  {
    hide ForeignKeys, DnMaps, OnePrimary, SchoolTaken, GoodSchool, StoreSchool, HoldsSchool;
    var p := e.school;
    SchoolRowIs(c, row, p);
    if p.id in c.schools {
      var base := if e.SchoolModify? then UnmapSchool(c, p) else c;
      StoreSchoolRefusal(base, p.id, row);
      SameTaken(c, base, p.id, row);
    } else {
      SchoolFitsIff(c, p.id, row);
    }
  }

  lemma SchoolRowIs(c: Cache, row: School, p: SchoolPayload)
    requires HoldsSchool(c, row, p)
    ensures row == if p.id in c.schools then WrittenSchoolRow(c, p) else NewSchoolRow(p)
  {
    PropertiesIff(row.udm, p.properties);
  }

  lemma SameTaken(c: Cache, base: Cache, s: Id, row: School)
    requires base.schools == c.schools
    ensures SchoolTaken(base, s, row) <==> SchoolTaken(c, s, row)
  {
  }

  lemma SchoolFitsIff(c: Cache, s: Id, row: School)
    ensures SchoolFits(c, s, row) <==> !SchoolTaken(c, s, row)
  {
  }

  /** A host group event commits if the school it changes is valid. */
  lemma HostGroupRefusal(c: Cache, e: Event, s: Id)
    requires Valid(c) && (e.HostGroupSet? || e.HostGroupDelete?) && FirstMatch(c, e.schoolName, s)
    ensures GoodSchool(c.schools[s]) ==> Handle(c, e).Committed?
    ensures !GoodSchool(c.schools[s]) && Handle(c, e).Committed? ==> Apply(c, e) == c
  {
    hide ForeignKeys, DnMaps, OnePrimary, GoodSchoolName, StoreSchool, FirstMatch, SchoolTaken;
    MatchIsCached(c, e.schoolName, s);
    var hosts := if e.HostGroupSet? then set h | h in e.hosts :: HostName(h) else {};
    var row := match e.kind
               case Educational => c.schools[s].(educationalServers := hosts)
               case Administrative => c.schools[s].(administrativeServers := hosts);
    HostGroupResult(c, e, hosts, s);
    StoreSchoolRefusal(c, s, row);
    StoredKeysFree(c, s, row);
    UnchangedSchool(c, s, row);
  }

  lemma MatchIsCached(c: Cache, pattern: string, s: Id)
    requires FirstMatch(c, pattern, s)
    ensures s in c.schools
  {
    hide GlobMatchesCi;
  }

  lemma StoredKeysFree(c: Cache, s: Id, row: School)
    requires UniqueSchools(c.schools) && s in c.schools
    requires row.name == c.schools[s].name && row.recordUid == c.schools[s].recordUid && row.sourceUid == c.schools[s].sourceUid
    ensures !SchoolTaken(c, s, row)
  {
  }

  lemma UnchangedSchool(c: Cache, s: Id, row: School)
    requires s in c.schools
    ensures c.schools[s] == row ==> StoreSchool(c, s, row) == Committed(c)
  {
  }
}
