/** Concrete caches and events at which the naive expectations fail. */
module Counterexamples {
  import opened Text
  import opened Schema
  import opened Events
  import opened Sync
  import opened Integrity
  import opened Links
  import opened Redelivery
  import opened Effects
  import opened Convergence

  const SCHOOL_A: Id := 1
  const SCHOOL_B: Id := 2
  const PUPIL: Id := 10
  const CLASS: Id := 20

  const PUPIL_DN: Dn := [Rdn("uid", "pupil"), Rdn("ou", "a")]
  const CLASS_DN: Dn := [Rdn("cn", "class"), Rdn("ou", "a")]

  function SchoolRow(name: string): School {
    School(name, name, name, CONNECTOR_SOURCE_UID, None, None, {}, {}, map[])
  }

  const PUPIL_ROW := User("p", "P", "U", true, None, None, None, "p", DEFAULT_NUBUS_SOURCE_UID, map[])
  const CLASS_ROW :=
    Group("class", "class", "class", CONNECTOR_SOURCE_UID, None, None, true, SCHOOL_A, {"workgroup"}, {}, map[])

  const PRIMARY := Membership(true, {})
  const SECONDARY := Membership(false, {})

  /** Two schools; a pupil with the given memberships; an empty or full class in A. */
  function Start(memberships: map<(Id, Id), Membership>, members: set<Link>): Cache {
    Cache({"workgroup"}, map[SCHOOL_A := SchoolRow("a"), SCHOOL_B := SchoolRow("b")],
          map[PUPIL := PUPIL_ROW], map[CLASS := CLASS_ROW],
          memberships, members, {}, {}, {},
          map[], map[CLASS_DN := CLASS], map[PUPIL_DN := PUPIL])
  }

  lemma StartValid(memberships: map<(Id, Id), Membership>, members: set<Link>)
    requires OnePrimary(memberships)
    requires forall k :: k in memberships ==> k == (PUPIL, SCHOOL_A) || k == (PUPIL, SCHOOL_B)
    requires forall l :: l in members ==> l == Link(CLASS, PUPIL, SCHOOL_A) && (PUPIL, SCHOOL_A) in memberships
    ensures Valid(Start(memberships, members)) && SameSchool(Start(memberships, members))
  {
    assert SchoolRow("a").name != SchoolRow("b").name;
    assert SchoolRow("a").recordUid != SchoolRow("b").recordUid;
  }

  /** The class moves to school B and lists the pupil. */
  const MOVE := GroupPayload(CLASS, CLASS_DN, "class", None, None,
                             [RoleEntry("workgroup", "school", "b")], [], [PUPIL_DN], [], [], map[])

  lemma MoveLookups(c: Cache)
    requires c.schools == map[SCHOOL_A := SchoolRow("a"), SCHOOL_B := SchoolRow("b")]
    requires c.roles == {"workgroup"} && c.userDns == map[PUPIL_DN := PUPIL] && PUPIL in c.users
    ensures FindSchool(c, GroupSchoolName(MOVE)) == Some(SCHOOL_B)
    ensures RolesNamed(c, MOVE.roles) == {"workgroup"}
    ensures PUPIL in UsersByDns(c, MOVE.users)
  {
    assert SchoolRow("a").name == "a" && SchoolRow("b").name == "b";
    assert GroupSchoolName(MOVE) == "b";
    assert SchoolsNamed(c, ["b"]) == {SCHOOL_B};
    assert MOVE.roles[0].role == "workgroup";
    assert MOVE.users[0] == PUPIL_DN;
    assert c.userDns[PUPIL_DN] in Resolve(c.userDns, MOVE.users);
  }

  /** A modify of the only group commits, whatever it lists. */
  lemma ClassCommits(c: Cache, p: GroupPayload)
    requires p.id == CLASS && p.name == "class" && p.roles != [] && p.roles[0].role == "workgroup"
    requires "workgroup" in c.roles && c.groups.Keys == {CLASS} && c.groups[CLASS].sourceUid != ""
    ensures Handle(c, GroupModify(p)).Committed?
  {
    var base := UnmapGroup(c, p);
    var found := FindSchool(base, GroupSchoolName(p));
    var row := UpdatedGroupRow(base, p, found);
    assert row.name == "class" && row.recordUid == "class";
    assert p.roles[0] in p.roles && "workgroup" in RolesNamed(base, p.roles);
    assert ValidGroup(row) && GroupFits(base, CLASS, row);
    hide UpdatedGroup, UpdatedGroupRow, ValidGroup, GroupFits, FindSchool;
    assert WriteGroup(base, p, found).Committed?;
  }

  /** A member of both schools: the class ends up in B, its link in A. */
  lemma MoveStrandsALink()
    ensures var c := Start(map[(PUPIL, SCHOOL_A) := PRIMARY, (PUPIL, SCHOOL_B) := SECONDARY],
                           {Link(CLASS, PUPIL, SCHOOL_A)});
            && Valid(c) && SameSchool(c) && Handle(c, GroupModify(MOVE)).Committed?
            && !SameSchool(Apply(c, GroupModify(MOVE)))
  {
    var memberships := map[(PUPIL, SCHOOL_A) := PRIMARY, (PUPIL, SCHOOL_B) := SECONDARY];
    var c := Start(memberships, {Link(CLASS, PUPIL, SCHOOL_A)});
    StartValid(memberships, {Link(CLASS, PUPIL, SCHOOL_A)});
    MoveLookups(c);
    ClassCommits(c, MOVE);
    assert PUPIL in WantedMembers(c, MOVE);
    assert StrandsLinks(c, GroupModify(MOVE));
    hide Handle;
    SameSchoolExactly(c, GroupModify(MOVE));
  }

  /** A member of B only, not linked yet: the move itself does not link the
      pupil, and handling the same event once more changes the cache. */
  lemma MoveLosesAMember()
    ensures var c := Start(map[(PUPIL, SCHOOL_B) := PRIMARY], {});
            && Valid(c) && SameSchool(c) && Handle(c, GroupModify(MOVE)).Committed?
            && LosesMembers(c, CLASS, WantedMembers(c, MOVE))
            && !RepeatsCleanly(c, GroupModify(MOVE))
  {
    var memberships := map[(PUPIL, SCHOOL_B) := PRIMARY];
    var c := Start(memberships, {});
    StartValid(memberships, {});
    MoveLoses(c);
    ClassCommits(c, MOVE);
    hide Handle, Valid, LosesMembers, WantedMembers, SameSchool, RepeatsCleanly;
    RepeatsCleanlyIff(c, GroupModify(MOVE));
  }

  lemma MoveLoses(c: Cache)
    requires c == Start(map[(PUPIL, SCHOOL_B) := PRIMARY], {})
    ensures LosesMembers(c, CLASS, WantedMembers(c, MOVE))
  {
    MoveLookups(c);
    assert PUPIL in WantedMembers(c, MOVE);
    assert LinkedUsers(c, CLASS) == {};
  }

  /******* A stored user that lists itself in one list only *******/

  /** A pupil that lists itself as its ward only. */
  const SELF := UserPayload(PUPIL, PUPIL_DN, "p", "P", "U", false, None, None, None, None, None,
                            ["b"], [], [], [PUPIL_DN], [], map[])

  /** The link of the pupil with itself comes and goes with every create event. */
  lemma SelfReferenceNeverSettles()
    ensures var c := Start(map[(PUPIL, SCHOOL_B) := PRIMARY], {});
            Valid(c) && Handle(c, UserCreate(SELF)).Committed? && !RepeatsCleanly(c, UserCreate(SELF))
  {
    var memberships := map[(PUPIL, SCHOOL_B) := PRIMARY];
    var c := Start(memberships, {});
    StartValid(memberships, {});
    PupilCommits(c, SELF);
    assert SCHOOL_B in SchoolsNamed(c, SELF.schools) by {
      assert SchoolRow("b").name == "b" && SELF.schools[0] == "b";
    }
    assert !SelfAgrees(c, SELF) by {
      assert SELF.wards[0] == PUPIL_DN && c.userDns[PUPIL_DN] == PUPIL;
      assert c.userDns[PUPIL_DN] in Resolve(c.userDns, SELF.wards);
    }
    hide Handle, ValidUser, SelfAgrees;
    RepeatsCleanlyIff(c, UserCreate(SELF));
  }

  /** A create event for the only user commits, whatever it refers to. */
  lemma PupilCommits(c: Cache, p: UserPayload)
    requires c.users == map[PUPIL := PUPIL_ROW] && p.id == PUPIL && UserRow(p) == PUPIL_ROW
    ensures Handle(c, UserCreate(p)).Committed?
  {
    PupilIsValid();
    hide ValidUser, UpdatedUser;
    assert UserFits(c, PUPIL, UserRow(p));
  }

  lemma PupilIsValid()
    ensures ValidUser(PUPIL_ROW)
  {
    assert 'p' !in WINDOWS_INVALID_CHARS;
    assert Text.Before("p", '.') == "p" by {
      assert "p"[1..] == "";
    }
    assert forall name :: name in WINDOWS_RESERVED_NAMES ==> |name| > |Lower("p")|;
  }

  /******* A create event on a stored row whose DN has changed *******/

  const NEW_DN: Dn := [Rdn("uid", "renamed"), Rdn("ou", "a")]

  /** The pupil under its new DN, and the class that lists it. */
  const RENAMED := UserPayload(PUPIL, NEW_DN, "p", "P", "U", false, None, None, None, None, None,
                               ["a"], [], [CLASS_DN], [], [], map[])
  const LISTING := GroupPayload(CLASS, CLASS_DN, "class", None, None,
                                [RoleEntry("workgroup", "school", "a")], [], [NEW_DN], [], [], map[])

  /** Both events take effect and list each other, but the create event left the
      old DN in the map: the later group event does not find its member. */
  lemma StaleDnLosesALink()
    ensures var c := Start(map[(PUPIL, SCHOOL_A) := PRIMARY], {});
            Valid(c) && ListedButNotLinked(c)
  {
    var c := Start(map[(PUPIL, SCHOOL_A) := PRIMARY], {});
    StartValid(map[(PUPIL, SCHOOL_A) := PRIMARY], {});
    StaleNames();
    ApplyKeepsValid(c, UserCreate(RENAMED));
    hide Handle, Apply, Valid, UnsyncableGroupDn, NamesSchoolOf, Linked, TakesEffect, MapsDn;
    StaleTakesEffect(c);
    StaleTables(c);
    LaterListing(Apply(c, UserCreate(RENAMED)));
  }

  /** What the create event and the later group event do to such a cache. */
  ghost predicate ListedButNotLinked(c: Cache) {
    var d := Apply(c, UserCreate(RENAMED));
    && TakesEffect(c, UserCreate(RENAMED)) && TakesEffect(d, GroupModify(LISTING))
    && !MapsDn(c, UserCreate(RENAMED)) && MapsDn(d, GroupModify(LISTING))
    && MembershipMirrors(RENAMED, LISTING) && NamesSchoolOf(d, RENAMED, CLASS)
    && !Linked(Apply(d, GroupModify(LISTING)), CLASS, PUPIL)
  }

  lemma LaterListing(d: Cache)
    requires Valid(d) && d.userDns == map[PUPIL_DN := PUPIL] && d.groupDns == map[CLASS_DN := CLASS]
    requires d.groups == map[CLASS := CLASS_ROW] && d.roles == {"workgroup"}
    ensures TakesEffect(d, GroupModify(LISTING)) && MapsDn(d, GroupModify(LISTING))
    ensures !Linked(Apply(d, GroupModify(LISTING)), CLASS, PUPIL)
  {
    assert PUPIL !in UsersByDns(d, LISTING.users) by {
      DifferentDns();
      assert forall dn :: dn in LISTING.users ==> dn == NEW_DN;
    }
    ClassCommits(d, LISTING);
    hide Handle, Apply, Valid, UsersByDns, Linked;
    GroupEventLinks(d, GroupModify(LISTING), PUPIL);
  }

  lemma StaleNames()
    ensures GroupSchoolName(LISTING) == "a" && !UnsyncableGroupDn(CLASS_DN) && NEW_DN != PUPIL_DN
    ensures NEW_DN in LISTING.users && CLASS_DN in RENAMED.groups && "a" in RENAMED.schools
  {
    ClassIsSyncable();
    DifferentDns();
    assert LISTING.users[0] == NEW_DN && RENAMED.groups[0] == CLASS_DN && RENAMED.schools[0] == "a";
  }

  lemma DifferentDns()
    ensures NEW_DN != PUPIL_DN
  {
    assert NEW_DN[0].value != PUPIL_DN[0].value by {
      assert |"renamed"| != |"pupil"|;
    }
  }

  lemma ClassIsSyncable()
    ensures !UnsyncableGroupDn(CLASS_DN)
  {
    assert Lower("ou")[0] == 'o' && CLASS_DN[1].attr == "ou";
    assert |Lower("ou")| == 2 && "cn"[0] == 'c';
  }

  lemma StaleTakesEffect(c: Cache)
    requires c == Start(map[(PUPIL, SCHOOL_A) := PRIMARY], {})
    ensures TakesEffect(c, UserCreate(RENAMED)) && !MapsDn(c, UserCreate(RENAMED))
  {
    PupilCommits(c, RENAMED);
    DifferentDns();
    SchoolAIsNamed(c);
    hide Handle, UserRow;
  }

  lemma SchoolAIsNamed(c: Cache)
    requires c.schools == map[SCHOOL_A := SchoolRow("a"), SCHOOL_B := SchoolRow("b")]
    ensures SCHOOL_A in SchoolsNamed(c, RENAMED.schools)
  {
    assert SchoolRow("a").name == "a" && RENAMED.schools[0] == "a";
  }

  lemma StaleTables(c: Cache)
    requires c == Start(map[(PUPIL, SCHOOL_A) := PRIMARY], {}) && TakesEffect(c, UserCreate(RENAMED))
    ensures var d := Apply(c, UserCreate(RENAMED));
            && d.userDns == c.userDns && d.groups == c.groups && d.groupDns == c.groupDns && d.roles == c.roles
            && NamesSchoolOf(d, RENAMED, CLASS)
  {
    var d := Apply(c, UserCreate(RENAMED));
    hide Handle, Apply, TakesEffect, UserRow, UserMemberships, UserLinks, SyncGuardians;
    UserEventResult(c, UserCreate(RENAMED));
    SchoolAIsNamed(d);
  }
}
