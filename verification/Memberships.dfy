/** Building the memberships of a user event, and what they mean as tables. */
module Memberships {
  import opened Text
  import opened Schema
  import opened Events
  import opened Sync
  import opened Storage
  import Integrity

  /** The school's name is the OU of the user's DN, letter case aside. */
  predicate NamedByOu(c: Cache, s: Id, ou: Option<string>)
    requires s in c.schools
  {
    ou.Some? && ou.value != "" && Lower(c.schools[s].name) == Lower(ou.value)
  }

  /** Position `i` is the primary one: the first named by the OU, or, when the
      OU names none of the schools, the first of all. */
  ghost predicate PrimaryAt(c: Cache, schools: seq<Id>, ou: Option<string>, i: nat)
    requires i < |schools| && forall s :: s in schools ==> s in c.schools
  {
    if NamedByOu(c, schools[i], ou) then
      forall j :: 0 <= j < i ==> !NamedByOu(c, schools[j], ou)
    else
      i == 0 && forall j :: 0 <= j < |schools| ==> !NamedByOu(c, schools[j], ou)
  }

  method FindPrimary(c: Cache, schools: seq<Id>, ou: Option<string>) returns (primary: Option<Id>)
    requires forall s :: s in schools ==> s in c.schools
    ensures primary.None? <==> schools == []
    ensures primary.Some? ==> exists i :: 0 <= i < |schools| && schools[i] == primary.value && PrimaryAt(c, schools, ou, i)
  {
    primary := None;
    if ou.Some? && ou.value != "" {
      for i := 0 to |schools|
        invariant primary == None
        invariant forall j :: 0 <= j < i ==> !NamedByOu(c, schools[j], ou)
      {
        if Lower(c.schools[schools[i]].name) == Lower(ou.value) {
          primary := Some(schools[i]);
          assert PrimaryAt(c, schools, ou, i);
          break;
        }
      }
    }
    if primary == None && schools != [] {
      primary := Some(schools[0]);
      assert PrimaryAt(c, schools, ou, 0);
    }
  }

  /** What one of the built memberships holds. */
  ghost predicate MembershipOf(c: Cache, groups: set<Id>, roles: seq<RoleEntry>, s: Id, m: WantedMembership)
    requires s in c.schools
  {
    && (forall g :: g in m.groups <==> g in groups && g in c.groups && c.groups[g].school == s)
    && (forall r :: r in m.roles <==> r in c.roles && exists e :: e in roles && e.role == r && e.school == c.schools[s].name)
  }

  /** Exactly one membership carries the primary flag, at the primary position. */
  ghost predicate PrimaryFlags(c: Cache, schools: seq<Id>, ou: Option<string>, result: map<Id, WantedMembership>)
    requires forall s :: s in schools ==> s in c.schools && s in result
  {
    schools != [] ==>
      exists i :: 0 <= i < |schools| && PrimaryAt(c, schools, ou, i)
                  && forall s :: s in schools ==> (result[s].primary <==> s == schools[i])
  }

  method GroupsOf(c: Cache, groups: set<Id>, s: Id) returns (schoolGroups: set<Id>)
    requires groups <= c.groups.Keys
    ensures forall g :: g in schoolGroups <==> g in groups && c.groups[g].school == s
  {
    schoolGroups := {};
    var todo := groups;
    while todo != {}
      invariant todo <= groups
      invariant forall g :: g in schoolGroups <==> g in groups - todo && c.groups[g].school == s
      decreases |todo|
    {
      var g :| g in todo;
      if c.groups[g].school == s {
        schoolGroups := schoolGroups + {g};
      }
      todo := todo - {g};
    }
  }

  /** One membership per school, with its groups and roles. */
  method BuildSchoolMemberships(c: Cache, schools: seq<Id>, groups: set<Id>, roles: seq<RoleEntry>, ou: Option<string>)
    returns (result: map<Id, WantedMembership>)
    requires forall s :: s in schools ==> s in c.schools
    requires groups <= c.groups.Keys
    ensures forall s :: s in result <==> s in schools
    ensures forall s :: s in schools ==> MembershipOf(c, groups, roles, s, result[s])
    ensures PrimaryFlags(c, schools, ou, result)
  {
    var primary := FindPrimary(c, schools, ou);
    result := map[];
    for i := 0 to |schools|
      invariant forall s :: s in result <==> s in schools[..i]
      invariant forall s :: s in result ==>
                  MembershipOf(c, groups, roles, s, result[s]) && (result[s].primary <==> Some(s) == primary)
    {
      var s := schools[i];
      var schoolGroups := GroupsOf(c, groups, s);
      var m := WantedMembership(Some(s) == primary, RolesAt(c, roles, s), schoolGroups);
      RolesAtIff(c, roles, s);
      assert MembershipOf(c, groups, roles, s, m);
      result := result[s := m];
    }
  }

  function RolesAt(c: Cache, roles: seq<RoleEntry>, s: Id): set<string>
    requires s in c.schools
  {
    (set r | r in roles && r.school == c.schools[s].name :: r.role) * c.roles
  }

  lemma RolesAtIff(c: Cache, roles: seq<RoleEntry>, s: Id)
    requires s in c.schools
    ensures forall r :: r in RolesAt(c, roles, s)
              <==> (r in c.roles && exists e :: e in roles && e.role == r && e.school == c.schools[s].name)
  {
  }

  /** Exactly one position is primary as soon as there is a school. */
  lemma OnePrimaryPosition(c: Cache, schools: seq<Id>, ou: Option<string>, i: nat, j: nat)
    requires forall s :: s in schools ==> s in c.schools
    requires i < |schools| && j < |schools| && PrimaryAt(c, schools, ou, i) && PrimaryAt(c, schools, ou, j)
    ensures i == j
  {
    assert !NamedByOu(c, schools[i], ou) ==> i == 0;
    assert !NamedByOu(c, schools[j], ou) ==> j == 0;
  }

  /** In a list ordered by id, the primary one is the school the reference
      definition names. */
  lemma PrimaryOfSorted(c: Cache, schools: seq<Id>, ids: set<Id>, ou: Option<string>, i: nat)
    requires ids <= c.schools.Keys && (forall s :: s in schools <==> s in ids)
    requires forall j, k :: 0 <= j < k < |schools| ==> schools[j] < schools[k]
    requires i < |schools| && PrimaryAt(c, schools, ou, i)
    ensures PrimarySchool(c, ids, ou) == Some(schools[i])
  {
    var named := SchoolsOfOu(c, ids, ou);
    if NamedByOu(c, schools[i], ou) {
      assert schools[i] in named;
      forall s | s in named ensures schools[i] <= s {
        var k :| 0 <= k < |schools| && schools[k] == s;
        assert NamedByOu(c, schools[k], ou);
      }
      assert Least(named) == schools[i];
    } else {
      forall s | s in ids ensures s !in named && schools[0] <= s {
        var k :| 0 <= k < |schools| && schools[k] == s;
        assert !NamedByOu(c, schools[k], ou);
      }
      assert named == {} && schools[0] in ids;
      assert Least(ids) == schools[0];
    }
  }

  lemma FlagsOfSorted(c: Cache, schools: seq<Id>, ids: set<Id>, ou: Option<string>, result: map<Id, WantedMembership>)
    requires ids <= c.schools.Keys && schools == Sorted(ids)
    requires forall s :: s in ids ==> s in result
    requires PrimaryFlags(c, schools, ou, result)
    ensures forall s :: s in ids ==> (result[s].primary <==> PrimarySchool(c, ids, ou) == Some(s))
  {
    hide PrimarySchool;
    if schools != [] {
      var i :| 0 <= i < |schools| && PrimaryAt(c, schools, ou, i)
               && forall s :: s in schools ==> (result[s].primary <==> s == schools[i]);
      PrimaryOfSorted(c, schools, ids, ou, i);
    }
  }

  /** The groups of the built memberships partition the given groups whose
      school is in the list. */
  lemma GroupsPartitioned(c: Cache, schools: seq<Id>, groups: set<Id>, roles: seq<RoleEntry>,
                          result: map<Id, WantedMembership>)
    requires groups <= c.groups.Keys && (forall s :: s in schools ==> s in c.schools)
    requires forall s :: s in result <==> s in schools
    requires forall s :: s in schools ==> MembershipOf(c, groups, roles, s, result[s])
    ensures (set s, g | s in result && g in result[s].groups :: g) == set g | g in groups && c.groups[g].school in schools
    ensures forall s, t :: s in result && t in result && s != t ==> result[s].groups !! result[t].groups
  {
    forall g | g in groups && c.groups[g].school in schools
      ensures g in set s, h | s in result && h in result[s].groups :: h
    {
      assert g in result[c.groups[g].school].groups;
    }
  }

  /** The memberships built from a user payload. */
  ghost predicate Wants(c: Cache, p: UserPayload, wanted: map<Id, WantedMembership>) {
    && (forall s :: s in wanted <==> s in SchoolsNamed(c, p.schools))
    && (forall s :: s in wanted ==>
          && MembershipOf(c, GroupsByDns(c, p.groups), p.roles, s, wanted[s])
          && (wanted[s].primary <==> PrimarySchool(c, SchoolsNamed(c, p.schools), SchoolOuFromDn(p.dn)) == Some(s)))
  }

  lemma WantedAsTables(c: Cache, p: UserPayload, wanted: map<Id, WantedMembership>)
    requires Wants(c, p, wanted)
    ensures WantedTable(p.id, wanted) == UserMemberships(c, p)
    ensures WantedLinks(p.id, wanted) == UserLinks(c, p)
    ensures AtMostOneWantedPrimary(wanted)
  {
    WantedAsMemberships(c, p, wanted);
    WantedAsLinks(c, p, wanted);
    hide WantedTable, WantedLinks, UserMemberships, UserLinks, PrimarySchool, MembershipOf;
  }

  lemma WantedAsMemberships(c: Cache, p: UserPayload, wanted: map<Id, WantedMembership>)
    requires Wants(c, p, wanted)
    ensures WantedTable(p.id, wanted) == UserMemberships(c, p)
  {
    hide PrimarySchool, GroupsByDns, SchoolOuFromDn;
    WantedTableIff(p.id, wanted);
    Integrity.UserMembershipsShape(c, p);
    forall k | k in WantedTable(p.id, wanted)
      ensures WantedTable(p.id, wanted)[k] == UserMemberships(c, p)[k]
    {
      RolesAtIff(c, p.roles, k.1);
      assert wanted[k.1].roles == RolesAt(c, p.roles, k.1);
    }
  }

  lemma WantedAsLinks(c: Cache, p: UserPayload, wanted: map<Id, WantedMembership>)
    requires Wants(c, p, wanted)
    ensures WantedLinks(p.id, wanted) == UserLinks(c, p)
  {
    assert GroupsByDns(c, p.groups) <= c.groups.Keys;
    hide PrimarySchool, SchoolOuFromDn, WantedLinks, UserLinks, GroupsByDns, SchoolsNamed;
    WantedLinksIff(p.id, wanted);
    Integrity.UserLinksShape(c, p);
  }
}
