/** Eventual consistency: once each object's last event has been handled, the
    links of the cache are those of the directory, whatever happened before. */
module Convergence {
  import opened Text
  import opened Schema
  import opened Events
  import opened Sync
  import opened Integrity
  import opened Links
  import opened Redelivery
  import opened Effects

  /** The cache before event k of a run. */
  function CacheBefore(c: Cache, events: seq<Event>, k: nat): Cache
    requires k <= |events|
  {
    Run(c, events[..k])
  }

  lemma CacheStep(c: Cache, events: seq<Event>, k: nat)
    requires k < |events|
    ensures CacheBefore(c, events, k + 1) == Apply(CacheBefore(c, events, k), events[k])
  {
    assert events[..k + 1][..k] == events[..k];
  }

  lemma CacheValid(c: Cache, events: seq<Event>, k: nat)
    requires Valid(c) && k <= |events|
    ensures Valid(CacheBefore(c, events, k))
  {
    RunKeepsValid(c, events[..k]);
  }

  lemma CacheAfterAll(c: Cache, events: seq<Event>)
    ensures CacheBefore(c, events, |events|) == Run(c, events)
  {
    assert events[..|events|] == events;
  }

  /******* The hypotheses *******/

  ghost predicate SchoolsKeptAt(c: Cache, events: seq<Event>, k: nat)
    requires k < |events|
  {
    KeepsSchools(CacheBefore(c, events, k), events[k])
  }

  /** No school comes, goes or is renamed during the run. */
  ghost predicate SchoolsFixed(c: Cache, events: seq<Event>) {
    forall k {:trigger SchoolsKeptAt(c, events, k)} :: 0 <= k < |events| ==> SchoolsKeptAt(c, events, k)
  }

  /** Event i is the user's last: it takes effect and none after it is about the user. */
  ghost predicate LastUserEvent(c: Cache, events: seq<Event>, i: nat, p: UserPayload) {
    && i < |events| && WritesUser(events[i]) && events[i].user == p
    && TakesEffect(CacheBefore(c, events, i), events[i])
    && forall k :: i < k < |events| ==> !AboutUser(events[k], p.id)
  }

  ghost predicate LastGroupEvent(c: Cache, events: seq<Event>, j: nat, p: GroupPayload) {
    && j < |events| && WritesGroup(events[j]) && events[j].group == p
    && TakesEffect(CacheBefore(c, events, j), events[j])
    && forall k :: j < k < |events| ==> !AboutGroup(events[k], p.id)
  }

  lemma SchoolNamesFixed(c: Cache, events: seq<Event>, k: nat)
    requires SchoolsFixed(c, events) && k <= |events|
    ensures SchoolNames(CacheBefore(c, events, k)) == SchoolNames(c)
  {
    if k > 0 {
      SchoolNamesFixed(c, events, k - 1);
      CacheStep(c, events, k - 1);
      assert SchoolsKeptAt(c, events, k - 1);
    }
  }

  lemma SameNamesSameSchools(c: Cache, d: Cache, names: seq<string>)
    requires SchoolNames(c) == SchoolNames(d)
    ensures SchoolsNamed(c, names) == SchoolsNamed(d, names)
  {
    assert SchoolNames(c).Keys == c.schools.Keys;
    assert SchoolNames(d).Keys == d.schools.Keys;
    forall s | s in c.schools
      ensures c.schools[s].name == d.schools[s].name
    {
      assert SchoolNames(c)[s] == SchoolNames(d)[s];
    }
  }

  /******* After its last event, an object stays as that event left it *******/

  /** The user's row and memberships are those its payload asks for. */
  ghost predicate UserSettled(c: Cache, p: UserPayload) {
    && p.id in c.users && c.users[p.id] == UserRow(p)
    && MembershipsOf(c, p.id) == UserMemberships(c, p)
  }

  lemma SameNamesSameMemberships(c: Cache, d: Cache, p: UserPayload)
    requires SchoolNames(c) == SchoolNames(d) && c.roles == d.roles
    ensures UserMemberships(c, p) == UserMemberships(d, p)
  {
    var schools := SchoolsNamed(c, p.schools);
    SameNamesSameSchools(c, d, p.schools);
    assert SchoolNames(c).Keys == c.schools.Keys && SchoolNames(d).Keys == d.schools.Keys;
    forall s | s in c.schools
      ensures c.schools[s].name == d.schools[s].name
    {
      assert SchoolNames(c)[s] == SchoolNames(d)[s];
    }
    assert SchoolsOfOu(c, schools, SchoolOuFromDn(p.dn)) == SchoolsOfOu(d, schools, SchoolOuFromDn(p.dn));
    forall s | s in schools
      ensures MembershipFor(c, p, schools, s) == MembershipFor(d, p, schools, s)
    {
      assert c.schools[s].name == d.schools[s].name;
    }
  }

  lemma WrittenMemberships(c: Cache, next: Cache, p: UserPayload)
    requires UserWritten(c, next, p)
    ensures MembershipsOf(next, p.id) == UserMemberships(c, p)
  {
    UserMembershipsShape(c, p);
  }

  lemma UserSettles(c: Cache, e: Event)
    requires Valid(c) && WritesUser(e) && TakesEffect(c, e)
    ensures UserSettled(Apply(c, e), e.user)
  {
    UserEventWritten(c, e);
    hide Apply, Handle, TakesEffect, MembershipsOf, UserMemberships;
    WrittenMemberships(c, Apply(c, e), e.user);
    SameMemberships(c, Apply(c, e), e.user);
  }

  lemma RolesStay(c: Cache, e: Event)
    ensures Apply(c, e).roles == c.roles
  {
    hide Handle, Apply, TakesEffect;
    if WritesUser(e) {
      UserEventRoles(c, e);
    } else if WritesGroup(e) {
      GroupEventRoles(c, e);
    } else if e.SchoolCreate? || e.SchoolModify? || e.HostGroupSet? || e.HostGroupDelete? {
      SchoolTablesOnly(c, e);
    } else {
      DeletesKeepRoles(c, e);
    }
  }

  lemma DeletesKeepRoles(c: Cache, e: Event)
    requires e.UserDelete? || e.GroupDelete? || e.SchoolDelete?
    ensures Apply(c, e).roles == c.roles
  {
    hide DropMapping, SetServers, HandleUserCreate, HandleUserModify, HandleGroupCreate, HandleGroupModify,
      HandleSchoolCreate, HandleSchoolModify;
  }

  lemma UserEventRoles(c: Cache, e: Event)
    requires WritesUser(e)
    ensures Apply(c, e).roles == c.roles
  {
    hide Handle, Apply, TakesEffect, UserMemberships, UserLinks, SyncGuardians, UsersByDns, UserRow, SetMapping, Unmapped;
    UserEventResult(c, e);
  }

  lemma GroupEventRoles(c: Cache, e: Event)
    requires WritesGroup(e)
    ensures Apply(c, e).roles == c.roles
  {
    hide Handle, Apply, TakesEffect, FindSchool, SyncMembers, MembersByDns, LinksOf, ReplaceSenders, UsersByDns,
      GroupsByDns, GroupRow, UpdatedGroupRow, SetMapping, Unmapped;
    GroupEventResult(c, e);
  }

  lemma UserSettledStep(c: Cache, e: Event, p: UserPayload)
    requires Valid(c) && KeepsSchools(c, e) && UserSettled(c, p) && !AboutUser(e, p.id)
    ensures UserSettled(Apply(c, e), p)
  {
    hide Apply, Handle, MembershipsOf, UserMemberships;
    UserFrame(c, e, p.id);
    RolesStay(c, e);
    SameNamesSameMemberships(c, Apply(c, e), p);
  }

  /** From its last event on, the user's row and memberships are those of its
      payload. */
  lemma UserStaysSettled(c: Cache, events: seq<Event>, i: nat, p: UserPayload, k: nat)
    requires Valid(c) && SchoolsFixed(c, events) && LastUserEvent(c, events, i, p) && i < k <= |events|
    ensures UserSettled(CacheBefore(c, events, k), p)
    decreases k
  {
    hide Handle, Valid, Run, UserSettled, SchoolsFixed, KeepsSchools;
    CacheStep(c, events, k - 1);
    CacheValid(c, events, k - 1);
    KeptAt(c, events, k - 1);
    if k == i + 1 {
      UserSettles(CacheBefore(c, events, i), events[i]);
    } else {
      UserStaysSettled(c, events, i, p, k - 1);
      UserSettledStep(CacheBefore(c, events, k - 1), events[k - 1], p);
    }
  }

  /** From its last event on, the group is in the school that event left it in. */
  lemma GroupStays(c: Cache, events: seq<Event>, j: nat, p: GroupPayload, k: nat)
    requires Valid(c) && SchoolsFixed(c, events) && LastGroupEvent(c, events, j, p) && j < k <= |events|
    ensures p.id in CacheBefore(c, events, k).groups
    ensures CacheBefore(c, events, k).groups[p.id].school == SchoolAfter(CacheBefore(c, events, j), p)
    decreases k
  {
    hide Handle, Valid, Run, SchoolsFixed, KeepsSchools, SchoolAfter;
    CacheStep(c, events, k - 1);
    CacheValid(c, events, k - 1);
    KeptAt(c, events, k - 1);
    if k == j + 1 {
      GroupEventRow(CacheBefore(c, events, j), events[j]);
    } else {
      GroupStays(c, events, j, p, k - 1);
      GroupFrame(CacheBefore(c, events, k - 1), events[k - 1], p.id);
    }
  }

  /******* By which DN an object is known *******/

  /** The user's event leaves it known by the DN: by the event's own, or, if it
      is a create event for a stored row, by the one stored. */
  ghost predicate UserGetsDn(c: Cache, e: Event, dn: Dn)
    requires WritesUser(e)
  {
    if MapsUser(c, e) then dn == e.user.dn else Maps(c.userDns, dn, e.user.id)
  }

  ghost predicate UserDnTakenAt(c: Cache, events: seq<Event>, m: nat, dn: Dn)
    requires m < |events|
  {
    MapsUser(CacheBefore(c, events, m), events[m]) && events[m].user.dn == dn
  }

  /** Event i leaves its user known by the DN, and no event before k gives the
      DN to another user. */
  ghost predicate UserHoldsDn(c: Cache, events: seq<Event>, i: nat, k: nat, dn: Dn)
    requires i < k <= |events| && WritesUser(events[i])
  {
    && UserGetsDn(CacheBefore(c, events, i), events[i], dn)
    && forall m :: i < m < k ==> !UserDnTakenAt(c, events, m, dn)
  }

  ghost predicate GroupGetsDn(c: Cache, e: Event, dn: Dn)
    requires WritesGroup(e)
  {
    if MapsGroup(c, e) then dn == e.group.dn else Maps(c.groupDns, dn, e.group.id)
  }

  ghost predicate GroupDnTakenAt(c: Cache, events: seq<Event>, m: nat, dn: Dn)
    requires m < |events|
  {
    MapsGroup(CacheBefore(c, events, m), events[m]) && events[m].group.dn == dn
  }

  ghost predicate GroupHoldsDn(c: Cache, events: seq<Event>, j: nat, k: nat, dn: Dn)
    requires j < k <= |events| && WritesGroup(events[j])
  {
    && GroupGetsDn(CacheBefore(c, events, j), events[j], dn)
    && forall m :: j < m < k ==> !GroupDnTakenAt(c, events, m, dn)
  }

  /** Between the user's last event and event k the DN map is exactly that. */
  lemma UserDnHeldIff(c: Cache, events: seq<Event>, i: nat, p: UserPayload, dn: Dn, k: nat)
    requires Valid(c) && LastUserEvent(c, events, i, p) && i < k <= |events|
    ensures Maps(CacheBefore(c, events, k).userDns, dn, p.id) <==> UserHoldsDn(c, events, i, k, dn)
    decreases k
  {
    hide Handle, Run, TakesEffect, ForeignKeys, UniqueKeys, OnePrimary, Maps;
    var b := CacheBefore(c, events, k - 1);
    CacheStep(c, events, k - 1);
    CacheValid(c, events, k - 1);
    UserMapsIff(b, events[k - 1], dn, p.id);
    if i + 1 < k {
      UserDnHeldIff(c, events, i, p, dn, k - 1);
      assert MapsUser(b, events[k - 1]) && events[k - 1].user.dn == dn <==> UserDnTakenAt(c, events, k - 1, dn);
    }
  }

  lemma GroupDnHeldIff(c: Cache, events: seq<Event>, j: nat, p: GroupPayload, dn: Dn, k: nat)
    requires Valid(c) && LastGroupEvent(c, events, j, p) && j < k <= |events|
    ensures Maps(CacheBefore(c, events, k).groupDns, dn, p.id) <==> GroupHoldsDn(c, events, j, k, dn)
    decreases k
  {
    hide Handle, Run, TakesEffect, ForeignKeys, UniqueKeys, OnePrimary, Maps;
    var b := CacheBefore(c, events, k - 1);
    CacheStep(c, events, k - 1);
    CacheValid(c, events, k - 1);
    GroupMapsIff(b, events[k - 1], dn, p.id);
    if j + 1 < k {
      GroupDnHeldIff(c, events, j, p, dn, k - 1);
      assert MapsGroup(b, events[k - 1]) && events[k - 1].group.dn == dn <==> GroupDnTakenAt(c, events, k - 1, dn);
    }
  }

  lemma KeptAt(c: Cache, events: seq<Event>, k: nat)
    requires SchoolsFixed(c, events) && k < |events|
    ensures KeepsSchools(CacheBefore(c, events, k), events[k])
  {
    hide KeepsSchools, Run, Handle;
    assert SchoolsKeptAt(c, events, k);
  }

  lemma LinkStays(c: Cache, events: seq<Event>, k: nat, g: Id, u: Id)
    requires Valid(c) && SchoolsFixed(c, events) && k <= |events|
    requires forall m :: k <= m < |events| ==> !AboutUser(events[m], u) && !AboutGroup(events[m], g)
    ensures Linked(Run(c, events), g, u) <==> Linked(CacheBefore(c, events, k), g, u)
    decreases |events| - k
  {
    hide Handle, Valid, Run, SchoolsFixed, Linked, KeepsSchools, AboutUser, AboutGroup;
    if k == |events| {
      CacheAfterAll(c, events);
    } else {
      CacheStep(c, events, k);
      CacheValid(c, events, k);
      KeptAt(c, events, k);
      LinkFrame(CacheBefore(c, events, k), events[k], g, u);
      LinkStays(c, events, k + 1, g, u);
    }
  }

  lemma GuardianStays(c: Cache, events: seq<Event>, k: nat, x: Id, y: Id)
    requires Valid(c) && SchoolsFixed(c, events) && k <= |events|
    requires forall m :: k <= m < |events| ==> !AboutUser(events[m], x) && !AboutUser(events[m], y)
    ensures (x, y) in Run(c, events).guardians <==> (x, y) in CacheBefore(c, events, k).guardians
    decreases |events| - k
  {
    hide Handle, Valid, Run, SchoolsFixed, Linked, KeepsSchools, AboutUser, AboutGroup;
    if k == |events| {
      CacheAfterAll(c, events);
    } else {
      CacheStep(c, events, k);
      CacheValid(c, events, k);
      KeptAt(c, events, k);
      GuardianFrame(CacheBefore(c, events, k), events[k], x, y);
      GuardianStays(c, events, k + 1, x, y);
    }
  }

  /******* Member links *******/

  /** A modify of a stored user does not see the DN that it maps itself. */
  predicate SeesDn(c: Cache, e: Event, dn: Dn) {
    e.UserModify? && e.user.id in c.users ==> dn != e.user.dn
  }

  /** When event k is handled, the references list the user of event i. */
  ghost predicate ListsUser(c: Cache, events: seq<Event>, i: nat, k: nat, refs: seq<Dn>)
    requires i < k < |events| && WritesUser(events[i])
  {
    exists d :: d in refs && SeesDn(CacheBefore(c, events, k), events[k], d) && UserHoldsDn(c, events, i, k, d)
  }

  ghost predicate ListsGroup(c: Cache, events: seq<Event>, j: nat, k: nat, refs: seq<Dn>)
    requires j < k < |events| && WritesGroup(events[j])
  {
    exists d :: d in refs && !UnsyncableGroupDn(d) && GroupHoldsDn(c, events, j, k, d)
  }

  /** The user's payload names the school that the group is in. */
  predicate NamesSchoolOf(c: Cache, p: UserPayload, g: Id) {
    g in c.groups && c.groups[g].school in SchoolsNamed(c, p.schools)
  }

  /** Handling the group event now would lose the user in a move. */
  ghost predicate LosesUser(c: Cache, p: GroupPayload, u: Id) {
    && p.id in c.groups
    && WantedMembers(c, p) != LinkedUsers(c, p.id)
    && (u, c.groups[p.id].school) !in c.memberships
  }

  lemma NamesSchoolStays(c: Cache, events: seq<Event>, j: nat, pg: GroupPayload, k: nat, pu: UserPayload)
    requires Valid(c) && SchoolsFixed(c, events) && LastGroupEvent(c, events, j, pg) && j < k <= |events|
    ensures NamesSchoolOf(CacheBefore(c, events, k), pu, pg.id) <==> NamesSchoolOf(Run(c, events), pu, pg.id)
  {
    hide Handle, Valid, Run, SchoolsFixed, KeepsSchools, LastGroupEvent, SchoolsNamed, SchoolAfter;
    CacheAfterAll(c, events);
    GroupStays(c, events, j, pg, k);
    GroupStays(c, events, j, pg, |events|);
    SchoolNamesFixed(c, events, k);
    SchoolNamesFixed(c, events, |events|);
    SameNamesSameSchools(CacheBefore(c, events, k), Run(c, events), pu.schools);
  }

  lemma ResolvesIff(c: Cache, refs: seq<Dn>, u: Id)
    requires DnBijection(c.userDns, c.users.Keys)
    ensures u in UsersByDns(c, refs) <==> exists d :: d in refs && Maps(c.userDns, d, u)
  {
  }

  lemma ResolvesGroupIff(c: Cache, refs: seq<Dn>, g: Id)
    requires DnBijection(c.groupDns, c.groups.Keys)
    ensures g in GroupsByDns(c, refs) <==> exists d :: d in refs && !UnsyncableGroupDn(d) && Maps(c.groupDns, d, g)
  {
  }

  lemma ResolvesListedGroup(c: Cache, events: seq<Event>, j: nat, p: GroupPayload, k: nat, refs: seq<Dn>)
    requires Valid(c) && LastGroupEvent(c, events, j, p) && j < k < |events|
    ensures p.id in GroupsByDns(CacheBefore(c, events, k), refs) <==> ListsGroup(c, events, j, k, refs)
  {
    hide Handle, Run, ForeignKeys, UniqueKeys, OnePrimary, Maps, GroupHoldsDn, GroupsByDns,
      UnsyncableGroupDn;
    var b := CacheBefore(c, events, k);
    CacheValid(c, events, k);
    ResolvesGroupIff(b, refs, p.id);
    forall d ensures Maps(b.groupDns, d, p.id) <==> GroupHoldsDn(c, events, j, k, d) {
      GroupDnHeldIff(c, events, j, p, d, k);
    }
  }

  /** The cache that the references of the event are resolved in. */
  function Lookups(c: Cache, e: Event): Cache {
    if WritesUser(e) then UserLookups(c, e) else c
  }

  lemma LookupsMap(c: Cache, e: Event, dn: Dn, u: Id)
    requires DnBijection(c.userDns, c.users.Keys) && !AboutUser(e, u)
    ensures Maps(Lookups(c, e).userDns, dn, u) <==> SeesDn(c, e, dn) && Maps(c.userDns, dn, u)
    ensures DnBijection(Lookups(c, e).userDns, Lookups(c, e).users.Keys)
  {
  }

  /** The lookups of event k find the user of event i just when the references
      list it. */
  lemma ResolvesListedUser(c: Cache, events: seq<Event>, i: nat, p: UserPayload, k: nat, refs: seq<Dn>)
    requires Valid(c) && LastUserEvent(c, events, i, p) && i < k < |events|
    ensures p.id in UsersByDns(Lookups(CacheBefore(c, events, k), events[k]), refs) <==> ListsUser(c, events, i, k, refs)
  {
    hide Handle, Run, ForeignKeys, UniqueKeys, OnePrimary, UserHoldsDn, UsersByDns, DnBijection, Maps, Lookups, SeesDn;
    var b := CacheBefore(c, events, k);
    var lookups := Lookups(b, events[k]);
    assert !AboutUser(events[k], p.id);
    CacheValid(c, events, k);
    forall d
      ensures Maps(lookups.userDns, d, p.id) <==> SeesDn(b, events[k], d) && UserHoldsDn(c, events, i, k, d)
    {
      LookupsMap(b, events[k], d, p.id);
      UserDnHeldIff(c, events, i, p, d, k);
    }
    LookupsMap(b, events[k], [], p.id);
    ResolvesIff(lookups, refs, p.id);
  }

  lemma LinkAfterGroup(c: Cache, e: Event, pu: UserPayload)
    requires Valid(c) && WritesGroup(e) && TakesEffect(c, e) && UserSettled(c, pu)
    ensures Linked(Apply(c, e), e.group.id, pu.id)
      <==> pu.id in UsersByDns(c, e.group.users) && SchoolAfter(c, e.group) in SchoolsNamed(c, pu.schools)
           && !LosesUser(c, e.group, pu.id)
  {
    hide Handle, Apply, FindSchool;
    GroupEventLinks(c, e, pu.id);
    forall s ensures (pu.id, s) in c.memberships <==> s in SchoolsNamed(c, pu.schools) {
      UserMembershipsShape(c, pu);
      assert (pu.id, s) in MembershipsOf(c, pu.id) <==> (pu.id, s) in c.memberships;
    }
  }

  lemma UserEventComesLast(
      c: Cache, events: seq<Event>, i: nat, j: nat, pu: UserPayload, pg: GroupPayload)
    requires Valid(c) && SchoolsFixed(c, events) && j < i
    requires LastUserEvent(c, events, i, pu) && LastGroupEvent(c, events, j, pg)
    ensures Linked(Run(c, events), pg.id, pu.id)
      <==> ListsGroup(c, events, j, i, pu.groups) && NamesSchoolOf(Run(c, events), pu, pg.id)
  {
    hide Handle, Valid, SchoolsFixed, Run, ListsGroup, TakesEffect, UserWritten;
    var b := CacheBefore(c, events, i);
    CacheValid(c, events, i);
    ResolvesListedGroup(c, events, j, pg, i, pu.groups);
    UserEventWritten(b, events[i]);
    UserWrittenLink(b, Apply(b, events[i]), pu, pg.id);
    NamesSchoolStays(c, events, j, pg, i, pu);
    CacheStep(c, events, i);
    LinkStays(c, events, i + 1, pg.id, pu.id);
  }

  lemma GroupEventComesLast(
      c: Cache, events: seq<Event>, i: nat, j: nat, pu: UserPayload, pg: GroupPayload)
    requires Valid(c) && SchoolsFixed(c, events) && i < j
    requires LastUserEvent(c, events, i, pu) && LastGroupEvent(c, events, j, pg)
    ensures Linked(Run(c, events), pg.id, pu.id)
      <==> ListsUser(c, events, i, j, pg.users) && NamesSchoolOf(Run(c, events), pu, pg.id)
           && !LosesUser(CacheBefore(c, events, j), pg, pu.id)
  {
    hide Handle, Valid, SchoolsFixed, Run, ListsUser, TakesEffect, UserSettled, SchoolAfter, LosesUser;
    var b := CacheBefore(c, events, j);
    CacheValid(c, events, j);
    UserStaysSettled(c, events, i, pu, j);
    ResolvesListedUser(c, events, i, pu, j, pg.users);
    LinkAfterGroup(b, events[j], pu);
    SchoolAfterNamed(c, events, j, pg, pu);
    CacheStep(c, events, j);
    LinkStays(c, events, j + 1, pg.id, pu.id);
  }

  lemma SchoolAfterNamed(c: Cache, events: seq<Event>, j: nat, pg: GroupPayload, pu: UserPayload)
    requires Valid(c) && SchoolsFixed(c, events) && LastGroupEvent(c, events, j, pg)
    ensures SchoolAfter(CacheBefore(c, events, j), pg) in SchoolsNamed(CacheBefore(c, events, j), pu.schools)
      <==> NamesSchoolOf(Run(c, events), pu, pg.id)
  {
    hide Handle, Valid, Run, SchoolsFixed, SchoolsNamed, SchoolAfter;
    CacheAfterAll(c, events);
    GroupStays(c, events, j, pg, |events|);
    SchoolNamesFixed(c, events, j);
    SchoolNamesFixed(c, events, |events|);
    SameNamesSameSchools(CacheBefore(c, events, j), Run(c, events), pu.schools);
  }

  /** Which member links are cached in the end, from the last events of user and
      group alone: the payload handled later lists the other object by a DN it
      still holds, the user names the school the group is in, and the group's
      event, if later, does not lose the user in a move. */
  lemma MemberLinkExactly(
      c: Cache, events: seq<Event>, i: nat, j: nat, pu: UserPayload, pg: GroupPayload)
    requires Valid(c) && SchoolsFixed(c, events)
    requires LastUserEvent(c, events, i, pu) && LastGroupEvent(c, events, j, pg)
    ensures Linked(Run(c, events), pg.id, pu.id)
      <==> && NamesSchoolOf(Run(c, events), pu, pg.id)
           && if j < i then ListsGroup(c, events, j, i, pu.groups)
              else ListsUser(c, events, i, j, pg.users) && !LosesUser(CacheBefore(c, events, j), pg, pu.id)
  {
    hide Handle, Valid, SchoolsFixed, Run, ListsUser, ListsGroup, TakesEffect, NamesSchoolOf, LosesUser, Linked;
    if j < i {
      UserEventComesLast(c, events, i, j, pu, pg);
    } else {
      GroupEventComesLast(c, events, i, j, pu, pg);
    }
  }

  /******* Guardian links *******/

  /** Two users, the second handled last: both directions of their relation. */
  lemma LaterUserDecides(c: Cache, events: seq<Event>, i: nat, j: nat, first: UserPayload, last: UserPayload)
    requires Valid(c) && SchoolsFixed(c, events) && i < j && first.id != last.id
    requires LastUserEvent(c, events, i, first) && LastUserEvent(c, events, j, last)
    ensures (last.id, first.id) in Run(c, events).guardians <==> ListsUser(c, events, i, j, last.wards)
    ensures (first.id, last.id) in Run(c, events).guardians <==> ListsUser(c, events, i, j, last.guardians)
  {
    hide Handle, Valid, SchoolsFixed, Run, ListsUser, TakesEffect;
    var b := CacheBefore(c, events, j);
    CacheValid(c, events, j);
    ResolvesListedUser(c, events, i, first, j, last.wards);
    ResolvesListedUser(c, events, i, first, j, last.guardians);
    UserEventGuardians(b, events[j], first.id);
    CacheStep(c, events, j);
    GuardianStays(c, events, j + 1, first.id, last.id);
    GuardianStays(c, events, j + 1, last.id, first.id);
  }

  /** A guardian link is cached in the end exactly when the payload handled
      later lists the other user by a DN it still holds. */
  lemma GuardianLinkExactly(
      c: Cache, events: seq<Event>, i: nat, j: nat, guardian: UserPayload, ward: UserPayload)
    requires Valid(c) && SchoolsFixed(c, events) && guardian.id != ward.id
    requires LastUserEvent(c, events, i, guardian) && LastUserEvent(c, events, j, ward)
    ensures (guardian.id, ward.id) in Run(c, events).guardians
      <==> if j < i then ListsUser(c, events, j, i, guardian.wards) else ListsUser(c, events, i, j, ward.guardians)
  {
    hide Handle, Valid, SchoolsFixed, Run, ListsUser, TakesEffect;
    if j < i {
      LaterUserDecides(c, events, j, i, ward, guardian);
    } else {
      LaterUserDecides(c, events, i, j, guardian, ward);
    }
  }

  /******* Objects known by their last DN only *******/

  /** The references name no other DN that was stored for the user, and no later
      user event up to k comes under its DN. */
  ghost predicate OnlyOwnUserDn(c: Cache, events: seq<Event>, i: nat, k: nat, p: UserPayload, refs: seq<Dn>)
    requires i < k < |events|
  {
    && (forall d :: d in refs && d != p.dn ==> !Maps(CacheBefore(c, events, i).userDns, d, p.id))
    && (forall m :: i < m <= k && WritesUser(events[m]) ==> events[m].user.dn != p.dn)
  }

  ghost predicate OnlyOwnGroupDn(c: Cache, events: seq<Event>, j: nat, k: nat, p: GroupPayload, refs: seq<Dn>)
    requires j < k < |events|
  {
    && (forall d :: d in refs && d != p.dn ==> !Maps(CacheBefore(c, events, j).groupDns, d, p.id))
    && (forall m :: j < m <= k && WritesGroup(events[m]) ==> events[m].group.dn != p.dn)
  }

  lemma ListsUserByDn(c: Cache, events: seq<Event>, i: nat, k: nat, p: UserPayload, refs: seq<Dn>)
    requires i < k < |events| && LastUserEvent(c, events, i, p) && OnlyOwnUserDn(c, events, i, k, p, refs)
    ensures ListsUser(c, events, i, k, refs) <==> p.dn in refs && MapsDn(CacheBefore(c, events, i), events[i])
  {
    hide Handle, Run, Maps;
    if p.dn in refs && MapsDn(CacheBefore(c, events, i), events[i]) {
      assert UserHoldsDn(c, events, i, k, p.dn);
    }
  }

  lemma ListsGroupByDn(c: Cache, events: seq<Event>, j: nat, k: nat, p: GroupPayload, refs: seq<Dn>)
    requires j < k < |events| && LastGroupEvent(c, events, j, p) && OnlyOwnGroupDn(c, events, j, k, p, refs)
    ensures ListsGroup(c, events, j, k, refs)
      <==> p.dn in refs && !UnsyncableGroupDn(p.dn) && MapsDn(CacheBefore(c, events, j), events[j])
  {
    hide Handle, Run, Maps, UnsyncableGroupDn;
    if p.dn in refs && MapsDn(CacheBefore(c, events, j), events[j]) {
      assert GroupHoldsDn(c, events, j, k, p.dn);
    }
  }

  /** Then the DN map has to be right for the earlier event, and only for that:
      a create event that finds its row under another DN loses the link. */
  lemma MemberLinkByDn(
      c: Cache, events: seq<Event>, i: nat, j: nat, pu: UserPayload, pg: GroupPayload)
    requires Valid(c) && SchoolsFixed(c, events)
    requires LastUserEvent(c, events, i, pu) && LastGroupEvent(c, events, j, pg)
    requires if j < i then OnlyOwnGroupDn(c, events, j, i, pg, pu.groups)
             else i < j && OnlyOwnUserDn(c, events, i, j, pu, pg.users)
    ensures Linked(Run(c, events), pg.id, pu.id)
      <==> && NamesSchoolOf(Run(c, events), pu, pg.id)
           && if j < i then
                pg.dn in pu.groups && !UnsyncableGroupDn(pg.dn) && MapsDn(CacheBefore(c, events, j), events[j])
              else
                && pu.dn in pg.users && MapsDn(CacheBefore(c, events, i), events[i])
                && !LosesUser(CacheBefore(c, events, j), pg, pu.id)
  {
    hide Handle, Valid, SchoolsFixed, Run, ListsUser, ListsGroup, TakesEffect, NamesSchoolOf, LosesUser, Linked, MapsDn,
      OnlyOwnUserDn, OnlyOwnGroupDn, UnsyncableGroupDn;
    MemberLinkExactly(c, events, i, j, pu, pg);
    if j < i {
      ListsGroupByDn(c, events, j, i, pg, pu.groups);
    } else {
      ListsUserByDn(c, events, i, j, pu, pg.users);
    }
  }

  lemma GuardianLinkByDn(
      c: Cache, events: seq<Event>, i: nat, j: nat, guardian: UserPayload, ward: UserPayload)
    requires Valid(c) && SchoolsFixed(c, events) && guardian.id != ward.id
    requires LastUserEvent(c, events, i, guardian) && LastUserEvent(c, events, j, ward)
    requires if j < i then OnlyOwnUserDn(c, events, j, i, ward, guardian.wards)
             else i < j && OnlyOwnUserDn(c, events, i, j, guardian, ward.guardians)
    ensures (guardian.id, ward.id) in Run(c, events).guardians
      <==> if j < i then ward.dn in guardian.wards && MapsDn(CacheBefore(c, events, j), events[j])
           else guardian.dn in ward.guardians && MapsDn(CacheBefore(c, events, i), events[i])
  {
    hide Handle, Valid, SchoolsFixed, Run, ListsUser, TakesEffect, MapsDn, OnlyOwnUserDn;
    GuardianLinkExactly(c, events, i, j, guardian, ward);
    if j < i {
      ListsUserByDn(c, events, j, i, ward, guardian.wards);
    } else {
      ListsUserByDn(c, events, i, j, guardian, ward.guardians);
    }
  }

  /******* The whole directory *******/

  /** Both payloads list each other, or neither does. */
  predicate MembershipMirrors(pu: UserPayload, pg: GroupPayload) {
    pg.dn in pu.groups <==> pu.dn in pg.users
  }

  predicate GuardianMirrors(guardian: UserPayload, ward: UserPayload) {
    ward.dn in guardian.wards <==> guardian.dn in ward.guardians
  }

  /** The final payload of every object, and the position of its last event. */
  datatype Directory = Directory(
    users: map<Id, UserPayload>, groups: map<Id, GroupPayload>,
    userLast: map<Id, nat>, groupLast: map<Id, nat>)

  ghost predicate Delivered(c: Cache, events: seq<Event>, dir: Directory) {
    && (forall u :: u in dir.users ==>
          dir.users[u].id == u && u in dir.userLast && LastUserEvent(c, events, dir.userLast[u], dir.users[u]))
    && (forall g :: g in dir.groups ==>
          dir.groups[g].id == g && g in dir.groupLast && LastGroupEvent(c, events, dir.groupLast[g], dir.groups[g]))
  }

  ghost predicate MirrorConsistent(dir: Directory) {
    && (forall u, g :: u in dir.users && g in dir.groups ==> MembershipMirrors(dir.users[u], dir.groups[g]))
    && (forall u, v :: u in dir.users && v in dir.users && u != v ==>
          GuardianMirrors(dir.users[u], dir.users[v]) && dir.users[u].dn != dir.users[v].dn)
  }

  /** When the later of two related objects is handled, the earlier one is known
      by its DN. */
  ghost predicate UserKnown(c: Cache, events: seq<Event>, dir: Directory, u: Id, k: nat)
    requires Delivered(c, events, dir) && u in dir.users
  {
    dir.userLast[u] < k < |events| ==> UserHoldsDn(c, events, dir.userLast[u], k, dir.users[u].dn)
  }

  ghost predicate GroupKnown(c: Cache, events: seq<Event>, dir: Directory, g: Id, k: nat)
    requires Delivered(c, events, dir) && g in dir.groups
  {
    dir.groupLast[g] < k < |events| ==> GroupHoldsDn(c, events, dir.groupLast[g], k, dir.groups[g].dn)
  }

  ghost predicate EarlierKnown(c: Cache, events: seq<Event>, dir: Directory)
    requires Delivered(c, events, dir)
  {
    && (forall u, g :: u in dir.users && g in dir.groups ==>
          UserKnown(c, events, dir, u, dir.groupLast[g]) && GroupKnown(c, events, dir, g, dir.userLast[u]))
    && (forall u, v :: u in dir.users && v in dir.users && u != v ==> UserKnown(c, events, dir, u, dir.userLast[v]))
  }

  /** The event finds or leaves its DN in the map, and no later user event
      comes under it. */
  ghost predicate KeepsUserDn(c: Cache, events: seq<Event>, i: nat, p: UserPayload)
    requires i < |events|
  {
    && MapsDn(CacheBefore(c, events, i), events[i])
    && forall m :: i < m < |events| && WritesUser(events[m]) ==> events[m].user.dn != p.dn
  }

  ghost predicate KeepsGroupDn(c: Cache, events: seq<Event>, j: nat, p: GroupPayload)
    requires j < |events|
  {
    && MapsDn(CacheBefore(c, events, j), events[j])
    && forall m :: j < m < |events| && WritesGroup(events[m]) ==> events[m].group.dn != p.dn
  }

  lemma KeptUserDnHolds(c: Cache, events: seq<Event>, i: nat, p: UserPayload, k: nat)
    requires LastUserEvent(c, events, i, p) && KeepsUserDn(c, events, i, p) && i < k < |events|
    ensures UserHoldsDn(c, events, i, k, p.dn)
  {
    hide Handle, Run, Maps;
  }

  lemma KeptGroupDnHolds(c: Cache, events: seq<Event>, j: nat, p: GroupPayload, k: nat)
    requires LastGroupEvent(c, events, j, p) && KeepsGroupDn(c, events, j, p) && j < k < |events|
    ensures GroupHoldsDn(c, events, j, k, p.dn)
  {
    hide Handle, Run, Maps;
  }

  /** So it is enough that every last event keeps its DN. */
  lemma KnownByLastDns(c: Cache, events: seq<Event>, dir: Directory)
    requires Delivered(c, events, dir)
    requires forall u :: u in dir.users ==> KeepsUserDn(c, events, dir.userLast[u], dir.users[u])
    requires forall g :: g in dir.groups ==> KeepsGroupDn(c, events, dir.groupLast[g], dir.groups[g])
    ensures EarlierKnown(c, events, dir)
  {
    hide KeepsUserDn, KeepsGroupDn, UserHoldsDn, GroupHoldsDn, TakesEffect, CacheBefore;
    forall u, k | u in dir.users && dir.userLast[u] < k < |events|
      ensures UserHoldsDn(c, events, dir.userLast[u], k, dir.users[u].dn)
    {
      KeptUserDnHolds(c, events, dir.userLast[u], dir.users[u], k);
    }
    forall g, k | g in dir.groups && dir.groupLast[g] < k < |events|
      ensures GroupHoldsDn(c, events, dir.groupLast[g], k, dir.groups[g].dn)
    {
      KeptGroupDnHolds(c, events, dir.groupLast[g], dir.groups[g], k);
    }
  }

  /** The last event of a group finds the row absent or already in its school. */
  ghost predicate LastEventMovesNoGroup(c: Cache, events: seq<Event>, dir: Directory)
    requires Delivered(c, events, dir)
  {
    forall g :: g in dir.groups ==>
      var b := CacheBefore(c, events, dir.groupLast[g]);
      g in b.groups ==> b.groups[g].school == TargetSchool(b, dir.groups[g])
  }

  /** The directory lists the user as a member of the group, as the cache can
      tell: the user names the school the group is in, and a reference to the
      group is not skipped when the user's event comes last. */
  ghost predicate DirectoryLists(end: Cache, dir: Directory, g: Id, u: Id)
    requires g in dir.groups && u in dir.users && g in dir.groupLast && u in dir.userLast
  {
    && dir.users[u].dn in dir.groups[g].users && NamesSchoolOf(end, dir.users[u], g)
    && (dir.groupLast[g] < dir.userLast[u] ==> !UnsyncableGroupDn(dir.groups[g].dn))
  }

  /** Known by one DN, the user is listed just when that DN is. */
  lemma ListsKnownUser(c: Cache, events: seq<Event>, i: nat, k: nat, p: UserPayload, refs: seq<Dn>)
    requires Valid(c) && i < k < |events| && LastUserEvent(c, events, i, p)
    requires UserHoldsDn(c, events, i, k, p.dn) && (WritesUser(events[k]) ==> events[k].user.dn != p.dn)
    ensures ListsUser(c, events, i, k, refs) <==> p.dn in refs
  {
    hide Handle, Run, ForeignKeys, UniqueKeys, OnePrimary, UserHoldsDn, TakesEffect;
    CacheValid(c, events, k);
    UserDnHeldIff(c, events, i, p, p.dn, k);
    forall d | UserHoldsDn(c, events, i, k, d) ensures d == p.dn {
      UserDnHeldIff(c, events, i, p, d, k);
    }
  }

  lemma ListsKnownGroup(c: Cache, events: seq<Event>, j: nat, k: nat, p: GroupPayload, refs: seq<Dn>)
    requires Valid(c) && j < k < |events| && LastGroupEvent(c, events, j, p)
    requires GroupHoldsDn(c, events, j, k, p.dn)
    ensures ListsGroup(c, events, j, k, refs) <==> p.dn in refs && !UnsyncableGroupDn(p.dn)
  {
    hide Handle, Run, ForeignKeys, UniqueKeys, OnePrimary, GroupHoldsDn, TakesEffect, UnsyncableGroupDn;
    CacheValid(c, events, k);
    GroupDnHeldIff(c, events, j, p, p.dn, k);
    forall d | GroupHoldsDn(c, events, j, k, d) ensures d == p.dn {
      GroupDnHeldIff(c, events, j, p, d, k);
    }
  }

  /** Whatever a run did before, after every object's last event the cached
      links are exactly the directory's. */
  lemma EventualConsistency(c: Cache, events: seq<Event>, dir: Directory)
    requires Valid(c) && SchoolsFixed(c, events) && Delivered(c, events, dir) && MirrorConsistent(dir)
    requires EarlierKnown(c, events, dir) && LastEventMovesNoGroup(c, events, dir)
    ensures forall g, u :: g in dir.groups && u in dir.users ==>
              (Linked(Run(c, events), g, u) <==> DirectoryLists(Run(c, events), dir, g, u))
    ensures forall u, v :: u in dir.users && v in dir.users && u != v ==>
              ((u, v) in Run(c, events).guardians <==> dir.users[v].dn in dir.users[u].wards)
  {
    hide Handle, Valid, SchoolsFixed, Run, TakesEffect, LastUserEvent, LastGroupEvent, DirectoryLists, Linked;
    forall g, u | g in dir.groups && u in dir.users
      ensures Linked(Run(c, events), g, u) <==> DirectoryLists(Run(c, events), dir, g, u)
    {
      MemberOfDirectory(c, events, dir, g, u);
    }
    forall u, v | u in dir.users && v in dir.users && u != v
      ensures (u, v) in Run(c, events).guardians <==> dir.users[v].dn in dir.users[u].wards
    {
      GuardianOfDirectory(c, events, dir, u, v);
    }
  }

  lemma MemberOfDirectory(c: Cache, events: seq<Event>, dir: Directory, g: Id, u: Id)
    requires Valid(c) && SchoolsFixed(c, events) && Delivered(c, events, dir) && MirrorConsistent(dir)
    requires EarlierKnown(c, events, dir) && LastEventMovesNoGroup(c, events, dir)
    requires g in dir.groups && u in dir.users
    ensures Linked(Run(c, events), g, u) <==> DirectoryLists(Run(c, events), dir, g, u)
  {
    hide Handle, Valid, SchoolsFixed, Run, LastEventMovesNoGroup, Linked, LosesUser, TakesEffect, NamesSchoolOf,
      ListsUser, ListsGroup, UserHoldsDn, GroupHoldsDn, UnsyncableGroupDn;
    var i, j, pu, pg := dir.userLast[u], dir.groupLast[g], dir.users[u], dir.groups[g];
    MemberLinkExactly(c, events, i, j, pu, pg);
    if j < i {
      assert GroupKnown(c, events, dir, g, i);
      ListsKnownGroup(c, events, j, i, pg, pu.groups);
    } else {
      assert UserKnown(c, events, dir, u, j);
      ListsKnownUser(c, events, i, j, pu, pg.users);
      if NamesSchoolOf(Run(c, events), pu, g) {
        NothingLost(c, events, dir, g, u);
      }
    }
  }

  lemma GuardianOfDirectory(c: Cache, events: seq<Event>, dir: Directory, u: Id, v: Id)
    requires Valid(c) && SchoolsFixed(c, events) && Delivered(c, events, dir) && MirrorConsistent(dir)
    requires EarlierKnown(c, events, dir) && u in dir.users && v in dir.users && u != v
    ensures (u, v) in Run(c, events).guardians <==> dir.users[v].dn in dir.users[u].wards
  {
    hide Handle, Valid, SchoolsFixed, Run, TakesEffect, ListsUser, UserHoldsDn;
    var i, j, guardian, ward := dir.userLast[u], dir.userLast[v], dir.users[u], dir.users[v];
    GuardianLinkExactly(c, events, i, j, guardian, ward);
    if j < i {
      assert UserKnown(c, events, dir, v, i);
      ListsKnownUser(c, events, j, i, ward, guardian.wards);
    } else {
      assert UserKnown(c, events, dir, u, j);
      ListsKnownUser(c, events, i, j, guardian, ward.guardians);
    }
  }

  /** A group that stays in its school loses no user that names the school. */
  lemma NothingLost(c: Cache, events: seq<Event>, dir: Directory, g: Id, u: Id)
    requires Valid(c) && SchoolsFixed(c, events)
    requires Delivered(c, events, dir) && LastEventMovesNoGroup(c, events, dir)
    requires g in dir.groups && u in dir.users && dir.userLast[u] < dir.groupLast[g]
    requires NamesSchoolOf(Run(c, events), dir.users[u], g)
    ensures !LosesUser(CacheBefore(c, events, dir.groupLast[g]), dir.groups[g], u)
  {
    hide Handle, SchoolsFixed, Run, Valid, TakesEffect, UserMemberships, NamesSchoolOf, TargetSchool;
    var j, pu := dir.groupLast[g], dir.users[u];
    var b := CacheBefore(c, events, j);
    UserStaysSettled(c, events, dir.userLast[u], pu, j);
    SchoolAfterNamed(c, events, j, dir.groups[g], pu);
    UserMembershipsShape(b, pu);
    if g in b.groups {
      assert (u, b.groups[g].school) in MembershipsOf(b, u);
    }
  }
}
