/** Repair: what an object looks like after its own event depends on the event
    and on the tables its references go through, not on the row found. */
module Repair {
  import opened Text
  import opened Schema
  import opened Events
  import opened Sync
  import opened Integrity
  import opened Links
  import opened Redelivery
  import opened Effects

  /******* Users *******/

  datatype UserView = UserView(
    row: Option<User>, memberships: map<Id, Membership>, links: set<Link>,
    guardians: set<Id>, wards: set<Id>)

  /** Everything the cache stores about one user. */
  function ViewUser(c: Cache, u: Id): UserView {
    UserView(if u in c.users then Some(c.users[u]) else None,
             map s | s in (set k | k in c.memberships && k.0 == u :: k.1) :: c.memberships[(u, s)],
             (set l | l in c.members && l.user == u),
             GuardiansOf(c.guardians, u), WardsOf(c.guardians, u))
  }

  predicate SameGroupSchools(c: Cache, d: Cache) {
    c.groups.Keys == d.groups.Keys && forall g :: g in c.groups ==> c.groups[g].school == d.groups[g].school
  }

  /** Two caches with the same roles, schools, group schools and DNs of others. */
  predicate SameUserReferences(c: Cache, d: Cache, p: UserPayload) {
    && c.roles == d.roles && c.schools == d.schools
    && c.groupDns == d.groupDns && SameGroupSchools(c, d)
    && Unmapped(c.userDns, p.dn, p.id) == Unmapped(d.userDns, p.dn, p.id)
  }

  /** Another user that the event's DN still belongs to when the references are
      resolved. A modify of a stored user has removed that row. */
  function OtherOwner(c: Cache, e: Event): Option<Id>
    requires WritesUser(e)
  {
    var dns := UserLookups(c, e).userDns;
    if e.user.dn in dns && dns[e.user.dn] != e.user.id then Some(dns[e.user.dn]) else None
  }

  /** The event leaves the user its own guardian and ward: the later of the two
      updates that changes something decides. */
  predicate SelfPaired(c: Cache, e: Event)
    requires WritesUser(e)
  {
    var p := e.user;
    var wards := UsersByDns(UserLookups(c, e), p.wards);
    && p.id in c.users
    && if wards == WardsOf(c.guardians, p.id) then p.id in UsersByDns(UserLookups(c, e), p.guardians) else p.id in wards
  }

  /** Who the references resolve to, apart from the user itself: other users by
      rows that the event leaves alone, and the other owner of its DN. */
  lemma ResolveOthers(c: Cache, e: Event, refs: seq<Dn>, x: Id)
    requires Valid(c) && WritesUser(e) && x != e.user.id
    ensures x in UsersByDns(UserLookups(c, e), refs) <==>
              || x in Resolve(Unmapped(c.userDns, e.user.dn, e.user.id), refs)
              || (e.user.dn in refs && OtherOwner(c, e) == Some(x))
    ensures OtherOwner(c, e) == Some(x) ==> x !in Resolve(Unmapped(c.userDns, e.user.dn, e.user.id), refs)
  {
    hide ForeignKeys, UniqueKeys, OnePrimary, Resolve, Unmapped;
    UserLookupsUnmapped(c, e);
    ResolveSplit(UserLookups(c, e).userDns, c.users.Keys, e.user.dn, e.user.id, refs, x);
  }

  lemma UserLookupsUnmapped(c: Cache, e: Event)
    requires DnBijection(c.userDns, c.users.Keys) && WritesUser(e)
    ensures DnBijection(UserLookups(c, e).userDns, c.users.Keys) && UserLookups(c, e).users == c.users
    ensures Unmapped(UserLookups(c, e).userDns, e.user.dn, e.user.id) == Unmapped(c.userDns, e.user.dn, e.user.id)
  {
    UnmappedBijection(c.userDns, c.users.Keys, e.user.dn, e.user.id);
  }

  lemma ResolveSplit(dns: map<Dn, Id>, rows: set<Id>, dn: Dn, id: Id, refs: seq<Dn>, x: Id)
    requires DnBijection(dns, rows) && x != id
    ensures x in Resolve(dns, refs) <==> x in Resolve(Unmapped(dns, dn, id), refs) || (dn in refs && Maps(dns, dn, x))
    ensures x in Resolve(dns, refs) ==> x in rows
    ensures Maps(dns, dn, x) ==> x !in Resolve(Unmapped(dns, dn, id), refs)
  {
  }

  /** The pair of a user with itself after the update of the guardian table. */
  lemma SelfPairAfter(pairs: set<(Id, Id)>, u: Id, guardians: set<Id>, wards: set<Id>)
    ensures (u, u) in SyncGuardians(pairs, u, guardians, wards)
      <==> if wards == WardsOf(pairs, u) then u in guardians else u in wards
  {
    SelfPair(pairs, u);
    ReplaceGuardiansIff(pairs, u, guardians, (u, u));
    var afterGuardians := if guardians == GuardiansOf(pairs, u) then pairs else ReplaceGuardians(pairs, u, guardians);
    ReplaceGuardiansIff(afterGuardians, u, wards, (u, u));
  }

  lemma SelfPairIff(c: Cache, e: Event)
    requires Valid(c) && WritesUser(e) && TakesEffect(c, e)
    ensures (e.user.id, e.user.id) in Apply(c, e).guardians <==> SelfPaired(c, e)
  {
    hide Handle, Apply, TakesEffect, PairsAfter, SelfPaired;
    UserEventPairs(c, e);
    SelfPairOfUser(c, e);
  }

  lemma SelfPairOfUser(c: Cache, e: Event)
    requires Valid(c) && WritesUser(e)
    ensures (e.user.id, e.user.id) in PairsAfter(c, e) <==> SelfPaired(c, e)
  {
    var p := e.user;
    if p.id in c.users {
      SelfPairAfter(c.guardians, p.id, UsersByDns(UserLookups(c, e), p.guardians), UsersByDns(UserLookups(c, e), p.wards));
    } else {
      InsertedGuardianPairs(c, p, p.id);
      assert p.id !in UsersByDns(c, p.guardians);
    }
  }

  lemma UserGuardianSets(c: Cache, e: Event, x: Id)
    requires Valid(c) && WritesUser(e) && TakesEffect(c, e)
    ensures var others := Unmapped(c.userDns, e.user.dn, e.user.id); var next := Apply(c, e).guardians;
            && (x in GuardiansOf(next, e.user.id) <==>
                  if x == e.user.id then SelfPaired(c, e)
                  else x in Resolve(others, e.user.guardians) || (e.user.dn in e.user.guardians && OtherOwner(c, e) == Some(x)))
            && (x in WardsOf(next, e.user.id) <==>
                  if x == e.user.id then SelfPaired(c, e)
                  else x in Resolve(others, e.user.wards) || (e.user.dn in e.user.wards && OtherOwner(c, e) == Some(x)))
  {
    var p := e.user;
    hide Handle, Apply, TakesEffect, Valid, SelfPaired, OtherOwner, UsersByDns, Unmapped, Resolve;
    StoredPair(Apply(c, e).guardians, p.id, x);
    if x == p.id {
      SelfPairIff(c, e);
    } else {
      UserEventGuardians(c, e, x);
      ResolveOthers(c, e, p.guardians, x);
      ResolveOthers(c, e, p.wards, x);
    }
  }

  lemma SameLinks(c: Cache, d: Cache, p: UserPayload)
    requires c.schools == d.schools && c.groupDns == d.groupDns && SameGroupSchools(c, d)
    ensures UserLinks(c, p) == UserLinks(d, p)
  {
    assert GroupsByDns(c, p.groups) == GroupsByDns(d, p.groups);
    assert SchoolsNamed(c, p.schools) == SchoolsNamed(d, p.schools);
    UserLinksShape(c, p);
    UserLinksShape(d, p);
  }

  /** The slices of the tables that a written user owns. */
  lemma WrittenSlices(c: Cache, next: Cache, p: UserPayload)
    requires UserWritten(c, next, p)
    ensures ViewUser(next, p.id).row == Some(UserRow(p))
    ensures ViewUser(next, p.id).links == UserLinks(c, p)
    ensures ViewUser(next, p.id).memberships
         == map s | s in SchoolsNamed(c, p.schools) :: MembershipFor(c, p, SchoolsNamed(c, p.schools), s)
  {
    hide MembershipFor, UserLinks, UserRow, GuardiansOf, WardsOf;
    WrittenLinkSlice(c, next, p);
    UserMembershipsShape(c, p);
    var slice := ViewUser(next, p.id).memberships;
    forall s ensures s in slice <==> s in SchoolsNamed(c, p.schools) {
      UserWrittenMembership(c, next, p, s);
      if (p.id, s) in next.memberships {
        assert (p.id, s).1 in (set k | k in next.memberships && k.0 == p.id :: k.1);
      }
    }
    forall s | s in slice
      ensures slice[s] == MembershipFor(c, p, SchoolsNamed(c, p.schools), s)
    {
      UserWrittenMembership(c, next, p, s);
    }
  }

  lemma WrittenLinkSlice(c: Cache, next: Cache, p: UserPayload)
    requires UserWritten(c, next, p)
    ensures ViewUser(next, p.id).links == UserLinks(c, p)
  {
    hide UserRow, UserMemberships, SchoolsNamed, GroupsByDns;
    UserLinksShape(c, p);
  }

  lemma SameMembershipSlice(c: Cache, d: Cache, p: UserPayload)
    requires c.roles == d.roles && c.schools == d.schools
    ensures SchoolsNamed(c, p.schools) == SchoolsNamed(d, p.schools)
    ensures forall s :: s in SchoolsNamed(c, p.schools) ==>
              MembershipFor(c, p, SchoolsNamed(c, p.schools), s) == MembershipFor(d, p, SchoolsNamed(c, p.schools), s)
  {
    assert SchoolsNamed(c, p.schools) == SchoolsNamed(d, p.schools);
    var schools := SchoolsNamed(c, p.schools);
    assert PrimarySchool(c, schools, SchoolOuFromDn(p.dn)) == PrimarySchool(d, schools, SchoolOuFromDn(p.dn));
  }

  /** What two caches may still differ in: who else owns the event's DN, if the
      event lists it, and whether the user ends up its own guardian. */
  predicate SameSelfReferences(c: Cache, d: Cache, e: Event)
    requires WritesUser(e)
  {
    && (e.user.dn in e.user.guardians || e.user.dn in e.user.wards ==> OtherOwner(c, e) == OtherOwner(d, e))
    && (SelfPaired(c, e) <==> SelfPaired(d, e))
  }

  /** Whatever rows two caches held for the user before, even none, the event
      leaves the same user, memberships, groups, guardians and wards, exactly
      when they agree on its self references. */
  lemma UserRepairedIff(c: Cache, d: Cache, e: Event)
    requires Valid(c) && Valid(d) && WritesUser(e) && TakesEffect(c, e) && TakesEffect(d, e)
    requires SameUserReferences(c, d, e.user)
    ensures ViewUser(Apply(c, e), e.user.id) == ViewUser(Apply(d, e), e.user.id) <==> SameSelfReferences(c, d, e)
  {
    var p := e.user;
    UserSlicesRepaired(c, d, e);
    GuardianSlicesIff(c, d, e);
    hide Handle, Apply, TakesEffect, Valid, SameSelfReferences, GuardiansOf, WardsOf;
  }

  lemma GuardianSlicesIff(c: Cache, d: Cache, e: Event)
    requires Valid(c) && Valid(d) && WritesUser(e) && TakesEffect(c, e) && TakesEffect(d, e)
    requires Unmapped(c.userDns, e.user.dn, e.user.id) == Unmapped(d.userDns, e.user.dn, e.user.id)
    ensures GuardiansOf(Apply(c, e).guardians, e.user.id) == GuardiansOf(Apply(d, e).guardians, e.user.id)
         && WardsOf(Apply(c, e).guardians, e.user.id) == WardsOf(Apply(d, e).guardians, e.user.id)
      <==> SameSelfReferences(c, d, e)
  {
    hide Handle, Apply, TakesEffect, Valid, SelfPaired, OtherOwner, GuardiansOf, WardsOf, Unmapped, Resolve;
    if SameSelfReferences(c, d, e) {
      SlicesSame(c, d, e);
    } else if SelfPaired(c, e) != SelfPaired(d, e) {
      UserGuardianSets(c, e, e.user.id);
      UserGuardianSets(d, e, e.user.id);
    } else if OtherOwner(c, e).Some? {
      OwnersDiffer(c, d, e);
    } else {
      OwnersDiffer(d, c, e);
    }
  }

  lemma SlicesSame(c: Cache, d: Cache, e: Event)
    requires Valid(c) && Valid(d) && WritesUser(e) && TakesEffect(c, e) && TakesEffect(d, e)
    requires Unmapped(c.userDns, e.user.dn, e.user.id) == Unmapped(d.userDns, e.user.dn, e.user.id)
    requires SameSelfReferences(c, d, e)
    ensures GuardiansOf(Apply(c, e).guardians, e.user.id) == GuardiansOf(Apply(d, e).guardians, e.user.id)
    ensures WardsOf(Apply(c, e).guardians, e.user.id) == WardsOf(Apply(d, e).guardians, e.user.id)
  {
    var x, y := Apply(c, e).guardians, Apply(d, e).guardians;
    hide Handle, Apply, TakesEffect, Valid, SelfPaired, OtherOwner, GuardiansOf, WardsOf, Unmapped, Resolve;
    forall z
      ensures z in GuardiansOf(x, e.user.id) <==> z in GuardiansOf(y, e.user.id)
      ensures z in WardsOf(x, e.user.id) <==> z in WardsOf(y, e.user.id)
    {
      UserGuardianSets(c, e, z);
      UserGuardianSets(d, e, z);
    }
  }

  lemma OwnersDiffer(c: Cache, d: Cache, e: Event)
    requires Valid(c) && Valid(d) && WritesUser(e) && TakesEffect(c, e) && TakesEffect(d, e)
    requires Unmapped(c.userDns, e.user.dn, e.user.id) == Unmapped(d.userDns, e.user.dn, e.user.id)
    requires OtherOwner(c, e).Some? && OtherOwner(c, e) != OtherOwner(d, e)
    requires e.user.dn in e.user.guardians || e.user.dn in e.user.wards
    ensures GuardiansOf(Apply(c, e).guardians, e.user.id) != GuardiansOf(Apply(d, e).guardians, e.user.id)
         || WardsOf(Apply(c, e).guardians, e.user.id) != WardsOf(Apply(d, e).guardians, e.user.id)
  {
    var z := OtherOwner(c, e).value;
    assert z != e.user.id;
    hide Handle, Apply, TakesEffect, Valid, SelfPaired, OtherOwner, GuardiansOf, WardsOf, Unmapped, Resolve;
    ResolveOthers(c, e, e.user.guardians, z);
    ResolveOthers(c, e, e.user.wards, z);
    UserGuardianSets(c, e, z);
    UserGuardianSets(d, e, z);
  }

  /** The event refers to its user by neither the new nor a stored DN, or is one
      that does not see them. */
  ghost predicate NoSelfReference(c: Cache, e: Event)
    requires WritesUser(e)
  {
    var p := e.user;
    || (e.UserModify? && p.id in c.users)
    || forall d :: d in p.guardians || d in p.wards ==> d != p.dn && (d in c.userDns ==> c.userDns[d] != p.id)
  }

  /** Then nothing depends on the rows found. */
  lemma UserRepaired(c: Cache, d: Cache, e: Event)
    requires Valid(c) && Valid(d) && WritesUser(e) && TakesEffect(c, e) && TakesEffect(d, e)
    requires SameUserReferences(c, d, e.user) && NoSelfReference(c, e) && NoSelfReference(d, e)
    ensures ViewUser(Apply(c, e), e.user.id) == ViewUser(Apply(d, e), e.user.id)
  {
    NotSelfPaired(c, e);
    NotSelfPaired(d, e);
    hide Handle, Apply, Valid, TakesEffect, SelfPaired;
    UserRepairedIff(c, d, e);
  }

  lemma NotSelfPaired(c: Cache, e: Event)
    requires WritesUser(e) && NoSelfReference(c, e)
    ensures !SelfPaired(c, e)
    ensures e.user.dn in e.user.guardians || e.user.dn in e.user.wards ==> OtherOwner(c, e) == None
  {
    UnmappedResolves(c.userDns, e.user.dn, e.user.id, e.user.guardians);
    UnmappedResolves(c.userDns, e.user.dn, e.user.id, e.user.wards);
  }

  lemma UserSlicesRepaired(c: Cache, d: Cache, e: Event)
    requires Valid(c) && Valid(d) && WritesUser(e) && TakesEffect(c, e) && TakesEffect(d, e)
    requires SameUserReferences(c, d, e.user)
    ensures var x, y := ViewUser(Apply(c, e), e.user.id), ViewUser(Apply(d, e), e.user.id);
            x.row == y.row && x.memberships == y.memberships && x.links == y.links
  {
    var p := e.user;
    hide Valid, Handle, Apply, TakesEffect, UserWritten, MembershipFor, SchoolsNamed, UserLinks, UserRow, ViewUser,
      SameGroupSchools, Unmapped;
    UserEventWritten(c, e);
    UserEventWritten(d, e);
    SlicesAgree(c, d, Apply(c, e), Apply(d, e), p);
  }

  lemma SlicesAgree(c: Cache, d: Cache, x: Cache, y: Cache, p: UserPayload)
    requires UserWritten(c, x, p) && UserWritten(d, y, p)
    requires c.roles == d.roles && c.schools == d.schools && c.groupDns == d.groupDns && SameGroupSchools(c, d)
    ensures ViewUser(x, p.id).row == ViewUser(y, p.id).row
    ensures ViewUser(x, p.id).memberships == ViewUser(y, p.id).memberships
    ensures ViewUser(x, p.id).links == ViewUser(y, p.id).links
  {
    hide UserWritten, MembershipFor, SchoolsNamed, UserLinks, UserRow, ViewUser, SameGroupSchools;
    WrittenSlices(c, x, p);
    WrittenSlices(d, y, p);
    SameLinks(c, d, p);
    SameMembershipSlice(c, d, p);
  }

  /******* Groups *******/

  datatype GroupView = GroupView(
    row: Option<Group>, links: set<Link>, senderUsers: set<Id>, senderGroups: set<Id>)

  function LinksOfGroup(c: Cache, g: Id): set<Link> {
    set l | l in c.members && l.group == g
  }

  /** Everything the cache stores about one group. */
  function ViewGroup(c: Cache, g: Id): GroupView {
    GroupView(if g in c.groups then Some(c.groups[g]) else None,
              LinksOfGroup(c, g), SendersOf(c.senderUsers, g), SendersOf(c.senderGroups, g))
  }

  predicate SameGroupReferences(c: Cache, d: Cache, p: GroupPayload) {
    && c.roles == d.roles && c.schools == d.schools
    && c.users.Keys == d.users.Keys && c.userDns == d.userDns
    && c.memberships.Keys == d.memberships.Keys
    && Unmapped(c.groupDns, p.dn, p.id) == Unmapped(d.groupDns, p.dn, p.id)
  }

  /** A mail address that the event does not give, and the source id, stay. */
  function KeptEmail(c: Cache, p: GroupPayload): Option<string> {
    if p.email.None? && p.id in c.groups then c.groups[p.id].email else p.email
  }

  function KeptSource(c: Cache, p: GroupPayload): string {
    if p.id in c.groups then c.groups[p.id].sourceUid else CONNECTOR_SOURCE_UID
  }

  /** What the references resolve to, unsyncable ones skipped. */
  function Senders(dns: map<Dn, Id>, refs: seq<Dn>): set<Id> {
    set d | d in refs && !UnsyncableGroupDn(d) && d in dns :: dns[d]
  }

  /** Of these, the ones by the DN or by a row of the id. */
  function OwnSenders(dns: map<Dn, Id>, dn: Dn, id: Id, refs: seq<Dn>): set<Id> {
    set d | d in refs && !UnsyncableGroupDn(d) && d in dns && (d == dn || dns[d] == id) :: dns[d]
  }

  /** Sender groups by DNs that the event leaves alone. */
  function SendersByOthers(c: Cache, p: GroupPayload): set<Id> {
    Senders(Unmapped(c.groupDns, p.dn, p.id), p.senderGroups)
  }

  /** Sender groups by the event's DN or by one that is stored for its group. */
  function SendersByItself(c: Cache, e: Event): set<Id>
    requires WritesGroup(e)
  {
    OwnSenders(GroupLookups(c, e).groupDns, e.group.dn, e.group.id, e.group.senderGroups)
  }

  lemma SendersSplit(dns: map<Dn, Id>, rows: set<Id>, dn: Dn, id: Id, refs: seq<Dn>)
    requires DnBijection(dns, rows)
    ensures Senders(dns, refs) <= rows
    ensures Senders(dns, refs) == Senders(Unmapped(dns, dn, id), refs) + OwnSenders(dns, dn, id, refs)
    ensures Senders(Unmapped(dns, dn, id), refs) !! OwnSenders(dns, dn, id, refs)
  {
    hide UnsyncableGroupDn;
    var others := Unmapped(dns, dn, id);
    forall x
      ensures x in Senders(dns, refs) <==> x in Senders(others, refs) || x in OwnSenders(dns, dn, id, refs)
      ensures !(x in Senders(others, refs) && x in OwnSenders(dns, dn, id, refs))
    {
      if x in Senders(others, refs) {
        var d :| d in refs && !UnsyncableGroupDn(d) && d in others && others[d] == x;
        assert d in dns && dns[d] == x && d != dn && x != id;
      }
      if x in Senders(dns, refs) {
        var d :| d in refs && !UnsyncableGroupDn(d) && d in dns && dns[d] == x;
        assert d != dn && x != id ==> d in others && others[d] == x;
      }
    }
  }

  lemma GroupsAreSenders(c: Cache, refs: seq<Dn>)
    ensures GroupsByDns(c, refs) == Senders(c.groupDns, refs) * c.groups.Keys
  {
    hide UnsyncableGroupDn;
  }

  lemma LookupsUnmapped(c: Cache, e: Event)
    requires DnBijection(c.groupDns, c.groups.Keys) && WritesGroup(e)
    ensures DnBijection(GroupLookups(c, e).groupDns, c.groups.Keys) && GroupLookups(c, e).groups == c.groups
    ensures Unmapped(GroupLookups(c, e).groupDns, e.group.dn, e.group.id) == Unmapped(c.groupDns, e.group.dn, e.group.id)
  {
    UnmappedBijection(c.groupDns, c.groups.Keys, e.group.dn, e.group.id);
  }

  lemma SenderGroupsIff(c: Cache, e: Event)
    requires Valid(c) && WritesGroup(e)
    ensures GroupsByDns(GroupLookups(c, e), e.group.senderGroups) == SendersByOthers(c, e.group) + SendersByItself(c, e)
    ensures SendersByOthers(c, e.group) !! SendersByItself(c, e)
  {
    var p := e.group;
    assert DnBijection(c.groupDns, c.groups.Keys);
    hide Valid, Unmapped, DnBijection, Senders, OwnSenders, GroupsByDns, GroupLookups;
    LookupsUnmapped(c, e);
    SendersSplit(GroupLookups(c, e).groupDns, c.groups.Keys, p.dn, p.id, p.senderGroups);
    GroupsAreSenders(GroupLookups(c, e), p.senderGroups);
  }

  lemma ReplacedSenders(pairs: set<(Id, Id)>, g: Id, wanted: set<Id>)
    ensures SendersOf(ReplaceSenders(pairs, g, wanted), g) == wanted
    ensures (forall p :: p in pairs ==> p.0 != g) ==> SendersOf(pairs + (set x | x in wanted :: (g, x)), g) == wanted
  {
    var replaced, added := ReplaceSenders(pairs, g, wanted), pairs + (set x | x in wanted :: (g, x));
    forall x
      ensures x in SendersOf(replaced, g) <==> x in wanted
      ensures (forall p :: p in pairs ==> p.0 != g) ==> (x in SendersOf(added, g) <==> x in wanted)
    {
      if x in wanted {
        assert (g, x) in replaced && (g, x) in added;
        assert (g, x).1 in SendersOf(replaced, g) && (g, x).1 in SendersOf(added, g);
      }
    }
  }

  lemma GroupRowAfter(c: Cache, e: Event)
    requires WritesGroup(e) && TakesEffect(c, e)
    ensures var p := e.group;
            && p.id in Apply(c, e).groups
            && Apply(c, e).groups[p.id] == GroupRow(c, p, KeptEmail(c, p), KeptSource(c, p), SchoolAfter(c, p))
  {
    hide Handle, Apply, TakesEffect, FindSchool, SyncMembers, MembersByDns, LinksOf, ReplaceSenders, UsersByDns,
      GroupsByDns;
    GroupEventResult(c, e);
    if e.group.id in c.groups {
      UpdatedRowIs(c, e);
    }
  }

  lemma UpdatedRowIs(c: Cache, e: Event)
    requires WritesGroup(e) && e.group.id in c.groups
    ensures var p := e.group;
            UpdatedGroupRow(GroupLookups(c, e), p, FindSchool(c, GroupSchoolName(p)))
              == GroupRow(c, p, KeptEmail(c, p), KeptSource(c, p), SchoolAfter(c, p))
  {
    hide FindSchool;
  }

  lemma GroupSendersAfter(c: Cache, e: Event)
    requires Valid(c) && WritesGroup(e) && TakesEffect(c, e)
    ensures SendersOf(Apply(c, e).senderUsers, e.group.id) == UsersByDns(c, e.group.senderUsers)
    ensures SendersOf(Apply(c, e).senderGroups, e.group.id) == SendersByOthers(c, e.group) + SendersByItself(c, e)
  {
    hide Handle, Apply, FindSchool, UsersByDns, GroupsByDns, SendersOf, SendersByOthers, SendersByItself,
      UpdatedGroup, InsertedGroup, ReplaceSenders, UniqueKeys, OnePrimary, DnMaps;
    var p := e.group;
    var base := GroupLookups(c, e);
    SenderGroupsIff(c, e);
    ReplacedSenders(c.senderUsers, p.id, UsersByDns(c, p.senderUsers));
    ReplacedSenders(c.senderGroups, p.id, GroupsByDns(base, p.senderGroups));
    GroupEventResult(c, e);
    if p.id in c.groups {
      SendersWritten(c, base, p, FindSchool(c, GroupSchoolName(p)));
    } else {
      SendersInserted(c, p, FindSchool(c, GroupSchoolName(p)).value);
    }
  }

  lemma SendersWritten(c: Cache, base: Cache, p: GroupPayload, school: Option<Id>)
    requires p.id in base.groups && base == c.(groupDns := base.groupDns)
    ensures UpdatedGroup(base, p, school).senderUsers == ReplaceSenders(c.senderUsers, p.id, UsersByDns(c, p.senderUsers))
    ensures UpdatedGroup(base, p, school).senderGroups
         == ReplaceSenders(c.senderGroups, p.id, GroupsByDns(base, p.senderGroups))
  {
    assert UsersByDns(base, p.senderUsers) == UsersByDns(c, p.senderUsers);
  }

  lemma SendersInserted(c: Cache, p: GroupPayload, school: Id)
    requires ForeignKeys(c) && p.id !in c.groups
    ensures InsertedGroup(c, p, school).senderUsers == c.senderUsers + (set x | x in UsersByDns(c, p.senderUsers) :: (p.id, x))
    ensures InsertedGroup(c, p, school).senderGroups
         == c.senderGroups + (set x | x in GroupsByDns(c, p.senderGroups) :: (p.id, x))
    ensures (forall q :: q in c.senderUsers ==> q.0 != p.id) && (forall q :: q in c.senderGroups ==> q.0 != p.id)
  {
  }

  /** The members the event asks for, in the school the group will be in. */
  function AskedMembers(c: Cache, p: GroupPayload): set<Id>
    requires p.id in c.groups || FindSchool(c, GroupSchoolName(p)).Some?
  {
    MembersByDns(c, p.users, SchoolAfter(c, p))
  }

  /** The member list is stored already, so that its links are not touched. */
  predicate KeepsLinks(c: Cache, p: GroupPayload) {
    p.id in c.groups && WantedMembers(c, p) == LinkedUsers(c, p.id)
  }

  /** The school whose memberships new links go through. */
  function LinkSchool(c: Cache, p: GroupPayload): Id
    requires p.id in c.groups || FindSchool(c, GroupSchoolName(p)).Some?
  {
    if p.id in c.groups then c.groups[p.id].school else SchoolAfter(c, p)
  }

  /** The asked members that the event does not link. */
  function Lost(c: Cache, p: GroupPayload): set<Id>
    requires p.id in c.groups || FindSchool(c, GroupSchoolName(p)).Some?
  {
    if KeepsLinks(c, p) then {}
    else set u | u in AskedMembers(c, p) && (u, LinkSchool(c, p)) !in c.memberships
  }

  /** A link of an asked member that is not lost goes through this school. */
  ghost predicate LinksThrough(c: Cache, p: GroupPayload, u: Id, s: Id)
    requires p.id in c.groups || FindSchool(c, GroupSchoolName(p)).Some?
  {
    if KeepsLinks(c, p) then Link(p.id, u, s) in c.members else s == LinkSchool(c, p)
  }

  lemma GroupLinksAfter(c: Cache, e: Event, u: Id, s: Id)
    requires Valid(c) && WritesGroup(e) && TakesEffect(c, e)
    ensures var p := e.group;
            Link(p.id, u, s) in Apply(c, e).members
            <==> u in AskedMembers(c, p) && u !in Lost(c, p) && LinksThrough(c, p, u, s)
  {
    hide Handle, Apply, FindSchool, MembersByDns, SyncMembers, UpdatedGroup, InsertedGroup, UniqueKeys, OnePrimary, DnMaps;
    var p := e.group;
    GroupEventResult(c, e);
    if p.id in c.groups {
      UpdatedGroupMembers(c, e);
      SyncedLinks(c, p, u, s);
    } else {
      InsertedGroupLinks(c, p, FindSchool(c, GroupSchoolName(p)).value, u, s);
    }
  }

  lemma SyncedLinks(c: Cache, p: GroupPayload, u: Id, s: Id)
    requires p.id in c.groups
    ensures Link(p.id, u, s) in SyncMembers(c, p.id, WantedMembers(c, p))
      <==> u in AskedMembers(c, p) && u !in Lost(c, p) && LinksThrough(c, p, u, s)
  {
    hide FindSchool, MembersByDns;
    var wanted := WantedMembers(c, p);
    if wanted == LinkedUsers(c, p.id) {
      if Link(p.id, u, s) in c.members {
        assert Link(p.id, u, s).user in LinkedUsers(c, p.id);
      }
    } else {
      var school := c.groups[p.id].school;
      LinksOfIff(p.id, (set v | v in wanted && (v, school) in c.memberships), school, Link(p.id, u, s));
    }
  }

  lemma InsertedGroupLinks(c: Cache, p: GroupPayload, school: Id, u: Id, s: Id)
    requires ForeignKeys(c) && p.id !in c.groups && FindSchool(c, GroupSchoolName(p)) == Some(school)
    ensures Link(p.id, u, s) in InsertedGroup(c, p, school).members
      <==> u in AskedMembers(c, p) && u !in Lost(c, p) && LinksThrough(c, p, u, s)
  {
    hide FindSchool;
    LinksOfIff(p.id, MembersByDns(c, p.users, school), school, Link(p.id, u, s));
  }

  /** Two caches leave the event's open fields alike. */
  predicate SameKept(c: Cache, d: Cache, e: Event)
    requires WritesGroup(e) && TakesEffect(c, e) && TakesEffect(d, e)
  {
    var p := e.group;
    && KeptEmail(c, p) == KeptEmail(d, p) && KeptSource(c, p) == KeptSource(d, p)
    && SchoolAfter(c, p) == SchoolAfter(d, p) && SendersByItself(c, e) == SendersByItself(d, e)
  }

  /** They lose the same members, and link the others through the same schools. */
  ghost predicate SameLinked(c: Cache, d: Cache, e: Event)
    requires WritesGroup(e) && TakesEffect(c, e) && TakesEffect(d, e)
  {
    var p := e.group;
    && Lost(c, p) == Lost(d, p)
    && forall u, s :: u in AskedMembers(c, p) - Lost(c, p) ==> (LinksThrough(c, p, u, s) <==> LinksThrough(d, p, u, s))
  }

  /** Every asked member that is not lost is linked through some school. */
  lemma LinkedSomewhere(c: Cache, p: GroupPayload, u: Id)
    requires p.id in c.groups || FindSchool(c, GroupSchoolName(p)).Some?
    requires u in AskedMembers(c, p) - Lost(c, p)
    ensures exists s :: LinksThrough(c, p, u, s)
  {
    hide FindSchool, MembersByDns;
    if KeepsLinks(c, p) {
      LinkedUsersIff(c, p.id, u);
      var s :| Link(p.id, u, s) in c.members;
      assert LinksThrough(c, p, u, s);
    } else {
      assert LinksThrough(c, p, u, LinkSchool(c, p));
    }
  }

  lemma LinksOfGroupIff(c: Cache, d: Cache, g: Id)
    ensures LinksOfGroup(c, g) == LinksOfGroup(d, g)
      <==> forall u, s :: Link(g, u, s) in c.members <==> Link(g, u, s) in d.members
  {
    if forall u, s :: Link(g, u, s) in c.members <==> Link(g, u, s) in d.members {
      forall l: Link | l.group == g
        ensures l in LinksOfGroup(c, g) <==> l in LinksOfGroup(d, g)
      {
        assert l == Link(g, l.user, l.school);
      }
    } else {
      var u, s :| (Link(g, u, s) in c.members) != (Link(g, u, s) in d.members);
      assert (Link(g, u, s) in LinksOfGroup(c, g)) != (Link(g, u, s) in LinksOfGroup(d, g));
    }
  }

  lemma GroupLinksRepaired(c: Cache, d: Cache, e: Event)
    requires Valid(c) && Valid(d) && WritesGroup(e) && TakesEffect(c, e) && TakesEffect(d, e)
    requires AskedMembers(c, e.group) == AskedMembers(d, e.group)
    ensures LinksOfGroup(Apply(c, e), e.group.id) == LinksOfGroup(Apply(d, e), e.group.id) <==> SameLinked(c, d, e)
  {
    hide Handle, Apply, FindSchool, AskedMembers, Lost, LinksThrough, Valid, LinksOfGroup;
    var p := e.group;
    LinksOfGroupIff(Apply(c, e), Apply(d, e), p.id);
    forall u, s
      ensures Link(p.id, u, s) in Apply(c, e).members
        <==> u in AskedMembers(c, p) && u !in Lost(c, p) && LinksThrough(c, p, u, s)
      ensures Link(p.id, u, s) in Apply(d, e).members
        <==> u in AskedMembers(d, p) && u !in Lost(d, p) && LinksThrough(d, p, u, s)
    {
      GroupLinksAfter(c, e, u, s);
      GroupLinksAfter(d, e, u, s);
    }
    forall u | u in AskedMembers(c, p)
      ensures u !in Lost(c, p) ==> exists s :: LinksThrough(c, p, u, s)
      ensures u !in Lost(d, p) ==> exists s :: LinksThrough(d, p, u, s)
    {
      if u !in Lost(c, p) { LinkedSomewhere(c, p, u); }
      if u !in Lost(d, p) { LinkedSomewhere(d, p, u); }
    }
    LostAreAsked(c, p);
    LostAreAsked(d, p);
  }

  lemma LostAreAsked(c: Cache, p: GroupPayload)
    requires p.id in c.groups || FindSchool(c, GroupSchoolName(p)).Some?
    ensures Lost(c, p) <= AskedMembers(c, p)
  {
    hide FindSchool, AskedMembers;
  }

  /** Whatever rows two caches held for the group before, even none, the event
      leaves the same group, links and senders exactly when the caches agree on
      what it leaves open: a mail address it does not give, the source id, the
      stored school if its own is unknown, senders that are the group itself,
      the members it loses, and the schools the others are linked through. */
  lemma GroupRepaired(c: Cache, d: Cache, e: Event)
    requires Valid(c) && Valid(d) && WritesGroup(e) && TakesEffect(c, e) && TakesEffect(d, e)
    requires SameGroupReferences(c, d, e.group)
    ensures ViewGroup(Apply(c, e), e.group.id) == ViewGroup(Apply(d, e), e.group.id)
      <==> SameKept(c, d, e) && SameLinked(c, d, e)
  {
    hide Handle, Apply, FindSchool, MembersByDns, Valid, SameKept, SameLinked, SendersOf, SchoolAfter;
    var p := e.group;
    var x, y := Apply(c, e), Apply(d, e);
    RowAndSendersRepaired(c, d, e);
    assert ViewGroup(x, p.id).links == LinksOfGroup(x, p.id) && ViewGroup(y, p.id).links == LinksOfGroup(y, p.id);
    if ViewGroup(x, p.id).row == ViewGroup(y, p.id).row {
      SameRowSameAsked(c, d, e);
      GroupLinksRepaired(c, d, e);
    }
  }

  lemma SameRowSameAsked(c: Cache, d: Cache, e: Event)
    requires WritesGroup(e) && TakesEffect(c, e) && TakesEffect(d, e) && SameGroupReferences(c, d, e.group)
    requires ViewGroup(Apply(c, e), e.group.id).row == ViewGroup(Apply(d, e), e.group.id).row
    ensures AskedMembers(c, e.group) == AskedMembers(d, e.group)
  {
    hide Handle, Apply, FindSchool, SendersOf, SchoolAfter, RolesNamed, GuardianRolesNamed;
    GroupRowAfter(c, e);
    GroupRowAfter(d, e);
    SameReferenced(c, d, e.group, SchoolAfter(c, e.group));
  }

  lemma RowAndSendersRepaired(c: Cache, d: Cache, e: Event)
    requires Valid(c) && Valid(d) && WritesGroup(e) && TakesEffect(c, e) && TakesEffect(d, e)
    requires SameGroupReferences(c, d, e.group)
    ensures var x, y := ViewGroup(Apply(c, e), e.group.id), ViewGroup(Apply(d, e), e.group.id);
            x.row == y.row && x.senderUsers == y.senderUsers && x.senderGroups == y.senderGroups <==> SameKept(c, d, e)
  {
    hide Handle, Apply, FindSchool, MembersByDns, UsersByDns, Valid, TakesEffect, SendersByOthers, SendersByItself,
      KeptEmail, KeptSource, SchoolAfter, RolesNamed, GuardianRolesNamed, UdmProperties, SendersOf;
    var p := e.group;
    GroupRowAfter(c, e);
    GroupRowAfter(d, e);
    GroupSendersAfter(c, e);
    GroupSendersAfter(d, e);
    SenderGroupsIff(c, e);
    SenderGroupsIff(d, e);
    SameReferenced(c, d, p, 0);
  }

  /** While links stay within their groups' schools, one school decides. */
  lemma GroupRepairedSameSchool(c: Cache, d: Cache, e: Event)
    requires Valid(c) && Valid(d) && WritesGroup(e) && TakesEffect(c, e) && TakesEffect(d, e)
    requires SameGroupReferences(c, d, e.group) && SameSchool(c) && SameSchool(d)
    ensures var p := e.group;
            ViewGroup(Apply(c, e), p.id) == ViewGroup(Apply(d, e), p.id)
            <==> && SameKept(c, d, e) && Lost(c, p) == Lost(d, p)
                 && (AskedMembers(c, p) - Lost(c, p) != {} ==> LinkSchool(c, p) == LinkSchool(d, p))
  {
    hide Handle, Apply, FindSchool, MembersByDns, Valid, SameKept, ViewGroup, AskedMembers, Lost, LinksThrough, LinkSchool,
      SameSchool;
    var p := e.group;
    GroupRepaired(c, d, e);
    if SameKept(c, d, e) {
      SameKeptSameAsked(c, d, e);
      SameLinkedIff(c, d, e);
    }
  }

  lemma SameLinkedIff(c: Cache, d: Cache, e: Event)
    requires WritesGroup(e) && TakesEffect(c, e) && TakesEffect(d, e) && SameSchool(c) && SameSchool(d)
    requires AskedMembers(c, e.group) == AskedMembers(d, e.group)
    ensures var p := e.group;
            SameLinked(c, d, e)
            <==> && Lost(c, p) == Lost(d, p)
                 && (AskedMembers(c, p) - Lost(c, p) != {} ==> LinkSchool(c, p) == LinkSchool(d, p))
  {
    hide Handle, FindSchool, AskedMembers, Lost, LinksThrough, LinkSchool, SameSchool;
    var p := e.group;
    if Lost(c, p) == Lost(d, p) {
      var linked := AskedMembers(c, p) - Lost(c, p);
      forall u, s | u in linked
        ensures LinksThrough(c, p, u, s) <==> s == LinkSchool(c, p)
        ensures LinksThrough(d, p, u, s) <==> s == LinkSchool(d, p)
      {
        ThroughLinkSchool(c, p, u, s);
        ThroughLinkSchool(d, p, u, s);
      }
      if linked != {} && SameLinked(c, d, e) {
        var u :| u in linked;
        assert LinksThrough(c, p, u, LinkSchool(c, p));
      }
    }
  }

  lemma SameKeptSameAsked(c: Cache, d: Cache, e: Event)
    requires WritesGroup(e) && TakesEffect(c, e) && TakesEffect(d, e) && SameGroupReferences(c, d, e.group)
    requires SameKept(c, d, e)
    ensures AskedMembers(c, e.group) == AskedMembers(d, e.group)
  {
    hide Handle, FindSchool, SchoolAfter;
    SameReferenced(c, d, e.group, SchoolAfter(c, e.group));
  }

  lemma ThroughLinkSchool(c: Cache, p: GroupPayload, u: Id, s: Id)
    requires SameSchool(c) && (p.id in c.groups || FindSchool(c, GroupSchoolName(p)).Some?)
    requires u in AskedMembers(c, p) - Lost(c, p)
    ensures LinksThrough(c, p, u, s) <==> s == LinkSchool(c, p)
  {
    hide FindSchool, AskedMembers, Lost, WantedMembers, LinkedUsers;
    LinkedSomewhere(c, p, u);
    var t :| LinksThrough(c, p, u, t);
    if KeepsLinks(c, p) {
      assert t == c.groups[p.id].school;
    }
  }

  lemma SameReferenced(c: Cache, d: Cache, p: GroupPayload, school: Id)
    requires SameGroupReferences(c, d, p)
    ensures UsersByDns(c, p.senderUsers) == UsersByDns(d, p.senderUsers)
    ensures SendersByOthers(c, p) == SendersByOthers(d, p)
    ensures MembersByDns(c, p.users, school) == MembersByDns(d, p.users, school)
    ensures RolesNamed(c, p.roles) == RolesNamed(d, p.roles)
    ensures GuardianRolesNamed(c, p.memberRoles) == GuardianRolesNamed(d, p.memberRoles)
  {
  }
}
