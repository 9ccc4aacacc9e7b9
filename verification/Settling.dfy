/** When every event of a queue settles, told from the start cache and the
    queued events alone, before anything is handled. */
module Settling {
  import opened Text
  import opened Schema
  import opened Events
  import opened Sync
  import opened Integrity
  import opened Links
  import opened Redelivery
  import opened Effects
  import opened Consumer

  /******* What a run may bring about *******/

  /** The start or one of the events gives the DN to the user. */
  ghost predicate NamesUser(start: Cache, es: set<Event>, dn: Dn, u: Id) {
    Maps(start.userDns, dn, u) || exists e :: e in es && WritesUser(e) && e.user.id == u && e.user.dn == dn
  }

  ghost predicate NamesGroup(start: Cache, es: set<Event>, dn: Dn, g: Id) {
    Maps(start.groupDns, dn, g) || exists e :: e in es && WritesGroup(e) && e.group.id == g && e.group.dn == dn
  }

  ghost predicate NamesSchool(start: Cache, es: set<Event>, name: string, s: Id) {
    || (s in start.schools && start.schools[s].name == name)
    || exists e :: e in es && WritesSchool(e) && e.school.id == s && e.school.name == name
  }

  /** The start or one of the events puts the group into the school. */
  ghost predicate PutsGroup(start: Cache, es: set<Event>, g: Id, s: Id) {
    || (g in start.groups && start.groups[g].school == s)
    || exists e :: e in es && WritesGroup(e) && e.group.id == g && NamesSchool(start, es, GroupSchoolName(e.group), s)
  }

  /** Every entry comes from the start or from one of the events. */
  ghost predicate Traced(start: Cache, es: set<Event>, c: Cache) {
    && (forall d :: d in c.userDns ==> NamesUser(start, es, d, c.userDns[d]))
    && (forall d :: d in c.groupDns ==> NamesGroup(start, es, d, c.groupDns[d]))
    && (forall s :: s in c.schools ==> NamesSchool(start, es, c.schools[s].name, s))
    && (forall g :: g in c.groups ==> PutsGroup(start, es, g, c.groups[g].school))
  }

  lemma StartTraced(start: Cache, es: set<Event>)
    ensures Traced(start, es, start)
  {
  }

  lemma WrittenSchoolName(c: Cache, p: SchoolPayload, s: Id)
    requires p.id in c.schools && WriteSchool(c, p).Committed? && s in WriteSchool(c, p).cache.schools
    ensures s in c.schools
    ensures WriteSchool(c, p).cache.schools[s].name == if s == p.id then p.name else c.schools[s].name
  {
    hide SchoolFits, ValidSchool, UdmProperties, ServerHostname;
  }

  lemma SchoolEventNames(c: Cache, p: SchoolPayload, e: Event, s: Id)
    requires (e == SchoolCreate(p) || e == SchoolModify(p)) && s in Apply(c, e).schools
    ensures || (s in c.schools && c.schools[s].name == Apply(c, e).schools[s].name)
            || (p.id == s && p.name == Apply(c, e).schools[s].name)
  {
    hide SchoolFits, ValidSchool, UdmProperties, ServerHostname, WriteSchool;
    if p.id in c.schools && Handle(c, e).Committed? {
      WrittenSchoolName(if e.SchoolCreate? then c else UnmapSchool(c, p), p, s);
    }
  }

  lemma ServersKeepNames(c: Cache, kind: ServerKind, pattern: string, hosts: set<string>, missingOk: bool, s: Id)
    requires SetServers(c, kind, pattern, hosts, missingOk).Committed?
    requires s in SetServers(c, kind, pattern, hosts, missingOk).cache.schools
    ensures s in c.schools
    ensures SetServers(c, kind, pattern, hosts, missingOk).cache.schools[s].name == c.schools[s].name
  {
    hide SchoolFits, ValidSchool, GlobMatchesCi;
  }

  lemma OtherEventSchools(c: Cache, e: Event, s: Id)
    requires !WritesUser(e) && !WritesGroup(e) && s in Apply(c, e).schools
    ensures var name := Apply(c, e).schools[s].name;
            || (s in c.schools && c.schools[s].name == name)
            || (WritesSchool(e) && e.school.id == s && e.school.name == name)
  {
    if WritesSchool(e) {
      hide Handle, Apply;
      SchoolEventNames(c, e.school, e, s);
    } else {
      hide SetServers, HandleUserDelete, HandleGroupDelete, HandleUserCreate, HandleUserModify, HandleGroupCreate,
        HandleGroupModify, HandleSchoolCreate, HandleSchoolModify;
      match e
      case HostGroupSet(kind, name, hosts) =>
        var servers := set h | h in hosts :: HostName(h);
        if SetServers(c, kind, name, servers, false).Committed? {
          ServersKeepNames(c, kind, name, servers, false, s);
        }
      case HostGroupDelete(kind, name) =>
        if SetServers(c, kind, name, {}, true).Committed? {
          ServersKeepNames(c, kind, name, {}, true, s);
        }
      case UserDelete(_) => DeletesKeepSchools(c, e);
      case GroupDelete(_) => DeletesKeepSchools(c, e);
      case SchoolDelete(_) =>
    }
  }

  lemma DeletesKeepSchools(c: Cache, e: Event)
    requires e.UserDelete? || e.GroupDelete?
    ensures Apply(c, e).schools == c.schools
  {
  }

  lemma WritesKeepSchools(c: Cache, e: Event)
    requires WritesUser(e) || WritesGroup(e)
    ensures Apply(c, e).schools == c.schools
  {
    hide Handle, Apply, TakesEffect, UserMemberships, UserLinks, SyncGuardians, UsersByDns, UserRow, SetMapping, Unmapped,
      FindSchool, SyncMembers, MembersByDns, LinksOf, ReplaceSenders, GroupsByDns, GroupRow, UpdatedGroupRow;
    if WritesUser(e) {
      UserEventResult(c, e);
    } else {
      GroupEventResult(c, e);
    }
  }

  lemma GroupEventSchool(c: Cache, e: Event, g: Id)
    requires WritesGroup(e) && g in Apply(c, e).groups
    ensures var school := Apply(c, e).groups[g].school;
            || (g in c.groups && c.groups[g].school == school)
            || (e.group.id == g && FindSchool(c, GroupSchoolName(e.group)) == Some(school))
  {
    if g == e.group.id {
      GroupEventOwnSchool(c, e);
    } else {
      GroupEventFrame(c, e, g);
    }
  }

  lemma GroupEventOwnSchool(c: Cache, e: Event)
    requires WritesGroup(e) && e.group.id in Apply(c, e).groups
    ensures var school := Apply(c, e).groups[e.group.id].school;
            || (e.group.id in c.groups && c.groups[e.group.id].school == school)
            || FindSchool(c, GroupSchoolName(e.group)) == Some(school)
  {
    hide Handle, Apply, FindSchool, InsertedGroup, UpdatedGroup;
    GroupEventResult(c, e);
    if TakesEffect(c, e) {
      GroupEventRow(c, e);
    }
  }

  /** Where an entry of the cache comes from, table by table. */
  lemma SchoolNameAfter(c: Cache, e: Event, s: Id)
    requires s in Apply(c, e).schools
    ensures var name := Apply(c, e).schools[s].name;
            || (s in c.schools && c.schools[s].name == name)
            || (WritesSchool(e) && e.school.id == s && e.school.name == name)
  {
    hide Handle, Apply;
    if WritesUser(e) || WritesGroup(e) {
      WritesKeepSchools(c, e);
    } else {
      OtherEventSchools(c, e, s);
    }
  }

  lemma GroupSchoolAfter(c: Cache, e: Event, g: Id)
    requires g in Apply(c, e).groups
    ensures var school := Apply(c, e).groups[g].school;
            || (g in c.groups && c.groups[g].school == school)
            || (WritesGroup(e) && e.group.id == g && FindSchool(c, GroupSchoolName(e.group)) == Some(school))
  {
    hide Handle, Apply, FindSchool;
    if WritesUser(e) {
      UserEventTables(c, e);
    } else if WritesGroup(e) {
      GroupEventSchool(c, e, g);
    } else if e.SchoolCreate? || e.SchoolModify? || e.HostGroupSet? || e.HostGroupDelete? {
      SchoolTablesOnly(c, e);
    } else {
      DeletesKeepGroups(c, e);
    }
  }

  lemma DeletesKeepGroups(c: Cache, e: Event)
    requires e.UserDelete? || e.GroupDelete? || e.SchoolDelete?
    ensures forall g :: g in Apply(c, e).groups ==> g in c.groups && Apply(c, e).groups[g] == c.groups[g]
  {
  }

  lemma TracedStep(start: Cache, es: set<Event>, c: Cache, e: Event)
    requires Valid(c) && Traced(start, es, c) && e in es
    ensures Traced(start, es, Apply(c, e))
  {
    hide Apply, FindSchool;
    var next := Apply(c, e);
    forall d | d in next.userDns ensures NamesUser(start, es, d, next.userDns[d]) {
      UserMapsIff(c, e, d, next.userDns[d]);
    }
    forall d | d in next.groupDns ensures NamesGroup(start, es, d, next.groupDns[d]) {
      GroupMapsIff(c, e, d, next.groupDns[d]);
    }
    forall s | s in next.schools ensures NamesSchool(start, es, next.schools[s].name, s) {
      SchoolNameAfter(c, e, s);
    }
    forall g | g in next.groups ensures PutsGroup(start, es, g, next.groups[g].school) {
      GroupSchoolAfter(c, e, g);
      if WritesGroup(e) && FindSchool(c, GroupSchoolName(e.group)) == Some(next.groups[g].school) {
        FindSchoolIff(c, GroupSchoolName(e.group), next.groups[g].school);
      }
    }
  }

  /** Whichever of the events are handled, in whatever order and how often. */
  lemma {:induction false} RunTraced(start: Cache, es: set<Event>, events: seq<Event>)
    requires Valid(start) && forall e :: e in events ==> e in es
    ensures Traced(start, es, Run(start, events))
    decreases |events|
  {
    hide Traced, Valid, Apply;
    if events == [] {
      StartTraced(start, es);
    } else {
      var n := |events| - 1;
      RunTraced(start, es, events[..n]);
      RunKeepsValid(start, events[..n]);
      TracedStep(start, es, Run(start, events[..n]), events[n]);
    }
  }

  /******* Events that settle wherever they come *******/

  /** The group is put into one school only. */
  ghost predicate StaysPut(start: Cache, es: set<Event>, p: GroupPayload) {
    forall s, t :: NamesSchool(start, es, GroupSchoolName(p), s) && PutsGroup(start, es, p.id, t) ==> s == t
  }

  ghost predicate Harmless(start: Cache, es: set<Event>, e: Event) {
    match e
    case UserCreate(p) => forall d :: d in p.guardians || d in p.wards ==> !NamesUser(start, es, d, p.id)
    case UserModify(p) =>
      p.dn in p.guardians || p.dn in p.wards ==> forall u :: NamesUser(start, es, p.dn, u) ==> u == p.id
    case GroupCreate(p) => StaysPut(start, es, p) && SendersSettle(p)
    case GroupModify(p) =>
      StaysPut(start, es, p) && (SendersSettle(p) || forall g :: NamesGroup(start, es, p.dn, g) ==> g == p.id)
    case _ => true
  }

  ghost predicate AllHarmless(start: Cache, es: set<Event>) {
    forall e :: e in es ==> Harmless(start, es, e)
  }

  lemma HarmlessUser(start: Cache, es: set<Event>, c: Cache, e: Event)
    requires Valid(c) && Traced(start, es, c) && e in es && WritesUser(e) && Harmless(start, es, e)
    ensures Settles(c, e)
  {
    var p := e.user;
    if e.UserCreate? {
      assert NamesUser(start, es, p.dn, p.id);
      assert p.id !in UsersByDns(c, p.guardians);
      assert p.id !in UsersByDns(c, p.wards);
    } else if p.dn in c.userDns {
      assert NamesUser(start, es, p.dn, c.userDns[p.dn]);
    }
  }

  /** A stored group that is put into one school only is in its target school. */
  lemma StaysInSchool(start: Cache, es: set<Event>, c: Cache, p: GroupPayload)
    requires UniqueSchools(c.schools) && Traced(start, es, c) && StaysPut(start, es, p) && p.id in c.groups
    ensures TargetSchool(c, p) == c.groups[p.id].school
    ensures !LosesMembers(c, p.id, WantedMembers(c, p))
  {
    var found := FindSchool(c, GroupSchoolName(p));
    if found.Some? {
      FindSchoolIff(c, GroupSchoolName(p), found.value);
      assert PutsGroup(start, es, p.id, c.groups[p.id].school);
    }
  }

  lemma HarmlessGroup(start: Cache, es: set<Event>, c: Cache, e: Event)
    requires Valid(c) && Traced(start, es, c) && e in es && WritesGroup(e) && Harmless(start, es, e)
    ensures Settles(c, e)
  {
    var p := e.group;
    if p.id in c.groups {
      StaysInSchool(start, es, c, p);
    } else if p.dn in c.groupDns {
      assert NamesGroup(start, es, p.dn, c.groupDns[p.dn]);
    }
    hide Valid, LosesMembers, WantedMembers, NamesSchool, PutsGroup, StaysPut;
  }

  lemma HarmlessSettles(start: Cache, es: set<Event>, c: Cache, e: Event)
    requires Valid(c) && Traced(start, es, c) && e in es && Harmless(start, es, e)
    ensures Settles(c, e)
  {
    if WritesUser(e) {
      HarmlessUser(start, es, c, e);
    } else if WritesGroup(e) {
      HarmlessGroup(start, es, c, e);
    }
  }

  /******* The queue *******/

  function EventsIn(queue: seq<Message>): set<Event> {
    set m | m in queue && Carries(m) :: m.body.event
  }

  lemma {:induction false} HandledComeFromQueue(queue: seq<Message>, fates: seq<Fate>)
    requires |fates| <= |queue|
    requires forall i :: 0 <= i < |fates| && fates[i].Handled? ==> Carries(queue[i])
    ensures forall e :: e in HandledEvents(queue, fates) ==> e in EventsIn(queue)
    decreases |fates|
  {
    hide IsRelevant;
    if fates != [] {
      HandledComeFromQueue(queue, fates[..|fates| - 1]);
    }
  }

  lemma SettlesAtEach(s: State, faults: seq<Fault>, k: nat, maxDeliveries: int)
    requires Valid(s.cache) && AllHarmless(s.cache, EventsIn(s.queue)) && k < |faults|
    ensures SettlesAfter(s, faults, k, maxDeliveries)
  {
    hide Valid, Settles, Harmless, IsRelevant, Handle, Observations, Run, Traced, NamesUser;
    var o := Observations(s, faults[..k], maxDeliveries);
    ObservationsOfRun(s, faults[..k], maxDeliveries);
    var events := HandledEvents(s.queue, o.fates);
    var base := Run(s.cache, events);
    HandledComeFromQueue(s.queue, o.fates);
    RunTraced(s.cache, EventsIn(s.queue), events);
    RunKeepsValid(s.cache, events);
    if o.state.queue != [] && Carries(o.state.queue[0]) {
      var m := o.state.queue[0];
      assert m == s.queue[|o.fates|];
      assert m.body.event in EventsIn(s.queue);
      HarmlessSettles(s.cache, EventsIn(s.queue), base, m.body.event);
    }
  }

  /** Whatever the faults are, a queue of harmless events settles. */
  lemma HarmlessQueueSettles(s: State, faults: seq<Fault>, maxDeliveries: int)
    requires Valid(s.cache) && AllHarmless(s.cache, EventsIn(s.queue))
    ensures EverySettles(s, faults, maxDeliveries)
  {
    hide Valid, AllHarmless, SettlesAfter;
    forall k | 0 <= k < |faults| ensures SettlesAfter(s, faults, k, maxDeliveries) {
      SettlesAtEach(s, faults, k, maxDeliveries);
    }
  }

  /** A queue of harmless events, drained under any faults, leaves the cache
      that handling each message that was not dropped or skipped once leaves. */
  lemma HarmlessQueueExactlyOnce(s: State, faults: seq<Fault>, maxDeliveries: int)
    requires Valid(s.cache) && s.delivered == 0 && AllHarmless(s.cache, EventsIn(s.queue))
    requires CountAnswered(faults) >= |s.queue| * Budget(maxDeliveries)
    ensures var o := Observations(s, faults, maxDeliveries);
            && FatesFit(s.queue, o) && |o.fates| == |s.queue|
            && Deliveries(s, faults, maxDeliveries).queue == []
            && Deliveries(s, faults, maxDeliveries).cache == Run(s.cache, HandledEvents(s.queue, o.fates))
  {
    hide Valid, AllHarmless, EverySettles, CountAnswered, Observations, Deliveries, Run, HandledEvents, Handle;
    HarmlessQueueSettles(s, faults, maxDeliveries);
    AtLeastOnceIsExactlyOnce(s, faults, maxDeliveries);
    Drains(s, faults, maxDeliveries);
  }
}
