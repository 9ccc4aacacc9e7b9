/** From the queue to the cache: faults, redelivery and reordering together. */
module EndToEnd {
  import opened Schema
  import opened Events
  import opened Sync
  import opened Links
  import opened Convergence
  import opened Consumer
  import opened Settling

  /** A drained queue leaves the cache with exactly the links of the directory,
      whatever was killed, redelivered or dropped on the way, provided the
      handled events include every object's last one. */
  lemma DrainedQueueConverges(s: State, faults: seq<Fault>, maxDeliveries: int, dir: Directory, handled: seq<Event>)
    requires Valid(s.cache) && s.delivered == 0 && EverySettles(s, faults, maxDeliveries)
    requires CountAnswered(faults) >= |s.queue| * Budget(maxDeliveries)
    requires FatesFit(s.queue, Observations(s, faults, maxDeliveries))
    requires handled == HandledEvents(s.queue, Observations(s, faults, maxDeliveries).fates)
    requires SchoolsFixed(s.cache, handled) && Delivered(s.cache, handled, dir)
    requires MirrorConsistent(dir) && EarlierKnown(s.cache, handled, dir) && LastEventMovesNoGroup(s.cache, handled, dir)
    ensures var end := Deliveries(s, faults, maxDeliveries);
            && end.queue == []
            && (forall g, u :: g in dir.groups && u in dir.users ==>
                  (Linked(end.cache, g, u) <==> DirectoryLists(end.cache, dir, g, u)))
            && (forall u, v :: u in dir.users && v in dir.users && u != v ==>
                  ((u, v) in end.cache.guardians <==> dir.users[v].dn in dir.users[u].wards))
  {
    AtLeastOnceIsExactlyOnce(s, faults, maxDeliveries);
    Drains(s, faults, maxDeliveries);
    EventualConsistency(s.cache, handled, dir);
    CacheOfDrained(s, faults, maxDeliveries, handled);
    hide *;
  }

  lemma CacheOfDrained(s: State, faults: seq<Fault>, maxDeliveries: int, handled: seq<Event>)
    requires Valid(s.cache) && EverySettles(s, faults, maxDeliveries)
    requires FatesFit(s.queue, Observations(s, faults, maxDeliveries))
    requires handled == HandledEvents(s.queue, Observations(s, faults, maxDeliveries).fates)
    requires Deliveries(s, faults, maxDeliveries).queue == []
    ensures Deliveries(s, faults, maxDeliveries).cache == Run(s.cache, handled)
  {
    AtLeastOnceIsExactlyOnce(s, faults, maxDeliveries);
    hide Valid, Run, HandledEvents, Observations, Deliveries, EverySettles, Handle, Apply;
    var o := Observations(s, faults, maxDeliveries);
    assert !o.committed;
  }

  /** The same from what is known before anything is handled. */
  lemma HarmlessQueueConverges(s: State, faults: seq<Fault>, maxDeliveries: int, dir: Directory, handled: seq<Event>)
    requires Valid(s.cache) && s.delivered == 0 && AllHarmless(s.cache, EventsIn(s.queue))
    requires CountAnswered(faults) >= |s.queue| * Budget(maxDeliveries)
    requires FatesFit(s.queue, Observations(s, faults, maxDeliveries))
    requires handled == HandledEvents(s.queue, Observations(s, faults, maxDeliveries).fates)
    requires SchoolsFixed(s.cache, handled) && Delivered(s.cache, handled, dir)
    requires MirrorConsistent(dir) && EarlierKnown(s.cache, handled, dir)
    ensures var end := Deliveries(s, faults, maxDeliveries);
            && end.queue == []
            && (forall g, u :: g in dir.groups && u in dir.users ==>
                  (Linked(end.cache, g, u) <==> DirectoryLists(end.cache, dir, g, u)))
            && (forall u, v :: u in dir.users && v in dir.users && u != v ==>
                  ((u, v) in end.cache.guardians <==> dir.users[v].dn in dir.users[u].wards))
  {
    hide *;
    HarmlessQueueSettles(s, faults, maxDeliveries);
    HarmlessMovesNoGroup(s, faults, maxDeliveries, dir, handled);
    DrainedQueueConverges(s, faults, maxDeliveries, dir, handled);
  }

  /** Harmless group events leave each group where it is. */
  lemma HarmlessMovesNoGroup(s: State, faults: seq<Fault>, maxDeliveries: int, dir: Directory, handled: seq<Event>)
    requires Valid(s.cache) && AllHarmless(s.cache, EventsIn(s.queue))
    requires FatesFit(s.queue, Observations(s, faults, maxDeliveries))
    requires handled == HandledEvents(s.queue, Observations(s, faults, maxDeliveries).fates)
    requires Delivered(s.cache, handled, dir)
    ensures LastEventMovesNoGroup(s.cache, handled, dir)
  {
    hide Valid, Traced, Observations, HandledEvents, IsRelevant, Run, Handle, TargetSchool;
    var es := EventsIn(s.queue);
    HandledComeFromQueue(s.queue, Observations(s, faults, maxDeliveries).fates);
    forall g | g in dir.groups && g in CacheBefore(s.cache, handled, dir.groupLast[g]).groups
      ensures var b := CacheBefore(s.cache, handled, dir.groupLast[g]);
              b.groups[g].school == TargetSchool(b, dir.groups[g])
    {
      var j := dir.groupLast[g];
      assert LastGroupEvent(s.cache, handled, j, dir.groups[g]);
      RunTraced(s.cache, es, handled[..j]);
      CacheValid(s.cache, handled, j);
      GroupIsInTarget(s.cache, es, CacheBefore(s.cache, handled, j), handled[j]);
    }
  }

  lemma GroupIsInTarget(start: Cache, es: set<Event>, c: Cache, e: Event)
    requires Valid(c) && Traced(start, es, c) && AllHarmless(start, es) && e in es && WritesGroup(e)
    requires e.group.id in c.groups
    ensures TargetSchool(c, e.group) == c.groups[e.group.id].school
  {
    assert Harmless(start, es, e);
    StaysInSchool(start, es, c, e.group);
  }
}
