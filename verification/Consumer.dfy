/** The queue consumer: what is relevant, what is acknowledged, and when the
    process crashes to have an event delivered again. */
module Consumer {
  import opened Text
  import opened Schema
  import opened Events
  import opened Sync
  import opened Integrity
  import opened Redelivery
  import opened SyncManager

  /******* Relevance *******/

  datatype Topic = Users | Groups | Ous | OtherTopic

  /** One side of a change as far as relevance looks at it. */
  datatype Side = Side(roles: Option<seq<string>>, name: string)

  datatype Body = Malformed | Unrecognised | WellFormed(event: Event)

  datatype Message = Message(topic: Topic, before: Option<Side>, after: Option<Side>, body: Body)

  predicate StartsWith(s: string, prefix: string) {
    |prefix| <= |s| && s[..|prefix|] == prefix
  }

  /** `OU…-DC-Edukativnetz` or `OU…-DC-Verwaltungsnetz`, matched from the start only. */
  predicate HostGroupName(name: string) {
    StartsWith(name, "OU")
    && exists i :: 2 <= i <= |name| && (forall j :: 2 <= j < i ==> name[j] != '\n')
                   && (StartsWith(name[i..], "-DC-Edukativnetz") || StartsWith(name[i..], "-DC-Verwaltungsnetz"))
  }

  predicate Accepted(topic: Topic, roles: seq<string>, name: string) {
    match topic
    case Groups =>
      (exists r :: r in roles && (StartsWith(r, "school_class") || StartsWith(r, "workgroup"))) || HostGroupName(name)
    case Users => !exists r :: r in roles && StartsWith(r, "exam_user:")
    case Ous => true
    case OtherTopic => false
  }

  predicate IsRelevant(m: Message) {
    match (m.before, m.after)
    case (Some(Side(Some(roles), name)), None) => Accepted(m.topic, roles, name)
    case (None, Some(Side(Some(roles), name))) => Accepted(m.topic, roles, name)
    case (Some(Side(Some(_), _)), Some(Side(Some(roles), name))) => Accepted(m.topic, roles, name)
    case _ => false
  }

  /** The side that counts is the newer one, and every side there is has to
      carry roles: an object that only now gains its roles is skipped. */
  lemma RelevantIff(m: Message)
    ensures IsRelevant(m) <==>
              (&& (m.before.Some? || m.after.Some?)
               && (m.before.Some? ==> m.before.value.roles.Some?)
               && (m.after.Some? ==> m.after.value.roles.Some?)
               && var newest := if m.after.Some? then m.after.value else m.before.value;
                  Accepted(m.topic, newest.roles.value, newest.name))
  {
    match (m.before, m.after)
    case (Some(b), Some(a)) =>
      if b.roles.Some? && a.roles.Some? { assert b == Side(Some(b.roles.value), b.name); }
    case _ =>
  }

  /** A school class, a work group, or the host group of a school's servers. */
  ghost predicate IsHostGroup(name: string) {
    exists school, kind, rest ::
      name == "OU" + school + "-DC-" + kind + rest && kind in {"Edukativnetz", "Verwaltungsnetz"} && '\n' !in school
  }

  /** Both sides that there are carry roles, and the newer one is of a kind that
      is cached. */
  ghost predicate IsForTheCache(m: Message) {
    && (m.before.Some? || m.after.Some?)
    && (m.before.Some? ==> m.before.value.roles.Some?)
    && (m.after.Some? ==> m.after.value.roles.Some?)
    && var newest := if m.after.Some? then m.after.value else m.before.value;
       match m.topic
       case Groups =>
         || (exists r :: r in newest.roles.value && ("school_class" <= r || "workgroup" <= r))
         || IsHostGroup(newest.name)
       case Users => forall r :: r in newest.roles.value ==> !("exam_user:" <= r)
       case Ous => true
       case OtherTopic => false
  }

  lemma HostGroupIff(name: string)
    ensures HostGroupName(name) <==> IsHostGroup(name)
  {
    hide StartsWith;
    KindsAre();
    if HostGroupName(name) {
      OuPrefix(name);
      var i :| 2 <= i <= |name| && (forall j :: 2 <= j < i ==> name[j] != '\n')
               && (StartsWith(name[i..], "-DC-Edukativnetz") || StartsWith(name[i..], "-DC-Verwaltungsnetz"));
      var kind := if StartsWith(name[i..], "-DC-Edukativnetz") then "Edukativnetz" else "Verwaltungsnetz";
      HostGroupFrom(name, i, kind);
    }
    if IsHostGroup(name) {
      var school, kind, rest :|
        name == "OU" + school + "-DC-" + kind + rest && kind in {"Edukativnetz", "Verwaltungsnetz"} && '\n' !in school;
      HostGroupParts(name, school, kind, rest);
    }
  }

  lemma KindsAre()
    ensures "-DC-" + "Edukativnetz" == "-DC-Edukativnetz" && "-DC-" + "Verwaltungsnetz" == "-DC-Verwaltungsnetz"
  {
  }

  lemma OuPrefix(name: string)
    ensures StartsWith(name, "OU") ==> |name| >= 2 && name[..2] == "OU"
  {
  }

  lemma HostGroupFrom(name: string, i: nat, kind: string)
    requires 2 <= i <= |name| && name[..2] == "OU" && (forall j :: 2 <= j < i ==> name[j] != '\n')
    requires kind in {"Edukativnetz", "Verwaltungsnetz"} && StartsWith(name[i..], "-DC-" + kind)
    ensures IsHostGroup(name)
  {
    var school, prefix := name[2..i], "-DC-" + kind;
    var rest := name[i..][|prefix|..];
    hide StartsWith;
    StartsWithIff(name[i..], prefix);
    assert name[i..] == prefix + rest;
    assert name == "OU" + school + prefix + rest;
    assert "OU" + school + prefix + rest == "OU" + school + "-DC-" + kind + rest;
  }

  lemma HostGroupParts(name: string, school: string, kind: string, rest: string)
    requires name == "OU" + school + "-DC-" + kind + rest && kind in {"Edukativnetz", "Verwaltungsnetz"} && '\n' !in school
    ensures HostGroupName(name)
  {
    hide StartsWith;
    var i, prefix := 2 + |school|, "-DC-" + kind;
    assert forall j :: 2 <= j < i ==> name[j] == school[j - 2];
    assert name[i..] == prefix + rest;
    StartsWithIff(name, "OU");
    StartsWithIff(name[i..], prefix);
    KindsAre();
  }

  lemma StartsWithIff(s: string, prefix: string)
    ensures StartsWith(s, prefix) <==> prefix <= s
  {
  }

  /** Exactly these messages are handled; the others are skipped. */
  lemma RelevantExactly(m: Message)
    ensures IsRelevant(m) <==> IsForTheCache(m)
  {
    hide HostGroupName, StartsWith, IsHostGroup;
    RelevantIff(m);
    forall s, prefix ensures StartsWith(s, prefix) <==> prefix <= s {
      StartsWithIff(s, prefix);
    }
    forall name ensures HostGroupName(name) <==> IsHostGroup(name) {
      HostGroupIff(name);
    }
  }

  /** The event a message makes the handler handle, if any. */
  predicate Carries(m: Message) {
    IsRelevant(m) && m.body.WellFormed?
  }

  /******* One delivery *******/

  /** What the environment does to one delivery. */
  datatype Fault =
    | NoFault
    | Raises             // the handler fails for a transient reason and its transaction rolls back
    | Declines           // the handler reports the event as not handled
    | KilledBeforeCommit
    | KilledBeforeAck

  /** `delivered` counts the earlier deliveries of the first message. */
  datatype State = State(cache: Cache, queue: seq<Message>, delivered: nat)

  const DEFAULT_MAX_DELIVERIES := 3

  function Acknowledged(s: State): State
    requires s.queue != []
  {
    State(s.cache, s.queue[1..], 0)
  }

  function Unacknowledged(s: State): State {
    s.(delivered := s.delivered + 1)
  }

  predicate CommitsNow(s: State, f: Fault) {
    s.queue != [] && Carries(s.queue[0]) && (f == NoFault || f == KilledBeforeAck)
    && Handle(s.cache, s.queue[0].body.event).Committed?
  }

  /** The first message is removed from the queue. */
  predicate AcknowledgesNow(s: State, f: Fault, maxDeliveries: int) {
    && s.queue != []
    && !f.KilledBeforeCommit? && !f.KilledBeforeAck?
    && (Carries(s.queue[0]) ==>
          !f.Declines? && (CommitsNow(s, f) || s.delivered + 1 >= maxDeliveries))
  }

  function Deliver(s: State, f: Fault, maxDeliveries: int): State {
    if s.queue == [] then s
    else
      var after := if CommitsNow(s, f) then s.(cache := Apply(s.cache, s.queue[0].body.event)) else s;
      if AcknowledgesNow(s, f, maxDeliveries) then Acknowledged(after) else Unacknowledged(after)
  }

  function Deliveries(s: State, faults: seq<Fault>, maxDeliveries: int): State
    decreases |faults|
  {
    if faults == [] then s
    else Deliver(Deliveries(s, faults[..|faults| - 1], maxDeliveries), faults[|faults| - 1], maxDeliveries)
  }

  class ConsumerModule {
    const manager: SynchronizationManager
    const maxDeliveries: int
    var queue: seq<Message>
    var delivered: nat

    constructor (manager: SynchronizationManager, queue: seq<Message>, maxDeliveries: int := DEFAULT_MAX_DELIVERIES)
      ensures this.manager == manager && this.maxDeliveries == maxDeliveries
      ensures this.queue == queue && delivered == 0
    {
      this.manager, this.queue, this.maxDeliveries, delivered := manager, queue, maxDeliveries, 0;
    }

    function Current(): State
      reads this, manager.storage
    {
      State(manager.storage.Contents(), queue, delivered)
    }

    method Acknowledge()
      requires queue != []
      modifies this
      ensures queue == old(queue)[1..] && delivered == 0
    {
      queue, delivered := queue[1..], 0;
    }

    /** Fetch, check relevance, handle, acknowledge. A crash is an exception or
        a kill; the next call is then the restarted process. */
    method ProcessOneEvent(f: Fault) returns (crashed: bool)
      requires Valid(manager.storage.Contents())
      modifies this, manager.storage
      ensures Current() == Deliver(old(Current()), f, maxDeliveries)
      ensures Valid(manager.storage.Contents())
      ensures crashed && f == NoFault ==>
                old(queue) != [] && Carries(old(queue)[0])
                && Handle(old(manager.storage.Contents()), old(queue)[0].body.event).Failed?
    {
      if queue == [] {
        return false;
      }
      hide Handle, Valid, IsRelevant, manager.storage.Contents;
      var m := queue[0];
      delivered := delivered + 1;
      if !IsRelevant(m) || !m.body.WellFormed? {
        if f == KilledBeforeCommit || f == KilledBeforeAck {
          return true;
        }
        Acknowledge();
        return false;
      }
      var ok := false;
      match f {
        case KilledBeforeCommit => return true;
        case Declines => return false;
        case Raises =>
        case NoFault => ok := manager.HandleEvent(m.body.event);
        case KilledBeforeAck =>
          ok := manager.HandleEvent(m.body.event);
          return true;
      }
      if !ok && delivered < maxDeliveries {
        return true;
      }
      Acknowledge();
      crashed := !ok;
    }
  }

  /** What one delivery does, fault by fault: a message that is not for the cache
      or not understood is acknowledged unless the process dies; any other is
      acknowledged when it is handled, or has failed with its last delivery. */
  lemma DeliveryOutcome(s: State, f: Fault, maxDeliveries: int)
    requires s.queue != []
    ensures var m := s.queue[0];
            var kept := State(s.cache, s.queue, s.delivered + 1);
            var removed := State(s.cache, s.queue[1..], 0);
            var failed := if s.delivered + 1 >= maxDeliveries then removed else kept;
            Deliver(s, f, maxDeliveries) ==
              if !IsForTheCache(m) || !m.body.WellFormed? then
                if f == KilledBeforeCommit || f == KilledBeforeAck then kept else removed
              else
                match f
                case NoFault =>
                  if Handle(s.cache, m.body.event).Committed? then removed.(cache := Apply(s.cache, m.body.event)) else failed
                case Raises => failed
                case Declines => kept
                case KilledBeforeCommit => kept
                case KilledBeforeAck => kept.(cache := Apply(s.cache, m.body.event))
  {
    hide IsRelevant, IsForTheCache, Handle;
    RelevantExactly(s.queue[0]);
  }

  /******* At least once refines exactly once *******/

  /** What became of an acknowledged message. */
  datatype Fate = Handled | Dropped | Skipped

  /** A run with the fates of the acknowledged messages, and whether the first
      message still in the queue was already committed by some delivery. */
  datatype Observed = Observed(state: State, fates: seq<Fate>, committed: bool)

  function Observe(o: Observed, f: Fault, maxDeliveries: int): Observed {
    var next := Deliver(o.state, f, maxDeliveries);
    if o.state.queue == [] then o
    else
      var committed := o.committed || CommitsNow(o.state, f);
      if AcknowledgesNow(o.state, f, maxDeliveries) then
        Observed(next,
                 o.fates + [if committed then Handled else if Carries(o.state.queue[0]) then Dropped else Skipped],
                 false)
      else Observed(next, o.fates, committed)
  }

  function Observations(s: State, faults: seq<Fault>, maxDeliveries: int): Observed
    decreases |faults|
  {
    if faults == [] then Observed(s, [], false)
    else Observe(Observations(s, faults[..|faults| - 1], maxDeliveries), faults[|faults| - 1], maxDeliveries)
  }

  /** The events of the handled messages, each once, in queue order. */
  function HandledEvents(queue: seq<Message>, fates: seq<Fate>): seq<Event>
    requires |fates| <= |queue|
    requires forall i :: 0 <= i < |fates| && fates[i].Handled? ==> Carries(queue[i])
    decreases |fates|
  {
    if fates == [] then []
    else
      var n := |fates| - 1;
      var before := HandledEvents(queue, fates[..n]);
      if fates[n].Handled? then assert Carries(queue[n]); before + [queue[n].body.event] else before
  }

  ghost predicate FatesFit(queue: seq<Message>, o: Observed) {
    && |o.fates| <= |queue| && o.state.queue == queue[|o.fates|..]
    && (forall i :: 0 <= i < |o.fates| ==> (o.fates[i].Skipped? <==> !Carries(queue[i])))
    && (o.committed ==> o.state.queue != [] && Carries(o.state.queue[0]))
  }

  /** The cache is what handling each handled message once leaves, except that
      the first message may be committed but not yet acknowledged. */
  ghost predicate ExactlyOnce(start: Cache, queue: seq<Message>, o: Observed)
    requires FatesFit(queue, o)
  {
    var base := Run(start, HandledEvents(queue, o.fates));
    && Valid(base)
    && (if o.committed then
          Handle(base, o.state.queue[0].body.event).Committed?
          && o.state.cache == Apply(base, o.state.queue[0].body.event)
        else o.state.cache == base)
  }

  /** Whenever the first message is about to be handled for the first time and
      commits, it is one that a repetition does not change. */
  ghost predicate SettlesNext(start: Cache, queue: seq<Message>, o: Observed)
    requires FatesFit(queue, o)
  {
    var base := Run(start, HandledEvents(queue, o.fates));
    o.state.queue != [] && Carries(o.state.queue[0]) && Handle(base, o.state.queue[0].body.event).Committed?
    ==> Settles(base, o.state.queue[0].body.event)
  }

  ghost predicate EverySettles(s: State, faults: seq<Fault>, maxDeliveries: int) {
    forall k {:trigger SettlesAfter(s, faults, k, maxDeliveries)} ::
      0 <= k < |faults| ==> SettlesAfter(s, faults, k, maxDeliveries)
  }

  ghost predicate SettlesAfter(s: State, faults: seq<Fault>, k: nat, maxDeliveries: int)
    requires k < |faults|
  {
    var o := Observations(s, faults[..k], maxDeliveries);
    FatesFit(s.queue, o) && SettlesNext(s.cache, s.queue, o)
  }

  lemma {:induction false} ObservationsOfRun(s: State, faults: seq<Fault>, maxDeliveries: int)
    ensures Observations(s, faults, maxDeliveries).state == Deliveries(s, faults, maxDeliveries)
    ensures FatesFit(s.queue, Observations(s, faults, maxDeliveries))
    decreases |faults|
  {
    hide CommitsNow, Apply, IsRelevant;
    if faults != [] {
      ObservationsOfRun(s, faults[..|faults| - 1], maxDeliveries);
      ObserveFits(s.queue, Observations(s, faults[..|faults| - 1], maxDeliveries), faults[|faults| - 1], maxDeliveries);
    }
  }

  lemma ObserveFits(queue: seq<Message>, o: Observed, f: Fault, maxDeliveries: int)
    requires FatesFit(queue, o)
    ensures FatesFit(queue, Observe(o, f, maxDeliveries))
  {
    hide Handle, Apply, IsRelevant;
  }

  lemma OneMoreFate(queue: seq<Message>, fates: seq<Fate>, fate: Fate)
    requires |fates| < |queue|
    requires forall i :: 0 <= i < |fates| && fates[i].Handled? ==> Carries(queue[i])
    requires fate.Handled? ==> Carries(queue[|fates|])
    ensures HandledEvents(queue, fates + [fate]) ==
              if fate.Handled? then HandledEvents(queue, fates) + [queue[|fates|].body.event]
              else HandledEvents(queue, fates)
  {
    assert (fates + [fate])[..|fates|] == fates;
  }

  lemma RunOneMore(start: Cache, events: seq<Event>, e: Event)
    ensures Run(start, events + [e]) == Apply(Run(start, events), e)
  {
    hide Apply;
    assert (events + [e])[..|events|] == events;
  }

  lemma ObserveKeepsExactlyOnce(start: Cache, queue: seq<Message>, o: Observed, f: Fault, maxDeliveries: int)
    requires FatesFit(queue, o) && ExactlyOnce(start, queue, o) && SettlesNext(start, queue, o)
    ensures FatesFit(queue, Observe(o, f, maxDeliveries))
    ensures ExactlyOnce(start, queue, Observe(o, f, maxDeliveries))
  {
    hide Handle, Valid, Settles, IsRelevant, Run, HandledEvents;
    ObserveFits(queue, o, f, maxDeliveries);
    if o.state.queue != [] {
      var m := o.state.queue[0];
      var events := HandledEvents(queue, o.fates);
      var base := Run(start, events);
      var next := Observe(o, f, maxDeliveries);
      if o.committed {
        RepeatsCleanlyIff(base, m.body.event);
        assert Handle(o.state.cache, m.body.event) == Committed(o.state.cache);
      }
      assert queue[|o.fates|] == m;
      if AcknowledgesNow(o.state, f, maxDeliveries) {
        OneMoreFate(queue, o.fates, next.fates[|o.fates|]);
        if next.fates[|o.fates|].Handled? {
          RunOneMore(start, events, m.body.event);
          ApplyKeepsValid(base, m.body.event);
        }
      }
    }
  }

  /** At-least-once delivery refines exactly-once handling: after any faults,
      the cache is the one that handling each message that was not dropped or
      skipped once leaves, up to a first message that is committed but not
      acknowledged. */
  lemma {:induction false} AtLeastOnceIsExactlyOnce(s: State, faults: seq<Fault>, maxDeliveries: int)
    requires Valid(s.cache) && EverySettles(s, faults, maxDeliveries)
    ensures var o := Observations(s, faults, maxDeliveries);
            && o.state == Deliveries(s, faults, maxDeliveries)
            && FatesFit(s.queue, o)
            && ExactlyOnce(s.cache, s.queue, o)
    decreases |faults|
  {
    hide Handle, Valid, Settles, IsRelevant, CommitsNow, Deliver, SettlesNext;
    ObservationsOfRun(s, faults, maxDeliveries);
    if faults != [] {
      var n := |faults| - 1;
      forall k | 0 <= k < n ensures SettlesAfter(s, faults[..n], k, maxDeliveries) {
        assert SettlesAfter(s, faults, k, maxDeliveries);
        assert faults[..n][..k] == faults[..k];
      }
      AtLeastOnceIsExactlyOnce(s, faults[..n], maxDeliveries);
      assert SettlesAfter(s, faults, n, maxDeliveries);
      ObserveKeepsExactlyOnce(s.cache, s.queue, Observations(s, faults[..n], maxDeliveries), faults[n], maxDeliveries);
    }
  }

  /** Settling is needed: a kill between commit and acknowledgement goes
      unnoticed exactly when the event settles, or its repetition has no delivery
      left and fails because the object was new and is invalid. */
  lemma KillBeforeAckUnnoticedIff(s: State, maxDeliveries: int)
    requires Valid(s.cache) && s.queue != [] && Carries(s.queue[0])
    requires Handle(s.cache, s.queue[0].body.event).Committed?
    ensures var e := s.queue[0].body.event;
            Deliveries(s, [KilledBeforeAck, NoFault], maxDeliveries) == Deliveries(s, [NoFault], maxDeliveries)
            <==> Settles(s.cache, e) || (s.delivered + 2 >= maxDeliveries && FailsAgain(s.cache, e))
  {
    hide Handle, Settles, FailsAgain, Valid, IsRelevant;
    var e := s.queue[0].body.event;
    RepeatsCleanlyIff(s.cache, e);
    FailsAgainIff(s.cache, e);
    assert [NoFault][..0] == [] && [KilledBeforeAck, NoFault][..1] == [KilledBeforeAck];
    assert [KilledBeforeAck][..0] == [];
    assert Deliveries(s, [], maxDeliveries) == s;
    assert Deliveries(s, [NoFault], maxDeliveries) == State(Apply(s.cache, e), s.queue[1..], 0);
    assert Deliveries(s, [KilledBeforeAck], maxDeliveries) == State(Apply(s.cache, e), s.queue, s.delivered + 1);
  }

  /******* Bounded retry and progress *******/

  function Budget(maxDeliveries: int): (b: nat)
    ensures b >= 1
  {
    if maxDeliveries < 1 then 1 else maxDeliveries
  }

  /** Deliveries in which the handler returned or raised, and the process lived
      to acknowledge. */
  predicate Answered(f: Fault) {
    f == NoFault || f == Raises
  }

  function CountAnswered(faults: seq<Fault>): nat
    decreases |faults|
  {
    if faults == [] then 0
    else CountAnswered(faults[..|faults| - 1]) + if Answered(faults[|faults| - 1]) then 1 else 0
  }

  /** Answered deliveries that may still be needed. */
  function Remaining(s: State, maxDeliveries: int): int {
    var b := Budget(maxDeliveries);
    |s.queue| * b - (if s.delivered < b then s.delivered else b - 1)
  }

  lemma DeliverProgress(s: State, f: Fault, maxDeliveries: int)
    requires s.queue != []
    ensures Remaining(Deliver(s, f, maxDeliveries), maxDeliveries) <= Remaining(s, maxDeliveries)
    ensures Answered(f) ==> Remaining(Deliver(s, f, maxDeliveries), maxDeliveries) < Remaining(s, maxDeliveries)
  {
    hide CommitsNow, Apply, IsRelevant;
    var b := Budget(maxDeliveries);
    assert (|s.queue| - 1) * b == |s.queue| * b - b;
  }

  lemma EmptyIffNothingRemains(s: State, maxDeliveries: int)
    ensures s.queue != [] ==> Remaining(s, maxDeliveries) > 0
  {
    var b := Budget(maxDeliveries);
    if s.queue != [] {
      assert |s.queue| * b >= b by { assert |s.queue| * b == (|s.queue| - 1) * b + b; }
    }
  }

  /** The queue is empty after `max(1, maxDeliveries)` answered deliveries per
      message, whatever other deliveries are declined or killed in between. */
  lemma {:induction false} Drains(s: State, faults: seq<Fault>, maxDeliveries: int)
    requires s.delivered == 0 && CountAnswered(faults) >= |s.queue| * Budget(maxDeliveries)
    ensures Deliveries(s, faults, maxDeliveries).queue == []
  {
    RemainingAfter(s, faults, maxDeliveries);
    EmptyIffNothingRemains(Deliveries(s, faults, maxDeliveries), maxDeliveries);
  }

  lemma {:induction false} RemainingAfter(s: State, faults: seq<Fault>, maxDeliveries: int)
    ensures var e := Deliveries(s, faults, maxDeliveries);
            e.queue == [] || Remaining(e, maxDeliveries) <= Remaining(s, maxDeliveries) - CountAnswered(faults)
    decreases |faults|
  {
    hide CommitsNow, AcknowledgesNow, Remaining;
    if faults != [] {
      var n := |faults| - 1;
      RemainingAfter(s, faults[..n], maxDeliveries);
      var before := Deliveries(s, faults[..n], maxDeliveries);
      if before.queue != [] {
        DeliverProgress(before, faults[n], maxDeliveries);
      }
    }
  }

  /** While every delivery is answered, no message is delivered more than
      `max(1, maxDeliveries)` times. */
  lemma {:induction false} BoundedDeliveries(s: State, faults: seq<Fault>, maxDeliveries: int)
    requires s.delivered == 0 && forall f :: f in faults ==> Answered(f)
    ensures Deliveries(s, faults, maxDeliveries).delivered < Budget(maxDeliveries)
    decreases |faults|
  {
    hide CommitsNow, Apply, IsRelevant;
    if faults != [] {
      BoundedDeliveries(s, faults[..|faults| - 1], maxDeliveries);
      assert Answered(faults[|faults| - 1]);
    }
  }

  /** Without faults a message is lost only to a handler that fails on each of
      its allowed deliveries, and then the cache is as if it had never come. */
  lemma {:induction false} FailingMessageIsDropped(s: State, n: nat, maxDeliveries: int)
    requires s.queue != [] && s.delivered == 0 && Carries(s.queue[0])
    requires Handle(s.cache, s.queue[0].body.event).Failed?
    requires n <= Budget(maxDeliveries)
    ensures Deliveries(s, seq(n, _ => NoFault), maxDeliveries)
         == if n < Budget(maxDeliveries) then State(s.cache, s.queue, n) else State(s.cache, s.queue[1..], 0)
    decreases n
  {
    hide Handle, IsRelevant;
    var faults := seq(n, _ => NoFault);
    if n > 0 {
      assert faults[..n - 1] == seq(n - 1, _ => NoFault);
      FailingMessageIsDropped(s, n - 1, maxDeliveries);
    }
  }
}
