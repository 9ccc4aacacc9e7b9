# Verification model of the Kelvin connector and its neighbours

A Dafny model of how the Kelvin connector keeps a relational cache in step with
an LDAP directory, together with four smaller algorithms of the repository. To
verify it:

    dafny verify --resource-limit 2000000 --verification-time-limit 0 dfyconfig.toml

## What is modelled

**The cache.** `Schema` is the database as values: rows, link tables, the three
DN maps, and the constraints every committed state satisfies. `Sync` is the
reference meaning of one event: a function from a cache to a committed cache or
a failure. `Storage` is the same database as a mutable session, statement by
statement, and `SyncManager` the handlers as they run against it, with the
rollback of a failed transaction; `HandleEvent` ties the two together.

**One event.** `Outcomes` says what each kind of event leaves in every table, field
by field from its payload, and `Refusal` which events are dropped, refused or
committed. What they state is spelled out and does not name the functions that
compute it. `TextFacts` does the same for the text functions.

**What holds over runs.** `Integrity` (database constraints), `Links` (the
same-school invariant), `Effects`, `Convergence`, `FirstSync` and `Repair` (what
an event leaves, eventual consistency, order independence, independence of the
history), `Redelivery` (handling an event twice), `Settling` (when every event of
a queue may be handled twice).

**Delivery.** `Consumer` is the head-of-line queue with its delivery counter.
Each delivery meets one fault of the environment's choice: none, a transient
exception, a handler that declines, a kill before the commit, or a kill between
commit and acknowledgement. `EndToEnd` puts delivery and convergence together.

**Neighbours.** `Filter`, `Splitting`, `RoundTrip` and `FilterTree` (LDAP
filters, RFC 4515 section 3), `Policies` and `ModifyList` (policy inheritance and modify
operations, RFC 4511 section 4.6), `UrlCache`, `Configuration` and
`ConfigurationTree`.

## What the code does that its documentation does not say

- *Search limits.* The package documentation speaks of 50 results by default
  (ucsschool-objects/README.md:365). The managers have no default limit
  (ucsschool-objects/src/ucsschool_objects/core/adapters/sqlalchemy/managers/user_manager.py:430),
  so the model has none and no theorem needs one.
- *DN mappings.* Setting a mapping displaces the row of the DN as well as the row
  of the id (dn_mapper.py:50-61); it never fails on another owner.
- *Moved groups.* A group's members are resolved to memberships of the school its
  row still has, before the school is changed (group_manager.py:53-80, 81-172).
  So a moved group keeps links through its old school, or loses members who only
  belong to the new one; `Links.SameSchoolExactly` and
  `Convergence.MemberLinkExactly` say exactly when, and `Counterexamples` shows
  both. Without moves the same-school invariant and convergence hold in full.
- *Self references.* The session does not flush before a query
  (ucsschool-objects/src/ucsschool_objects/core/adapters/sqlalchemy/session.py:114-118),
  and a mapping is deleted at once but added only at the flush
  (dn_mapper.py:50-61). So a modify of a stored object resolves its references
  with its own DN missing, and never finds itself; such a user event always
  repeats cleanly. A create of a stored user does find itself, and one that is in
  only one of its own lists never settles
  (`Counterexamples.SelfReferenceNeverSettles`). `Redelivery.RepeatsCleanlyIff`
  says exactly when an event settles, and `Settling` how to tell beforehand.
- *Renamed by a create event.* A create event for a stored row updates it but not
  its DN mapping (sync.py:494-518, 724-756). Under a new DN it leaves the old one
  mapped, and a later group event misses the user
  (`Counterexamples.StaleDnLosesALink`). `Convergence.MemberLinkByDn` and
  `Convergence.GuardianLinkByDn` say exactly when a link is lost that way.
- *Gaining roles.* A modify event whose old side has no `ucsschoolRole` is
  skipped even if the new side has one (consumer.py:125-160,
  `Consumer.RelevantIff`).
- *Cached URLs.* That the candidates of a name part at a literal segment of the
  route is not enough for the cache to be transparent
  (`UrlCache.PartingAtALiteralIsNotEnough`); `UrlCache.SameAnswerIff` gives the
  exact condition.
- *Flattened filters.* Flattening a filter drops its negations, so a negated leaf
  comes out as the leaf (`FilterTree.NegationIsLost`).
- *Equal values.* A text and a list with the same value count as different and
  are sent (`ModifyList.EmptyIffUnchanged`).
- *Typed update.* A text is meant to take the type of the value it overwrites, but
  the test asks whether the type object is a text (configuration.py:104-107) and
  never holds: every scalar is stored as it is. A nested dictionary over a scalar
  raises, or leaves the scalar if it is empty (`Configuration.UpdatedIsMergeIff`).

## Assumptions

- A public id is a number and rows come in its order; the first school of a list
  is the one with the least id.
- A database refuses exactly what its declared keys refuse. Each event is one
  transaction.
- Validation happens only for a patch that is not empty, and not on insertion.
- Letter case is folded for ASCII letters only. A DN is a list of RDNs; its text
  form and escapes are not part of this model.
- Times, birthdays and UDM properties are opaque texts.
- In `Consumer`, what the environment does to a delivery is an argument of the
  step. An acknowledgement succeeds when the process lives to send it.
- In `Policies`, which class is popped from a policy with several, and which
  filters match, are parameters.
- In `UrlCache`, the base of a URL is determined by scheme and host, as in the
  cache key; a template parameter is a whole segment.
- In `ModifyList`, values are sent as the set the protocol defines, so a list with
  a repeated value counts as that set.

## Model

| member | source | states |
|---|---|---|
| Integrity.RunKeepsValid | kelvin-connector/src/kelvin_connector/sync.py:406-1114 | after any run of events from a valid database, every foreign key, unique key, one-primary column and DN bijection still holds |
| Integrity.ApplyKeepsValid | kelvin-connector/src/kelvin_connector/sync.py:406-1114 | one event of any kind, committed or rolled back, keeps every database constraint; the cascades and the code together leave nothing dangling |
| Integrity.AtMostOnePrimary | ucsschool-objects/src/ucsschool_objects/database_models.py:267-312 | the nullable unique column written by the listener admits at most one primary membership per user |
| Integrity.SetMappingBijection | ucsschool-objects/src/ucsschool_objects/core/adapters/sqlalchemy/dn_mapper.py:50-61 | displacing both the row of the DN and the row of the id keeps the map a bijection onto existing rows, and the DN then maps to the id |
| Integrity.UserModifyValid | kelvin-connector/src/kelvin_connector/sync.py:533-606 | a modify of a cached or unknown user that commits leaves a valid database |
| Integrity.GroupModifyValid | kelvin-connector/src/kelvin_connector/sync.py:771-859 | a modify of a cached or unknown group that commits leaves a valid database |
| Integrity.SchoolDeleteValid | ucsschool-objects/src/ucsschool_objects/database_models.py:151-176 | cascading a school's memberships, links and DN leaves no dangling reference, because a group that refers to the school blocks the delete |
| Schema.UsersByDnsIff | kelvin-connector/src/kelvin_connector/sync.py:167-218 | a user is resolved from a reference list exactly when its mapped DN is listed |
| Schema.GroupsByDnsIff | kelvin-connector/src/kelvin_connector/sync.py:127-148 | a group is resolved exactly when its mapped DN is listed and is not one of the unsyncable kinds |
| Schema.FindSchoolIff | kelvin-connector/src/kelvin_connector/sync.py:661-679 | the first search hit for a school name is the school of that name and no other |
| Links.SameSchoolExactly | ucsschool-objects/src/ucsschool_objects/core/adapters/sqlalchemy/managers/group_manager.py:53-80 | whether an event keeps every group link inside the group's own school: exactly when it does not move a group that keeps links through its old school |
| Links.RunKeepsSameSchool | kelvin-connector/src/kelvin_connector/sync.py:254-306 | over a whole run in which no event strands links, every member link joins a group and a membership of the same school |
| Links.SyncMembersIff | ucsschool-objects/src/ucsschool_objects/core/adapters/sqlalchemy/managers/group_manager.py:53-80 | which member links a modified group has afterwards: wanted users with a membership of the school the row had before |
| Links.SyncedMembers | ucsschool-objects/src/ucsschool_objects/core/adapters/sqlalchemy/managers/group_manager.py:81-172 | a group update stores exactly the wanted members unless it moves the group to another school, and then loses those without a membership of the old one |
| Links.SyncGuardiansIff | ucsschool-objects/src/ucsschool_objects/core/adapters/sqlalchemy/managers/user_manager.py:152-196 | which guardian and ward pairs a user update leaves, although guardians and wards are two lists over one table |
| Links.SyncedGuardians | ucsschool-objects/src/ucsschool_objects/core/adapters/sqlalchemy/managers/user_manager.py:152-196 | both lists come out as wanted exactly when they agree about the user itself |
| Links.SchoolDeleteEffect | kelvin-connector/src/kelvin_connector/sync.py:963-976 | a school delete commits exactly when no group refers to it; then its memberships go, and by the same-school invariant no user and no member link does |
| Counterexamples.MoveStrandsALink | ucsschool-objects/src/ucsschool_objects/core/adapters/sqlalchemy/managers/group_manager.py:81-172 | a concrete group move after which a link goes through the old school: the same-school invariant is not kept by every event |
| Counterexamples.MoveLosesAMember | ucsschool-objects/src/ucsschool_objects/core/adapters/sqlalchemy/managers/group_manager.py:53-80 | a concrete move that drops a listed member who belongs to the new school only |
| Counterexamples.SelfReferenceNeverSettles | ucsschool-objects/src/ucsschool_objects/core/adapters/sqlalchemy/managers/user_manager.py:152-196 | a concrete stored user that is listed as its own ward only and comes again with a create event: each handling undoes what the one before did to the guardian table |
| Counterexamples.StaleDnLosesALink | kelvin-connector/src/kelvin_connector/sync.py:494-518 | a concrete create event for a stored user under a new DN: the DN map keeps the old DN, and the later group event does not find its listed member, so convergence needs the DN to be mapped already |
| Redelivery.RepeatsCleanlyIff | kelvin-connector/src/kelvin_connector/sync.py:423-628 | a committed event commits again without change exactly when it settles, checked before the first handling: a modify of a stored user always does; a create of a stored user when its lists agree about it; a first event when it refers to no DN whose owner this handling changes for the second one; a group event when it loses no wanted member to a move |
| Redelivery.UserTwice | kelvin-connector/src/kelvin_connector/sync.py:423-628 | the same for user events: a modify resolves its references without the user's own DN, a create with the DN map as it is stored, and an unknown user is first created and then found |
| Redelivery.GroupTwice | kelvin-connector/src/kelvin_connector/sync.py:649-859 | the same for group events: the second create of a new group resolves the DN the first one mapped, the second modify never resolves the group's own DN |
| Redelivery.FailsAgainIff | ucsschool-objects/src/ucsschool_objects/core/adapters/sqlalchemy/managers/user_manager.py:463-495 | a committed event fails when it is repeated exactly when it does not settle, its object was not cached before, and the row it inserted is invalid: insertion does not validate, the update that follows does |
| Redelivery.SyncGuardiansTwice | ucsschool-objects/src/ucsschool_objects/core/adapters/sqlalchemy/managers/user_manager.py:152-196 | two updates of the guardian table equal one exactly when both wanted lists agree about the user itself |
| Effects.UserEventGuardians | kelvin-connector/src/kelvin_connector/sync.py:608-628 | after a user event, the pairs of that user are those of the payload, read through the DN map the queries of that transaction see: without the user's own DN when a stored user is modified |
| Effects.UserDnAfter | kelvin-connector/src/kelvin_connector/sync.py:494-518 | afterwards the event's DN resolves to its user exactly unless a create event found the row stored under another DN or none |
| Effects.UserMapsIff | ucsschool-objects/src/ucsschool_objects/core/adapters/sqlalchemy/dn_mapper.py:50-61 | which DN maps to which user after any event: only user events that modify or insert, and deletions, change the map, and they displace the row of the DN and the rows of the user |
| Effects.GroupMapsIff | ucsschool-objects/src/ucsschool_objects/core/adapters/sqlalchemy/dn_mapper.py:50-61 | the same for groups |
| Effects.GroupEventLinks | kelvin-connector/src/kelvin_connector/sync.py:861-886 | after a group event, a user is linked exactly when it is a wanted member that the stored school lets through |
| Effects.LinkFrame | kelvin-connector/src/kelvin_connector/sync.py:406-1114 | an event about neither the group nor the user, with the schools kept, changes no link between them |
| Effects.GuardianFrame | kelvin-connector/src/kelvin_connector/sync.py:406-1114 | an event about neither user changes no guardian pair between them |
| Outcomes.UserRowOutcome | kelvin-connector/src/kelvin_connector/sync.py:608-628 | the row after a user event, field by field from the payload: active unless disabled, the record id or else the user name, the source id or else nubus, and all properties except jpegPhoto and password |
| Outcomes.UserMembershipOutcome | kelvin-connector/src/kelvin_connector/sync.py:341-402 | one membership for each cached school that the payload names, with the known roles the payload gives the user there; primary is the first school named like the first OU of the DN, letter case aside, or else the first of all |
| Outcomes.UserLinkOutcome | kelvin-connector/src/kelvin_connector/sync.py:463-492 | the user is linked to exactly the groups that the payload lists by a known DN that is not skipped and whose school it names, through that school |
| Outcomes.UserEventKeepsOthers | kelvin-connector/src/kelvin_connector/sync.py:423-628 | a user event changes no school, group, sender or role, and nothing of another user |
| Outcomes.GroupRowOutcome | kelvin-connector/src/kelvin_connector/sync.py:861-886 | the row after a group event, field by field: the payload's, with the known roles it lists, in the school of its first role or name prefix if that is cached; what the payload leaves open is kept |
| Outcomes.GroupLinkOutcome | ucsschool-objects/src/ucsschool_objects/core/adapters/sqlalchemy/managers/group_manager.py:53-80 | which links a group has after its event, from the listed DNs, the DN map and the memberships: a stored list keeps its links, any other is replaced through the school the row had before |
| Outcomes.GroupSenderOutcome | kelvin-connector/src/kelvin_connector/sync.py:792-815 | senders are exactly those listed by a DN known when the event is handled |
| Outcomes.GroupEventKeepsOthers | kelvin-connector/src/kelvin_connector/sync.py:649-886 | a group event changes no user, membership or school, and nothing of another group |
| Outcomes.SchoolOutcome | kelvin-connector/src/kelvin_connector/sync.py:907-1026 | the row after a school event, field by field, with the servers and record keys a stored row keeps or a new one starts with; the DN map afterwards; nothing else changes |
| Outcomes.HostGroupOutcome | kelvin-connector/src/kelvin_connector/sync.py:1050-1105 | the leaf names of the listed hosts become the educational or the administrative servers of the first school the name matches, and nothing else changes |
| Outcomes.NoMatchOutcome | kelvin-connector/src/kelvin_connector/sync.py:1050-1114 | without a matching school the deletion of a host group does nothing and any other event about it fails |
| Outcomes.UserDeleteOutcome | kelvin-connector/src/kelvin_connector/sync.py:520-531 | afterwards no row, membership, link, guardian pair, sender pair or DN mentions the user, and everything else is as it was |
| Outcomes.GroupDeleteOutcome | kelvin-connector/src/kelvin_connector/sync.py:758-769 | the same for groups |
| Outcomes.SchoolDeleteOutcome | kelvin-connector/src/kelvin_connector/sync.py:963-976 | a school that a group refers to stays with all that hangs on it; any other goes with its memberships, their links and its DN, and everything else is as it was |
| Refusal.UserRefusal | ucsschool-objects/src/ucsschool_objects/core/domain/validators.py:95-115 | which user events are dropped, refused or committed: dropped without a cached school, refused for a name, mail address or key that another user has, and a payload that is not valid may insert a user but not change one |
| Refusal.GroupRefusal | ucsschool-objects/src/ucsschool_objects/core/domain/validators.py:76-86 | the same for groups: a group needs a name and a known role |
| Refusal.SchoolRefusal | ucsschool-objects/src/ucsschool_objects/core/domain/validators.py:47-60 | the same for schools, with the row that the event stores |
| Refusal.HostGroupRefusal | kelvin-connector/src/kelvin_connector/sync.py:1050-1105 | a host group event commits when the school it changes is valid, and otherwise only if it changes nothing |
| TextFacts.SchoolOuIff | kelvin-connector/src/kelvin_connector/sync.py:75-86 | the OU of a DN is the value of its first ou RDN, letter case of the attribute aside |
| TextFacts.UnsyncableIff | kelvin-connector/src/kelvin_connector/sync.py:112-148 | the skipped references: any under a cn=ouadmins container, and role groups and Domain Users directly under cn=groups |
| TextFacts.GlobOfTwo | ucsschool-objects/src/ucsschool_objects/core/adapters/sqlalchemy/query_filter.py:381-397 | a pattern made of two matches exactly what splits into a match of each |
| TextFacts.GlobOfOne | ucsschool-objects/src/ucsschool_objects/core/adapters/sqlalchemy/query_filter.py:381-397 | a star matches any text, any other character itself in either case |
| TextFacts.UserNameIff | ucsschool-objects/src/ucsschool_objects/core/domain/validators.py:95-107 | the user names that validation accepts: no character or device name that Windows reserves, no final space or full stop, 255 characters at most |
| TextFacts.SchoolNameIff | ucsschool-objects/src/ucsschool_objects/core/domain/validators.py:10-11 | the school names that validation accepts: letters and digits with dashes inside, and one line feed at most after |
| Convergence.EventualConsistency | kelvin-connector/src/kelvin_connector/sync.py:254-306 | from any valid cache and after any earlier history, once every object's last event is handled a member link is cached exactly when the directory lists it and the user names the school the group is in, cached or kept, and a guardian link exactly when it is listed; of two related objects the earlier one has to be known by its DN when the later one is handled, and no last event may move a group |
| Convergence.MemberLinkExactly | kelvin-connector/src/kelvin_connector/sync.py:771-886 | one member link, from the last events of user and group alone and without a premise on DNs, mutual listing or the event's school: it is cached exactly when the payload handled later lists the other object by a DN it holds at that time, the user names the school the group is in, and a later group event does not lose the user in a move |
| Convergence.GuardianLinkExactly | kelvin-connector/src/kelvin_connector/sync.py:533-628 | one guardian link is cached exactly when the payload handled later lists the other user by a DN it holds at that time |
| Convergence.MemberLinkByDn | kelvin-connector/src/kelvin_connector/sync.py:494-518 | where the later payload lists no other DN once stored for the object: the link is there exactly when, besides, the object's own DN is listed and its last event was no create for a row stored under another DN |
| Convergence.GuardianLinkByDn | kelvin-connector/src/kelvin_connector/sync.py:494-518 | the same for guardian links |
| Convergence.UserDnHeldIff | ucsschool-objects/src/ucsschool_objects/core/adapters/sqlalchemy/dn_mapper.py:50-61 | from a user's last event on, it is known by a DN exactly when that event gave it the DN, or as a create event found it stored, and no other user's event has taken the DN since |
| Convergence.GroupDnHeldIff | ucsschool-objects/src/ucsschool_objects/core/adapters/sqlalchemy/dn_mapper.py:50-61 | the same for groups |
| Convergence.KnownByLastDns | kelvin-connector/src/kelvin_connector/sync.py:494-518 | every object is known by its DN in time when no last event is a create for a row stored under another DN and no DN is reused later |
| Convergence.GroupStays | kelvin-connector/src/kelvin_connector/sync.py:771-831 | from its last event on, a group is in the school that event names or, if that is not cached, in the one it was stored with |
| Convergence.UserStaysSettled | kelvin-connector/src/kelvin_connector/sync.py:533-628 | from its last event on, a user's row is the payload's, and its membership rows with their roles and primary flags are those the payload asks for, while other events are handled |
| FirstSync.FirstSyncResult | kelvin-connector/src/kelvin_connector/sync.py:423-492 | handling the create events of a mirror-consistent directory, each once and in any order, commits every one and ends in the cache the directory describes |
| FirstSync.OrderIndependence | kelvin-connector/src/kelvin_connector/sync.py:649-714 | two orders of the same create events end in the same cache: skipped references are supplied by the other object's own event |
| FirstSync.UserArrives | kelvin-connector/src/kelvin_connector/sync.py:423-492 | the create event of one more user takes the described cache to the described cache with that user |
| FirstSync.GroupArrives | kelvin-connector/src/kelvin_connector/sync.py:649-714 | the same for one more group |
| Repair.UserRepaired | kelvin-connector/src/kelvin_connector/sync.py:533-628 | two caches that agree on the tables the event refers to hold the same user afterwards, whatever they held for it before, provided the event does not refer to its own user |
| Repair.UserRepairedIff | kelvin-connector/src/kelvin_connector/sync.py:423-628 | without that premise: they hold the same user exactly when they agree on the other owner of the event's DN, if it is listed, and on whether the user ends up its own guardian |
| Repair.GroupRepaired | kelvin-connector/src/kelvin_connector/sync.py:771-886 | the same for groups, moved ones and ones that lose members included: row, links with the schools they go through, and senders come out the same exactly when the caches agree on what the event leaves open, that is a mail address it does not give, the source id, the stored school if its own is not cached, senders that are the group itself, the asked members it does not link, and the schools the others are linked through |
| Repair.GroupLinksAfter | ucsschool-objects/src/ucsschool_objects/core/adapters/sqlalchemy/managers/group_manager.py:53-80 | which links a group has after its event, with their schools: those of the asked members, through the school the row had before or, if the list was stored already, as they were |
| Repair.GroupRepairedSameSchool | ucsschool-objects/src/ucsschool_objects/core/adapters/sqlalchemy/managers/group_manager.py:53-80 | while all links stay within their groups' schools, the last point is only that the stored schools agree, if any member is linked |
| Repair.GroupRowAfter | kelvin-connector/src/kelvin_connector/sync.py:861-886 | the row after a group's event: a null mail address, an unknown school and the source id keep their stored values, everything else is the payload's |
| Storage.Sorted | ucsschool-objects/src/ucsschool_objects/core/adapters/sqlalchemy/managers/school_manager.py:91-125 | query results are all the matching rows, once each and ordered by public id |
| Storage.KelvinStorage.SyncMemberships | ucsschool-objects/src/ucsschool_objects/core/adapters/sqlalchemy/managers/user_manager.py:98-150 | removals and demotions first, then creations and promotions: afterwards the user has exactly the wanted memberships and links, and no step clashes with the primary slot |
| Storage.KelvinStorage.PutMembership | ucsschool-objects/src/ucsschool_objects/database_models.py:267-312 | a promotion is only ever issued while no other membership of the user holds the primary slot |
| Storage.KelvinStorage.CreateUser | ucsschool-objects/src/ucsschool_objects/core/adapters/sqlalchemy/managers/user_manager.py:463-476 | an insert that succeeds exactly when no unique key clashes, with all memberships and relations, or changes nothing |
| Storage.KelvinStorage.ModifyUser | ucsschool-objects/src/ucsschool_objects/core/adapters/sqlalchemy/managers/user_manager.py:478-495 | an empty patch touches and validates nothing; any other is validated and replaces row, memberships, links and guardians |
| Storage.KelvinStorage.DeleteUser | ucsschool-objects/src/ucsschool_objects/core/adapters/sqlalchemy/managers/user_manager.py:497-501 | a delete with all its cascades, or not found |
| Storage.KelvinStorage.ModifyGroup | ucsschool-objects/src/ucsschool_objects/core/adapters/sqlalchemy/managers/group_manager.py:336-353 | the same for a group, whose members are looked up for the school the row still has |
| Storage.KelvinStorage.DeleteSchool | ucsschool-objects/src/ucsschool_objects/core/adapters/sqlalchemy/managers/school_manager.py:150-154 | a delete that is refused while a group refers to the school, and otherwise cascades |
| Storage.KelvinStorage.SetUserMapping | ucsschool-objects/src/ucsschool_objects/core/adapters/sqlalchemy/dn_mapper.py:50-61 | both old rows are gone from every later query of the transaction, the new row is pending |
| Storage.EmptyUserPatch | kelvin-connector/src/kelvin_connector/sync.py:478-492 | no change is detected only when the tables already say what the event says |
| Storage.EmptyGroupPatch | kelvin-connector/src/kelvin_connector/sync.py:738-756 | the same for groups |
| Memberships.BuildSchoolMemberships | kelvin-connector/src/kelvin_connector/sync.py:341-402 | one membership per school with its groups and known roles, and exactly one primary as soon as there is a school: the first named by the OU, letter case aside, else the first |
| Memberships.FindPrimary | kelvin-connector/src/kelvin_connector/sync.py:341-369 | the primary school is found exactly when there is a school, at the primary position |
| Memberships.OnePrimaryPosition | kelvin-connector/src/kelvin_connector/sync.py:341-369 | there is only one primary position |
| Memberships.PrimaryOfSorted | kelvin-connector/src/kelvin_connector/sync.py:341-369 | in a list ordered by public id the position is the school with the least id among those named by the OU, or among all |
| Memberships.GroupsPartitioned | kelvin-connector/src/kelvin_connector/sync.py:386-402 | the groups of the built memberships partition exactly the given groups whose school is in the list |
| Memberships.WantedAsTables | kelvin-connector/src/kelvin_connector/sync.py:341-402 | the built memberships are the membership rows and links of the reference model, with at most one primary |
| SyncManager.SynchronizationManager.HandleEvent | kelvin-connector/src/kelvin_connector/sync.py:406-1114 | one transaction per event: the stepwise handlers on the session, whose queries do not see the mapping it has yet to flush, end in the outcome of the reference model, committed or rolled back, and in a valid database |
| SyncManager.SynchronizationManager.UserCreated | kelvin-connector/src/kelvin_connector/sync.py:423-518 | the create handler, dropping users without a cached school and updating existing ones |
| SyncManager.SynchronizationManager.UserModified | kelvin-connector/src/kelvin_connector/sync.py:533-606 | the modify handler: the old DN rows go first, the references are resolved without them, the new DN row is flushed at the commit; missing users are created |
| SyncManager.SynchronizationManager.GroupCreated | kelvin-connector/src/kelvin_connector/sync.py:649-756 | the create handler for groups, dropping those without a cached school |
| SyncManager.SynchronizationManager.GroupModified | kelvin-connector/src/kelvin_connector/sync.py:771-859 | the modify handler for groups, with the DN rows in the same order, keeping the stored school when the event's is unknown |
| SyncManager.SynchronizationManager.SchoolCreated | kelvin-connector/src/kelvin_connector/sync.py:907-961 | the create handler for schools, starting with empty server sets |
| SyncManager.SynchronizationManager.SchoolModified | kelvin-connector/src/kelvin_connector/sync.py:978-1026 | the modify handler for schools, leaving servers and record keys alone |
| SyncManager.SynchronizationManager.ServersSet | kelvin-connector/src/kelvin_connector/sync.py:1050-1105 | a host group sets one kind of server of the first school its name matches, and fails for an unknown one unless it is being deleted |
| SyncManager.SynchronizationManager.FetchGroupsByDns | kelvin-connector/src/kelvin_connector/sync.py:220-252 | unsyncable references are skipped before the lookup, unknown and dangling ones after it |
| SyncManager.SynchronizationManager.FetchMembersByDns | kelvin-connector/src/kelvin_connector/sync.py:254-306 | only known users with a membership of the school |
| SyncManager.UserPatchEmptyIff | kelvin-connector/src/kelvin_connector/sync.py:478-492 | change tracking finds nothing to store exactly when the update would change no table |
| SyncManager.StoredGroupTables | kelvin-connector/src/kelvin_connector/sync.py:829-859 | the same for groups: an update that would leave all tables alone is exactly an empty patch |
| Consumer.ConsumerModule.ProcessOneEvent | kelvin-connector/src/kelvin_connector/consumer.py:442-492 | fetch, relevance check, handling, retry or acknowledgement, and crash, step by step, as the delivery step of the protocol model |
| Consumer.RelevantExactly | kelvin-connector/src/kelvin_connector/consumer.py:76-160 | which messages are handled: every side present carries roles, and the newer one is a school class, work group or host group, a user without an exam role, or a school |
| Consumer.DeliveryOutcome | kelvin-connector/src/kelvin_connector/consumer.py:442-492 | what one delivery does, fault by fault: without one, a message for the cache is handled and acknowledged, retried or dropped with its last delivery, and any other is acknowledged unhandled |
| Consumer.AtLeastOnceIsExactlyOnce | kelvin-connector/src/kelvin_connector/consumer.py:442-492 | after any sequence of failures and kills the cache is what handling each message that was not dropped or skipped exactly once leaves, up to one committed but unacknowledged first message |
| Consumer.KillBeforeAckUnnoticedIff | kelvin-connector/src/kelvin_connector/consumer.py:486-492 | at any point of any queue and with any delivery limit, a kill between commit and acknowledgement leaves no trace exactly when the event settles, or its object was new and invalid and the repetition is the last delivery |
| Settling.HarmlessQueueSettles | kelvin-connector/src/kelvin_connector/consumer.py:442-492 | whatever the faults, every event of a queue settles when, by the start cache and the queued events alone, no create refers to a DN its user has or gets, no group event refers to itself and each group is put into one school only |
| Settling.HarmlessQueueExactlyOnce | kelvin-connector/src/kelvin_connector/consumer.py:442-492 | such a queue, drained under any faults, leaves the cache that handling each message that was not dropped or skipped exactly once leaves |
| Settling.RunTraced | kelvin-connector/src/kelvin_connector/sync.py:406-1114 | whichever events are handled, in any order and number, every DN mapping, school name and group's school of the cache comes from the start or from one of the events |
| Consumer.ObserveKeepsExactlyOnce | kelvin-connector/src/kelvin_connector/consumer.py:456-492 | one delivery, whatever happens to it, keeps the exactly-once account |
| Consumer.Drains | kelvin-connector/src/kelvin_connector/consumer.py:464-485 | the queue is empty after max(1, max_deliveries) answered deliveries per message, however many others are killed or declined in between |
| Consumer.DeliverProgress | kelvin-connector/src/kelvin_connector/consumer.py:464-485 | no delivery increases the work left, and an answered one decreases it |
| Consumer.BoundedDeliveries | kelvin-connector/src/kelvin_connector/consumer.py:435-440 | while the handler returns or raises, no message is delivered more than max(1, max_deliveries) times |
| Consumer.FailingMessageIsDropped | kelvin-connector/src/kelvin_connector/consumer.py:464-485 | an event that always fails blocks the queue for exactly max(1, max_deliveries) deliveries and then leaves no trace in the cache |
| EndToEnd.DrainedQueueConverges | kelvin-connector/src/kelvin_connector/consumer.py:402-431 | a drained queue leaves the links of the directory in the cache, with faults, redelivery and reordering together, also for groups whose school is not cached |
| EndToEnd.HarmlessQueueConverges | kelvin-connector/src/kelvin_connector/consumer.py:402-431 | the same with the settling premise replaced by one about the start cache and the queued events, which also rules out that the last event of a group moves it |
| RoundTrip.ParsePrinted | univention-directory-manager-modules-slim/univention/admin/filter.py:36-49 | parsing a printed tree of any depth gives the tree with strict comparisons and `!=` as negated leaves, escaped texts, and empty conjunctions gone |
| RoundTrip.LeafParsesIff | univention-directory-manager-modules-slim/univention/admin/filter.py:200-212 | a printed leaf is read back unchanged exactly when its value holds no operator the parser prefers |
| RoundTrip.SplitJoined | univention-directory-manager-modules-slim/univention/admin/filter.py:166-182 | splitting a concatenation of balanced groups returns exactly those groups, in order |
| Splitting.GroupsAre | univention-directory-manager-modules-slim/univention/admin/filter.py:166-182 | splitting any text, balanced or not, gives exactly the groups that open at depth zero, each up to where that depth is reached again, once each and in order |
| RoundTrip.ParseOutcome | univention-directory-manager-modules-slim/univention/admin/filter.py:187-212 | any non-empty text parses or is invalid syntax: the unpacking of the two halves never fails |
| RoundTrip.TextParses | univention-directory-manager-modules-slim/univention/admin/filter.py:187-212 | what any text that is no conjunction parses to: without an equals sign it is invalid, otherwise it is cut at the first occurrence of the preferred operator between its parentheses |
| RoundTrip.ConjunctionParses | univention-directory-manager-modules-slim/univention/admin/filter.py:143-186 | a text that starts with an operator of a conjunction parses to the conjunction of its groups, or fails as the first of them that fails; the empty text is its own error |
| RoundTrip.EscapedIsPlain | univention-directory-manager-modules-slim/univention/admin/filter.py:116-119 | escaping removes every parenthesis, so an escaped leaf needs no condition on them |
| RoundTrip.EscapedDecodes | univention-directory-manager-modules-slim/univention/admin/filter.py:116-119 | a server that reads a backslash and two hexadecimal digits as the character with that code reads back the text that was escaped |
| RoundTrip.EscapedIsSafe | univention-directory-manager-modules-slim/univention/admin/filter.py:116-119 | an escaped text holds no star, parenthesis or NUL, and every backslash in it starts an escape |
| RoundTrip.NormalMeans | univention-directory-manager-modules-slim/univention/admin/filter.py:92-119 | the printed tree means what the tree means, for any comparison in which the strict operators and != are the negations of the others |
| Filter.GroupsAreShort | univention-directory-manager-modules-slim/univention/admin/filter.py:166-182 | every piece is not empty and no longer than the text split, which is why parsing ends |
| Filter.Split | univention-directory-manager-modules-slim/univention/admin/filter.py:166-182 | the scan with depth and start index collects the top-level groups |
| Filter.Parse | univention-directory-manager-modules-slim/univention/admin/filter.py:143-212 | the parser with its indices computes the parse function, total on every text |
| FilterTree.Node.Walk | univention-directory-manager-modules-slim/univention/admin/filter.py:215-238 | walking in place visits each original leaf once from left to right and leaves the pure leaf substitution, never entering what a callback installed |
| FilterTree.Node.TransformToConjunction | univention-directory-manager-modules-slim/univention/admin/filter.py:121-126 | the node takes over class and contents of the conjunction |
| FilterTree.Node.AppendUnmapped | univention-directory-manager-modules-slim/univention/admin/filter.py:65-69 | a parsed and rewritten text is appended to the conjunction, or a parse failure changes nothing |
| FilterTree.LeavesOfMore | univention-directory-manager-modules-slim/univention/admin/filter.py:231-238 | the visiting order of a longer conjunction is that of the shorter one followed by the new part |
| FilterTree.Flatten | univention-directory-manager-modules-slim/univention/admin/filter.py:274-290 | the recursive collection returns the flattened leaves in order |
| FilterTree.FlattenedHold | univention-directory-manager-modules-slim/univention/admin/filter.py:274-290 | with no negation outside of its disjunctions the leaves hold on every matching entry; without disjunction too they hold together exactly on those |
| FilterTree.FlattenedAreLeaves | univention-directory-manager-modules-slim/univention/admin/filter.py:274-290 | without disjunction the flattened leaves are all leaves, from left to right |
| Policies.Ldap.ClosedForm | univention-directory-manager-modules-slim/univention/admin/uldap_docker.py:591-664 | after the walk an attribute has an entry exactly when some applicable policy mentions it, and it is that of the last policy fixing it or else of the first mentioning it |
| Policies.Ldap.InheritedEntry | univention-directory-manager-modules-slim/univention/admin/uldap_docker.py:559-611 | what an object inherits: an attribute has an entry exactly when one of its own policies or of those of the containers up to the base, nearest first, decides it |
| Policies.Ldap.ConcernsIff | univention-directory-manager-modules-slim/univention/admin/uldap_docker.py:613-639 | a policy is merged exactly when it has a type, its filter matches, the object has every class it requires and none that it prohibits |
| Policies.Ldap.ProhibitedClassIsIgnored | univention-directory-manager-modules-slim/univention/admin/uldap_docker.py:638-639 | a prohibited class that the object has is reason enough not to merge |
| Policies.Ldap.MissingClassIsIgnored | univention-directory-manager-modules-slim/univention/admin/uldap_docker.py:636-637 | so is a required class that it lacks |
| Policies.Ldap.UnmatchedIsIgnored | univention-directory-manager-modules-slim/univention/admin/uldap_docker.py:628-634 | so is a filter that does not match |
| Policies.Ldap.TypelessIsIgnored | univention-directory-manager-modules-slim/univention/admin/uldap_docker.py:622-626 | so is having none but the generic classes |
| Policies.StartPoliciesAre | univention-directory-manager-modules-slim/univention/admin/uldap_docker.py:573-586 | given references count before passed policies, and those before the stored references, which are read only when no attributes are given |
| Policies.StartClassesIff | univention-directory-manager-modules-slim/univention/admin/uldap_docker.py:579-588 | the given classes count only if references are given too; case is folded |
| Policies.SameDnIff | univention-directory-manager-modules-slim/univention/admin/uldap_docker.py:65-66 | the walk stops at the base whatever the letter case of the DN |
| Policies.Ldap.VisitedInOrder | univention-directory-manager-modules-slim/univention/admin/uldap_docker.py:586-608 | the walk visits the object's own policies and then those of each container, up to the base or to the first container that does not exist |
| Policies.Ldap.DecisionIsUnique | univention-directory-manager-modules-slim/univention/admin/uldap_docker.py:649-664 | only one policy decides an attribute |
| Policies.Ldap.DecisionExists | univention-directory-manager-modules-slim/univention/admin/uldap_docker.py:649-664 | as soon as some applicable policy mentions an attribute, one decides it |
| Policies.Ldap.MergedEntry | univention-directory-manager-modules-slim/univention/admin/uldap_docker.py:649-664 | one merge adds what is missing, overrides what it fixes and keeps the rest |
| Policies.Access.MergePolicy | univention-directory-manager-modules-slim/univention/admin/uldap_docker.py:613-664 | the in-place merge with its filters, required and prohibited classes |
| Policies.Access.GetPolicies | univention-directory-manager-modules-slim/univention/admin/uldap_docker.py:559-611 | the walk to the base merges the policies of each container in order, and ends because every step drops one RDN |
| ModifyList.ModifyListApplies | univention-directory-manager-modules-slim/univention/admin/uldap_docker.py:746-781 | on an entry with the old values the server accepts the list and ends with the entry the changes ask for |
| ModifyList.ModifyListAppliesIff | univention-directory-manager-modules-slim/univention/admin/uldap_docker.py:746-781 | exactly when: an attribute to be added to has to be empty, one to be deleted has to hold the old values or, if they cannot be compared, any, an unsent change has to hold the new values already, and a replacement always works |
| ModifyList.WantedValues | univention-directory-manager-modules-slim/univention/admin/uldap_docker.py:746-781 | that entry has exactly the new values of every changed attribute and the old ones of every other |
| ModifyList.EmptyIffUnchanged | univention-directory-manager-modules-slim/univention/admin/uldap_docker.py:746-757 | the list is empty exactly when all old and new values agree and come in the same form |
| ModifyList.BuildModifyList | univention-directory-manager-modules-slim/univention/admin/uldap_docker.py:746-781 | the loop builds the list operation by operation |
| ModifyList.AddOverOldIsRefused | univention-directory-manager-modules-slim/univention/admin/uldap_docker.py:762-764 | without the premise it fails: a value that is already there makes the server refuse the whole list |
| ModifyList.DeletionSent | univention-directory-manager-modules-slim/univention/admin/uldap_docker.py:765-779 | a deletion names the old values except for the six attributes that the server cannot compare |
| UrlCache.SameAnswerIff | kelvin-api/ucsschool/kelvin/urls.py:31-51 | all requests of one route get the same URL for a name exactly when no candidate can overtake the leading one |
| UrlCache.LeaderWins | kelvin-api/ucsschool/kelvin/urls.py:31-51 | when no candidate can overtake, every request resolves to the candidate that follows the template's literals furthest, the first of them on a tie |
| UrlCache.LruCache.CachedUrlFor | kelvin-api/ucsschool/kelvin/urls.py:54-75 | under that condition any mix of hits, misses and evictions answers what the uncached resolution would; the entry used moves to the end, and a new one evicts the oldest when there are 10240 |
| UrlCache.PartingAtALiteralIsNotEnough | kelvin-api/ucsschool/kelvin/urls.py:31-51 | candidates that part at a literal segment can still be told apart by an earlier parameter |
| UrlCache.MatchingPathSegments | kelvin-api/ucsschool/kelvin/urls.py:17-28 | the loop counts the common leading segments, ignoring empty ones |
| UrlCache.SegmentsAre | kelvin-api/ucsschool/kelvin/urls.py:17-28 | a path is cut at its slashes, and empty pieces do not count |
| UrlCache.KeysAgreeIff | kelvin-api/ucsschool/kelvin/urls.py:31-70 | two requests share a cache entry exactly when name, parameters, scheme, host and route agree |
| UrlCache.KeysWithoutRoute | kelvin-api/ucsschool/kelvin/urls.py:31-35 | without a route the path itself takes its place in the key |
| UrlCache.UrlForSameApiPrefix | kelvin-api/ucsschool/kelvin/urls.py:31-51 | the loop returns the first candidate of the best score, or no match |
| UrlCache.Best | kelvin-api/ucsschool/kelvin/urls.py:31-51 | the resolution picks the first of the best scores, and fails exactly when there is no candidate |
| Configuration.LastFileWins | ucs-school-import/modules/ucsschool/importer/configuration.py:151-169 | after any number of compatible files every key path holds the value of the last file that defines it |
| Configuration.LayeredIsMerge | ucs-school-import/modules/ucsschool/importer/configuration.py:151-169 | loading compatible files never fails and is their merge |
| Configuration.UpdatedIsMergeIff | ucs-school-import/modules/ucsschool/importer/configuration.py:92-114 | the update is the plain merge exactly when no dictionary meets a scalar it would have to replace |
| Configuration.MergeAssociative | ucs-school-import/modules/ucsschool/importer/configuration.py:92-114 | merging compatible layers is associative |
| Configuration.LookupMerged | ucs-school-import/modules/ucsschool/importer/configuration.py:92-114 | a key path of a merge is that of the later layer, or else of the earlier |
| Configuration.UpdatesAssociate | ucs-school-import/modules/ucsschool/importer/configuration.py:92-114 | for any files: two updates that succeed one after the other are one update with the second applied to the first |
| Configuration.UpdateRaisesIff | ucs-school-import/modules/ucsschool/importer/configuration.py:92-114 | an update raises exactly when some key path holds a scalar in the one and a dictionary that is not empty in the other |
| Configuration.LookupUpdated | ucs-school-import/modules/ucsschool/importer/configuration.py:92-114 | for any two files: a successful update takes every scalar of the later one and keeps those of the earlier one that it does not cover |
| Configuration.CombinedUpdateHidesAFailure | ucs-school-import/modules/ucsschool/importer/configuration.py:92-114 | the converse fails: a concrete case of three files where only the combined update succeeds |
| ConfigurationTree.Dictionary.RecursiveTypedUpdate | ucs-school-import/modules/ucsschool/importer/configuration.py:92-114 | the update in place computes the recursive update, leaves the other dictionary as it was and shares no node with it |
| ConfigurationTree.Load | ucs-school-import/modules/ucsschool/importer/configuration.py:145-169 | folding the files into one configuration, or failing where a file fails |

## Left out

- Reads and writes of the REST API on the same database: their code is not part of this model, which covers runs of the connector alone.
- Email-sender links in the convergence theorems: they are one-directional and the other object's event does not restore them; they are in the integrity invariant, redelivery and repair.
- Length limits of text columns, the JSON form of UDM properties, dates and UUID syntax.
- The name pattern of host groups beyond recognising them: events carry the school name and the kind.
- The provisioning consumer library: the queue is a list, and polling with nothing to deliver is a step without effect.
- Renaming an entry when its RDN attribute changes, and the zero value of the two Kerberos end dates (uldap_docker.py:758-760, 784-790).
- The conjunction callback of the tree walk, which runs after the children.
- Replacing `fqdn` filters, and parsing a sub-range of a text.
- The URL-to-name and URL-to-DN caches: their keys omit the request, and the second one asks LDAP.
- Floating point numbers and nested lists in configuration files; a list is a list of texts.
- ConfigurationTree.Dictionary.RecursiveTypedUpdate: says nothing about the dictionary it was updating when it raises, because the exception ends the loading. Callables as values are not modelled.
- Policies.Access.MergePolicy: joins the three key lists as the code intends; in Python 3 adding a key view to a list raises.
- SyncManager.SynchronizationManager.HandleEvent: does not follow an exception of the database driver other than a violated key or a failed validation, which the consumer model covers as a transient failure.
- Host lists of DNs without an RDN: the code raises, the model reads an empty name.
