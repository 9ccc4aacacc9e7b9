/** Policy inheritance: policies are merged while walking from an object up to
    the base of the directory. */
module Policies {
  import opened Text
  import opened TextFacts

  type Attributes = map<string, seq<string>>

  /** An entry, with its policy references apart from its other attributes. */
  datatype Entry = Entry(attrs: Attributes, references: seq<Dn>)

  type Directory = map<Dn, Entry>

  datatype PolicyValue = PolicyValue(policy: Dn, value: seq<string>, fixed: bool)

  /** Values by policy type and attribute. */
  type Inherited = map<string, map<string, PolicyValue>>

  /** The object the policies are for: its lower-cased classes, and which
      filters match it. */
  datatype Subject = Subject(classes: set<string>, matched: string -> bool)

  /** What the caller passes instead of the stored attributes. */
  datatype Given = Given(classes: Option<seq<string>>, references: Option<seq<Dn>>, others: bool)

  const GENERIC_CLASSES := {"top", "univentionPolicy", "univentionObject"}

  const CONTROL_ATTRIBUTES := {
    "requiredObjectClasses", "prohibitedObjectClasses", "fixedAttributes", "emptyAttributes",
    "objectClass", "cn", "univentionObjectType", "ldapFilter"}

  function Values(attrs: Attributes, key: string): seq<string> {
    if key in attrs then attrs[key] else []
  }

  function ValueSet(attrs: Attributes, key: string): set<string> {
    set v | v in Values(attrs, key)
  }

  function LowerAll(classes: seq<string>): set<string> {
    set c | c in classes :: Lower(c)
  }

  predicate SameDn(a: Dn, b: Dn) {
    |a| == |b| && forall i :: 0 <= i < |a| ==> Lower(a[i].attr) == Lower(b[i].attr) && Lower(a[i].value) == Lower(b[i].value)
  }

  /** The container above, unless this is the base. */
  function ParentDn(dn: Dn, base: Dn): Dn {
    if dn == [] || SameDn(dn, base) then [] else dn[1..]
  }

  /** A directory with its base; `pick` is the class that is popped from the
      classes of a policy. */
  datatype Ldap = Ldap(entries: Directory, base: Dn, pick: set<string> -> string) {
    function Get(dn: Dn): Entry {
      if dn != [] && dn in entries then entries[dn] else Entry(map[], [])
    }

    /** The type of a policy: its class that is not generic. */
    function PolicyType(attrs: Attributes): Option<string> {
      var classes := ValueSet(attrs, "objectClass") - GENERIC_CLASSES;
      if classes == {} then None else Some(pick(classes))
    }

    predicate Applies(p: Dn, o: Subject) {
      var attrs := Get(p).attrs;
      && PolicyType(attrs).Some?
      && (Values(attrs, "ldapFilter") != [] ==> o.matched(Values(attrs, "ldapFilter")[0]))
      && (forall c :: c in Values(attrs, "requiredObjectClasses") ==> Lower(c) in o.classes)
      && !exists c :: c in Values(attrs, "prohibitedObjectClasses") && Lower(c) in o.classes
    }

    function Fixed(p: Dn): set<string> { ValueSet(Get(p).attrs, "fixedAttributes") }

    function Empty(p: Dn): set<string> { ValueSet(Get(p).attrs, "emptyAttributes") }

    function Mentioned(p: Dn): set<string> {
      Empty(p) + Get(p).attrs.Keys + Fixed(p) - CONTROL_ATTRIBUTES
    }

    function ValueOf(p: Dn, key: string): PolicyValue {
      PolicyValue(p, if key in Empty(p) then [] else Values(Get(p).attrs, key), key in Fixed(p))
    }

    function OfType(result: Inherited, t: string): map<string, PolicyValue> {
      if t in result then result[t] else map[]
    }

    /** A policy adds what is not there yet and overrides what it fixes. */
    function Merged(result: Inherited, p: Dn, o: Subject): Inherited {
      if !Applies(p, o) then result
      else
        var t := PolicyType(Get(p).attrs).value;
        result[t := MergedValues(OfType(result, t), p)]
    }

    function MergedValues(values: map<string, PolicyValue>, p: Dn): map<string, PolicyValue> {
      PutKeys(values, p, Mentioned(p))
    }

    function PutKeys(values: map<string, PolicyValue>, p: Dn, keys: set<string>): map<string, PolicyValue> {
      map k | k in values.Keys + keys
        :: if k in keys && (k !in values || k in Fixed(p)) then ValueOf(p, k) else values[k]
    }

    /** Setting a key once more changes nothing. */
    lemma PutOneKey(values: map<string, PolicyValue>, p: Dn, keys: set<string>, k: string)
      ensures PutKeys(values, p, keys + {k})
           == if k !in PutKeys(values, p, keys) || k in Fixed(p) then PutKeys(values, p, keys)[k := ValueOf(p, k)]
              else PutKeys(values, p, keys)
    {
      hide Fixed, ValueOf;
    }

    function MergedAll(policies: seq<Dn>, o: Subject): Inherited
      decreases |policies|
    {
      if policies == [] then map[]
      else Merged(MergedAll(policies[..|policies| - 1], o), policies[|policies| - 1], o)
    }

    /** The policies in walk order: those of the object, then those referred to
        from each container up to the base or to one that does not exist. */
    function Visited(dn: Dn, policies: seq<Dn>): seq<Dn>
      decreases |dn|
    {
      if dn == [] then []
      else
        var parent := ParentDn(dn, base);
        if parent == [] || parent !in entries then policies
        else policies + Visited(parent, entries[parent].references)
    }

    lemma MergedNone(o: Subject)
      ensures MergedAll([], o) == map[]
    {
    }

    lemma VisitedFrom(dn: Dn, policies: seq<Dn>)
      requires dn != []
      ensures |ParentDn(dn, base)| < |dn|
      ensures Visited(dn, policies)
           == if ParentDn(dn, base) == [] || ParentDn(dn, base) !in entries then policies
              else policies + Visited(ParentDn(dn, base), entries[ParentDn(dn, base)].references)
    {
    }

    lemma MergedOneMore(policies: seq<Dn>, p: Dn, o: Subject)
      ensures MergedAll(policies + [p], o) == Merged(MergedAll(policies, o), p, o)
    {
      hide Merged;
      assert (policies + [p])[..|policies|] == policies;
    }

    /******* The walk *******/

    /** The walk gets k containers up: none below is the base, and each exists. */
    predicate Reaches(dn: Dn, k: nat) {
      && k < |dn|
      && (forall i :: 0 <= i < k ==> !SameDn(dn[i..], base))
      && (forall i :: 1 <= i <= k ==> dn[i..] in entries)
    }

    /** The references of the first n containers, nearest first. */
    function References(dn: Dn, n: nat): seq<seq<Dn>>
      requires n < |dn|
    {
      seq(n, k requires 0 <= k < n => Get(dn[k + 1..]).references)
    }

    lemma ReachesFrom(dn: Dn, k: nat)
      requires dn != []
      ensures Reaches(dn, k + 1) <==>
                ParentDn(dn, base) != [] && ParentDn(dn, base) in entries && Reaches(ParentDn(dn, base), k)
    {
      hide SameDn;
      var up := dn[1..];
      assert dn[0..] == dn;
      assert forall i :: 0 <= i < |dn| ==> up[i..] == dn[i + 1..];
      assert forall i :: 1 <= i <= |dn| ==> dn[i..] == up[i - 1..];
    }

    /** The walk ends somewhere. */
    lemma WalkEnds(dn: Dn)
      requires dn != []
      ensures exists n: nat :: Reaches(dn, n) && !Reaches(dn, n + 1)
      decreases |dn|
    {
      var parent := ParentDn(dn, base);
      ReachesFrom(dn, 0);
      assert Reaches(dn, 0);
      if parent != [] && parent in entries {
        WalkEnds(parent);
        var n: nat :| Reaches(parent, n) && !Reaches(parent, n + 1);
        ReachesFrom(dn, n);
        ReachesFrom(dn, n + 1);
      } else {
        assert !Reaches(dn, 0 + 1);
      }
    }

    /** The object's own policies, then those of each container up to the last
        one that is reached. */
    lemma {:induction false} VisitedInOrder(dn: Dn, policies: seq<Dn>, n: nat)
      requires Reaches(dn, n) && !Reaches(dn, n + 1)
      ensures Visited(dn, policies) == policies + Concat(References(dn, n))
      decreases |dn|
    {
      var parent := ParentDn(dn, base);
      if n == 0 {
        ReachesFrom(dn, 0);
      } else {
        ReachesFrom(dn, n - 1);
        ReachesFrom(dn, n);
        VisitedInOrder(parent, entries[parent].references, n - 1);
        assert References(dn, n)[1..] == References(parent, n - 1);
      }
    }

    /******* The closed form *******/

    /** The values that the directory holds for an attribute of a policy. */
    function Stored(p: Dn, attribute: string): seq<string> {
      if p != [] && p in entries && attribute in entries[p].attrs then entries[p].attrs[attribute] else []
    }

    /** The policy is for the object: it has a type, its filter matches, the object
        has the classes it requires and none that it prohibits. */
    predicate Concerns(p: Dn, o: Subject) {
      && (exists c :: c in Stored(p, "objectClass") && c != "top" && c != "univentionPolicy" && c != "univentionObject")
      && (Stored(p, "ldapFilter") != [] ==> o.matched(Stored(p, "ldapFilter")[0]))
      && (forall c :: c in Stored(p, "requiredObjectClasses") ==> Lower(c) in o.classes)
      && (forall c :: c in Stored(p, "prohibitedObjectClasses") ==> Lower(c) !in o.classes)
    }

    predicate HasType(p: Dn, t: string) {
      t == pick(set c | c in Stored(p, "objectClass") && c != "top" && c != "univentionPolicy" && c != "univentionObject")
    }

    /** The policy has the attribute, or lists it as empty or as fixed; what
        controls the policy itself does not count. */
    predicate Lists(p: Dn, key: string) {
      && (key in Stored(p, "emptyAttributes") || key in Stored(p, "fixedAttributes")
          || (p != [] && p in entries && key in entries[p].attrs))
      && key != "requiredObjectClasses" && key != "prohibitedObjectClasses" && key != "fixedAttributes"
      && key != "emptyAttributes" && key != "objectClass" && key != "cn" && key != "univentionObjectType" && key != "ldapFilter"
    }

    /** What it says about the attribute. */
    function EntryOf(p: Dn, key: string): PolicyValue {
      PolicyValue(p, if key in Stored(p, "emptyAttributes") then [] else Stored(p, key), key in Stored(p, "fixedAttributes"))
    }

    predicate MentionsAs(p: Dn, o: Subject, t: string, key: string) {
      Concerns(p, o) && HasType(p, t) && Lists(p, key)
    }

    predicate FixesAs(p: Dn, o: Subject, t: string, key: string) {
      MentionsAs(p, o, t, key) && key in Stored(p, "fixedAttributes")
    }

    lemma StoredIs(p: Dn, attribute: string)
      ensures Values(Get(p).attrs, attribute) == Stored(p, attribute)
    {
    }

    lemma ConcernsIff(p: Dn, o: Subject)
      ensures Applies(p, o) <==> Concerns(p, o)
      ensures Applies(p, o) ==> forall t :: PolicyType(Get(p).attrs) == Some(t) <==> HasType(p, t)
    {
      hide Get, Lower;
      StoredIs(p, "objectClass");
      StoredIs(p, "ldapFilter");
      StoredIs(p, "requiredObjectClasses");
      StoredIs(p, "prohibitedObjectClasses");
      var special := ValueSet(Get(p).attrs, "objectClass") - GENERIC_CLASSES;
      assert forall c :: c in special <==>
               c in Stored(p, "objectClass") && c != "top" && c != "univentionPolicy" && c != "univentionObject";
      if special != {} {
        var c :| c in special;
      }
      assert special
          == set c | c in Stored(p, "objectClass") && c != "top" && c != "univentionPolicy" && c != "univentionObject";
    }

    lemma ListsIff(p: Dn, key: string)
      ensures key in Mentioned(p) <==> Lists(p, key)
      ensures key in Fixed(p) <==> key in Stored(p, "fixedAttributes")
      ensures ValueOf(p, key) == EntryOf(p, key)
    {
      StoredIs(p, "emptyAttributes");
      StoredIs(p, "fixedAttributes");
      StoredIs(p, key);
    }

    /** Each reason alone keeps a policy from being merged. */
    lemma TypelessIsIgnored(result: Inherited, p: Dn, o: Subject)
      requires forall c :: c in Stored(p, "objectClass") ==> c == "top" || c == "univentionPolicy" || c == "univentionObject"
      ensures Merged(result, p, o) == result
    {
      ConcernsIff(p, o);
    }

    lemma UnmatchedIsIgnored(result: Inherited, p: Dn, o: Subject)
      requires Stored(p, "ldapFilter") != [] && !o.matched(Stored(p, "ldapFilter")[0])
      ensures Merged(result, p, o) == result
    {
      ConcernsIff(p, o);
    }

    lemma MissingClassIsIgnored(result: Inherited, p: Dn, o: Subject, c: string)
      requires c in Stored(p, "requiredObjectClasses") && Lower(c) !in o.classes
      ensures Merged(result, p, o) == result
    {
      ConcernsIff(p, o);
    }

    lemma ProhibitedClassIsIgnored(result: Inherited, p: Dn, o: Subject, c: string)
      requires c in Stored(p, "prohibitedObjectClasses") && Lower(c) in o.classes
      ensures Merged(result, p, o) == result
    {
      ConcernsIff(p, o);
    }

    /** The policy that decides an attribute: the last one that fixes it, or, if
        none fixes it, the first one that mentions it. */
    predicate Decides(policies: seq<Dn>, o: Subject, t: string, key: string, i: nat) {
      && i < |policies| && MentionsAs(policies[i], o, t, key)
      && if FixesAs(policies[i], o, t, key) then
           forall j :: i < j < |policies| ==> !FixesAs(policies[j], o, t, key)
         else
           && (forall j :: 0 <= j < |policies| ==> !FixesAs(policies[j], o, t, key))
           && (forall j :: 0 <= j < i ==> !MentionsAs(policies[j], o, t, key))
    }

    ghost predicate HasEntry(result: Inherited, t: string, key: string) {
      t in result && key in result[t]
    }

    lemma MergedEntry(result: Inherited, p: Dn, o: Subject, t: string, key: string)
      ensures HasEntry(Merged(result, p, o), t, key) <==> (HasEntry(result, t, key) || MentionsAs(p, o, t, key))
      ensures HasEntry(Merged(result, p, o), t, key) ==>
                Merged(result, p, o)[t][key]
                == if FixesAs(p, o, t, key) || !HasEntry(result, t, key) then EntryOf(p, key) else result[t][key]
      ensures t in Merged(result, p, o) <==> t in result || (Concerns(p, o) && HasType(p, t))
    {
      hide Mentioned, Fixed, ValueOf, Applies, Concerns, PolicyType, HasType, Lists, EntryOf, Stored, Get;
      ConcernsIff(p, o);
      ListsIff(p, key);
      TypeOfApplied(p, o);
    }

    lemma TypeOfApplied(p: Dn, o: Subject)
      ensures Applies(p, o) ==> PolicyType(Get(p).attrs).Some?
    {
    }

    /** There is only one deciding policy. */
    lemma DecisionIsUnique(policies: seq<Dn>, o: Subject, t: string, key: string, i: nat, j: nat)
      requires Decides(policies, o, t, key, i) && Decides(policies, o, t, key, j)
      ensures i == j
    {
      hide MentionsAs, Stored;
    }

    /** Some policy decides as soon as some policy mentions. */
    lemma {:induction false} DecisionExists(policies: seq<Dn>, o: Subject, t: string, key: string, m: nat)
      requires m < |policies| && MentionsAs(policies[m], o, t, key)
      ensures exists i: nat :: Decides(policies, o, t, key, i)
      decreases |policies|
    {
      hide MentionsAs, Stored;
      var n := |policies| - 1;
      var before := policies[..n];
      if FixesAs(policies[n], o, t, key) {
        assert Decides(policies, o, t, key, n);
      } else if exists j: nat :: j < n && MentionsAs(before[j], o, t, key) {
        var j: nat :| j < n && MentionsAs(before[j], o, t, key);
        DecisionExists(before, o, t, key, j);
        var i: nat :| Decides(before, o, t, key, i);
        SameDecision(policies, o, t, key, i);
      } else {
        assert forall j :: 0 <= j < n ==> before[j] == policies[j];
        assert Decides(policies, o, t, key, n);
      }
    }

    /** A last policy that does not fix leaves earlier decisions alone. */
    lemma SameDecision(policies: seq<Dn>, o: Subject, t: string, key: string, i: nat)
      requires policies != [] && !FixesAs(policies[|policies| - 1], o, t, key) && i < |policies| - 1
      ensures Decides(policies, o, t, key, i) <==> Decides(policies[..|policies| - 1], o, t, key, i)
    {
      hide MentionsAs, Stored;
      var n := |policies| - 1;
      assert forall j :: 0 <= j < n ==> policies[..n][j] == policies[j];
    }

    ghost predicate Decided(policies: seq<Dn>, o: Subject, t: string, key: string) {
      exists i: nat :: Decides(policies, o, t, key, i)
    }

    /** After the walk, an attribute has an entry exactly when some policy
        decides it, and the entry is that policy's. */
    lemma {:induction false} ClosedForm(policies: seq<Dn>, o: Subject, t: string, key: string)
      ensures HasEntry(MergedAll(policies, o), t, key) <==> Decided(policies, o, t, key)
      ensures forall i: nat :: Decides(policies, o, t, key, i) ==>
                HasEntry(MergedAll(policies, o), t, key)
                && MergedAll(policies, o)[t][key] == EntryOf(policies[i], key)
      decreases |policies|
    {
      hide Merged, EntryOf, MentionsAs, Stored;
      if policies != [] {
        var n := |policies| - 1;
        var before, p := policies[..n], policies[n];
        var earlier := MergedAll(before, o);
        ClosedForm(before, o, t, key);
        MergedEntry(earlier, p, o, t, key);
        if FixesAs(p, o, t, key) || (MentionsAs(p, o, t, key) && !Decided(before, o, t, key)) {
          forall j: nat | j < n && MentionsAs(before[j], o, t, key) ensures Decided(before, o, t, key) {
            DecisionExists(before, o, t, key, j);
          }
          assert forall j :: 0 <= j < n ==> before[j] == policies[j];
          assert Decides(policies, o, t, key, n);
          forall i: nat | Decides(policies, o, t, key, i) ensures i == n {
            DecisionIsUnique(policies, o, t, key, i, n);
          }
        } else {
          if MentionsAs(p, o, t, key) {
            var d: nat :| Decides(before, o, t, key, d);
            assert before[d] == policies[d] && MentionsAs(policies[d], o, t, key);
          }
          assert !Decides(policies, o, t, key, n);
          forall i: nat ensures Decides(policies, o, t, key, i) <==> Decides(before, o, t, key, i) {
            if i < n {
              SameDecision(policies, o, t, key, i);
            }
          }
          assert forall j :: 0 <= j < n ==> before[j] == policies[j];
        }
      }
    }

    /** What an object inherits: an attribute has an entry exactly when one of
        its own policies or of those of the reached containers decides it. */
    lemma InheritedEntry(dn: Dn, policies: seq<Dn>, n: nat, o: Subject, t: string, key: string)
      requires Reaches(dn, n) && !Reaches(dn, n + 1)
      ensures var inherited := MergedAll(Visited(dn, policies), o);
              var inOrder := policies + Concat(References(dn, n));
              && (HasEntry(inherited, t, key) <==> Decided(inOrder, o, t, key))
              && (forall i: nat :: Decides(inOrder, o, t, key, i) ==>
                    HasEntry(inherited, t, key) && inherited[t][key] == EntryOf(inOrder[i], key))
    {
      hide *;
      VisitedInOrder(dn, policies, n);
      ClosedForm(Visited(dn, policies), o, t, key);
    }
  }

  function Concat(parts: seq<seq<Dn>>): seq<Dn> {
    if parts == [] then [] else parts[0] + Concat(parts[1..])
  }

  /** The result dictionary that the merge fills in place. */
  class Result {
    var types: Inherited

    constructor ()
      ensures types == map[]
    {
      types := map[];
    }
  }

  class Access {
    const ldap: Ldap

    constructor (ldap: Ldap)
      ensures this.ldap == ldap
    {
      this.ldap := ldap;
    }

    method MergePolicy(p: Dn, o: Subject, result: Result)
      modifies result
      ensures result.types == ldap.Merged(old(result.types), p, o)
    {
      var attrs := ldap.Get(p).attrs;
      if attrs == map[] {
        return;
      }
      var ptype := ldap.PolicyType(attrs);
      if ptype == None {
        return;
      }
      if Values(attrs, "ldapFilter") != [] && !o.matched(Values(attrs, "ldapFilter")[0]) {
        return;
      }
      if exists c :: c in Values(attrs, "requiredObjectClasses") && Lower(c) !in o.classes {
        return;
      }
      if exists c :: c in Values(attrs, "prohibitedObjectClasses") && Lower(c) in o.classes {
        return;
      }
      assert ldap.Applies(p, o);
      hide ldap.Applies, ldap.PolicyType, Lower, ValueSet;
      var emptyList := Listed(ldap.Empty(p));
      var attrList := Listed(attrs.Keys);
      var fixedList := Listed(ldap.Fixed(p));
      var keys := emptyList + attrList + fixedList;
      var values := SetKeys(p, keys, ldap.OfType(result.types, ptype.value));
      assert values == ldap.MergedValues(ldap.OfType(result.types, ptype.value), p);
      result.types := result.types[ptype.value := values];
    }

    /** Keys may come several times: each time they get the same value. */
    method SetKeys(p: Dn, keys: seq<string>, start: map<string, PolicyValue>) returns (values: map<string, PolicyValue>)
      requires forall k :: k in ldap.Mentioned(p) <==> k in keys && k !in CONTROL_ATTRIBUTES
      ensures values == ldap.MergedValues(start, p)
    {
      hide ldap.Mentioned, ldap.Fixed, ldap.Empty, ldap.ValueOf, ldap.PutKeys;
      values := start;
      var attrs := ldap.Get(p).attrs;
      var fixedKeys, emptyKeys := ldap.Fixed(p), ldap.Empty(p);
      ghost var done: set<string> := {};
      NoKeys(start, p);
      for i := 0 to |keys|
        invariant values == ldap.PutKeys(start, p, done)
        invariant forall k :: k in done <==> k in keys[..i] && k !in CONTROL_ATTRIBUTES
      {
        var key := keys[i];
        if key !in CONTROL_ATTRIBUTES {
          ldap.PutOneKey(start, p, done, key);
          done := done + {key};
          if key !in values || key in fixedKeys {
            var value := if key in emptyKeys then [] else Values(attrs, key);
            ValueIs(p, key);
            values := values[key := PolicyValue(p, value, key in fixedKeys)];
          }
        }
      }
      assert keys[..|keys|] == keys;
      assert done == ldap.Mentioned(p);
    }

    lemma NoKeys(values: map<string, PolicyValue>, p: Dn)
      ensures ldap.PutKeys(values, p, {}) == values
    {
    }

    lemma ValueIs(p: Dn, key: string)
      ensures ldap.ValueOf(p, key)
           == PolicyValue(p, if key in ldap.Empty(p) then [] else Values(ldap.Get(p).attrs, key), key in ldap.Fixed(p))
    {
    }

    /** Collect the policies of an object from itself up to the base. */
    method GetPolicies(dn: Dn, policies: seq<Dn>, given: Given, matched: string -> bool) returns (r: Result)
      ensures fresh(r)
      ensures r.types == if dn == [] then map[]
                         else ldap.MergedAll(ldap.Visited(dn, StartPolicies(ldap, dn, policies, given)),
                                             Subject(StartClasses(ldap, dn, given), matched))
    {
      hide *;
      r := new Result();
      ldap.MergedNone(Subject(StartClasses(ldap, dn, given), matched));
      if dn == [] && policies == [] {
        return;
      }
      var o := Subject(StartClasses(ldap, dn, given), matched);
      var dn', policies' := dn, StartPolicies(ldap, dn, policies, given);
      if dn != [] {
        ghost var all := ldap.Visited(dn', policies');
        ghost var seen: seq<Dn> := [];
        while true
          invariant dn' != [] && all == seen + ldap.Visited(dn', policies')
          invariant r.types == ldap.MergedAll(seen, o) && fresh(r)
          decreases |dn'|
        {
          MergeEach(policies', o, r, seen);
          seen := seen + policies';
          ldap.VisitedFrom(dn', policies');
          dn' := ParentDn(dn', ldap.base);
          if dn' == [] || dn' !in ldap.entries {
            assert all == seen;
            break;
          }
          policies' := ldap.entries[dn'].references;
        }
      }
    }

    method MergeEach(policies: seq<Dn>, o: Subject, result: Result, ghost seen: seq<Dn>)
      requires result.types == ldap.MergedAll(seen, o)
      modifies result
      ensures result.types == ldap.MergedAll(seen + policies, o)
    {
      hide *;
      assert seen + policies[..0] == seen;
      for i := 0 to |policies|
        invariant result.types == ldap.MergedAll(seen + policies[..i], o)
      {
        MergePolicy(policies[i], o, result);
        assert seen + policies[..i + 1] == (seen + policies[..i]) + [policies[i]];
        ldap.MergedOneMore(seen + policies[..i], policies[i], o);
      }
      assert policies[..|policies|] == policies;
    }
  }

  function StartClasses(ldap: Ldap, dn: Dn, given: Given): set<string> {
    LowerAll(if given.classes.Some? && given.references.Some? then given.classes.value
             else Values(ldap.Get(dn).attrs, "objectClass"))
  }

  function StartPolicies(ldap: Ldap, dn: Dn, policies: seq<Dn>, given: Given): seq<Dn> {
    if given.references.Some? then given.references.value
    else if policies == [] && given.classes.None? && !given.others then ldap.Get(dn).references
    else policies
  }

  /** The classes of the object are the given ones only if references are given
      too; case is folded. */
  lemma StartClassesIff(ldap: Ldap, dn: Dn, given: Given, c: string)
    ensures c in StartClasses(ldap, dn, given) <==>
              if given.classes.Some? && given.references.Some? then exists k :: k in given.classes.value && c == Lower(k)
              else exists k :: k in ldap.Stored(dn, "objectClass") && c == Lower(k)
  {
    ldap.StoredIs(dn, "objectClass");
  }

  /** Given references count before passed policies, and those before the stored
      references, which are read only when no attributes at all are given. */
  lemma StartPoliciesAre(ldap: Ldap, dn: Dn, policies: seq<Dn>, given: Given)
    ensures given.references.Some? ==> StartPolicies(ldap, dn, policies, given) == given.references.value
    ensures given.references.None? && policies != [] ==> StartPolicies(ldap, dn, policies, given) == policies
    ensures given == Given(None, None, false) && policies == [] && dn != [] && dn in ldap.entries ==>
              StartPolicies(ldap, dn, policies, given) == ldap.entries[dn].references
    ensures (&& given.references.None? && policies == []
             && (given.classes.Some? || given.others || dn == [] || dn !in ldap.entries)) ==>
              StartPolicies(ldap, dn, policies, given) == []
  {
  }

  /** Two DNs are the same when they differ in letter case only. */
  lemma SameDnIff(a: Dn, b: Dn)
    ensures SameDn(a, b) <==>
              |a| == |b| && forall i :: 0 <= i < |a| ==> SameLetters(a[i].attr, b[i].attr) && SameLetters(a[i].value, b[i].value)
  {
    forall i | 0 <= i < |a| && i < |b|
      ensures Lower(a[i].attr) == Lower(b[i].attr) <==> SameLetters(a[i].attr, b[i].attr)
      ensures Lower(a[i].value) == Lower(b[i].value) <==> SameLetters(a[i].value, b[i].value)
    {
      LowerIff(a[i].attr, b[i].attr);
      LowerIff(a[i].value, b[i].value);
    }
    hide Lower, SameLetters;
  }

  method Listed(s: set<string>) returns (l: seq<string>)
    ensures forall x :: x in l <==> x in s
  {
    l := [];
    var todo := s;
    while todo != {}
      invariant todo <= s && forall x :: x in l <==> x in s - todo
      decreases |todo|
    {
      var x :| x in todo;
      l := l + [x];
      todo := todo - {x};
    }
  }
}
