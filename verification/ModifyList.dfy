/** Turning a list of attribute changes into LDAP modify operations. */
module ModifyList {
  import opened Text

  /** A value as callers pass it: nothing, a single text, or a list. */
  datatype Value = Nothing | One(text: string) | Many(texts: seq<string>)

  datatype Change = Change(key: string, before: Value, after: Value)

  /** No values at all stands for deleting the whole attribute. */
  datatype Modification =
    | Add(key: string, values: Value)
    | Delete(key: string, removed: Option<Value>)
    | Replace(key: string, values: Value)

  predicate Truthy(v: Value) {
    match v
    case Nothing => false
    case One(text) => text != ""
    case Many(texts) => texts != []
  }

  /** The attribute values that are meant: none for a falsy value. */
  function ValuesOf(v: Value): set<string> {
    match v
    case Nothing => {}
    case One(text) => if text == "" then {} else {text}
    case Many(texts) => set t | t in texts
  }

  /** Attributes whose values cannot be compared by the server. */
  const NO_MATCHING_RULE := {
    "preferredDeliveryMethod", "jpegPhoto", "univentionPortalBackground", "univentionPortalLogo",
    "univentionPortalEntryIcon", "univentionUMCIcon"}

  function Built(c: Change): Option<Modification> {
    if Truthy(c.before) && Truthy(c.after) then
      if c.before == c.after || (c.before.Many? && c.after.Many? && ValuesOf(c.before) == ValuesOf(c.after)) then None
      else Some(Replace(c.key, c.after))
    else if Truthy(c.after) then Some(Add(c.key, c.after))
    else if Truthy(c.before) then Some(Delete(c.key, if c.key in NO_MATCHING_RULE then None else Some(c.before)))
    else None
  }

  function Sent(c: Change): seq<Modification> {
    match Built(c) case None => [] case Some(m) => [m]
  }

  function BuiltAll(changes: seq<Change>): seq<Modification> {
    if changes == [] then [] else Sent(changes[0]) + BuiltAll(changes[1..])
  }

  method BuildModifyList(changes: seq<Change>) returns (ml: seq<Modification>)
    ensures ml == BuiltAll(changes)
  {
    ml := [];
    assert changes[..0] == [];
    for i := 0 to |changes|
      invariant ml == BuiltAll(changes[..i])
    {
      var m := BuildOne(changes[i]);
      if m.Some? {
        ml := ml + [m.value];
      }
      assert changes[..i + 1] == changes[..i] + [changes[i]];
      BuiltAllMore(changes[..i], changes[i]);
    }
    assert changes[..|changes|] == changes;
  }

  method BuildOne(c: Change) returns (m: Option<Modification>)
    ensures m == Built(c)
  {
    var key, before, after := c.key, c.before, c.after;
    if Truthy(before) && Truthy(after) {
      if before == after || (before.Many? && after.Many? && ValuesOf(before) == ValuesOf(after)) {
        return None;
      }
      m := Some(Replace(key, after));
    } else if !Truthy(before) && Truthy(after) {
      m := Some(Add(key, after));
    } else if Truthy(before) && !Truthy(after) {
      var values := Some(before);
      if key in NO_MATCHING_RULE {
        values := None;
      }
      m := Some(Delete(key, values));
    } else {
      m := None;
    }
  }

  lemma {:induction false} BuiltAllMore(changes: seq<Change>, c: Change)
    ensures BuiltAll(changes + [c]) == BuiltAll(changes) + Sent(c)
    decreases |changes|
  {
    hide Sent;
    if changes == [] {
      assert changes + [c] == [c] && [c][1..] == [];
      assert BuiltAll([c]) == Sent(c) + BuiltAll([]);
    } else {
      assert (changes + [c])[1..] == changes[1..] + [c];
      BuiltAllMore(changes[1..], c);
    }
  }

  /******* What the server does (section 4.6 of RFC 4511) *******/

  /** The attributes of an entry; none is without a value. */
  type Entry = map<string, set<string>>

  datatype Result = Modified(entry: Entry) | Refused

  function Held(entry: Entry, key: string): set<string> {
    if key in entry then entry[key] else {}
  }

  function With(entry: Entry, key: string, values: set<string>): Entry {
    if values == {} then entry - {key} else entry[key := values]
  }

  function ApplyOne(entry: Entry, m: Modification): Result {
    match m
    case Add(key, v) =>
      // adding a value that is already there is an error
      if ValuesOf(v) !! Held(entry, key) then Modified(With(entry, key, Held(entry, key) + ValuesOf(v))) else Refused
    case Delete(key, v) =>
      if key !in entry then Refused
      else if v.None? then Modified(With(entry, key, {}))
      else if ValuesOf(v.value) <= entry[key] then Modified(With(entry, key, entry[key] - ValuesOf(v.value)))
      else Refused
    case Replace(key, v) => Modified(With(entry, key, ValuesOf(v)))
  }

  /** The operations are performed in order, and all or none of them. */
  function ApplyAll(entry: Entry, ml: seq<Modification>): Result
    decreases |ml|
  {
    if ml == [] then Modified(entry)
    else
      match ApplyOne(entry, ml[0])
      case Refused => Refused
      case Modified(next) => ApplyAll(next, ml[1..])
  }

  ghost predicate Distinct(changes: seq<Change>) {
    forall i, j :: 0 <= i < j < |changes| ==> changes[i].key != changes[j].key
  }

  ghost predicate NoEmptyAttributes(entry: Entry) {
    forall k :: k in entry ==> entry[k] != {}
  }

  ghost predicate HoldsOld(entry: Entry, changes: seq<Change>) {
    forall i :: 0 <= i < |changes| ==> Held(entry, changes[i].key) == ValuesOf(changes[i].before)
  }

  /** The entry that the changes ask for. */
  function Wanted(entry: Entry, changes: seq<Change>): Entry
    decreases |changes|
  {
    if changes == [] then entry
    else Wanted(With(entry, changes[0].key, ValuesOf(changes[0].after)), changes[1..])
  }

  lemma TruthyIff(v: Value)
    ensures Truthy(v) <==> ValuesOf(v) != {}
  {
    if v.Many? && v.texts != [] {
      assert v.texts[0] in ValuesOf(v);
    }
  }

  /** What the attribute has to hold for one change: nothing before an addition,
      the old values before a deletion, any value where they cannot be compared,
      and the new values already if nothing is sent. A replacement always works. */
  predicate Fits(entry: Entry, c: Change) {
    var held := Held(entry, c.key);
    match Built(c)
    case None => held == ValuesOf(c.after)
    case Some(Add(_, _)) => held == {}
    case Some(Delete(_, v)) => if v.None? then held != {} else held == ValuesOf(c.before)
    case Some(Replace(_, _)) => true
  }

  lemma ApplySent(entry: Entry, c: Change)
    ensures ApplyAll(entry, Sent(c)) == match Built(c) case None => Modified(entry) case Some(m) => ApplyOne(entry, m)
  {
    hide Built, ApplyOne;
    var ml := Sent(c);
    if ml != [] {
      assert ml[1..] == [];
      match ApplyOne(entry, ml[0])
      case Refused =>
      case Modified(next) =>
    }
  }

  lemma WithIff(entry: Entry, key: string, values: set<string>, wanted: set<string>)
    requires NoEmptyAttributes(entry)
    ensures With(entry, key, values) == With(entry, key, wanted) <==> values == wanted
    ensures With(entry, key, wanted) == entry <==> Held(entry, key) == wanted
    ensures Held(With(entry, key, wanted), key) == wanted && NoEmptyAttributes(With(entry, key, wanted))
  {
    assert Held(With(entry, key, values), key) == values;
    if Held(entry, key) == wanted {
      assert With(entry, key, wanted) == entry;
    }
  }

  lemma SentFits(entry: Entry, c: Change)
    requires NoEmptyAttributes(entry)
    ensures ApplyAll(entry, Sent(c)) == Modified(With(entry, c.key, ValuesOf(c.after))) <==> Fits(entry, c)
    ensures ApplyAll(entry, Sent(c)).Modified? ==>
              && NoEmptyAttributes(ApplyAll(entry, Sent(c)).entry)
              && (Held(ApplyAll(entry, Sent(c)).entry, c.key) == ValuesOf(c.after) ==> Fits(entry, c))
  {
    hide NoEmptyAttributes, With, ApplyAll;
    var held, before, after := Held(entry, c.key), ValuesOf(c.before), ValuesOf(c.after);
    ApplySent(entry, c);
    TruthyIff(c.before);
    TruthyIff(c.after);
    WithIff(entry, c.key, held + after, after);
    WithIff(entry, c.key, held - before, after);
    WithIff(entry, c.key, after, held + after);
    WithIff(entry, c.key, after, held - before);
    WithIff(entry, c.key, {}, after);
    HeldThen(held, before, after);
    OnlyHeld(entry, c.key);
  }

  lemma HeldThen(held: set<string>, before: set<string>, after: set<string>)
    ensures held !! after ==> (held + after == after <==> held == {})
    ensures before <= held ==> (held - before == {} <==> held == before)
  {
    assert forall x :: x in held ==> x in held + after;
    assert before <= held ==> forall x :: x in held ==> x in before || x in held - before;
  }

  lemma OnlyHeld(entry: Entry, key: string)
    requires NoEmptyAttributes(entry)
    ensures key in entry <==> Held(entry, key) != {}
  {
  }

  lemma {:induction false} ApplyAllSplit(entry: Entry, first: seq<Modification>, rest: seq<Modification>)
    requires |first| <= 1
    ensures ApplyAll(entry, first + rest)
         == match ApplyAll(entry, first) case Refused => Refused case Modified(next) => ApplyAll(next, rest)
  {
    if first == [] {
      assert first + rest == rest;
    } else {
      assert (first + rest)[1..] == rest && first[1..] == [];
    }
  }

  /** Operations on other attributes leave this one as it is. */
  lemma {:induction false} OtherAttributesStay(entry: Entry, changes: seq<Change>, key: string)
    requires forall i :: 0 <= i < |changes| ==> changes[i].key != key
    requires ApplyAll(entry, BuiltAll(changes)).Modified?
    ensures Held(ApplyAll(entry, BuiltAll(changes)).entry, key) == Held(entry, key)
    decreases |changes|
  {
    if changes != [] {
      var c, rest := changes[0], changes[1..];
      assert BuiltAll(changes) == Sent(c) + BuiltAll(rest);
      ApplyAllSplit(entry, Sent(c), BuiltAll(rest));
      SentKeepsOthers(entry, c, key);
      assert forall i :: 0 <= i < |rest| ==> rest[i] == changes[i + 1];
      OtherAttributesStay(ApplyAll(entry, Sent(c)).entry, rest, key);
    }
  }

  lemma SentKeepsOthers(entry: Entry, c: Change, key: string)
    requires key != c.key && ApplyAll(entry, Sent(c)).Modified?
    ensures Held(ApplyAll(entry, Sent(c)).entry, key) == Held(entry, key)
  {
    var ml := Sent(c);
    if ml != [] {
      assert ml[1..] == [];
    }
  }

  /** The built list is accepted and leaves exactly the entry the changes ask
      for just when every change fits what the entry holds. */
  lemma {:induction false} ModifyListAppliesIff(entry: Entry, changes: seq<Change>)
    requires NoEmptyAttributes(entry) && Distinct(changes)
    ensures ApplyAll(entry, BuiltAll(changes)) == Modified(Wanted(entry, changes))
      <==> forall i :: 0 <= i < |changes| ==> Fits(entry, changes[i])
    decreases |changes|
  {
    if changes != [] {
      var c, rest := changes[0], changes[1..];
      var next := With(entry, c.key, ValuesOf(c.after));
      assert BuiltAll(changes) == Sent(c) + BuiltAll(rest);
      ApplyAllSplit(entry, Sent(c), BuiltAll(rest));
      SentFits(entry, c);
      assert forall i :: 0 <= i < |rest| ==> rest[i] == changes[i + 1];
      assert Distinct(rest);
      if Fits(entry, c) {
        ModifyListAppliesIff(next, rest);
        RestFits(entry, next, changes);
      } else if ApplyAll(entry, BuiltAll(changes)).Modified? {
        OtherAttributesStay(ApplyAll(entry, Sent(c)).entry, rest, c.key);
        WantedValues(entry, changes, c.key);
        assert changes[0].key == c.key;
      }
    }
  }

  lemma RestFits(entry: Entry, next: Entry, changes: seq<Change>)
    requires changes != [] && Distinct(changes) && next == With(entry, changes[0].key, ValuesOf(changes[0].after))
    requires Fits(entry, changes[0])
    ensures (forall i :: 0 <= i < |changes[1..]| ==> Fits(next, changes[1..][i]))
      <==> forall i :: 0 <= i < |changes| ==> Fits(entry, changes[i])
  {
    hide Built;
    forall i | 0 < i < |changes| ensures Fits(next, changes[1..][i - 1]) <==> Fits(entry, changes[i]) {
      assert changes[1..][i - 1] == changes[i] && changes[0].key != changes[i].key;
    }
    if forall i :: 0 <= i < |changes[1..]| ==> Fits(next, changes[1..][i]) {
      forall i | 0 <= i < |changes| ensures Fits(entry, changes[i]) {
        if i > 0 { assert Fits(next, changes[1..][i - 1]); }
      }
    }
    if forall i :: 0 <= i < |changes| ==> Fits(entry, changes[i]) {
      forall i | 0 <= i < |changes[1..]| ensures Fits(next, changes[1..][i]) {
        assert Fits(entry, changes[i + 1]);
      }
    }
  }

  /** On an entry that holds the old values every change fits. */
  lemma ModifyListApplies(entry: Entry, changes: seq<Change>)
    requires NoEmptyAttributes(entry) && Distinct(changes) && HoldsOld(entry, changes)
    ensures ApplyAll(entry, BuiltAll(changes)) == Modified(Wanted(entry, changes))
  {
    forall i | 0 <= i < |changes| ensures Fits(entry, changes[i]) {
      TruthyIff(changes[i].before);
      TruthyIff(changes[i].after);
    }
    ModifyListAppliesIff(entry, changes);
  }

  /** A deletion names the old values, except for the attributes that the server
      cannot compare: these are deleted as a whole. */
  lemma DeletionSent(c: Change)
    requires ValuesOf(c.before) != {} && ValuesOf(c.after) == {}
    ensures Sent(c) == [Delete(c.key,
              if c.key == "preferredDeliveryMethod" || c.key == "jpegPhoto" || c.key == "univentionPortalBackground"
                || c.key == "univentionPortalLogo" || c.key == "univentionPortalEntryIcon" || c.key == "univentionUMCIcon"
              then None else Some(c.before))]
  {
    TruthyIff(c.before);
    TruthyIff(c.after);
  }

  /** Every changed attribute gets exactly its new values, every other one
      keeps what it had. */
  lemma {:induction false} WantedValues(entry: Entry, changes: seq<Change>, key: string)
    requires Distinct(changes)
    ensures forall i :: 0 <= i < |changes| && changes[i].key == key ==>
              Held(Wanted(entry, changes), key) == ValuesOf(changes[i].after)
    ensures (forall i :: 0 <= i < |changes| ==> changes[i].key != key) ==>
              Held(Wanted(entry, changes), key) == Held(entry, key)
    decreases |changes|
  {
    if changes != [] {
      var rest := changes[1..];
      assert forall i :: 0 <= i < |rest| ==> rest[i] == changes[i + 1];
      assert Distinct(rest);
      WantedValues(With(entry, changes[0].key, ValuesOf(changes[0].after)), rest, key);
      forall i | 0 <= i < |changes| && changes[i].key == key
        ensures Held(Wanted(entry, changes), key) == ValuesOf(changes[i].after)
      {
        if i > 0 { assert rest[i - 1].key == key; }
      }
    }
  }

  /** Nothing is sent exactly when each change asks for the values there are,
      given in the same form: a text against a list is sent even if equal. */
  lemma {:induction false} EmptyIffUnchanged(changes: seq<Change>)
    ensures BuiltAll(changes) == [] <==>
              forall i :: 0 <= i < |changes| ==>
                && ValuesOf(changes[i].before) == ValuesOf(changes[i].after)
                && (Truthy(changes[i].before) ==> changes[i].before.One? == changes[i].after.One?)
  {
    if changes != [] {
      var c, rest := changes[0], changes[1..];
      assert forall i :: 0 <= i < |rest| ==> rest[i] == changes[i + 1];
      assert forall i :: 0 < i < |changes| ==> changes[i] == rest[i - 1];
      EmptyIffUnchanged(rest);
      TruthyIff(c.before);
      TruthyIff(c.after);
      if c.before.One? && c.after.One? && Truthy(c.before) && ValuesOf(c.before) == ValuesOf(c.after) {
        assert c.before.text in ValuesOf(c.after);
      }
    }
  }

  /** The server refuses the list when an added value is already there. */
  lemma AddOverOldIsRefused(entry: Entry, c: Change, text: string)
    requires c.before == Nothing && c.after == One(text) && text != "" && text in Held(entry, c.key)
    ensures ApplyAll(entry, BuiltAll([c])) == Refused
  {
    assert [c][1..] == [] && BuiltAll([c]) == [Add(c.key, c.after)];
    assert text in ValuesOf(c.after) * Held(entry, c.key);
  }
}
