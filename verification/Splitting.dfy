/** Splitting any text, balanced or not, into its groups. */
module Splitting {
  import opened Text
  import opened Filter

  /** How many parentheses are open after the first i characters, less those that
      close nothing. */
  function Depth(s: string, i: nat): int
    requires i <= |s|
  {
    if i == 0 then 0
    else Depth(s, i - 1) + (if s[i - 1] == '(' then 1 else if s[i - 1] == ')' then -1 else 0)
  }

  /** A group opens at depth 0 and closes where that depth is reached again. */
  ghost predicate GroupAt(s: string, a: nat, b: nat) {
    && a < b <= |s| && s[a] == '('
    && Depth(s, a) == 0 && Depth(s, b) == 0
    && forall j :: a < j < b ==> Depth(s, j) != 0
  }

  /** The groups that end behind position i, in order. */
  ghost predicate AreSpans(s: string, i: nat, spans: seq<(nat, nat)>) {
    && (forall k :: 0 <= k < |spans| ==> GroupAt(s, spans[k].0, spans[k].1) && spans[k].1 > i)
    && (forall k :: 0 < k < |spans| ==> spans[k - 1].1 <= spans[k].0)
    && (forall a: nat, b: nat :: GroupAt(s, a, b) && b > i ==> (a, b) in spans)
  }

  /** A group has started at a and not ended by i. */
  ghost predicate OpenFrom(s: string, i: nat, a: nat) {
    a < i <= |s| && s[a] == '(' && Depth(s, a) == 0 && forall j :: a < j <= i ==> Depth(s, j) > 0
  }

  ghost predicate NothingOpen(s: string, i: nat) {
    forall a: nat, b: nat :: GroupAt(s, a, b) && b > i ==> a >= i
  }

  ghost predicate ScanAt(s: string, i: nat, from: Option<nat>) {
    i <= |s| && match from case None => NothingOpen(s, i) case Some(a) => OpenFrom(s, i, a)
  }

  ghost predicate NoGroupEnds(s: string, end: nat) {
    forall a: nat, b: nat :: GroupAt(s, a, b) ==> b != end
  }

  lemma DepthStep(s: string, i: nat)
    requires i < |s|
    ensures Depth(s, i + 1) == Depth(s, i) + (if s[i] == '(' then 1 else if s[i] == ')' then -1 else 0)
  {
  }

  lemma Opens(s: string, i: nat)
    requires i < |s| && s[i] == '(' && Depth(s, i) == 0
    ensures OpenFrom(s, i + 1, i)
  {
    hide Depth;
    DepthStep(s, i);
  }

  lemma StaysOpen(s: string, i: nat, a: nat)
    requires i < |s| && OpenFrom(s, i, a) && !(s[i] == ')' && Depth(s, i) == 1)
    ensures OpenFrom(s, i + 1, a)
  {
    hide Depth;
    DepthStep(s, i);
  }

  lemma Closes(s: string, i: nat, a: nat)
    requires i < |s| && OpenFrom(s, i, a) && s[i] == ')' && Depth(s, i) == 1
    ensures GroupAt(s, a, i + 1) && NothingOpen(s, i + 1)
  {
    hide Depth;
    DepthStep(s, i);
    forall c: nat, d: nat | GroupAt(s, c, d) && d > i + 1 ensures c >= i + 1 {
      OnlyOne(s, i, a, c, d);
    }
  }

  /** Of the groups that reach beyond i none starts elsewhere than the open one. */
  lemma OnlyOne(s: string, i: nat, a: nat, c: nat, d: nat)
    requires OpenFrom(s, i, a) && GroupAt(s, c, d) && d > i
    ensures c == a || c > i
    ensures d > i + 1 && i < |s| && Depth(s, i + 1) == 0 ==> c > i
  {
    hide Depth;
  }

  lemma StaysClosed(s: string, i: nat)
    requires i < |s| && NothingOpen(s, i) && !(s[i] == '(' && Depth(s, i) == 0)
    ensures NothingOpen(s, i + 1)
    ensures NoGroupEnds(s, i + 1)
  {
    hide Depth;
    DepthStep(s, i);
    forall c: nat, d: nat | GroupAt(s, c, d) && d > i ensures c > i {
      assert c >= i;
    }
  }

  lemma NoneEnds(s: string, i: nat, rest: seq<(nat, nat)>)
    requires i < |s| && AreSpans(s, i + 1, rest) && NoGroupEnds(s, i + 1)
    ensures AreSpans(s, i, rest)
  {
    hide GroupAt;
  }

  lemma OneEnds(s: string, i: nat, a: nat, rest: seq<(nat, nat)>)
    requires i < |s| && OpenFrom(s, i, a) && GroupAt(s, a, i + 1) && NothingOpen(s, i + 1) && AreSpans(s, i + 1, rest)
    ensures AreSpans(s, i, [(a, i + 1)] + rest)
  {
    hide GroupAt, OpenFrom, Depth;
    var spans := [(a, i + 1)] + rest;
    forall c: nat, d: nat | GroupAt(s, c, d) && d > i ensures (c, d) in spans {
      if d == i + 1 {
        OnlyOne(s, i, a, c, d);
        GroupBounds(s, c, d);
        assert (c, d) == spans[0];
      } else {
        assert (c, d) in rest;
      }
    }
    assert rest != [] ==> GroupAt(s, rest[0].0, rest[0].1) && rest[0].0 >= i + 1;
    assert forall k :: 0 < k < |spans| ==> spans[k] == rest[k - 1];
  }

  lemma GroupBounds(s: string, c: nat, d: nat)
    requires GroupAt(s, c, d)
    ensures c < d <= |s|
  {
  }

  function Cut(s: string, i: nat, from: Option<nat>): Option<string>
    requires i <= |s| && (from.Some? ==> from.value <= i)
  {
    if from.Some? then Some(s[from.value..i]) else None
  }

  /** What is collected from position i on: exactly the groups that end there or
      later, in order. */
  lemma {:induction false} GroupsFrom(s: string, i: nat, from: Option<nat>) returns (spans: seq<(nat, nat)>)
    requires ScanAt(s, i, from)
    ensures AreSpans(s, i, spans)
    ensures |Groups(s[i..], Depth(s, i), Cut(s, i, from))| == |spans|
    ensures forall k :: 0 <= k < |spans| ==>
              spans[k].0 <= spans[k].1 <= |s|
              && Groups(s[i..], Depth(s, i), Cut(s, i, from))[k] == s[spans[k].0..spans[k].1]
    decreases |s| - i
  {
    hide Depth, AreSpans, NothingOpen, GroupAt;
    if i == |s| {
      spans := [];
      NoneLeft(s);
    } else {
      DepthStep(s, i);
      assert s[i..][0] == s[i] && s[i..][1..] == s[i + 1..];
      if s[i] == '(' && Depth(s, i) == 0 {
        Opens(s, i);
        NothingEndsAtOpening(s, i);
        assert s[i..i + 1] == "(";
        spans := GroupsFrom(s, i + 1, Some(i));
        NoneEnds(s, i, spans);
      } else if from.Some? && s[i] == ')' && Depth(s, i) == 1 {
        Closes(s, i, from.value);
        var rest := GroupsFrom(s, i + 1, None);
        spans := [(from.value, i + 1)] + rest;
        OneEnds(s, i, from.value, rest);
        assert s[from.value..i] + ")" == s[from.value..i + 1];
      } else if from.Some? {
        StaysOpen(s, i, from.value);
        assert s[from.value..i] + [s[i]] == s[from.value..i + 1];
        spans := GroupsFrom(s, i + 1, from);
        NothingEndsInside(s, i, from.value);
        NoneEnds(s, i, spans);
      } else {
        StaysClosed(s, i);
        spans := GroupsFrom(s, i + 1, None);
        NoneEnds(s, i, spans);
      }
    }
  }

  lemma NoneLeft(s: string)
    ensures AreSpans(s, |s|, [])
  {
  }

  lemma NothingEndsAtOpening(s: string, i: nat)
    requires i < |s| && s[i] == '(' && Depth(s, i) == 0
    ensures NoGroupEnds(s, i + 1)
  {
    hide Depth;
    DepthStep(s, i);
  }

  lemma NothingEndsInside(s: string, i: nat, a: nat)
    requires OpenFrom(s, i + 1, a)
    ensures NoGroupEnds(s, i + 1)
  {
    hide Depth;
  }

  /** The pieces of a text are its groups, each once and in order. */
  lemma GroupsAre(s: string) returns (spans: seq<(nat, nat)>)
    ensures AreSpans(s, 0, spans)
    ensures |Groups(s, 0, None)| == |spans|
    ensures forall k :: 0 <= k < |spans| ==>
              spans[k].0 <= spans[k].1 <= |s| && Groups(s, 0, None)[k] == s[spans[k].0..spans[k].1]
  {
    assert s[0..] == s;
    spans := GroupsFrom(s, 0, None);
  }
}
