/** Filters as unshared trees of mutable nodes: the walk rewrites leaves in place. */
module FilterTree {
  import opened Filter

  /** Every leaf replaced, everything else as it was. */
  function Rewritten(f: Filter, rewrite: Filter -> Filter): Filter {
    match f
    case Conjunction(kind, filters) => Conjunction(kind, RewrittenAll(filters, rewrite))
    case Expression(_, _, _, _) => rewrite(f)
  }

  function RewrittenAll(filters: seq<Filter>, rewrite: Filter -> Filter): (r: seq<Filter>)
    ensures |r| == |filters|
    ensures forall i :: 0 <= i < |r| ==> r[i] == Rewritten(filters[i], rewrite)
  {
    if filters == [] then [] else [Rewritten(filters[0], rewrite)] + RewrittenAll(filters[1..], rewrite)
  }

  /** The leaves from left to right. */
  function Leaves(f: Filter): seq<Filter> {
    match f
    case Conjunction(_, filters) => LeavesAll(filters)
    case Expression(_, _, _, _) => [f]
  }

  function LeavesAll(filters: seq<Filter>): seq<Filter> {
    if filters == [] then [] else Leaves(filters[0]) + LeavesAll(filters[1..])
  }

  lemma {:induction false} LeavesOfMore(filters: seq<Filter>, f: Filter)
    ensures LeavesAll(filters + [f]) == LeavesAll(filters) + Leaves(f)
    decreases |filters|
  {
    if filters == [] {
      assert (filters + [f])[1..] == [];
    } else {
      LeavesOfMore(filters[1..], f);
      assert (filters + [f])[1..] == filters[1..] + [f];
    }
  }

  ghost predicate Apart(nodes: seq<Node>)
    reads nodes
  {
    forall i, j :: 0 <= i < j < |nodes| ==> nodes[i].Repr !! nodes[j].Repr
  }

  ghost function NodesOf(nodes: seq<Node>): set<Node>
    reads nodes
  {
    set i, n | 0 <= i < |nodes| && n in nodes[i].Repr :: n
  }

  /** `transform_to_conjunction` changes the class of an object, so one class
      stands for both. */
  class Node {
    var isConjunction: bool
    var kind: char
    var children: seq<Node>
    var variable: string
    var value: string
    var operator: string
    var escape: bool
    ghost var Repr: set<Node>

    /** The nodes below form an unshared tree that stands for the filter. */
    ghost predicate Is(f: Filter): (tree: bool)
      reads this, Repr
      ensures tree ==> this in Repr
      decreases f
    {
      && this in Repr
      && match f
         case Expression(v, x, op, e) =>
           !isConjunction && children == [] && variable == v && value == x && operator == op && escape == e
         case Conjunction(k, filters) =>
           && isConjunction && kind == k && |children| == |filters|
           && (forall i :: 0 <= i < |children| ==>
                 children[i] in Repr && children[i].Repr <= Repr - {this} && children[i].Is(filters[i]))
           && Apart(children)
    }

    constructor Leaf(variable: string, value: string, operator: string, escape: bool)
      ensures Is(Filter.Expression(variable, value, operator, escape)) && fresh(Repr)
    {
      isConjunction, kind, children := false, '&', [];
      this.variable, this.value, this.operator, this.escape := variable, value, operator, escape;
      Repr := {this};
    }

    constructor Branch(kind: char, children: seq<Node>, ghost filters: seq<Filter>)
      requires |children| == |filters| && forall i :: 0 <= i < |children| ==> children[i].Is(filters[i])
      requires Apart(children)
      ensures Is(Filter.Conjunction(kind, filters))
      ensures Repr == {this} + NodesOf(children)
    {
      isConjunction, this.kind, this.children := true, kind, children;
      variable, value, operator, escape := "", "", "=", false;
      Repr := {this} + NodesOf(children);
    }

    /** Take over class and contents of a conjunction nobody else keeps. */
    method TransformToConjunction(con: Node, ghost f: Filter)
      requires f.Conjunction? && con.Is(f) && this !in con.Repr
      modifies this
      ensures Is(f) && Repr == {this} + (con.Repr - {con})
    {
      isConjunction, kind, children := con.isConjunction, con.kind, con.children;
      variable, value, operator, escape := con.variable, con.value, con.operator, con.escape;
      Repr := {this} + (con.Repr - {con});
    }

    /** What a leaf callback does to its node: change the fields, or install a
        conjunction it built. */
    method Replace(f: Filter)
      modifies this
      ensures Is(f) && fresh(Repr - {this})
    {
      match f
      case Expression(v, x, op, e) =>
        isConjunction, children, variable, value, operator, escape := false, [], v, x, op, e;
        Repr := {this};
      case Conjunction(_, _) =>
        var con := Build(f);
        TransformToConjunction(con, f);
    }

    /** The first `i` children are rewritten, the others are as they were and
        made of the given nodes. */
    ghost predicate Halfway(f: Filter, rewrite: Filter -> Filter, i: nat, nodes: set<Node>)
      requires f.Conjunction? && |children| == |f.filters|
      reads this, children, NodesOf(children)
    {
      && (forall j :: 0 <= j < |children| ==> this !in children[j].Repr && children[j] in children[j].Repr)
      && (forall j :: 0 <= j < |children| && j < i ==> children[j].Is(Rewritten(f.filters[j], rewrite)))
      && (forall j :: i <= j < |children| ==> children[j].Repr <= nodes && children[j].Is(f.filters[j]))
      && Apart(children)
    }

    /** Visit the leaves of the tree as it was, once each and from left to right,
        and leave the tree with exactly those leaves replaced. */
    method Walk(rewrite: Filter -> Filter, ghost f: Filter) returns (visited: seq<Filter>)
      requires Is(f)
      modifies Repr
      ensures Is(Rewritten(f, rewrite)) && fresh(Repr - old(Repr))
      ensures visited == Leaves(f)
      decreases f, 2
    {
      if isConjunction {
        visited := WalkChildren(rewrite, f);
      } else {
        var leaf := Filter.Expression(variable, value, operator, escape);
        visited := [leaf];
        assert f == leaf;
        hide Is;
        Replace(rewrite(leaf));
      }
    }

    method WalkChildren(rewrite: Filter -> Filter, ghost f: Filter) returns (visited: seq<Filter>)
      requires f.Conjunction? && Is(f)
      modifies Repr
      ensures Is(Rewritten(f, rewrite)) && fresh(Repr - old(Repr))
      ensures visited == LeavesAll(f.filters)
      decreases f, 1
    {
      hide *;
      visited := [];
      assert f.filters[..0] == [];
      NothingWalked(rewrite, f);
      ghost var nodes := Repr;
      for i := 0 to |children|
        invariant isConjunction && kind == f.kind && children == old(children) && Repr == nodes
        invariant Halfway(f, rewrite, i, nodes)
        invariant forall n :: n in NodesOf(children) ==> n in nodes || fresh(n)
        invariant visited == LeavesAll(f.filters[..i])
      {
        ChildNodes(rewrite, f, i, nodes);
        var seen := WalkChild(rewrite, f, i, nodes);
        visited := visited + seen;
        LeavesOfMore(f.filters[..i], f.filters[i]);
        assert f.filters[..i + 1] == f.filters[..i] + [f.filters[i]];
      }
      assert f.filters[..|children|] == f.filters;
      Adopt(rewrite, f, nodes);
    }

    lemma NothingWalked(rewrite: Filter -> Filter, f: Filter)
      requires f.Conjunction? && Is(f)
      ensures isConjunction && kind == f.kind && |children| == |f.filters| && this in Repr
      ensures Halfway(f, rewrite, 0, Repr) && NodesOf(children) <= Repr
      ensures LeavesAll([]) == []
    {
      hide Rewritten;
    }

    lemma ChildNodes(rewrite: Filter -> Filter, f: Filter, i: nat, nodes: set<Node>)
      requires f.Conjunction? && |children| == |f.filters| && i < |children| && Halfway(f, rewrite, i, nodes)
      ensures children[i].Repr <= nodes && this !in children[i].Repr
    {
      hide Is, Rewritten;
    }

    method WalkChild(rewrite: Filter -> Filter, ghost f: Filter, i: nat, ghost nodes: set<Node>)
      returns (visited: seq<Filter>)
      requires f.Conjunction? && |children| == |f.filters| && i < |children| && Halfway(f, rewrite, i, nodes)
      modifies children[i].Repr
      ensures Halfway(f, rewrite, i + 1, nodes)
      ensures forall n :: n in NodesOf(children) ==> n in old(NodesOf(children)) || fresh(n)
      ensures visited == Leaves(f.filters[i])
      decreases f, 0
    {
      hide Is, Rewritten, Leaves;
      assert forall j :: 0 <= j < |children| && j != i ==> children[j].Repr !! children[i].Repr;
      visited := children[i].Walk(rewrite, f.filters[i]);
    }

    /** The nodes of a walked conjunction are those of its children. */
    ghost method Adopt(rewrite: Filter -> Filter, f: Filter, nodes: set<Node>)
      requires f.Conjunction? && isConjunction && kind == f.kind && |children| == |f.filters|
      requires Halfway(f, rewrite, |children|, nodes)
      modifies this`Repr
      ensures Is(Rewritten(f, rewrite)) && Repr == {this} + old(NodesOf(children))
    {
      hide Is, Apart, Rewritten;
      assert forall j :: 0 <= j < |children| ==> children[j] != this;
      Repr := {this} + NodesOf(children);
      assert forall j :: 0 <= j < |children| ==> children[j].Is(Rewritten(f.filters[j], rewrite));
      assert forall j :: 0 <= j < |children| ==> children[j].Repr <= Repr;
      Formed(f, rewrite);
    }

    lemma Formed(f: Filter, rewrite: Filter -> Filter)
      requires f.Conjunction? && isConjunction && kind == f.kind && |children| == |f.filters| && this in Repr
      requires forall j :: 0 <= j < |children| ==>
                 && children[j] in Repr && children[j].Repr <= Repr - {this}
                 && children[j].Is(Rewritten(f.filters[j], rewrite))
      requires Apart(children)
      ensures Is(Rewritten(f, rewrite))
    {
      hide Apart;
    }

    method Append(node: Node, ghost g: Filter, ghost f: Filter)
      requires f.Conjunction? && Is(f) && node.Is(g) && node.Repr !! Repr
      modifies this
      ensures Is(Filter.Conjunction(f.kind, f.filters + [g])) && Repr == old(Repr) + node.Repr
    {
      assert forall j :: 0 <= j < |children| ==>
               children[j] in children[j].Repr && children[j].Repr <= Repr - {this} && children[j].Is(f.filters[j]);
      assert Apart(children) && isConjunction && kind == f.kind && |children| == |f.filters| && this in Repr;
      hide Is;
      ghost var kept := children;
      children := children + [node];
      Repr := Repr + node.Repr;
      assert forall j :: 0 <= j < |kept| ==> kept[j].Is(f.filters[j]);
      assert node.Is(g);
      assert Apart(children);
    }

    /** Parse a filter text, rewrite its leaves, and add it to the conjunction. */
    method AppendUnmapped(text: string, rewrite: Filter -> Filter, ghost f: Filter) returns (r: Result<()>)
      requires Is(f) && f.Conjunction?
      modifies this
      ensures r.Ok? <==> text == "" || Parsed(text).Ok?
      ensures fresh(Repr - old(Repr))
      ensures r.Err? ==> r.error == Parsed(text).error && Is(f)
      ensures r.Ok? ==>
                Is(if text == "" then f
                   else Filter.Conjunction(f.kind, f.filters + [Rewritten(Parsed(text).value, rewrite)]))
    {
      if text != "" {
        var parsed := Parse(text);
        if parsed.Err? {
          return Err(parsed.error);
        }
        var node := Build(parsed.value);
        var _ := node.Walk(rewrite, parsed.value);
        hide Is, Parsed;
        Append(node, Rewritten(parsed.value, rewrite), f);
      }
      r := Ok(());
    }
  }

  /** A fresh tree for a filter. */
  method Build(f: Filter) returns (n: Node)
    ensures n.Is(f) && fresh(n.Repr)
    decreases f, 1, 0
  {
    if f.Expression? {
      n := new Node.Leaf(f.variable, f.value, f.operator, f.escape);
    } else {
      hide *;
      var children := BuildAll(f.filters, f);
      n := new Node.Branch(f.kind, children, f.filters);
    }
  }

  method BuildAll(filters: seq<Filter>, ghost parent: Filter) returns (nodes: seq<Node>)
    requires forall i :: 0 <= i < |filters| ==> filters[i] < parent
    ensures |nodes| == |filters| && Apart(nodes)
    ensures forall i :: 0 <= i < |nodes| ==> nodes[i].Is(filters[i])
    ensures forall n :: n in NodesOf(nodes) ==> fresh(n)
    decreases parent, 0, |filters|
  {
    hide Apart, Node.Is;
    if filters == [] {
      nodes := [];
      NoNodes(nodes);
    } else {
      var rest := BuildAll(filters[1..], parent);
      var first := Build(filters[0]);
      nodes := [first] + rest;
      MoreNodes(first, rest);
    }
  }

  lemma NoNodes(nodes: seq<Node>)
    requires nodes == []
    ensures Apart(nodes) && NodesOf(nodes) == {}
  {
  }

  lemma MoreNodes(first: Node, rest: seq<Node>)
    ensures NodesOf([first] + rest) == first.Repr + NodesOf(rest)
    ensures Apart(rest) && first.Repr !! NodesOf(rest) ==> Apart([first] + rest)
  {
    var all := [first] + rest;
    assert forall i :: 0 <= i < |rest| ==> all[i + 1] == rest[i];
    assert all[0] == first;
    forall n | n in NodesOf(rest) ensures n in NodesOf(all) {
      var i :| 0 <= i < |rest| && n in rest[i].Repr;
      assert n in all[i + 1].Repr;
    }
  }

  /******* Flattening *******/

  method Flatten(f: Filter) returns (leaves: seq<Filter>)
    ensures leaves == Flattened(f)
    decreases f
  {
    match f
    case Expression(_, _, _, _) => leaves := [f];
    case Conjunction(kind, filters) =>
      leaves := [];
      if kind == '|' {
        return;
      }
      for i := 0 to |filters|
        invariant leaves + FlattenedAll(filters[i..]) == FlattenedAll(filters)
      {
        assert filters[i..][1..] == filters[i + 1..];
        var more := Flatten(filters[i]);
        assert leaves + (more + FlattenedAll(filters[i + 1..])) == (leaves + more) + FlattenedAll(filters[i + 1..]);
        leaves := leaves + more;
      }
  }

  function Flattened(f: Filter): seq<Filter> {
    match f
    case Conjunction(kind, filters) => if kind == '|' then [] else FlattenedAll(filters)
    case Expression(_, _, _, _) => [f]
  }

  function FlattenedAll(filters: seq<Filter>): seq<Filter> {
    if filters == [] then [] else Flattened(filters[0]) + FlattenedAll(filters[1..])
  }

  /** Whether a filter matches an entry, given which leaves hold of it. */
  predicate Matches(f: Filter, holds: Filter -> bool) {
    match f
    case Expression(_, _, _, _) => holds(f)
    case Conjunction(kind, filters) =>
      if kind == '&' then forall i :: 0 <= i < |filters| ==> Matches(filters[i], holds)
      else if kind == '|' then exists i :: 0 <= i < |filters| && Matches(filters[i], holds)
      else forall i :: 0 <= i < |filters| ==> !Matches(filters[i], holds)
  }

  predicate Uses(f: Filter, c: char) {
    match f
    case Expression(_, _, _, _) => false
    case Conjunction(kind, filters) => kind == c || exists i :: 0 <= i < |filters| && Uses(filters[i], c)
  }

  predicate AllHold(leaves: seq<Filter>, holds: Filter -> bool) {
    forall l :: l in leaves ==> holds(l)
  }

  /** A negation outside of every disjunction. Below one, nothing is flattened. */
  predicate Negates(f: Filter) {
    f.Conjunction? && f.kind != '|' && (f.kind != '&' || exists i :: 0 <= i < |f.filters| && Negates(f.filters[i]))
  }

  /** Without such a negation the leaves hold on every matching entry; without
      disjunction as well they hold together exactly on those entries. */
  lemma {:induction false} FlattenedHold(f: Filter, holds: Filter -> bool)
    requires !Negates(f)
    ensures Matches(f, holds) ==> AllHold(Flattened(f), holds)
    ensures !Uses(f, '|') ==> (Matches(f, holds) <==> AllHold(Flattened(f), holds))
    decreases f, 1, 0
  {
    if f.Conjunction? && f.kind == '&' {
      FlattenedAllHold(f.filters, holds, f);
      assert !Uses(f, '|') ==> forall i :: 0 <= i < |f.filters| ==> !Uses(f.filters[i], '|');
    }
  }

  lemma {:induction false} FlattenedAllHold(filters: seq<Filter>, holds: Filter -> bool, f: Filter)
    requires forall i :: 0 <= i < |filters| ==> filters[i] < f && !Negates(filters[i])
    ensures (forall i :: 0 <= i < |filters| ==> Matches(filters[i], holds)) ==> AllHold(FlattenedAll(filters), holds)
    ensures (forall i :: 0 <= i < |filters| ==> !Uses(filters[i], '|')) ==>
              ((forall i :: 0 <= i < |filters| ==> Matches(filters[i], holds)) <==> AllHold(FlattenedAll(filters), holds))
    decreases f, 0, |filters|
  {
    if filters != [] {
      FlattenedHold(filters[0], holds);
      FlattenedAllHold(filters[1..], holds, f);
      assert forall i :: 0 < i < |filters| ==> filters[i] == filters[1..][i - 1];
      assert AllHold(FlattenedAll(filters), holds)
          <==> AllHold(Flattened(filters[0]), holds) && AllHold(FlattenedAll(filters[1..]), holds);
    }
  }

  /** Without disjunction these are all the leaves, from left to right. */
  lemma {:induction false} FlattenedAreLeaves(f: Filter)
    requires !Uses(f, '|')
    ensures Flattened(f) == Leaves(f)
    decreases f, 1, 0
  {
    if f.Conjunction? {
      FlattenedAllAreLeaves(f.filters, f);
    }
  }

  lemma {:induction false} FlattenedAllAreLeaves(filters: seq<Filter>, f: Filter)
    requires forall i :: 0 <= i < |filters| ==> filters[i] < f && !Uses(filters[i], '|')
    ensures FlattenedAll(filters) == LeavesAll(filters)
    decreases f, 0, |filters|
  {
    if filters != [] {
      FlattenedAreLeaves(filters[0]);
      FlattenedAllAreLeaves(filters[1..], f);
    }
  }

  /** With negation it goes wrong: the leaf of `(!(a=b))` fails on the entries
      the filter matches. */
  lemma NegationIsLost(leaf: Filter, holds: Filter -> bool)
    requires leaf.Expression?
    ensures Flattened(Conjunction('!', [leaf])) == [leaf]
    ensures Matches(Conjunction('!', [leaf]), holds) <==> !AllHold([leaf], holds)
  {
    assert [leaf][1..] == [];
    assert FlattenedAll([leaf]) == [leaf] + FlattenedAll([]);
    assert leaf in [leaf];
    assert [leaf][0] == leaf;
  }
}
