/** Configurations as nested mutable dictionaries, updated in place. */
module ConfigurationTree {
  import opened Text
  import opened Configuration

  datatype Item = Plain(scalar: Scalar) | Nested(dict: Dictionary)

  /** The object an item refers to, and the nodes below it. */
  ghost function Root(item: Item): set<Dictionary> {
    if item.Nested? then {item.dict} else {}
  }

  ghost function NodesIn(item: Item): set<Dictionary>
    reads Root(item)
  {
    if item.Nested? then item.dict.Repr else {}
  }

  /** The item stands for the value, in nodes from the given ones. */
  ghost predicate Fits(item: Item, w: Value, nodes: set<Dictionary>)
    reads Root(item), NodesIn(item)
    decreases w, 2
  {
    match item
    case Plain(scalar) => w == Leaf(scalar)
    case Nested(d) => d.Is(w) && d.Repr <= nodes
  }

  class Dictionary {
    var entries: map<string, Item>
    ghost var Repr: set<Dictionary>

    constructor ()
      ensures Is(Dict(map[])) && Repr == {this} && fresh(this) && entries == map[]
    {
      entries, Repr := map[], {this};
    }

    ghost function Children(): set<Dictionary>
      reads this
    {
      set j, d | j in entries && d in Root(entries[j]) :: d
    }

    ghost predicate Apart()
      reads this, Children()
    {
      forall i, j :: i in entries && j in entries && i != j ==> NodesIn(entries[i]) !! NodesIn(entries[j])
    }

    /** The dictionaries below form an unshared tree that stands for the value. */
    ghost predicate Is(v: Value): (tree: bool)
      reads this, Repr
      ensures tree ==> this in Repr && v.Dict?
      decreases v, 1
    {
      && this in Repr && v.Dict?
      && (forall k :: k in entries <==> k in v.entries)
      && (forall k :: k in entries ==>
            Root(entries[k]) <= Repr && NodesIn(entries[k]) <= Repr && Fits(entries[k], v.entries[k], Repr - {this}))
      && Apart()
    }

    /** The same with nothing said about one key, the others' nodes being among
        the given ones. */
    ghost predicate IsExcept(v: Value, k: string, nodes: set<Dictionary>)
      requires v.Dict?
      reads this, nodes
    {
      && this !in nodes
      && (forall j :: j != k ==> (j in entries <==> j in v.entries))
      && (forall j :: j in entries && j != k ==>
            Root(entries[j]) <= nodes && NodesIn(entries[j]) <= nodes && Fits(entries[j], v.entries[j], nodes))
      && (forall i, j :: i in entries && j in entries && i != j && i != k && j != k
            ==> NodesIn(entries[i]) !! NodesIn(entries[j]))
    }

    lemma Split(v: Value, k: string) returns (nodes: set<Dictionary>)
      requires Is(v)
      ensures IsExcept(v, k, nodes) && nodes <= Repr - {this}
      ensures k in entries <==> k in v.entries
      ensures k in entries ==> Fits(entries[k], v.entries[k], Repr - {this}) && NodesIn(entries[k]) !! nodes
    {
      nodes := set j, n | j in entries && j != k && n in NodesIn(entries[j]) :: n;
      forall j | j in entries && j != k
        ensures Root(entries[j]) <= NodesIn(entries[j]) <= nodes && Fits(entries[j], v.entries[j], nodes)
      {
        assert Fits(entries[j], v.entries[j], Repr - {this});
      }
      if k in entries {
        assert Fits(entries[k], v.entries[k], Repr - {this});
      }
    }

    lemma Formed(k: string, v: Value, w: Value, nodes: set<Dictionary>)
      requires v.Dict? && k in entries && IsExcept(v, k, nodes)
      requires Fits(entries[k], w, Repr - {this}) && NodesIn(entries[k]) !! nodes
      requires Repr == {this} + nodes + NodesIn(entries[k])
      ensures Is(Dict(v.entries[k := w]))
    {
      var next := Dict(v.entries[k := w]);
      assert this !in NodesIn(entries[k]) by { assert Fits(entries[k], w, Repr - {this}); }
      forall j | j in entries
        ensures j in next.entries && Fits(entries[j], next.entries[j], Repr - {this})
        ensures Root(entries[j]) <= Repr && NodesIn(entries[j]) <= Repr
      {
        if j != k {
          assert Fits(entries[j], v.entries[j], nodes);
        }
      }
      assert Apart() by {
        forall i, j | i in entries && j in entries && i != j ensures NodesIn(entries[i]) !! NodesIn(entries[j]) {
          assert i != k ==> NodesIn(entries[i]) <= nodes;
          assert j != k ==> NodesIn(entries[j]) <= nodes;
        }
      }
    }

    /** Set one key, when all the others are as they should be. */
    method Put(k: string, item: Item, ghost v: Value, ghost w: Value, ghost nodes: set<Dictionary>,
               ghost own: set<Dictionary>)
      requires v.Dict? && IsExcept(v, k, nodes)
      requires Fits(item, w, own) && this !in own && own !! nodes
      modifies this
      ensures Is(Dict(v.entries[k := w]))
      ensures Repr <= {this} + nodes + own
    {
      hide Is, IsExcept, Fits;
      FitsFacts(item, w, own);
      SetItem(k, item, v, nodes);
      SetNodes(k, v, nodes);
      FitsFacts(item, w, own);
      Formed(k, v, w, nodes);
    }

    lemma FitsFacts(item: Item, w: Value, own: set<Dictionary>)
      requires Fits(item, w, own)
      ensures Root(item) <= NodesIn(item) <= own
      ensures forall nodes :: NodesIn(item) <= nodes ==> Fits(item, w, nodes)
    {
    }

    ghost method SetNodes(k: string, v: Value, nodes: set<Dictionary>)
      requires v.Dict? && IsExcept(v, k, nodes) && k in entries && this !in NodesIn(entries[k]) + Root(entries[k])
      modifies `Repr
      ensures Repr == {this} + nodes + old(NodesIn(entries[k])) && IsExcept(v, k, nodes)
    {
      hide Fits;
      Repr := {this} + nodes + NodesIn(entries[k]);
    }

    method SetItem(k: string, item: Item, ghost v: Value, ghost nodes: set<Dictionary>)
      requires v.Dict? && IsExcept(v, k, nodes)
      modifies `entries
      ensures entries == old(entries)[k := item] && IsExcept(v, k, nodes)
    {
      hide Fits;
      entries := entries[k := item];
    }

    lemma KeysOf(v: Value)
      requires Is(v)
      ensures entries.Keys == v.entries.Keys
    {
    }

    /** Update in place with another dictionary, which stays as it is and of
        which nothing becomes part of this one. False stands for an exception. */
    method RecursiveTypedUpdate(b: Dictionary, ghost v: Value, ghost vb: Value) returns (ok: bool)
      requires Is(v) && b.Is(vb) && Repr !! b.Repr
      modifies Repr
      ensures ok <==> Updated(v, vb).Some?
      ensures ok ==> Is(Updated(v, vb).value)
      ensures forall n :: n in Repr ==> n in old(Repr) || fresh(n)
      ensures b.Is(vb) && b.Repr == old(b.Repr)
      decreases vb, 2
    {
      hide *;
      var todo := b.entries.Keys;
      ghost var current := v;
      ghost var nodes := Repr;
      b.KeysOf(vb);
      NothingUpdated(v, vb);
      while todo != {}
        invariant todo <= b.entries.Keys && b.entries == old(b.entries)
        invariant Is(current) && b.Is(vb) && b.Repr == old(b.Repr) && Repr !! b.Repr
        invariant this in Repr && forall n :: n in Repr ==> n in nodes || fresh(n)
        invariant Halfway(v, vb, current, todo)
        decreases |todo|
      {
        var k :| k in todo;
        KeyInTurn(v, vb, current, todo, k);
        ok := UpdateKey(b, k, current, vb);
        if !ok {
          return;
        }
        current := Dict(current.entries[k := UpdatedValue(At(current, k), vb.entries[k]).value]);
        todo := todo - {k};
      }
      EverythingUpdated(v, vb, current);
      ok := true;
    }

    /** One key of the other dictionary. */
    method UpdateKey(b: Dictionary, k: string, ghost v: Value, ghost vb: Value) returns (ok: bool)
      requires Is(v) && b.Is(vb) && Repr !! b.Repr && k in b.entries && k in vb.entries
      modifies Repr
      ensures ok <==> UpdatedValue(At(v, k), vb.entries[k]).Some?
      ensures ok ==> Is(Dict(v.entries[k := UpdatedValue(At(v, k), vb.entries[k]).value]))
      ensures forall n :: n in Repr ==> n in old(Repr) || fresh(n)
      decreases vb, 1
    {
      var _ := Split(v, k);
      var _ := b.Split(vb, k);
      if b.entries[k].Plain? {
        assert vb.entries[k] == Leaf(b.entries[k].scalar);
        ghost var nodes := Split(v, k);
        hide Is, IsExcept;
        Put(k, b.entries[k], v, vb.entries[k], nodes, {});
        ok := true;
      } else {
        ok := UpdateNested(b.entries[k].dict, k, v, vb.entries[k]);
      }
    }

    method UpdateNested(d: Dictionary, k: string, ghost v: Value, ghost vd: Value) returns (ok: bool)
      requires Is(v) && d.Is(vd) && Repr !! d.Repr
      modifies Repr
      ensures ok <==> UpdatedValue(At(v, k), vd).Some?
      ensures ok ==> Is(Dict(v.entries[k := UpdatedValue(At(v, k), vd).value]))
      ensures forall n :: n in Repr ==> n in old(Repr) || fresh(n)
      decreases vd, 4
    {
      ghost var nodes := Split(v, k);
      d.KeysOf(vd);
      hide Is, IsExcept, Updated;
      if k in entries && entries[k].Plain? {
        ok := d.entries == map[];
        assert ok ==> Dict(v.entries[k := v.entries[k]]) == v;
      } else {
        var child: Dictionary;
        ghost var held := Dict(map[]);
        if k in entries {
          child, held := entries[k].dict, v.entries[k];
        } else {
          child := new Dictionary();
        }
        ok := UpdateChild(child, d, k, v, held, vd, nodes);
      }
    }

    method UpdateChild(child: Dictionary, d: Dictionary, k: string, ghost v: Value, ghost held: Value,
                       ghost vd: Value, ghost nodes: set<Dictionary>)
      returns (ok: bool)
      requires v.Dict? && IsExcept(v, k, nodes) && child.Is(held) && d.Is(vd)
      requires this !in child.Repr && child.Repr !! nodes && child.Repr !! d.Repr
      modifies this, child.Repr
      ensures ok <==> Updated(held, vd).Some?
      ensures ok ==> Is(Dict(v.entries[k := Updated(held, vd).value]))
      ensures ok ==> forall n :: n in Repr ==> n == this || n in nodes || n in old(child.Repr) || fresh(n)
      ensures !ok ==> Repr == old(Repr)
      decreases vd, 3
    {
      assert this !in nodes;
      hide Is, IsExcept, Updated;
      ok := child.RecursiveTypedUpdate(d, held, vd);
      assert IsExcept(v, k, nodes);
      if ok {
        ghost var w := Updated(held, vd).value;
        assert Fits(Nested(child), w, child.Repr);
        Put(k, Nested(child), v, w, nodes, child.Repr);
      }
    }
  }

  /** A fresh tree for the object that a file holds. */
  method Read(v: Value) returns (d: Dictionary)
    requires v.Dict?
    ensures d.Is(v) && fresh(d.Repr)
    decreases v
  {
    hide *;
    d := new Dictionary();
    var todo := v.entries.Keys;
    ghost var current := Dict(map[]);
    while todo != {}
      invariant todo <= v.entries.Keys && d.Is(current) && fresh(d) && forall n :: n in d.Repr ==> fresh(n)
      invariant current.Dict? && forall k :: k in current.entries <==> k in v.entries && k !in todo
      invariant forall k :: k in current.entries ==> current.entries[k] == v.entries[k]
      decreases |todo|
    {
      var k :| k in todo;
      if v.entries[k].Leaf? {
        SetLeaf(d, k, v.entries[k].scalar, current);
      } else {
        var below := Read(v.entries[k]);
        SetDictionary(d, k, below, current, v.entries[k]);
      }
      current := Dict(current.entries[k := v.entries[k]]);
      todo := todo - {k};
    }
    assert current.entries == v.entries;
  }

  method SetLeaf(d: Dictionary, k: string, scalar: Scalar, ghost v: Value)
    requires d.Is(v)
    modifies d
    ensures d.Is(Dict(v.entries[k := Leaf(scalar)])) && d.Repr <= old(d.Repr)
  {
    ghost var nodes := d.Split(v, k);
    hide d.Is, d.IsExcept;
    d.Put(k, Plain(scalar), v, Leaf(scalar), nodes, {});
  }

  method SetDictionary(d: Dictionary, k: string, below: Dictionary, ghost v: Value, ghost w: Value)
    requires d.Is(v) && below.Is(w) && d.Repr !! below.Repr
    modifies d
    ensures d.Is(Dict(v.entries[k := w])) && d.Repr <= old(d.Repr) + old(below.Repr)
  {
    ghost var nodes := d.Split(v, k);
    hide d.Is, d.IsExcept;
    d.Put(k, Nested(below), v, w, nodes, below.Repr);
  }

  /** Load the files in order. None stands for an exception. */
  method Load(files: seq<Value>) returns (config: Option<Dictionary>)
    requires forall f :: f in files ==> f.Dict?
    ensures config.Some? <==> files != [] && Layered(files).Some?
    ensures config.Some? ==> config.value.Is(Layered(files).value) && fresh(config.value.Repr)
  {
    if files == [] {
      return None;
    }
    var c := new Dictionary();
    assert Layered([]) == Some(Dict(map[])) && files[..0] == [];
    for i := 0 to |files|
      invariant Layered(files[..i]).Some? && c.Is(Layered(files[..i]).value)
      invariant forall n :: n in c.Repr ==> fresh(n)
    {
      assert files[..i + 1][..i] == files[..i] && files[..i + 1][i] == files[i];
      LayeredPrefix(files, i);
      ghost var v := Layered(files[..i]).value;
      c.KeysOf(v);
      hide *;
      var file := Read(files[i]);
      if c.entries == map[] {
        assert v.entries == map[];
        c := file;
      } else {
        var ok := c.RecursiveTypedUpdate(file, v, files[i]);
        if !ok {
          return None;
        }
      }
    }
    assert files[..|files|] == files;
    config := Some(c);
  }

  lemma LayeredPrefix(files: seq<Value>, i: nat)
    requires (forall f :: f in files ==> f.Dict?) && i < |files| && Layered(files[..i]).Some?
    ensures var v := Layered(files[..i]).value;
            Layered(files[..i + 1]) == if v.entries == map[] then Some(files[i]) else Updated(v, files[i])
    ensures Layered(files[..i + 1]).None? ==> Layered(files).None?
    decreases |files| - i
  {
    hide Updated;
    assert files[..i + 1][..i] == files[..i];
    if Layered(files[..i + 1]).None? {
      LayeredFails(files, i + 1);
    }
  }

  lemma {:induction false} LayeredFails(files: seq<Value>, i: nat)
    requires (forall f :: f in files ==> f.Dict?) && i <= |files| && Layered(files[..i]).None?
    ensures Layered(files).None?
    decreases |files| - i
  {
    hide Updated;
    if i < |files| {
      assert files[..i + 1][..i] == files[..i];
      LayeredFails(files, i + 1);
    } else {
      assert files[..i] == files;
    }
  }

  /** The keys that are not to do any more are updated. */
  ghost predicate Halfway(v: Value, vb: Value, current: Value, todo: set<string>) {
    && v.Dict? && vb.Dict? && current.Dict? && todo <= vb.entries.Keys
    && (forall k :: k in vb.entries && k !in todo ==>
          At(current, k).Some? && UpdatedValue(At(v, k), vb.entries[k]) == At(current, k))
    && (forall k :: k !in vb.entries || k in todo ==> At(current, k) == At(v, k))
  }

  lemma NothingUpdated(v: Value, vb: Value)
    requires v.Dict? && vb.Dict?
    ensures Halfway(v, vb, v, vb.entries.Keys)
  {
  }

  lemma KeyInTurn(v: Value, vb: Value, current: Value, todo: set<string>, k: string)
    requires Halfway(v, vb, current, todo) && k in todo
    ensures current.Dict? && vb.Dict? && v.Dict? && k in vb.entries
    ensures UpdatedValue(At(current, k), vb.entries[k]).None? ==> Updated(v, vb).None?
    ensures var w := UpdatedValue(At(current, k), vb.entries[k]);
            w.Some? ==> Halfway(v, vb, Dict(current.entries[k := w.value]), todo - {k})
  {
    hide UpdatedValue;
  }

  lemma EverythingUpdated(v: Value, vb: Value, current: Value)
    requires Halfway(v, vb, current, {})
    ensures Updated(v, vb) == Some(current)
  {
    hide UpdatedValue;
    assert forall k :: k in vb.entries ==> UpdatedValue(At(v, k), vb.entries[k]).Some?;
    assert Updated(v, vb).value.entries == current.entries by {
      forall k ensures At(Updated(v, vb).value, k) == At(current, k) {
      }
    }
  }
}
