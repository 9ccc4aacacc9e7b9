/** Layered configuration: later files override earlier ones key by key. */
module Configuration {
  import opened Text

  datatype Scalar = Null | Bool(b: bool) | Int(n: int) | String(s: string) | List(items: seq<string>)

  datatype Value = Leaf(scalar: Scalar) | Dict(entries: map<string, Value>)

  /** The new value of a key; None stands for an exception. A text was meant to
      take the type of the value it replaces, but the test for that looks at the
      type object and is never true, so a scalar is always stored as it is. */
  function UpdatedValue(held: Option<Value>, v: Value): Option<Value>
    decreases v, 1
  {
    match v
    case Leaf(_) => Some(v)
    case Dict(_) =>
      match held
      case None => Updated(Dict(map[]), v)
      case Some(Dict(_)) => Updated(held.value, v)
      case Some(Leaf(_)) => if v.entries == map[] then held else None
  }

  /** Updating the dictionary `a` with the dictionary `b`. */
  function Updated(a: Value, b: Value): (r: Option<Value>)
    requires a.Dict? && b.Dict?
    ensures r.Some? ==> r.value.Dict?
    decreases b, 0
  {
    if forall k :: k in b.entries ==> UpdatedValue(At(a, k), b.entries[k]).Some? then
      Some(Dict(map k | k in a.entries.Keys + b.entries.Keys ::
                  if k in b.entries then UpdatedValue(At(a, k), b.entries[k]).value else a.entries[k]))
    else None
  }

  function At(a: Value, k: string): Option<Value>
    requires a.Dict?
  {
    if k in a.entries then Some(a.entries[k]) else None
  }

  /******* The pure merge *******/

  /** The later value wins, except that two dictionaries are merged. */
  function Merge(a: Value, b: Value): Value
    decreases b
  {
    if a.Dict? && b.Dict? then
      Dict(map k | k in a.entries.Keys + b.entries.Keys ::
             if k !in b.entries then a.entries[k]
             else if k !in a.entries then b.entries[k]
             else Merge(a.entries[k], b.entries[k]))
    else b
  }

  /** Wherever both define a key, both hold a dictionary or neither does. */
  ghost predicate Compatible(a: Value, b: Value)
    decreases b
  {
    match (a, b)
    case (Dict(x), Dict(y)) => forall k :: k in x && k in y ==> Compatible(x[k], y[k])
    case (Leaf(_), Leaf(_)) => true
    case _ => false
  }

  /** No dictionary meets a scalar it would have to replace. */
  ghost predicate Overwrites(a: Value, b: Value)
    decreases b
  {
    match (a, b)
    case (Dict(x), Dict(y)) => forall k :: k in x && k in y ==> Overwrites(x[k], y[k])
    case (_, Leaf(_)) => true
    case (Leaf(_), Dict(_)) => false
  }

  /** The update is the merge exactly in these cases; in the others it keeps a
      scalar, or raises. */
  lemma {:induction false} UpdatedIsMergeIff(a: Value, b: Value)
    requires a.Dict? && b.Dict?
    ensures Updated(a, b) == Some(Merge(a, b)) <==> Overwrites(a, b)
    decreases b, 0
  {
    forall k | k in b.entries
      ensures UpdatedValue(At(a, k), b.entries[k])
           == Some(if k in a.entries then Merge(a.entries[k], b.entries[k]) else b.entries[k])
          <==> (k in a.entries ==> Overwrites(a.entries[k], b.entries[k]))
    {
      UpdatedValueIsMergeIff(At(a, k), b.entries[k]);
    }
    if Overwrites(a, b) {
      assert Updated(a, b).value.entries == Merge(a, b).entries;
    } else {
      var k :| k in a.entries && k in b.entries && !Overwrites(a.entries[k], b.entries[k]);
      assert Merge(a, b).entries[k] == Merge(a.entries[k], b.entries[k]);
    }
  }

  lemma {:induction false} UpdatedValueIsMergeIff(held: Option<Value>, v: Value)
    ensures UpdatedValue(held, v) == Some(if held.Some? then Merge(held.value, v) else v)
        <==> (held.Some? ==> Overwrites(held.value, v))
    decreases v, 1
  {
    if v.Dict? {
      if held.None? {
        UpdatedIsMergeIff(Dict(map[]), v);
        assert Merge(Dict(map[]), v).entries == v.entries;
      } else if held.value.Dict? {
        UpdatedIsMergeIff(held.value, v);
      }
    }
  }

  lemma {:induction false} CompatibleOverwrites(a: Value, b: Value)
    requires Compatible(a, b)
    ensures Overwrites(a, b)
    decreases b
  {
    if b.Dict? {
      forall k | k in a.entries && k in b.entries ensures Overwrites(a.entries[k], b.entries[k]) {
        CompatibleOverwrites(a.entries[k], b.entries[k]);
      }
    }
  }

  /******* Layers *******/

  /** The scalar at a key path. */
  function Lookup(v: Value, path: seq<string>): Option<Scalar>
    decreases |path|
  {
    match v
    case Leaf(scalar) => if path == [] then Some(scalar) else None
    case Dict(entries) => if path != [] && path[0] in entries then Lookup(entries[path[0]], path[1..]) else None
  }

  /** A merge takes what the later one defines, and else what the earlier one does. */
  lemma {:induction false} LookupMerged(a: Value, b: Value, path: seq<string>)
    requires Compatible(a, b)
    ensures Lookup(Merge(a, b), path) == if Lookup(b, path).Some? then Lookup(b, path) else Lookup(a, path)
    decreases |path|
  {
    if a.Dict? && path != [] && path[0] in a.entries && path[0] in b.entries {
      LookupMerged(a.entries[path[0]], b.entries[path[0]], path[1..]);
    }
  }

  ghost predicate AllCompatible(files: seq<Value>) {
    && (forall f :: f in files ==> f.Dict?)
    && (forall i, j :: 0 <= i < j < |files| ==> Compatible(files[i], files[j]))
  }

  function MergeAll(files: seq<Value>): Value
    decreases |files|
  {
    if files == [] then Dict(map[]) else Merge(MergeAll(files[..|files| - 1]), files[|files| - 1])
  }

  /** Folding the files as they are loaded: an empty configuration is replaced
      by the next file, any other is updated with it. */
  function Layered(files: seq<Value>): (r: Option<Value>)
    requires forall f :: f in files ==> f.Dict?
    ensures r.Some? ==> r.value.Dict?
    decreases |files|
  {
    if files == [] then Some(Dict(map[]))
    else
      var n := |files| - 1;
      match Layered(files[..n])
      case None => None
      case Some(c) => if c.entries == map[] then Some(files[n]) else Updated(c, files[n])
  }

  /** Compatible with two values, compatible with their merge. */
  lemma {:induction false} MergeCompatible(a: Value, b: Value, c: Value)
    requires Compatible(a, b) && Compatible(a, c) && Compatible(b, c)
    ensures Compatible(Merge(a, b), c)
    ensures Compatible(a, Merge(b, c))
    decreases c, a
  {
    if c.Dict? {
      forall k | k in Merge(a, b).entries && k in c.entries ensures Compatible(Merge(a, b).entries[k], c.entries[k]) {
        if k in a.entries && k in b.entries {
          MergeCompatible(a.entries[k], b.entries[k], c.entries[k]);
        }
      }
      forall k | k in a.entries && k in Merge(b, c).entries ensures Compatible(a.entries[k], Merge(b, c).entries[k]) {
        if k in b.entries && k in c.entries {
          MergeCompatible(a.entries[k], b.entries[k], c.entries[k]);
        }
      }
    }
  }

  lemma {:induction false} MergeAssociative(a: Value, b: Value, c: Value)
    requires Compatible(a, b) && Compatible(a, c) && Compatible(b, c)
    ensures Merge(Merge(a, b), c) == Merge(a, Merge(b, c))
    decreases c, a
  {
    if c.Dict? {
      var l, r := Merge(Merge(a, b), c), Merge(a, Merge(b, c));
      forall k | k in l.entries ensures l.entries[k] == r.entries[k] {
        if k in a.entries && k in b.entries && k in c.entries {
          MergeAssociative(a.entries[k], b.entries[k], c.entries[k]);
        }
      }
      assert l.entries == r.entries;
    }
  }

  lemma {:induction false} LayersCompatible(files: seq<Value>, f: Value)
    requires AllCompatible(files) && f.Dict? && forall g :: g in files ==> Compatible(g, f)
    ensures MergeAll(files).Dict? && Compatible(MergeAll(files), f)
    decreases |files|
  {
    if files != [] {
      var n := |files| - 1;
      forall g | g in files[..n] ensures Compatible(g, files[n]) {
        var i :| 0 <= i < n && files[i] == g;
      }
      LayersCompatible(files[..n], f);
      LayersCompatible(files[..n], files[n]);
      MergeCompatible(MergeAll(files[..n]), files[n], f);
    }
  }

  /** Compatible files load without failure, to their merge. */
  lemma {:induction false} LayeredIsMerge(files: seq<Value>)
    requires AllCompatible(files)
    ensures Layered(files) == Some(MergeAll(files))
    decreases |files|
  {
    if files != [] {
      var n := |files| - 1;
      var before := files[..n];
      assert files == before + [files[n]];
      BeforeLast(before, files[n]);
      LayeredIsMerge(before);
      LayersCompatible(before, files[n]);
      CompatibleOverwrites(MergeAll(before), files[n]);
      UpdatedIsMergeIff(MergeAll(before), files[n]);
      if MergeAll(before).entries == map[] {
        assert Merge(MergeAll(before), files[n]).entries == files[n].entries;
      }
    }
  }

  /** The last file that defines a key path. */
  ghost predicate LastDefining(files: seq<Value>, path: seq<string>, i: nat) {
    i < |files| && Lookup(files[i], path).Some?
    && forall j :: i < j < |files| ==> Lookup(files[j], path).None?
  }

  /** After any number of compatible files, every key path holds the value from
      the last file that defines it. */
  lemma {:induction false} LastFileWins(files: seq<Value>, path: seq<string>, i: nat)
    requires AllCompatible(files) && LastDefining(files, path, i)
    ensures Lookup(MergeAll(files), path) == Lookup(files[i], path)
  {
    LayerLookup(files, path);
  }

  lemma {:induction false} LayerLookup(files: seq<Value>, path: seq<string>)
    requires AllCompatible(files)
    ensures (forall i :: 0 <= i < |files| ==> Lookup(files[i], path).None?) ==> Lookup(MergeAll(files), path).None?
    ensures forall i: nat :: LastDefining(files, path, i) ==> Lookup(MergeAll(files), path) == Lookup(files[i], path)
    decreases |files|
  {
    if files != [] {
      var n := |files| - 1;
      var before := files[..n];
      assert files == before + [files[n]];
      BeforeLast(before, files[n]);
      hide Compatible, AllCompatible, Merge, Lookup;
      LayersCompatible(before, files[n]);
      LookupMerged(MergeAll(before), files[n], path);
      LayerLookup(before, path);
      assert forall j :: 0 <= j < n ==> before[j] == files[j];
      forall i: nat | LastDefining(files, path, i) && i < n ensures LastDefining(before, path, i) {
      }
    }
  }

  lemma BeforeLast(before: seq<Value>, last: Value)
    requires AllCompatible(before + [last])
    ensures AllCompatible(before) && last.Dict? && forall g :: g in before ==> Compatible(g, last)
  {
    hide Compatible;
    var files := before + [last];
    assert last in files && (forall i :: 0 <= i < |before| ==> before[i] == files[i]) && files[|before|] == last;
    forall g | g in before ensures g in files && Compatible(g, last) {
      var i :| 0 <= i < |before| && files[i] == g;
    }
  }

  /******* Any files *******/

  lemma {:induction false} UpdatedOfNothing(v: Value)
    requires v.Dict?
    ensures Updated(Dict(map[]), v) == Some(v)
    decreases v
  {
    forall k | k in v.entries ensures UpdatedValue(None, v.entries[k]) == Some(v.entries[k]) {
      if v.entries[k].Dict? {
        UpdatedOfNothing(v.entries[k]);
      }
    }
    assert Updated(Dict(map[]), v).value.entries == v.entries;
  }

  /** Two updates that succeed one after the other are one update with the
      second applied to the first: for any files, compatible or not. */
  lemma {:induction false} UpdatesAssociate(a: Value, b: Value, c: Value)
    requires a.Dict? && b.Dict? && c.Dict?
    requires Updated(a, b).Some? && Updated(Updated(a, b).value, c).Some?
    ensures Updated(b, c).Some?
    ensures Updated(a, Updated(b, c).value) == Updated(Updated(a, b).value, c)
    decreases c, 0
  {
    var ab := Updated(a, b).value;
    forall k | k in c.entries
      ensures UpdatedValue(At(b, k), c.entries[k]).Some?
      ensures UpdatedValue(At(a, k), UpdatedValue(At(b, k), c.entries[k]).value) == UpdatedValue(At(ab, k), c.entries[k])
    {
      KeyAssociates(At(a, k), At(b, k), c.entries[k]);
    }
    var bc := Updated(b, c).value;
    forall k | k in bc.entries ensures UpdatedValue(At(a, k), bc.entries[k]).Some? {
      assert k !in c.entries ==> At(bc, k) == At(b, k);
    }
    assert Updated(a, bc).value.entries == Updated(ab, c).value.entries;
  }

  /** The same at one key, which each file may define or not. */
  lemma {:induction false} KeyAssociates(held: Option<Value>, v: Option<Value>, w: Value)
    requires v.Some? ==> UpdatedValue(held, v.value).Some?
    requires var hv := if v.Some? then UpdatedValue(held, v.value) else held; UpdatedValue(hv, w).Some?
    ensures UpdatedValue(v, w).Some?
    ensures var hv := if v.Some? then UpdatedValue(held, v.value) else held;
            UpdatedValue(held, UpdatedValue(v, w).value) == UpdatedValue(hv, w)
    decreases w, 1
  {
    if w.Dict? {
      UpdatedOfNothing(w);
      if v.Some? && v.value.Dict? {
        UpdatedOfNothing(v.value);
        if held.None? {
          NestedOfNothing(v.value, w);
        } else if held.value.Dict? {
          UpdatesAssociate(held.value, v.value, w);
        } else {
          assert Updated(v.value, w).value.entries == map[];
        }
      }
    }
  }

  lemma NestedOfNothing(v: Value, w: Value)
    requires v.Dict? && w.Dict? && Updated(v, w).Some?
    ensures Updated(Dict(map[]), Updated(v, w).value) == Updated(v, w)
  {
    UpdatedOfNothing(Updated(v, w).value);
  }

  /** The other way round it fails: a scalar in the last file hides that the one
      before could not be applied. */
  lemma CombinedUpdateHidesAFailure(k: string)
    ensures var a, b := Dict(map[k := Leaf(Int(5))]), Dict(map[k := Dict(map["x" := Leaf(Null)])]);
            var c := Dict(map[k := Leaf(Int(7))]);
            && Updated(a, b).None?
            && Updated(b, c) == Some(c)
            && Updated(a, c) == Some(c)
  {
    var nested := Dict(map["x" := Leaf(Null)]);
    assert "x" in nested.entries;
    UpdatedOneKey(k, Leaf(Int(5)), nested);
    UpdatedOneKey(k, nested, Leaf(Int(7)));
    UpdatedOneKey(k, Leaf(Int(5)), Leaf(Int(7)));
  }

  lemma {:induction false} UpdatedOneKey(k: string, v: Value, w: Value)
    ensures Updated(Dict(map[k := v]), Dict(map[k := w]))
         == match UpdatedValue(Some(v), w) case None => None case Some(x) => Some(Dict(map[k := x]))
  {
    hide UpdatedValue;
    var a, b := Dict(map[k := v]), Dict(map[k := w]);
    assert At(a, k) == Some(v) && b.entries.Keys == {k} && k in b.entries;
    if UpdatedValue(Some(v), w).Some? {
      assert Updated(a, b).value.entries == map[k := UpdatedValue(Some(v), w).value];
    }
  }

  /** What is at a key path: a scalar or a dictionary. */
  function Node(v: Value, path: seq<string>): Option<Value>
    decreases |path|
  {
    if path == [] then Some(v)
    else if v.Dict? && path[0] in v.entries then Node(v.entries[path[0]], path[1..])
    else None
  }

  /** A dictionary that is not empty meets a scalar at the path. */
  predicate Collides(a: Value, b: Value, path: seq<string>) {
    match (Node(a, path), Node(b, path))
    case (Some(Leaf(_)), Some(Dict(entries))) => entries != map[]
    case _ => false
  }

  lemma CollidesBelow(a: Value, b: Value, path: seq<string>)
    requires a.Dict? && b.Dict? && path != []
    ensures Collides(a, b, path) <==>
              path[0] in a.entries && path[0] in b.entries && Collides(a.entries[path[0]], b.entries[path[0]], path[1..])
  {
  }

  /** An update raises exactly when some key path holds a scalar in the one and a
      dictionary that is not empty in the other. */
  lemma {:induction false} UpdateRaisesIff(a: Value, b: Value)
    requires a.Dict? && b.Dict?
    ensures Updated(a, b).None? <==> exists path :: Collides(a, b, path)
    decreases b, 0
  {
    forall k | k in b.entries
      ensures UpdatedValue(At(a, k), b.entries[k]).None? <==>
                k in a.entries && exists path :: Collides(a.entries[k], b.entries[k], path)
    {
      KeyRaisesIff(At(a, k), b.entries[k]);
    }
    if path :| Collides(a, b, path) {
      assert path != [];
      CollidesBelow(a, b, path);
    }
    forall k, path | k in b.entries && k in a.entries && Collides(a.entries[k], b.entries[k], path)
      ensures Collides(a, b, [k] + path)
    {
      assert ([k] + path)[1..] == path;
      CollidesBelow(a, b, [k] + path);
    }
  }

  lemma {:induction false} KeyRaisesIff(held: Option<Value>, v: Value)
    ensures UpdatedValue(held, v).None? <==> held.Some? && exists path :: Collides(held.value, v, path)
    decreases v, 1
  {
    if v.Dict? {
      match held
      case None => UpdatedOfNothing(v);
      case Some(Dict(_)) => UpdateRaisesIff(held.value, v);
      case Some(Leaf(_)) =>
        assert v.entries != map[] ==> Collides(held.value, v, []);
        forall path | path != [] ensures !Collides(held.value, v, path) {
        }
    } else if held.Some? {
      forall path ensures !Collides(held.value, v, path) {
      }
    }
  }

  /** A scalar of the later one stands at a beginning of the path. */
  predicate Covered(b: Value, path: seq<string>) {
    exists n :: 0 <= n <= |path| && Node(b, path[..n]).Some? && Node(b, path[..n]).value.Leaf?
  }

  lemma CoveredBelow(b: Value, path: seq<string>)
    requires path != []
    ensures Covered(b, path) <==> b.Leaf? || (path[0] in b.entries && Covered(b.entries[path[0]], path[1..]))
  {
    forall n | 1 <= n <= |path| ensures path[..n][1..] == path[1..][..n - 1] {
    }
    if b.Leaf? {
      assert Node(b, path[..0]) == Some(b);
    } else if path[0] in b.entries && Covered(b.entries[path[0]], path[1..]) {
      var w := b.entries[path[0]];
      var n :| 0 <= n <= |path[1..]| && Node(w, path[1..][..n]).Some? && Node(w, path[1..][..n]).value.Leaf?;
      assert path[..n + 1][1..] == path[1..][..n];
    }
    if b.Dict? && Covered(b, path) {
      var n :| 0 <= n <= |path| && Node(b, path[..n]).Some? && Node(b, path[..n]).value.Leaf?;
      assert n > 0 && path[..n][1..] == path[1..][..n - 1];
    }
  }

  /** An update that succeeds takes every scalar of the later one, and keeps those
      of the earlier one that no scalar of the later one covers: for any two
      configurations, compatible or not. */
  lemma {:induction false} LookupUpdated(a: Value, b: Value, path: seq<string>)
    requires a.Dict? && b.Dict? && Updated(a, b).Some?
    ensures Lookup(Updated(a, b).value, path) == if Covered(b, path) then Lookup(b, path) else Lookup(a, path)
    decreases |path|, 0
  {
    if path == [] {
      assert path[..0] == [];
    } else {
      CoveredBelow(b, path);
      if path[0] in b.entries {
        LookupAtKey(At(a, path[0]), b.entries[path[0]], path[1..]);
      }
    }
  }

  lemma {:induction false} LookupAtKey(held: Option<Value>, v: Value, path: seq<string>)
    requires UpdatedValue(held, v).Some?
    ensures Lookup(UpdatedValue(held, v).value, path)
         == if Covered(v, path) then Lookup(v, path) else if held.Some? then Lookup(held.value, path) else None
    decreases |path|, 1
  {
    if v.Leaf? {
      assert path[..0] == [] && Node(v, path[..0]) == Some(v);
    } else {
      match held
      case None =>
        UpdatedOfNothing(v);
        UncoveredIsNothing(v, path);
      case Some(Dict(_)) => LookupUpdated(held.value, v, path);
      case Some(Leaf(_)) => UncoveredIsNothing(v, path);
    }
  }

  lemma {:induction false} UncoveredIsNothing(v: Value, path: seq<string>)
    ensures !Covered(v, path) ==> Lookup(v, path) == None
    ensures v == Dict(map[]) ==> !Covered(v, path)
    decreases |path|
  {
    if path == [] {
      assert path[..0] == [];
    } else {
      CoveredBelow(v, path);
      if v.Dict? && path[0] in v.entries {
        UncoveredIsNothing(v.entries[path[0]], path[1..]);
      }
    }
  }
}
