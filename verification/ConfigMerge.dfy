/** `_deep_merge`: nested override of configuration objects, and its algebra. */
module ConfigMerge {
  import opened Commons

  /** A configuration value: an object (a Python dict), or anything that is not one, lists included. */
  datatype Json = Leaf(value: string) | Obj(fields: map<string, Json>)

  /** `over` laid over `base`: two objects merge key by key, and anything else in `over` replaces what it covers. */
  function Merge(base: Json, over: Json): Json
    decreases over
  {
    if base.Leaf? || over.Leaf? then over else
    Obj(map k | k in base.fields.Keys + over.fields.Keys ::
          if k !in over.fields then base.fields[k]
          else if k !in base.fields then over.fields[k]
          else Merge(base.fields[k], over.fields[k]))
  }

  /** `merged` holds the entries of `over` outside `rest` already laid over `base`, and `base` elsewhere. */
  ghost predicate LaidExcept(base: map<string, Json>, over: map<string, Json>, rest: set<string>,
                             merged: map<string, Json>) {
    && merged.Keys == base.Keys + (over.Keys - rest)
    && (forall k :: k in merged && (k !in over || k in rest) ==> merged[k] == base[k])
    && (forall k :: k in over && k !in rest ==> merged[k] == Entry(base, k, over[k]))
  }

  /** The value the merge gives to a key of the override. */
  function Entry(base: map<string, Json>, k: string, value: Json): Json {
    if k in base then Merge(base[k], value) else value
  }

  lemma AllLaid(base: map<string, Json>, over: map<string, Json>, merged: map<string, Json>)
    requires LaidExcept(base, over, {}, merged)
    ensures Obj(merged) == Merge(Obj(base), Obj(over))
  {
    assert merged == Merge(Obj(base), Obj(over)).fields;
  }

  /** The source's loop: a copy of `base`, with the entries of `over` written one at a time in any order. */
  method DeepMerge(base: map<string, Json>, over: map<string, Json>) returns (merged: map<string, Json>)
    ensures Obj(merged) == Merge(Obj(base), Obj(over))
    decreases Obj(over)
  {
    merged := base;
    var rest := over.Keys;
    while rest != {}
      invariant rest <= over.Keys
      invariant LaidExcept(base, over, rest, merged)
      decreases |rest|
    {
      var key :| key in rest;
      var value := over[key];
      assert key in merged <==> key in base;
      if value.Obj? && key in merged && merged[key].Obj? {
        var inner := DeepMerge(merged[key].fields, value.fields);
        merged := merged[key := Obj(inner)];
      } else {
        merged := merged[key := value];
      }
      assert merged[key] == Entry(base, key, value);
      rest := rest - {key};
    }
    AllLaid(base, over, merged);
  }

  // ---------------------------------------------------------------- what is found at a path

  /** What following `path` from the root finds. */
  function At(j: Json, path: seq<string>): Option<Json>
    decreases |path|
  {
    if path == [] then Some(j)
    else if j.Leaf? || path[0] !in j.fields then None
    else At(j.fields[path[0]], path[1..])
  }

  /** A proper prefix of `path` ends at a leaf of `j`, so nothing can be found at `path`. */
  predicate Cut(j: Json, path: seq<string>) {
    exists n: nat :: n < |path| && At(j, path[..n]) != None && At(j, path[..n]).value.Leaf?
  }

  /** What a merge should find at a path, told from what its two arguments hold there. */
  function Layered(base: Json, over: Json, path: seq<string>): Option<Json> {
    match At(over, path)
    case Some(o) =>
      (match At(base, path)
       case Some(b) => Some(Merge(b, o))
       case None => Some(o))
    case None => if Cut(over, path) then None else At(base, path)
  }

  lemma CutStep(j: Json, path: seq<string>)
    requires |path| > 0
    ensures Cut(j, path) <==>
      (j.Leaf? || (path[0] in j.fields && Cut(j.fields[path[0]], path[1..])))
  {
    assert path[..0] == [];
    if j.Leaf? {
      assert At(j, path[..0]) == Some(j);
    } else if path[0] in j.fields {
      var child := j.fields[path[0]];
      forall n: nat | n < |path| - 1 ensures At(j, path[..n + 1]) == At(child, path[1..][..n]) {
        assert path[..n + 1][1..] == path[1..][..n];
      }
      if Cut(j, path) {
        var n: nat :| n < |path| && At(j, path[..n]) != None && At(j, path[..n]).value.Leaf?;
        assert n > 0;
        assert At(child, path[1..][..n - 1]) == At(j, path[..n - 1 + 1]);
      }
      if Cut(child, path[1..]) {
        var n: nat :| n < |path| - 1 && At(child, path[1..][..n]) != None && At(child, path[1..][..n]).value.Leaf?;
        assert At(j, path[..n + 1]).value.Leaf?;
      }
    } else {
      forall n: nat | 0 < n < |path| ensures At(j, path[..n]) == None {
        assert path[..n][0] == path[0];
      }
    }
  }

  /** Path by path, a merge holds what its arguments say it should. */
  lemma {:induction false} MergeAtPath(base: Json, over: Json, path: seq<string>)
    ensures At(Merge(base, over), path) == Layered(base, over, path)
    decreases |path|
  {
    if path == [] {
    } else {
      CutStep(over, path);
      var k, rest := path[0], path[1..];
      if base.Obj? && over.Obj? && k in base.fields && k in over.fields {
        MergeAtPath(base.fields[k], over.fields[k], rest);
      }
    }
  }

  /** A value the override names survives every merge; in particular its leaves win at every path. */
  lemma OverrideWins(base: Json, over: Json, path: seq<string>)
    requires At(over, path) != None
    ensures At(Merge(base, over), path) != None
    ensures At(over, path).value.Leaf? ==> At(Merge(base, over), path) == At(over, path)
    ensures At(over, path).value.Obj? ==> At(Merge(base, over), path).value.Obj?
  {
    MergeAtPath(base, over, path);
  }

  // ---------------------------------------------------------------- algebra

  /** `over` already decides everything `base` could add. */
  predicate Covers(over: Json, base: Json)
    decreases over
  {
    base.Leaf? || over.Leaf? ||
    forall k :: k in base.fields ==> k in over.fields && Covers(over.fields[k], base.fields[k])
  }

  /** Merging leaves the override as it was exactly when the override covers the base. */
  lemma {:induction false} UnchangedIffCovers(base: Json, over: Json)
    ensures Merge(base, over) == over <==> Covers(over, base)
    decreases over
  {
    if base.Obj? && over.Obj? {
      var merged := Merge(base, over).fields;
      forall k | k in base.fields && k in over.fields
        ensures Merge(base.fields[k], over.fields[k]) == over.fields[k] <==> Covers(over.fields[k], base.fields[k])
      {
        UnchangedIffCovers(base.fields[k], over.fields[k]);
      }
      if Covers(over, base) {
        assert merged == over.fields;
      }
      if merged == over.fields {
        forall k | k in base.fields ensures k in over.fields && Covers(over.fields[k], base.fields[k]) {
          assert k in merged;
        }
      }
    }
  }

  /** The empty object changes nothing, on either side. */
  lemma EmptyIsIdentity(j: Json)
    requires j.Obj?
    ensures Merge(Obj(map[]), j) == j
    ensures Merge(j, Obj(map[])) == j
  {
    assert Merge(Obj(map[]), j).fields == j.fields;
    assert Merge(j, Obj(map[])).fields == j.fields;
  }

  lemma {:induction false} CoversItself(j: Json)
    ensures Covers(j, j)
    decreases j
  {
    if j.Obj? {
      forall k | k in j.fields ensures Covers(j.fields[k], j.fields[k]) {
        CoversItself(j.fields[k]);
      }
    }
  }

  /** Applying the same override twice is applying it once. */
  lemma {:induction false} OverrideIdempotent(base: Json, over: Json)
    ensures Merge(Merge(base, over), over) == Merge(base, over)
    decreases over
  {
    if base.Obj? && over.Obj? {
      var once := Merge(base, over).fields;
      forall k | k in once ensures Merge(Obj(once), over).fields[k] == once[k] {
        if k in over.fields {
          if k in base.fields {
            OverrideIdempotent(base.fields[k], over.fields[k]);
          } else {
            CoversItself(over.fields[k]);
            UnchangedIffCovers(over.fields[k], over.fields[k]);
          }
        }
      }
      assert Merge(Obj(once), over).fields == once;
    } else if over.Obj? {
      CoversItself(over);
      UnchangedIffCovers(over, over);
    }
  }

  // ---------------------------------------------------------------- associativity

  /** Somewhere the three hold an object, a leaf and an object, and the last does not cover the first. */
  predicate Conflict(a: Json, b: Json, c: Json)
    decreases c
  {
    && a.Obj? && c.Obj?
    && if b.Leaf? then !Covers(c, a) else
       exists k :: k in a.fields && k in b.fields && k in c.fields && Conflict(a.fields[k], b.fields[k], c.fields[k])
  }

  /** Grouping matters exactly when there is a conflict. */
  lemma {:induction false} AssociativeIffNoConflict(a: Json, b: Json, c: Json)
    ensures Merge(Merge(a, b), c) == Merge(a, Merge(b, c)) <==> !Conflict(a, b, c)
    decreases c
  {
    if a.Obj? && c.Obj? {
      if b.Leaf? {
        UnchangedIffCovers(a, c);
      } else {
        var left, right := Merge(Merge(a, b), c), Merge(a, Merge(b, c));
        forall k ensures k in a.fields && k in b.fields && k in c.fields ==>
            (left.fields[k] == right.fields[k] <==> !Conflict(a.fields[k], b.fields[k], c.fields[k]))
        {
          if k in a.fields && k in b.fields && k in c.fields {
            AssociativeIffNoConflict(a.fields[k], b.fields[k], c.fields[k]);
          }
        }
      }
    }
  }

  /** `path` leads to an object, a leaf and an object. */
  predicate Sandwich(a: Json, b: Json, c: Json, path: seq<string>) {
    && At(a, path).Some? && At(a, path).value.Obj?
    && At(b, path).Some? && At(b, path).value.Leaf?
    && At(c, path).Some? && At(c, path).value.Obj?
  }

  /** A conflict is a path at which the three alternate and the last object does not cover the first. */
  lemma {:induction false} ConflictIsAPath(a: Json, b: Json, c: Json)
    ensures Conflict(a, b, c) <==>
      exists path :: Sandwich(a, b, c, path) && !Covers(At(c, path).value, At(a, path).value)
    decreases c
  {
    if Conflict(a, b, c) {
      if b.Leaf? {
        assert Sandwich(a, b, c, []);
      } else {
        var k :| k in a.fields && k in b.fields && k in c.fields && Conflict(a.fields[k], b.fields[k], c.fields[k]);
        var x, y, z := a.fields[k], b.fields[k], c.fields[k];
        ConflictIsAPath(x, y, z);
        var path :| Sandwich(x, y, z, path) && !Covers(At(z, path).value, At(x, path).value);
        assert ([k] + path)[1..] == path;
        assert Sandwich(a, b, c, [k] + path);
      }
    }
    if path :| Sandwich(a, b, c, path) && !Covers(At(c, path).value, At(a, path).value) {
      if path != [] {
        var k, rest := path[0], path[1..];
        var x, y, z := a.fields[k], b.fields[k], c.fields[k];
        assert Sandwich(x, y, z, rest);
        ConflictIsAPath(x, y, z);
      }
    }
  }

  /** With no object, non-object, object at any path, merging is associative. */
  lemma NoSandwichAssociates(a: Json, b: Json, c: Json)
    requires forall path :: !Sandwich(a, b, c, path)
    ensures Merge(Merge(a, b), c) == Merge(a, Merge(b, c))
  {
    ConflictIsAPath(a, b, c);
    AssociativeIffNoConflict(a, b, c);
  }

  /** The smallest failure: an object, then a leaf, then an empty object under one key. */
  lemma GroupingMatters()
    ensures var a, b, c := Obj(map["k" := Obj(map["x" := Leaf("1")])]), Obj(map["k" := Leaf("2")]),
                           Obj(map["k" := Obj(map[])]);
            Merge(Merge(a, b), c) == c && Merge(a, Merge(b, c)) == a
  {
    var inner := Obj(map["x" := Leaf("1")]);
    var a, b, c := Obj(map["k" := inner]), Obj(map["k" := Leaf("2")]), Obj(map["k" := Obj(map[])]);
    EmptyIsIdentity(inner);
    assert Merge(a, b).fields == b.fields;
    assert Merge(b, c).fields == c.fields;
    assert Merge(a, c).fields == a.fields;
  }
}
