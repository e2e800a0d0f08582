/** Structural diff and deep merge over JSON trees. */
module JsonTrees {
  // `_diff_dict` and `compile_delta` (qso_xr/stream_projection.py), `_deep_merge` (qso_xr/scene_graph.py),
  // which services/state_engine/service.py repeats.

  import opened Common
  import opened Ordering

  /** Scalars are compared by their canonical text. */
  datatype Json =
    | Scalar(text: string)
    | Arr(items: seq<Json>)
    | Obj(fields: map<string, Json>)

  type Fields = map<string, Json>

  const DELETED := "__deleted__"

  // ----- merge

  function Merge(base: Json, patch: Json): Json
    decreases patch
  {
    if base.Obj? && patch.Obj? then
      Obj(map k | k in base.fields.Keys + patch.fields.Keys ::
        if k !in patch.fields then base.fields[k]
        else if k !in base.fields then patch.fields[k]
        else Merge(base.fields[k], patch.fields[k]))
    else patch
  }

  /** The base once the keys in `done` have been merged. */
  function MergedOn(base: Fields, patch: Fields, done: set<string>): Fields
    requires done <= patch.Keys
  {
    map k | k in base.Keys + done ::
      if k !in done then base[k] else if k in base then Merge(base[k], patch[k]) else patch[k]
  }

  lemma MergeOneMore(base0: Fields, base: Fields, patch: Fields, done: set<string>, key: string, value: Json)
    requires done <= patch.Keys && key in patch && key !in done && base == MergedOn(base0, patch, done)
    requires value == if key in base then Merge(base[key], patch[key]) else patch[key]
    ensures base[key := value] == MergedOn(base0, patch, done + {key})
  {
  }

  /** The loop of `_deep_merge`, writing into `base` key by key. */
  method DeepMerge(base0: Fields, patch: Fields) returns (base: Fields)
    ensures Obj(base) == Merge(Obj(base0), Obj(patch))
    decreases Obj(patch), 0
  {
    base := base0;
    var keys := SortedKeys(patch.Keys);
    var done: set<string> := {};
    MergedEnds(base0, patch);
    for i := 0 to |keys|
      invariant done == Elements(keys[..i]) && done <= patch.Keys && base == MergedOn(base0, patch, done)
    {
      var key := keys[i];
      assert key in Elements(keys);
      assert keys[..i + 1] == keys[..i] + [key];
      var value := MergedValue(base, key, patch[key]);
      MergeOneMore(base0, base, patch, done, key, value);
      base := base[key := value];
      done := done + {key};
    }
    assert keys[..|keys|] == keys;
    assert done == patch.Keys;
  }

  lemma MergedEnds(base: Fields, patch: Fields)
    ensures MergedOn(base, patch, {}) == base
    ensures Obj(MergedOn(base, patch, patch.Keys)) == Merge(Obj(base), Obj(patch))
  {
  }

  /** The value one key gets. */
  method MergedValue(base: Fields, key: string, incoming: Json) returns (value: Json)
    ensures value == if key in base then Merge(base[key], incoming) else incoming
    decreases incoming, 1
  {
    value := incoming;
    if incoming.Obj? && key in base && base[key].Obj? {
      var merged := DeepMerge(base[key].fields, incoming.fields);
      value := Obj(merged);
    }
  }

  lemma {:induction false} MergeSelf(j: Json)
    ensures Merge(j, j) == j
  {
    if j.Obj? {
      forall k | k in j.fields ensures Merge(j.fields[k], j.fields[k]) == j.fields[k] {
        MergeSelf(j.fields[k]);
      }
      assert j.fields.Keys + j.fields.Keys == j.fields.Keys;
      assert Merge(j, j).fields == j.fields;
    }
  }

  /** Applying a patch twice is applying it once. */
  lemma {:induction false} MergeIdempotent(base: Json, patch: Json)
    ensures Merge(Merge(base, patch), patch) == Merge(base, patch)
    decreases patch
  {
    if base.Obj? && patch.Obj? {
      var once := Merge(base, patch);
      forall k | k in patch.fields ensures Merge(once.fields[k], patch.fields[k]) == once.fields[k] {
        if k in base.fields {
          MergeIdempotent(base.fields[k], patch.fields[k]);
        } else {
          MergeSelf(patch.fields[k]);
        }
      }
      assert Merge(once, patch).fields == once.fields;
    } else {
      MergeSelf(patch);
    }
  }

  // ----- diff

  /** The delta between two objects: what is new or changed, and the list of what is gone. */
  ghost function Diff(before: Json, after: Json): Fields
    requires before.Obj? && after.Obj?
    decreases after, 1
  {
    if before.fields.Keys <= after.fields.Keys then Changed(before, after)
    else Changed(before, after)[DELETED := Names(before.fields.Keys - after.fields.Keys)]
  }

  /** The new and changed keys, without the entry that lists deletions. */
  ghost function Changed(before: Json, after: Json): Fields
    requires before.Obj? && after.Obj?
    decreases after, 0
  {
    var b, a := before.fields, after.fields;
    map k | k in a && (k !in b || (if b[k].Obj? && a[k].Obj? then Diff(b[k], a[k]) != map[] else b[k] != a[k])) ::
      if k in b && b[k].Obj? && a[k].Obj? then Obj(Diff(b[k], a[k])) else a[k]
  }

  /** A delta key by key. */
  lemma ChangedAt(before: Json, after: Json, k: string)
    requires before.Obj? && after.Obj?
    ensures var b, a, c := before.fields, after.fields, Changed(before, after);
      && (k in c <==>
            k in a && (k !in b || (if b[k].Obj? && a[k].Obj? then Diff(b[k], a[k]) != map[] else b[k] != a[k])))
      && (k in c ==> c[k] == if k in b && b[k].Obj? && a[k].Obj? then Obj(Diff(b[k], a[k])) else a[k])
  {
  }

  /** The sorted list of names of a set. */
  ghost function Names(s: set<string>): Json {
    NameList(Listing(s))
  }

  function NameList(names: seq<string>): Json {
    Arr(seq(|names|, i requires 0 <= i < |names| => Scalar(names[i])))
  }

  /** The two keys sets differ by a removal, at this level or at one reached through objects on both sides. */
  predicate Deletes(before: Json, after: Json)
    decreases after
  {
    before.Obj? && after.Obj? &&
    (!(before.fields.Keys <= after.fields.Keys) ||
     exists k :: k in before.fields && k in after.fields && Deletes(before.fields[k], after.fields[k]))
  }

  /** The delta is empty exactly between equal trees. */
  lemma {:induction false} DiffEmptyIff(before: Json, after: Json)
    requires before.Obj? && after.Obj?
    ensures Diff(before, after) == map[] <==> before == after
    decreases after
  {
    var b, a, d := before.fields, after.fields, Diff(before, after);
    forall k | k in b && k in a && b[k].Obj? && a[k].Obj?
      ensures Diff(b[k], a[k]) == map[] <==> b[k] == a[k]
    {
      DiffEmptyIff(b[k], a[k]);
    }
    if b.Keys <= a.Keys {
      if d == map[] {
        forall k | k in a ensures k in b && b[k] == a[k] {
          ChangedAt(before, after, k);
          assert k !in d;
        }
        assert a == b;
      }
      if b == a {
        forall k ensures k !in d { ChangedAt(before, after, k); }
      }
    } else {
      assert DELETED in d;
    }
  }

  /** Merging the delta into the old tree gives the new one exactly when nothing was deleted at any level. */
  lemma {:induction false} MergeDiffIff(before: Json, after: Json)
    requires before.Obj? && after.Obj?
    ensures Merge(before, Obj(Diff(before, after))) == after <==> !Deletes(before, after)
    decreases after
  {
    var b, a, d := before.fields, after.fields, Diff(before, after);
    var m := Merge(before, Obj(d)).fields;
    if !(b.Keys <= a.Keys) {
      var k :| k in b && k !in a;
      assert k in m;
    } else {
      forall k | k in a ensures k in m && (m[k] == a[k] <==> !(k in b && Deletes(b[k], a[k]))) {
        ChangedAt(before, after, k);
        if k in b && b[k].Obj? && a[k].Obj? {
          MergeDiffIff(b[k], a[k]);
          DiffEmptyIff(b[k], a[k]);
          NoDeletionInEqual(a[k]);
          assert m[k] == if k in d then Merge(b[k], d[k]) else b[k];
          assert k in d ==> d[k] == Obj(Diff(b[k], a[k]));
        } else if k in b {
          assert !Deletes(b[k], a[k]);
          assert k in d <==> b[k] != a[k];
          assert m[k] == if k in d then Merge(b[k], d[k]) else b[k];
        } else {
          assert k in d && d[k] == a[k];
        }
      }
      forall k | k in m ensures k in a { ChangedAt(before, after, k); }
      assert m.Keys == a.Keys;
      if !Deletes(before, after) {
        assert forall k :: k in a ==> m[k] == a[k];
        assert m == a;
      } else {
        var k :| k in b && k in a && Deletes(b[k], a[k]);
        assert m[k] != a[k];
      }
    }
  }

  lemma {:induction false} NoDeletionInEqual(j: Json)
    ensures !Deletes(j, j)
  {
    if j.Obj? {
      forall k | k in j.fields ensures !Deletes(j.fields[k], j.fields[k]) { NoDeletionInEqual(j.fields[k]); }
    }
  }

  // ----- the loop that builds the delta

  lemma ChangedOneMore(before: Json, after: Json, done: set<string>, key: string)
    requires before.Obj? && after.Obj? && key !in done
    ensures ChangedOn(before, after, done + {key}) ==
      if key in Changed(before, after) then ChangedOn(before, after, done)[key := Changed(before, after)[key]]
      else ChangedOn(before, after, done)
  {
  }

  ghost function ChangedOn(before: Json, after: Json, done: set<string>): Fields
    requires before.Obj? && after.Obj?
  {
    map k | k in done && k in Changed(before, after) :: Changed(before, after)[k]
  }

  /** `_diff_dict`, key by key in sorted order. */
  method CompileDelta(before: Fields, after: Fields) returns (out: Fields)
    ensures out == Diff(Obj(before), Obj(after))
    decreases Obj(after)
  {
    var keys := SortedKeys(before.Keys + after.Keys);
    ghost var done: set<string> := {};
    var deleted: seq<string> := [];
    out := map[];
    for i := 0 to |keys|
      invariant done == Elements(keys[..i])
      invariant out == ChangedOn(Obj(before), Obj(after), done)
      invariant Elements(deleted) == done - after.Keys && NoDuplicates(deleted) && Sorted(deleted)
      invariant forall x :: x in deleted ==> x in keys[..i]
    {
      var key := keys[i];
      assert key in Elements(keys);
      assert keys[..i + 1] == keys[..i] + [key];
      ChangedOneMore(Obj(before), Obj(after), done, key);
      if key !in after {
        AppendSorted(keys, i, deleted);
        deleted := deleted + [key];
      } else if key !in before {
        out := out[key := after[key]];
      } else if before[key].Obj? && after[key].Obj? {
        var nested := CompileDelta(before[key].fields, after[key].fields);
        if nested != map[] {
          out := out[key := Obj(nested)];
        }
      } else if before[key] != after[key] {
        out := out[key := after[key]];
      }
      done := done + {key};
    }
    assert keys[..|keys|] == keys;
    ChangedOnAll(Obj(before), Obj(after));
    assert done - after.Keys == before.Keys - after.Keys;
    DeltaComplete(before, after, deleted);
    if deleted != [] {
      out := out[DELETED := NameList(deleted)];
    }
  }

  lemma ChangedOnAll(before: Json, after: Json)
    requires before.Obj? && after.Obj?
    ensures ChangedOn(before, after, before.fields.Keys + after.fields.Keys) == Changed(before, after)
  {
  }

  /** The changes of every key, and the sorted list of deleted keys, are the delta. */
  lemma DeltaComplete(before: Fields, after: Fields, deleted: seq<string>)
    requires SortedListing(deleted, before.Keys - after.Keys)
    ensures Diff(Obj(before), Obj(after)) ==
      if deleted == [] then Changed(Obj(before), Obj(after))
      else Changed(Obj(before), Obj(after))[DELETED := NameList(deleted)]
  {
    ListingUnique(deleted, before.Keys - after.Keys);
    assert forall k :: k in before.Keys ==> k in before.Keys - after.Keys || k in after.Keys;
    if deleted != [] {
      assert deleted[0] in Elements(deleted);
    } else {
      assert before.Keys - after.Keys == Elements(deleted) == {};
    }
  }

  lemma AppendSorted(keys: seq<string>, i: nat, some: seq<string>)
    requires i < |keys| && Sorted(keys) && NoDuplicates(keys)
    requires Sorted(some) && NoDuplicates(some) && forall x :: x in some ==> x in keys[..i]
    ensures Sorted(some + [keys[i]]) && NoDuplicates(some + [keys[i]])
    ensures forall x :: x in some + [keys[i]] ==> x in keys[..i + 1]
    ensures Elements(some + [keys[i]]) == Elements(some) + {keys[i]}
  {
    var longer := some + [keys[i]];
    forall a, b | 0 <= a < b < |longer| ensures InOrder(longer, a, b) && longer[a] != longer[b] {
      if b < |some| {
        assert InOrder(some, a, b);
      } else {
        assert some[a] in keys[..i];
        var j :| 0 <= j < i && keys[j] == some[a];
        assert InOrder(keys, j, i);
      }
    }
  }

  // ----- reading the deletions back

  ghost function NamesIn(j: Json): set<string> {
    if j.Arr? then set i | 0 <= i < |j.items| && j.items[i].Scalar? :: j.items[i].text else {}
  }

  /** A reader of deltas that honours the list of deletions. */
  ghost function ApplyDelta(base: Json, delta: Json): Json
    decreases delta
  {
    if base.Obj? && delta.Obj? then
      var gone := if DELETED in delta.fields then NamesIn(delta.fields[DELETED]) + {DELETED} else {};
      Obj(map k | k in base.fields.Keys + delta.fields.Keys && k !in gone ::
        if k !in delta.fields then base.fields[k]
        else if k !in base.fields then delta.fields[k]
        else ApplyDelta(base.fields[k], delta.fields[k]))
    else delta
  }

  /** The marker key is no user key in the objects the two trees share. */
  predicate MarkerFree(before: Json, after: Json)
    decreases after
  {
    before.Obj? && after.Obj? ==>
      && DELETED !in before.fields && DELETED !in after.fields
      && forall k :: k in before.fields && k in after.fields ==> MarkerFree(before.fields[k], after.fields[k])
  }

  lemma NamesRead(s: set<string>)
    ensures NamesIn(Names(s)) == s
  {
    var l := Listing(s);
    assert forall x :: x in s <==> x in Elements(l);
    forall x ensures x in NamesIn(Names(s)) <==> x in s {
      if x in s {
        var i :| 0 <= i < |l| && l[i] == x;
        assert Names(s).items[i].text == x;
      }
    }
  }

  lemma DeltaKeys(before: Json, after: Json)
    requires before.Obj? && after.Obj? && MarkerFree(before, after)
    ensures ApplyDelta(before, Obj(Diff(before, after))).fields.Keys == after.fields.Keys
  {
    NamesRead(before.fields.Keys - after.fields.Keys);
  }

  /** Deletions included, the delta carries the old tree to the new one. */
  lemma {:induction false} DeltaCarries(before: Json, after: Json)
    requires before.Obj? && after.Obj? && MarkerFree(before, after)
    ensures ApplyDelta(before, Obj(Diff(before, after))) == after
    decreases after
  {
    var b, a, d := before.fields, after.fields, Diff(before, after);
    DeltaKeys(before, after);
    var m := ApplyDelta(before, Obj(d)).fields;
    forall k | k in a ensures m[k] == a[k] {
      if k in b && b[k].Obj? && a[k].Obj? {
        DeltaCarries(b[k], a[k]);
        DiffEmptyIff(b[k], a[k]);
        assert m[k] == if k in d then ApplyDelta(b[k], d[k]) else b[k];
      } else if k in b {
        assert k in d <==> b[k] != a[k];
        assert m[k] == if k in d then ApplyDelta(b[k], d[k]) else b[k];
      }
    }
  }

  // ----- folding patches together

  /** Somewhere on the way down, the first patch puts a leaf where the second puts an object. */
  predicate LeafThenObject(p: Json, q: Json)
    decreases q
  {
    q.Obj? && (!p.Obj? || exists k :: k in p.fields && k in q.fields && LeafThenObject(p.fields[k], q.fields[k]))
  }

  lemma {:induction false} MergeAssociative(base: Json, p: Json, q: Json)
    requires !LeafThenObject(p, q)
    ensures Merge(Merge(base, p), q) == Merge(base, Merge(p, q))
    decreases q
  {
    if q.Obj? && base.Obj? {
      var left, right := Merge(Merge(base, p), q), Merge(base, Merge(p, q));
      assert left.fields.Keys == base.fields.Keys + p.fields.Keys + q.fields.Keys == right.fields.Keys;
      forall k | k in left.fields ensures left.fields[k] == right.fields[k] {
        if k in base.fields && k in p.fields && k in q.fields {
          MergeAssociative(base.fields[k], p.fields[k], q.fields[k]);
        }
      }
      assert left.fields == right.fields;
    }
  }

  ghost predicate AssociatesOn(base: Json, p: Json, q: Json) {
    Merge(Merge(base, p), q) == Merge(base, Merge(p, q))
  }

  lemma FreshKey(used: set<string>) returns (key: string)
    ensures key !in used
  {
    var names := seq(|used| + 1, i requires 0 <= i => seq(i, j => 'x'));
    if forall i :: 0 <= i < |names| ==> names[i] in used {
      forall i, j | 0 <= i < j < |names| ensures names[i] != names[j] { assert |names[i]| != |names[j]|; }
      DistinctFitsInSet(names, used);
      assert false;
    }
    var i :| 0 <= i < |names| && names[i] !in used;
    key := names[i];
  }

  lemma {:induction false} BaseThatDiffers(p: Json, q: Json) returns (base: Json)
    requires LeafThenObject(p, q)
    ensures !AssociatesOn(base, p, q)
    decreases q
  {
    if !p.Obj? {
      var key := FreshKey(q.fields.Keys);
      base := Obj(map[key := Scalar("")]);
      assert key in Merge(base, q).fields;
    } else {
      var k :| k in p.fields && k in q.fields && LeafThenObject(p.fields[k], q.fields[k]);
      var inner := BaseThatDiffers(p.fields[k], q.fields[k]);
      base := Obj(map[k := inner]);
      assert Merge(Merge(base, p), q).fields[k] == Merge(Merge(inner, p.fields[k]), q.fields[k]);
      assert Merge(base, Merge(p, q)).fields[k] == Merge(inner, Merge(p.fields[k], q.fields[k]));
    }
  }

  /**
   Two patches may be folded into one beforehand, on every tree, exactly when no leaf of the first
   meets an object of the second.
   */
  lemma FoldablePatchesIff(p: Json, q: Json)
    ensures (forall base :: AssociatesOn(base, p, q)) <==> !LeafThenObject(p, q)
  {
    if LeafThenObject(p, q) {
      var base := BaseThatDiffers(p, q);
    } else {
      forall base ensures AssociatesOn(base, p, q) { MergeAssociative(base, p, q); }
    }
  }

  /** The only key is deleted: after merging the delta it is still there, next to the delta's list of deletions. */
  lemma DeletedKeyStays(key: string, value: Json)
    ensures var before, after := Obj(map[key := value]), Obj(map[]);
      && Merge(before, Obj(Diff(before, after))).fields.Keys == {key, DELETED}
      && Merge(before, Obj(Diff(before, after))) != after
  {
    var before, after := Obj(map[key := value]), Obj(map[]);
    assert key in before.fields && key !in after.fields;
    assert Changed(before, after) == map[];
    var merged := Merge(before, Obj(Diff(before, after))).fields;
    assert merged.Keys == {key, DELETED} && key in merged;
  }
}
