/**
 * The JSON-like values of config-d.ts and its deep merge: `isPlainObject`,
 * `mergeDeep` as a value (`Merged`) and as the source's loop over the
 * source object's entries (`MergeDeep`), with what the merge promises.
 */
module JsonMerge {
  import opened Wrappers

  /** A parsed configuration value; numbers are kept as integers. */
  datatype Json = JNull | JBool(b: bool) | JNum(n: int) | JStr(s: string) | JArr(items: seq<Json>)
                | JObj(fields: map<string, Json>)

  /** `isPlainObject`: truthy, an object, and not an array. */
  predicate IsPlainObject(v: Json) {
    v.JObj?
  }

  /**
   * `mergeDeep(target, source)` as a value: a non-object on either side gives
   * the source (arrays are copied, which is the same value); two objects give
   * every key of either, with `MergedAt` under each.
   */
  function Merged(t: Json, s: Json): Json
    decreases s, 1
  {
    if !t.JObj? || !s.JObj? then s
    else JObj(map key | key in t.fields.Keys + s.fields.Keys :: MergedAt(t.fields, s.fields, key))
  }

  /** What `mergeDeep` leaves under `key` of two objects: the source's value, merged when both are objects. */
  function MergedAt(t: map<string, Json>, s: map<string, Json>, key: string): Json
    requires key in t.Keys + s.Keys
    decreases JObj(s), 0
  {
    if key !in s then t[key]
    else if s[key].JObj? && key in t && t[key].JObj? then Merged(t[key], s[key])
    else s[key]
  }

  /**
   * Object merge: the keys are the union; a key of the source wins unless it
   * is an object on both sides, which are then merged; a key only in the
   * target keeps its value. A non-object on either side is replaced by the
   * source (an array replaces wholesale, never element by element).
   */
  lemma MergedSpec(t: Json, s: Json)
    ensures !t.JObj? || !s.JObj? ==> Merged(t, s) == s
    ensures t.JObj? && s.JObj? ==>
      var r := Merged(t, s);
      && r.JObj?
      && r.fields.Keys == t.fields.Keys + s.fields.Keys
      && (forall k :: k in t.fields && k !in s.fields ==> r.fields[k] == t.fields[k])
      && (forall k :: k in s.fields && !(s.fields[k].JObj? && k in t.fields && t.fields[k].JObj?) ==>
            r.fields[k] == s.fields[k])
      && (forall k :: k in s.fields && s.fields[k].JObj? && k in t.fields && t.fields[k].JObj? ==>
            r.fields[k] == Merged(t.fields[k], s.fields[k]))
  {
  }

  /** Merging a value into itself gives it back. */
  lemma {:induction false} MergedSelf(s: Json)
    ensures Merged(s, s) == s
    decreases s
  {
    if s.JObj? {
      forall k | k in s.fields ensures MergedAt(s.fields, s.fields, k) == s.fields[k] {
        if s.fields[k].JObj? {
          MergedSelf(s.fields[k]);
        }
      }
      assert Merged(s, s).fields == s.fields;
    }
  }

  /** Merging the same overlay twice is the same as merging it once. */
  lemma {:induction false} MergedIdempotent(t: Json, s: Json)
    ensures Merged(Merged(t, s), s) == Merged(t, s)
    decreases s
  {
    var r := Merged(t, s);
    if !t.JObj? || !s.JObj? {
      MergedSelf(s);
    } else {
      forall k | k in s.fields ensures MergedAt(r.fields, s.fields, k) == r.fields[k] {
        assert r.fields[k] == MergedAt(t.fields, s.fields, k);
        if s.fields[k].JObj? {
          if k in t.fields && t.fields[k].JObj? {
            MergedIdempotent(t.fields[k], s.fields[k]);
          } else {
            MergedSelf(s.fields[k]);
          }
        }
      }
      assert Merged(r, s).fields == r.fields;
    }
  }

  /** An object merged into an empty object is itself. */
  lemma MergedIntoEmpty(s: Json)
    requires s.JObj?
    ensures Merged(JObj(map[]), s) == s
  {
    assert Merged(JObj(map[]), s).fields == s.fields;
  }

  /** The value reached from `j` by following the object keys of `path`. */
  function At(j: Json, path: seq<string>): Option<Json>
    decreases |path|
  {
    if |path| == 0 then Some(j)
    else if j.JObj? && path[0] in j.fields then At(j.fields[path[0]], path[1..])
    else None
  }

  /** A leaf (any non-object) of the source wins at its path. */
  lemma {:induction false} LeafWins(t: Json, s: Json, path: seq<string>, v: Json)
    requires At(s, path) == Some(v) && !v.JObj?
    ensures At(Merged(t, s), path) == Some(v)
    decreases |path|
  {
    if |path| > 0 && t.JObj? && s.JObj? {
      var k := path[0];
      if s.fields[k].JObj? && k in t.fields && t.fields[k].JObj? {
        LeafWins(t.fields[k], s.fields[k], path[1..], v);
      }
    }
  }

  /** The source says nothing about `path`: each prefix is an object, and some key on the way is missing. */
  predicate SilentOn(s: Json, path: seq<string>)
    decreases |path|
  {
    |path| > 0 && s.JObj? && (path[0] !in s.fields || SilentOn(s.fields[path[0]], path[1..]))
  }

  lemma {:induction false} SilentHasNothing(s: Json, path: seq<string>)
    requires SilentOn(s, path)
    ensures At(s, path).None?
    decreases |path|
  {
    if path[0] in s.fields {
      SilentHasNothing(s.fields[path[0]], path[1..]);
    }
  }

  /** Where the source is silent, the target's value (or its absence) survives the merge. */
  lemma {:induction false} SilentKeeps(t: Json, s: Json, path: seq<string>)
    requires SilentOn(s, path)
    ensures At(Merged(t, s), path) == At(t, path)
    decreases |path|
  {
    var k := path[0];
    if !t.JObj? {
      SilentHasNothing(s, path);
    } else if k in s.fields {
      if s.fields[k].JObj? && k in t.fields && t.fields[k].JObj? {
        SilentKeeps(t.fields[k], s.fields[k], path[1..]);
      } else {
        SilentHasNothing(s.fields[k], path[1..]);
        if k in t.fields {
          assert !t.fields[k].JObj?;
          assert |path[1..]| > 0;
        }
      }
    }
  }

  /** The fold of `loadConfigD`: `result = mergeDeep(result, next)` from `{}`, in order. */
  function MergeAll(objs: seq<Json>): Json
    decreases |objs|
  {
    if |objs| == 0 then JObj(map[]) else Merged(MergeAll(objs[..|objs| - 1]), objs[|objs| - 1])
  }

  /**
   * Later files win: a leaf of file i survives the fold when every later
   * file is silent on its path.
   */
  lemma {:induction false} LaterFileWins(objs: seq<Json>, i: nat, path: seq<string>, v: Json)
    requires i < |objs| && At(objs[i], path) == Some(v) && !v.JObj?
    requires forall j :: i < j < |objs| ==> SilentOn(objs[j], path)
    ensures At(MergeAll(objs), path) == Some(v)
    decreases |objs|
  {
    var n := |objs|;
    if i == n - 1 {
      LeafWins(MergeAll(objs[..n - 1]), objs[n - 1], path, v);
    } else {
      var init := objs[..n - 1];
      assert forall j :: i < j < |init| ==> init[j] == objs[j];
      LaterFileWins(init, i, path, v);
      SilentKeeps(MergeAll(init), objs[n - 1], path);
    }
  }

  /** `mergeDeep`: a non-object on either side gives the source, else the target's fields are merged in place. */
  method MergeDeep(target: Json, source: Json) returns (r: Json)
    ensures r == Merged(target, source)
    decreases source, 3
  {
    if !IsPlainObject(target) || !IsPlainObject(source) {
      return source;
    }
    var fields := MergeObjects(target, source);
    r := JObj(fields);
  }

  /** The target's fields once the keys in `done` have been written. */
  function PartialMerge(t: map<string, Json>, s: map<string, Json>, done: set<string>): (r: map<string, Json>)
    requires done <= s.Keys
    ensures r.Keys == t.Keys + done
  {
    map k | k in t.Keys + done :: if k in done then MergedAt(t, s, k) else t[k]
  }

  lemma PartialMergeStep(t: map<string, Json>, s: map<string, Json>, done: set<string>, key: string)
    requires done <= s.Keys && key in s
    ensures PartialMerge(t, s, done + {key}) == PartialMerge(t, s, done)[key := MergedAt(t, s, key)]
  {
  }

  /** Before the loop the fields are the target's; after it, those of the merge. */
  lemma PartialMergeEnds(t: map<string, Json>, s: map<string, Json>)
    ensures PartialMerge(t, s, {}) == t
    ensures PartialMerge(t, s, s.Keys) == Merged(JObj(t), JObj(s)).fields
  {
  }

  /** The loop of `mergeDeep` over the source's entries, writing `target[key]` for each. */
  method MergeObjects(target: Json, source: Json) returns (fields: map<string, Json>)
    requires target.JObj? && source.JObj?
    ensures fields == Merged(target, source).fields
    decreases source, 2
  {
    PartialMergeEnds(target.fields, source.fields);
    fields := target.fields;
    var done: set<string> := {};
    while done != source.fields.Keys
      invariant done <= source.fields.Keys
      invariant fields == PartialMerge(target.fields, source.fields, done)
      decreases |source.fields.Keys - done|
    {
      var key :| key in source.fields.Keys - done;
      fields := MergeEntry(target, source, key, fields);
      PartialMergeStep(target.fields, source.fields, done, key);
      done := done + {key};
    }
  }

  /** One iteration of `mergeDeep`'s loop: `target[key]` becomes the merged value. */
  method MergeEntry(target: Json, source: Json, key: string, fields: map<string, Json>)
    returns (updated: map<string, Json>)
    requires target.JObj? && source.JObj? && key in source.fields
    requires key in fields <==> key in target.fields
    requires key in fields ==> fields[key] == target.fields[key]
    ensures updated == fields[key := MergedAt(target.fields, source.fields, key)]
    decreases source, 1
  {
    var value := source.fields[key];
    if IsPlainObject(value) && key in fields && IsPlainObject(fields[key]) {
      var merged := MergeDeep(fields[key], value);
      updated := fields[key := merged];
    } else {
      updated := fields[key := value];
    }
  }
}
