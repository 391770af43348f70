/**
 Settings as JSON Merge Patches, RFC 7386 section 2, and the patch between two settings
 (monitor_app/settings/overrides.py).
 */
module Settings {
  import opened Options

  datatype Json =
    | Null
    | Bool(b: bool)
    | Int(n: int)
    | Float(x: real)
    | Str(s: string)
    | Arr(items: seq<Json>)
    | Obj(members: map<string, Json>)

  /** `target.get(key)`, for a target that need not be a dictionary. */
  function Member(j: Json, k: string): Json {
    if j.Obj? && k in j.members then j.members[k] else Null
  }

  function Keys(j: Json): set<string> {
    if j.Obj? then j.members.Keys else {}
  }

  // ------------------------------------------------------------------- what it computes

  function Merged(target: Json, patch: Json): Json
    decreases patch
  {
    if !patch.Obj? then patch
    else
      Obj(map k | k in Keys(target) + patch.members.Keys && !(k in patch.members && patch.members[k].Null?) ::
            if k in patch.members then Merged(Member(target, k), patch.members[k]) else Member(target, k))
  }

  function WithoutNulls(j: Json): Json {
    if !j.Obj? then j
    else Obj(map k | k in j.members && !j.members[k].Null? :: WithoutNulls(j.members[k]))
  }

  predicate Numeric(j: Json) {
    j.Bool? || j.Int? || j.Float?
  }

  function Number(j: Json): real
    requires Numeric(j)
  {
    match j case Bool(b) => (if b then 1.0 else 0.0) case Int(n) => n as real case Float(x) => x
  }

  /** Python's `==`, for which `True`, `1` and `1.0` are the same, at any depth. */
  predicate Equal(a: Json, b: Json) {
    if Numeric(a) then Numeric(b) && Number(a) == Number(b)
    else match a
      case Arr(items) =>
        b.Arr? && |items| == |b.items| && forall i :: 0 <= i < |items| ==> Equal(items[i], b.items[i])
      case Obj(members) =>
        b.Obj? && members.Keys == b.members.Keys && forall k :: k in members ==> Equal(members[k], b.members[k])
      case _ => a == b
  }

  function Difference(base: Json, desired: Json): Json
    decreases desired
  {
    if !(base.Obj? && desired.Obj?) then WithoutNulls(desired)
    else
      Obj(map k | k in base.members.Keys + desired.members.Keys && Changed(base, desired, k) ::
            if k !in desired.members then Null
            else if k !in base.members then WithoutNulls(desired.members[k])
            else Difference(base.members[k], desired.members[k]))
  }

  /** A key the patch has to say something about. */
  predicate Changed(base: Json, desired: Json, k: string)
    requires base.Obj? && desired.Obj?
  {
    if k !in desired.members then k in base.members
    else if k !in base.members then !desired.members[k].Null?
    else !Equal(base.members[k], desired.members[k])
  }

  // ----------------------------------------------------------------------- the functions

  /** `merge_patch`. */
  method MergePatch(target: Json, patch: Json) returns (r: Json)
    ensures r == Merged(target, patch)
    decreases patch
  {
    if !patch.Obj? {
      return patch;
    }
    hide Merged, MergedSoFar;
    var result := if target.Obj? then target.members else map[];
    var todo := patch.members.Keys;
    MergedStarts(target, patch);
    while todo != {}
      invariant todo <= patch.members.Keys
      invariant MergedSoFar(target, patch, patch.members.Keys - todo, result)
      decreases todo
    {
      var key :| key in todo;
      var value := patch.members[key];
      MergedOn(target, patch, patch.members.Keys - todo, key, result);
      assert patch.members.Keys - (todo - {key}) == patch.members.Keys - todo + {key};
      if value.Null? {
        result := result - {key};
      } else {
        var merged := MergePatch(if key in result then result[key] else Null, value);
        result := result[key := merged];
      }
      todo := todo - {key};
    }
    MergedAll(target, patch, result);
    return Obj(result);
  }

  /** The loop of `merge_patch` after the keys in `done`. */
  ghost predicate MergedSoFar(target: Json, patch: Json, done: set<string>, result: map<string, Json>)
    requires patch.Obj? && done <= patch.members.Keys
  {
    forall k ::
      && (k in result <==> if k in done then !patch.members[k].Null? else k in Keys(target))
      && (k in result ==>
        result[k] == if k in done then Merged(Member(target, k), patch.members[k]) else Member(target, k))
  }

  lemma {:induction false} MergedStarts(target: Json, patch: Json)
    requires patch.Obj?
    ensures MergedSoFar(target, patch, patch.members.Keys - patch.members.Keys,
                        if target.Obj? then target.members else map[])
  {
  }

  lemma {:induction false} MergedOn(target: Json, patch: Json, done: set<string>, key: string,
                                    result: map<string, Json>)
    requires patch.Obj? && done <= patch.members.Keys && key in patch.members && key !in done
    requires MergedSoFar(target, patch, done, result)
    ensures (if key in result then result[key] else Null) == Member(target, key)
    ensures MergedSoFar(target, patch, done + {key},
                        if patch.members[key].Null? then result - {key}
                        else result[key := Merged(Member(target, key), patch.members[key])])
  {
    hide Merged;
  }

  lemma {:induction false} MergedAll(target: Json, patch: Json, result: map<string, Json>)
    requires patch.Obj? && MergedSoFar(target, patch, patch.members.Keys, result)
    ensures Obj(result) == Merged(target, patch)
  {
    assert result == Merged(target, patch).members;
  }

  /** `diff_patch`. */
  method DiffPatch(base: Json, desired: Json) returns (r: Json)
    ensures r == Difference(base, desired)
    decreases desired
  {
    if !(base.Obj? && desired.Obj?) {
      return WithoutNulls(desired);
    }
    var patch: map<string, Json> := map k | k in base.members && k !in desired.members :: Null;
    var todo := desired.members.Keys;
    while todo != {}
      invariant todo <= desired.members.Keys
      invariant forall k :: k in patch <==>
        if k in desired.members then k !in todo && Changed(base, desired, k) else k in base.members
      invariant forall k :: k in patch ==>
        patch[k] == if k !in desired.members then Null
                    else if k !in base.members then WithoutNulls(desired.members[k])
                    else Difference(base.members[k], desired.members[k])
      decreases todo
    {
      var key :| key in todo;
      var value := desired.members[key];
      if key !in base.members {
        if !value.Null? {
          patch := patch[key := WithoutNulls(value)];
        }
      } else if !Equal(base.members[key], value) {
        var inner := DiffPatch(base.members[key], value);
        patch := patch[key := inner];
      }
      todo := todo - {key};
    }
    return Obj(patch);
  }

  // ---------------------------------------------------------------------- equality

  lemma {:induction false} EqualToItself(a: Json)
    ensures Equal(a, a)
  {
    match a
    case Arr(items) =>
      forall i | 0 <= i < |items| ensures Equal(items[i], items[i]) {
        EqualToItself(items[i]);
      }
    case Obj(members) =>
      forall k | k in members ensures Equal(members[k], members[k]) {
        EqualToItself(members[k]);
      }
    case _ =>
  }

  lemma {:induction false} EqualWithoutNulls(a: Json, b: Json)
    requires Equal(a, b)
    ensures Equal(WithoutNulls(a), WithoutNulls(b))
  {
    if a.Obj? {
      forall k | k in a.members && !a.members[k].Null?
        ensures Equal(WithoutNulls(a.members[k]), WithoutNulls(b.members[k]))
      {
        EqualWithoutNulls(a.members[k], b.members[k]);
      }
    }
  }

  // -------------------------------------------------------------------- round trip

  /** Nothing is null inside dictionaries. */
  predicate NullFree(j: Json) {
    j.Obj? ==> forall k :: k in j.members ==> !j.members[k].Null? && NullFree(j.members[k])
  }

  lemma {:induction false} WithoutNullsIsNullFree(j: Json)
    ensures NullFree(WithoutNulls(j)) && (WithoutNulls(j).Null? <==> j.Null?)
  {
    if j.Obj? {
      forall k | k in j.members && !j.members[k].Null?
        ensures NullFree(WithoutNulls(j.members[k])) && !WithoutNulls(j.members[k]).Null?
      {
        WithoutNullsIsNullFree(j.members[k]);
      }
    }
  }

  lemma {:induction false} NullFreeStays(j: Json)
    requires NullFree(j)
    ensures WithoutNulls(j) == j
  {
    if j.Obj? {
      forall k | k in j.members ensures WithoutNulls(j.members[k]) == j.members[k] {
        NullFreeStays(j.members[k]);
      }
      assert WithoutNulls(j).members == j.members;
    }
  }

  /** A patch without nulls on a value that is no dictionary is the patch itself. */
  lemma {:induction false} FreshMerge(target: Json, patch: Json)
    requires NullFree(patch) && !(target.Obj? && patch.Obj?)
    ensures Merged(target, patch) == patch
    decreases patch
  {
    if patch.Obj? {
      forall k | k in patch.members ensures Merged(Member(target, k), patch.members[k]) == patch.members[k] {
        FreshMerge(Member(target, k), patch.members[k]);
      }
      assert Merged(target, patch).members == patch.members;
    }
  }

  /**
   What the patch leaves alone because Python calls it equal really is the same, up to
   null members.
   */
  predicate Distinguishes(base: Json, desired: Json)
    decreases desired, 1
  {
    base.Obj? && desired.Obj? ==>
      forall k :: k in base.members && k in desired.members ==> DistinguishesAt(base, desired, k)
  }

  predicate DistinguishesAt(base: Json, desired: Json, k: string)
    requires base.Obj? && desired.Obj? && k in base.members && k in desired.members
    decreases desired, 0
  {
    if Equal(base.members[k], desired.members[k])
    then WithoutNulls(base.members[k]) == WithoutNulls(desired.members[k])
    else Distinguishes(base.members[k], desired.members[k])
  }

  /** What a key holds after the round trip. */
  lemma {:induction false} RoundTripAt(base: Json, desired: Json, k: string)
    requires base.Obj? && desired.Obj?
    ensures var r := Merged(base, Difference(base, desired));
      && r.Obj?
      && (k in r.members ==> k in base.members || k in desired.members)
      && (k in base.members && k !in desired.members ==> k !in r.members)
      && (k !in base.members && k in desired.members ==>
            if desired.members[k].Null? then k !in r.members
            else k in r.members && r.members[k] == WithoutNulls(desired.members[k]))
      && (k in base.members && k in desired.members && Equal(base.members[k], desired.members[k]) ==>
            k in r.members && r.members[k] == base.members[k])
      && (k in base.members && k in desired.members && !Equal(base.members[k], desired.members[k]) ==>
            var inner := Difference(base.members[k], desired.members[k]);
            if inner.Null? then k !in r.members
            else k in r.members && r.members[k] == Merged(base.members[k], inner))
  {
    if k !in base.members && k in desired.members && !desired.members[k].Null? {
      WithoutNullsIsNullFree(desired.members[k]);
      FreshMerge(Null, WithoutNulls(desired.members[k]));
    }
  }

  /**
   Main result: the patch between two settings gives back the desired one, up to null
   members and up to Python's equality.
   */
  lemma {:induction false} RoundTrip(base: Json, desired: Json)
    ensures Equal(WithoutNulls(Merged(base, Difference(base, desired))), WithoutNulls(desired))
    decreases desired
  {
    if base.Obj? && desired.Obj? {
      var r := Merged(base, Difference(base, desired));
      var a, b := WithoutNulls(r), WithoutNulls(desired);
      forall k ensures (k in a.members <==> k in b.members) && (k in a.members ==> Equal(a.members[k], b.members[k])) {
        RoundTripMember(base, desired, k);
      }
    } else {
      WithoutNullsIsNullFree(desired);
      FreshMerge(base, WithoutNulls(desired));
      NullFreeStays(WithoutNulls(desired));
      EqualToItself(WithoutNulls(desired));
    }
  }

  lemma {:induction false} RoundTripMember(base: Json, desired: Json, k: string)
    requires base.Obj? && desired.Obj?
    ensures var a := WithoutNulls(Merged(base, Difference(base, desired)));
      var b := WithoutNulls(desired);
      (k in a.members <==> k in b.members) && (k in a.members ==> Equal(a.members[k], b.members[k]))
    decreases desired, 0
  {
    RoundTripAt(base, desired, k);
    if k in desired.members {
      var value := desired.members[k];
      WithoutNullsIsNullFree(value);
      if k !in base.members {
        NullFreeStays(WithoutNulls(value));
        EqualToItself(WithoutNulls(value));
      } else if Equal(base.members[k], value) {
        EqualWithoutNulls(base.members[k], value);
      } else {
        RoundTrip(base.members[k], value);
      }
    }
  }

  /** The round trip is exact if and only if equality distinguished everything it compared. */
  lemma {:induction false} RoundTripExactly(base: Json, desired: Json)
    ensures WithoutNulls(Merged(base, Difference(base, desired))) == WithoutNulls(desired) <==>
      Distinguishes(base, desired)
    decreases desired
  {
    if base.Obj? && desired.Obj? {
      var a, b := WithoutNulls(Merged(base, Difference(base, desired))), WithoutNulls(desired);
      forall k ensures SameMember(a, b, k) <==> (InBoth(base, desired, k) ==> DistinguishesAt(base, desired, k)) {
        ExactMember(base, desired, k);
      }
      SameMembers(a, b);
    } else {
      WithoutNullsIsNullFree(desired);
      FreshMerge(base, WithoutNulls(desired));
      NullFreeStays(WithoutNulls(desired));
    }
  }

  predicate InBoth(base: Json, desired: Json, k: string)
    requires base.Obj? && desired.Obj?
  {
    k in base.members && k in desired.members
  }

  ghost predicate SameMember(a: Json, b: Json, k: string)
    requires a.Obj? && b.Obj?
  {
    (k in a.members <==> k in b.members) && (k in a.members ==> a.members[k] == b.members[k])
  }

  lemma {:induction false} SameMembers(a: Json, b: Json)
    requires a.Obj? && b.Obj?
    ensures a == b <==> forall k :: SameMember(a, b, k)
  {
    if forall k :: SameMember(a, b, k) {
      forall k ensures k in a.members <==> k in b.members {
        assert SameMember(a, b, k);
      }
      forall k | k in a.members ensures a.members[k] == b.members[k] {
        assert SameMember(a, b, k);
      }
      assert a.members == b.members;
    }
  }

  lemma {:induction false} ExactMember(base: Json, desired: Json, k: string)
    requires base.Obj? && desired.Obj?
    ensures var a := WithoutNulls(Merged(base, Difference(base, desired)));
      SameMember(a, WithoutNulls(desired), k) <==> (InBoth(base, desired, k) ==> DistinguishesAt(base, desired, k))
    decreases desired, 0
  {
    RoundTripAt(base, desired, k);
    if k in desired.members {
      var value := desired.members[k];
      WithoutNullsIsNullFree(value);
      if k !in base.members {
        NullFreeStays(WithoutNulls(value));
      } else if Equal(base.members[k], value) {
        WithoutNullsIsNullFree(base.members[k]);
      } else {
        WithoutNullsIsNullFree(Merged(base.members[k], Difference(base.members[k], value)));
        RoundTripExactly(base.members[k], value);
        if value.Null? {
          assert Distinguishes(base.members[k], value);
        }
      }
    }
  }

  /** Wherever both have a number or a truth value, it is of the same kind. */
  predicate SameKinds(a: Json, b: Json) {
    match a
    case Bool(_) => !b.Int? && !b.Float?
    case Int(_) => !b.Bool? && !b.Float?
    case Float(_) => !b.Bool? && !b.Int?
    case Arr(items) =>
      b.Arr? && |items| == |b.items| ==> forall i :: 0 <= i < |items| ==> SameKinds(items[i], b.items[i])
    case Obj(members) =>
      b.Obj? ==> forall k :: k in members && k in b.members ==> SameKinds(members[k], b.members[k])
    case _ => true
  }

  /** Then what Python calls equal is the same. */
  lemma {:induction false} EqualIsSame(a: Json, b: Json)
    requires SameKinds(a, b)
    ensures Equal(a, b) <==> a == b
  {
    EqualToItself(a);
    if Equal(a, b) {
      if a.Arr? {
        forall i | 0 <= i < |a.items| ensures a.items[i] == b.items[i] {
          EqualIsSame(a.items[i], b.items[i]);
        }
        assert a.items == b.items;
      } else if a.Obj? {
        forall k | k in a.members ensures a.members[k] == b.members[k] {
          EqualIsSame(a.members[k], b.members[k]);
        }
        assert a.members == b.members;
      }
    }
  }

  lemma {:induction false} SameKindsDistinguish(base: Json, desired: Json)
    requires SameKinds(base, desired)
    ensures Distinguishes(base, desired)
  {
    if base.Obj? && desired.Obj? {
      forall k | k in base.members && k in desired.members ensures DistinguishesAt(base, desired, k) {
        EqualIsSame(base.members[k], desired.members[k]);
        SameKindsDistinguish(base.members[k], desired.members[k]);
      }
    }
  }

  /** The round trip is exact, up to null members, if no value changes between these kinds. */
  lemma {:induction false} RoundTripOfSameKinds(base: Json, desired: Json)
    requires SameKinds(base, desired)
    ensures WithoutNulls(Merged(base, Difference(base, desired))) == WithoutNulls(desired)
  {
    SameKindsDistinguish(base, desired);
    RoundTripExactly(base, desired);
  }

  /** A switch turned from `true` to 1 is not saved. */
  lemma {:induction false} TrueIsOne()
    ensures var base, desired := Obj(map["refresh" := Bool(true)]), Obj(map["refresh" := Int(1)]);
      Difference(base, desired) == Obj(map[]) && Merged(base, Difference(base, desired)) == base != desired
  {
    var base, desired := Obj(map["refresh" := Bool(true)]), Obj(map["refresh" := Int(1)]);
    assert Equal(base.members["refresh"], desired.members["refresh"]);
    assert Difference(base, desired).members == map[];
    assert Merged(base, Difference(base, desired)).members == base.members;
    assert base.members["refresh"] != desired.members["refresh"];
  }

  // ------------------------------------------------------------------ applying patches

  /** Applying a patch again changes nothing. */
  lemma {:induction false} ApplyingTwice(target: Json, patch: Json)
    ensures Merged(Merged(target, patch), patch) == Merged(target, patch)
    decreases patch
  {
    if patch.Obj? {
      var once := Merged(target, patch);
      forall k | k in patch.members && !patch.members[k].Null?
        ensures Merged(Member(once, k), patch.members[k]) == Merged(Member(target, k), patch.members[k])
      {
        ApplyingTwice(Member(target, k), patch.members[k]);
      }
      assert Merged(once, patch).members == once.members;
    }
  }

  type Path = seq<string>

  /** The value at a path of keys, if every step on it is a dictionary with that key. */
  function At(j: Json, path: Path): Option<Json> {
    if path == [] then Some(j)
    else if j.Obj? && path[0] in j.members then At(j.members[path[0]], path[1..])
    else None
  }

  /** Following the path, the patch ends before it says anything about it. */
  predicate Unmentioned(patch: Json, path: Path) {
    && patch.Obj? && path != []
    && (path[0] in patch.members ==> Unmentioned(patch.members[path[0]], path[1..]))
  }

  /** Whatever it is applied to, a patch keeps what it does not mention. */
  lemma {:induction false} UnmentionedStays(target: Json, patch: Json, path: Path)
    requires Unmentioned(patch, path)
    ensures At(Merged(target, patch), path) == At(target, path)
    decreases |path|
  {
    if path[0] in patch.members {
      UnmentionedStays(Member(target, path[0]), patch.members[path[0]], path[1..]);
    }
  }

  /**
   What a patch says about a path happens: null removes it, a value that is no dictionary
   is put there, and where the patch has a dictionary there is one.
   */
  lemma {:induction false} MentionedHappens(target: Json, patch: Json, path: Path)
    requires path != [] && At(patch, path).Some?
    ensures var said, now := At(patch, path).value, At(Merged(target, patch), path);
      && (said.Null? ==> now.None?)
      && (!said.Null? && !said.Obj? ==> now == Some(said))
      && (said.Obj? ==> now.Some? && now.value.Obj?)
    decreases |path|
  {
    var k := path[0];
    if |path| > 1 {
      MentionedHappens(Member(target, k), patch.members[k], path[1..]);
    }
  }

  /** What is left without nulls: every path but those that end at a null. */
  lemma {:induction false} OnlyNullsGo(j: Json, path: Path)
    ensures At(WithoutNulls(j), path).Some? <==>
      At(j, path).Some? && (path == [] || !At(j, path).value.Null?)
    ensures At(WithoutNulls(j), path).Some? ==>
      var was, now := At(j, path).value, At(WithoutNulls(j), path).value;
      if was.Obj? then now.Obj? else now == was
    decreases |path|
  {
    if path != [] && j.Obj? && path[0] in j.members {
      OnlyNullsGo(j.members[path[0]], path[1..]);
    }
  }

  /**
   Both values are dictionaries along the path until they are equal or lack the same key; a
   null that the user put where the base has nothing counts as lacking.
   */
  predicate Agree(base: Json, desired: Json, path: Path) {
    && path != [] && base.Obj? && desired.Obj?
    && (path[0] !in base.members ==> path[0] !in desired.members || desired.members[path[0]].Null?)
    && (path[0] in base.members ==>
          && path[0] in desired.members
          && (Equal(base.members[path[0]], desired.members[path[0]])
              || Agree(base.members[path[0]], desired.members[path[0]], path[1..])))
  }

  /** In particular, they agree on every path on which both have equal values. */
  lemma {:induction false} EqualValuesAgree(base: Json, desired: Json, path: Path)
    requires path != [] && At(base, path).Some? && At(desired, path).Some?
    requires Equal(At(base, path).value, At(desired, path).value)
    ensures Agree(base, desired, path)
  {
    if |path| > 1 {
      EqualValuesAgree(base.members[path[0]], desired.members[path[0]], path[1..]);
    }
  }

  /** The patch between two settings mentions no path on which they agree. */
  lemma {:induction false} OnlyWhatChanged(base: Json, desired: Json, path: Path)
    requires Agree(base, desired, path)
    ensures Unmentioned(Difference(base, desired), path)
    decreases |path|
  {
    var k := path[0];
    if k in base.members && !Equal(base.members[k], desired.members[k]) {
      OnlyWhatChanged(base.members[k], desired.members[k], path[1..]);
    }
  }

  /**
   Settings saved against one base keep, on a later base, whatever the user had not
   changed.
   */
  lemma {:induction false} UnchangedFollowsTheBase(base: Json, desired: Json, later: Json, path: Path)
    requires Agree(base, desired, path)
    ensures At(Merged(later, Difference(base, desired)), path) == At(later, path)
  {
    OnlyWhatChanged(base, desired, path);
    UnmentionedStays(later, Difference(base, desired), path);
  }

}
