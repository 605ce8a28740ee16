/** JSON merge patch (section 2 of RFC 7386): objects recurse, null deletes, anything else replaces. */
module MergePatch {

  /** Decoded JSON; numbers and array elements are never looked into. */
  datatype Json =
    | Null
    | Bool(b: bool)
    | Number(digits: string)
    | String(s: string)
    | Array(items: seq<Json>)
    | Object(members: map<string, Json>)

  function MembersOf(j: Json): map<string, Json> {
    if j.Object? then j.members else map[]
  }

  /** A member, or null when there is none. */
  function Member(m: map<string, Json>, k: string): Json {
    if k in m then m[k] else Null
  }

  /** The RFC's function, member by member: which members the result has, and what each one is. */
  function Merge(target: Json, patch: Json): Json
    decreases patch
  {
    if !patch.Object? then patch
    else
      var t, p := MembersOf(target), patch.members;
      Object(map k | k in t.Keys + p.Keys && (k !in p || !p[k].Null?) :: if k in p then Merge(Member(t, k), p[k]) else t[k])
  }

  /** `out` is `target` with the patch's members in `done` merged in, and the others as they were. */
  ghost predicate MergedSoFar(target: map<string, Json>, p: map<string, Json>, done: set<string>, out: map<string, Json>) {
    forall k ::
      if k in p && k in done then (k in out <==> !p[k].Null?) && (k in out ==> out[k] == Merge(Member(target, k), p[k]))
      else (k in out <==> k in target) && (k in out ==> out[k] == target[k])
  }

  lemma MergeOneMore(target: map<string, Json>, p: map<string, Json>, done: set<string>, out: map<string,
                     Json>, k: string)
    requires MergedSoFar(target, p, done, out) && k in p && k !in done
    ensures Member(out, k) == Member(target, k)
    ensures p[k].Null? ==> MergedSoFar(target, p, done + {k}, out - {k})
    ensures !p[k].Null? ==> MergedSoFar(target, p, done + {k}, out[k := Merge(Member(target, k), p[k])])
  {
  }

  lemma NothingMerged(target: map<string, Json>, p: map<string, Json>)
    ensures MergedSoFar(target, p, {}, map k | k in target :: target[k])
  {
  }

  /** One member of the result. */
  lemma MergeAt(target: map<string, Json>, patch: Json, k: string)
    requires patch.Object?
    ensures var merged := Merge(Object(target), patch);
            && merged.Object?
            && (k in merged.members <==> if k in patch.members then !patch.members[k].Null? else k in target)
            && (k in merged.members ==>
                  merged.members[k] == if k in patch.members then Merge(Member(target, k), patch.members[k]) else target[k])
  {
  }

  lemma MergedAll(target: map<string, Json>, patch: Json, out: map<string, Json>)
    requires patch.Object? && MergedSoFar(target, patch.members, patch.members.Keys, out)
    ensures Object(out) == Merge(Object(target), patch)
  {
    hide Merge;
    MergeAt(target, patch, "");
    var merged := Merge(Object(target), patch).members;
    forall k ensures k in out <==> k in merged {
      MergeAt(target, patch, k);
    }
    forall k | k in out ensures out[k] == merged[k] {
      MergeAt(target, patch, k);
    }
    assert out == merged;
  }

  /** Merge two objects, taking the patch's members in whatever order they come. */
  method MergeJSONObjects(target: map<string, Json>, patch: Json) returns (out: map<string, Json>)
    requires patch.Object?
    ensures Object(out) == Merge(Object(target), patch)
    decreases patch, 0
  {
    NothingMerged(target, patch.members);
    hide Merge, MergedSoFar;
    var p := patch.members;
    out := map k | k in target :: target[k];
    var rest := p.Keys;
    assert p.Keys - rest == {};
    while rest != {}
      invariant rest <= p.Keys && MergedSoFar(target, p, p.Keys - rest, out)
      decreases |rest|
    {
      var k :| k in rest;
      MergeOneMore(target, p, p.Keys - rest, out, k);
      assert p.Keys - (rest - {k}) == (p.Keys - rest) + {k};
      rest := rest - {k};
      var pv := p[k];
      if pv.Null? {
        out := out - {k};
      } else {
        var merged := MergeMember(Member(out, k), pv);
        out := out[k := merged];
      }
    }
    assert p.Keys - {} == p.Keys;
    MergedAll(target, patch, out);
  }

  /** One member that the patch does not delete. */
  method MergeMember(was: Json, pv: Json) returns (merged: Json)
    requires !pv.Null?
    ensures merged == Merge(was, pv)
    decreases pv, 1
  {
    if !pv.Object? {
      return pv;
    }
    var tObj := if was.Object? then was.members else map[];
    var members := MergeJSONObjects(tObj, pv);
    SameMembers(was, pv);
    return Object(members);
  }

  /** A target that is not an object counts as an empty one. */
  lemma SameMembers(target: Json, patch: Json)
    requires patch.Object?
    ensures Merge(target, patch) == Merge(Object(MembersOf(target)), patch)
  {
  }

  /** Applying a patch twice is applying it once. */
  lemma {:induction false} MergeIsIdempotent(target: Json, patch: Json)
    ensures Merge(Merge(target, patch), patch) == Merge(target, patch)
    decreases patch
  {
    if patch.Object? {
      var p := patch.members;
      var once := Merge(target, patch);
      var twice := Merge(once, patch);
      forall k | k in p && !p[k].Null?
        ensures k in twice.members && twice.members[k] == once.members[k]
      {
        MergeIsIdempotent(Member(MembersOf(target), k), p[k]);
      }
      assert twice.members.Keys == once.members.Keys;
    }
  }

  /** No member of the value, or of an object inside it, is null; arrays are taken as they are. */
  predicate NullFree(j: Json) {
    j.Object? ==> forall k :: k in j.members ==> !j.members[k].Null? && NullFree(j.members[k])
  }

  /** Merging adds no null members: a patch deletes with null, it never stores it. */
  lemma {:induction false} MergeStaysNullFree(target: Json, patch: Json)
    requires NullFree(target)
    ensures NullFree(Merge(target, patch))
    ensures Merge(target, patch).Null? <==> patch.Null?
    decreases patch
  {
    if patch.Object? {
      var t, p, merged := MembersOf(target), patch.members, Merge(target, patch);
      forall k | k in merged.members
        ensures !merged.members[k].Null? && NullFree(merged.members[k])
      {
        if k in p {
          MergeStaysNullFree(Member(t, k), p[k]);
        }
      }
    }
  }
}
