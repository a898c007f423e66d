/** Configuration trees and the three-way merge that a save applies to the file on disk. */
module Config {
  import opened Text

  /** A JSON document. Everything but an object is a leaf to the merge. */
  datatype Json =
    | Null
    | Bool(b: bool)
    | Number(n: real)
    | String(s: string)
    | List(items: seq<Json>)
    | Object(fields: map<string, Json>)

  const EMPTY := Object(map[])

  /** `dict.get(key)` */
  function Get(m: map<string, Json>, k: string): Option<Json> {
    if k in m then Some(m[k]) else None
  }

  /** The merge of one key: what this process did to it, on top of what the target holds. */
  function MergeKey(base: Json, changed: Json, target: Json, k: string): Option<Json>
    requires base.Object? && changed.Object? && target.Object?
    decreases base, 0
  {
    var b, c, t := base.fields, changed.fields, target.fields;
    if k in b && k !in c then None
    else if k in c && k !in b then Some(c[k])
    else if k in c && b[k] != c[k] then
      if b[k].Object? && c[k].Object? then
        Some(Merge(b[k], c[k], if k in t && t[k].Object? then t[k] else EMPTY))
      else Some(c[k])
    else Get(t, k)
  }

  /** `changed` relative to `base`, patched onto `target`. */
  function Merge(base: Json, changed: Json, target: Json): (r: Json)
    decreases base, 1
  {
    if base.Object? && changed.Object? && target.Object? then
      Object(map k | k in changed.fields.Keys + target.fields.Keys && MergeKey(base, changed, target, k).Some?
             :: MergeKey(base, changed, target, k).value)
    else changed
  }

  lemma MergeAt(base: Json, changed: Json, target: Json, k: string)
    requires base.Object? && changed.Object? && target.Object?
    ensures Merge(base, changed, target).Object?
    ensures Get(Merge(base, changed, target).fields, k) == MergeKey(base, changed, target, k)
  {
  }

  /** Objects are equal when they agree on every key. */
  lemma SameFields(a: Json, b: Json)
    requires a.Object? && b.Object? && forall k :: Get(a.fields, k) == Get(b.fields, k)
    ensures a == b
  {
    forall k ensures k in a.fields <==> k in b.fields { assert Get(a.fields, k) == Get(b.fields, k); }
    forall k | k in a.fields ensures a.fields[k] == b.fields[k] { assert Get(a.fields, k) == Get(b.fields, k); }
    assert a.fields == b.fields;
  }

  // ---------------------------------------------------------------- algebra

  /** Without edits a merge leaves the target alone. */
  lemma NoChangeIsIdentity(b: Json, t: Json)
    requires b.Object? && t.Object?
    ensures Merge(b, b, t) == t
  {
    forall k ensures Get(Merge(b, b, t).fields, k) == Get(t.fields, k) { MergeAt(b, b, t, k); }
    SameFields(Merge(b, b, t), t);
  }

  /** On the tree it started from, a merge is exactly the edit. */
  lemma {:induction false} MergeOntoBase(b: Json, c: Json)
    ensures Merge(b, c, b) == c
    decreases b
  {
    if b.Object? && c.Object? {
      forall k ensures Get(Merge(b, c, b).fields, k) == Get(c.fields, k) {
        MergeAt(b, c, b, k);
        if k in b.fields && k in c.fields { MergeOntoBase(b.fields[k], c.fields[k]); }
      }
      SameFields(Merge(b, c, b), c);
    }
  }

  /** On a tree that already holds the edit, a merge changes nothing. */
  lemma {:induction false} MergeOntoChanged(b: Json, c: Json)
    ensures Merge(b, c, c) == c
    decreases b
  {
    if b.Object? && c.Object? {
      forall k ensures Get(Merge(b, c, c).fields, k) == Get(c.fields, k) {
        MergeAt(b, c, c, k);
        if k in b.fields && k in c.fields { MergeOntoChanged(b.fields[k], c.fields[k]); }
      }
      SameFields(Merge(b, c, c), c);
    }
  }

  /** Saving twice writes nothing new. */
  lemma {:induction false} MergeIdempotent(b: Json, c: Json, t: Json)
    ensures Merge(b, c, Merge(b, c, t)) == Merge(b, c, t)
    decreases b
  {
    if b.Object? && c.Object? && t.Object? {
      var r := Merge(b, c, t);
      forall k ensures Get(Merge(b, c, r).fields, k) == Get(r.fields, k) {
        MergeAt(b, c, t, k);
        MergeAt(b, c, r, k);
        if k in b.fields && k in c.fields {
          MergeIdempotent(b.fields[k], c.fields[k],
            if k in t.fields && t.fields[k].Object? then t.fields[k] else EMPTY);
        }
      }
      SameFields(Merge(b, c, r), r);
    } else {
      MergeOntoChanged(b, c);
    }
  }

  /**
   * Two edits of one base do not conflict: each key was left alone by one of them, or was treated
   * alike by both, or holds objects whose own keys do not conflict.
   */
  predicate NoConflict(b: Json, c: Json, d: Json)
    decreases b, 1
  {
    if b.Object? && c.Object? && d.Object? then
      forall k | k in b.fields.Keys + c.fields.Keys + d.fields.Keys :: KeyCommutes(b, c, d, k)
    else c == d
  }

  predicate KeyCommutes(b: Json, c: Json, d: Json, k: string)
    requires b.Object? && c.Object? && d.Object?
    decreases b, 0
  {
    || Get(b.fields, k) == Get(c.fields, k)
    || Get(b.fields, k) == Get(d.fields, k)
    || Get(c.fields, k) == Get(d.fields, k)
    || (&& k in b.fields && k in c.fields && k in d.fields
        && b.fields[k].Object? && c.fields[k].Object? && d.fields[k].Object?
        && NoConflict(b.fields[k], c.fields[k], d.fields[k]))
  }

  /** Two processes may save in either order exactly when their edits do not conflict. */
  lemma {:induction false} MergeCommutes(b: Json, c: Json, d: Json)
    ensures Merge(b, c, d) == Merge(b, d, c) <==> NoConflict(b, c, d)
    decreases b
  {
    if b.Object? && c.Object? && d.Object? {
      var l, r := Merge(b, c, d), Merge(b, d, c);
      forall k ensures Get(l.fields, k) == Get(r.fields, k) <==> KeyCommutes(b, c, d, k) {
        MergeKeyCommutes(b, c, d, k);
      }
      if NoConflict(b, c, d) {
        forall k ensures Get(l.fields, k) == Get(r.fields, k) {
          assert k !in b.fields.Keys + c.fields.Keys + d.fields.Keys ==> Get(b.fields, k) == Get(c.fields, k);
          assert KeyCommutes(b, c, d, k);
        }
        SameFields(l, r);
      } else {
        var k :| k in b.fields.Keys + c.fields.Keys + d.fields.Keys && !KeyCommutes(b, c, d, k);
        assert Get(l.fields, k) != Get(r.fields, k);
      }
    }
  }

  lemma {:induction false} MergeKeyCommutes(b: Json, c: Json, d: Json, k: string)
    requires b.Object? && c.Object? && d.Object?
    ensures Get(Merge(b, c, d).fields, k) == Get(Merge(b, d, c).fields, k) <==> KeyCommutes(b, c, d, k)
    decreases b, 0
  {
    MergeAt(b, c, d, k);
    MergeAt(b, d, c, k);
    if k in b.fields && k in c.fields && k in d.fields {
      var x, y, z := b.fields[k], c.fields[k], d.fields[k];
      if x.Object? && y.Object? && z.Object? { MergeCommutes(x, y, z); }
      MergeOntoBase(x, y);
      MergeOntoBase(x, z);
      if x.Object? && y.Object? { assert Merge(x, y, EMPTY).Object?; }
      if x.Object? && z.Object? { assert Merge(x, z, EMPTY).Object?; }
    } else if k in b.fields {
      if k in c.fields { MergeOntoBase(b.fields[k], c.fields[k]); }
      if k in d.fields { MergeOntoBase(b.fields[k], d.fields[k]); }
    }
  }

  /**
   * The merge onto `t` gives exactly `c`: where `b` and `c` agree, `t` holds the same, and objects
   * that both have and that differ are written whole in turn.
   */
  predicate Written(b: Json, c: Json, t: Json)
    decreases b, 1
  {
    b.Object? && c.Object? && t.Object? ==>
      forall k | k in b.fields.Keys + c.fields.Keys + t.fields.Keys :: KeyWritten(b, c, t, k)
  }

  predicate KeyWritten(b: Json, c: Json, t: Json, k: string)
    requires b.Object? && c.Object? && t.Object?
    decreases b, 0
  {
    if Get(b.fields, k) == Get(c.fields, k) then Get(t.fields, k) == Get(c.fields, k)
    else k in b.fields && k in c.fields && b.fields[k].Object? && c.fields[k].Object? ==>
      Written(b.fields[k], c.fields[k], ObjectAt(Get(t.fields, k)))
  }

  /** The object the merge descends into: what the target has, or a new one. */
  function ObjectAt(v: Option<Json>): Json { if v.Some? && v.value.Object? then v.value else EMPTY }

  /** An edit is written as it stands exactly under that condition, for all trees. */
  lemma {:induction false} WrittenExactly(b: Json, c: Json, t: Json)
    ensures Merge(b, c, t) == c <==> Written(b, c, t)
    decreases b
  {
    if b.Object? && c.Object? && t.Object? {
      var r := Merge(b, c, t);
      forall k ensures Get(r.fields, k) == Get(c.fields, k) <==> KeyWritten(b, c, t, k) {
        MergeAt(b, c, t, k);
        if k in b.fields && k in c.fields {
          WrittenExactly(b.fields[k], c.fields[k], ObjectAt(Get(t.fields, k)));
        }
      }
      if Written(b, c, t) {
        forall k ensures Get(r.fields, k) == Get(c.fields, k) {
          assert k !in b.fields.Keys + c.fields.Keys + t.fields.Keys ==> KeyWritten(b, c, t, k);
        }
        SameFields(r, c);
      } else {
        var k :| k in b.fields.Keys + c.fields.Keys + t.fields.Keys && !KeyWritten(b, c, t, k);
        assert Get(r.fields, k) != Get(c.fields, k);
      }
    }
  }

  // ---------------------------------------------------------------- the merge as it runs

  /** The keys are visited in any order; each visit updates or removes one entry of the target. */
  method MergeInPlace(base: Json, changed: Json, target: Json) returns (r: Json)
    ensures r == Merge(base, changed, target)
    decreases base
  {
    if !(base.Object? && changed.Object? && target.Object?) {
      return changed;
    }
    var b, c, t := base.fields, changed.fields, target.fields;
    var keys := b.Keys + c.Keys;
    while keys != {}
      invariant keys <= b.Keys + c.Keys
      invariant forall k :: Get(t, k) == if k in keys then Get(target.fields, k) else MergeKey(base, changed, target, k)
      decreases |keys|
    {
      var key :| key in keys;
      ghost var before := t;
      if key !in c {
        t := t - {key};
      } else if key !in b {
        t := t[key := c[key]];
      } else if b[key] != c[key] {
        if b[key].Object? && c[key].Object? {
          var child := if key in t && t[key].Object? then t[key] else EMPTY;
          assert Get(before, key) == Get(target.fields, key);
          child := MergeInPlace(b[key], c[key], child);
          t := t[key := child];
        } else {
          t := t[key := c[key]];
        }
      }
      keys := keys - {key};
      forall k ensures Get(t, k) == if k in keys then Get(target.fields, k) else MergeKey(base, changed, target, k) {
        assert k != key ==> Get(t, k) == Get(before, k);
        assert Get(before, key) == Get(target.fields, key);
      }
    }
    r := Object(t);
    forall k ensures Get(r.fields, k) == Get(Merge(base, changed, target).fields, k) {
      MergeAt(base, changed, target, k);
    }
    SameFields(r, Merge(base, changed, target));
  }
}
