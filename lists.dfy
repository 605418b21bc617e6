/**
 * The JavaScript array built-ins the Redux reducers and selectors use on lists of
 * records keyed by a string id: `find`, `findIndex`, `filter` on a different id,
 * `map` that swaps the records with a given id, and the "update the first match"
 * pattern that follows a `find` on an Immer draft. Each is generic in the record
 * type and takes the key as a function.
 */
module Lists {
  import opened Wrappers

  /** `s.findIndex(e => key(e) === id)`: the first position whose key is `id`, or -1. */
  function FindIndex<T>(s: seq<T>, key: T -> string, id: string): (r: int)
    ensures -1 <= r < |s|
    ensures r == -1 <==> forall j :: 0 <= j < |s| ==> key(s[j]) != id
    ensures 0 <= r ==> key(s[r]) == id && forall j :: 0 <= j < r ==> key(s[j]) != id
    decreases |s|
  {
    if s == [] then -1
    else if key(s[0]) == id then 0
    else
      var r := FindIndex(s[1..], key, id);
      if r == -1 then -1 else r + 1
  }

  /** `s.find(e => key(e) === id)`: the first record whose key is `id`, or `undefined`. */
  function Find<T>(s: seq<T>, key: T -> string, id: string): (r: Option<T>)
    ensures r.None? <==> forall j :: 0 <= j < |s| ==> key(s[j]) != id
    ensures r.Some? ==> exists j :: 0 <= j < |s| && s[j] == r.value && key(s[j]) == id
                                   && forall k :: 0 <= k < j ==> key(s[k]) != id
    decreases |s|
  {
    if s == [] then None
    else if key(s[0]) == id then Some(s[0])
    else
      var r := Find(s[1..], key, id);
      assert r.Some? ==> exists j :: 0 <= j < |s| && s[j] == r.value && key(s[j]) == id
                                    && forall k :: 0 <= k < j ==> key(s[k]) != id by {
        if r.Some? {
          var j :| 0 <= j < |s[1..]| && s[1..][j] == r.value && key(s[1..][j]) == id
                   && forall k :: 0 <= k < j ==> key(s[1..][k]) != id;
          assert s[j + 1] == r.value && key(s[j + 1]) == id;
          assert forall k :: 0 <= k < j + 1 ==> key(s[k]) != id by {
            forall k | 0 <= k < j + 1 ensures key(s[k]) != id {
              if k > 0 { assert s[k] == s[1..][k - 1]; }
            }
          }
        }
      }
      r
  }

  /** `find` and `findIndex` agree: the record found is the one at the index found. */
  lemma {:induction false} FindAtIndex<T>(s: seq<T>, key: T -> string, id: string)
    ensures FindIndex(s, key, id) == -1 ==> Find(s, key, id) == None
    ensures FindIndex(s, key, id) >= 0 ==> Find(s, key, id) == Some(s[FindIndex(s, key, id)])
    decreases |s|
  {
    if s != [] && key(s[0]) != id {
      FindAtIndex(s[1..], key, id);
    }
  }

  /**
   * The list after `const e = s.find(e => key(e) === id); if (e) { ...e mutated by f... }`:
   * the first record with key `id` is replaced by `f` of it, every other record stays.
   */
  function UpdateFirst<T>(s: seq<T>, key: T -> string, id: string, f: T -> T): (r: seq<T>)
    ensures |r| == |s|
    decreases |s|
  {
    if s == [] then []
    else if key(s[0]) == id then [f(s[0])] + s[1..]
    else [s[0]] + UpdateFirst(s[1..], key, id, f)
  }

  /** Updating the first match is a point update at the index `findIndex` returns, or no change. */
  lemma {:induction false} UpdateFirstAt<T>(s: seq<T>, key: T -> string, id: string, f: T -> T)
    ensures FindIndex(s, key, id) == -1 ==> UpdateFirst(s, key, id, f) == s
    ensures FindIndex(s, key, id) >= 0 ==>
      UpdateFirst(s, key, id, f) == s[FindIndex(s, key, id) := f(s[FindIndex(s, key, id)])]
    decreases |s|
  {
    if s != [] && key(s[0]) != id {
      UpdateFirstAt(s[1..], key, id, f);
      var i := FindIndex(s[1..], key, id);
      if i >= 0 {
        assert [s[0]] + s[1..][i := f(s[1..][i])] == s[i + 1 := f(s[i + 1])];
      } else {
        assert [s[0]] + s[1..] == s;
      }
    }
  }

  /** When the update keeps the key, looking the id up again finds the updated record. */
  lemma {:induction false} FindAfterUpdateFirst<T>(s: seq<T>, key: T -> string, id: string, f: T -> T)
    requires forall j :: 0 <= j < |s| && key(s[j]) == id ==> key(f(s[j])) == id
    ensures Find(UpdateFirst(s, key, id, f), key, id) ==
      match Find(s, key, id)
      case None => None
      case Some(e) => Some(f(e))
    decreases |s|
  {
    if s != [] && key(s[0]) != id {
      assert forall j :: 0 <= j < |s[1..]| ==> s[1..][j] == s[j + 1];
      FindAfterUpdateFirst(s[1..], key, id, f);
      assert UpdateFirst(s, key, id, f)[1..] == UpdateFirst(s[1..], key, id, f);
    }
  }

  /** `s.filter(e => key(e) !== id)`. */
  function Without<T>(s: seq<T>, key: T -> string, id: string): (r: seq<T>)
    ensures |r| <= |s|
    ensures forall j :: 0 <= j < |r| ==> key(r[j]) != id
    decreases |s|
  {
    if s == [] then []
    else if key(s[0]) == id then Without(s[1..], key, id)
    else [s[0]] + Without(s[1..], key, id)
  }

  /** The filter keeps exactly the records whose key differs from `id`. */
  lemma {:induction false} WithoutMembers<T>(s: seq<T>, key: T -> string, id: string, x: T)
    ensures x in Without(s, key, id) <==> x in s && key(x) != id
    decreases |s|
  {
    if s != [] {
      WithoutMembers(s[1..], key, id, x);
      assert s == [s[0]] + s[1..];
    }
  }

  /** The filter distributes over concatenation, so the kept records stay in their order. */
  lemma {:induction false} WithoutAppend<T>(a: seq<T>, b: seq<T>, key: T -> string, id: string)
    ensures Without(a + b, key, id) == Without(a, key, id) + Without(b, key, id)
    decreases |a|
  {
    if a == [] {
      assert a + b == b;
    } else {
      assert (a + b)[0] == a[0] && (a + b)[1..] == a[1..] + b;
      WithoutAppend(a[1..], b, key, id);
    }
  }

  /** With no record keyed `id`, the filter changes nothing. */
  lemma {:induction false} WithoutAbsent<T>(s: seq<T>, key: T -> string, id: string)
    requires forall j :: 0 <= j < |s| ==> key(s[j]) != id
    ensures Without(s, key, id) == s
    decreases |s|
  {
    if s != [] {
      WithoutAbsent(s[1..], key, id);
      assert s == [s[0]] + s[1..];
    }
  }

  /** Filtering twice on the same id is filtering once. */
  lemma WithoutIdempotent<T>(s: seq<T>, key: T -> string, id: string)
    ensures Without(Without(s, key, id), key, id) == Without(s, key, id)
  {
    WithoutAbsent(Without(s, key, id), key, id);
  }

  /** `s.map(d => key(d) === id ? v : d)`. */
  function ReplaceAll<T>(s: seq<T>, key: T -> string, id: string, v: T): (r: seq<T>)
    ensures |r| == |s|
    decreases |s|
  {
    if s == [] then []
    else [if key(s[0]) == id then v else s[0]] + ReplaceAll(s[1..], key, id, v)
  }

  /** Position by position: a record keyed `id` becomes `v`, any other record stays where it is. */
  lemma {:induction false} ReplaceAllAt<T>(s: seq<T>, key: T -> string, id: string, v: T)
    ensures forall j :: 0 <= j < |s| ==>
      ReplaceAll(s, key, id, v)[j] == if key(s[j]) == id then v else s[j]
    decreases |s|
  {
    if s != [] {
      ReplaceAllAt(s[1..], key, id, v);
      var r := ReplaceAll(s, key, id, v);
      forall j | 0 < j < |s| ensures r[j] == if key(s[j]) == id then v else s[j] {
        assert r[j] == ReplaceAll(s[1..], key, id, v)[j - 1];
        assert s[j] == s[1..][j - 1];
      }
    }
  }

  /** Replacing twice with the same record is replacing once. */
  lemma ReplaceAllIdempotent<T>(s: seq<T>, key: T -> string, id: string, v: T)
    ensures ReplaceAll(ReplaceAll(s, key, id, v), key, id, v) == ReplaceAll(s, key, id, v)
  {
    var r := ReplaceAll(s, key, id, v);
    ReplaceAllAt(s, key, id, v);
    ReplaceAllAt(r, key, id, v);
  }

  /**
   * After the replacement, looking up `id` finds the new record whenever some record
   * had that id before (and the new record carries it), and finds nothing otherwise.
   */
  lemma {:induction false} FindAfterReplaceAll<T>(s: seq<T>, key: T -> string, id: string, v: T)
    requires key(v) == id
    ensures Find(ReplaceAll(s, key, id, v), key, id) ==
      if FindIndex(s, key, id) == -1 then None else Some(v)
    decreases |s|
  {
    if s != [] && key(s[0]) != id {
      var r := ReplaceAll(s, key, id, v);
      assert r[0] == s[0] && r[1..] == ReplaceAll(s[1..], key, id, v);
      FindAfterReplaceAll(s[1..], key, id, v);
    }
  }
}
