/**
  Python's dict as the script uses it: keys kept in insertion order, assigning to a
  key that is already present replaces its value in place, and a new key goes last.
  The `metadata` and `stats` dicts are such values; the report iterates over them in
  this order.
*/
module Dict {
  import opened Wrappers

  type Dict = seq<(string, string)>

  function Keys(d: Dict): (ks: seq<string>)
    ensures |ks| == |d|
    ensures forall i :: 0 <= i < |d| ==> ks[i] == d[i].0
  {
    seq(|d|, i requires 0 <= i < |d| => d[i].0)
  }

  predicate NoDupKeys(d: Dict) {
    forall i, j :: 0 <= i < j < |d| ==> d[i].0 != d[j].0
  }

  /** d[k], or None when k is absent. */
  function Get(d: Dict, k: string): (r: Option<string>)
    ensures r.Some? ==> (k, r.value) in d
    decreases |d|
  {
    if d == [] then None
    else if d[0].0 == k then Some(d[0].1)
    else Get(d[1..], k)
  }

  /** A key has a value exactly when it is one of the keys. */
  lemma {:induction false} GetPresent(d: Dict, k: string)
    ensures Get(d, k).Some? <==> k in Keys(d)
    decreases |d|
  {
    if d != [] {
      assert Keys(d) == [d[0].0] + Keys(d[1..]);
      GetPresent(d[1..], k);
    }
  }

  /** d[k] = v. */
  function Put(d: Dict, k: string, v: string): (r: Dict)
    ensures Get(r, k) == Some(v)
    decreases |d|
  {
    if d == [] then [(k, v)]
    else if d[0].0 == k then [(k, v)] + d[1..]
    else [d[0]] + Put(d[1..], k, v)
  }

  /** Assigning to k leaves every other key's value as it was. */
  lemma {:induction false} PutOther(d: Dict, k: string, v: string, k': string)
    requires k' != k
    ensures Get(Put(d, k, v), k') == Get(d, k')
    decreases |d|
  {
    if d != [] && d[0].0 != k {
      PutOther(d[1..], k, v, k');
      assert Put(d, k, v)[1..] == Put(d[1..], k, v);
    } else if d != [] {
      assert Put(d, k, v)[1..] == d[1..];
    }
  }

  /** An existing key keeps its position; a new key is appended. */
  lemma {:induction false} PutKeys(d: Dict, k: string, v: string)
    ensures Keys(Put(d, k, v)) == if k in Keys(d) then Keys(d) else Keys(d) + [k]
    decreases |d|
  {
    if d != [] {
      var tail := Keys(d[1..]);
      KeysCons(d[0], d[1..]);
      assert d == [d[0]] + d[1..];
      if d[0].0 == k {
        KeysCons((k, v), d[1..]);
      } else {
        var put := Put(d[1..], k, v);
        PutKeys(d[1..], k, v);
        KeysCons(d[0], put);
        assert k in Keys(d) <==> k in tail;
        if k !in tail {
          assert [d[0].0] + (tail + [k]) == ([d[0].0] + tail) + [k];
        }
      }
    }
  }

  lemma KeysCons(p: (string, string), d: Dict)
    ensures Keys([p] + d) == [p.0] + Keys(d)
  {
  }


  /** Keys stay unique. */
  lemma PutNoDup(d: Dict, k: string, v: string)
    requires NoDupKeys(d)
    ensures NoDupKeys(Put(d, k, v))
  {
    PutKeys(d, k, v);
    var r := Put(d, k, v);
    forall i, j | 0 <= i < j < |r| ensures r[i].0 != r[j].0 {
      assert Keys(r)[i] == r[i].0 && Keys(r)[j] == r[j].0;
      if k !in Keys(d) && j == |d| {
        assert Keys(r)[i] == Keys(d)[i];
      }
    }
  }

  /** `for k, v in pairs: d[k] = v`. */
  function PutAll(d: Dict, pairs: seq<(string, string)>): Dict
    decreases |pairs|
  {
    if pairs == [] then d
    else Put(PutAll(d, pairs[..|pairs| - 1]), pairs[|pairs| - 1].0, pairs[|pairs| - 1].1)
  }

  /** Reference definition: the value of the last pair with key k. */
  function LastValue(pairs: seq<(string, string)>, k: string): Option<string>
    decreases |pairs|
  {
    if pairs == [] then None
    else if pairs[|pairs| - 1].0 == k then Some(pairs[|pairs| - 1].1)
    else LastValue(pairs[..|pairs| - 1], k)
  }

  /** After the assignments, a key has the value of its last pair, or its old value when
      no pair has it. */
  lemma {:induction false} PutAllLookup(d: Dict, pairs: seq<(string, string)>, k: string)
    ensures Get(PutAll(d, pairs), k) == if LastValue(pairs, k).Some? then LastValue(pairs, k) else Get(d, k)
    decreases |pairs|
  {
    if pairs != [] {
      var last := pairs[|pairs| - 1];
      if last.0 != k {
        PutAllLookup(d, pairs[..|pairs| - 1], k);
        PutOther(PutAll(d, pairs[..|pairs| - 1]), last.0, last.1, k);
      }
    }
  }

  /** The keys after the assignments are the old keys and those of the pairs, each once. */
  lemma PutAllKeys(d: Dict, pairs: seq<(string, string)>)
    requires NoDupKeys(d)
    ensures NoDupKeys(PutAll(d, pairs))
    ensures forall k :: k in Keys(PutAll(d, pairs)) <==> k in Keys(d) || exists i :: 0 <= i < |pairs| && pairs[i].0 == k
  {
    PutAllNoDup(d, pairs);
    forall k ensures k in Keys(PutAll(d, pairs)) <==> k in Keys(d) || exists i :: 0 <= i < |pairs| && pairs[i].0 == k {
      PutAllHasKey(d, pairs, k);
    }
  }

  lemma {:induction false} PutAllNoDup(d: Dict, pairs: seq<(string, string)>)
    requires NoDupKeys(d)
    ensures NoDupKeys(PutAll(d, pairs))
    decreases |pairs|
  {
    if pairs != [] {
      var init := pairs[..|pairs| - 1];
      PutAllNoDup(d, init);
      PutNoDup(PutAll(d, init), pairs[|pairs| - 1].0, pairs[|pairs| - 1].1);
    }
  }

  lemma {:induction false} PutAllHasKey(d: Dict, pairs: seq<(string, string)>, k: string)
    ensures k in Keys(PutAll(d, pairs)) <==> k in Keys(d) || exists i :: 0 <= i < |pairs| && pairs[i].0 == k
    decreases |pairs|
  {
    if pairs != [] {
      var init := pairs[..|pairs| - 1];
      var last := pairs[|pairs| - 1];
      PutAllHasKey(d, init, k);
      PutKeys(PutAll(d, init), last.0, last.1);
      assert k in Keys(PutAll(d, pairs)) <==> k in Keys(PutAll(d, init)) || k == last.0;
      if exists i :: 0 <= i < |pairs| && pairs[i].0 == k {
        var i :| 0 <= i < |pairs| && pairs[i].0 == k;
        if i < |pairs| - 1 {
          assert init[i].0 == k;
        }
      }
      if exists i :: 0 <= i < |init| && init[i].0 == k {
        var i :| 0 <= i < |init| && init[i].0 == k;
        assert pairs[i].0 == k;
      }
    }
  }


  /** Reference definition, read front to back: the keys of the pairs that are not among
      seen, each once, in the order of their first pairs. */
  function NewKeys(seen: seq<string>, pairs: seq<(string, string)>): seq<string>
    decreases |pairs|
  {
    if pairs == [] then []
    else if pairs[0].0 in seen then NewKeys(seen, pairs[1..])
    else [pairs[0].0] + NewKeys(seen + [pairs[0].0], pairs[1..])
  }

  /** One more pair at the end adds its key at the end, unless it is already known. */
  lemma {:induction false} NewKeysSnoc(seen: seq<string>, init: seq<(string, string)>, p: (string, string))
    ensures NewKeys(seen, init + [p])
         == NewKeys(seen, init) + (if p.0 in seen + NewKeys(seen, init) then [] else [p.0])
    decreases |init|
  {
    if init == [] {
      assert init + [p] == [p];
    } else {
      var q := init[0];
      assert (init + [p])[0] == q && (init + [p])[1..] == init[1..] + [p];
      if q.0 in seen {
        NewKeysSnoc(seen, init[1..], p);
      } else {
        var seen' := seen + [q.0];
        NewKeysSnoc(seen', init[1..], p);
        assert seen + NewKeys(seen, init) == seen' + NewKeys(seen', init[1..]);
      }
    }
  }

  /** The order of the keys after the assignments: the old keys first, as they were, then
      the new keys in the order in which their first pairs come. */
  lemma {:induction false} PutAllOrder(d: Dict, pairs: seq<(string, string)>)
    ensures Keys(PutAll(d, pairs)) == Keys(d) + NewKeys(Keys(d), pairs)
    decreases |pairs|
  {
    if pairs != [] {
      var init := pairs[..|pairs| - 1];
      var last := pairs[|pairs| - 1];
      assert pairs == init + [last];
      PutAllOrder(d, init);
      PutKeys(PutAll(d, init), last.0, last.1);
      NewKeysSnoc(Keys(d), init, last);
    }
  }
}
