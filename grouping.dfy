/**
 * Grouping a library by a key computed per file, as the duplicate finder
 * does with a `defaultdict(list)`: files are appended to the list of their
 * key in library order, and only the lists holding more than one file are
 * kept. `files` and `keys` are parallel sequences: `keys[i]` is the key of
 * `files[i]`.
 */
module Grouping {

  /**
   * `ps` lists, in ascending order, exactly the indices of the entries of
   * `keys` equal to `k`: as many as `k` occurs.
   */
  predicate IsPositions<K(==)>(ps: seq<nat>, keys: seq<K>, k: K)
  {
    && |ps| == multiset(keys)[k]
    && (forall j :: 0 <= j < |ps| ==> ps[j] < |keys| && keys[ps[j]] == k)
    && (forall j1, j2 :: 0 <= j1 < j2 < |ps| ==> ps[j1] < ps[j2])
    && (forall i :: 0 <= i < |keys| && keys[i] == k ==> i in ps)
  }

  /** The indices of the library entries whose key is `k`, in ascending order. */
  function Positions<K(==)>(keys: seq<K>, k: K): (ps: seq<nat>)
    ensures forall j :: 0 <= j < |ps| ==> ps[j] < |keys|
    decreases |keys|
  {
    if keys == [] then []
    else
      var n := |keys| - 1;
      Positions(keys[..n], k) + (if keys[n] == k then [n] else [])
  }

  /** `Positions` lists exactly the indices of `k`, ascending, as many as `k` occurs. */
  lemma {:induction false} PositionsAreIndices<K>(keys: seq<K>, k: K)
    ensures IsPositions(Positions(keys, k), keys, k)
    decreases |keys|
  {
    if keys != [] {
      var n := |keys| - 1;
      PositionsAreIndices(keys[..n], k);
      PositionsExtend(keys, k, Positions(keys[..n], k));
    }
  }

  /** Visiting one more entry appends its index when its key is `k`. */
  lemma PositionsExtend<K>(keys: seq<K>, k: K, prev: seq<nat>)
    requires keys != []
    requires IsPositions(prev, keys[..|keys| - 1], k)
    ensures IsPositions(prev + (if keys[|keys| - 1] == k then [|keys| - 1] else []), keys, k)
  {
    var n := |keys| - 1;
    assert keys == keys[..n] + [keys[n]];
    assert multiset(keys) == multiset(keys[..n]) + multiset{keys[n]};
  }

  /** A key has a position exactly when it occurs. */
  lemma {:induction false} PositionsOfPresent<K>(keys: seq<K>, k: K)
    ensures |Positions(keys, k)| > 0 <==> k in keys
    decreases |keys|
  {
    if keys != [] {
      var n := |keys| - 1;
      PositionsOfPresent(keys[..n], k);
      assert keys == keys[..n] + [keys[n]];
    }
  }

  /** Visiting one more entry adds its index to the positions of its own key only. */
  lemma PositionsSnoc<K>(keys: seq<K>, key: K, k: K)
    ensures Positions(keys + [key], k) == Positions(keys, k) + (if key == k then [|keys|] else [])
  {
    assert (keys + [key])[..|keys|] == keys;
  }

  /** The entries of `xs` at the indices `idx`, in the order of `idx`. */
  function Pick<F>(xs: seq<F>, idx: seq<nat>): (r: seq<F>)
    requires forall j :: 0 <= j < |idx| ==> idx[j] < |xs|
    ensures |r| == |idx|
    ensures forall j :: 0 <= j < |idx| ==> r[j] == xs[idx[j]]
  {
    seq(|idx|, j requires 0 <= j < |idx| => xs[idx[j]])
  }

  /**
   * The list `metadata_map[k]` holds once the loop has visited every file:
   * each file whose key is `k`, appended in library order.
   */
  function Members<F, K(==)>(files: seq<F>, keys: seq<K>, k: K): seq<F>
    requires |files| == |keys|
    decreases |keys|
  {
    if keys == [] then []
    else
      var n := |keys| - 1;
      Members(files[..n], keys[..n], k) + (if keys[n] == k then [files[n]] else [])
  }

  /** The list of `k` holds the files at the positions of `k`, in library order. */
  lemma {:induction false} MembersArePicked<F, K>(files: seq<F>, keys: seq<K>, k: K)
    requires |files| == |keys|
    ensures Members(files, keys, k) == Pick(files, Positions(keys, k))
    decreases |keys|
  {
    if keys != [] {
      var n := |keys| - 1;
      MembersArePicked(files[..n], keys[..n], k);
      PickExtend(files, Positions(keys[..n], k), n);
    }
  }

  /** Picking indices below `n` ignores the entries from `n` on. */
  lemma PickExtend<F>(files: seq<F>, ps: seq<nat>, n: nat)
    requires n < |files|
    requires forall j :: 0 <= j < |ps| ==> ps[j] < n
    ensures Pick(files, ps) == Pick(files[..n], ps)
    ensures Pick(files, ps + [n]) == Pick(files[..n], ps) + [files[n]]
  {
  }

  /** Visiting one more file appends it to its own key's list and to no other. */
  lemma MembersSnoc<F, K>(files: seq<F>, keys: seq<K>, f: F, key: K, k: K)
    requires |files| == |keys|
    ensures Members(files + [f], keys + [key], k)
         == Members(files, keys, k) + (if key == k then [f] else [])
  {
    assert (files + [f])[..|files|] == files;
    assert (keys + [key])[..|keys|] == keys;
  }

  /** A key no file has collects no file. */
  lemma MembersOfAbsentKey<F, K>(files: seq<F>, keys: seq<K>, k: K)
    requires |files| == |keys|
    requires k !in keys
    ensures Members(files, keys, k) == []
  {
  }

  /** The loop step `metadata_map[key].append(f)` of a `defaultdict(list)`. */
  function Append<F, K(==)>(m: map<K, seq<F>>, key: K, f: F): map<K, seq<F>>
  {
    m[key := (if key in m then m[key] else []) + [f]]
  }

  /** `metadata_map` after the loop has visited `files`, one `Append` per file. */
  function MultiMap<F, K(==)>(files: seq<F>, keys: seq<K>): map<K, seq<F>>
    requires |files| == |keys|
    decreases |keys|
  {
    if keys == [] then map[]
    else
      var n := |keys| - 1;
      Append(MultiMap(files[..n], keys[..n]), keys[n], files[n])
  }

  /**
   * The multimap holds every key that occurs and no other, each with the
   * files carrying it in library order.
   */
  lemma {:induction false} MultiMapMembers<F, K>(files: seq<F>, keys: seq<K>, k: K)
    requires |files| == |keys|
    ensures k in MultiMap(files, keys) <==> k in keys
    ensures k in MultiMap(files, keys) ==> MultiMap(files, keys)[k] == Members(files, keys, k)
    decreases |keys|
  {
    if keys != [] {
      var n := |keys| - 1;
      MultiMapMembers(files[..n], keys[..n], k);
      assert files == files[..n] + [files[n]];
      assert keys == keys[..n] + [keys[n]];
      MembersStep(files[..n], keys[..n], files[n], keys[n], k);
    }
  }

  /** The list of `k` after one more visit, written with the lists before it. */
  lemma MembersStep<F, K>(files: seq<F>, keys: seq<K>, f: F, key: K, k: K)
    requires |files| == |keys|
    ensures Members(files + [f], keys + [key], k)
         == (if k in keys then Members(files, keys, k) else []) + (if key == k then [f] else [])
  {
    MembersSnoc(files, keys, f, key, k);
    if k !in keys {
      MembersOfAbsentKey(files, keys, k);
    }
  }

  /** The final comprehension: only the lists holding more than one file survive. */
  function KeepShared<F, K>(m: map<K, seq<F>>): (r: map<K, seq<F>>)
    ensures r.Keys <= m.Keys
    ensures forall k :: k in r ==> r[k] == m[k] && |r[k]| > 1
    ensures forall k :: k in m && |m[k]| > 1 ==> k in r
  {
    map k | k in m && |m[k]| > 1 :: m[k]
  }

  /** The groups reported by a grouping pass over the whole library. */
  function SharedGroups<F, K(==)>(files: seq<F>, keys: seq<K>): map<K, seq<F>>
    requires |files| == |keys|
  {
    KeepShared(MultiMap(files, keys))
  }

  /**
   * Soundness of the groups: each reported group has at least two files,
   * and it is exactly the files carrying its key, picked in library order.
   */
  lemma SharedGroupsSound<F, K>(files: seq<F>, keys: seq<K>, k: K)
    requires |files| == |keys|
    requires k in SharedGroups(files, keys)
    ensures |SharedGroups(files, keys)[k]| >= 2
    ensures multiset(keys)[k] >= 2
    ensures SharedGroups(files, keys)[k] == Pick(files, Positions(keys, k))
  {
    MultiMapMembers(files, keys, k);
    MembersArePicked(files, keys, k);
    PositionsAreIndices(keys, k);
  }

  /**
   * Completeness and exclusiveness: a file lies in a reported group exactly
   * when another file shares its key, and then it lies in the group of its
   * own key and at no position of any other key's list.
   */
  lemma {:induction false} SharedGroupsPartition<F, K>(files: seq<F>, keys: seq<K>, i: nat)
    requires |files| == |keys|
    requires i < |keys|
    ensures keys[i] in SharedGroups(files, keys) <==> multiset(keys)[keys[i]] >= 2
    ensures keys[i] in SharedGroups(files, keys) ==> i in Positions(keys, keys[i])
    ensures forall k :: k != keys[i] ==> i !in Positions(keys, k)
  {
    var k := keys[i];
    assert keys[i] in keys;
    MultiMapMembers(files, keys, k);
    MembersArePicked(files, keys, k);
    PositionsAreIndices(keys, k);
    forall k' | k' != keys[i]
      ensures i !in Positions(keys, k')
    {
      PositionsAreIndices(keys, k');
    }
  }

  /** A key held by a single file is dropped. */
  lemma SingletonDropped<F, K>(files: seq<F>, keys: seq<K>, k: K)
    requires |files| == |keys|
    requires multiset(keys)[k] <= 1
    ensures k !in SharedGroups(files, keys)
  {
    MultiMapMembers(files, keys, k);
    if k in keys {
      MembersArePicked(files, keys, k);
      PositionsAreIndices(keys, k);
    }
  }
}
