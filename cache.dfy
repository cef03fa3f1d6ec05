/**
  The recency cache in front of the storage accessor.  An `Lru` maps keys to
  optional links (`None` is a negative entry: a confirmed miss, cached like a
  hit) and keeps its keys in recency order, least recently used first.  The
  first half of this module is the meaning of the cache as values (`LruState`,
  `Resolve`) with its properties; the second half is the in-place `Lru` class
  whose methods are proved to follow it.
 */
module LruCache {
  import opened Wrappers
  import Db

  type Key = Db.Key
  type Link = Db.Link

  // ---------------------------------------------------------------------------
  // Sequences of keys.

  ghost predicate Distinct<K>(s: seq<K>) {
    forall i, j | 0 <= i < j < |s| :: s[i] != s[j]
  }

  function Elems<K(==)>(s: seq<K>): set<K> {
    set k | k in s
  }

  /** Distinct keys: as many elements as positions. */
  lemma {:induction false} DistinctCard<K>(s: seq<K>)
    requires Distinct(s)
    ensures |Elems(s)| == |s|
  {
    if s != [] {
      DistinctCard(s[1..]);
      assert Elems(s) == Elems(s[1..]) + {s[0]};
    }
  }

  /** The last position of `key` in `s`: where the backward search of the source stops. */
  function LastIndex<K(==)>(s: seq<K>, key: K): (i: nat)
    requires key in s
    ensures i < |s| && s[i] == key
    ensures forall j | i < j < |s| :: s[j] != key
  {
    if s[|s| - 1] == key then |s| - 1 else LastIndex(s[..|s| - 1], key)
  }

  /** In a sequence without duplicates the position of a key is unique. */
  lemma IndexUnique<K>(s: seq<K>, key: K, p: nat)
    requires Distinct(s) && p < |s| && s[p] == key
    ensures LastIndex(s, key) == p
  {
  }

  /** `rotate_left(1)` applied to the slice `s[i..]`: `s[i]` goes to the back. */
  function Rotated<K(==)>(s: seq<K>, i: nat): seq<K>
    requires i < |s|
  {
    s[..i] + s[i + 1..] + [s[i]]
  }

  /** Where each key of `s` lands under the rotation. */
  lemma RotatedAt<K>(s: seq<K>, i: nat)
    requires i < |s|
    ensures |Rotated(s, i)| == |s|
    ensures forall j | 0 <= j < i :: Rotated(s, i)[j] == s[j]
    ensures forall j | i <= j < |s| - 1 :: Rotated(s, i)[j] == s[j + 1]
    ensures Rotated(s, i)[|s| - 1] == s[i]
  {
  }

  /** `lift_up`: move the last occurrence of `key` to the most-recently-used end. */
  function Promote<K(==)>(s: seq<K>, key: K): seq<K>
    requires key in s
  {
    Rotated(s, LastIndex(s, key))
  }

  /** Reference definition of the recency order without `key`: the other keys in their order. */
  function Without<K(==)>(s: seq<K>, key: K): (r: seq<K>)
    ensures key !in r
  {
    if s == [] then [] else (if s[0] == key then [] else [s[0]]) + Without(s[1..], key)
  }

  lemma {:induction false} WithoutAbsent<K>(s: seq<K>, key: K)
    requires key !in s
    ensures Without(s, key) == s
  {
    if s != [] {
      calc {
        Without(s, key);
        [s[0]] + Without(s[1..], key);
      == { WithoutAbsent(s[1..], key); }
        [s[0]] + s[1..];
        s;
      }
    }
  }

  lemma {:induction false} WithoutConcat<K>(a: seq<K>, b: seq<K>, key: K)
    ensures Without(a + b, key) == Without(a, key) + Without(b, key)
  {
    if a == [] {
      assert a + b == b;
    } else {
      var h := if a[0] == key then [] else [a[0]];
      calc {
        Without(a + b, key);
      == { assert (a + b)[0] == a[0]; assert (a + b)[1..] == a[1..] + b; }
        h + Without(a[1..] + b, key);
      == { WithoutConcat(a[1..], b, key); }
        h + (Without(a[1..], key) + Without(b, key));
      }
    }
  }

  /**
    Moving a key to the back keeps the relative order of all other keys: the
    positional rotation of the source is "remove `key`, then append it".
   */
  lemma PromoteIsMoveToBack<K>(s: seq<K>, key: K)
    requires Distinct(s) && key in s
    ensures Promote(s, key) == Without(s, key) + [key]
  {
    var i := LastIndex(s, key);
    SplitAtKey(s, key);
    WithoutSplit(s[..i], key, s[i + 1..]);
    assert Promote(s, key) == s[..i] + s[i + 1..] + [key];
  }

  /** A distinct list is the keys before `key`, `key`, and the keys after it, neither part holding `key`. */
  lemma SplitAtKey<K>(s: seq<K>, key: K)
    requires Distinct(s) && key in s
    ensures var i := LastIndex(s, key);
      s == s[..i] + [key] + s[i + 1..] && key !in s[..i] && key !in s[i + 1..]
  {
    var i := LastIndex(s, key);
    assert s == s[..i] + [key] + s[i + 1..];
    forall j | 0 <= j < i ensures s[..i][j] != key {
      assert s[..i][j] == s[j];
    }
  }

  /** Removing the one occurrence of `key` from `a + [key] + b`. */
  lemma WithoutSplit<K>(a: seq<K>, key: K, b: seq<K>)
    requires key !in a && key !in b
    ensures Without(a + [key] + b, key) == a + b
  {
    var front := a + [key];
    assert Without(front + b, key) == Without(front, key) + Without(b, key) by {
      WithoutConcat(front, b, key);
    }
    assert Without(front, key) == a by {
      WithoutConcat(a, [key], key);
      WithoutAbsent(a, key);
      assert [key][1..] == [];
      assert Without([key], key) == [];
    }
    WithoutAbsent(b, key);
  }

  /** Rotation permutes positions, so it keeps the keys and their distinctness. */
  lemma RotatedKeeps<K>(s: seq<K>, i: nat)
    requires i < |s|
    ensures Elems(Rotated(s, i)) == Elems(s)
    ensures Distinct(s) ==> Distinct(Rotated(s, i))
  {
    var r := Rotated(s, i);
    RotatedAt(s, i);
    assert s == s[..i] + [s[i]] + s[i + 1..];
    if Distinct(s) {
      forall a, b | 0 <= a < b < |r| ensures r[a] != r[b] {
        var sa := if a < i then a else if a < |s| - 1 then a + 1 else i;
        var sb := if b < i then b else if b < |s| - 1 then b + 1 else i;
        assert r[a] == s[sa] && r[b] == s[sb] && sa != sb;
      }
    }
  }

  // ---------------------------------------------------------------------------
  // The cache as a value.

  /** `entries` is the source's `map`, `keys` its recency vector, `capacity` the size it was created with. */
  datatype LruState<K> = LruState(entries: map<K, Option<Link>>, keys: seq<K>, capacity: nat)

  /** The cache invariant: the map's keys are exactly the keys of the order, each once, and no more than the capacity. */
  ghost predicate Inv<K>(s: LruState<K>) {
    && s.entries.Keys == Elems(s.keys)
    && Distinct(s.keys)
    && |s.entries| == |s.keys| <= s.capacity
  }

  /** `Lru::new(size)`. */
  function New<K(==)>(size: nat): (s: LruState<K>)
    ensures Inv(s) && s.capacity == size
    ensures s.entries == map[] && s.keys == []
  {
    LruState(map[], [], size)
  }

  /** Admission after a miss: nothing with capacity 0, evict the front when full, otherwise append. */
  function Admit<K(==)>(s: LruState<K>, key: K, link: Option<Link>): LruState<K>
  {
    if s.capacity == 0 then s
    else if |s.keys| == s.capacity then
      LruState(s.entries[key := link] - {s.keys[0]}, s.keys[1..] + [key], s.capacity)
    else
      LruState(s.entries[key := link], s.keys + [key], s.capacity)
  }

  /** The value of a fetch and the cache after it. */
  datatype Fetched<K> = Fetched(state: LruState<K>, link: Option<Link>)

  /**
    `Lru::fetch`: a hit returns the cached value and promotes the key; a miss
    asks the storage `load` and admits the answer.  The invariant puts the key
    of every hit in `keys`, which is why the search in `lift_up` never fails.
   */
  function Resolve<K(==)>(s: LruState<K>, key: K, load: K -> Option<Link>): Fetched<K>
    requires Inv(s)
  {
    if key in s.entries then
      Fetched(s.(keys := Promote(s.keys, key)), s.entries[key])
    else
      var link := load(key);
      Fetched(Admit(s, key, link), link)
  }

  /** A hit keeps the invariant: promotion only reorders the keys. */
  lemma PromoteKeepsInv<K>(s: LruState<K>, key: K)
    requires Inv(s) && key in s.keys
    ensures Inv(s.(keys := Promote(s.keys, key)))
  {
    var i := LastIndex(s.keys, key);
    RotatedKeeps(s.keys, i);
    RotatedAt(s.keys, i);
  }

  /** Dropping the front key and appending a new one keeps the keys distinct and their number. */
  lemma {:induction false} ShiftAppendKeeps<K>(ks: seq<K>, key: K)
    requires Distinct(ks) && |ks| > 0 && key !in ks
    ensures Distinct(ks[1..] + [key])
    ensures Elems(ks[1..] + [key]) == Elems(ks) - {ks[0]} + {key}
  {
    var r := ks[1..] + [key];
    assert ks == [ks[0]] + ks[1..];
    forall a, b | 0 <= a < b < |r| ensures r[a] != r[b] {
      if b < |r| - 1 {
        assert r[a] == ks[a + 1] && r[b] == ks[b + 1];
      }
    }
  }

  /** Admitting a new key after a miss keeps the invariant, full or not. */
  lemma AdmitKeepsInv<K>(s: LruState<K>, key: K, link: Option<Link>)
    requires Inv(s) && key !in s.entries
    ensures Inv(Admit(s, key, link)) && Admit(s, key, link).capacity == s.capacity
  {
    if s.capacity == 0 {
    } else if |s.keys| == s.capacity {
      EvictKeepsInv(s, key, link);
    } else {
      AppendKeepsInv(s, key, link);
    }
  }

  /** The full case of `AdmitKeepsInv`: the front key leaves the map and the order together. */
  lemma EvictKeepsInv<K>(s: LruState<K>, key: K, link: Option<Link>)
    requires Inv(s) && key !in s.entries && 0 < |s.keys| == s.capacity
    ensures Inv(Admit(s, key, link))
  {
    var r := Admit(s, key, link);
    assert r.keys == s.keys[1..] + [key];
    assert r.entries == s.entries[key := link] - {s.keys[0]};
    ShiftAppendKeeps(s.keys, key);
    assert r.entries.Keys == Elems(r.keys);
    DistinctCard(r.keys);
    assert |r.entries| == |r.entries.Keys|;
  }

  /** The case of `AdmitKeepsInv` with room: the key joins the map and the back of the order. */
  lemma AppendKeepsInv<K>(s: LruState<K>, key: K, link: Option<Link>)
    requires Inv(s) && key !in s.entries && |s.keys| < s.capacity
    ensures Inv(Admit(s, key, link))
  {
    var r := Admit(s, key, link);
    assert r.keys == s.keys + [key] && r.entries == s.entries[key := link];
    assert Elems(r.keys) == Elems(s.keys) + {key} by {
      assert forall x :: x in r.keys <==> x in s.keys || x == key;
    }
    assert Distinct(r.keys) by {
      forall a, b | 0 <= a < b < |r.keys| ensures r.keys[a] != r.keys[b] {
        if b < |s.keys| {
          assert r.keys[a] == s.keys[a] && r.keys[b] == s.keys[b];
        } else {
          assert r.keys[a] == s.keys[a];
        }
      }
    }
    DistinctCard(r.keys);
    assert |r.entries| == |r.entries.Keys|;
  }

  /** The invariant holds after every fetch. */
  lemma ResolveKeepsInv<K>(s: LruState<K>, key: K, load: K -> Option<Link>)
    requires Inv(s)
    ensures Inv(Resolve(s, key, load).state)
    ensures Resolve(s, key, load).state.capacity == s.capacity
  {
    if key in s.entries {
      PromoteKeepsInv(s, key);
    } else {
      AdmitKeepsInv(s, key, load(key));
    }
  }

  /** With capacity 0 the cache is empty, every fetch is a miss answered by storage, and nothing is stored. */
  lemma ZeroCapacity<K>(s: LruState<K>, key: K, load: K -> Option<Link>)
    requires Inv(s) && s.capacity == 0
    ensures s.entries == map[] && s.keys == []
    ensures Resolve(s, key, load) == Fetched(s, load(key))
  {
  }

  /**
    A hit returns the cached value, `Some` or `None`, whatever storage would
    say (storage is not consulted), keeps the map, and moves the key to the
    back with the other keys in their previous order.
   */
  lemma Hit<K>(s: LruState<K>, key: K, load: K -> Option<Link>, other: K -> Option<Link>)
    requires Inv(s) && key in s.entries
    ensures Resolve(s, key, load) == Resolve(s, key, other)
    ensures Resolve(s, key, load).link == s.entries[key]
    ensures Resolve(s, key, load).state.entries == s.entries
    ensures Resolve(s, key, load).state.keys == Without(s.keys, key) + [key]
  {
    PromoteIsMoveToBack(s.keys, key);
  }

  /**
    A miss returns the storage answer.  When full it evicts the front key from
    the order and the map and appends the new key; otherwise it just appends.
   */
  lemma Miss<K>(s: LruState<K>, key: K, load: K -> Option<Link>)
    requires Inv(s) && key !in s.entries && 0 < s.capacity
    ensures var r := Resolve(s, key, load);
      && r.link == load(key)
      && (|s.keys| == s.capacity ==>
            && r.state.keys == s.keys[1..] + [key]
            && r.state.entries == (s.entries - {s.keys[0]})[key := load(key)]
            && s.keys[0] !in r.state.entries)
      && (|s.keys| < s.capacity ==>
            && r.state.keys == s.keys + [key]
            && r.state.entries == s.entries[key := load(key)])
  {
    var r := Resolve(s, key, load);
    if |s.keys| == s.capacity {
      assert s.keys[0] in s.entries;
      assert r.state.entries == (s.entries - {s.keys[0]})[key := load(key)];
    }
  }

  /** A key at the back stays where it is when it is hit again. */
  lemma PromoteLast<K>(s: seq<K>, key: K)
    requires |s| > 0 && s[|s| - 1] == key
    ensures Promote(s, key) == s
  {
  }

  /**
    Negative caching: a miss answered `None` (capacity > 0) leaves a `None`
    entry, and fetching the key again is a hit on `None` that does not consult
    storage and leaves the cache as it was.
   */
  lemma NegativeCaching<K>(s: LruState<K>, key: K, load: K -> Option<Link>, later: K -> Option<Link>)
    requires Inv(s) && key !in s.entries && 0 < s.capacity && load(key) == None
    ensures var s1 := Resolve(s, key, load).state;
      && Resolve(s, key, load).link == None
      && key in s1.entries && s1.entries[key] == None
      && Resolve(s1, key, later) == Fetched(s1, None)
  {
    ResolveKeepsInv(s, key, load);
    var s1 := Resolve(s, key, load).state;
    Miss(s, key, load);
    PromoteLast(s1.keys, key);
  }

  // ---------------------------------------------------------------------------
  // Runs of fetches.

  /** The cache after fetching each of `ks` in turn. */
  function Run<K(==)>(s: LruState<K>, ks: seq<K>, load: K -> Option<Link>): (r: LruState<K>)
    requires Inv(s)
    ensures Inv(r) && r.capacity == s.capacity
    decreases |ks|
  {
    if ks == [] then s
    else
      ResolveKeepsInv(s, ks[0], load);
      Run(Resolve(s, ks[0], load).state, ks[1..], load)
  }

  /** The values returned by fetching each of `ks` in turn. */
  function Links<K(==)>(s: LruState<K>, ks: seq<K>, load: K -> Option<Link>): (r: seq<Option<Link>>)
    requires Inv(s)
    ensures |r| == |ks|
    decreases |ks|
  {
    if ks == [] then []
    else
      ResolveKeepsInv(s, ks[0], load);
      [Resolve(s, ks[0], load).link] + Links(Resolve(s, ks[0], load).state, ks[1..], load)
  }

  /** With capacity 0 the cache stays empty forever and every fetch returns the storage answer. */
  lemma {:induction false} ZeroCapacityForever<K>(ks: seq<K>, load: K -> Option<Link>)
    ensures Run(New(0), ks, load) == New(0)
    ensures forall i | 0 <= i < |ks| :: Links(New(0), ks, load)[i] == load(ks[i])
    decreases |ks|
  {
    if ks != [] {
      ZeroCapacityForever(ks[1..], load);
    }
  }

  lemma AppendAssoc<K>(a: seq<K>, b: seq<K>, c: seq<K>)
    ensures a + b + c == a + (b + c)
  {
  }

  lemma SplitLast<K>(s: seq<K>)
    requires |s| > 0
    ensures s[..|s| - 1] + [s[|s| - 1]] == s
    ensures |s| > 1 ==> s[..|s| - 1][1..] + [s[|s| - 1]] == s[1..]
  {
  }

  /** A run of one fetch. */
  lemma RunOne<K>(s: LruState<K>, key: K, load: K -> Option<Link>)
    requires Inv(s)
    ensures Run(s, [key], load) == Resolve(s, key, load).state
  {
    ResolveKeepsInv(s, key, load);
    assert [key][0] == key && [key][1..] == [];
  }

  /** Misses on distinct new keys while there is room append them in order. */
  lemma {:induction false} FillInOrder<K>(s: LruState<K>, ks: seq<K>, load: K -> Option<Link>)
    requires Inv(s) && Distinct(ks) && Elems(ks) !! Elems(s.keys)
    requires |s.keys| + |ks| <= s.capacity
    ensures Run(s, ks, load).keys == s.keys + ks
    decreases |ks|
  {
    if ks != [] {
      var key, rest := ks[0], ks[1..];
      assert ks == [key] + rest;
      assert key in Elems(ks);
      assert key !in s.entries;
      ResolveKeepsInv(s, key, load);
      var s1 := Resolve(s, key, load).state;
      Miss(s, key, load);
      assert s1.keys == s.keys + [key];
      assert Distinct(rest) by {
        forall a, b | 0 <= a < b < |rest| ensures rest[a] != rest[b] {
          assert rest[a] == ks[a + 1] && rest[b] == ks[b + 1];
        }
      }
      assert Elems(rest) !! Elems(s1.keys) by {
        forall x | x in rest ensures x !in s1.keys {
          var j :| 0 <= j < |rest| && rest[j] == x;
          assert ks[j + 1] == x && ks[0] == key;
          assert x in Elems(ks);
        }
      }
      calc {
        Run(s, ks, load);
        Run(s1, rest, load);
      }
      FillInOrder(s1, rest, load);
      calc {
        s1.keys + rest;
        s.keys + [key] + rest;
      == { AppendAssoc(s.keys, [key], rest); }
        s.keys + ([key] + rest);
        s.keys + ks;
      }
    }
  }

  /** Splitting a run: fetching `a + b` is fetching `a`, then `b`. */
  lemma {:induction false} RunAppend<K>(s: LruState<K>, a: seq<K>, b: seq<K>, load: K -> Option<Link>)
    requires Inv(s)
    ensures Run(s, a + b, load) == Run(Run(s, a, load), b, load)
    decreases |a|
  {
    if a == [] {
      assert a + b == b;
    } else {
      ResolveKeepsInv(s, a[0], load);
      var s1 := Resolve(s, a[0], load).state;
      calc {
        Run(s, a + b, load);
      == { assert (a + b)[0] == a[0]; assert (a + b)[1..] == a[1..] + b; }
        Run(s1, a[1..] + b, load);
      == { RunAppend(s1, a[1..], b, load); }
        Run(Run(s1, a[1..], load), b, load);
      }
    }
  }

  /** Every entry is what `load` answers for its key: a cache filled from storage that has not changed since. */
  ghost predicate Agrees<K>(s: LruState<K>, load: K -> Option<Link>) {
    forall k | k in s.entries :: s.entries[k] == load(k)
  }

  /** With storage unchanged, a fetch returns what storage says and the cache keeps agreeing with it. */
  lemma ResolveAgrees<K>(s: LruState<K>, key: K, load: K -> Option<Link>)
    requires Inv(s) && Agrees(s, load)
    ensures Resolve(s, key, load).link == load(key)
    ensures Agrees(Resolve(s, key, load).state, load)
  {
  }

  /**
    Transparency: starting from a cache that agrees with storage (an empty one
    does), a run of fetches returns exactly what storage would have returned.
   */
  lemma {:induction false} RunAgrees<K>(s: LruState<K>, ks: seq<K>, load: K -> Option<Link>)
    requires Inv(s) && Agrees(s, load)
    ensures Agrees(Run(s, ks, load), load)
    ensures forall i | 0 <= i < |ks| :: Links(s, ks, load)[i] == load(ks[i])
    decreases |ks|
  {
    if ks != [] {
      ResolveKeepsInv(s, ks[0], load);
      var s1 := Resolve(s, ks[0], load).state;
      ResolveAgrees(s, ks[0], load);
      RunAgrees(s1, ks[1..], load);
      assert Links(s, ks, load) == [load(ks[0])] + Links(s1, ks[1..], load);
      assert Run(s, ks, load) == Run(s1, ks[1..], load);
    }
  }

  /** From an empty cache, with storage unchanged, the values of a run are the storage answers for its keys. */
  lemma FromEmpty<K>(capacity: nat, ks: seq<K>, load: K -> Option<Link>)
    ensures Links(New(capacity), ks, load) == seq(|ks|, i requires 0 <= i < |ks| => load(ks[i]))
  {
    RunAgrees(New(capacity), ks, load);
  }

  /** Extending a run by one fetch: the new state and the new value come from the state the run left. */
  lemma {:induction false} RunSnoc<K>(s: LruState<K>, ks: seq<K>, key: K, load: K -> Option<Link>)
    requires Inv(s)
    ensures Run(s, ks + [key], load) == Resolve(Run(s, ks, load), key, load).state
    ensures Links(s, ks + [key], load) == Links(s, ks, load) + [Resolve(Run(s, ks, load), key, load).link]
    decreases |ks|
  {
    RunAppend(s, ks, [key], load);
    RunOne(Run(s, ks, load), key, load);
    if ks == [] {
      assert ks + [key] == [key];
      assert [key][1..] == [];
    } else {
      ResolveKeepsInv(s, ks[0], load);
      var s1 := Resolve(s, ks[0], load).state;
      assert (ks + [key])[0] == ks[0] && (ks + [key])[1..] == ks[1..] + [key];
      RunSnoc(s1, ks[1..], key, load);
      calc {
        Links(s, ks + [key], load);
        [Resolve(s, ks[0], load).link] + Links(s1, ks[1..] + [key], load);
        [Resolve(s, ks[0], load).link] + (Links(s1, ks[1..], load) + [Resolve(Run(s1, ks[1..], load), key, load).link]);
      == { AppendAssoc([Resolve(s, ks[0], load).link], Links(s1, ks[1..], load), [Resolve(Run(s1, ks[1..], load), key, load).link]); }
        Links(s, ks, load) + [Resolve(Run(s, ks, load), key, load).link];
      }
    }
  }

  /**
    Reference definition of the recency order, on keys alone: a key already
    present moves to the back; a new key is appended, pushing out the front
    when `capacity` keys are already there, and is not kept with capacity 0.
   */
  function Touch<K(==)>(order: seq<K>, key: K, capacity: nat): seq<K> {
    if key in order then Without(order, key) + [key]
    else if capacity == 0 then order
    else if |order| == capacity then order[1..] + [key]
    else order + [key]
  }

  /** The reference recency order after fetching each of `ks` in turn, starting empty. */
  function Order<K(==)>(ks: seq<K>, capacity: nat): seq<K>
    decreases |ks|
  {
    if ks == [] then [] else Touch(Order(ks[..|ks| - 1], capacity), ks[|ks| - 1], capacity)
  }

  /** A fetch rearranges the keys as `Touch` says, whatever the values. */
  lemma ResolveTouches<K>(s: LruState<K>, key: K, load: K -> Option<Link>)
    requires Inv(s)
    ensures Resolve(s, key, load).state.keys == Touch(s.keys, key, s.capacity)
  {
    if key in s.entries {
      Hit(s, key, load, load);
    } else if s.capacity > 0 {
      Miss(s, key, load);
    }
  }

  /**
    The cache after fetching each of `ks` in turn when storage may change
    between fetches: the `j`-th fetch consults `loads[j]`.
   */
  function RunChanging<K(==)>(s: LruState<K>, ks: seq<K>, loads: seq<K -> Option<Link>>): (r: LruState<K>)
    requires Inv(s) && |loads| == |ks|
    ensures Inv(r) && r.capacity == s.capacity
    decreases |ks|
  {
    if ks == [] then s
    else
      ResolveKeepsInv(s, ks[0], loads[0]);
      RunChanging(Resolve(s, ks[0], loads[0]).state, ks[1..], loads[1..])
  }

  /**
    The recency order does not depend on storage: a run against storage that
    changes between fetches leaves the same keys as a run against any one
    storage function, from any state with the same keys and capacity.
   */
  lemma {:induction false} OrderIgnoresStorage<K>(s: LruState<K>, t: LruState<K>, ks: seq<K>,
                                                  loads: seq<K -> Option<Link>>, load: K -> Option<Link>)
    requires Inv(s) && Inv(t) && |loads| == |ks|
    requires s.keys == t.keys && s.capacity == t.capacity
    ensures RunChanging(s, ks, loads).keys == Run(t, ks, load).keys
    decreases |ks|
  {
    if ks != [] {
      ResolveKeepsInv(s, ks[0], loads[0]);
      ResolveKeepsInv(t, ks[0], load);
      ResolveTouches(s, ks[0], loads[0]);
      ResolveTouches(t, ks[0], load);
      OrderIgnoresStorage(Resolve(s, ks[0], loads[0]).state, Resolve(t, ks[0], load).state, ks[1..], loads[1..], load);
    }
  }

  /**
    The cache follows the reference order: after any run from an empty cache
    its keys are `Order` of the keys fetched, and the map holds exactly as
    many entries.
   */
  lemma {:induction false} RunOrder<K>(capacity: nat, ks: seq<K>, load: K -> Option<Link>)
    ensures Run(New(capacity), ks, load).keys == Order(ks, capacity)
    ensures |Run(New(capacity), ks, load).entries| == |Order(ks, capacity)|
    decreases |ks|
  {
    if ks != [] {
      var n := |ks| - 1;
      var s0: LruState<K> := New(capacity);
      RunOrder(capacity, ks[..n], load);
      RunSnoc(s0, ks[..n], ks[n], load);
      SplitLast(ks);
      ResolveTouches(Run(s0, ks[..n], load), ks[n], load);
    }
  }

  /** The reference order holds for a run from an empty cache even when storage changes between fetches. */
  lemma OrderUnderChangingStorage<K>(capacity: nat, ks: seq<K>, loads: seq<K -> Option<Link>>)
    requires |loads| == |ks|
    ensures RunChanging(New(capacity), ks, loads).keys == Order(ks, capacity)
  {
    var none := (k: K) => None;
    OrderIgnoresStorage(New(capacity), New(capacity), ks, loads, none);
    RunOrder(capacity, ks, none);
  }

  /**
    Least-recently-used eviction: with capacity `C > 0`, after misses on `C + 1`
    distinct keys the first of them is gone (a later fetch of it goes to
    storage again) and the other `C` are cached in order.
   */
  lemma EvictsEarliest<K>(ks: seq<K>, load: K -> Option<Link>)
    requires Distinct(ks) && |ks| >= 2
    ensures var r := Run(New(|ks| - 1), ks, load);
      ks[0] !in r.entries && r.keys == ks[1..]
  {
    var c := |ks| - 1;
    var a, last := ks[..c], ks[c];
    var s0: LruState<K> := New(c);
    var s := Run(s0, a, load);
    assert s.keys == a && last !in s.entries by {
      PrefixDistinct(ks);
      assert Elems(a) !! Elems(s0.keys);
      FillInOrder(s0, a, load);
    }
    assert Run(s0, ks, load) == Resolve(s, last, load).state by {
      SplitLast(ks);
      RunAppend(s0, a, [last], load);
      RunOne(s, last, load);
    }
    assert Resolve(s, last, load).state.keys == ks[1..] by {
      Miss(s, last, load);
      SplitLast(ks);
    }
  }

  /** Dropping the last key keeps distinctness, and the last key is not among the others. */
  lemma PrefixDistinct<K>(ks: seq<K>)
    requires Distinct(ks) && |ks| > 0
    ensures Distinct(ks[..|ks| - 1]) && ks[|ks| - 1] !in ks[..|ks| - 1]
  {
    var a := ks[..|ks| - 1];
    forall i, j | 0 <= i < j < |a| ensures a[i] != a[j] {
      assert a[i] == ks[i] && a[j] == ks[j];
    }
    forall j | 0 <= j < |a| ensures a[j] != ks[|ks| - 1] {
      assert a[j] == ks[j];
    }
  }

  /** The keys used more recently than `k`. */
  function After<K(==)>(s: seq<K>, k: K): seq<K>
    requires k in s
  {
    s[LastIndex(s, k) + 1..]
  }

  /**
    One fetch of a key other than `k` ages `k` by at most that key: `k` leaves
    the cache only as the front key of a full cache on a miss, and otherwise the
    keys more recent than `k` gain at most the fetched key.
   */
  lemma Ages<K>(s: LruState<K>, key: K, load: K -> Option<Link>, k: K)
    requires Inv(s) && k in s.keys && key != k
    ensures var r := Resolve(s, key, load).state;
      && (k !in r.keys ==> key !in s.entries && |s.keys| == s.capacity && s.keys[0] == k)
      && (k in r.keys ==> Elems(After(r.keys, k)) <= Elems(After(s.keys, k)) + {key})
  {
    if key in s.entries {
      AgesOnHit(s, key, load, k);
    } else if |s.keys| == s.capacity {
      AgesOnEviction(s, key, load, k);
    } else {
      AgesOnAppend(s, key, load, k);
    }
  }

  /** `Ages` for a hit on another key: the rotation keeps `k` and puts only `key` after what followed it. */
  lemma AgesOnHit<K>(s: LruState<K>, key: K, load: K -> Option<Link>, k: K)
    requires Inv(s) && k in s.keys && key != k && key in s.entries
    ensures var r := Resolve(s, key, load).state;
      k in r.keys && Elems(After(r.keys, k)) <= Elems(After(s.keys, k)) + {key}
  {
    var r := Resolve(s, key, load).state;
    var p := LastIndex(s.keys, k);
    var i := LastIndex(s.keys, key);
    assert r.keys == Rotated(s.keys, i);
    var q := if i < p then p - 1 else p;
    RotatedAfter(s.keys, i, p);
    RotatedKeeps(s.keys, i);
    IndexUnique(r.keys, k, q);
    forall x | x in After(r.keys, k) ensures x in Elems(After(s.keys, k)) + {key} {
      var j :| q < j < |r.keys| && r.keys[j] == x;
    }
  }

  /**
    Rotating position `i` to the back moves the key at `p` at most one step
    forward, and what follows it afterwards followed it before or is the rotated key.
   */
  lemma RotatedAfter<K>(s: seq<K>, i: nat, p: nat)
    requires i < |s| && p < |s| && i != p
    ensures var q := if i < p then p - 1 else p;
      && Rotated(s, i)[q] == s[p]
      && forall j | q < j < |s| :: Rotated(s, i)[j] in Elems(s[p + 1..]) + {s[i]}
  {
    var r := Rotated(s, i);
    RotatedAt(s, i);
    var q := if i < p then p - 1 else p;
    forall j | q < j < |s| ensures r[j] in Elems(s[p + 1..]) + {s[i]} {
      if j < |s| - 1 {
        var t := if j < i then j else j + 1;
        assert r[j] == s[t] && p < t;
        assert s[t] == s[p + 1..][t - p - 1];
      }
    }
  }

  /** `Ages` for a miss on a full cache: `k` goes only if it is the front key. */
  lemma AgesOnEviction<K>(s: LruState<K>, key: K, load: K -> Option<Link>, k: K)
    requires Inv(s) && k in s.keys && key != k && key !in s.entries && |s.keys| == s.capacity
    ensures var r := Resolve(s, key, load).state;
      && (k !in r.keys ==> s.keys[0] == k)
      && (k in r.keys ==> Elems(After(r.keys, k)) <= Elems(After(s.keys, k)) + {key})
  {
    var r := Resolve(s, key, load).state;
    var p := LastIndex(s.keys, k);
    assert r.keys == s.keys[1..] + [key];
    if p > 0 {
      assert r.keys[p - 1] == k;
      assert Distinct(r.keys) by { ShiftAppendKeeps(s.keys, key); }
      IndexUnique(r.keys, k, p - 1);
      assert After(r.keys, k) == s.keys[p + 1..] + [key];
    }
  }

  /** `Ages` for a miss with room: `key` is appended after `k`. */
  lemma AgesOnAppend<K>(s: LruState<K>, key: K, load: K -> Option<Link>, k: K)
    requires Inv(s) && k in s.keys && key != k && key !in s.entries && |s.keys| < s.capacity
    ensures var r := Resolve(s, key, load).state;
      k in r.keys && Elems(After(r.keys, k)) <= Elems(After(s.keys, k)) + {key}
  {
    var r := Resolve(s, key, load).state;
    var p := LastIndex(s.keys, k);
    assert r.keys == s.keys + [key];
    assert r.keys[p] == k;
    assert Distinct(r.keys) by { AdmitKeepsInv(s, key, load(key)); }
    IndexUnique(r.keys, k, p);
    assert After(r.keys, k) == s.keys[p + 1..] + [key];
  }

  /**
    When the front key `k` of a full cache is evicted by a miss on `key`, the
    keys after `k` together with any set holding `key` already fill the capacity.
   */
  lemma EvictionNeedsRoom<K>(s: LruState<K>, key: K, k: K, extra: set<K>)
    requires Inv(s) && |s.keys| == s.capacity > 0 && key !in s.entries
    requires k == s.keys[0] && key in extra
    ensures |Elems(After(s.keys, k)) + extra| >= s.capacity
  {
    IndexUnique(s.keys, k, 0);
    assert After(s.keys, k) == s.keys[1..];
    assert Distinct(s.keys[1..]);
    DistinctCard(s.keys[1..]);
    assert key !in Elems(s.keys[1..]);
    var e := Elems(s.keys[1..]) + {key};
    assert |e| == s.capacity;
    SubsetCard(e, Elems(s.keys[1..]) + extra);
  }

  /** A subset is no larger. */
  lemma SubsetCard<K>(a: set<K>, b: set<K>)
    requires a <= b
    ensures |a| <= |b|
  {
    assert b == a + (b - a);
  }

  /**
    Promotion: `k` stays cached through a run of fetches of other keys as long
    as the keys more recent than `k` and the keys fetched make fewer than
    `capacity` distinct keys.
   */
  lemma {:induction false} Survives<K>(s: LruState<K>, ks: seq<K>, load: K -> Option<Link>, k: K)
    requires Inv(s) && k in s.keys && k !in ks
    requires |Elems(After(s.keys, k)) + Elems(ks)| < s.capacity
    ensures k in Run(s, ks, load).keys
    decreases |ks|
  {
    if ks != [] {
      var r := Resolve(s, ks[0], load).state;
      SurvivesOne(s, ks, load, k);
      assert Run(s, ks, load) == Run(r, ks[1..], load);
      Survives(r, ks[1..], load, k);
    }
  }

  /** One step of `Survives`: the first fetch keeps `k` and the bound for the rest. */
  lemma SurvivesOne<K>(s: LruState<K>, ks: seq<K>, load: K -> Option<Link>, k: K)
    requires Inv(s) && k in s.keys && k !in ks && ks != []
    requires |Elems(After(s.keys, k)) + Elems(ks)| < s.capacity
    ensures var r := Resolve(s, ks[0], load).state;
      && Inv(r) && r.capacity == s.capacity && k in r.keys && k !in ks[1..]
      && |Elems(After(r.keys, k)) + Elems(ks[1..])| < r.capacity
  {
    var key, rest := ks[0], ks[1..];
    ResolveKeepsInv(s, key, load);
    var r := Resolve(s, key, load).state;
    assert Elems(ks) == {key} + Elems(rest) by {
      assert ks == [key] + rest;
    }
    Ages(s, key, load, k);
    if k !in r.keys {
      EvictionNeedsRoom(s, key, k, Elems(ks));
    } else {
      SubsetCard(Elems(After(r.keys, k)) + Elems(rest), Elems(After(s.keys, k)) + Elems(ks));
    }
  }

  /**
    A key just hit is not evicted before `capacity` other distinct keys have
    been fetched after that hit.
   */
  lemma HitSurvives<K>(s: LruState<K>, k: K, ks: seq<K>, load: K -> Option<Link>)
    requires Inv(s) && k in s.entries && k !in ks && |Elems(ks)| < s.capacity
    ensures k in Run(Resolve(s, k, load).state, ks, load).keys
  {
    ResolveKeepsInv(s, k, load);
    var r := Resolve(s, k, load).state;
    Hit(s, k, load, load);
    IndexUnique(r.keys, k, |r.keys| - 1);
    assert After(r.keys, k) == [];
    Survives(r, ks, load, k);
  }

  // ---------------------------------------------------------------------------
  // The cache in place.

  /**
    `Lru`: `entries` is the source's `map`; the recency vector is the first
    `len` cells of `keys`, a buffer whose length is the capacity the vector was
    created with.  `loads` records, as ghost state, every key for which the
    storage function was consulted.
   */
  class Lru {
    var entries: map<Key, Option<Link>>
    const keys: array<Key>
    var len: nat
    ghost var loads: seq<Key>

    /** The cache as a value. */
    ghost function State(): LruState<Key>
      reads this, keys
      requires len <= keys.Length
    {
      LruState(entries, keys[..len], keys.Length)
    }

    ghost predicate Valid()
      reads this, keys
    {
      len <= keys.Length && Inv(State())
    }

    /** `Lru::new(size)`. */
    constructor (size: nat)
      ensures Valid() && State() == New(size) && loads == []
      ensures fresh(keys)
    {
      entries := map[];
      keys := new Key[size];
      len := 0;
      loads := [];
    }

    /**
      `keys.iter().rev().position(|k| k == key)`: the distance from the back of
      the last occurrence of `key`, or `None` when there is none.
     */
    method RevPosition(key: Key) returns (p: Option<nat>)
      requires len <= keys.Length
      ensures p.None? <==> key !in keys[..len]
      ensures p.Some? ==> p.value < len && len - 1 - p.value == LastIndex(keys[..len], key)
    {
      var i := 0;
      while i < len
        invariant 0 <= i <= len
        invariant forall j | len - i <= j < len :: keys[j] != key
      {
        if keys[len - 1 - i] == key {
          assert keys[..len][len - 1 - i] == key;
          return Some(i);
        }
        i := i + 1;
      }
      return None;
    }

    /** `keys[from..len].rotate_left(1)`: the key at `from` moves to the back, the later ones one step forward. */
    method RotateLeft(from: nat)
      requires from < len <= keys.Length
      modifies keys
      ensures keys[..len] == Rotated(old(keys[..len]), from)
      ensures keys[len..] == old(keys[len..])
    {
      ghost var s := keys[..len];
      var first := keys[from];
      var i := from;
      while i < len - 1
        invariant from <= i <= len - 1
        invariant forall j | 0 <= j < from :: keys[j] == old(keys[j])
        invariant forall j | from <= j < i :: keys[j] == old(keys[j + 1])
        invariant forall j | i <= j < keys.Length :: keys[j] == old(keys[j])
      {
        keys[i] := keys[i + 1];
        i := i + 1;
      }
      keys[len - 1] := first;
      RotatedAt(s, from);
      assert keys[..len] == Rotated(s, from);
    }

    /** `keys.remove(0)`: drops and returns the front key. */
    method RemoveFront() returns (removed: Key)
      requires 0 < len <= keys.Length
      modifies this, keys
      ensures removed == old(keys[0]) && len == old(len) - 1
      ensures keys[..len] == old(keys[1..len])
      ensures entries == old(entries) && loads == old(loads)
    {
      removed := keys[0];
      RotateLeft(0);
      len := len - 1;
    }

    /** `keys.push(key)` within the capacity. */
    method Push(key: Key)
      requires len < keys.Length
      modifies this, keys
      ensures len == old(len) + 1 && keys[..len] == old(keys[..len]) + [key]
      ensures entries == old(entries) && loads == old(loads)
    {
      keys[len] := key;
      len := len + 1;
    }

    /**
      `Lru::lift_up`: moves `key` to the most-recently-used end.  The search
      cannot come back empty when the cache is valid and holds `key`, so the
      `expect` of the source never fires (`p.value` is only defined on `Some`).
     */
    method LiftUp(key: Key)
      requires Valid() && key in entries
      modifies keys
      ensures Valid() && keys[..len] == Promote(old(keys[..len]), key)
    {
      var p := RevPosition(key);
      var index := len - p.value - 1;
      RotateLeft(index);
      PromoteKeepsInv(old(State()), key);
    }

    /**
      `Lru::fetch`: follows `Resolve` from the state before the call.  Storage
      is consulted, once, exactly on a miss.
     */
    method Fetch(key: Key, load: Key -> Option<Link>) returns (link: Option<Link>)
      requires Valid()
      modifies this, keys
      ensures Valid()
      ensures State() == Resolve(old(State()), key, load).state
      ensures link == Resolve(old(State()), key, load).link
      ensures loads == old(loads) + (if key in old(entries) then [] else [key])
    {
      if key in entries {
        link := entries[key];
        LiftUp(key);
      } else {
        link := load(key);
        loads := loads + [key];
        AdmitMiss(key, link);
      }
    }

    /** The vacant branch of `Lru::fetch`: admits `key` with the answer of storage. */
    method AdmitMiss(key: Key, link: Option<Link>)
      requires Valid() && key !in entries
      modifies this, keys
      ensures Valid() && State() == Admit(old(State()), key, link)
      ensures loads == old(loads)
    {
      ghost var s := State();
      AdmitKeepsInv(s, key, link);
      if keys.Length == 0 {
      } else if len == keys.Length {
        var removed := RemoveFront();
        Push(key);
        entries := entries[key := link];
        entries := entries - {removed};
        assert keys[..len] == s.keys[1..] + [key];
      } else {
        entries := entries[key := link];
        Push(key);
      }
    }
  }

  /** `Cache`: the accessor of the storage service and the LRU in front of it. */
  class Cache {
    const db: Db.Access
    const lru: Lru

    ghost predicate Valid()
      reads this, lru, lru.keys
    {
      lru.Valid()
    }

    constructor (size: nat, db: Db.Access)
      ensures this.db == db && Valid() && lru.State() == New(size)
      ensures fresh(lru) && fresh(lru.keys)
    {
      this.db := db;
      lru := new Lru(size);
    }

    /** `Cache::store`: hands the upsert to storage and leaves the LRU as it is. */
    method Store(key: Key, link: Link)
      requires Valid()
      modifies db
      ensures db.sent == old(db.sent) + [Db.Event.Store(key, link)]
      ensures Valid() && lru.State() == old(lru.State())
    {
      db.Store(key, link);
    }
  }
}
