/**
  The unit tests of the cache as proved facts about the model.  Each test
  creates a cache of some capacity, fetches a few keys from the tests' own
  storage and checks the value returned, the number of entries and the keys
  after each fetch.  The values follow from `FromEmpty`; the keys and the
  number of entries from `RunOrder` and the reference orders, which
  `OrderOne`, `OrderTwo` and `OrderThree` give for any distinct keys.
 */
module CacheTraces {
  import opened Wrappers
  import opened LruCache

  /** The storage answering the tests: three known keys, `None` for anything else. */
  function TestStorage(key: Key): (r: Option<Link>)
    ensures r.Some? <==> key == "ak" || key == "bk" || key == "ck"
  {
    if key == "ak" then Some("av")
    else if key == "bk" then Some("bv")
    else if key == "ck" then Some("cv")
    else None
  }

  /** `cache_0`: with capacity 0 every fetch goes to storage and nothing is kept. */
  lemma CacheZero<K>(a: K, b: K, load: K -> Option<Link>)
    ensures Links(New(0), [a, b], load) == [load(a), load(b)]
    ensures Run(New(0), [a], load) == New(0)
    ensures Run(New(0), [a, b], load) == New(0)
  {
    ZeroCapacityForever([a], load);
    ZeroCapacityForever([a, b], load);
  }

  /** The recency orders of `cache_1`, for any two distinct keys. */
  lemma OrderOne<K>(a: K, b: K)
    requires a != b
    ensures Order([a], 1) == [a] && Order([a, a], 1) == [a] && Order([a, a, b], 1) == [b]
  {
    assert [a, a][..1] == [a] && [a, a, b][..2] == [a, a];
    assert Without([a], a) == [];
  }

  /** The recency orders of `cache_2`, for any four distinct keys. */
  lemma OrderTwo<K>(a: K, b: K, c: K, d: K)
    requires a != b && a != c && a != d && b != c && b != d && c != d
    ensures Order([a], 2) == [a] && Order([a, b], 2) == [a, b] && Order([a, b, c], 2) == [b, c]
    ensures Order([a, b, c, b], 2) == [c, b] && Order([a, b, c, b, d], 2) == [b, d]
    ensures Order([a, b, c, b, d, d], 2) == [b, d]
  {
    assert [a, b][..1] == [a] && [a, b, c][..2] == [a, b] && [a, b, c, b][..3] == [a, b, c];
    assert [a, b, c, b, d][..4] == [a, b, c, b] && [a, b, c, b, d, d][..5] == [a, b, c, b, d];
    assert Without([b, c], b) == [c] by {
      assert [b, c][1..] == [c] && [c][1..] == [];
      assert Without([c], b) == [c] + Without([], b);
    }
    assert Without([b, d], d) == [b] by {
      assert [b, d][1..] == [d] && [d][1..] == [];
      assert Without([d], d) == [] + Without([], d);
    }
  }

  /** The recency orders of `cache_3`, for any three distinct keys. */
  lemma OrderThree<K>(a: K, b: K, c: K)
    requires a != b && a != c && b != c
    ensures Order([a], 3) == [a] && Order([a, b], 3) == [a, b] && Order([a, b, c], 3) == [a, b, c]
  {
    assert [a, b][..1] == [a] && [a, b, c][..2] == [a, b];
  }

  /** `cache_1`: the values returned from a cache of one. */
  lemma CacheOneValues()
    ensures Links(New(1), ["ak", "ak", "bk"], TestStorage) == [Some("av"), Some("av"), Some("bv")]
  {
    var ks := ["ak", "ak", "bk"];
    TestValues();
    FromEmpty(1, ks, TestStorage);
  }

  /**
    `cache_1`: the number of entries and the keys after each fetch.  A
    repeated key is a hit; a new key evicts the only one.
   */
  lemma CacheOneStates()
    ensures var r := Run(New(1), ["ak"], TestStorage); |r.entries| == 1 && r.keys == ["ak"]
    ensures var r := Run(New(1), ["ak", "ak"], TestStorage); |r.entries| == 1 && r.keys == ["ak"]
    ensures var r := Run(New(1), ["ak", "ak", "bk"], TestStorage); |r.entries| == 1 && r.keys == ["bk"]
  {
    TestValues();
    OrderOne("ak", "bk");
    RunOrder(1, ["ak"], TestStorage);
    RunOrder(1, ["ak", "ak"], TestStorage);
    RunOrder(1, ["ak", "ak", "bk"], TestStorage);
  }

  /** `cache_2`: the values returned from a cache of two, `None` for the key storage does not know. */
  lemma CacheTwoValues()
    ensures Links(New(2), ["ak", "bk", "ck", "bk", "dk", "dk"], TestStorage)
         == [Some("av"), Some("bv"), Some("cv"), Some("bv"), None, None]
  {
    var ks := ["ak", "bk", "ck", "bk", "dk", "dk"];
    TestValues();
    FromEmpty(2, ks, TestStorage);
  }

  /**
    `cache_2`: the number of entries and the keys after each fetch.  Fill the
    cache of two, evict its front, promote `bk` on a hit, evict `ck` on a
    miss, then fetch `dk` again, a hit on its negative entry that keeps it at
    the back.
   */
  lemma CacheTwoStates()
    ensures var r := Run(New(2), ["ak"], TestStorage); |r.entries| == 1 && r.keys == ["ak"]
    ensures var r := Run(New(2), ["ak", "bk"], TestStorage); |r.entries| == 2 && r.keys == ["ak", "bk"]
    ensures var r := Run(New(2), ["ak", "bk", "ck"], TestStorage); |r.entries| == 2 && r.keys == ["bk", "ck"]
    ensures var r := Run(New(2), ["ak", "bk", "ck", "bk"], TestStorage); |r.entries| == 2 && r.keys == ["ck", "bk"]
    ensures var r := Run(New(2), ["ak", "bk", "ck", "bk", "dk"], TestStorage); |r.entries| == 2 && r.keys == ["bk", "dk"]
    ensures var r := Run(New(2), ["ak", "bk", "ck", "bk", "dk", "dk"], TestStorage); |r.entries| == 2 && r.keys == ["bk", "dk"]
  {
    TestValues();
    OrderTwo("ak", "bk", "ck", "dk");
    RunOrder(2, ["ak"], TestStorage);
    RunOrder(2, ["ak", "bk"], TestStorage);
    RunOrder(2, ["ak", "bk", "ck"], TestStorage);
    RunOrder(2, ["ak", "bk", "ck", "bk"], TestStorage);
    RunOrder(2, ["ak", "bk", "ck", "bk", "dk"], TestStorage);
    RunOrder(2, ["ak", "bk", "ck", "bk", "dk", "dk"], TestStorage);
  }

  /** `cache_3`: the values returned from a cache of three. */
  lemma CacheThreeValues()
    ensures Links(New(3), ["ak", "bk", "ck"], TestStorage) == [Some("av"), Some("bv"), Some("cv")]
  {
    var ks := ["ak", "bk", "ck"];
    TestValues();
    FromEmpty(3, ks, TestStorage);
  }

  /** `cache_3`: three new keys fit in a cache of three and stay in fetch order. */
  lemma CacheThreeStates()
    ensures var r := Run(New(3), ["ak"], TestStorage); |r.entries| == 1 && r.keys == ["ak"]
    ensures var r := Run(New(3), ["ak", "bk"], TestStorage); |r.entries| == 2 && r.keys == ["ak", "bk"]
    ensures var r := Run(New(3), ["ak", "bk", "ck"], TestStorage); |r.entries| == 3 && r.keys == ["ak", "bk", "ck"]
  {
    TestValues();
    OrderThree("ak", "bk", "ck");
    RunOrder(3, ["ak"], TestStorage);
    RunOrder(3, ["ak", "bk"], TestStorage);
    RunOrder(3, ["ak", "bk", "ck"], TestStorage);
  }

  /** The values the tests expect from their storage. */
  lemma TestValues()
    ensures TestStorage("ak") == Some("av") && TestStorage("bk") == Some("bv")
    ensures TestStorage("ck") == Some("cv") && TestStorage("dk") == None
    ensures "ak" != "bk" && "ak" != "ck" && "ak" != "dk" && "bk" != "ck" && "bk" != "dk" && "ck" != "dk"
  {
    assert "ak"[0] != "bk"[0] && "ak"[0] != "ck"[0] && "ak"[0] != "dk"[0];
    assert "bk"[0] != "ck"[0] && "bk"[0] != "dk"[0] && "ck"[0] != "dk"[0];
  }
}
