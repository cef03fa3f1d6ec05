/**
  The storage accessor: one service that owns the link table and handles
  `Store` and `Load` requests strictly one at a time, in the order the channel
  delivers them.  The channel is modelled by the sequence of events it yields
  before it closes; the reply channel of a `Load` is modelled by the position of
  its reply among all replies.
 */
module Db {
  import opened Wrappers

  type Key = string
  type Link = string

  /** A request sent to the service. */
  datatype Event = Store(key: Key, link: Link) | Load(key: Key)

  /** Why the service loop ended: the channel closed, or the storage failed on the event at `at`. */
  datatype Exit = Closed | IoError(at: nat)

  /** Outcome of a storage operation: the connection either answers or fails with an I/O error. */
  datatype Result<+T> = Ok(value: T) | Err

  /** Point lookup by key in the table. */
  function Lookup(table: map<Key, Link>, key: Key): (r: Option<Link>)
    ensures r.Some? <==> key in table
    ensures r.Some? ==> r.value == table[key]
  {
    if key in table then Some(table[key]) else None
  }

  // ---------------------------------------------------------------------------
  // Reference semantics: what the requests mean when nothing fails.

  /** The table after applying, in order, every `Store` of `events` as an upsert. */
  function Table(table: map<Key, Link>, events: seq<Event>): map<Key, Link>
    decreases |events|
  {
    if events == [] then table
    else
      var n := |events| - 1;
      match events[n]
      case Store(k, v) => Table(table, events[..n])[k := v]
      case Load(_) => Table(table, events[..n])
  }

  /** The number of `Load` requests in `events`, which is the number of replies they are owed. */
  function LoadCount(events: seq<Event>): nat
    decreases |events|
  {
    if events == [] then 0
    else LoadCount(events[..|events| - 1]) + (if events[|events| - 1].Load? then 1 else 0)
  }

  /** True when no `Store` in `events` is for `key`. */
  ghost predicate NoStoreOf(events: seq<Event>, key: Key) {
    forall i | 0 <= i < |events| :: !(events[i].Store? && events[i].key == key)
  }

  /** True when the storage operation of none of the first `n` events fails. */
  ghost predicate Healthy(faults: set<nat>, n: nat) {
    forall j | 0 <= j < n :: j !in faults
  }

  // ---------------------------------------------------------------------------
  // The service loop as a function of the events received so far.

  /** The service state after the events received so far: the table, the replies sent and how the loop stands. */
  datatype Served = Served(table: map<Key, Link>, replies: seq<Option<Link>>, exit: Exit)

  /**
    What the service loop does with `events` when the channel closes after them,
    starting from `table`; the storage operation of the event at index `i` fails
    exactly when `i in faults`.  A failure ends the loop: later events are never
    received.
   */
  function Serve(table: map<Key, Link>, events: seq<Event>, faults: set<nat>): Served
    decreases |events|
  {
    if events == [] then Served(table, [], Closed)
    else
      var n := |events| - 1;
      var r := Serve(table, events[..n], faults);
      if r.exit.IoError? then r
      else if n in faults then Served(r.table, r.replies, IoError(n))
      else match events[n]
        case Store(k, v) => Served(r.table[k := v], r.replies, Closed)
        case Load(k) => Served(r.table, r.replies + [Lookup(r.table, k)], Closed)
  }

  // ---------------------------------------------------------------------------
  // The imperative service.

  /** The connection to the persistent store, seen as the contents of its `link` table. */
  class Database {
    var table: map<Key, Link>

    /** Opening the store and creating the table if it does not exist keeps the rows already persisted. */
    constructor (persisted: map<Key, Link>)
      ensures table == persisted
    {
      table := persisted;
    }

    /** Upsert (`INSERT OR REPLACE` on the unique key); `failing` says whether the store reports an I/O error. */
    method StoreLink(key: Key, link: Link, failing: bool) returns (r: Result<()>)
      modifies this
      ensures r.Err? <==> failing
      ensures table == if failing then old(table) else old(table)[key := link]
    {
      if failing {
        r := Err;
      } else {
        table := table[key := link];
        r := Ok(());
      }
    }

    /** Point lookup (`SELECT v ... WHERE k = :k`); `failing` says whether the store reports an I/O error. */
    method LoadLink(key: Key, failing: bool) returns (r: Result<Option<Link>>)
      ensures r.Err? <==> failing
      ensures r.Ok? ==> (r.value.Some? <==> key in table)
      ensures r.Ok? && r.value.Some? ==> r.value.value == table[key]
    {
      if failing {
        r := Err;
      } else if key in table {
        r := Ok(Some(table[key]));
      } else {
        r := Ok(None);
      }
    }
  }

  /** The task that owns the connection. */
  class Service {
    const db: Database

    constructor (db: Database)
      ensures this.db == db
    {
      this.db := db;
    }

    /**
      The service loop: receive the next event, or stop when the channel is
      closed (all of `events` received); a storage error stops the loop.
     */
    method Run(events: seq<Event>, faults: set<nat>) returns (replies: seq<Option<Link>>, exit: Exit)
      modifies db
      ensures Served(db.table, replies, exit) == Serve(old(db.table), events, faults)
    {
      ghost var t := db.table;
      replies := [];
      var i := 0;
      while i < |events|
        invariant 0 <= i <= |events|
        invariant Serve(t, events[..i], faults) == Served(db.table, replies, Closed)
      {
        assert events[..i + 1][..i] == events[..i];
        match events[i] {
          case Store(k, v) =>
            var r := db.StoreLink(k, v, i in faults);
            if r.Err? {
              exit := IoError(i);
              FaultIsFinal(t, events[..i + 1], events[i + 1..], faults);
              assert events[..i + 1] + events[i + 1..] == events;
              return;
            }
          case Load(k) =>
            var r := db.LoadLink(k, i in faults);
            if r.Err? {
              exit := IoError(i);
              FaultIsFinal(t, events[..i + 1], events[i + 1..], faults);
              assert events[..i + 1] + events[i + 1..] == events;
              return;
            }
            replies := replies + [r.value];
        }
        i := i + 1;
      }
      assert events[..i] == events;
      exit := Closed;
    }
  }

  /**
    The sending side of the channel, shared by every caller.  `sent` is the
    stream of requests in the order the channel accepted them, which is the
    order in which the service receives them.
   */
  class Access {
    var sent: seq<Event>

    constructor ()
      ensures sent == []
    {
      sent := [];
    }

    /** Requests an upsert; the caller does not wait for it to be carried out. */
    method Store(key: Key, link: Link)
      modifies this
      ensures sent == old(sent) + [Event.Store(key, link)]
    {
      sent := sent + [Event.Store(key, link)];
    }

    /**
      Requests a lookup and awaits its reply; `ticket` is the position of that
      reply among the replies of the service (see `ReplyAt`).
     */
    method Load(key: Key) returns (ticket: nat)
      modifies this
      ensures sent == old(sent) + [Event.Load(key)]
      ensures ticket == LoadCount(old(sent))
    {
      ticket := LoadCount(sent);
      sent := sent + [Event.Load(key)];
    }
  }

  // ---------------------------------------------------------------------------
  // Properties of the service loop.

  /** Once the storage has failed, later events change nothing: the loop does not go on to the next event. */
  lemma {:induction false} FaultIsFinal(table: map<Key, Link>, events: seq<Event>, more: seq<Event>, faults: set<nat>)
    requires Serve(table, events, faults).exit.IoError?
    ensures Serve(table, events + more, faults) == Serve(table, events, faults)
    decreases |more|
  {
    if more != [] {
      var m := more[..|more| - 1];
      FaultIsFinal(table, events, m, faults);
      assert (events + more)[..|events + more| - 1] == events + m;
    } else {
      assert events + more == events;
    }
  }

  /** Without storage faults the loop ends because the channel closed, holding the upserted table and one reply per `Load`. */
  lemma {:induction false} HealthyServe(table: map<Key, Link>, events: seq<Event>, faults: set<nat>)
    requires Healthy(faults, |events|)
    ensures Serve(table, events, faults).exit == Closed
    ensures Serve(table, events, faults).table == Table(table, events)
    ensures |Serve(table, events, faults).replies| == LoadCount(events)
    decreases |events|
  {
    if events != [] {
      HealthyServe(table, events[..|events| - 1], faults);
    }
  }

  /** The loop ends with `Closed` exactly when no storage operation failed, and otherwise at the first failure. */
  lemma {:induction false} ExitReason(table: map<Key, Link>, events: seq<Event>, faults: set<nat>)
    ensures Serve(table, events, faults).exit == Closed <==> Healthy(faults, |events|)
    ensures Serve(table, events, faults).exit.IoError? ==>
      var f := Serve(table, events, faults).exit.at;
      f < |events| && f in faults && Healthy(faults, f)
    decreases |events|
  {
    if events != [] {
      var n := |events| - 1;
      ExitReason(table, events[..n], faults);
    }
  }

  /**
    A storage failure at event `f` stops the service there: the table is the
    upsert of the events before `f`, and only the `Load`s before `f` were answered.
   */
  lemma StopsAtFault(table: map<Key, Link>, events: seq<Event>, faults: set<nat>, f: nat)
    requires f < |events| && f in faults && Healthy(faults, f)
    ensures Serve(table, events, faults) == Served(Table(table, events[..f]), Serve(table, events[..f], faults).replies, IoError(f))
    ensures |Serve(table, events, faults).replies| == LoadCount(events[..f])
  {
    HealthyServe(table, events[..f], faults);
    assert events[..f + 1][..f] == events[..f];
    FaultIsFinal(table, events[..f + 1], events[f + 1..], faults);
    assert events[..f + 1] + events[f + 1..] == events;
  }

  /** A longer prefix of the events holds at least as many loads. */
  lemma {:induction false} LoadCountGrows(events: seq<Event>, i: nat, j: nat)
    requires i <= j <= |events|
    ensures LoadCount(events[..i]) <= LoadCount(events[..j])
    decreases j - i
  {
    if i < j {
      LoadCountGrows(events, i, j - 1);
      assert events[..j][..j - 1] == events[..j - 1];
    }
  }

  /**
    After a storage failure at event `f`, no load from `f` on is answered: its
    ticket, the number of loads before it, is at least the number of replies.
   */
  lemma UnansweredAfterFault(table: map<Key, Link>, events: seq<Event>, faults: set<nat>, f: nat, j: nat)
    requires f < |events| && f in faults && Healthy(faults, f)
    requires f <= j < |events| && events[j].Load?
    ensures |Serve(table, events, faults).replies| <= LoadCount(events[..j])
  {
    StopsAtFault(table, events, faults, f);
    LoadCountGrows(events, f, j);
  }

  /** The replies sent for a prefix of the events are a prefix of the replies sent for all of them. */
  lemma {:induction false} RepliesGrow(table: map<Key, Link>, events: seq<Event>, faults: set<nat>, i: nat)
    requires i <= |events|
    ensures Serve(table, events[..i], faults).replies <= Serve(table, events, faults).replies
    decreases |events| - i
  {
    if i < |events| {
      var n := |events| - 1;
      assert events[..n][..i] == events[..i];
      RepliesGrow(table, events[..n], faults, i);
    } else {
      assert events[..i] == events;
    }
  }

  /**
    Ordering: the `Load` at index `i` is answered, if no storage failure came
    before it, by the reply at position `LoadCount(events[..i])` (its ticket), and
    that reply is the lookup in the table holding every `Store` received before
    it and none received after it.
   */
  lemma ReplyAt(table: map<Key, Link>, events: seq<Event>, faults: set<nat>, i: nat)
    requires i < |events| && events[i].Load?
    requires Healthy(faults, i + 1)
    ensures LoadCount(events[..i]) < |Serve(table, events, faults).replies|
    ensures Serve(table, events, faults).replies[LoadCount(events[..i])] == Lookup(Table(table, events[..i]), events[i].key)
  {
    HealthyServe(table, events[..i], faults);
    assert events[..i + 1][..i] == events[..i];
    RepliesGrow(table, events, faults, i + 1);
  }

  /** Upsert: after `Store(k, v)` the table maps `k` to `v`, whatever it held before, and every other key keeps its value. */
  lemma StoreUpserts(table: map<Key, Link>, events: seq<Event>, k: Key, v: Link)
    ensures Lookup(Table(table, events + [Event.Store(k, v)]), k) == Some(v)
    ensures forall k' | k' != k :: Lookup(Table(table, events + [Event.Store(k, v)]), k') == Lookup(Table(table, events), k')
  {
    assert (events + [Event.Store(k, v)])[..|events|] == events;
  }

  /** Requests received later are applied on top of those received earlier. */
  lemma {:induction false} TableAppend(table: map<Key, Link>, a: seq<Event>, b: seq<Event>)
    ensures Table(table, a + b) == Table(Table(table, a), b)
    decreases |b|
  {
    if b == [] {
      assert a + b == a;
    } else {
      var n := |b| - 1;
      TableAppend(table, a, b[..n]);
      assert (a + b)[..|a + b| - 1] == a + b[..n];
    }
  }

  /** Events without a `Store` of `key` leave the value of `key` as it was. */
  lemma {:induction false} TableUntouched(table: map<Key, Link>, events: seq<Event>, key: Key)
    requires NoStoreOf(events, key)
    ensures Lookup(Table(table, events), key) == Lookup(table, key)
    decreases |events|
  {
    if events != [] {
      TableUntouched(table, events[..|events| - 1], key);
    }
  }

  /** Read after write: a `Load(k)` after `Store(k, v)`, with no other store of `k` between them, replies `Some(v)`. */
  lemma StoreThenLoad(table: map<Key, Link>, before: seq<Event>, between: seq<Event>, after: seq<Event>,
                      faults: set<nat>, k: Key, v: Link)
    requires NoStoreOf(between, k)
    requires Healthy(faults, |before| + |between| + 2)
    ensures var events := before + [Event.Store(k, v)] + between + [Event.Load(k)] + after;
      LoadCount(before + [Event.Store(k, v)] + between) < |Serve(table, events, faults).replies| &&
      Serve(table, events, faults).replies[LoadCount(before + [Event.Store(k, v)] + between)] == Some(v)
  {
    var prefix := before + [Event.Store(k, v)] + between;
    var events := prefix + [Event.Load(k)] + after;
    var i := |prefix|;
    assert events[..i] == prefix;
    ReplyAt(table, events, faults, i);
    TableAppend(table, before + [Event.Store(k, v)], between);
    TableUntouched(Table(table, before + [Event.Store(k, v)]), between, k);
    StoreUpserts(table, before, k, v);
  }

  /** A `Load` of a key that is not in the initial table and was never stored replies `None`. */
  lemma NeverStored(table: map<Key, Link>, events: seq<Event>, faults: set<nat>, i: nat)
    requires i < |events| && events[i].Load? && events[i].key !in table
    requires NoStoreOf(events[..i], events[i].key)
    requires Healthy(faults, i + 1)
    ensures LoadCount(events[..i]) < |Serve(table, events, faults).replies|
    ensures Serve(table, events, faults).replies[LoadCount(events[..i])] == None
  {
    ReplyAt(table, events, faults, i);
    TableUntouched(table, events[..i], events[i].key);
  }

  /** Each `Load` gets exactly one reply and a `Store` none: a healthy run sends one reply per `Load`, in receipt order. */
  lemma OneReplyPerLoad(table: map<Key, Link>, events: seq<Event>, faults: set<nat>)
    requires Healthy(faults, |events|)
    ensures |Serve(table, events, faults).replies| == LoadCount(events)
    ensures forall i | 0 <= i < |events| && events[i].Load? ::
      LoadCount(events[..i]) < LoadCount(events) &&
      Serve(table, events, faults).replies[LoadCount(events[..i])] == Lookup(Table(table, events[..i]), events[i].key)
  {
    HealthyServe(table, events, faults);
    forall i | 0 <= i < |events| && events[i].Load?
      ensures LoadCount(events[..i]) < LoadCount(events)
      ensures Serve(table, events, faults).replies[LoadCount(events[..i])] == Lookup(Table(table, events[..i]), events[i].key)
    {
      ReplyAt(table, events, faults, i);
    }
  }

  /** A later store of the same key replaces the earlier one: `Store(k, v1)`, `Store(k, v2)`, `Load(k)` replies `Some(v2)`. */
  lemma SecondStoreWins(table: map<Key, Link>, k: Key, v1: Link, v2: Link)
    ensures Serve(table, [Event.Store(k, v1), Event.Store(k, v2), Event.Load(k)], {}).replies == [Some(v2)]
  {
    var events := [Event.Store(k, v1), Event.Store(k, v2), Event.Load(k)];
    assert events[..2] == [Event.Store(k, v1), Event.Store(k, v2)];
    assert events[..2][..1] == [Event.Store(k, v1)];
    assert events[..2][..1][..0] == [];
    assert Serve(table, events[..2][..1], {}) == Served(table[k := v1], [], Closed);
    assert Serve(table, events[..2], {}) == Served(table[k := v1][k := v2], [], Closed);
  }
}
