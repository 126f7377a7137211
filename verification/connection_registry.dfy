/** The global counters that hand out ids, and the registry of open WebSocket connections. */
module ConnectionRegistry {
  import opened Wrappers

  /** Ids come from 64-bit atomic counters, whose `fetch_add` wraps around. */
  const ID_RANGE: nat := 0x1_0000_0000_0000_0000

  /** The id that a counter starting at `start` hands out after `n` earlier ones. */
  function IdAt(start: nat, n: nat): nat {
    (start + n) % ID_RANGE
  }

  /** Two ids of one counter coincide exactly when a multiple of 2^64 ids lies between them. */
  lemma IdsRepeatOnlyAfterWrap(start: nat, i: nat, j: nat)
    requires i <= j
    ensures IdAt(start, i) == IdAt(start, j) <==> (j - i) % ID_RANGE == 0
    ensures i < j < i + ID_RANGE ==> IdAt(start, i) != IdAt(start, j)
  {
  }

  /** A counter that starts at 1 counts 1, 2, 3 and so on up to 2^64 - 1, and then wraps to 0. */
  lemma IdsCountUp(n: nat)
    ensures n < 18446744073709551615 ==> IdAt(1, n) == n + 1
    ensures IdAt(1, 18446744073709551615) == 0
    ensures IdAt(1, n + 18446744073709551616) == IdAt(1, n)
  {
  }

  predicate LatestFor<T>(stored: seq<T>, id: nat, n: nat) {
    n < |stored| && IdAt(1, n) == id && forall m: nat :: n < m < |stored| ==> IdAt(1, m) != id
  }

  /** The latest connection stored under the id. */
  ghost predicate StoredAs<T>(stored: seq<T>, id: nat, connection: T) {
    exists n: nat :: LatestFor(stored, id, n) && stored[n] == connection
  }

  lemma StoringAnother<T>(stored: seq<T>, id: nat, connection: T, added: T)
    requires StoredAs(stored, id, connection) && id != IdAt(1, |stored|)
    ensures StoredAs(stored + [added], id, connection)
  {
    var n: nat :| LatestFor(stored, id, n) && stored[n] == connection;
    assert LatestFor(stored + [added], id, n);
  }

  lemma StoringUnder<T>(stored: seq<T>, added: T)
    ensures StoredAs(stored + [added], IdAt(1, |stored|), added)
  {
    assert LatestFor(stored + [added], IdAt(1, |stored|), |stored|);
  }

  lemma NextId(n: nat)
    ensures (IdAt(1, n) + 1) % ID_RANGE == IdAt(1, n + 1)
  {
  }

  predicate FreshId(stored: nat, id: nat) {
    forall n: nat :: n < stored < n + ID_RANGE ==> IdAt(1, n) != id
  }

  lemma NewIdIsFresh(stored: nat)
    ensures FreshId(stored, IdAt(1, stored))
  {
  }

  lemma StoreKeepsAll<T>(connections: map<nat, T>, stored: seq<T>, connection: T)
    requires forall id :: id in connections ==> StoredAs(stored, id, connections[id])
    ensures var after := connections[IdAt(1, |stored|) := connection];
      forall id :: id in after ==> StoredAs(stored + [connection], id, after[id])
  {
    var latest := IdAt(1, |stored|);
    var after := connections[latest := connection];
    forall id | id in after ensures StoredAs(stored + [connection], id, after[id]) {
      if id == latest {
        StoringUnder(stored, connection);
      } else {
        StoringAnother(stored, id, connections[id], connection);
      }
    }
  }

  /**
   Open connections by id. `stored` is the sequence of connections ever stored; the counter starts
   at 1, so the n-th of them got the id `IdAt(1, n)`.
   */
  class Registry<T> {
    var connections: map<nat, T>
    var next: nat
    ghost var stored: seq<T>

    /** A registered id is that of a connection stored under it, and the latest such. */
    ghost predicate Valid()
      reads this
    {
      && next == IdAt(1, |stored|)
      && forall id :: id in connections ==> StoredAs(stored, id, connections[id])
    }

    constructor ()
      ensures Valid() && connections == map[] && stored == []
    {
      connections, next, stored := map[], 1, [];
    }

    /** The new id is that of no connection among the 2^64 - 1 stored before it. */
    method Store(connection: T) returns (id: nat)
      requires Valid()
      modifies this
      ensures Valid()
      ensures stored == old(stored) + [connection]
      ensures connections == old(connections)[id := connection]
      ensures FreshId(|old(stored)|, id)
    {
      NextId(|stored|);
      NewIdIsFresh(|stored|);
      StoreKeepsAll(connections, stored, connection);
      id := next;
      next := (next + 1) % ID_RANGE;
      connections := connections[id := connection];
      stored := stored + [connection];
    }

    method Get(id: nat) returns (connection: Option<T>)
      requires Valid()
      ensures connection == if id in connections then Some(connections[id]) else None
      ensures connection.Some? ==> StoredAs(stored, id, connection.value)
    {
      connection := if id in connections then Some(connections[id]) else None;
    }

    /** Removing twice, by the consumer task and by `websocket_close`, is harmless. */
    method Remove(id: nat)
      requires Valid()
      modifies this`connections
      ensures Valid()
      ensures connections == old(connections) - {id}
    {
      connections := connections - {id};
    }
  }

  /** A lookup never finds another connection than the one stored under the id, short of a wrap. */
  lemma LookupIsFaithful<T>(stored: seq<T>, n: nat, m: nat)
    requires n < |stored| && m < |stored| && |stored| <= ID_RANGE && IdAt(1, n) == IdAt(1, m)
    ensures n == m
  {
  }
}
