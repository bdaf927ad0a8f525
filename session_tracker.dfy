/**
 * The bookkeeping of a TCP server's open sessions: each accepted connection
 * gets the next id from a counter, and when the configured maximum is
 * reached the session with the smallest id, the oldest one, is closed to make
 * room for the new one.
 */
module TcpServer {

  /**
   * `SessionTracker`. `S` is what is kept per session (the sender that keeps
   * the session task alive; removing it ends the session).
   */
  class SessionTracker<S> {
    const max: nat
    var id: nat
    var sessions: map<nat, S>

    /** Every live id was handed out before, and the map never exceeds the bound `add` keeps. */
    ghost predicate Valid()
      reads this
    {
      (forall k :: k in sessions ==> k < id) && |sessions| <= Bound()
    }

    /** The most sessions `add` ever leaves open: the maximum, but at least the new one. */
    function Bound(): nat {
      if max == 0 then 1 else max
    }

    /** `new`: no session, and the first id is 0. */
    constructor (max: nat)
      ensures Valid() && this.max == max && id == 0 && sessions == map[]
    {
      this.max := max;
      id := 0;
      sessions := map[];
    }

    /** `get_next_id`: hands out the counter and advances it, so no id is handed out twice. */
    method GetNextId() returns (ret: nat)
      requires Valid()
      modifies this`id
      ensures Valid()
      ensures ret == old(id) && id == old(id) + 1
      ensures ret !in sessions
    {
      ret := id;
      id := id + 1;
    }

    /** The first key of the ordered map: its smallest id. */
    method OldestId() returns (oldest: nat)
      requires Valid() && sessions != map[]
      ensures oldest in sessions && forall k :: k in sessions ==> oldest <= k
    {
      var k := 0;
      ghost var some :| some in sessions;
      while k !in sessions
        invariant k <= some
        invariant forall j :: 0 <= j < k ==> j !in sessions
        decreases some - k
      {
        k := k + 1;
      }
      oldest := k;
    }

    /**
     * `add`: when the map is not empty and holds `max` sessions or more, the
     * oldest one is removed first; then the sender is stored under a fresh id,
     * which is returned.
     */
    method Add(sender: S) returns (newId: nat)
      requires Valid()
      modifies this
      ensures Valid()
      ensures newId == old(id) && id == old(id) + 1 && newId !in old(sessions)
      ensures old(sessions) == map[] || |old(sessions)| < max ==> sessions == old(sessions)[newId := sender]
      ensures old(sessions) != map[] && |old(sessions)| >= max ==>
                exists oldest :: oldest in old(sessions) && (forall k :: k in old(sessions) ==> oldest <= k)
                                 && sessions == (old(sessions) - {oldest})[newId := sender]
      ensures |sessions| <= Bound()
    {
      if sessions != map[] && |sessions| >= max {
        ghost var oldest := EvictOldest();
      }
      newId := GetNextId();
      assert (sessions[newId := sender]).Keys == sessions.Keys + {newId};
      sessions := sessions[newId := sender];
    }

    /** The eviction step of `add`: the session with the smallest id is removed. */
    method EvictOldest() returns (ghost oldest: nat)
      requires Valid() && sessions != map[]
      modifies this`sessions
      ensures Valid() && |sessions| == |old(sessions)| - 1
      ensures oldest in old(sessions) && (forall k :: k in old(sessions) ==> oldest <= k)
      ensures sessions == old(sessions) - {oldest}
    {
      var first := OldestId();
      assert |sessions.Keys - {first}| == |sessions.Keys| - 1;
      assert (sessions - {first}).Keys == sessions.Keys - {first};
      sessions := sessions - {first};
      oldest := first;
    }

    /** `remove`: only that session goes; an id that is not present changes nothing. */
    method Remove(id: nat)
      requires Valid()
      modifies this`sessions
      ensures Valid()
      ensures sessions == old(sessions) - {id}
      ensures id !in old(sessions) ==> sessions == old(sessions)
    {
      assert (sessions - {id}).Keys <= sessions.Keys;
      SubsetCardinality((sessions - {id}).Keys, sessions.Keys);
      sessions := sessions - {id};
    }
  }

  lemma SubsetCardinality<T>(a: set<T>, b: set<T>)
    requires a <= b
    ensures |a| <= |b|
  {
    assert b == a + (b - a);
  }

  /**
   * With a maximum of two, three connections in a row leave the second and
   * third open: the first, the oldest, is closed when the third arrives.
   */
  method ThreeConnections(a: char, b: char, c: char) returns (tracker: SessionTracker<char>)
    ensures tracker.sessions == map[1 := b, 2 := c] && tracker.id == 3
  {
    tracker := new SessionTracker(2);
    var i0 := tracker.Add(a);
    var i1 := tracker.Add(b);
    assert tracker.sessions == map[0 := a, 1 := b];
    var i2 := tracker.Add(c);
    assert 0 in map[0 := a, 1 := b];
    assert tracker.sessions == map[1 := b, 2 := c];
  }
}
