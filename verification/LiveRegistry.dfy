/** The in-process registry of live pulls: who waits, and one pending signal per waiter. */
module LiveRegistry {
  import opened Conflict

  const CAPACITY := 1

  // What the waiter's channel may hold.
  type Slots = n: nat | n <= CAPACITY

  class Waiter {
    const userID: Text
    var buffered: Slots

    constructor (userID: Text)
      ensures this.userID == userID && buffered == 0
    {
      this.userID := userID;
      buffered := 0;
    }

    // A receive that finds a signal consumes it.
    method TryReceive() returns (woken: bool)
      modifies this
      ensures woken <==> old(buffered) == 1
      ensures buffered == 0
    {
      woken := buffered > 0;
      buffered := 0;
    }
  }

  // The waiters in the buckets of the given users.
  ghost function Members(buckets: map<Text, set<Waiter>>, users: set<Text>): set<Waiter> {
    set u, w | u in users && u in buckets && w in buckets[u] :: w
  }

  lemma MembersAdd(buckets: map<Text, set<Waiter>>, users: set<Text>, user: Text)
    requires forall u <- buckets :: forall w <- buckets[u] :: w.userID == u
    requires user in buckets && user !in users
    ensures Members(buckets, users + {user}) == Members(buckets, users) + buckets[user]
    ensures |Members(buckets, users + {user})| == |Members(buckets, users)| + |buckets[user]|
  {
    var before, after := Members(buckets, users), Members(buckets, users + {user});
    assert after == before + buckets[user];
    assert before !! buckets[user];
  }

  method CountMembers(buckets: map<Text, set<Waiter>>) returns (n: nat)
    requires forall u <- buckets :: forall w <- buckets[u] :: w.userID == u
    ensures n == |Members(buckets, buckets.Keys)|
  {
    n := 0;
    var todo := buckets.Keys;
    ghost var done: set<Text> := {};
    assert Members(buckets, done) == {};
    while todo != {}
      invariant todo <= buckets.Keys && done == buckets.Keys - todo
      invariant n == |Members(buckets, done)|
      decreases todo
    {
      var u :| u in todo;
      MembersAdd(buckets, done, u);
      n := n + |buckets[u]|;
      todo := todo - {u};
      done := done + {u};
    }
    assert done == buckets.Keys;
  }

  class Registry {
    var waiters: map<Text, set<Waiter>>

    // Every waiter sits in its own user's bucket and no bucket is empty.
    ghost predicate Valid()
      reads this
    {
      forall u <- waiters :: waiters[u] != {} && forall w <- waiters[u] :: w.userID == u
    }

    function Bucket(user: Text): set<Waiter>
      reads this
    {
      if user in waiters then waiters[user] else {}
    }

    ghost function Subscribed(): set<Waiter>
      reads this
    {
      Members(waiters, waiters.Keys)
    }

    constructor ()
      ensures Valid() && Subscribed() == {}
    {
      waiters := map[];
    }

    method Subscribe(user: Text) returns (w: Waiter)
      requires Valid()
      modifies this
      ensures Valid() && fresh(w) && w.userID == user && w.buffered == 0
      ensures forall u: Text :: Bucket(u) == if u == user then old(Bucket(u)) + {w} else old(Bucket(u))
      ensures Subscribed() == old(Subscribed()) + {w}
    {
      w := new Waiter(user);
      waiters := waiters[user := Bucket(user) + {w}];
      assert w in waiters[user];
      forall v ensures v in Subscribed() <==> v in old(Subscribed()) || v == w {
        if v in old(Subscribed()) {
          var u :| u in old(waiters) && v in old(waiters)[u];
          assert v in waiters[u];
        }
      }
    }

    // Idempotent: a waiter already gone, or null, changes nothing.
    method Unsubscribe(w: Waiter?)
      requires Valid()
      modifies this
      ensures Valid()
      ensures forall u: Text :: Bucket(u) == if w != null then old(Bucket(u)) - {w} else old(Bucket(u))
      ensures Subscribed() == if w != null then old(Subscribed()) - {w} else old(Subscribed())
    {
      if w == null || w.userID !in waiters {
        return;
      }
      var left := waiters[w.userID] - {w};
      if left == {} {
        waiters := waiters - {w.userID};
      } else {
        waiters := waiters[w.userID := left];
      }
      forall v ensures v in Subscribed() <==> v in old(Subscribed()) && v != w {
        if v in old(Subscribed()) && v != w {
          var u :| u in old(waiters) && v in old(waiters)[u];
          if u == w.userID {
            assert v in left;
          }
          assert u in waiters && v in waiters[u];
        }
      }
    }

    /** Leaves a signal in exactly this user's waiters; the frame keeps every other channel. */
    method Notify(user: Text)
      requires Valid()
      modifies Bucket(user)
      ensures forall w <- Bucket(user) :: w.buffered == 1
    {
      var todo := Bucket(user);
      while todo != {}
        invariant todo <= Bucket(user)
        invariant forall w <- Bucket(user) - todo :: w.buffered == 1
        decreases |todo|
      {
        var w :| w in todo;
        if w.buffered < CAPACITY {
          w.buffered := w.buffered + 1;
        }
        todo := todo - {w};
      }
    }

    /** The number of distinct waiters still subscribed, not the number of users. */
    method Len() returns (n: nat)
      requires Valid()
      ensures n == |Subscribed()|
    {
      n := CountMembers(waiters);
    }
  }
}
