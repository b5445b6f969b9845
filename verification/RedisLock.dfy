/**
 The client side of the lock: the `redisLock` object of certificate/store_redis.go with
 its `Lock` retry loop and its `Unlock`. Both are tied to the transition system of
 LockProtocol: from any protocol state in which the object is represented, they leave
 the object represented after the corresponding event.
 */
module RedisLock {
  import opened Text
  import opened LockProtocol

  /** What the SETNX of one attempt came back with. */
  datatype Reply = Acquired | Refused | Failed

  /** The protocol state records exactly the token this object holds. */
  ghost predicate Represents(s: State, o: Object, token: Option<Token>) {
    if token.None? then o !in s.recorded else o in s.recorded && s.recorded[o] == token.value
  }

  /** The attempt with which the retry loop ends, or the number of attempts when none acquires the lock. */
  function FirstAcquired(replies: seq<Reply>): (n: nat)
    ensures n <= |replies|
    ensures forall i :: 0 <= i < n ==> replies[i] != Acquired
    ensures n < |replies| ==> replies[n] == Acquired
  {
    if replies == [] || replies[0] == Acquired then 0 else 1 + FirstAcquired(replies[1..])
  }

  class Lock {
    const id: Object
    var token: Option<Token>        // None for the empty string
    var refreshers: set<Token>      // refresh goroutines started and not told to stop

    constructor (id: Object)
      ensures this.id == id && token == None && refreshers == {}
    {
      this.id := id;
      token := None;
      refreshers := {};
    }

    /**
     Lock, for the tokens it generates and the replies it gets. The loop ends with the
     first acquired attempt; `ok` is false when the listed attempts run out first.
     */
    method Acquire(g: Section, tokens: seq<Token>, replies: seq<Reply>) returns (ok: bool, attempts: nat)
      requires |tokens| == |replies| && ObjectOf(g) == id
      modifies this
      ensures ok <==> FirstAcquired(replies) < |replies|
      ensures attempts == if ok then FirstAcquired(replies) + 1 else |replies|
      ensures ok ==> token == Some(tokens[attempts - 1]) && refreshers == old(refreshers) + {tokens[attempts - 1]}
      ensures !ok ==> token == old(token) && refreshers == old(refreshers)
      ensures ok ==> forall c, s ::
        Enabled(c, s, Enter(g)) && s.phase[g] == Waiting(tokens[attempts - 1]) ==>
        Represents(Apply(c, s, Enter(g)), id, token)
    {
      var i := 0;
      while i < |replies|
        invariant 0 <= i <= |replies|
        invariant forall k :: 0 <= k < i ==> replies[k] != Acquired
        invariant token == old(token) && refreshers == old(refreshers)
      {
        if replies[i] == Acquired {
          assert FirstAcquired(replies) == i;
          token := Some(tokens[i]);
          refreshers := refreshers + {tokens[i]};
          return true, i + 1;
        }
        i := i + 1;
      }
      return false, i;
    }

    /** Unlock: takes whatever token is recorded, stops its refresher and sends its release. */
    method Release(g: Section) returns (release: Option<Token>)
      requires ObjectOf(g) == id
      modifies this
      ensures token == None && release == old(token)
      ensures refreshers == if release.None? then old(refreshers) else old(refreshers) - {release.value}
      ensures forall c, s ::
        Represents(s, id, old(token)) && Enabled(c, s, Unlock(g)) ==>
        && Represents(Apply(c, s, Unlock(g)), id, token)
        && Apply(c, s, Unlock(g)).releases == s.releases + (if release.None? then {} else {release.value})
    {
      release := token;
      token := None;
      if release.Some? {
        refreshers := refreshers - {release.value};
      }
    }
  }
}
