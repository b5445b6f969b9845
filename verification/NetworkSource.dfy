/**
 The reconnect loop of config/source_network.go. Each round of the loop meets one `Round`
 of the outside world: what the stop channel, the connection, the config server and the
 route updater do in it.
 */
module NetworkSource {
  datatype Round =
    | Stop                      // the stop channel is ready
    | Round(
        setDeadlineOk: bool,
        applied: bool,          // a whole valid config was read, parsed and installed
        dialOk: bool,
        clearDeadlineOk: bool)

  /** A read that was started: whether the connection had a deadline, and how it ended. */
  datatype Read = Read(deadline: bool, applied: bool)

  datatype State = State(
    deadline: bool,             // of the current connection
    initialConfigRead: bool,
    secondChance: bool,
    ended: bool,
    history: seq<Read>,           // all reads so far
    reconnects: nat)

  /** After Start: a fresh connection. */
  const STARTED := State(false, false, false, false, [], 0)

  function Next(s: State, r: Round): State {
    if s.ended then s
    else if r.Stop? then s.(ended := true)
    else if !s.initialConfigRead && !r.setDeadlineOk then s.(ended := true)
    else
      var deadline := s.deadline || !s.initialConfigRead;
      var history := s.history + [Read(deadline, r.applied)];
      if !r.applied then
        if s.secondChance then s.(deadline := deadline, history := history, ended := true)
        else
          s.(deadline := false, history := history, reconnects := s.reconnects + 1, secondChance := r.dialOk, ended := !r.dialOk)
      else if !s.initialConfigRead then
        s.(deadline := deadline && !r.clearDeadlineOk, history := history, initialConfigRead := true,
           secondChance := false, ended := !r.clearDeadlineOk)
      else
        s.(deadline := deadline, history := history, secondChance := false)
  }

  function After(rounds: seq<Round>): State {
    if rounds == [] then STARTED else Next(After(rounds[..|rounds| - 1]), rounds[|rounds| - 1])
  }

  class Source {
    var deadline: bool
    var initialConfigRead: bool
    ghost var history: seq<Read>
    ghost var reconnects: nat

    constructor ()
      ensures !deadline && !initialConfigRead && history == [] && reconnects == 0
    {
      deadline, initialConfigRead, history, reconnects := false, false, [], 0;
    }

    /** run, until it returns or the given rounds are over. */
    method Run(rounds: seq<Round>) returns (ended: bool)
      requires !deadline && !initialConfigRead && history == [] && reconnects == 0
      modifies this
      ensures var s := After(rounds);
        && ended == s.ended && history == s.history && reconnects == s.reconnects
        && (!ended ==> deadline == s.deadline && initialConfigRead == s.initialConfigRead)
    {
      var secondChance := false;
      for i := 0 to |rounds|
        invariant After(rounds[..i]) == State(deadline, initialConfigRead, secondChance, false, history, reconnects)
      {
        assert rounds[..i + 1][..i] == rounds[..i];
        var round := rounds[i];
        if round.Stop? {
          EndedStays(rounds, i + 1);
          return true;
        }
        if !initialConfigRead {
          if !round.setDeadlineOk {
            EndedStays(rounds, i + 1);
            return true;
          }
          deadline := true;
        }
        history := history + [Read(deadline, round.applied)];
        if !round.applied {
          if secondChance {
            EndedStays(rounds, i + 1);
            return true;
          }
          reconnects := reconnects + 1;
          if !round.dialOk {
            EndedStays(rounds, i + 1);
            return true;
          }
          deadline := false;
          secondChance := true;
        } else {
          if !initialConfigRead {
            initialConfigRead := true;
            if !round.clearDeadlineOk {
              EndedStays(rounds, i + 1);
              return true;
            }
            deadline := false;
          }
          secondChance := false;
        }
      }
      assert rounds[..|rounds|] == rounds;
      return false;
    }
  }

  lemma {:induction false} EndedStays(rounds: seq<Round>, n: nat)
    requires n <= |rounds| && After(rounds[..n]).ended
    ensures After(rounds) == After(rounds[..n])
  {
    if n < |rounds| {
      var front := rounds[..|rounds| - 1];
      assert front[..n] == rounds[..n];
      EndedStays(front, n);
    } else {
      assert rounds[..n] == rounds;
    }
  }

  // ---- what every run keeps ----

  function Applied(history: seq<Read>): nat {
    if history == [] then 0 else Applied(history[..|history| - 1]) + if history[|history| - 1].applied then 1 else 0
  }

  predicate LastFailed(history: seq<Read>) {
    history != [] && !history[|history| - 1].applied
  }

  /** No read but possibly the last follows a failed read and fails too. */
  predicate NoLongFailure(history: seq<Read>, ended: bool) {
    forall i :: 0 <= i && i + 1 < |history| && !history[i].applied && !history[i + 1].applied ==> ended && i + 2 == |history|
  }

  /** A read has a deadline exactly when no config has been applied before it. */
  ghost predicate DeadlinesOk(history: seq<Read>) {
    forall i :: 0 <= i < |history| ==> (history[i].deadline <==> Applied(history[..i]) == 0)
  }

  ghost predicate Inv(s: State) {
    && s.initialConfigRead == (Applied(s.history) > 0)
    && (!s.ended && s.initialConfigRead ==> !s.deadline)
    && (!s.ended ==> s.secondChance == LastFailed(s.history))
    && s.reconnects <= Applied(s.history) + (if s.ended || s.secondChance then 1 else 0)
    && NoLongFailure(s.history, s.ended)
    && DeadlinesOk(s.history)
  }

  lemma {:induction false} InvStep(s: State, r: Round)
    requires Inv(s)
    ensures Inv(Next(s, r))
  {
    hide Applied, NoLongFailure, DeadlinesOk;
    var s' := Next(s, r);
    if s'.history != s.history {
      var deadline := s.deadline || !s.initialConfigRead;
      OneMoreRead(s.history, Read(deadline, r.applied), s'.ended);
    } else {
      SameReads(s.history, s'.ended);
    }
  }

  lemma {:induction false} OneMoreRead(h: seq<Read>, r: Read, ended: bool)
    ensures Applied(h + [r]) == Applied(h) + if r.applied then 1 else 0
    ensures NoLongFailure(h, false) && (LastFailed(h) && !r.applied ==> ended) ==> NoLongFailure(h + [r], ended)
    ensures DeadlinesOk(h) && (r.deadline <==> Applied(h) == 0) ==> DeadlinesOk(h + [r])
  {
    assert (h + [r])[..|h|] == h;
    assert forall i :: 0 <= i < |h| ==> (h + [r])[..i] == h[..i];
  }

  lemma {:induction false} SameReads(h: seq<Read>, ended: bool)
    ensures NoLongFailure(h, false) ==> NoLongFailure(h, ended)
  {
  }

  lemma {:induction false} InvAlways(rounds: seq<Round>)
    ensures Inv(After(rounds))
  {
    if rounds != [] {
      InvAlways(rounds[..|rounds| - 1]);
      InvStep(After(rounds[..|rounds| - 1]), rounds[|rounds| - 1]);
    }
  }

  /**
   In every run: there is at most one reconnect more than configs applied; a failed read
   after a failed read is the last thing the loop does; and a read starts with a deadline
   on its connection exactly when no config has been applied yet.
   */
  lemma {:induction false} ReconnectProtocol(rounds: seq<Round>)
    ensures var s := After(rounds);
      && s.reconnects <= Applied(s.history) + 1
      && NoLongFailure(s.history, s.ended)
      && DeadlinesOk(s.history)
  {
    InvAlways(rounds);
  }

  /** A round in which nothing goes wrong but possibly the read. */
  predicate Healthy(r: Round) {
    r.Round? && r.setDeadlineOk && r.dialOk && r.clearDeadlineOk
  }

  predicate Failed(r: Round) {
    r.Round? && !r.applied
  }

  predicate TwoFailures(rounds: seq<Round>) {
    exists i :: 0 <= i < |rounds| - 1 && Failed(rounds[i]) && Failed(rounds[i + 1])
  }

  lemma {:induction false} TwoFailuresSnoc(rounds: seq<Round>)
    requires rounds != []
    ensures var n := |rounds| - 1;
      TwoFailures(rounds) <==> TwoFailures(rounds[..n]) || (n > 0 && Failed(rounds[n - 1]) && Failed(rounds[n]))
  {
    var n := |rounds| - 1;
    var front := rounds[..n];
    assert forall i :: 0 <= i < n ==> front[i] == rounds[i];
    if TwoFailures(front) {
      var i :| 0 <= i < |front| - 1 && Failed(front[i]) && Failed(front[i + 1]);
      assert Failed(rounds[i]) && Failed(rounds[i + 1]);
    }
    if n > 0 && Failed(rounds[n - 1]) && Failed(rounds[n]) {
      assert Failed(rounds[n - 1]) && Failed(rounds[n - 1 + 1]);
    }
  }

  /** As long as dialling and deadlines work and nobody stops it, the loop ends exactly with two failed reads in a row. */
  lemma {:induction false} EndsIffTwoFailures(rounds: seq<Round>)
    requires forall i :: 0 <= i < |rounds| ==> Healthy(rounds[i])
    ensures After(rounds).ended <==> TwoFailures(rounds)
    ensures !After(rounds).ended ==> After(rounds).secondChance == (rounds != [] && Failed(rounds[|rounds| - 1]))
  {
    if rounds != [] {
      EndsIffTwoFailures(rounds[..|rounds| - 1]);
      TwoFailuresSnoc(rounds);
      assert Healthy(rounds[|rounds| - 1]);
    }
  }

  // ---- when the loop ends, in all rounds ----

  predicate NothingApplied(rounds: seq<Round>, n: nat)
    requires n <= |rounds|
  {
    forall k :: 0 <= k < n ==> !(rounds[k].Round? && rounds[k].applied)
  }

  /** The loop ends before it reads: it is told to stop, or cannot set the deadline for the first config. */
  predicate EndsUnread(rounds: seq<Round>, i: nat)
    requires i < |rounds|
  {
    rounds[i].Stop? || (NothingApplied(rounds, i) && !rounds[i].setDeadlineOk)
  }

  /**
   What ends the loop in round `i`: one of these; a failed read after a failed read; a failed
   read and a failed dial; or a deadline that cannot be cleared after the first config.
   */
  predicate EndsAt(rounds: seq<Round>, i: nat)
    requires i < |rounds|
  {
    || EndsUnread(rounds, i)
    || (Failed(rounds[i]) && (!rounds[i].dialOk || (i > 0 && Failed(rounds[i - 1]))))
    || (rounds[i].applied && NothingApplied(rounds, i) && !rounds[i].clearDeadlineOk)
  }

  ghost predicate GoesOn(rounds: seq<Round>) {
    forall i :: 0 <= i < |rounds| ==> !EndsAt(rounds, i)
  }

  lemma {:induction false} EndsAtPrefix(rounds: seq<Round>, n: nat, i: nat)
    requires i < n <= |rounds|
    ensures EndsAt(rounds[..n], i) <==> EndsAt(rounds, i)
    ensures EndsUnread(rounds[..n], i) <==> EndsUnread(rounds, i)
  {
    assert NothingApplied(rounds[..n], i) <==> NothingApplied(rounds, i) by {
      assert forall k :: 0 <= k < i ==> rounds[..n][k] == rounds[k];
    }
  }

  lemma {:induction false} GoesOnFront(rounds: seq<Round>)
    requires rounds != []
    ensures var n := |rounds| - 1; GoesOn(rounds) <==> GoesOn(rounds[..n]) && !EndsAt(rounds, n)
  {
    hide EndsAt;
    var n := |rounds| - 1;
    forall i | 0 <= i < n ensures EndsAt(rounds[..n], i) <==> EndsAt(rounds, i) {
      EndsAtPrefix(rounds, n, i);
    }
  }

  /** What a loop that goes on remembers of its rounds. */
  ghost predicate Remembers(s: State, rounds: seq<Round>) {
    && !s.ended
    && (s.initialConfigRead <==> !NothingApplied(rounds, |rounds|))
    && (s.secondChance <==> rounds != [] && Failed(rounds[|rounds| - 1]))
    && |s.history| == |rounds|
    && forall k :: 0 <= k < |rounds| ==> rounds[k].Round? && s.history[k].applied == rounds[k].applied
  }

  lemma {:induction false} NextRemembers(s: State, rounds: seq<Round>)
    requires rounds != [] && Remembers(s, rounds[..|rounds| - 1])
    ensures var n := |rounds| - 1; var s' := Next(s, rounds[n]);
      if EndsAt(rounds, n) then s'.ended && |s'.history| == n + (if EndsUnread(rounds, n) then 0 else 1)
      else Remembers(s', rounds)
  {
    var n := |rounds| - 1;
    var front := rounds[..n];
    assert forall k :: 0 <= k < n ==> front[k] == rounds[k];
    assert NothingApplied(front, n) <==> NothingApplied(rounds, n);
    assert NothingApplied(rounds, |rounds|) <==> NothingApplied(rounds, n) && !(rounds[n].Round? && rounds[n].applied);
  }

  lemma {:induction false} LoopRemembers(rounds: seq<Round>)
    ensures if GoesOn(rounds) then Remembers(After(rounds), rounds) else After(rounds).ended
  {
    hide Next, Remembers, EndsAt, EndsUnread;
    if rounds == [] {
      StartRemembers();
    } else {
      LoopRemembers(rounds[..|rounds| - 1]);
      GoesOnFront(rounds);
      if GoesOn(rounds[..|rounds| - 1]) {
        NextRemembers(After(rounds[..|rounds| - 1]), rounds);
        RememberingIsRunning(After(rounds), rounds);
      } else {
        EndedStays(rounds, |rounds| - 1);
      }
    }
  }

  lemma {:induction false} StartRemembers()
    ensures Remembers(STARTED, [])
  {
  }

  lemma {:induction false} RememberingIsRunning(s: State, rounds: seq<Round>)
    ensures Remembers(s, rounds) ==> !s.ended
  {
  }

  /** For all rounds whatsoever: the loop has ended exactly when one of them ends it. */
  lemma {:induction false} EndsIff(rounds: seq<Round>)
    ensures After(rounds).ended <==> exists i :: 0 <= i < |rounds| && EndsAt(rounds, i)
    ensures !After(rounds).ended ==>
      |After(rounds).history| == |rounds| && forall k :: 0 <= k < |rounds| ==> rounds[k].Round? && After(rounds).history[k].applied == rounds[k].applied
  {
    hide EndsAt;
    LoopRemembers(rounds);
  }

  /** It ends with the first such round, and has then made one read for every earlier round, and one in it if it got that far. */
  lemma {:induction false} EndsWithFirst(rounds: seq<Round>, i: nat)
    requires i < |rounds| && EndsAt(rounds, i) && forall k :: 0 <= k < i ==> !EndsAt(rounds, k)
    ensures After(rounds) == After(rounds[..i + 1])
    ensures |After(rounds).history| == i + (if EndsUnread(rounds, i) then 0 else 1)
  {
    hide Next, Remembers, EndsAt, EndsUnread;
    var upto, front := rounds[..i + 1], rounds[..i];
    assert upto[..i] == front;
    forall k | 0 <= k < i ensures !EndsAt(front, k) {
      EndsAtPrefix(rounds, i, k);
    }
    EndsAtPrefix(rounds, i + 1, i);
    LoopRemembers(front);
    NextRemembers(After(front), upto);
    EndedStays(rounds, i + 1);
  }

  /** Told to stop, the loop ends without another read, whatever else is going on. */
  lemma {:induction false} StopEnds(rounds: seq<Round>, i: nat)
    requires i < |rounds| && rounds[i].Stop?
    ensures After(rounds).ended && |After(rounds).history| <= i
  {
    hide Next, EndsAt;
    assert EndsAt(rounds, i) && EndsUnread(rounds, i) by {
      StopIsAnEnd(rounds, i);
    }
    var first := FirstEnd(rounds, i);
    EndsWithFirst(rounds, first);
    EndsIff(rounds);
  }

  lemma {:induction false} StopIsAnEnd(rounds: seq<Round>, i: nat)
    requires i < |rounds| && rounds[i].Stop?
    ensures EndsAt(rounds, i) && EndsUnread(rounds, i)
  {
  }

  lemma {:induction false} FirstEnd(rounds: seq<Round>, i: nat) returns (first: nat)
    requires i < |rounds| && EndsAt(rounds, i)
    ensures first <= i && EndsAt(rounds, first) && forall k :: 0 <= k < first ==> !EndsAt(rounds, k)
  {
    hide EndsAt;
    if k: nat :| 0 <= k < i && EndsAt(rounds, k) {
      first := FirstEnd(rounds, k);
    } else {
      first := i;
    }
  }
}
