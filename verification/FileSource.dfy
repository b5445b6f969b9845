/**
 The reload queue of config/source_file.go: a channel of capacity one, filled without
 blocking by `Reload` and drained by the `run` loop.
 */
module FileSource {
  import opened Text

  /** Contents of the config file are numbered: a later write has a higher number. */
  datatype State = State(file: nat, pending: bool, busy: bool, stopped: bool, lastRead: Option<nat>)

  datatype Event =
    | Write       // the file changes
    | Reload
    | Begin       // run takes the update and opens the file
    | Finish      // parsed and installed, or failed and reported
    | Stop        // run takes the stop signal

  predicate Enabled(s: State, e: Event) {
    match e
    case Begin => s.pending && !s.busy && !s.stopped
    case Finish => s.busy
    case Stop => !s.busy && !s.stopped
    case _ => true
  }

  function Apply(s: State, e: Event): State
    requires Enabled(s, e)
  {
    match e
    case Write => s.(file := s.file + 1)
    case Reload => s.(pending := true)
    case Begin => s.(pending := false, busy := true, lastRead := Some(s.file))
    case Finish => s.(busy := false)
    case Stop => s.(stopped := true)
  }

  datatype Run = Run(states: seq<State>, events: seq<Event>) {
    ghost predicate StepAt(i: nat)
      requires i < |events| && |states| == |events| + 1
    {
      Enabled(states[i], events[i]) && states[i + 1] == Apply(states[i], events[i])
    }

    ghost predicate Valid() {
      && |states| == |events| + 1
      && (states[0].lastRead.Some? ==> states[0].lastRead.value <= states[0].file)
      && forall i :: 0 <= i < |events| ==> StepAt(i)
    }
  }

  lemma {:induction false} FileGrows(r: Run, i: nat, j: nat)
    requires r.Valid() && i <= j < |r.states|
    ensures r.states[i].file <= r.states[j].file
  {
    if i < j {
      FileGrows(r, i, j - 1);
      assert r.StepAt(j - 1);
    }
  }

  /** A read that began since some point of the run. */
  ghost predicate BeganSince(r: Run, i: nat, j: nat)
    requires r.Valid() && j < |r.states|
  {
    exists m :: i <= m < j && r.events[m] == Begin
  }

  /**
   No reload is lost: at any time after a Reload an update is pending, or a read has begun
   since, and then what was last read is no older than the file was at the Reload.
   */
  lemma {:induction false} ReloadIsNotLost(r: Run, i: nat, j: nat)
    requires r.Valid() && i < j < |r.states| && r.events[i] == Reload
    ensures || r.states[j].pending
            || (BeganSince(r, i, j) && r.states[j].lastRead.Some? && r.states[j].lastRead.value >= r.states[i].file)
  {
    assert r.StepAt(j - 1);
    if j > i + 1 {
      ReloadIsNotLost(r, i, j - 1);
      FileGrows(r, i, j - 1);
      if r.events[j - 1] == Begin {
        assert BeganSince(r, i, j);
      } else if BeganSince(r, i, j - 1) {
        var m :| i <= m < j - 1 && r.events[m] == Begin;
        assert BeganSince(r, i, j);
      }
    }
  }

  /** Once stopped, the loop never opens the file again. */
  lemma {:induction false} StopIsFinal(r: Run, i: nat, j: nat)
    requires r.Valid() && i < j < |r.states| && r.events[i] == Stop
    ensures r.states[j].stopped && !BeganSince(r, i, j) && r.states[j].lastRead == r.states[i].lastRead
  {
    assert r.StepAt(i);
    if j > i + 1 {
      StopIsFinal(r, i, j - 1);
      assert r.StepAt(j - 1);
    }
  }

  /** One configuration at a time: between the starts of two reads the first one has finished. */
  lemma {:induction false} ReadsDoNotOverlap(r: Run, i: nat, j: nat)
    requires r.Valid() && i < j < |r.events| && r.events[i] == Begin && r.events[j] == Begin
    ensures exists m :: i < m < j && r.events[m] == Finish
  {
    assert r.StepAt(i) && r.StepAt(j);
    if forall m :: i < m < j ==> r.events[m] != Finish {
      StaysBusy(r, i, j);
    }
  }

  lemma {:induction false} StaysBusy(r: Run, i: nat, j: nat)
    requires r.Valid() && i < j < |r.states| && r.events[i] == Begin && forall m :: i < m < j ==> r.events[m] != Finish
    ensures r.states[j].busy
  {
    assert r.StepAt(j - 1);
    if j > i + 1 {
      StaysBusy(r, i, j - 1);
    }
  }

  /** A read in progress is finished before the stop signal is taken. */
  lemma {:induction false} StopWaits(r: Run, i: nat, j: nat)
    requires r.Valid() && i < j < |r.events| && r.events[i] == Begin && r.events[j] == Stop
    ensures exists m :: i < m < j && r.events[m] == Finish
  {
    assert r.StepAt(i) && r.StepAt(j);
    if forall m :: i < m < j ==> r.events[m] != Finish {
      StaysBusy(r, i, j);
    }
  }

  /** What was written is seen: a read that begins after a write sees something newer than any read before it did. */
  lemma {:induction false} WrittenIsSeen(r: Run, i: nat, j: nat)
    requires r.Valid() && i < j < |r.events| && r.events[i] == Write && r.events[j] == Begin
    ensures r.states[j + 1].lastRead.Some?
    ensures r.states[i].lastRead.Some? ==> r.states[j + 1].lastRead.value > r.states[i].lastRead.value
  {
    assert r.StepAt(i) && r.StepAt(j);
    FileGrows(r, i + 1, j);
    NothingUnwritten(r, i);
  }

  lemma {:induction false} NothingUnwritten(r: Run, i: nat)
    requires r.Valid() && i < |r.states|
    ensures r.states[i].lastRead.Some? ==> r.states[i].lastRead.value <= r.states[i].file
  {
    if i > 0 {
      NothingUnwritten(r, i - 1);
      assert r.StepAt(i - 1);
    }
  }

  /** A scheduled update is never stuck: it can begin, at once or when the read in progress has finished. */
  lemma {:induction false} UpdateCanBegin(s: State)
    requires s.pending && !s.stopped
    ensures if s.busy then Enabled(s, Finish) && Enabled(Apply(s, Finish), Begin) else Enabled(s, Begin)
  {
  }

  /** No read without a reload: between the starts of two reads there was one. */
  lemma {:induction false} EveryReadIsAsked(r: Run, i: nat, j: nat)
    requires r.Valid() && i < j < |r.events| && r.events[i] == Begin && r.events[j] == Begin
    ensures exists m :: i < m < j && r.events[m] == Reload
  {
    assert r.StepAt(i) && r.StepAt(j);
    if forall m :: i < m < j ==> r.events[m] != Reload {
      StaysIdle(r, i, j);
    }
  }

  lemma {:induction false} StaysIdle(r: Run, i: nat, j: nat)
    requires r.Valid() && i < j < |r.states| && r.events[i] == Begin && forall m :: i < m < j ==> r.events[m] != Reload
    ensures !r.states[j].pending
  {
    assert r.StepAt(j - 1);
    if j > i + 1 {
      StaysIdle(r, i, j - 1);
    }
  }

  /** The channel itself. */
  class Queue {
    var length: nat       // messages in updateChan, whose capacity is one

    ghost predicate Valid()
      reads this
    {
      length <= 1
    }

    /** The queue stands for the pending flag of the protocol. */
    ghost predicate Represents(s: State)
      reads this
    {
      s.pending <==> length == 1
    }

    constructor ()
      ensures Valid() && length == 0
    {
      length := 0;
    }

    /** Reload: sends if there is room, and otherwise leaves the update that is already scheduled. */
    method Reload() returns (scheduled: bool)
      requires Valid()
      modifies this
      ensures Valid() && length == 1 && scheduled == (old(length) == 0)
      ensures forall s :: old(Represents(s)) ==> Represents(Apply(s, Event.Reload))
    {
      scheduled := length < 1;
      if scheduled {
        length := length + 1;
      }
    }

    /** The receive in run. */
    method Take() returns (ok: bool)
      requires Valid()
      modifies this
      ensures Valid() && length == 0 && ok == (old(length) == 1)
      ensures forall s :: old(Represents(s)) && Enabled(s, Begin) ==> ok && Represents(Apply(s, Begin))
    {
      ok := length == 1;
      length := 0;
    }
  }
}
