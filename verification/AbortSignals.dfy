/**
 Abort-aware waiting: any number of sleeps and job races sharing abort signals.

 A sleep holds a timer and, if it was given a signal, a listener on it; a race holds only a
 listener. The class invariant says these are held by the unsettled waiters and no others.
 */
module AbortSignals {
  import opened Wrappers
  import opened Errors
  import opened Sequences
  import opened AbortRace

  type SignalId = nat
  type WaiterId = nat

  datatype Outcome = Resolved | Rejected(e: Thrown)

  datatype Waiter = Waiter(isSleep: bool, signal: Option<SignalId>, outcome: Option<Outcome>)

  datatype Listener = Listener(signal: SignalId, waiter: WaiterId)

  /** A sleep passes an error reason on unchanged and wraps a text. */
  function SleepRejection(reason: Reason): Thrown {
    match reason
    case ErrorReason(e) => e
    case TextReason(s) => JobCancelledError(s)
    case OtherReason => JobCancelledError("aborted")
  }

  function RejectionOf(isSleep: bool, reason: Reason): Thrown {
    if isSleep then SleepRejection(reason) else ErrorOf(AbortError(false, reason, 0))
  }

  /** Sleeps and races on one signal reject with the same error, unless its reason is neither an error nor a text. */
  lemma SleepAndRaceAgreeIff(reason: Reason)
    ensures RejectionOf(true, reason) == RejectionOf(false, reason) <==> !reason.OtherReason?
    ensures forall timeoutMs: nat ::
              Decides(WorkerAborts(reason), timeoutMs) == Err(Cancelled(RejectionOf(false, reason)))
    ensures reason.OtherReason? ==> RejectionOf(true, reason) == JobCancelledError("aborted")
  {
    assert |"aborted"| != |"worker cancelled the job"|;
  }

  /** What aborting `signal` does to a waiter: it rejects those waiting on it, and touches no other. */
  function Aborted(w: Waiter, signal: SignalId, reason: Reason): Waiter {
    if w.signal == Some(signal) && w.outcome.None?
    then w.(outcome := Some(Rejected(RejectionOf(w.isSleep, reason))))
    else w
  }

  predicate SleepRejectedOn(w: Waiter, signal: SignalId) {
    w.isSleep && w.signal == Some(signal) && w.outcome.Some? && w.outcome.value.Rejected?
  }

  class Signals {
    var aborted: map<SignalId, Reason>
    var listeners: seq<Listener>   // in registration order
    var timers: set<WaiterId>
    var waiters: map<WaiterId, Waiter>

    constructor ()
      ensures Valid() && waiters == map[] && aborted == map[]
    {
      aborted, listeners, timers, waiters := map[], [], {}, map[];
    }

    ghost predicate Listens(l: Listener)
      reads this
    {
      l.waiter in waiters && waiters[l.waiter].outcome.None? && waiters[l.waiter].signal == Some(l.signal)
    }

    /** Listeners and timers are held by the unsettled waiters, and by no others. */
    ghost predicate Wired()
      reads this
    {
      && Distinct(listeners)
      && (forall l :: l in listeners <==> Listens(l))
      && (forall w :: w in timers <==> w in waiters && waiters[w].isSleep && waiters[w].outcome.None?)
      && (forall l :: l in listeners ==> l.signal !in aborted)
    }

    ghost predicate Valid()
      reads this
    {
      Wired() && forall w :: w in waiters && waiters[w].isSleep ==> RejectedBySignal(waiters[w])
    }

    /** A sleep is rejected only by its signal, with that signal's reason. */
    predicate RejectedBySignal(sleep: Waiter)
      reads this
    {
      sleep.outcome.Some? && sleep.outcome.value.Rejected? ==>
        && sleep.signal.Some? && sleep.signal.value in aborted
        && sleep.outcome.value.e == SleepRejection(aborted[sleep.signal.value])
    }

    /** `sleep(ms, signal)` up to its suspension; `isSleep` false is `raceWithAbort`. */
    method Wait(w: WaiterId, isSleep: bool, signal: Option<SignalId>)
      requires Valid() && w !in waiters
      modifies this
      ensures Valid() && aborted == old(aborted)
      ensures waiters == old(waiters)[w := Waiter(isSleep, signal,
                if signal.Some? && signal.value in aborted
                then Some(Rejected(RejectionOf(isSleep, aborted[signal.value])))
                else None)]
    {
      if signal.Some? && signal.value in aborted {
        var rejection := RejectionOf(isSleep, aborted[signal.value]);
        waiters := waiters[w := Waiter(isSleep, signal, Some(Rejected(rejection)))];
        return;
      }
      assert signal.Some? ==> !Listens(Listener(signal.value, w));
      waiters := waiters[w := Waiter(isSleep, signal, None)];
      if isSleep {
        timers := timers + {w};
      }
      if signal.Some? {
        listeners := listeners + [Listener(signal.value, w)];
      }
    }

    /** The timer of a sleep fires, or the work of a race settles. */
    method OnSettled(w: WaiterId, outcome: Outcome)
      requires Valid() && w in waiters && waiters[w].outcome.None?
      requires waiters[w].isSleep ==> outcome == Resolved
      modifies this
      ensures Valid() && aborted == old(aborted)
      ensures waiters == old(waiters)[w := old(waiters)[w].(outcome := Some(outcome))]
    {
      timers := timers - {w};
      if waiters[w].signal.Some? {
        RemoveListener(Listener(waiters[w].signal.value, w));
      }
      waiters := waiters[w := waiters[w].(outcome := Some(outcome))];
    }

    method RemoveListener(l: Listener)
      requires Distinct(listeners)
      modifies this`listeners
      ensures Distinct(listeners)
      ensures forall other :: other in listeners <==> other in old(listeners) && other != l
    {
      WithoutRemoves(listeners, l);
      listeners := Without(listeners, l);
    }

    method Abort(signal: SignalId, reason: Reason)
      requires Valid()
      modifies this
      ensures Valid()
      ensures aborted == if signal in old(aborted) then old(aborted) else old(aborted)[signal := reason]
      ensures waiters.Keys == old(waiters).Keys
      ensures forall w :: w in waiters ==>
                var was := old(waiters)[w];
                if signal !in old(aborted) && was.signal == Some(signal) && was.outcome.None?
                then waiters[w] == Waiter(was.isSleep, was.signal, Some(Rejected(RejectionOf(was.isSleep, reason))))
                else waiters[w] == was
    {
      if signal in aborted {
        return;
      }
      assert forall w :: w in waiters && Listener(signal, w) !in listeners ==> !Listens(Listener(signal, w));
      Dispatch(signal, reason);
      aborted := aborted[signal := reason];
    }

    /** The abort event reaches the listeners registered when it fired, and each of them runs once. */
    method Dispatch(signal: SignalId, reason: Reason)
      requires Wired()
      modifies this
      ensures Wired() && aborted == old(aborted)
      ensures forall l :: l in listeners <==> l in old(listeners) && l.signal != signal
      ensures waiters.Keys == old(waiters).Keys
      ensures forall w :: w in waiters ==>
                waiters[w] == if Listener(signal, w) in old(listeners)
                              then Aborted(old(waiters)[w], signal, reason) else old(waiters)[w]
    {
      var snapshot := listeners;
      for i := 0 to |snapshot|
        invariant Wired() && aborted == old(aborted)
        invariant forall l :: l in listeners <==> l in snapshot && (l.signal != signal || l !in snapshot[..i])
        invariant waiters.Keys == old(waiters).Keys
        invariant forall w :: w in waiters ==>
                    waiters[w] == if Listener(signal, w) in snapshot[..i]
                                  then Aborted(old(waiters)[w], signal, reason) else old(waiters)[w]
      {
        var l := snapshot[i];
        assert l !in snapshot[..i] && snapshot[..i + 1] == snapshot[..i] + [l];
        if l.signal == signal {
          assert Listens(l);
          OnAbort(l, reason);
        }
      }
      assert snapshot[..|snapshot|] == snapshot;
    }

    method OnAbort(l: Listener, reason: Reason)
      requires Wired() && l in listeners
      modifies this
      ensures Wired() && aborted == old(aborted)
      ensures forall other :: other in listeners <==> other in old(listeners) && other != l
      ensures waiters == old(waiters)[l.waiter := Aborted(old(waiters)[l.waiter], l.signal, reason)]
    {
      RemoveListener(l);
      timers := timers - {l.waiter};
      waiters := waiters[l.waiter := Aborted(waiters[l.waiter], l.signal, reason)];
    }

    /**
     Called between stages of long work. It throws exactly what every sleep on that signal that
     was rejected was rejected with; when it throws nothing is left waiting on the signal, and
     when it does not no sleep on it has been rejected.
     */
    method ThrowIfAborted(signal: SignalId) returns (thrown: Option<Thrown>)
      requires Valid()
      ensures forall w :: w in waiters && SleepRejectedOn(waiters[w], signal) ==>
                thrown == Some(waiters[w].outcome.value.e)
      ensures thrown.Some? ==>
                && signal in aborted && thrown.value == RejectionOf(true, aborted[signal])
                && forall w :: w in waiters && waiters[w].signal == Some(signal) ==> waiters[w].outcome.Some?
      ensures thrown.None? ==> signal !in aborted
    {
      assert forall w :: w in waiters && waiters[w].signal == Some(signal) && waiters[w].outcome.None? ==>
          Listens(Listener(signal, w));
      thrown := if signal in aborted then Some(SleepRejection(aborted[signal])) else None;
    }
  }

  /** When every waiter has settled, no listener and no timer is left on any signal. */
  lemma NothingLeaks(s: Signals)
    requires s.Valid()
    requires forall w :: w in s.waiters ==> s.waiters[w].outcome.Some?
    ensures s.listeners == [] && s.timers == {}
  {
    assert s.listeners != [] ==> s.Listens(s.listeners[0]);
  }
}
