/** The cancellation signal shared by a run's tasks, as a state machine over the atomic steps
    of any number of cancellers and waiters.

    `notify_waiters` wakes exactly the waits that were created before it.  The machine counts
    notifications; a wait remembers the count at its creation and is woken once it has grown. */
module Cancellation {

  /** `cancel`: swap the flag; whoever found it clear then notifies. */
  datatype Canceller = Fresh | Winner | Finished

  /** `cancelled`: create the wait, look at the flag, park until woken, start over. */
  datatype Waiter = Looping | Created(seen: nat) | Parked(seen: nat) | Returned

  datatype State = State(flag: bool, notifications: nat, cancellers: seq<Canceller>, waiters: seq<Waiter>)

  ghost predicate Init(s: State) {
    && !s.flag
    && s.notifications == 0
    && (forall i :: 0 <= i < |s.cancellers| ==> s.cancellers[i] == Fresh)
    && (forall i :: 0 <= i < |s.waiters| ==> s.waiters[i] == Looping)
  }

  /** The step canceller `i` takes next. */
  ghost predicate CancelStep(s: State, t: State, i: nat) {
    && i < |s.cancellers|
    && match s.cancellers[i]
       case Fresh =>
         t == s.(flag := true, cancellers := s.cancellers[i := if s.flag then Finished else Winner])
       case Winner =>
         t == s.(notifications := s.notifications + 1, cancellers := s.cancellers[i := Finished])
       case Finished => false
  }

  /** The step waiter `i` takes next; a parked waiter moves only once it has been notified. */
  ghost predicate WaitStep(s: State, t: State, i: nat) {
    && i < |s.waiters|
    && match s.waiters[i]
       case Looping => t == s.(waiters := s.waiters[i := Created(s.notifications)])
       case Created(seen) => t == s.(waiters := s.waiters[i := if s.flag then Returned else Parked(seen)])
       case Parked(seen) => seen < s.notifications && t == s.(waiters := s.waiters[i := Looping])
       case Returned => false
  }

  ghost predicate Next(s: State, t: State) {
    (exists i :: CancelStep(s, t, i)) || (exists i :: WaitStep(s, t, i))
  }

  /** Any interleaving, from the start. */
  ghost predicate IsRun(run: seq<State>) {
    && run != []
    && Init(run[0])
    && forall k :: 0 <= k < |run| - 1 ==> Next(run[k], run[k + 1])
  }

  ghost predicate Inv(s: State) {
    // Nobody notifies before the flag is set, and at most one canceller ever will.
    && (s.notifications > 0 ==> s.flag)
    && s.notifications <= 1
    && (forall i :: 0 <= i < |s.cancellers| && s.cancellers[i] != Fresh ==> s.flag)
    && (forall i :: 0 <= i < |s.cancellers| && s.cancellers[i] == Winner ==> s.notifications == 0)
    && (forall i, j :: 0 <= i < j < |s.cancellers| ==> !(s.cancellers[i] == Winner && s.cancellers[j] == Winner))
    // Once set, the flag has a winner until the notification is out.
    && (s.flag && s.notifications == 0 ==> exists i :: 0 <= i < |s.cancellers| && s.cancellers[i] == Winner)
    // Waits are created before the notification they could miss.
    && (forall i :: 0 <= i < |s.waiters| && s.waiters[i].Created? ==> s.waiters[i].seen <= s.notifications)
    && (forall i :: 0 <= i < |s.waiters| && s.waiters[i].Parked? ==> s.waiters[i].seen == 0)
    && (forall i :: 0 <= i < |s.waiters| && s.waiters[i] == Returned ==> s.flag)
  }

  lemma InitInv(s: State)
    requires Init(s)
    ensures Inv(s)
  {
  }

  lemma CancelKeepsInv(s: State, t: State, i: nat)
    requires Inv(s) && CancelStep(s, t, i)
    ensures Inv(t)
  {
    if s.cancellers[i] == Fresh {
      if s.flag {
        if s.notifications == 0 {
          var w :| 0 <= w < |s.cancellers| && s.cancellers[w] == Winner;
          assert t.cancellers[w] == Winner;
        }
      } else {
        assert t.cancellers[i] == Winner;
        assert forall j :: 0 <= j < |s.cancellers| ==> s.cancellers[j] == Fresh;
      }
    }
  }

  lemma WaitKeepsInv(s: State, t: State, i: nat)
    requires Inv(s) && WaitStep(s, t, i)
    ensures Inv(t)
  {
  }

  lemma NextKeepsInv(s: State, t: State)
    requires Inv(s) && Next(s, t)
    ensures Inv(t)
  {
    if exists i :: CancelStep(s, t, i) {
      var i :| CancelStep(s, t, i);
      CancelKeepsInv(s, t, i);
    } else {
      var i :| WaitStep(s, t, i);
      WaitKeepsInv(s, t, i);
    }
  }

  lemma {:induction false} RunInv(run: seq<State>, k: nat)
    requires IsRun(run) && k < |run|
    ensures Inv(run[k])
  {
    if k == 0 {
      InitInv(run[0]);
    } else {
      RunInv(run, k - 1);
      assert Next(run[k - 1], run[k - 1 + 1]);
      NextKeepsInv(run[k - 1], run[k]);
    }
  }

  // ----- what every interleaving guarantees

  /** No wake-up is lost: once the notification is out, every parked waiter has been woken by it,
      and no waiter returns unless cancellation was requested. */
  lemma NoLostWakeup(run: seq<State>, k: nat, i: nat)
    requires IsRun(run) && k < |run| && i < |run[k].waiters|
    ensures run[k].waiters[i] == Returned ==> run[k].flag
    ensures run[k].notifications > 0 && run[k].waiters[i].Parked? ==> run[k].waiters[i].seen < run[k].notifications
  {
    RunInv(run, k);
  }

  /** Repeated requests are harmless: there is exactly one notification, sent by the single
      canceller that found the flag clear, and it is out once every canceller has finished. */
  lemma ExactlyOneNotification(run: seq<State>, k: nat, i: nat)
    requires IsRun(run) && k < |run| && i < |run[k].cancellers|
    requires forall j :: 0 <= j < |run[k].cancellers| ==> run[k].cancellers[j] == Finished
    ensures run[k].flag && run[k].notifications == 1
  {
    RunInv(run, k);
    assert run[k].cancellers[i] == Finished;
  }

  /** The flag never clears. */
  lemma {:induction false} FlagStays(run: seq<State>, k: nat, m: nat)
    requires IsRun(run) && k <= m < |run| && run[k].flag
    ensures run[m].flag
    decreases m - k
  {
    if k < m {
      assert Next(run[k], run[k + 1]);
      FlagStays(run, k + 1, m);
    }
  }

  /** How many of its own steps a waiter still needs once the notification is out. */
  ghost function StepsLeft(w: Waiter): nat {
    match w
    case Parked(_) => 3
    case Looping => 2
    case Created(_) => 1
    case Returned => 0
  }

  /** Once the notification is out, an unreturned waiter is never stuck. */
  lemma NeverStuck(run: seq<State>, k: nat, i: nat)
    requires IsRun(run) && k < |run| && i < |run[k].waiters| && run[k].notifications > 0
    ensures run[k].waiters[i] != Returned ==> exists t :: WaitStep(run[k], t, i)
  {
    RunInv(run, k);
    var s := run[k];
    match s.waiters[i]
    case Looping => assert WaitStep(s, s.(waiters := s.waiters[i := Created(s.notifications)]), i);
    case Created(seen) => assert WaitStep(s, s.(waiters := s.waiters[i := Returned]), i);
    case Parked(seen) => assert WaitStep(s, s.(waiters := s.waiters[i := Looping]), i);
    case Returned =>
  }

  /** One step of anybody: the waiter stays where it is, or gets closer to returning. */
  lemma StepCloser(s: State, t: State, i: nat)
    requires Inv(s) && Next(s, t) && i < |s.waiters| && s.notifications > 0
    ensures i < |t.waiters| && t.notifications > 0
    ensures t.waiters[i] == s.waiters[i] || StepsLeft(t.waiters[i]) < StepsLeft(s.waiters[i])
  {
  }

  /** How many moves waiter `i` makes between states `k` and `m`. */
  ghost function Moves(run: seq<State>, i: nat, k: nat, m: nat): nat
    requires k <= m < |run| && forall j :: k <= j <= m ==> i < |run[j].waiters|
    decreases m
  {
    if k == m then 0 else Moves(run, i, k, m - 1) + if run[m].waiters[i] == run[m - 1].waiters[i] then 0 else 1
  }

  lemma {:induction false} SameWaiters(run: seq<State>, k: nat, m: nat)
    requires IsRun(run) && k <= m < |run|
    ensures |run[m].waiters| == |run[k].waiters|
    decreases m
  {
    if k < m {
      SameWaiters(run, k, m - 1);
      assert Next(run[m - 1], run[m - 1 + 1]);
    }
  }

  /** Under every schedule, three moves of its own after the notification make a waiter return. */
  lemma {:induction false} WaitersReturn(run: seq<State>, i: nat, k: nat, m: nat)
    requires IsRun(run) && k <= m < |run| && i < |run[k].waiters| && run[k].notifications > 0
    ensures forall j :: k <= j <= m ==> i < |run[j].waiters|
    ensures run[m].notifications > 0
    ensures StepsLeft(run[m].waiters[i]) + Moves(run, i, k, m) <= StepsLeft(run[k].waiters[i]) <= 3
    ensures Moves(run, i, k, m) == 3 ==> run[m].waiters[i] == Returned
    decreases m
  {
    hide Inv, Next;
    forall j | k <= j <= m
      ensures i < |run[j].waiters|
    {
      SameWaiters(run, k, j);
    }
    if k < m {
      WaitersReturn(run, i, k, m - 1);
      RunInv(run, m - 1);
      assert Next(run[m - 1], run[m - 1 + 1]);
      StepCloser(run[m - 1], run[m], i);
    }
  }
}
