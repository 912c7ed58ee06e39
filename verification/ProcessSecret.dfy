/**
 The process secret: a GUID created on first use under a double-checked lock, as a state machine
 of any number of threads calling GetProcessSecret.
 */
module ProcessSecret {
  import opened Common

  type Guid = nat

  datatype Pc =
    | Idle
    | TestUnlocked                       // the first test of s_fSecretInit
    | Acquire                            // about to take s_SecretLock
    | TestLocked                         // the second test
    | Creating                           // about to call CoCreateGuid
    | Marking                            // about to set s_fSecretInit
    | Releasing                          // about to leave the lock
    | TestResult                         // the test after the lock
    | Copying                            // about to read the GUID for the caller
    | Returned(delivered: Option<Guid>)

  datatype Thread = Thread(pc: Pc, succeeded: bool)

  // `made` records every GUID that a successful CoCreateGuid delivered.
  datatype State = State(guid: Guid, ready: bool, owner: Option<nat>, threads: seq<Thread>, made: seq<Guid>) {
    function At(i: nat, pc: Pc): State
      requires i < |threads|
    {
      this.(threads := threads[i := threads[i].(pc := pc)])
    }
  }

  // Which thread runs and, if it creates the GUID, whether that succeeds and what is written.
  datatype Choice = Choice(thread: nat, succeeds: bool, written: Guid)

  function Step(s: State, c: Choice): (s': State)
    ensures |s'.threads| == |s.threads|
  {
    if c.thread >= |s.threads| then s
    else
      var i := c.thread;
      match s.threads[i].pc
      case Idle | Returned(_) => s.(threads := s.threads[i := Thread(TestUnlocked, true)])
      case TestUnlocked => s.At(i, if s.ready then TestResult else Acquire)
      case Acquire => if s.owner == None then s.(owner := Some(i)).At(i, TestLocked) else s
      case TestLocked => s.At(i, if s.ready then Releasing else Creating)
      case Creating =>
        if c.succeeds then s.(guid := c.written, made := s.made + [c.written]).At(i, Marking)
        else s.(guid := c.written, threads := s.threads[i := Thread(Releasing, false)])
      case Marking => s.(ready := true).At(i, Releasing)
      case Releasing => s.(owner := None).At(i, TestResult)
      case TestResult => s.At(i, if s.ready then Copying else Returned(None))
      case Copying => s.At(i, Returned(Some(s.guid)))
  }

  function Start(n: nat): State {
    State(0, false, None, seq(n, _ => Thread(Idle, true)), [])
  }

  function RunFrom(s: State, schedule: seq<Choice>): (s': State)
    ensures |s'.threads| == |s.threads|
  {
    if schedule == [] then s else Step(RunFrom(s, schedule[..|schedule| - 1]), schedule[|schedule| - 1])
  }

  function Run(n: nat, schedule: seq<Choice>): (s: State)
    ensures |s.threads| == n
  {
    RunFrom(Start(n), schedule)
  }

  predicate HoldsLock(t: Thread) {
    t.pc in {TestLocked, Creating, Marking, Releasing}
  }

  // What each thread relies on at its place in the code.
  predicate ThreadOk(s: State, i: nat)
    requires i < |s.threads|
  {
    var t := s.threads[i];
    && (HoldsLock(t) <==> s.owner == Some(i))
    && (t.pc == Creating ==> !s.ready && s.made == [])
    && (t.pc == Marking ==> !s.ready && s.made == [s.guid])
    && (t.pc in {Releasing, TestResult} && t.succeeded ==> s.ready)
    && (t.pc == Copying ==> s.ready)
    && (t.pc.Returned? && t.succeeded ==> t.pc.delivered.Some?)
    && (t.pc.Returned? && t.pc.delivered.Some? ==> s.ready && t.pc.delivered.value == s.guid)
  }

  predicate Inv(s: State) {
    && (s.ready ==> s.made == [s.guid])
    && (s.owner.Some? ==> s.owner.value < |s.threads|)
    && (!s.ready && s.made != [] ==> s.owner.Some? && s.threads[s.owner.value].pc == Marking)
    && forall i :: 0 <= i < |s.threads| ==> ThreadOk(s, i)
  }

  lemma StepKeepsThreadOk(s: State, c: Choice, i: nat)
    requires Inv(s) && i < |s.threads|
    ensures ThreadOk(Step(s, c), i)
  {
    if c.thread < |s.threads| {
      assert ThreadOk(s, c.thread) && ThreadOk(s, i);
    }
  }

  lemma StepKeepsInv(s: State, c: Choice)
    requires Inv(s)
    ensures Inv(Step(s, c))
  {
    forall i | 0 <= i < |s.threads| ensures ThreadOk(Step(s, c), i) {
      StepKeepsThreadOk(s, c, i);
    }
    if c.thread < |s.threads| { assert ThreadOk(s, c.thread); }
    if s.owner.Some? { assert ThreadOk(s, s.owner.value); }
  }

  lemma {:induction false} RunKeepsInv(n: nat, schedule: seq<Choice>)
    ensures Inv(Run(n, schedule))
  {
    if schedule != [] {
      RunKeepsInv(n, schedule[..|schedule| - 1]);
      StepKeepsInv(Run(n, schedule[..|schedule| - 1]), schedule[|schedule| - 1]);
    }
  }

  /** In every interleaving, with creation failing and being retried any number of times, at most
      one GUID is ever created. */
  lemma CreatedAtMostOnce(n: nat, schedule: seq<Choice>)
    ensures |Run(n, schedule).made| <= 1
  {
    RunKeepsInv(n, schedule);
    var s := Run(n, schedule);
    if s.owner.Some? { assert ThreadOk(s, s.owner.value); }
  }

  /** Every call that reports success has delivered that GUID. */
  lemma SuccessDeliversTheSecret(n: nat, schedule: seq<Choice>, i: nat)
    requires i < n
    ensures var s := Run(n, schedule);
      s.threads[i].pc.Returned? && s.threads[i].succeeded ==>
        s.threads[i].pc.delivered.Some? && s.made == [s.threads[i].pc.delivered.value]
  {
    RunKeepsInv(n, schedule);
    assert ThreadOk(Run(n, schedule), i);
  }

  /** Whatever a call delivers is the one secret, even when the call itself reports the failure of
      its own attempt and another thread has created the secret in the meantime. */
  lemma DeliveredIsTheSecret(n: nat, schedule: seq<Choice>, i: nat)
    requires i < n
    ensures var s := Run(n, schedule);
      s.threads[i].pc.Returned? && s.threads[i].pc.delivered.Some? ==>
        s.made == [s.threads[i].pc.delivered.value]
  {
    RunKeepsInv(n, schedule);
    assert ThreadOk(Run(n, schedule), i);
  }

  // Every creation that the thread attempts in the schedule succeeds.
  predicate Granted(schedule: seq<Choice>, i: nat) {
    forall c :: c in schedule && c.thread == i ==> c.succeeds
  }

  /** A call fails only by its own creation: a thread none of whose creations fails has not failed, whatever the
      others do, from any state on. */
  lemma {:induction false} FailsOnlyItself(s: State, schedule: seq<Choice>, i: nat)
    requires i < |s.threads| && s.threads[i].succeeded && Granted(schedule, i)
    ensures RunFrom(s, schedule).threads[i].succeeded
  {
    if schedule != [] {
      var m := |schedule| - 1;
      assert schedule[m] in schedule && forall c :: c in schedule[..m] ==> c in schedule;
      hide Step;
      FailsOnlyItself(s, schedule[..m], i);
      StepKeepsSuccess(RunFrom(s, schedule[..m]), schedule[m], i);
    }
  }

  lemma StepKeepsSuccess(s: State, c: Choice, i: nat)
    requires i < |s.threads| && s.threads[i].succeeded && (c.thread == i ==> c.succeeds)
    ensures Step(s, c).threads[i].succeeded
  {
  }

  /** When every creation of a thread succeeds, each of its calls that has returned delivered the secret. */
  lemma GrantedDelivers(n: nat, schedule: seq<Choice>, i: nat)
    requires i < n && Granted(schedule, i)
    ensures var s := Run(n, schedule);
      s.threads[i].pc.Returned? ==> s.threads[i].pc.delivered.Some? && s.made == [s.threads[i].pc.delivered.value]
  {
    FailsOnlyItself(Start(n), schedule, i);
    SuccessDeliversTheSecret(n, schedule, i);
  }

  /** Once there is a secret, it stays the secret, whatever any thread does. */
  lemma {:induction false} SecretStays(s: State, schedule: seq<Choice>)
    requires Inv(s) && s.ready
    ensures var r := RunFrom(s, schedule); Inv(r) && r.ready && r.guid == s.guid && r.made == s.made
  {
    if schedule != [] {
      var m := |schedule| - 1;
      var r := RunFrom(s, schedule[..m]);
      SecretStays(s, schedule[..m]);
      StepKeepsInv(r, schedule[m]);
      if schedule[m].thread < |r.threads| { assert ThreadOk(r, schedule[m].thread); }
    }
  }

  predicate BetweenCalls(pc: Pc) {
    pc == Idle || pc.Returned?
  }

  // The same step n times over.
  function Steps(s: State, c: Choice, n: nat): (r: State)
    ensures |r.threads| == |s.threads|
  {
    if n == 0 then s else Step(Steps(s, c, n - 1), c)
  }

  lemma {:induction false} StepsIsRun(s: State, c: Choice, n: nat)
    ensures RunFrom(s, seq(n, _ => c)) == Steps(s, c, n)
  {
    if n > 0 {
      StepsIsRun(s, c, n - 1);
      assert seq(n, _ => c)[..n - 1] == seq(n - 1, _ => c);
    }
  }

  /** A call that begins when the secret is there delivers it after four steps of its own, also while another
      thread holds the lock. */
  lemma ReadyCallDelivers(s: State, i: nat, c: Choice)
    requires i < |s.threads| && s.ready && BetweenCalls(s.threads[i].pc) && c.thread == i
    ensures RunFrom(s, seq(4, _ => c)) == s.(threads := s.threads[i := Thread(Returned(Some(s.guid)), true)])
  {
    StepsIsRun(s, c, 4);
    ReadyAlone(s, i, c);
  }

  lemma ReadyAlone(s: State, i: nat, c: Choice)
    requires i < |s.threads| && s.ready && BetweenCalls(s.threads[i].pc) && c.thread == i
    ensures Steps(s, c, 4) == s.(threads := s.threads[i := Thread(Returned(Some(s.guid)), true)])
  {
    assert Steps(s, c, 1) == s.(threads := s.threads[i := Thread(TestUnlocked, true)]);
    assert Steps(s, c, 2) == s.(threads := s.threads[i := Thread(TestResult, true)]);
    assert Steps(s, c, 3) == s.(threads := s.threads[i := Thread(Copying, true)]);
  }

  /** A call that is past its own attempt, also one that failed, delivers the secret if there is one by then. */
  lemma LateCallDelivers(s: State, i: nat, c: Choice)
    requires i < |s.threads| && s.ready && s.threads[i].pc == TestResult && c.thread == i
    ensures RunFrom(s, seq(2, _ => c))
         == s.(threads := s.threads[i := Thread(Returned(Some(s.guid)), s.threads[i].succeeded)])
  {
    StepsIsRun(s, c, 2);
    assert Steps(s, c, 1) == s.(threads := s.threads[i := Thread(Copying, s.threads[i].succeeded)]);
  }

  /** A call that runs alone before there is a secret, with the lock free: with its creation granted it delivers the
      GUID written, which is the secret from then on; otherwise it delivers nothing and reports the failure. */
  lemma FirstCallAlone(s: State, i: nat, c: Choice)
    requires i < |s.threads| && !s.ready && s.owner == None && BetweenCalls(s.threads[i].pc) && c.thread == i
    ensures c.succeeds ==>
      RunFrom(s, seq(9, _ => c)) ==
      State(c.written, true, None, s.threads[i := Thread(Returned(Some(c.written)), true)], s.made + [c.written])
    ensures !c.succeeds ==>
      RunFrom(s, seq(7, _ => c)) ==
      State(c.written, false, None, s.threads[i := Thread(Returned(None), false)], s.made)
  {
    hide Steps, Step, RunFrom;
    var locked := Steps(s, c, 4);
    LockAlone(s, i, c);
    if c.succeeds {
      StepsIsRun(s, c, 9);
      CreateAlone(locked, i, c);
      StepsTwice(s, c, 4, 5);
    } else {
      StepsIsRun(s, c, 7);
      FailAlone(locked, i, c);
      StepsTwice(s, c, 4, 3);
    }
  }

  lemma StepsUnfold(s: State, c: Choice, n: nat)
    ensures Steps(s, c, n) == if n == 0 then s else Step(Steps(s, c, n - 1), c)
  {
  }

  lemma {:induction false} StepsTwice(s: State, c: Choice, a: nat, b: nat)
    ensures Steps(s, c, a + b) == Steps(Steps(s, c, a), c, b)
  {
    hide Step, Steps;
    StepsUnfold(Steps(s, c, a), c, b);
    if b > 0 {
      StepsTwice(s, c, a, b - 1);
      StepsUnfold(s, c, a + b);
      assert a + b - 1 == a + (b - 1);
    }
  }

  lemma CreateAlone(s: State, i: nat, c: Choice)
    requires i < |s.threads| && s.threads[i] == Thread(Creating, true) && c.thread == i && c.succeeds
    ensures Steps(s, c, 5) == State(c.written, true, None, s.threads[i := Thread(Returned(Some(c.written)), true)],
                                    s.made + [c.written])
  {
    var made := s.made + [c.written];
    assert Steps(s, c, 1) == State(c.written, s.ready, s.owner, s.threads[i := Thread(Marking, true)], made);
    assert Steps(s, c, 2) == State(c.written, true, s.owner, s.threads[i := Thread(Releasing, true)], made);
    assert Steps(s, c, 3) == State(c.written, true, None, s.threads[i := Thread(TestResult, true)], made);
    assert Steps(s, c, 4) == State(c.written, true, None, s.threads[i := Thread(Copying, true)], made);
  }

  lemma FailAlone(s: State, i: nat, c: Choice)
    requires i < |s.threads| && s.threads[i] == Thread(Creating, true) && !s.ready && c.thread == i && !c.succeeds
    ensures Steps(s, c, 3) == State(c.written, false, None, s.threads[i := Thread(Returned(None), false)], s.made)
  {
    assert Steps(s, c, 1) == State(c.written, false, s.owner, s.threads[i := Thread(Releasing, false)], s.made);
    assert Steps(s, c, 2) == State(c.written, false, None, s.threads[i := Thread(TestResult, false)], s.made);
  }

  lemma LockAlone(s: State, i: nat, c: Choice)
    requires i < |s.threads| && !s.ready && s.owner == None && BetweenCalls(s.threads[i].pc) && c.thread == i
    ensures Steps(s, c, 4) == s.(owner := Some(i), threads := s.threads[i := Thread(Creating, true)])
  {
    assert Steps(s, c, 1) == s.(threads := s.threads[i := Thread(TestUnlocked, true)]);
    assert Steps(s, c, 2) == s.(threads := s.threads[i := Thread(Acquire, true)]);
    assert Steps(s, c, 3) == s.(owner := Some(i), threads := s.threads[i := Thread(TestLocked, true)]);
  }

  datatype Hresult = S_OK | E_INVALIDARG | CreateFailed

  // VerifyMatchingSecret, given how its call of GetProcessSecret ended.
  function VerifyMatchingSecret(t: Thread, outside: Guid): Hresult
    requires t.pc.Returned? && (t.succeeded ==> t.pc.delivered.Some?)
  {
    if !t.succeeded then CreateFailed
    else if t.pc.delivered.value == outside then S_OK else E_INVALIDARG
  }

  /** Verification accepts exactly the secret of this process. */
  lemma VerifiesExactlyTheSecret(n: nat, schedule: seq<Choice>, i: nat, outside: Guid)
    requires i < n && Run(n, schedule).threads[i].pc.Returned?
    ensures var s := Run(n, schedule);
      && (s.threads[i].succeeded ==> s.threads[i].pc.delivered.Some?)
      && (VerifyMatchingSecret(s.threads[i], outside) == S_OK <==> s.threads[i].succeeded && s.made == [outside])
      && (VerifyMatchingSecret(s.threads[i], outside) == E_INVALIDARG <==>
            s.threads[i].succeeded && s.made != [outside])
  {
    SuccessDeliversTheSecret(n, schedule, i);
  }
}
