/**
 Lock-free initialisation of the two catalog globals, as a state machine: any number of threads,
 one interlocked operation, one read of a global or one call of the creation helper at a time.
 */
module Catalog {
  import opened Common

  datatype Kind = Cat | Scm       // gpCatalog, gpCatalogSCM
  type Ref = nat                  // one created reference; numbered separately for each kind

  datatype Hresult = S_OK | E_OUTOFMEMORY | HelperFailed

  // What GetCatalogHelper does: FAILED(hr), success with a null pointer, or a new reference.
  datatype Outcome = Fails | ReturnsNull | Creates

  // Where a thread is. A Ref in the program counter is a reference the thread has to account for.
  datatype Pc =
    | Idle
    | TestCat | TestScm
    | Create(kind: Kind)
    | Store(kind: Kind, ref: Ref)    // before the compare-exchange
    | Discard(kind: Kind, ref: Ref)  // the exchange found the global set
    | Returned(hr: Hresult)
    | Take(kind: Kind)               // UninitializeCatalog, before the exchange with NULL
    | Drop(kind: Kind, ref: Ref)     // it took a reference out of the global
    | Uninitialized

  // `epoch` counts the exchanges of UninitializeCatalog seen when the current call began.
  datatype Thread = Thread(pc: Pc, epoch: nat)

  // One global with the account of its references.
  datatype Pool = Pool(global: Option<Ref>, created: nat, released: multiset<Ref>)

  datatype State = State(cat: Pool, scm: Pool, threads: seq<Thread>, epoch: nat) {
    function Of(k: Kind): Pool {
      if k == Cat then cat else scm
    }

    function With(k: Kind, p: Pool): State {
      if k == Cat then this.(cat := p) else this.(scm := p)
    }

    function At(i: nat, pc: Pc): State
      requires i < |threads|
    {
      this.(threads := threads[i := threads[i].(pc := pc)])
    }
  }

  // A scheduler decision: which thread runs, what the helper does if it is called, and whether a
  // thread that is between calls starts an initialisation or an uninitialisation.
  datatype Choice = Choice(thread: nat, outcome: Outcome, initialize: bool)

  // Where an initialising thread goes after the reference of kind k has been dealt with.
  function AfterStore(k: Kind): Pc {
    if k == Cat then Create(Scm) else Returned(S_OK)
  }

  function AfterTake(k: Kind): Pc {
    if k == Scm then Take(Cat) else Uninitialized
  }

  function Step(s: State, c: Choice): (s': State)
    ensures |s'.threads| == |s.threads|
  {
    if c.thread >= |s.threads| then s
    else
      var i := c.thread;
      match s.threads[i].pc
      case Idle | Returned(_) | Uninitialized =>
        s.(threads := s.threads[i := Thread(if c.initialize then TestCat else Take(Scm), s.epoch)])
      case TestCat => s.At(i, if s.cat.global.Some? then TestScm else Create(Cat))
      case TestScm => s.At(i, if s.scm.global.Some? then Returned(S_OK) else Create(Cat))
      case Create(k) =>
        (match c.outcome
         case Fails => s.At(i, Returned(HelperFailed))
         case ReturnsNull => s.At(i, Returned(E_OUTOFMEMORY))
         case Creates =>
           var p := s.Of(k);
           s.With(k, p.(created := p.created + 1)).At(i, Store(k, p.created)))
      case Store(k, r) =>
        var p := s.Of(k);
        if p.global.None? then s.With(k, p.(global := Some(r))).At(i, AfterStore(k))
        else s.At(i, Discard(k, r))
      case Discard(k, r) =>
        var p := s.Of(k);
        s.With(k, p.(released := p.released + multiset{r})).At(i, AfterStore(k))
      case Take(k) =>
        var p := s.Of(k);
        var s' := s.With(k, p.(global := None)).(epoch := s.epoch + 1);
        if p.global.Some? then s'.At(i, Drop(k, p.global.value)) else s'.At(i, AfterTake(k))
      case Drop(k, r) =>
        var p := s.Of(k);
        s.With(k, p.(released := p.released + multiset{r})).At(i, AfterTake(k))
  }

  function Run(s: State, schedule: seq<Choice>): (s': State)
    ensures |s'.threads| == |s.threads|
  {
    if schedule == [] then s else Step(Run(s, schedule[..|schedule| - 1]), schedule[|schedule| - 1])
  }

  // The reference of kind k that a thread holds.
  function Held(t: Thread, k: Kind): Option<Ref> {
    match t.pc
    case Store(kind, r) => if kind == k then Some(r) else None
    case Discard(kind, r) => if kind == k then Some(r) else None
    case Drop(kind, r) => if kind == k then Some(r) else None
    case _ => None
  }

  function One(b: bool): nat {
    if b then 1 else 0
  }

  // The number of threads that hold a reference of kind k, and that hold the reference r.
  function Holders(ts: seq<Thread>, k: Kind): nat {
    if ts == [] then 0 else Holders(ts[..|ts| - 1], k) + One(Held(ts[|ts| - 1], k).Some?)
  }

  function HoldersOf(ts: seq<Thread>, k: Kind, r: Ref): nat {
    if ts == [] then 0 else HoldersOf(ts[..|ts| - 1], k, r) + One(Held(ts[|ts| - 1], k) == Some(r))
  }

  // How often a reference occurs among the released ones, in the global and in the threads.
  function Places(s: State, k: Kind, r: Ref): nat {
    s.Of(k).released[r] + One(s.Of(k).global == Some(r)) + HoldersOf(s.threads, k, r)
  }

  // Every reference ever created is released, in the global or held by one thread: in exactly one
  // of these places, and there once. No other reference is anywhere.
  ghost predicate Conserved(s: State, k: Kind) {
    && s.Of(k).created == |s.Of(k).released| + One(s.Of(k).global.Some?) + Holders(s.threads, k)
    && forall r: Ref :: Places(s, k, r) == One(r < s.Of(k).created)
  }

  // The exchanges that an uninitialising thread has made at its place in the code.
  function Exchanges(pc: Pc): nat {
    match pc
    case Drop(Scm, _) | Take(Cat) => 1
    case Drop(Cat, _) | Uninitialized => 2
    case _ => 0
  }

  // What a thread may rely on while no uninitialisation has run since its call began.
  predicate ThreadOk(s: State, t: Thread) {
    && t.epoch + Exchanges(t.pc) <= s.epoch
    && (t.epoch == s.epoch ==>
          && (t.pc == TestScm || t.pc == Create(Scm) ==> s.cat.global.Some?)
          && ((t.pc.Store? || t.pc.Discard?) && (t.pc.kind == Scm || t.pc.Discard?) ==> s.cat.global.Some?)
          && (t.pc.Discard? ==> s.Of(t.pc.kind).global.Some?)
          && (t.pc == Returned(S_OK) ==> s.cat.global.Some? && s.scm.global.Some?))
  }

  ghost predicate Inv(s: State) {
    && Conserved(s, Cat) && Conserved(s, Scm)
    && forall i :: 0 <= i < |s.threads| ==> ThreadOk(s, s.threads[i])
  }

  function Start(n: nat): State {
    State(Pool(None, 0, multiset{}), Pool(None, 0, multiset{}), seq(n, _ => Thread(Idle, 0)), 0)
  }

  lemma {:induction false} HoldersAfterUpdate(ts: seq<Thread>, i: nat, t: Thread, k: Kind)
    requires i < |ts|
    ensures Holders(ts[i := t], k) + One(Held(ts[i], k).Some?) == Holders(ts, k) + One(Held(t, k).Some?)
    decreases |ts|
  {
    var n := |ts| - 1;
    if i == n {
      assert ts[i := t][..n] == ts[..n];
    } else {
      HoldersAfterUpdate(ts[..n], i, t, k);
      assert ts[i := t][..n] == ts[..n][i := t];
    }
  }

  lemma {:induction false} HoldersOfAfterUpdate(ts: seq<Thread>, i: nat, t: Thread, k: Kind, r: Ref)
    requires i < |ts|
    ensures HoldersOf(ts[i := t], k, r) + One(Held(ts[i], k) == Some(r))
         == HoldersOf(ts, k, r) + One(Held(t, k) == Some(r))
    decreases |ts|
  {
    var n := |ts| - 1;
    if i == n {
      assert ts[i := t][..n] == ts[..n];
    } else {
      HoldersOfAfterUpdate(ts[..n], i, t, k, r);
      assert ts[i := t][..n] == ts[..n][i := t];
    }
  }

  lemma {:induction false} NothingHeld(ts: seq<Thread>, k: Kind, r: Ref)
    requires forall i :: 0 <= i < |ts| ==> Held(ts[i], k) == None
    ensures Holders(ts, k) == 0 && HoldersOf(ts, k, r) == 0
  {
    if ts != [] { NothingHeld(ts[..|ts| - 1], k, r); }
  }

  // What one step does to the account of one kind and to what the moving thread holds of it:
  // nothing, a creation, a store, a release, or a take.
  predicate PoolStep(p: Pool, h: Option<Ref>, p': Pool, h': Option<Ref>) {
    || (p' == p && h' == h)
    || (h == None && h' == Some(p.created) && p' == p.(created := p.created + 1))
    || (h.Some? && h' == None && p.global == None && p' == p.(global := h))
    || (h.Some? && h' == None && p' == p.(released := p.released + multiset{h.value}))
    || (h == None && h' == p.global && p.global.Some? && p' == p.(global := None))
  }

  lemma StepMovesOne(s: State, c: Choice)
    requires c.thread < |s.threads|
    ensures Step(s, c).threads == s.threads[c.thread := Step(s, c).threads[c.thread]]
  {
    match s.threads[c.thread].pc
    case Create(_) =>
    case Store(_, _) =>
    case Take(_) =>
    case _ =>
  }

  lemma CreateIsPoolStep(s: State, c: Choice, k: Kind)
    requires c.thread < |s.threads| && s.threads[c.thread].pc.Create?
    ensures PoolStep(s.Of(k), Held(s.threads[c.thread], k), Step(s, c).Of(k), Held(Step(s, c).threads[c.thread], k))
  {
    var p, p', h' := s.Of(k), Step(s, c).Of(k), Held(Step(s, c).threads[c.thread], k);
    if s.threads[c.thread].pc.kind == k && c.outcome == Creates {
      assert p' == p.(created := p.created + 1) && h' == Some(p.created);
    } else {
      assert p' == p && h' == None;
    }
  }

  lemma StoreIsPoolStep(s: State, c: Choice, k: Kind)
    requires c.thread < |s.threads| && s.threads[c.thread].pc.Store?
    ensures PoolStep(s.Of(k), Held(s.threads[c.thread], k), Step(s, c).Of(k), Held(Step(s, c).threads[c.thread], k))
  {
    var p, p', h := s.Of(k), Step(s, c).Of(k), Held(s.threads[c.thread], k);
    if s.threads[c.thread].pc.kind == k && p.global == None {
      assert p' == p.(global := h);
    } else {
      assert p' == p && Held(Step(s, c).threads[c.thread], k) == h;
    }
  }

  lemma ReleaseIsPoolStep(s: State, c: Choice, k: Kind)
    requires c.thread < |s.threads| && (s.threads[c.thread].pc.Discard? || s.threads[c.thread].pc.Drop?)
    ensures PoolStep(s.Of(k), Held(s.threads[c.thread], k), Step(s, c).Of(k), Held(Step(s, c).threads[c.thread], k))
  {
    var p, p' := s.Of(k), Step(s, c).Of(k);
    if s.threads[c.thread].pc.kind == k {
      assert p' == p.(released := p.released + multiset{s.threads[c.thread].pc.ref});
    } else {
      assert p' == p;
    }
  }

  lemma TakeIsPoolStep(s: State, c: Choice, k: Kind)
    requires c.thread < |s.threads| && s.threads[c.thread].pc.Take?
    ensures PoolStep(s.Of(k), Held(s.threads[c.thread], k), Step(s, c).Of(k), Held(Step(s, c).threads[c.thread], k))
  {
    var p, p', h' := s.Of(k), Step(s, c).Of(k), Held(Step(s, c).threads[c.thread], k);
    if s.threads[c.thread].pc.kind == k && p.global.Some? {
      assert p' == p.(global := None) && h' == p.global;
    } else {
      assert p' == p && h' == None;
    }
  }

  lemma StepIsPoolStep(s: State, c: Choice, k: Kind)
    requires c.thread < |s.threads|
    ensures PoolStep(s.Of(k), Held(s.threads[c.thread], k), Step(s, c).Of(k), Held(Step(s, c).threads[c.thread], k))
  {
    match s.threads[c.thread].pc
    case Create(_) => CreateIsPoolStep(s, c, k);
    case Store(_, _) => StoreIsPoolStep(s, c, k);
    case Discard(_, _) => ReleaseIsPoolStep(s, c, k);
    case Take(_) => TakeIsPoolStep(s, c, k);
    case Drop(_, _) => ReleaseIsPoolStep(s, c, k);
    case _ => assert Step(s, c).Of(k) == s.Of(k);
  }

  lemma StepKeepsConserved(s: State, c: Choice, k: Kind)
    requires Conserved(s, k)
    ensures Conserved(Step(s, c), k)
  {
    var s' := Step(s, c);
    if c.thread < |s.threads| {
      StepMovesOne(s, c);
      StepIsPoolStep(s, c, k);
      var t := s'.threads[c.thread];
      HoldersAfterUpdate(s.threads, c.thread, t, k);
      forall r: Ref ensures Places(s', k, r) == One(r < s'.Of(k).created) {
        HoldersOfAfterUpdate(s.threads, c.thread, t, k, r);
        assert Places(s, k, r) == One(r < s.Of(k).created);
      }
    }
  }

  // Only an uninitialising exchange clears a global, and it counts itself.
  lemma StepKeepsGlobals(s: State, c: Choice, k: Kind)
    ensures s.epoch <= Step(s, c).epoch
    ensures Step(s, c).epoch == s.epoch && s.Of(k).global.Some? ==> Step(s, c).Of(k).global == s.Of(k).global
  {
  }

  lemma StepKeepsOthers(s: State, c: Choice, t: Thread)
    requires ThreadOk(s, t)
    ensures ThreadOk(Step(s, c), t)
  {
    StepKeepsGlobals(s, c, Cat);
    StepKeepsGlobals(s, c, Scm);
  }

  lemma StepKeepsMover(s: State, c: Choice)
    requires c.thread < |s.threads| && ThreadOk(s, s.threads[c.thread])
    ensures ThreadOk(Step(s, c), Step(s, c).threads[c.thread])
  {
    match s.threads[c.thread].pc
    case Create(_) =>
    case Store(_, _) =>
    case Discard(_, _) =>
    case Take(_) =>
    case Drop(_, _) =>
    case _ =>
  }

  lemma {:induction false} RunKeepsInv(n: nat, schedule: seq<Choice>)
    ensures Inv(Run(Start(n), schedule))
  {
    if schedule == [] {
      StartConserved(n, Cat);
      StartConserved(n, Scm);
    } else {
      var s, c := Run(Start(n), schedule[..|schedule| - 1]), schedule[|schedule| - 1];
      RunKeepsInv(n, schedule[..|schedule| - 1]);
      StepKeepsConserved(s, c, Cat);
      StepKeepsConserved(s, c, Scm);
      forall i | 0 <= i < |s.threads| ensures ThreadOk(Step(s, c), Step(s, c).threads[i]) {
        if c.thread == i {
          StepKeepsMover(s, c);
        } else {
          StepKeepsOthers(s, c, s.threads[i]);
          if c.thread < |s.threads| { StepMovesOne(s, c); }
        }
      }
    }
  }

  lemma StartConserved(n: nat, k: Kind)
    ensures Conserved(Start(n), k)
  {
    NothingHeld(Start(n).threads, k, 0);
    forall r: Ref ensures Places(Start(n), k, r) == 0 {
      NothingHeld(Start(n).threads, k, r);
    }
  }

  lemma {:induction false} HolderCounts(ts: seq<Thread>, i: nat, k: Kind, r: Ref)
    requires i < |ts| && Held(ts[i], k) == Some(r)
    ensures HoldersOf(ts, k, r) >= 1
    decreases |ts|
  {
    if i < |ts| - 1 { HolderCounts(ts[..|ts| - 1], i, k, r); }
  }

  /** References created minus references released is one for a set global plus one for each
      thread in flight that holds one, in every reachable state. */
  lemma ReferencesConserved(n: nat, schedule: seq<Choice>, k: Kind)
    ensures var s := Run(Start(n), schedule);
      s.Of(k).created - |s.Of(k).released| == One(s.Of(k).global.Some?) + Holders(s.threads, k)
  {
    RunKeepsInv(n, schedule);
    assert Conserved(Run(Start(n), schedule), k);
  }

  /** No reference is released twice, none that is released is still in the global or in a thread,
      and no two threads share one. */
  lemma NeverReleasedTwice(n: nat, schedule: seq<Choice>, k: Kind, r: Ref)
    ensures var s := Run(Start(n), schedule);
      s.Of(k).released[r] + One(s.Of(k).global == Some(r)) + HoldersOf(s.threads, k, r) == One(r < s.Of(k).created)
  {
    RunKeepsInv(n, schedule);
    var s := Run(Start(n), schedule);
    assert Conserved(s, k);
    assert Places(s, k, r) == One(r < s.Of(k).created);
  }

  /** A thread never releases, stores or drops a reference that is already released or still in the
      global: what it holds is its own. */
  lemma HeldIsOwned(n: nat, schedule: seq<Choice>, k: Kind, i: nat, r: Ref)
    requires i < n && Held(Run(Start(n), schedule).threads[i], k) == Some(r)
    ensures var s := Run(Start(n), schedule);
      r !in s.Of(k).released && s.Of(k).global != Some(r) && r < s.Of(k).created
  {
    NeverReleasedTwice(n, schedule, k, r);
    HolderCounts(Run(Start(n), schedule).threads, i, k, r);
  }

  /** Over any schedule from any state a set global keeps its value as long as no uninitialising exchange runs. */
  lemma {:induction false} SetGlobalIsStable(s: State, schedule: seq<Choice>, k: Kind)
    requires s.Of(k).global.Some?
    ensures s.epoch <= Run(s, schedule).epoch
    ensures Run(s, schedule).epoch == s.epoch ==> Run(s, schedule).Of(k).global == s.Of(k).global
  {
    if schedule != [] {
      SetGlobalIsStable(s, schedule[..|schedule| - 1], k);
      StepKeepsGlobals(Run(s, schedule[..|schedule| - 1]), schedule[|schedule| - 1], k);
    }
  }

  /** A call that returns S_OK finds both globals set, unless an uninitialisation ran meanwhile. */
  lemma OkFindsBothSet(n: nat, schedule: seq<Choice>, i: nat)
    requires i < n
    ensures var s := Run(Start(n), schedule);
      s.threads[i].pc == Returned(S_OK) && s.threads[i].epoch == s.epoch
      ==> s.cat.global.Some? && s.scm.global.Some?
  {
    RunKeepsInv(n, schedule);
    assert ThreadOk(Run(Start(n), schedule), Run(Start(n), schedule).threads[i]);
  }

  /** The proviso is needed: when an uninitialisation runs between the two stores of a call, the call returns S_OK
      with the first global empty again. */
  lemma OkWithEmptyGlobal() returns (schedule: seq<Choice>)
    ensures var s := Run(Start(2), schedule);
      s.threads[0].pc == Returned(S_OK) && s.threads[0].epoch != s.epoch && s.cat.global == None
  {
    var first, second := Choice(0, Creates, true), Choice(1, Creates, false);
    var s0 := Start(2);
    var s1 := FirstStores(s0, first);
    var s2 := SecondTakes(s1, second);
    var s3 := FirstReturns(s2, first);
    hide Step, Run, Start;
    var none: seq<Choice> := [];
    var created := none + [first, first];
    var stored := created + [first, first];
    var taken := stored + [second, second] + [second];
    schedule := taken + [first, first];
    RunNothing(s0);
    RunTwice(s0, none, first, first);
    RunTwice(s0, created, first, first);
    RunTwice(s0, stored, second, second);
    RunSnoc(s0, stored + [second, second], second);
    RunTwice(s0, taken, first, first);
  }

  // The first store of the initialisation, in four steps.
  lemma FirstStores(s: State, c: Choice) returns (r: State)
    requires s == Start(2) && c == Choice(0, Creates, true)
    ensures r == Step(Step(Step(Step(s, c), c), c), c) && |r.threads| == 2
    ensures r.threads[0] == Thread(Create(Scm), 0) && r.threads[1].pc == Idle
    ensures r.cat.global.Some? && r.scm.global == None && r.epoch == 0
  {
    var t := Step(Step(s, c), c);
    assert t.threads[0] == Thread(Create(Cat), 0) && t.cat == s.cat && t.scm == s.scm && t.threads[1] == s.threads[1];
    r := Step(Step(t, c), c);
  }

  // Both exchanges of an uninitialisation.
  lemma SecondTakes(s: State, c: Choice) returns (r: State)
    requires |s.threads| == 2 && s.threads[1].pc == Idle && s.scm.global == None && c == Choice(1, Creates, false)
    ensures r == Step(Step(Step(s, c), c), c) && |r.threads| == 2
    ensures r.threads[0] == s.threads[0] && r.cat.global == None && r.scm.global == None && r.epoch == s.epoch + 2
  {
    var t := Step(Step(s, c), c);
    assert t.threads[1].pc == Take(Cat) && t.threads[0] == s.threads[0];
    assert t.scm.global == None && t.epoch == s.epoch + 1;
    r := Step(t, c);
  }

  // The second store.
  lemma FirstReturns(s: State, c: Choice) returns (r: State)
    requires |s.threads| == 2 && s.threads[0] == Thread(Create(Scm), 0) && s.scm.global == None
    requires c == Choice(0, Creates, true)
    ensures r == Step(Step(s, c), c) && |r.threads| == 2
    ensures r.threads[0] == Thread(Returned(S_OK), 0) && r.cat == s.cat && r.epoch == s.epoch
  {
    r := Step(Step(s, c), c);
  }

  lemma RunNothing(s: State)
    ensures Run(s, []) == s
  {
  }

  lemma RunTwice(s: State, schedule: seq<Choice>, c: Choice, d: Choice)
    ensures Run(s, schedule + [c, d]) == Step(Step(Run(s, schedule), c), d)
  {
    hide Step, Run;
    RunSnoc(s, schedule, c);
    RunSnoc(s, schedule + [c], d);
    assert schedule + [c] + [d] == schedule + [c, d];
  }

  lemma RunSnoc(s: State, schedule: seq<Choice>, c: Choice)
    ensures Run(s, schedule + [c]) == Step(Run(s, schedule), c)
  {
    assert (schedule + [c])[..|schedule|] == schedule;
  }

  /** In every interleaving an uninitialisation that has ended has made both exchanges. */
  lemma UninitializedMadeBoth(n: nat, schedule: seq<Choice>, i: nat)
    requires i < n && Run(Start(n), schedule).threads[i].pc == Uninitialized
    ensures Run(Start(n), schedule).threads[i].epoch + 2 <= Run(Start(n), schedule).epoch
  {
    RunKeepsInv(n, schedule);
    assert ThreadOk(Run(Start(n), schedule), Run(Start(n), schedule).threads[i]);
  }

  predicate BetweenCalls(pc: Pc) {
    pc == Idle || pc.Returned? || pc == Uninitialized
  }

  // A schedule that runs one thread alone.
  predicate Alone(schedule: seq<Choice>, i: nat) {
    forall c :: c in schedule ==> c.thread == i
  }

  // One reference more, stored if the global was empty and released if it was not.
  function Stored(p: Pool): Pool {
    if p.global == None then Pool(Some(p.created), p.created + 1, p.released)
    else Pool(p.global, p.created + 1, p.released + multiset{p.created})
  }

  function Emptied(p: Pool): Pool {
    Pool(None, p.created, p.released + if p.global.Some? then multiset{p.global.value} else multiset{})
  }

  lemma {:induction false} RunConcat(s: State, a: seq<Choice>, b: seq<Choice>)
    ensures Run(s, a + b) == Run(Run(s, a), b)
    decreases |b|
  {
    if b == [] {
      assert a + b == a;
    } else {
      var m := |b| - 1;
      assert (a + b)[..|a + b| - 1] == a + b[..m];
      RunConcat(s, a, b[..m]);
    }
  }

  lemma RunOne(s: State, c: Choice)
    ensures Run(s, [c]) == Step(s, c)
  {
    RunSnoc(s, [], c);
    assert [] + [c] == [c];
  }

  lemma RunTwo(s: State, c: Choice)
    ensures Run(s, [c, c]) == Step(Step(s, c), c)
  {
    RunTwice(s, [], c, c);
    assert [] + [c, c] == [c, c];
  }

  // One creation of an initialising thread, with what follows it up to the next.
  lemma CreateAlone(s: State, i: nat, k: Kind, o: Outcome) returns (schedule: seq<Choice>)
    requires i < |s.threads| && s.threads[i].pc == Create(k)
    ensures Alone(schedule, i)
    ensures Run(s, schedule) == match o
      case Fails => s.At(i, Returned(HelperFailed))
      case ReturnsNull => s.At(i, Returned(E_OUTOFMEMORY))
      case Creates => s.With(k, Stored(s.Of(k))).At(i, if k == Cat then Create(Scm) else Returned(S_OK))
  {
    var c := Choice(i, o, true);
    if o != Creates {
      schedule := [c];
      RunOne(s, c);
    } else {
      RunTwo(s, c);
      schedule := [c, c];
      if s.Of(k).global.Some? {
        RunSnoc(s, schedule, c);
        schedule := schedule + [c];
        var r := Step(Step(Step(s, c), c), c);
        assert r.Of(k) == Stored(s.Of(k));
        assert r.threads == s.threads[i := s.threads[i].(pc := AfterStore(k))];
      }
    }
  }

  // One exchange of an uninitialising thread, and the release of what it took.
  lemma TakeAlone(s: State, i: nat, k: Kind) returns (schedule: seq<Choice>)
    requires i < |s.threads| && s.threads[i].pc == Take(k)
    ensures Alone(schedule, i)
    ensures Run(s, schedule) == s.With(k, Emptied(s.Of(k))).(epoch := s.epoch + 1)
                                 .At(i, if k == Scm then Take(Cat) else Uninitialized)
  {
    var c := Choice(i, Fails, false);
    if s.Of(k).global == None {
      schedule := [c];
      RunOne(s, c);
    } else {
      schedule := [c, c];
      RunTwo(s, c);
    }
  }

  /** An initialisation that runs alone: with both globals set it creates nothing; otherwise it creates both, keeps
      what a set global holds and releases its own, and reports the failure it meets. */
  lemma InitializeAlone(s: State, i: nat, first: Outcome, second: Outcome) returns (schedule: seq<Choice>)
    requires i < |s.threads| && BetweenCalls(s.threads[i].pc)
    ensures Alone(schedule, i)
    ensures var r := Run(s, schedule);
      && r.epoch == s.epoch && (forall j :: 0 <= j < |s.threads| && j != i ==> r.threads[j] == s.threads[j])
      && if s.cat.global.Some? && s.scm.global.Some? then
           r.threads[i].pc == Returned(S_OK) && r.cat == s.cat && r.scm == s.scm
         else if first != Creates then
           && r.threads[i].pc == Returned(if first == Fails then HelperFailed else E_OUTOFMEMORY)
           && r.cat == s.cat && r.scm == s.scm
         else if second != Creates then
           && r.threads[i].pc == Returned(if second == Fails then HelperFailed else E_OUTOFMEMORY)
           && r.cat == Stored(s.cat) && r.scm == s.scm
         else
           r.threads[i].pc == Returned(S_OK) && r.cat == Stored(s.cat) && r.scm == Stored(s.scm)
  {
    var begun;
    schedule, begun := TestAlone(s, i);
    hide Step, Run;
    if !(s.cat.global.Some? && s.scm.global.Some?) {
      var more := CreateAlone(begun, i, Cat, first);
      RunConcat(s, schedule, more);
      schedule := schedule + more;
      if first == Creates {
        var rest := CreateAlone(Run(begun, more), i, Scm, second);
        RunConcat(s, schedule, rest);
        schedule := schedule + rest;
      }
    }
  }

  // The tests at the beginning of an initialisation.
  lemma TestAlone(s: State, i: nat) returns (schedule: seq<Choice>, r: State)
    requires i < |s.threads| && BetweenCalls(s.threads[i].pc)
    ensures Alone(schedule, i) && r == Run(s, schedule)
    ensures r == s.(threads := s.threads[i := Thread(
      if s.cat.global.Some? && s.scm.global.Some? then Returned(S_OK) else Create(Cat), s.epoch)])
  {
    var c := Choice(i, Fails, true);
    schedule := [c, c];
    RunTwo(s, c);
    if s.cat.global.Some? {
      RunSnoc(s, schedule, c);
      schedule := schedule + [c];
    }
    r := Run(s, schedule);
  }

  /** An uninitialisation that runs alone leaves both globals empty and has released exactly what they held. */
  lemma UninitializeAlone(s: State, i: nat) returns (schedule: seq<Choice>)
    requires i < |s.threads| && BetweenCalls(s.threads[i].pc)
    ensures Alone(schedule, i)
    ensures var r := Run(s, schedule);
      && r.threads[i].pc == Uninitialized
      && r.cat == Emptied(s.cat) && r.scm == Emptied(s.scm) && r.epoch == s.epoch + 2
      && forall j :: 0 <= j < |s.threads| && j != i ==> r.threads[j] == s.threads[j]
  {
    var c := Choice(i, Fails, false);
    schedule := [c];
    RunOne(s, c);
    var begun := Run(s, schedule);
    assert begun.threads[i] == Thread(Take(Scm), s.epoch);
    hide Step, Run;
    var more := TakeAlone(begun, i, Scm);
    RunConcat(s, schedule, more);
    var rest := TakeAlone(Run(begun, more), i, Cat);
    RunConcat(s, schedule + more, rest);
    schedule := schedule + more + rest;
  }

  /** When no call is in flight, at most one reference of each kind is alive: the one in the global. */
  lemma QuietMeansOneReference(n: nat, schedule: seq<Choice>, k: Kind)
    requires forall i :: 0 <= i < n ==> Held(Run(Start(n), schedule).threads[i], k) == None
    ensures var s := Run(Start(n), schedule);
      s.Of(k).created == |s.Of(k).released| + One(s.Of(k).global.Some?)
  {
    ReferencesConserved(n, schedule, k);
    NothingHeld(Run(Start(n), schedule).threads, k, 0);
  }
}
