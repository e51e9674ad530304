// The concurrent part of GetUpcomingWithAirfare (catalog_handler.go) as a transition
// system: a spawning loop, one goroutine per remote call behind a 4-slot semaphore, a
// buffered results channel, a WaitGroup, a closer goroutine and a collector that only
// starts receiving once the spawning loop has ended.
//
// Every step below is one blocking operation of one goroutine; a step is enabled exactly
// when that operation would not block.
module Fanout {
  import opened Common
  import BestFare

  const MAX_CONCURRENT_AIRFARE_CALLS: nat := 4

  // What the remote airfare call for a match answers.
  datatype Answer = Failed(message: string) | Loaded(slots: seq<BestFare.Slot>)

  // What the loop finds for a match: its route is degenerate, or a call is made.
  datatype Job = SameRoute | Remote(answer: Answer)

  // The airfare part of an item of the response.
  datatype Outcome = Outcome(fare: Option<BestFare.Summary>, error: string)

  const BLANK := Outcome(None, "")

  function OutcomeOf(job: Job): Outcome {
    match job
    case SameRoute => Outcome(None, "origin_iata and destination_iata must differ")
    case Remote(Failed(message)) => Outcome(None, message)
    case Remote(Loaded(slots)) =>
      var fare := BestFare.Summarize(slots);
      if fare.None? then Outcome(None, "no airfare offers found") else Outcome(fare, "")
  }

  datatype LoadError = LoadError(index: nat, message: string)

  // --- State ---

  datatype Main =
    | Spawning(i: nat)      // about to look at match i, or to leave the loop
    | Counted(i: nat)       // wg.Add(1) done for match i
    | Acquired(i: nat)      // semaphore slot taken for match i
    | Collecting
    | Responded

  datatype Worker =
    | Idle                  // not launched yet
    | Inlined               // same-route match: answered by the spawning loop itself
    | Calling
    | Sending(outcome: Outcome)
    | Sent                  // next: the deferred semaphore release
    | Released              // next: the deferred wg.Done
    | Finished

  datatype Closer = NotStarted | Waiting | Closed

  // airfareResult: what a goroutine puts on the results channel
  datatype Message = Message(index: nat, outcome: Outcome)

  // The results channel is kept as the log of all sends and the number received so far.
  datatype State = State(
    main: Main,
    workers: seq<Worker>,
    sem: int,
    wg: int,
    sent: seq<Message>,
    received: nat,
    closer: Closer,
    items: seq<Outcome>,
    errors: seq<LoadError>)

  function Init(jobs: seq<Job>): State {
    State(Spawning(0), seq(|jobs|, _ => Idle), 0, 0, [], 0, NotStarted, seq(|jobs|, _ => BLANK), [])
  }

  // --- Steps ---

  datatype Step =
    | SendInline | Add | Acquire | Launch | StartCloser | Receive | Respond   // the handler itself
    | Return(w: nat) | Send(w: nat) | Release(w: nat) | Done(w: nat)          // goroutine w
    | Close                                                                   // the closer

  // The channel was made with room for one result per match.
  predicate Room(jobs: seq<Job>, s: State) {
    |s.sent| - s.received < |jobs|
  }

  predicate Enabled(jobs: seq<Job>, s: State, step: Step) {
    match step
    case SendInline => s.main.Spawning? && s.main.i < |jobs| && jobs[s.main.i].SameRoute? &&
                       s.main.i < |s.workers| && s.closer != Closed && Room(jobs, s)
    case Add => s.main.Spawning? && s.main.i < |jobs| && jobs[s.main.i].Remote?
    case Acquire => s.main.Counted? && s.sem < MAX_CONCURRENT_AIRFARE_CALLS
    case Launch => s.main.Acquired? && s.main.i < |s.workers|
    case StartCloser => s.main.Spawning? && s.main.i >= |jobs|
    case Return(w) => w < |s.workers| && w < |jobs| && s.workers[w].Calling?
    case Send(w) => w < |s.workers| && s.workers[w].Sending? && s.closer != Closed && Room(jobs, s)
    case Release(w) => w < |s.workers| && s.workers[w].Sent? && s.sem > 0
    case Done(w) => w < |s.workers| && s.workers[w].Released? && s.wg > 0
    case Close => s.closer.Waiting? && s.wg == 0
    case Receive => s.main.Collecting? && s.received < |s.sent| && s.sent[s.received].index < |s.items|
    case Respond => s.main.Collecting? && s.closer.Closed? && s.received >= |s.sent|
  }

  // Operations of Go that would panic instead of blocking.
  predicate Panics(jobs: seq<Job>, s: State) {
    || (s.closer.Closed? && exists w :: 0 <= w < |s.workers| && s.workers[w].Sending?)
    || (s.closer.Closed? && (s.main.Spawning? || s.main.Counted? || s.main.Acquired?))
    || s.wg < 0
    || (s.wg <= 0 && exists w :: 0 <= w < |s.workers| && s.workers[w].Released?)
    || (s.received < |s.sent| && s.sent[s.received].index >= |s.items|)
  }

  function Apply(jobs: seq<Job>, s: State, step: Step): State
    requires Enabled(jobs, s, step)
  {
    match step
    case SendInline =>
      var i := s.main.i;
      s.(main := Spawning(i + 1), workers := s.workers[i := Inlined],
         sent := s.sent + [Message(i, OutcomeOf(jobs[i]))])
    case Add => s.(main := Counted(s.main.i), wg := s.wg + 1)
    case Acquire => s.(main := Acquired(s.main.i), sem := s.sem + 1)
    case Launch => s.(main := Spawning(s.main.i + 1), workers := s.workers[s.main.i := Calling])
    case StartCloser => s.(main := Collecting, closer := Waiting)
    case Return(w) => s.(workers := s.workers[w := Sending(OutcomeOf(jobs[w]))])
    case Send(w) => s.(workers := s.workers[w := Sent], sent := s.sent + [Message(w, s.workers[w].outcome)])
    case Release(w) => s.(workers := s.workers[w := Released], sem := s.sem - 1)
    case Done(w) => s.(workers := s.workers[w := Finished], wg := s.wg - 1)
    case Close => s.(closer := Closed)
    case Receive =>
      var m := s.sent[s.received];
      s.(received := s.received + 1, items := s.items[m.index := m.outcome],
         errors := if m.outcome.error != "" then s.errors + [LoadError(m.index, m.outcome.error)] else s.errors)
    case Respond => s.(main := Responded)
  }

  // A run from the start, under any schedule.
  ghost predicate IsRun(jobs: seq<Job>, run: seq<State>) {
    && |run| > 0
    && run[0] == Init(jobs)
    && forall k :: 0 <= k < |run| - 1 ==> StepAt(jobs, run, k)
  }

  ghost predicate StepAt(jobs: seq<Job>, run: seq<State>, k: int)
    requires 0 <= k < |run| - 1
  {
    Next(jobs, run[k], run[k + 1])
  }

  ghost predicate Next(jobs: seq<Job>, s: State, s': State) {
    exists step :: Enabled(jobs, s, step) && s' == Apply(jobs, s, step)
  }

  // --- The inductive invariant ---

  function Count(ws: seq<Worker>, f: Worker -> bool): nat {
    if ws == [] then 0
    else Count(ws[..|ws| - 1], f) + if f(ws[|ws| - 1]) then 1 else 0
  }

  predicate InFlight(w: Worker) { w.Calling? }
  predicate HoldsSlot(w: Worker) { w.Calling? || w.Sending? || w.Sent? }
  predicate Unfinished(w: Worker) { HoldsSlot(w) || w.Released? }
  predicate HasSent(w: Worker) { w.Inlined? || w.Sent? || w.Released? || w.Finished? }

  function Launched(jobs: seq<Job>, s: State): nat {
    if s.main.Collecting? || s.main.Responded? then |jobs| else s.main.i
  }

  ghost predicate InvShape(jobs: seq<Job>, s: State) {
    && |s.workers| == |s.items| == |jobs|
    && Launched(jobs, s) <= |jobs|
    && (s.main.Counted? || s.main.Acquired? ==> s.main.i < |jobs| && jobs[s.main.i].Remote?)
    && (forall j :: 0 <= j < |jobs| ==> (s.workers[j].Idle? <==> j >= Launched(jobs, s)))
    && (forall j :: 0 <= j < |jobs| && s.workers[j].Inlined? ==> jobs[j].SameRoute?)
    && (forall j :: 0 <= j < |jobs| && s.workers[j].Sending? ==> s.workers[j].outcome == OutcomeOf(jobs[j]))
  }

  ghost predicate InvCounts(s: State) {
    && s.sem == Count(s.workers, HoldsSlot) + (if s.main.Acquired? then 1 else 0)
    && s.sem <= MAX_CONCURRENT_AIRFARE_CALLS
    && s.wg == Count(s.workers, Unfinished) + (if s.main.Counted? || s.main.Acquired? then 1 else 0)
  }

  function Indexes(log: seq<Message>): (ix: seq<nat>)
    ensures |ix| == |log|
    ensures forall k :: 0 <= k < |log| ==> ix[k] == log[k].index
  {
    seq(|log|, k requires 0 <= k < |log| => log[k].index)
  }

  ghost predicate InvChannel(jobs: seq<Job>, ws: seq<Worker>, log: seq<Message>)
    requires |ws| == |jobs|
  {
    && Distinct(Indexes(log))
    && (forall j: nat :: j in Indexes(log) <==> j < |jobs| && HasSent(ws[j]))
    && (forall k :: 0 <= k < |log| ==> log[k].index < |jobs| && log[k].outcome == OutcomeOf(jobs[log[k].index]))
  }

  // What the collector has stored after receiving a log.
  function StoredItems(n: nat, log: seq<Message>): (items: seq<Outcome>)
    ensures |items| == n
  {
    if log == [] then seq(n, _ => BLANK)
    else
      var m := log[|log| - 1];
      var before := StoredItems(n, log[..|log| - 1]);
      if m.index < n then before[m.index := m.outcome] else before
  }

  function StoredErrors(log: seq<Message>): seq<LoadError> {
    if log == [] then []
    else
      var m := log[|log| - 1];
      var before := StoredErrors(log[..|log| - 1]);
      if m.outcome.error != "" then before + [LoadError(m.index, m.outcome.error)] else before
  }

  ghost predicate InvCollector(jobs: seq<Job>, s: State) {
    && s.received <= |s.sent|
    && (s.closer.NotStarted? <==> !(s.main.Collecting? || s.main.Responded?))
    && (s.closer.NotStarted? ==> s.received == 0)
    && (s.closer.Closed? ==> s.wg == 0)
    && (s.main.Responded? ==> s.closer.Closed? && s.received == |s.sent|)
    && s.items == StoredItems(|jobs|, s.sent[..s.received])
    && s.errors == StoredErrors(s.sent[..s.received])
  }

  ghost predicate Inv(jobs: seq<Job>, s: State) {
    InvShape(jobs, s) && InvCounts(s) && InvChannel(jobs, s.workers, s.sent) && InvCollector(jobs, s)
  }

  lemma {:induction false} CountUpdate(ws: seq<Worker>, i: nat, w: Worker, f: Worker -> bool)
    requires i < |ws|
    ensures Count(ws[i := w], f) == Count(ws, f) - (if f(ws[i]) then 1 else 0) + (if f(w) then 1 else 0)
  {
    var n := |ws| - 1;
    if i == n {
      assert ws[i := w][..n] == ws[..n];
    } else {
      CountUpdate(ws[..n], i, w, f);
      assert ws[i := w][..n] == ws[..n][i := w];
    }
  }

  lemma {:induction false} CountZero(ws: seq<Worker>, f: Worker -> bool)
    ensures Count(ws, f) == 0 <==> forall j :: 0 <= j < |ws| ==> !f(ws[j])
  {
    if ws != [] {
      CountZero(ws[..|ws| - 1], f);
    }
  }

  lemma {:induction false} CountImplies(ws: seq<Worker>, f: Worker -> bool, g: Worker -> bool)
    requires forall w :: f(w) ==> g(w)
    ensures Count(ws, f) <= Count(ws, g)
  {
    if ws != [] {
      CountImplies(ws[..|ws| - 1], f, g);
    }
  }

  lemma InitInv(jobs: seq<Job>)
    ensures Inv(jobs, Init(jobs))
  {
    CountZero(Init(jobs).workers, HoldsSlot);
    CountZero(Init(jobs).workers, Unfinished);
  }

  lemma ShapeKept(jobs: seq<Job>, s: State, step: Step)
    requires InvShape(jobs, s) && Enabled(jobs, s, step)
    ensures InvShape(jobs, Apply(jobs, s, step))
  {
  }

  lemma CountsUpdate(ws: seq<Worker>, i: nat, w: Worker)
    requires i < |ws|
    ensures Count(ws[i := w], HoldsSlot) ==
            Count(ws, HoldsSlot) - (if HoldsSlot(ws[i]) then 1 else 0) + (if HoldsSlot(w) then 1 else 0)
    ensures Count(ws[i := w], Unfinished) ==
            Count(ws, Unfinished) - (if Unfinished(ws[i]) then 1 else 0) + (if Unfinished(w) then 1 else 0)
  {
    CountUpdate(ws, i, w, HoldsSlot);
    CountUpdate(ws, i, w, Unfinished);
  }

  lemma CountsKept(jobs: seq<Job>, s: State, step: Step)
    requires InvShape(jobs, s) && InvCounts(s) && Enabled(jobs, s, step)
    ensures InvCounts(Apply(jobs, s, step))
  {
    match step {
      case SendInline => CountsUpdate(s.workers, s.main.i, Inlined);
      case Launch => CountsUpdate(s.workers, s.main.i, Calling);
      case Return(w) => CountsUpdate(s.workers, w, Sending(OutcomeOf(jobs[w])));
      case Send(w) => CountsUpdate(s.workers, w, Sent);
      case Release(w) => CountsUpdate(s.workers, w, Released);
      case Done(w) => CountsUpdate(s.workers, w, Finished);
      case _ =>
    }
  }

  lemma SendKeepsChannel(jobs: seq<Job>, ws: seq<Worker>, log: seq<Message>, i: nat, w: Worker)
    requires |ws| == |jobs| && InvChannel(jobs, ws, log)
    requires i < |jobs| && !HasSent(ws[i]) && HasSent(w)
    ensures InvChannel(jobs, ws[i := w], log + [Message(i, OutcomeOf(jobs[i]))])
  {
    var m := Message(i, OutcomeOf(jobs[i]));
    assert Indexes(log + [m]) == Indexes(log) + [i];
    assert i !in Indexes(log);
    assert forall j: nat :: j in Indexes(log + [m]) <==> j in Indexes(log) || j == i;
  }

  lemma MoveKeepsChannel(jobs: seq<Job>, ws: seq<Worker>, log: seq<Message>, i: nat, w: Worker)
    requires |ws| == |jobs| && InvChannel(jobs, ws, log)
    requires i < |jobs| && HasSent(ws[i]) == HasSent(w)
    ensures InvChannel(jobs, ws[i := w], log)
  {
  }

  lemma ChannelKept(jobs: seq<Job>, s: State, step: Step)
    requires InvShape(jobs, s) && InvChannel(jobs, s.workers, s.sent) && Enabled(jobs, s, step)
    requires |Apply(jobs, s, step).workers| == |jobs|
    ensures InvChannel(jobs, Apply(jobs, s, step).workers, Apply(jobs, s, step).sent)
  {
    match step {
      case SendInline => SendKeepsChannel(jobs, s.workers, s.sent, s.main.i, Inlined);
      case Send(w) => SendKeepsChannel(jobs, s.workers, s.sent, w, Sent);
      case Launch => MoveKeepsChannel(jobs, s.workers, s.sent, s.main.i, Calling);
      case Return(w) => MoveKeepsChannel(jobs, s.workers, s.sent, w, Sending(OutcomeOf(jobs[w])));
      case Release(w) => MoveKeepsChannel(jobs, s.workers, s.sent, w, Released);
      case Done(w) => MoveKeepsChannel(jobs, s.workers, s.sent, w, Finished);
      case _ =>
    }
  }

  lemma ReceiveKept(jobs: seq<Job>, s: State)
    requires InvCollector(jobs, s) && Enabled(jobs, s, Receive)
    requires forall k :: 0 <= k < |s.sent| ==> s.sent[k].index < |jobs|
    ensures InvCollector(jobs, Apply(jobs, s, Receive))
  {
    var log := s.sent[..s.received + 1];
    assert log[..|log| - 1] == s.sent[..s.received];
  }

  lemma CollectorKept(jobs: seq<Job>, s: State, step: Step)
    requires InvShape(jobs, s) && InvCollector(jobs, s) && InvChannel(jobs, s.workers, s.sent)
    requires s.wg == 0 ==> forall j :: 0 <= j < |s.workers| ==> !Unfinished(s.workers[j])
    requires Enabled(jobs, s, step)
    ensures InvCollector(jobs, Apply(jobs, s, step))
  {
    var s' := Apply(jobs, s, step);
    if step.Receive? {
      ReceiveKept(jobs, s);
    } else {
      assert s'.sent[..s'.received] == s.sent[..s.received];
    }
  }

  // Every step of every goroutine keeps the invariant.
  lemma StepKeepsInv(jobs: seq<Job>, s: State, step: Step)
    requires Inv(jobs, s) && Enabled(jobs, s, step)
    ensures Inv(jobs, Apply(jobs, s, step))
  {
    ShapeKept(jobs, s, step);
    CountsKept(jobs, s, step);
    ChannelKept(jobs, s, step);
    CountZero(s.workers, Unfinished);
    CollectorKept(jobs, s, step);
  }

  lemma NextKeepsInv(jobs: seq<Job>, s: State, s': State)
    requires Inv(jobs, s) && Next(jobs, s, s')
    ensures Inv(jobs, s')
  {
    var step :| Enabled(jobs, s, step) && s' == Apply(jobs, s, step);
    StepKeepsInv(jobs, s, step);
  }

  lemma {:induction false} RunKeepsInv(jobs: seq<Job>, run: seq<State>, k: nat)
    requires IsRun(jobs, run) && k < |run|
    ensures Inv(jobs, run[k])
  {
    if k == 0 {
      InitInv(jobs);
    } else {
      var j := k - 1;
      RunKeepsInv(jobs, run, j);
      assert StepAt(jobs, run, j);
      NextKeepsInv(jobs, run[j], run[k]);
    }
  }

  // --- Safety: bounded calls, sends that never block, one close after all sends ---

  lemma SentBound(jobs: seq<Job>, s: State)
    requires Inv(jobs, s)
    ensures |s.sent| <= |jobs|
    ensures |s.sent| == |jobs| <==> forall j :: 0 <= j < |jobs| ==> HasSent(s.workers[j])
  {
    var ix := Indexes(s.sent);
    DistinctBelow(ix, |jobs|);
    assert (forall j: nat :: j < |jobs| ==> j in ix) <==> forall j :: 0 <= j < |jobs| ==> HasSent(s.workers[j]);
  }

  ghost predicate AllDone(jobs: seq<Job>, s: State) {
    |s.workers| == |jobs| && forall j :: 0 <= j < |jobs| ==> s.workers[j].Inlined? || s.workers[j].Finished?
  }

  lemma ClosedMeansAllDone(jobs: seq<Job>, s: State)
    requires Inv(jobs, s) && s.closer.Closed?
    ensures AllDone(jobs, s) && |s.sent| == |jobs|
  {
    CountZero(s.workers, Unfinished);
    assert forall j :: 0 <= j < |jobs| ==> !s.workers[j].Idle? && !Unfinished(s.workers[j]);
    SentBound(jobs, s);
  }

  lemma NoPanic(jobs: seq<Job>, s: State)
    requires Inv(jobs, s)
    ensures !Panics(jobs, s)
  {
    if s.closer.Closed? {
      ClosedMeansAllDone(jobs, s);
    }
    CountZero(s.workers, Unfinished);
  }

  lemma RoomForUnsent(jobs: seq<Job>, s: State, w: nat)
    requires Inv(jobs, s) && w < |jobs| && !HasSent(s.workers[w])
    ensures Room(jobs, s) && !s.closer.Closed?
  {
    SentBound(jobs, s);
    if s.closer.Closed? {
      ClosedMeansAllDone(jobs, s);
    }
  }

  ghost predicate SendsEnabled(jobs: seq<Job>, s: State) {
    && (s.main.Spawning? && s.main.i < |jobs| && jobs[s.main.i].SameRoute? ==> Enabled(jobs, s, SendInline))
    && (forall w: nat :: w < |s.workers| && s.workers[w].Sending? ==> Enabled(jobs, s, Send(w)))
  }

  // Whoever is about to send finds room in the channel and the channel open.
  lemma SendsNeverBlock(jobs: seq<Job>, s: State)
    requires Inv(jobs, s)
    ensures SendsEnabled(jobs, s)
  {
    if s.main.Spawning? && s.main.i < |jobs| {
      RoomForUnsent(jobs, s, s.main.i);
    }
    forall w: nat | w < |s.workers| && s.workers[w].Sending? ensures Enabled(jobs, s, Send(w)) {
      RoomForUnsent(jobs, s, w);
    }
  }

  // In every reachable state, for any number of matches: at most four calls are in flight,
  // at most one result per match is ever sent, no send blocks although receiving starts
  // only after spawning, nothing panics, and a closed channel holds all the results.
  ghost predicate Safe(jobs: seq<Job>, s: State) {
    && Count(s.workers, InFlight) <= 4
    && |s.sent| <= |jobs| && Distinct(Indexes(s.sent))
    && SendsEnabled(jobs, s)
    && !Panics(jobs, s)
    && (s.closer.Closed? ==> |s.sent| == |jobs| && AllDone(jobs, s))
  }

  lemma InvIsSafe(jobs: seq<Job>, s: State)
    requires Inv(jobs, s)
    ensures Safe(jobs, s)
  {
    CountImplies(s.workers, InFlight, HoldsSlot);
    SentBound(jobs, s);
    NoPanic(jobs, s);
    SendsNeverBlock(jobs, s);
    if s.closer.Closed? {
      ClosedMeansAllDone(jobs, s);
    }
  }

  lemma FanoutIsSafe(jobs: seq<Job>, run: seq<State>, k: nat)
    requires IsRun(jobs, run) && k < |run|
    ensures Safe(jobs, run[k])
  {
    RunKeepsInv(jobs, run, k);
    InvIsSafe(jobs, run[k]);
  }

  lemma ClosedStep(jobs: seq<Job>, s: State, s': State)
    requires Inv(jobs, s) && s.closer.Closed? && Next(jobs, s, s')
    ensures s'.closer.Closed? && s'.sent == s.sent
  {
    ClosedMeansAllDone(jobs, s);
  }

  lemma ClosedStaysClosed(jobs: seq<Job>, run: seq<State>, k: nat)
    requires IsRun(jobs, run) && k + 1 < |run| && run[k].closer.Closed?
    ensures run[k + 1].closer.Closed? && run[k + 1].sent == run[k].sent
  {
    RunKeepsInv(jobs, run, k);
    assert StepAt(jobs, run, k);
    ClosedStep(jobs, run[k], run[k + 1]);
  }

  // The channel is closed once: a closed channel stays closed, is not closed again and
  // receives nothing more.
  lemma {:induction false} ClosedOnce(jobs: seq<Job>, run: seq<State>, j: nat, k: nat)
    requires IsRun(jobs, run) && j <= k < |run|
    requires run[j].closer.Closed?
    ensures run[k].closer.Closed? && run[k].sent == run[j].sent && !Enabled(jobs, run[k], Close)
  {
    if j < k {
      ClosedOnce(jobs, run, j, k - 1);
      ClosedStaysClosed(jobs, run, k - 1);
    }
  }

  // --- Progress: no deadlock, and every run is finite ---

  lemma SomeWorker(ws: seq<Worker>, f: Worker -> bool) returns (w: nat)
    requires Count(ws, f) > 0
    ensures w < |ws| && f(ws[w])
  {
    CountZero(ws, f);
    w :| w < |ws| && f(ws[w]);
  }

  lemma UnfinishedWorkerCanStep(jobs: seq<Job>, s: State, w: nat)
    requires Inv(jobs, s)
    requires w < |s.workers| && Unfinished(s.workers[w])
    ensures exists step :: Enabled(jobs, s, step)
  {
    SendsNeverBlock(jobs, s);
    CountZero(s.workers, HoldsSlot);
    CountZero(s.workers, Unfinished);
    match s.workers[w] {
      case Calling => assert Enabled(jobs, s, Return(w));
      case Sending(_) => assert Enabled(jobs, s, Send(w));
      case Sent => assert Enabled(jobs, s, Release(w));
      case Released => assert Enabled(jobs, s, Done(w));
    }
  }

  lemma SpawnerOrWorkerCanStep(jobs: seq<Job>, s: State)
    requires Inv(jobs, s) && (s.main.Spawning? || s.main.Counted? || s.main.Acquired?)
    ensures exists step :: Enabled(jobs, s, step)
  {
    var i := s.main.i;
    if s.main.Acquired? {
      assert Enabled(jobs, s, Launch);
    } else if s.main.Counted? {
      if s.sem < MAX_CONCURRENT_AIRFARE_CALLS {
        assert Enabled(jobs, s, Acquire);
      } else {
        var w := SomeWorker(s.workers, HoldsSlot);
        UnfinishedWorkerCanStep(jobs, s, w);
      }
    } else if i >= |jobs| {
      assert Enabled(jobs, s, StartCloser);
    } else if jobs[i].SameRoute? {
      SendsNeverBlock(jobs, s);
      assert Enabled(jobs, s, SendInline);
    } else {
      assert Enabled(jobs, s, Add);
    }
  }

  lemma CollectorOrWorkerCanStep(jobs: seq<Job>, s: State)
    requires Inv(jobs, s) && s.main.Collecting?
    ensures exists step :: Enabled(jobs, s, step)
  {
    if s.received < |s.sent| {
      assert Enabled(jobs, s, Receive);
    } else if s.closer.Closed? {
      assert Enabled(jobs, s, Respond);
    } else if s.wg == 0 {
      assert Enabled(jobs, s, Close);
    } else {
      var w := SomeWorker(s.workers, Unfinished);
      UnfinishedWorkerCanStep(jobs, s, w);
    }
  }

  // No goroutine can move.
  ghost predicate Stuck(jobs: seq<Job>, s: State) {
    forall step :: !Enabled(jobs, s, step)
  }

  // No deadlock: until the response is written some goroutine can move, and after it
  // nothing is left that could.
  lemma NoDeadlock(jobs: seq<Job>, run: seq<State>, k: nat)
    requires IsRun(jobs, run) && k < |run|
    ensures run[k].main.Responded? <==> Stuck(jobs, run[k])
  {
    RunKeepsInv(jobs, run, k);
    if run[k].main.Responded? {
      ClosedMeansAllDone(jobs, run[k]);
    } else if run[k].main.Collecting? {
      CollectorOrWorkerCanStep(jobs, run[k]);
    } else {
      SpawnerOrWorkerCanStep(jobs, run[k]);
    }
  }

  // What is left to do: unspawned matches, the goroutines' program counters, buffered
  // results, the closer and the collector.
  function Rank(w: Worker): nat {
    match w
    case Idle => 6
    case Calling => 5
    case Sending(_) => 4
    case Sent => 2
    case Released => 1
    case Finished => 0
    case Inlined => 0
  }

  function Ranks(ws: seq<Worker>): nat {
    if ws == [] then 0 else Ranks(ws[..|ws| - 1]) + Rank(ws[|ws| - 1])
  }

  function MainRank(jobs: seq<Job>, main: Main): int {
    match main
    case Spawning(i) => 3 * (|jobs| - i) + 2
    case Counted(i) => 3 * (|jobs| - i) + 1
    case Acquired(i) => 3 * (|jobs| - i)
    case Collecting => 1
    case Responded => 0
  }

  function Measure(jobs: seq<Job>, s: State): int {
    MainRank(jobs, s.main) + Ranks(s.workers) + (|s.sent| - s.received) + (if s.closer.Closed? then 0 else 1)
  }

  lemma {:induction false} RanksUpdate(ws: seq<Worker>, i: nat, w: Worker)
    requires i < |ws|
    ensures Ranks(ws[i := w]) == Ranks(ws) - Rank(ws[i]) + Rank(w)
  {
    var n := |ws| - 1;
    if i == n {
      assert ws[i := w][..n] == ws[..n];
    } else {
      RanksUpdate(ws[..n], i, w);
      assert ws[i := w][..n] == ws[..n][i := w];
    }
  }

  lemma StepDecreasesMeasure(jobs: seq<Job>, s: State, step: Step)
    requires s.main.Spawning? ==> s.main.i <= |jobs| && s.closer.NotStarted?
    requires (s.main.Spawning? || s.main.Acquired?) && s.main.i < |s.workers| ==> s.workers[s.main.i].Idle?
    requires Enabled(jobs, s, step)
    ensures Measure(jobs, Apply(jobs, s, step)) < Measure(jobs, s)
  {
    match step {
      case SendInline => RanksUpdate(s.workers, s.main.i, Inlined);
      case Launch => RanksUpdate(s.workers, s.main.i, Calling);
      case Return(w) => RanksUpdate(s.workers, w, Sending(OutcomeOf(jobs[w])));
      case Send(w) => RanksUpdate(s.workers, w, Sent);
      case Release(w) => RanksUpdate(s.workers, w, Released);
      case Done(w) => RanksUpdate(s.workers, w, Finished);
      case Add =>
      case Acquire =>
      case StartCloser =>
      case Receive =>
      case Respond =>
      case Close =>
    }
  }

  lemma {:induction false} InitialRanks(n: nat)
    ensures Ranks(seq(n, _ => Idle)) == 6 * n
  {
    if n > 0 {
      InitialRanks(n - 1);
      var ws: seq<Worker> := seq(n, _ => Idle);
      assert ws[..n - 1] == seq(n - 1, _ => Idle);
    }
  }

  lemma NextDecreasesMeasure(jobs: seq<Job>, s: State, s': State)
    requires Inv(jobs, s) && Next(jobs, s, s')
    ensures Measure(jobs, s') < Measure(jobs, s)
  {
    var step :| Enabled(jobs, s, step) && s' == Apply(jobs, s, step);
    StepDecreasesMeasure(jobs, s, step);
  }

  lemma {:induction false} MeasureAlongRun(jobs: seq<Job>, run: seq<State>, k: nat)
    requires IsRun(jobs, run) && k < |run|
    ensures 0 <= Measure(jobs, run[k]) <= Measure(jobs, run[0]) - k
  {
    RunKeepsInv(jobs, run, k);
    if k > 0 {
      var j := k - 1;
      MeasureAlongRun(jobs, run, j);
      RunKeepsInv(jobs, run, j);
      assert StepAt(jobs, run, j);
      NextDecreasesMeasure(jobs, run[j], run[k]);
    }
  }

  // Every run, whatever the schedule, ends within 9n + 3 steps.
  lemma RunsAreFinite(jobs: seq<Job>, run: seq<State>)
    requires IsRun(jobs, run)
    ensures |run| - 1 <= 9 * |jobs| + 3
  {
    MeasureAlongRun(jobs, run, |run| - 1);
    InitialRanks(|jobs|);
  }

  // --- Refinement: the response is the one a sequential loop would build ---

  function SequentialItems(jobs: seq<Job>): seq<Outcome> {
    seq(|jobs|, i requires 0 <= i < |jobs| => OutcomeOf(jobs[i]))
  }

  function SequentialErrors(jobs: seq<Job>): seq<LoadError> {
    if jobs == [] then []
    else
      var i := |jobs| - 1;
      var message := OutcomeOf(jobs[i]).error;
      SequentialErrors(jobs[..i]) + if message != "" then [LoadError(i, message)] else []
  }

  lemma {:induction false} StoredItemsMeaning(jobs: seq<Job>, log: seq<Message>)
    requires forall k :: 0 <= k < |log| ==> log[k].index < |jobs| && log[k].outcome == OutcomeOf(jobs[log[k].index])
    ensures forall j: nat :: j < |jobs| ==>
              StoredItems(|jobs|, log)[j] == if j in Indexes(log) then OutcomeOf(jobs[j]) else BLANK
  {
    if log != [] {
      var n := |log| - 1;
      StoredItemsMeaning(jobs, log[..n]);
      assert Indexes(log) == Indexes(log[..n]) + [log[n].index];
    }
  }

  // The item's outcome has a message. A remote error with an empty message does not count.
  ghost predicate Fails(jobs: seq<Job>, e: LoadError) {
    e.index < |jobs| && e.message == OutcomeOf(jobs[e.index]).error && e.message != ""
  }

  lemma {:induction false} StoredErrorsMeaning(jobs: seq<Job>, log: seq<Message>)
    requires Distinct(Indexes(log))
    requires forall k :: 0 <= k < |log| ==> log[k].index < |jobs| && log[k].outcome == OutcomeOf(jobs[log[k].index])
    ensures Distinct(StoredErrors(log))
    ensures forall e :: e in StoredErrors(log) <==> e.index in Indexes(log) && Fails(jobs, e)
  {
    if log != [] {
      var n := |log| - 1;
      assert Indexes(log) == Indexes(log[..n]) + [log[n].index];
      StoredErrorsMeaning(jobs, log[..n]);
      assert log[n].index !in Indexes(log[..n]);
    }
  }

  lemma {:induction false} SequentialErrorsMeaning(jobs: seq<Job>)
    ensures Distinct(SequentialErrors(jobs))
    ensures forall e :: e in SequentialErrors(jobs) <==> Fails(jobs, e)
  {
    if jobs != [] {
      var i := |jobs| - 1;
      SequentialErrorsMeaning(jobs[..i]);
      assert forall e :: e in SequentialErrors(jobs[..i]) ==> e.index < i;
      assert forall e :: Fails(jobs[..i], e) <==> Fails(jobs, e) && e.index != i;
    }
  }

  lemma FinalItems(jobs: seq<Job>, s: State)
    requires Inv(jobs, s) && s.received == |s.sent| == |jobs|
    ensures forall j: nat :: j < |jobs| ==> j in Indexes(s.sent)
    ensures s.items == SequentialItems(jobs)
  {
    assert s.sent[..s.received] == s.sent;
    DistinctBelow(Indexes(s.sent), |jobs|);
    StoredItemsMeaning(jobs, s.sent);
  }

  lemma FinalErrors(jobs: seq<Job>, s: State)
    requires Inv(jobs, s) && s.received == |s.sent| == |jobs|
    ensures multiset(s.errors) == multiset(SequentialErrors(jobs))
  {
    assert s.sent[..s.received] == s.sent;
    DistinctBelow(Indexes(s.sent), |jobs|);
    StoredErrorsMeaning(jobs, s.sent);
    SequentialErrorsMeaning(jobs);
    SameElementsPermute(s.errors, SequentialErrors(jobs));
  }

  ghost predicate Response(jobs: seq<Job>, s: State) {
    && s.items == SequentialItems(jobs)
    && multiset(s.errors) == multiset(SequentialErrors(jobs))
    && s.received == |s.sent| == |jobs|
    && Distinct(Indexes(s.sent)) && (forall j: nat :: j < |jobs| ==> j in Indexes(s.sent))
    && AllDone(jobs, s) && s.sem == 0 && s.wg == 0
  }

  lemma FinalState(jobs: seq<Job>, s: State)
    requires Inv(jobs, s) && s.main.Responded?
    ensures Response(jobs, s)
  {
    ClosedMeansAllDone(jobs, s);
    FinalItems(jobs, s);
    FinalErrors(jobs, s);
    CountZero(s.workers, HoldsSlot);
  }

  // Whatever the schedule, a finished run has filled every item exactly once with the
  // outcome of its own call, its error list is a permutation of the failing items, and
  // every goroutine, semaphore slot and WaitGroup unit has been given back.
  lemma FanoutRefinesSequentialLoop(jobs: seq<Job>, run: seq<State>)
    requires IsRun(jobs, run) && run[|run| - 1].main.Responded?
    ensures Response(jobs, run[|run| - 1])
  {
    RunKeepsInv(jobs, run, |run| - 1);
    FinalState(jobs, run[|run| - 1]);
  }

  // What an item of the response must show of its match.
  ghost predicate Renders(item: Outcome, job: Job) {
    match job
    case SameRoute => item == Outcome(None, "origin_iata and destination_iata must differ")
    case Remote(Failed(message)) => item == Outcome(None, message)
    case Remote(Loaded(slots)) =>
      if BestFare.NoPrice(slots, None) then item == Outcome(None, "no airfare offers found")
      else item.fare.Some? && item.error == "" && BestFare.Shows(item.fare.value, slots)
  }

  // Whatever the schedule, each item shows the fare of its own match, with the first least
  // offers of the slots that its call answered, or the reason why there is none.
  lemma ItemsRenderTheirMatches(jobs: seq<Job>, run: seq<State>, j: nat)
    requires IsRun(jobs, run) && run[|run| - 1].main.Responded? && j < |jobs|
    ensures j < |run[|run| - 1].items| && Renders(run[|run| - 1].items[j], jobs[j])
  {
    FanoutRefinesSequentialLoop(jobs, run);
    if jobs[j].Remote? && jobs[j].answer.Loaded? {
      BestFare.SummaryShows(jobs[j].answer.slots);
    }
  }

  ghost predicate Accounted(s: State, j: nat) {
    j < |s.items| && (s.items[j].fare.Some? || exists e :: e in s.errors && e.index == j)
  }

  ghost predicate AllAccounted(s: State) {
    forall j: nat :: j < |s.items| ==> Accounted(s, j)
  }

  lemma ListedErrors(jobs: seq<Job>, s: State)
    requires Response(jobs, s)
    ensures forall e :: e in s.errors <==> Fails(jobs, e)
  {
    SequentialErrorsMeaning(jobs);
    assert forall e :: e in s.errors <==> e in multiset(s.errors);
    assert forall e :: e in SequentialErrors(jobs) <==> e in multiset(SequentialErrors(jobs));
  }

  lemma ItemIsAccountedFor(jobs: seq<Job>, s: State, j: nat)
    requires |s.items| == |jobs| && j < |jobs| && s.items[j] == OutcomeOf(jobs[j])
    requires forall e :: e in s.errors <==> Fails(jobs, e)
    ensures Accounted(s, j) <==> jobs[j] != Remote(Failed(""))
  {
    var e := LoadError(j, OutcomeOf(jobs[j]).error);
    assert e in s.errors <==> e.message != "";
  }

  // Every item of the response has a fare or is listed as an error if and only if no call
  // fails with an empty message.
  lemma EveryItemIsAccountedFor(jobs: seq<Job>, run: seq<State>)
    requires IsRun(jobs, run) && run[|run| - 1].main.Responded?
    ensures AllAccounted(run[|run| - 1]) <==> forall j :: 0 <= j < |jobs| ==> jobs[j] != Remote(Failed(""))
  {
    var s := run[|run| - 1];
    FanoutRefinesSequentialLoop(jobs, run);
    ListedErrors(jobs, s);
    forall j: nat | j < |jobs| ensures Accounted(s, j) <==> jobs[j] != Remote(Failed("")) {
      ItemIsAccountedFor(jobs, s, j);
    }
  }

  // Taken together: a run that cannot be continued has written the sequential response,
  // and no run goes on for more than 9n + 3 steps.
  lemma EveryScheduleResponds(jobs: seq<Job>, run: seq<State>)
    requires IsRun(jobs, run)
    requires Stuck(jobs, run[|run| - 1])
    ensures run[|run| - 1].main.Responded? && Response(jobs, run[|run| - 1])
    ensures |run| - 1 <= 9 * |jobs| + 3
  {
    NoDeadlock(jobs, run, |run| - 1);
    FanoutRefinesSequentialLoop(jobs, run);
    RunsAreFinite(jobs, run);
  }
}
