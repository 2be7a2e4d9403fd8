/** The command line's group run: worker threads drain one queue under a stop or continue policy. */
module GroupRun {
  import opened Records

  datatype Outcome = Ok | Error(message: string) | Panic

  /** How a worker came to its end. */
  datatype Ending = Drained | GivenUp | Panicked

  datatype Phase = Ready | Running(node: string) | Done(ending: Ending)

  datatype Worker = Worker(phase: Phase, failures: seq<string>)

  /** An entry that was run, and how that went. */
  datatype Finished = Finished(node: string, outcome: Outcome)

  datatype Group = Group(queue: seq<string>, workers: seq<Worker>, stop: bool, finished: seq<Finished>)

  /** What the scheduler lets happen next; an event that is not enabled changes nothing. */
  datatype Event = TakeNext(worker: nat) | Complete(worker: nat, outcome: Outcome)

  function Start(nodes: seq<string>, maxConcurrency: nat, stop: bool): Group {
    Group(nodes, seq(Min(Max(maxConcurrency, 1), |nodes|), _ => Worker(Ready, [])), stop, [])
  }

  /** A worker takes the last entry of the queue, or ends when there is none. */
  function Taken(g: Group, i: nat): Group
    requires i < |g.workers|
  {
    if g.queue == [] then g.(workers := g.workers[i := g.workers[i].(phase := Done(Drained))])
    else
      var last := |g.queue| - 1;
      g.(queue := g.queue[..last], workers := g.workers[i := g.workers[i].(phase := Running(g.queue[last]))])
  }

  /** Where a worker goes from an entry that went this way. */
  function Afterwards(w: Worker, stop: bool, outcome: Outcome): Worker
    requires w.phase.Running?
  {
    match outcome
    case Ok => w.(phase := Ready)
    case Error(e) =>
      Worker(if stop then Done(GivenUp) else Ready, w.failures + [w.phase.node + ": " + e])
    case Panic => w.(phase := Done(Panicked))
  }

  function Completed(g: Group, i: nat, outcome: Outcome): Group
    requires i < |g.workers| && g.workers[i].phase.Running?
  {
    g.(workers := g.workers[i := Afterwards(g.workers[i], g.stop, outcome)],
       finished := g.finished + [Finished(g.workers[i].phase.node, outcome)])
  }

  predicate Enabled(g: Group, e: Event) {
    e.worker < |g.workers| &&
    if e.TakeNext? then g.workers[e.worker].phase.Ready? else g.workers[e.worker].phase.Running?
  }

  function Act(g: Group, e: Event): Group {
    if !Enabled(g, e) then g
    else if e.TakeNext? then Taken(g, e.worker)
    else Completed(g, e.worker, e.outcome)
  }

  /** The group after `n` events of any schedule. */
  function After(g: Group, schedule: nat -> Event, n: nat): Group {
    if n == 0 then g else Act(After(g, schedule, n - 1), schedule(n - 1))
  }

  /** The run itself: the queue behind its mutex, and the workers' own state. */
  class Runner {
    var queue: seq<string>
    var workers: seq<Worker>
    var finished: seq<Finished>
    const stop: bool

    constructor (nodes: seq<string>, maxConcurrency: nat, stop: bool)
      ensures State() == Start(nodes, maxConcurrency, stop)
    {
      this.queue, this.stop, this.finished := nodes, stop, [];
      this.workers := seq(Min(Max(maxConcurrency, 1), |nodes|), _ => Worker(Ready, []));
    }

    function State(): Group
      reads this
    {
      Group(queue, workers, stop, finished)
    }

    /** `queue.lock().pop()`, and the break when there is nothing. */
    method TakeNext(i: nat)
      requires i < |workers| && workers[i].phase.Ready?
      modifies this
      ensures State() == Act(old(State()), Event.TakeNext(i))
    {
      if queue == [] {
        workers := workers[i := workers[i].(phase := Done(Drained))];
        return;
      }
      var node := queue[|queue| - 1];
      queue := queue[..|queue| - 1];
      workers := workers[i := workers[i].(phase := Running(node))];
    }

    /** What a worker does when `run_task` returns, or panics. */
    method Complete(i: nat, outcome: Outcome)
      requires i < |workers| && workers[i].phase.Running?
      modifies this
      ensures State() == Act(old(State()), Event.Complete(i, outcome))
    {
      var w := workers[i];
      finished := finished + [Finished(w.phase.node, outcome)];
      match outcome {
        case Ok => w := w.(phase := Ready);
        case Error(e) =>
          w := w.(failures := w.failures + [w.phase.node + ": " + e]);
          w := w.(phase := if stop then Done(GivenUp) else Ready);
        case Panic => w := w.(phase := Done(Panicked));
      }
      workers := workers[i := w];
    }

    /** Joining the workers: their failures in order, and one for each that panicked. */
    method Join() returns (failures: seq<string>)
      ensures failures == Reported(workers)
      ensures forall text :: text in failures <==> SomeReports(workers, text)
    {
      failures := [];
      var i := 0;
      while i < |workers|
        invariant i <= |workers| && failures == Reported(workers[..i])
      {
        assert workers[..i + 1][..i] == workers[..i];
        var panicked := workers[i].phase == Done(Panicked);
        failures := failures + (if panicked then ["worker panicked"] else workers[i].failures);
        i := i + 1;
      }
      assert workers[..i] == workers;
      forall text ensures text in failures <==> SomeReports(workers, text) { ReportedBySome(workers, text); }
    }
  }

  /** A worker that panicked is reported as such, and any other with what it noted. */
  predicate Reports(w: Worker, text: string) {
    if w.phase == Done(Panicked) then text == "worker panicked" else text in w.failures
  }

  predicate SomeReports(workers: seq<Worker>, text: string) {
    exists i :: 0 <= i < |workers| && Reports(workers[i], text)
  }

  lemma {:induction false} ReportedBySome(workers: seq<Worker>, text: string)
    ensures text in Reported(workers) <==> SomeReports(workers, text)
  {
    if workers != [] {
      var n := |workers| - 1;
      ReportedBySome(workers[..n], text);
      assert forall i :: 0 <= i < n ==> workers[..n][i] == workers[i];
      if SomeReports(workers, text) && !Reports(workers[n], text) {
        var i :| 0 <= i < |workers| && Reports(workers[i], text);
        assert Reports(workers[..n][i], text);
      }
      if SomeReports(workers[..n], text) {
        var i :| 0 <= i < n && Reports(workers[..n][i], text);
        assert Reports(workers[i], text);
      }
    }
  }

  function Reported(workers: seq<Worker>): seq<string> {
    if workers == [] then []
    else
      var last := workers[|workers| - 1];
      Reported(workers[..|workers| - 1]) +
      if last.phase == Done(Panicked) then ["worker panicked"] else last.failures
  }

  /** Every worker has ended. */
  predicate Over(g: Group) {
    forall i :: 0 <= i < |g.workers| ==> g.workers[i].phase.Done?
  }

  /* ---- conservation ---- */

  predicate Runs(w: Worker, node: string) {
    w.phase == Running(node)
  }

  /** How many workers are running this entry. */
  function RunningCount(workers: seq<Worker>, node: string): (n: nat)
    ensures n <= |workers|
  {
    if workers == [] then 0
    else RunningCount(workers[..|workers| - 1], node) + if Runs(workers[|workers| - 1], node) then 1 else 0
  }

  function NodesOf(finished: seq<Finished>): (nodes: seq<string>)
    ensures |nodes| == |finished|
  {
    seq(|finished|, i requires 0 <= i < |finished| => finished[i].node)
  }

  lemma {:induction false} RunningUpdate(workers: seq<Worker>, i: nat, w: Worker, node: string)
    requires i < |workers|
    ensures RunningCount(workers[i := w], node) ==
            RunningCount(workers, node) - (if Runs(workers[i], node) then 1 else 0) + if Runs(w, node) then 1 else 0
  {
    var n := |workers| - 1;
    if i == n {
      assert workers[i := w][..n] == workers[..n];
    } else {
      assert workers[i := w][..n] == workers[..n][i := w];
      RunningUpdate(workers[..n], i, w, node);
    }
  }

  lemma {:induction false} NothingRunning(workers: seq<Worker>, node: string)
    requires forall i :: 0 <= i < |workers| ==> !workers[i].phase.Running?
    ensures RunningCount(workers, node) == 0
  {
    if workers != [] { NothingRunning(workers[..|workers| - 1], node); }
  }

  /** How often an entry is queued, running or run. */
  function Copies(g: Group, node: string): nat {
    multiset(g.queue)[node] + RunningCount(g.workers, node) + multiset(NodesOf(g.finished))[node]
  }

  lemma TakenKeepsCopies(g: Group, i: nat, node: string)
    requires i < |g.workers| && g.workers[i].phase.Ready?
    ensures Copies(Taken(g, i), node) == Copies(g, node)
  {
    RunningUpdate(g.workers, i, Taken(g, i).workers[i], node);
    if g.queue != [] {
      var last := |g.queue| - 1;
      assert g.queue == g.queue[..last] + [g.queue[last]];
      assert multiset(g.queue) == multiset(g.queue[..last]) + multiset{g.queue[last]};
    }
  }

  lemma CompletedKeepsCopies(g: Group, i: nat, outcome: Outcome, node: string)
    requires i < |g.workers| && g.workers[i].phase.Running?
    ensures Copies(Completed(g, i, outcome), node) == Copies(g, node)
  {
    RunningUpdate(g.workers, i, Afterwards(g.workers[i], g.stop, outcome), node);
    var before, done := NodesOf(g.finished), g.workers[i].phase.node;
    assert NodesOf(Completed(g, i, outcome).finished) == before + [done];
    assert multiset(before + [done]) == multiset(before) + multiset{done};
  }

  /** The entries queued, running and run are together the group's nodes. */
  predicate Conserves(g: Group, nodes: seq<string>, node: string) {
    Copies(g, node) == multiset(nodes)[node]
  }

  /* ---- what every event keeps ---- */

  predicate WorkerOk(w: Worker, stop: bool, queue: seq<string>) {
    (w.phase == Done(Drained) ==> queue == []) &&
    (w.phase == Done(GivenUp) ==> stop && w.failures != []) &&
    (stop && !w.phase.Done? ==> w.failures == [])
  }

  /** No worker has a failure to report. */
  predicate Clean(g: Group) {
    forall i :: 0 <= i < |g.workers| ==> g.workers[i].failures == [] && g.workers[i].phase != Done(Panicked)
  }

  /** Every entry run so far succeeded. */
  predicate AllOk(g: Group) {
    forall k :: 0 <= k < |g.finished| ==> g.finished[k].outcome.Ok?
  }

  predicate GroupOk(g: Group) {
    (forall i :: 0 <= i < |g.workers| ==> WorkerOk(g.workers[i], g.stop, g.queue)) && (Clean(g) <==> AllOk(g))
  }

  lemma TakenKeepsOk(g: Group, i: nat)
    requires GroupOk(g) && i < |g.workers| && g.workers[i].phase.Ready?
    ensures GroupOk(Taken(g, i))
  {
    var after := Taken(g, i);
    forall j | 0 <= j < |after.workers| ensures WorkerOk(after.workers[j], after.stop, after.queue) {
      assert WorkerOk(g.workers[j], g.stop, g.queue);
    }
    if !Clean(g) {
      var j :| 0 <= j < |g.workers| && !(g.workers[j].failures == [] && g.workers[j].phase != Done(Panicked));
      assert !(after.workers[j].failures == [] && after.workers[j].phase != Done(Panicked));
    }
  }

  lemma CompletedKeepsOk(g: Group, i: nat, outcome: Outcome)
    requires GroupOk(g) && i < |g.workers| && g.workers[i].phase.Running?
    ensures GroupOk(Completed(g, i, outcome))
  {
    var after := Completed(g, i, outcome);
    forall j | 0 <= j < |after.workers| ensures WorkerOk(after.workers[j], after.stop, after.queue) {
      assert WorkerOk(g.workers[j], g.stop, g.queue);
    }
    if outcome.Ok? {
      StaysClean(g, i);
    } else {
      assert !(after.workers[i].failures == [] && after.workers[i].phase != Done(Panicked));
      assert after.finished[|g.finished|].outcome == outcome;
    }
  }

  lemma StaysClean(g: Group, i: nat)
    requires i < |g.workers| && g.workers[i].phase.Running?
    ensures Clean(Completed(g, i, Ok)) <==> Clean(g)
    ensures AllOk(Completed(g, i, Ok)) <==> AllOk(g)
  {
    var after := Completed(g, i, Ok);
    if !Clean(g) {
      var j :| 0 <= j < |g.workers| && !(g.workers[j].failures == [] && g.workers[j].phase != Done(Panicked));
      assert !(after.workers[j].failures == [] && after.workers[j].phase != Done(Panicked));
    }
    assert forall k :: 0 <= k < |g.finished| ==> after.finished[k] == g.finished[k];
  }

  /** One event keeps the entries and the workers in order. */
  lemma ActKeeps(g: Group, e: Event, nodes: seq<string>)
    requires GroupOk(g) && forall node :: Conserves(g, nodes, node)
    ensures GroupOk(Act(g, e)) && Act(g, e).stop == g.stop && |Act(g, e).workers| == |g.workers|
    ensures forall node :: Conserves(Act(g, e), nodes, node)
  {
    if Enabled(g, e) {
      forall node ensures Conserves(Act(g, e), nodes, node) {
        assert Conserves(g, nodes, node);
        if e.TakeNext? {
          TakenKeepsCopies(g, e.worker, node);
        } else {
          CompletedKeepsCopies(g, e.worker, e.outcome, node);
        }
      }
      if e.TakeNext? { TakenKeepsOk(g, e.worker); } else { CompletedKeepsOk(g, e.worker, e.outcome); }
    } else {
      forall node ensures Conserves(Act(g, e), nodes, node) { assert Conserves(g, nodes, node); }
    }
  }

  lemma StartConserves(nodes: seq<string>, maxConcurrency: nat, stop: bool)
    ensures GroupOk(Start(nodes, maxConcurrency, stop))
    ensures forall node :: Conserves(Start(nodes, maxConcurrency, stop), nodes, node)
  {
    forall node ensures Conserves(Start(nodes, maxConcurrency, stop), nodes, node) {
      NothingRunning(Start(nodes, maxConcurrency, stop).workers, node);
    }
  }

  /**
   * Under any schedule the entries are conserved: of each, as many copies are
   * queued, running or run as the group has; and there are
   * `min(max_concurrency, n)` workers, so no more run at once.
   */
  lemma {:induction false} EntriesConserved(
    nodes: seq<string>, maxConcurrency: nat, stop: bool, schedule: nat -> Event, n: nat)
    ensures var g := After(Start(nodes, maxConcurrency, stop), schedule, n);
      GroupOk(g) && g.stop == stop && |g.workers| == Min(Max(maxConcurrency, 1), |nodes|) &&
      forall node :: Conserves(g, nodes, node)
  {
    if n == 0 {
      StartConserves(nodes, maxConcurrency, stop);
    } else {
      EntriesConserved(nodes, maxConcurrency, stop, schedule, n - 1);
      ActKeeps(After(Start(nodes, maxConcurrency, stop), schedule, n - 1), schedule(n - 1), nodes);
    }
  }

  /** Once the queue is empty and nothing runs, what was run is exactly the group. */
  lemma AllWereRun(g: Group, nodes: seq<string>)
    requires Over(g) && forall node :: Conserves(g, nodes, node)
    ensures g.queue == [] <==> multiset(NodesOf(g.finished)) == multiset(nodes)
  {
    forall node ensures multiset(NodesOf(g.finished))[node] + multiset(g.queue)[node] == multiset(nodes)[node] {
      assert Conserves(g, nodes, node);
      NothingRunning(g.workers, node);
    }
    if g.queue != [] {
      assert multiset(g.queue)[g.queue[0]] > 0;
      assert multiset(NodesOf(g.finished))[g.queue[0]] < multiset(nodes)[g.queue[0]];
    }
  }

  /** A worker ended without taking the queue to its end. */
  predicate GaveUp(w: Worker) {
    w.phase == Done(GivenUp) || w.phase == Done(Panicked)
  }

  /**
   * When all workers have ended: entries are left over only if every worker
   * ended on a failure; under `continue` only if every worker panicked; and
   * otherwise every entry was run exactly once.
   */
  lemma LeftOverOnlyWhenAllFailed(
    nodes: seq<string>, maxConcurrency: nat, stop: bool, schedule: nat -> Event, n: nat)
    requires nodes != [] && Over(After(Start(nodes, maxConcurrency, stop), schedule, n))
    ensures var g := After(Start(nodes, maxConcurrency, stop), schedule, n);
      if g.queue == [] then multiset(NodesOf(g.finished)) == multiset(nodes)
      else
        (forall i :: 0 <= i < |g.workers| ==> GaveUp(g.workers[i])) &&
        (!stop ==> forall i :: 0 <= i < |g.workers| ==> g.workers[i].phase == Done(Panicked))
  {
    EntriesConserved(nodes, maxConcurrency, stop, schedule, n);
    var g := After(Start(nodes, maxConcurrency, stop), schedule, n);
    AllWereRun(g, nodes);
    if g.queue != [] {
      forall i | 0 <= i < |g.workers|
        ensures GaveUp(g.workers[i]) && (!stop ==> g.workers[i].phase == Done(Panicked))
      {
        assert WorkerOk(g.workers[i], g.stop, g.queue);
        match g.workers[i].phase.ending { case Drained => case GivenUp => case Panicked => }
      }
    }
  }

  lemma {:induction false} ReportedNothing(workers: seq<Worker>)
    ensures Reported(workers) == [] <==>
            forall i :: 0 <= i < |workers| ==> workers[i].failures == [] && workers[i].phase != Done(Panicked)
  {
    if workers != [] { ReportedNothing(workers[..|workers| - 1]); }
  }

  /** Success is reported exactly when every entry was run once and every run succeeded. */
  lemma SuccessMeansAllRanOk(
    nodes: seq<string>, maxConcurrency: nat, stop: bool, schedule: nat -> Event, n: nat)
    requires nodes != [] && Over(After(Start(nodes, maxConcurrency, stop), schedule, n))
    ensures var g := After(Start(nodes, maxConcurrency, stop), schedule, n);
      Reported(g.workers) == [] <==> multiset(NodesOf(g.finished)) == multiset(nodes) && AllOk(g)
  {
    EntriesConserved(nodes, maxConcurrency, stop, schedule, n);
    var g := After(Start(nodes, maxConcurrency, stop), schedule, n);
    AllWereRun(g, nodes);
    ReportedNothing(g.workers);
    if Reported(g.workers) == [] {
      assert WorkerOk(g.workers[0], g.stop, g.queue);
      match g.workers[0].phase.ending { case Drained => case GivenUp => case Panicked => }
    }
  }

  /* ---- order, and what is reported ---- */

  /** Entries are taken from the end of the group: what is still queued is always its beginning. */
  lemma {:induction false} TakenFromTheEnd(
    nodes: seq<string>, maxConcurrency: nat, stop: bool, schedule: nat -> Event, n: nat)
    ensures After(Start(nodes, maxConcurrency, stop), schedule, n).queue <= nodes
  {
    if n > 0 { TakenFromTheEnd(nodes, maxConcurrency, stop, schedule, n - 1); }
  }

  /** What is to be said of an entry that was run: its name and error, if it failed. */
  function Message(node: string, outcome: Outcome): multiset<string> {
    if outcome.Error? then multiset{node + ": " + outcome.message} else multiset{}
  }

  function Messages(finished: seq<Finished>): multiset<string> {
    if finished == [] then multiset{}
    else
      var last := finished[|finished| - 1];
      Messages(finished[..|finished| - 1]) + Message(last.node, last.outcome)
  }

  /** All workers' failures. */
  function AllFailures(workers: seq<Worker>): multiset<string> {
    if workers == [] then multiset{}
    else AllFailures(workers[..|workers| - 1]) + multiset(workers[|workers| - 1].failures)
  }

  lemma {:induction false} FailuresUpdate(workers: seq<Worker>, i: nat, w: Worker, more: multiset<string>)
    requires i < |workers| && multiset(w.failures) == multiset(workers[i].failures) + more
    ensures AllFailures(workers[i := w]) == AllFailures(workers) + more
  {
    var n := |workers| - 1;
    if i == n {
      assert workers[i := w][..n] == workers[..n];
    } else {
      assert workers[i := w][..n] == workers[..n][i := w];
      FailuresUpdate(workers[..n], i, w, more);
    }
  }

  lemma {:induction false} NoFailuresYet(workers: seq<Worker>)
    requires forall i :: 0 <= i < |workers| ==> workers[i].failures == []
    ensures AllFailures(workers) == multiset{}
  {
    if workers != [] { NoFailuresYet(workers[..|workers| - 1]); }
  }

  lemma OneMoreMessage(finished: seq<Finished>, f: Finished)
    ensures Messages(finished + [f]) == Messages(finished) + Message(f.node, f.outcome)
  {
    assert (finished + [f])[..|finished|] == finished;
  }

  lemma OneMoreFailure(w: Worker, stop: bool, outcome: Outcome)
    requires w.phase.Running?
    ensures multiset(Afterwards(w, stop, outcome).failures) == multiset(w.failures) + Message(w.phase.node, outcome)
  {
  }

  lemma TakenTells(g: Group, i: nat)
    requires i < |g.workers|
    ensures AllFailures(Taken(g, i).workers) == AllFailures(g.workers)
  {
    FailuresUpdate(g.workers, i, Taken(g, i).workers[i], multiset{});
  }

  lemma CompletedTells(g: Group, i: nat, outcome: Outcome)
    requires i < |g.workers| && g.workers[i].phase.Running? && AllFailures(g.workers) == Messages(g.finished)
    ensures AllFailures(Completed(g, i, outcome).workers) == Messages(Completed(g, i, outcome).finished)
  {
    var w := g.workers[i];
    OneMoreFailure(w, g.stop, outcome);
    FailuresUpdate(g.workers, i, Afterwards(w, g.stop, outcome), Message(w.phase.node, outcome));
    OneMoreMessage(g.finished, Finished(w.phase.node, outcome));
  }

  lemma ActTells(g: Group, e: Event)
    requires AllFailures(g.workers) == Messages(g.finished)
    ensures AllFailures(Act(g, e).workers) == Messages(Act(g, e).finished)
  {
    if Enabled(g, e) {
      if e.TakeNext? { TakenTells(g, e.worker); } else { CompletedTells(g, e.worker, e.outcome); }
    }
  }

  /** The workers' failures are the messages of the entries that failed, each once, under any schedule. */
  lemma {:induction false} FailuresAreMessages(
    nodes: seq<string>, maxConcurrency: nat, stop: bool, schedule: nat -> Event, n: nat)
    ensures var g := After(Start(nodes, maxConcurrency, stop), schedule, n);
      AllFailures(g.workers) == Messages(g.finished)
  {
    if n == 0 {
      NoFailuresYet(Start(nodes, maxConcurrency, stop).workers);
    } else {
      FailuresAreMessages(nodes, maxConcurrency, stop, schedule, n - 1);
      ActTells(After(Start(nodes, maxConcurrency, stop), schedule, n - 1), schedule(n - 1));
    }
  }

  lemma {:induction false} ReportedUnlessPanicked(workers: seq<Worker>)
    requires forall i :: 0 <= i < |workers| ==> workers[i].phase != Done(Panicked)
    ensures multiset(Reported(workers)) == AllFailures(workers)
  {
    if workers != [] {
      var n := |workers| - 1;
      ReportedUnlessPanicked(workers[..n]);
      assert multiset(Reported(workers[..n]) + workers[n].failures)
          == multiset(Reported(workers[..n])) + multiset(workers[n].failures);
    }
  }

  /** When no worker panicked, the report names every entry that failed, with its error, and nothing else. */
  lemma ReportNamesEveryFailure(
    nodes: seq<string>, maxConcurrency: nat, stop: bool, schedule: nat -> Event, n: nat)
    requires var g := After(Start(nodes, maxConcurrency, stop), schedule, n);
      forall i :: 0 <= i < |g.workers| ==> g.workers[i].phase != Done(Panicked)
    ensures var g := After(Start(nodes, maxConcurrency, stop), schedule, n);
      multiset(Reported(g.workers)) == Messages(g.finished)
  {
    FailuresAreMessages(nodes, maxConcurrency, stop, schedule, n);
    ReportedUnlessPanicked(After(Start(nodes, maxConcurrency, stop), schedule, n).workers);
  }

  /** A worker whose entry fails goes on under `continue` and ends under `stop`; and nobody else is affected. */
  lemma FailureEndsOnlyItsWorker(g: Group, i: nat, message: string)
    requires i < |g.workers| && g.workers[i].phase.Running?
    ensures var after := Act(g, Complete(i, Error(message)));
      (if g.stop then after.workers[i].phase == Done(GivenUp) else after.workers[i].phase == Ready) &&
      after.queue == g.queue && |after.workers| == |g.workers| &&
      forall j :: 0 <= j < |g.workers| && j != i ==> after.workers[j] == g.workers[j]
  {
  }

  /* ---- it comes to an end ---- */

  function Weight(w: Worker): nat {
    match w.phase
    case Ready => 1
    case Running(_) => 2
    case Done(_) => 0
  }

  function Remaining(workers: seq<Worker>): nat {
    if workers == [] then 0 else Remaining(workers[..|workers| - 1]) + Weight(workers[|workers| - 1])
  }

  /** Bounds how many events can still be enabled. */
  function Work(g: Group): nat {
    3 * |g.queue| + Remaining(g.workers)
  }

  lemma {:induction false} RemainingUpdate(workers: seq<Worker>, i: nat, w: Worker)
    requires i < |workers|
    ensures Remaining(workers[i := w]) == Remaining(workers) - Weight(workers[i]) + Weight(w)
  {
    var n := |workers| - 1;
    if i == n {
      assert workers[i := w][..n] == workers[..n];
    } else {
      assert workers[i := w][..n] == workers[..n][i := w];
      RemainingUpdate(workers[..n], i, w);
    }
  }

  /**
   * Every event that happens uses up work, and while some worker has not ended
   * some event can happen: no schedule runs forever, and none gets stuck.
   */
  lemma ComesToAnEnd(g: Group, e: Event)
    ensures Enabled(g, e) ==> Work(Act(g, e)) < Work(g)
    ensures !Over(g) ==> exists next: Event :: Enabled(g, next)
  {
    if Enabled(g, e) { RemainingUpdate(g.workers, e.worker, Act(g, e).workers[e.worker]); }
    if !Over(g) {
      var i :| 0 <= i < |g.workers| && !g.workers[i].phase.Done?;
      assert Enabled(g, TakeNext(i)) || Enabled(g, Complete(i, Ok));
    }
  }
}
