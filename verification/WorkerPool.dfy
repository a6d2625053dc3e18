/** The bounded fan-out of subchannel RPCs, as a transition system over its goroutines. */
module WorkerPool {
  import opened Prelude
  import opened Sorting
  import opened Subchannels

  const PARALLELISM: nat := 32

  /** A pool goroutine: waiting on `in`, in the RPC for the ref-th subchannel reference,
      about to send its result to `out`, or past its deferred Done. */
  datatype Worker = Receiving | Fetching(ref: nat) | Sending(ref: nat) | Exited

  /** The calling goroutine, in program order. */
  datatype Caller = Starting | Feeding(next: nat) | Closed | Draining | Finished

  /** The goroutine that waits for the pool and closes `out`. */
  datatype Closer = NotStarted | Waiting | Done

  datatype State = State(
    caller: Caller, workers: seq<Worker>, closer: Closer, waitGroup: nat,
    queue: seq<nat>, inClosed: bool,        // the channel `in`
    buffer: seq<nat>, outClosed: bool,      // the channel `out`
    received: seq<nat>,                     // taken from `out` by the caller, in order
    fetched: seq<nat>, dropped: seq<nat>)   // history: completed RPCs; those without a subchannel

  /** What each RPC of one call answers, by position in the reference list. */
  type Replies = seq<Option<Fetched>>

  function PoolSize(replies: Replies): nat {
    if |replies| < PARALLELISM then |replies| else PARALLELISM
  }

  function Init(): State {
    State(Starting, [], NotStarted, 0, [], false, [], false, [], [], [])
  }

  /** One atomic action. Both channels have capacity len(refs). */
  datatype Action =
    | Spawn | StartFeeding | Feed | CloseIn | StartCloser
    | Take(w: nat) | Leave(w: nat) | Reply(w: nat) | Send(w: nat)
    | CloseOut | Receive | Return

  ghost predicate Enabled(replies: Replies, s: State, a: Action) {
    match a
    case Spawn => s.caller.Starting? && |s.workers| < PoolSize(replies)
    case StartFeeding => s.caller.Starting? && |s.workers| == PoolSize(replies)
    case Feed => s.caller.Feeding? && s.caller.next < |replies| && |s.queue| < |replies|
    case CloseIn => s.caller.Feeding? && s.caller.next == |replies|
    case StartCloser => s.caller.Closed?
    case Take(w) => w < |s.workers| && s.workers[w].Receiving? && s.queue != []
    case Leave(w) => w < |s.workers| && s.workers[w].Receiving? && s.queue == [] && s.inClosed && s.waitGroup > 0
    case Reply(w) => w < |s.workers| && s.workers[w].Fetching? && s.workers[w].ref < |replies|
    case Send(w) => w < |s.workers| && s.workers[w].Sending? && |s.buffer| < |replies| && !s.outClosed
    case CloseOut => s.closer.Waiting? && s.waitGroup == 0
    case Receive => s.caller.Draining? && s.buffer != []
    case Return => s.caller.Draining? && s.buffer == [] && s.outClosed
  }

  ghost function Apply(replies: Replies, s: State, a: Action): State
    requires Enabled(replies, s, a)
  {
    match a
    case Spawn => s.(workers := s.workers + [Receiving], waitGroup := s.waitGroup + 1)
    case StartFeeding => s.(caller := Feeding(0))
    case Feed => s.(queue := s.queue + [s.caller.next], caller := Feeding(s.caller.next + 1))
    case CloseIn => s.(inClosed := true, caller := Closed)
    case StartCloser => s.(closer := Waiting, caller := Draining)
    case Take(w) => s.(workers := s.workers[w := Fetching(s.queue[0])], queue := s.queue[1..])
    case Leave(w) => s.(workers := s.workers[w := Exited], waitGroup := s.waitGroup - 1)
    case Reply(w) =>
      var ref := s.workers[w].ref;
      if replies[ref].Some? then
        s.(workers := s.workers[w := Sending(ref)], fetched := s.fetched + [ref])
      else
        s.(workers := s.workers[w := Receiving], fetched := s.fetched + [ref], dropped := s.dropped + [ref])
    case Send(w) => s.(workers := s.workers[w := Receiving], buffer := s.buffer + [s.workers[w].ref])
    case CloseOut => s.(outClosed := true, closer := Done)
    case Receive => s.(received := s.received + [s.buffer[0]], buffer := s.buffer[1..])
    case Return => s.(caller := Finished)
  }

  ghost predicate Step(replies: Replies, s: State, s': State) {
    exists a :: Enabled(replies, s, a) && s' == Apply(replies, s, a)
  }

  ghost predicate IsRun(replies: Replies, run: seq<State>) {
    && run != [] && run[0] == Init()
    && forall i | 0 <= i < |run| - 1 :: Step(replies, run[i], run[i + 1])
  }

  // ----- Bookkeeping over the workers -----

  /** What is added up over the workers. */
  datatype Gauge = Load | Live | AnyFetching | AnySending | FetchingRef(r: nat) | SendingRef(r: nat)

  function Weigh(w: Worker, g: Gauge): nat {
    match g
    case Load => (match w case Receiving => 1 case Fetching(_) => 4 case Sending(_) => 3 case Exited => 0)
    case Live => if w.Exited? then 0 else 1
    case AnyFetching => if w.Fetching? then 1 else 0
    case AnySending => if w.Sending? then 1 else 0
    case FetchingRef(r) => if w == Fetching(r) then 1 else 0
    case SendingRef(r) => if w == Sending(r) then 1 else 0
  }

  function Tally(ws: seq<Worker>, g: Gauge): nat {
    if ws == [] then 0 else Tally(ws[..|ws| - 1], g) + Weigh(ws[|ws| - 1], g)
  }

  lemma {:induction false} OneWorkerMoves(ws: seq<Worker>, w: nat, to: Worker, g: Gauge)
    requires w < |ws|
    ensures Tally(ws[w := to], g) + Weigh(ws[w], g) == Tally(ws, g) + Weigh(to, g)
  {
    var n := |ws| - 1;
    if w == n {
      assert ws[w := to][..n] == ws[..n];
    } else {
      OneWorkerMoves(ws[..n], w, to, g);
      assert ws[w := to][..n] == ws[..n][w := to];
    }
  }

  lemma OneWorkerJoins(ws: seq<Worker>, g: Gauge)
    ensures Tally(ws + [Receiving], g) == Tally(ws, g) + Weigh(Receiving, g)
  {
    assert (ws + [Receiving])[..|ws|] == ws;
  }

  lemma {:induction false} AtLeastOwn(ws: seq<Worker>, w: nat, g: Gauge)
    requires w < |ws|
    ensures Tally(ws, g) >= Weigh(ws[w], g)
  {
    if w < |ws| - 1 {
      AtLeastOwn(ws[..|ws| - 1], w, g);
    }
  }

  lemma {:induction false} SomeLive(ws: seq<Worker>) returns (w: nat)
    requires Tally(ws, Live) > 0
    ensures w < |ws| && !ws[w].Exited?
  {
    var n := |ws| - 1;
    if ws[n].Exited? {
      w := SomeLive(ws[..n]);
    } else {
      w := n;
    }
  }

  /** Exited workers hold nothing. */
  lemma {:induction false} NoneLive(ws: seq<Worker>, g: Gauge)
    requires Tally(ws, Live) == 0
    ensures Tally(ws, g) == 0
    ensures forall w | 0 <= w < |ws| :: ws[w].Exited?
  {
    if ws != [] {
      NoneLive(ws[..|ws| - 1], g);
    }
  }

  /** The worker an action moves, before and after. */
  ghost predicate TallyMoves(before: seq<Worker>, after: seq<Worker>, from: Worker, to: Worker, g: Gauge) {
    Tally(after, g) + Weigh(from, g) == Tally(before, g) + Weigh(to, g)
  }

  ghost predicate TallyChange(replies: Replies, s: State, a: Action, g: Gauge)
    requires Enabled(replies, s, a)
  {
    var s' := Apply(replies, s, a);
    match a
    case Spawn => Tally(s'.workers, g) == Tally(s.workers, g) + Weigh(Receiving, g)
    case Take(w) => TallyMoves(s.workers, s'.workers, Receiving, Fetching(s.queue[0]), g)
    case Leave(w) => TallyMoves(s.workers, s'.workers, Receiving, Exited, g)
    case Reply(w) => TallyMoves(s.workers, s'.workers, s.workers[w], s'.workers[w], g)
    case Send(w) => TallyMoves(s.workers, s'.workers, s.workers[w], Receiving, g)
    case _ => s'.workers == s.workers
  }

  /** How one action changes the tally of a gauge. */
  lemma TallyAfter(replies: Replies, s: State, a: Action, g: Gauge)
    requires Enabled(replies, s, a)
    ensures TallyChange(replies, s, a, g)
  {
    match a {
      case Spawn => OneWorkerJoins(s.workers, g);
      case Take(w) => OneWorkerMoves(s.workers, w, Fetching(s.queue[0]), g);
      case Leave(w) => OneWorkerMoves(s.workers, w, Exited, g);
      case Reply(w) =>
        OneWorkerMoves(s.workers, w, Sending(s.workers[w].ref), g);
        OneWorkerMoves(s.workers, w, Receiving, g);
      case Send(w) => OneWorkerMoves(s.workers, w, Receiving, g);
      case _ =>
    }
  }

  /** How often r stands in a channel or a history. */
  function Count(q: seq<nat>, r: nat): nat { multiset(q)[r] }

  lemma CountAppend(q: seq<nat>, x: nat, r: nat)
    ensures Count(q + [x], r) == Count(q, r) + if x == r then 1 else 0
  {
  }

  lemma CountFirst(q: seq<nat>, r: nat)
    requires q != []
    ensures Count(q, r) == Count(q[1..], r) + if q[0] == r then 1 else 0
  {
    assert q == [q[0]] + q[1..];
  }

  // ----- The invariant -----

  function FedCount(replies: Replies, s: State): nat {
    match s.caller
    case Starting => 0
    case Feeding(next) => next
    case _ => |replies|
  }

  /** The goroutines agree about which of them exist and which channels are closed. */
  ghost predicate ControlOk(replies: Replies, s: State) {
    && |s.workers| <= PoolSize(replies)
    && (!s.caller.Starting? ==> |s.workers| == PoolSize(replies))
    && FedCount(replies, s) <= |replies|
    && s.waitGroup == Tally(s.workers, Live)
    && (s.inClosed <==> s.caller.Closed? || s.caller.Draining? || s.caller.Finished?)
    && (s.closer.NotStarted? <==> !s.caller.Draining? && !s.caller.Finished?)
    && (s.outClosed <==> s.closer.Done?)
    && (s.outClosed ==> s.waitGroup == 0)
    && (s.caller.Finished? ==> s.outClosed && s.buffer == [])
  }

  ghost predicate ExitsOk(s: State) {
    forall w | 0 <= w < |s.workers| && s.workers[w].Exited? :: s.inClosed && s.queue == []
  }

  /** The references handed out are all somewhere: the sizes add up. */
  ghost predicate SizesOk(replies: Replies, s: State) {
    && |s.queue| + Tally(s.workers, AnyFetching) + |s.fetched| == FedCount(replies, s)
    && Tally(s.workers, AnySending) + |s.buffer| + |s.received| + |s.dropped| == |s.fetched|
  }

  /** Reference r, once handed out, is in exactly one place; once fetched, it is kept or
      dropped according to what its RPC answered. */
  ghost predicate PlaceOk(replies: Replies, s: State, r: nat) {
    && Count(s.queue, r) + Tally(s.workers, FetchingRef(r)) + Count(s.fetched, r)
       == (if r < FedCount(replies, s) then 1 else 0)
    && Tally(s.workers, SendingRef(r)) + Count(s.buffer, r) + Count(s.received, r)
       == (if r < |replies| && replies[r].Some? then Count(s.fetched, r) else 0)
    && Count(s.dropped, r) == (if r < |replies| && replies[r].Some? then 0 else Count(s.fetched, r))
  }

  ghost predicate Inv(replies: Replies, s: State) {
    && ControlOk(replies, s) && ExitsOk(s) && SizesOk(replies, s)
    && forall r: nat :: PlaceOk(replies, s, r)
  }

  predicate OfWorker(a: Action) { a.Take? || a.Leave? || a.Reply? || a.Send? }

  lemma WorkersKeepControl(replies: Replies, s: State, a: Action)
    requires ControlOk(replies, s) && Enabled(replies, s, a) && OfWorker(a)
    ensures ControlOk(replies, Apply(replies, s, a))
  {
    TallyAfter(replies, s, a, Live);
    AtLeastOwn(s.workers, a.w, Live);
  }

  lemma CallersKeepControl(replies: Replies, s: State, a: Action)
    requires ControlOk(replies, s) && Enabled(replies, s, a) && !OfWorker(a)
    ensures ControlOk(replies, Apply(replies, s, a))
  {
    if a.Spawn? {
      OneWorkerJoins(s.workers, Live);
    }
  }

  lemma WorkersKeepSizes(replies: Replies, s: State, a: Action)
    requires SizesOk(replies, s) && Enabled(replies, s, a) && OfWorker(a) && !a.Reply?
    ensures SizesOk(replies, Apply(replies, s, a))
  {
    TallyAfter(replies, s, a, AnyFetching);
    TallyAfter(replies, s, a, AnySending);
  }

  lemma ReplyKeepsSizes(replies: Replies, s: State, w: nat)
    requires SizesOk(replies, s) && Enabled(replies, s, Reply(w))
    ensures SizesOk(replies, Apply(replies, s, Reply(w)))
  {
    var to := if replies[s.workers[w].ref].Some? then Sending(s.workers[w].ref) else Receiving;
    OneWorkerMoves(s.workers, w, to, AnyFetching);
    OneWorkerMoves(s.workers, w, to, AnySending);
  }

  lemma CallersKeepSizes(replies: Replies, s: State, a: Action)
    requires ControlOk(replies, s) && SizesOk(replies, s) && Enabled(replies, s, a) && !OfWorker(a)
    ensures SizesOk(replies, Apply(replies, s, a))
  {
    if a.Spawn? {
      OneWorkerJoins(s.workers, AnyFetching);
      OneWorkerJoins(s.workers, AnySending);
    }
  }

  lemma WorkersKeepPlace(replies: Replies, s: State, a: Action, r: nat)
    requires PlaceOk(replies, s, r) && Enabled(replies, s, a) && OfWorker(a) && !a.Reply?
    ensures PlaceOk(replies, Apply(replies, s, a), r)
  {
    TallyAfter(replies, s, a, FetchingRef(r));
    TallyAfter(replies, s, a, SendingRef(r));
    match a {
      case Take(w) => CountFirst(s.queue, r);
      case Send(w) => CountAppend(s.buffer, s.workers[w].ref, r);
      case _ =>
    }
  }

  lemma AnswerKeepsPlace(replies: Replies, s: State, w: nat, r: nat)
    requires PlaceOk(replies, s, r) && Enabled(replies, s, Reply(w))
    requires replies[s.workers[w].ref].Some?
    ensures PlaceOk(replies, Apply(replies, s, Reply(w)), r)
  {
    var ref := s.workers[w].ref;
    CountAppend(s.fetched, ref, r);
    OneWorkerMoves(s.workers, w, Sending(ref), FetchingRef(r));
    OneWorkerMoves(s.workers, w, Sending(ref), SendingRef(r));
  }

  lemma NilKeepsPlace(replies: Replies, s: State, w: nat, r: nat)
    requires PlaceOk(replies, s, r) && Enabled(replies, s, Reply(w))
    requires replies[s.workers[w].ref].None?
    ensures PlaceOk(replies, Apply(replies, s, Reply(w)), r)
  {
    var ref := s.workers[w].ref;
    CountAppend(s.fetched, ref, r);
    CountAppend(s.dropped, ref, r);
    OneWorkerMoves(s.workers, w, Receiving, FetchingRef(r));
    OneWorkerMoves(s.workers, w, Receiving, SendingRef(r));
  }

  lemma CallersKeepPlace(replies: Replies, s: State, a: Action, r: nat)
    requires ControlOk(replies, s) && PlaceOk(replies, s, r) && Enabled(replies, s, a) && !OfWorker(a)
    ensures PlaceOk(replies, Apply(replies, s, a), r)
  {
    TallyAfter(replies, s, a, FetchingRef(r));
    TallyAfter(replies, s, a, SendingRef(r));
    match a {
      case Feed => CountAppend(s.queue, s.caller.next, r);
      case Receive =>
        CountFirst(s.buffer, r);
        CountAppend(s.received, s.buffer[0], r);
      case _ =>
    }
  }

  lemma ExitsKept(replies: Replies, s: State, a: Action)
    requires ControlOk(replies, s) && ExitsOk(s) && Enabled(replies, s, a)
    ensures ExitsOk(Apply(replies, s, a))
  {
    var s' := Apply(replies, s, a);
    forall w | 0 <= w < |s'.workers| && s'.workers[w].Exited? ensures s'.inClosed && s'.queue == [] {
      assert a.Leave? || s.workers[w].Exited?;
    }
  }

  /** The invariant holds in every state of every run. */
  lemma {:induction false} InvAlways(replies: Replies, run: seq<State>, i: nat)
    requires IsRun(replies, run) && i < |run|
    ensures Inv(replies, run[i])
    ensures |run[i].workers| <= 32 && |run[i].workers| <= |replies|
    ensures !run[i].caller.Starting? ==> |run[i].workers| == if |replies| < 32 then |replies| else 32
  {
    if i > 0 {
      InvAlways(replies, run, i - 1);
      assert Step(replies, run[i - 1], run[i]);
      var a :| Enabled(replies, run[i - 1], a) && run[i] == Apply(replies, run[i - 1], a);
      var s := run[i - 1];
      ExitsKept(replies, s, a);
      if a.Reply? {
        WorkersKeepControl(replies, s, a);
        ReplyKeepsSizes(replies, s, a.w);
      } else if OfWorker(a) {
        WorkersKeepControl(replies, s, a);
        WorkersKeepSizes(replies, s, a);
      } else {
        CallersKeepControl(replies, s, a);
        CallersKeepSizes(replies, s, a);
      }
      forall r: nat ensures PlaceOk(replies, run[i], r) {
        if a.Reply? {
          if replies[s.workers[a.w].ref].Some? {
            AnswerKeepsPlace(replies, s, a.w, r);
          } else {
            NilKeepsPlace(replies, s, a.w, r);
          }
        } else if OfWorker(a) {
          WorkersKeepPlace(replies, s, a, r);
        } else {
          CallersKeepPlace(replies, s, a, r);
        }
      }
    }
  }

  // ----- Safety -----

  lemma ChannelsHaveRoom(replies: Replies, s: State, w: nat)
    requires Inv(replies, s) && w < |s.workers| && s.workers[w].Sending?
    ensures Enabled(replies, s, Send(w))
  {
    AtLeastOwn(s.workers, w, AnySending);
    AtLeastOwn(s.workers, w, Live);
  }

  /** In every state of every run, a worker with a result can send it at once: `out` is open
      and has room; likewise the caller can always feed the next reference. */
  lemma SendsNeverBlockOrPanic(replies: Replies, run: seq<State>, i: nat)
    requires IsRun(replies, run) && i < |run|
    ensures forall w: nat | w < |run[i].workers| && run[i].workers[w].Sending? :: Enabled(replies, run[i], Send(w))
    ensures run[i].caller.Feeding? && run[i].caller.next < |replies| ==> Enabled(replies, run[i], Feed)
    ensures run[i].caller.Feeding? ==> !run[i].inClosed
  {
    InvAlways(replies, run, i);
    forall w: nat | w < |run[i].workers| && run[i].workers[w].Sending? ensures Enabled(replies, run[i], Send(w)) {
      ChannelsHaveRoom(replies, run[i], w);
    }
  }

  /** No reference is fetched twice, and none that was not given. */
  lemma FetchedAtMostOnce(replies: Replies, run: seq<State>, i: nat, r: nat)
    requires IsRun(replies, run) && i < |run|
    ensures Count(run[i].fetched, r) <= 1
    ensures r >= |replies| ==> Count(run[i].fetched, r) == 0
  {
    InvAlways(replies, run, i);
    assert PlaceOk(replies, run[i], r);
  }

  // ----- Progress -----

  function Stage(c: Caller): nat {
    match c
    case Starting => 4
    case Feeding(_) => 3
    case Closed => 2
    case Draining => 1
    case Finished => 0
  }

  /** Work left: it shrinks with every action. */
  function Measure(replies: Replies, s: State): int {
    5 * (|replies| - FedCount(replies, s)) + 4 * |s.queue| + Tally(s.workers, Load) + |s.buffer|
    + 2 * (PoolSize(replies) - |s.workers|) + Stage(s.caller) + if s.closer.Done? then 0 else 1
  }

  lemma MeasureShrinks(replies: Replies, s: State, a: Action)
    requires Enabled(replies, s, a) && ControlOk(replies, s) && ControlOk(replies, Apply(replies, s, a))
    ensures 0 <= Measure(replies, Apply(replies, s, a)) < Measure(replies, s)
  {
    TallyAfter(replies, s, a, Load);
  }

  ghost predicate Stuck(replies: Replies, s: State) { forall a :: !Enabled(replies, s, a) }

  /** No deadlock: until the caller has returned some goroutine can act. */
  lemma SomethingEnabled(replies: Replies, s: State)
    requires Inv(replies, s) && !s.caller.Finished?
    ensures !Stuck(replies, s)
  {
    var a;
    match s.caller {
      case Starting => a := if |s.workers| < PoolSize(replies) then Spawn else StartFeeding;
      case Feeding(next) => a := if next < |replies| then Feed else CloseIn;
      case Closed => a := StartCloser;
      case Draining =>
        if s.buffer != [] {
          a := Receive;
        } else if s.outClosed {
          a := Return;
        } else if s.waitGroup == 0 {
          a := CloseOut;
        } else {
          var w := SomeLive(s.workers);
          match s.workers[w] {
            case Receiving => a := if s.queue == [] then Leave(w) else Take(w);
            case Fetching(ref) =>
              a := Reply(w);
              AtLeastOwn(s.workers, w, FetchingRef(ref));
              assert PlaceOk(replies, s, ref);
            case Sending(_) =>
              a := Send(w);
              ChannelsHaveRoom(replies, s, w);
          }
        }
    }
    assert Enabled(replies, s, a);
  }

  lemma RunShrinks(replies: Replies, run: seq<State>, i: nat)
    requires IsRun(replies, run) && i + 1 < |run|
    ensures 0 <= Measure(replies, run[i + 1]) < Measure(replies, run[i])
  {
    InvAlways(replies, run, i);
    InvAlways(replies, run, i + 1);
    assert Step(replies, run[i], run[i + 1]);
    var a :| Enabled(replies, run[i], a) && run[i + 1] == Apply(replies, run[i], a);
    MeasureShrinks(replies, run[i], a);
  }

  /** Every run is finite: its length is bounded by the number of references. */
  lemma {:induction false} RunsAreFinite(replies: Replies, run: seq<State>, i: nat)
    requires IsRun(replies, run) && i < |run|
    ensures 0 <= Measure(replies, run[i]) <= 5 * |replies| + 2 * PoolSize(replies) + 5 - i
  {
    if i > 0 {
      RunsAreFinite(replies, run, i - 1);
      RunShrinks(replies, run, i - 1);
    }
  }

  /** A run that cannot go on has returned from the call. */
  lemma StuckMeansFinished(replies: Replies, run: seq<State>)
    requires IsRun(replies, run)
    requires Stuck(replies, run[|run| - 1])
    ensures run[|run| - 1].caller.Finished?
  {
    var s := run[|run| - 1];
    InvAlways(replies, run, |run| - 1);
    if !s.caller.Finished? {
      SomethingEnabled(replies, s);
    }
  }

  // ----- What a finished run has received -----

  /** In a finished run every reference was fetched exactly once, and received exactly once
      when its RPC returned a subchannel, otherwise never. */
  lemma FinishedReceivesAll(replies: Replies, run: seq<State>, r: nat)
    requires IsRun(replies, run) && run[|run| - 1].caller.Finished?
    ensures var s := run[|run| - 1];
      && Count(s.fetched, r) == (if r < |replies| then 1 else 0)
      && Count(s.received, r) == (if Answered(replies, r) then 1 else 0)
  {
    var s := run[|run| - 1];
    InvAlways(replies, run, |run| - 1);
    assert PlaceOk(replies, s, r);
    NoneLive(s.workers, FetchingRef(r));
    NoneLive(s.workers, SendingRef(r));
    if |replies| > 0 {
      assert s.workers[0].Exited?;
    }
    assert s.queue == [];
  }

  predicate Answered(replies: Replies, r: nat) { r < |replies| && replies[r].Some? }

  ghost predicate AllAnswered(replies: Replies, refs: seq<nat>) {
    forall i | 0 <= i < |refs| :: Answered(replies, refs[i])
  }

  /** The results in the order the caller drained them. */
  ghost function ResultsOf(replies: Replies, refs: seq<nat>): seq<Fetched>
    requires AllAnswered(replies, refs)
  {
    seq(|refs|, i requires 0 <= i < |refs| => replies[refs[i]].value)
  }

  lemma ResultsWithout(replies: Replies, refs: seq<nat>, i: nat)
    requires AllAnswered(replies, refs) && i < |refs|
    ensures AllAnswered(replies, refs[..i] + refs[i + 1..])
    ensures multiset(ResultsOf(replies, refs[..i] + refs[i + 1..]))
         == multiset(ResultsOf(replies, refs)) - multiset{replies[refs[i]].value}
  {
    var rest := refs[..i] + refs[i + 1..];
    var all := ResultsOf(replies, refs);
    assert ResultsOf(replies, rest) == all[..i] + all[i + 1..];
    WithoutPlace(all, i);
  }

  lemma {:induction false} ResultsOrderFree(replies: Replies, a: seq<nat>, b: seq<nat>)
    requires AllAnswered(replies, a) && AllAnswered(replies, b)
    requires multiset(a) == multiset(b)
    ensures multiset(ResultsOf(replies, a)) == multiset(ResultsOf(replies, b))
  {
    if a == [] {
      assert |multiset(b)| == 0;
    } else {
      var n := |a| - 1;
      assert a[n] in multiset(a);
      assert a[n] in multiset(b);
      var i :| 0 <= i < |b| && b[i] == a[n];
      WithoutPlace(a, n);
      WithoutPlace(b, i);
      ResultsWithout(replies, a, n);
      ResultsWithout(replies, b, i);
      ResultsOrderFree(replies, a[..n] + a[n + 1..], b[..i] + b[i + 1..]);
      Restored(replies, a, b, n, i);
    }
  }

  lemma Restored(replies: Replies, a: seq<nat>, b: seq<nat>, n: nat, i: nat)
    requires AllAnswered(replies, a) && AllAnswered(replies, b)
    requires n < |a| && i < |b| && a[n] == b[i]
    requires var x := replies[a[n]].value;
      multiset(ResultsOf(replies, a)) - multiset{x} == multiset(ResultsOf(replies, b)) - multiset{x}
    ensures multiset(ResultsOf(replies, a)) == multiset(ResultsOf(replies, b))
  {
    var x, all, all' := replies[a[n]].value, ResultsOf(replies, a), ResultsOf(replies, b);
    assert all[n] == x && all'[i] == x;
    assert x in multiset(all) && x in multiset(all');
    assert multiset(all) == (multiset(all) - multiset{x}) + multiset{x};
    assert multiset(all') == (multiset(all') - multiset{x}) + multiset{x};
  }

  /** The references a finished run received, with the facts the index needs. */
  ghost predicate IsOutcome(replies: Replies, refs: seq<nat>) {
    exists run: seq<State> :: IsRun(replies, run) && run[|run| - 1].caller.Finished? && run[|run| - 1].received == refs
  }

  lemma OutcomeCounts(replies: Replies, refs: seq<nat>, r: nat)
    requires IsOutcome(replies, refs)
    ensures Count(refs, r) == if Answered(replies, r) then 1 else 0
  {
    var run: seq<State> :| IsRun(replies, run) && run[|run| - 1].caller.Finished? && run[|run| - 1].received == refs;
    FinishedReceivesAll(replies, run, r);
  }

  lemma OutcomeAnswered(replies: Replies, refs: seq<nat>)
    requires IsOutcome(replies, refs)
    ensures AllAnswered(replies, refs)
    ensures NoDup(refs)
  {
    forall i | 0 <= i < |refs| ensures Answered(replies, refs[i]) {
      OutcomeCounts(replies, refs, refs[i]);
      assert refs[i] in multiset(refs);
    }
    forall i, j | 0 <= i < j < |refs| ensures refs[i] != refs[j] {
      OutcomeCounts(replies, refs, refs[j]);
      assert refs == refs[..j] + [refs[j]] + refs[j + 1..];
      assert refs[i] in refs[..j];
    }
  }

  /** No two answers carry the same subchannel id. */
  ghost predicate DistinctAnswers(replies: Replies) {
    forall i, j | 0 <= i < j < |replies| && Answered(replies, i) && Answered(replies, j) ::
      replies[i].value.id != replies[j].value.id
  }

  lemma OutcomeDistinct(replies: Replies, refs: seq<nat>)
    requires IsOutcome(replies, refs) && DistinctAnswers(replies) && AllAnswered(replies, refs)
    ensures DistinctIds(ResultsOf(replies, refs))
  {
    OutcomeAnswered(replies, refs);
    var results := ResultsOf(replies, refs);
    forall i, j | 0 <= i < j < |results| ensures results[i].id != results[j].id {
      assert refs[i] != refs[j];
      assert Answered(replies, refs[i]) && Answered(replies, refs[j]);
    }
  }

  /** The two maps that come out of a finished call do not depend on the schedule, and they
      are inverse to each other. */
  lemma ScheduleIndependent(replies: Replies, a: seq<nat>, byAddr: ByAddress, info: InfoMap,
                            b: seq<nat>, byAddr': ByAddress, info': InfoMap)
    requires IsOutcome(replies, a) && IsOutcome(replies, b) && DistinctAnswers(replies)
    requires AllAnswered(replies, a) ==> IsIndex(ResultsOf(replies, a), byAddr, info)
    requires AllAnswered(replies, b) ==> IsIndex(ResultsOf(replies, b), byAddr', info')
    ensures info == info' && byAddr == byAddr' && Indexed(byAddr, info)
  {
    OutcomeAnswered(replies, a);
    OutcomeAnswered(replies, b);
    OutcomeDistinct(replies, a);
    forall r: nat ensures multiset(a)[r] == multiset(b)[r] {
      OutcomeCounts(replies, a, r);
      OutcomeCounts(replies, b, r);
      assert Count(a, r) == Count(b, r);
    }
    assert multiset(a) == multiset(b);
    ResultsOrderFree(replies, a, b);
    ArrivalOrderIrrelevant(ResultsOf(replies, a), byAddr, info, ResultsOf(replies, b), byAddr', info');
    DistinctGivesInverse(ResultsOf(replies, a), byAddr, info);
  }

  /** The maps hold exactly the subchannels the RPCs returned. */
  lemma NothingLost(replies: Replies, refs: seq<nat>, byAddr: ByAddress, info: InfoMap, r: nat)
    requires IsOutcome(replies, refs) && DistinctAnswers(replies) && Answered(replies, r)
    requires AllAnswered(replies, refs) ==> IsIndex(ResultsOf(replies, refs), byAddr, info)
    ensures var answer := replies[r].value;
      && answer.id in info && info[answer.id] == answer.info
      && answer.info.target in byAddr && answer.id in byAddr[answer.info.target]
  {
    OutcomeAnswered(replies, refs);
    OutcomeDistinct(replies, refs);
    OutcomeCounts(replies, refs, r);
    assert r in multiset(refs);
    var i :| 0 <= i < |refs| && refs[i] == r;
    var results := ResultsOf(replies, refs);
    InfoOfValue(results, i);
    DistinctGivesInverse(results, byAddr, info);
  }
}
