/** The shared reflection stream: who may use it, and whose answer is whose. */
module Transport {
  import opened Prelude

  /** One reflection stream and its mutex. The server answers in order: its k-th response
      on the stream is for the k-th request sent on it. A failed Send or Recv ends the stream. */
  datatype Stream = Stream(owner: Option<nat>, sent: seq<nat>, answered: nat, broken: bool, served: nat)

  /** One invocation of call(); calls are numbered, and a call sends at most one request,
      so its number also identifies its request. */
  datatype Call =
    | Begun                              // before the locked read of transport and unusable
    | Opening                            // transport was nil: create a stream
    | Queued(stream: nat)                // in roundTrip, before the stream's lock
    | Locked(stream: nat)                // holding it, before Send
    | Awaiting(stream: nat)              // after Send, before Recv
    | Answered(stream: nat, request: nat)    // got the response to that request
    | Unimplemented                      // got that status; marks the resolver next
    | Failed
    | Succeeded(stream: nat, request: nat)

  /** The resolver's fields, all streams ever created, and all calls. */
  datatype World = World(transport: Option<nat>, unusable: bool, streams: seq<Stream>, calls: seq<Call>)

  datatype Action =
    | Begin(c: nat)
    | Open(c: nat, ok: bool)
    | Lock(c: nat)
    | Send(c: nat, ok: bool, unimplemented: bool)   // the status is read only when it fails
    | Recv(c: nat, outcome: Outcome)
    | Publish(c: nat)                    // store the stream for later calls
    | GiveUp(c: nat)                     // set unusable

  /** A response with files; a response with an error or of another kind; a dead stream. */
  datatype Outcome = Files | Refused(unimplemented: bool) | Dead(unimplemented: bool)

  ghost predicate Enabled(w: World, a: Action) {
    && a.c < |w.calls|
    && match a
       case Begin(c) => w.calls[c].Begun?
       case Open(c, _) => w.calls[c].Opening?
       case Lock(c) => w.calls[c].Queued? && w.calls[c].stream < |w.streams| && w.streams[w.calls[c].stream].owner.None?
       case Send(c, ok, _) => w.calls[c].Locked? && w.calls[c].stream < |w.streams|
                           && (ok ==> !w.streams[w.calls[c].stream].broken)
       case Recv(c, outcome) => w.calls[c].Awaiting? && w.calls[c].stream < |w.streams|
                           && (!outcome.Dead? ==> CanAnswer(w.streams[w.calls[c].stream]))
       case Publish(c) => w.calls[c].Answered?
       case GiveUp(c) => w.calls[c].Unimplemented?
  }

  /** A live stream with an unanswered request. */
  predicate CanAnswer(s: Stream) { !s.broken && s.answered < |s.sent| }

  function ErrorOf(unimplemented: bool): Call { if unimplemented then Unimplemented else Failed }

  function OnStream(w: World, i: nat, s: Stream): World
    requires i < |w.streams|
  {
    w.(streams := w.streams[i := s])
  }

  function At(w: World, c: nat, to: Call): World
    requires c < |w.calls|
  {
    w.(calls := w.calls[c := to])
  }

  ghost function Apply(w: World, a: Action): World
    requires Enabled(w, a)
  {
    match a
    case Begin(c) =>
      At(w, c, if w.unusable then Failed
               else if w.transport.Some? then Queued(w.transport.value) else Opening)
    case Open(c, ok) =>
      if ok then At(w.(streams := w.streams + [Stream(None, [], 0, false, 0)]), c, Queued(|w.streams|))
      else At(w, c, Failed)
    case Lock(c) =>
      var i := w.calls[c].stream;
      At(OnStream(w, i, w.streams[i].(owner := Some(c))), c, Locked(i))
    case Send(c, ok, unimplemented) =>
      var i := w.calls[c].stream;
      var s := w.streams[i];
      if ok then At(OnStream(w, i, s.(sent := s.sent + [c])), c, Awaiting(i))
      else At(OnStream(w, i, s.(broken := true, owner := None)), c, ErrorOf(unimplemented))
    case Recv(c, outcome) =>
      var i := w.calls[c].stream;
      var s := w.streams[i];
      (match outcome
       case Files =>
         At(OnStream(w, i, s.(answered := s.answered + 1, served := s.served + 1, owner := None)), c,
            Answered(i, s.sent[s.answered]))
       case Refused(u) =>
         At(OnStream(w, i, s.(answered := s.answered + 1, owner := None)), c, ErrorOf(u))
       case Dead(u) =>
         At(OnStream(w, i, s.(broken := true, owner := None)), c, ErrorOf(u)))
    case Publish(c) =>
      At(w.(transport := Some(w.calls[c].stream)), c, Succeeded(w.calls[c].stream, w.calls[c].request))
    case GiveUp(c) => At(w.(unusable := true), c, Failed)
  }

  ghost predicate Step(w: World, w': World) {
    exists a :: Enabled(w, a) && w' == Apply(w, a)
  }

  ghost predicate IsStart(w: World) {
    w.transport.None? && !w.unusable && w.streams == [] && forall c | 0 <= c < |w.calls| :: w.calls[c].Begun?
  }

  /** Any number of steps from any state. */
  ghost predicate IsPath(path: seq<World>) {
    path != [] && forall i | 0 <= i < |path| - 1 :: Step(path[i], path[i + 1])
  }

  ghost predicate IsRun(run: seq<World>) { IsPath(run) && IsStart(run[0]) }

  // ----- The invariant -----

  predicate Inside(call: Call) { call.Locked? || call.Awaiting? }

  ghost predicate StreamOk(w: World, i: nat)
    requires i < |w.streams|
  {
    var s := w.streams[i];
    && (s.owner.Some? ==> s.owner.value < |w.calls| && Inside(w.calls[s.owner.value])
                          && w.calls[s.owner.value].stream == i)
    && (!s.broken ==>
          if s.owner.Some? && w.calls[s.owner.value].Awaiting?
          then |s.sent| == s.answered + 1 && s.sent[s.answered] == s.owner.value
          else |s.sent| == s.answered)
  }

  ghost predicate CallOk(w: World, c: nat)
    requires c < |w.calls|
  {
    match w.calls[c]
    case Queued(i) => i < |w.streams|
    case Locked(i) => i < |w.streams| && w.streams[i].owner == Some(c)
    case Awaiting(i) => i < |w.streams| && w.streams[i].owner == Some(c)
    case Answered(i, request) => i < |w.streams| && w.streams[i].served > 0 && request == c
    case Succeeded(i, request) => i < |w.streams| && w.streams[i].served > 0 && request == c
    case _ => true
  }

  ghost predicate Inv(w: World) {
    && (forall i | 0 <= i < |w.streams| :: StreamOk(w, i))
    && (forall c | 0 <= c < |w.calls| :: CallOk(w, c))
    && (w.transport.Some? ==> w.transport.value < |w.streams| && w.streams[w.transport.value].served > 0)
  }

  /** The stream a call is on, or -1. */
  function StreamOf(call: Call): int {
    match call
    case Queued(i) => i
    case Locked(i) => i
    case Awaiting(i) => i
    case _ => -1
  }

  lemma OtherStreamKept(w: World, a: Action, i: nat)
    requires Inv(w) && Enabled(w, a) && i < |w.streams| && i != StreamOf(w.calls[a.c])
    ensures i < |Apply(w, a).streams| && StreamOk(Apply(w, a), i)
  {
    assert CallOk(w, a.c) && StreamOk(w, i);
  }

  lemma OwnStreamKept(w: World, a: Action)
    requires Inv(w) && Enabled(w, a) && 0 <= StreamOf(w.calls[a.c]) < |w.streams|
    ensures StreamOf(w.calls[a.c]) < |Apply(w, a).streams| && StreamOk(Apply(w, a), StreamOf(w.calls[a.c]))
  {
    assert CallOk(w, a.c) && StreamOk(w, StreamOf(w.calls[a.c]));
  }

  /** A step changes no other call, no stream but its own, and lowers no stream's count. */
  lemma StreamsUsed(w: World, a: Action, c: nat)
    requires Enabled(w, a) && c < |w.calls| && c != a.c
    ensures var w' := Apply(w, a); |w'.calls| == |w.calls| && w'.calls[c] == w.calls[c]
    ensures |Apply(w, a).streams| >= |w.streams|
    ensures forall i | 0 <= i < |w.streams| ::
      var was, now := w.streams[i], Apply(w, a).streams[i];
      now.served >= was.served && (now.owner == was.owner || i == StreamOf(w.calls[a.c]))
  {
  }

  lemma OtherCallKept(w: World, a: Action, c: nat)
    requires Inv(w) && Enabled(w, a) && c < |w.calls| && c != a.c
    ensures CallOk(Apply(w, a), c)
  {
    assert CallOk(w, c) && CallOk(w, a.c);
    StreamsUsed(w, a, c);
  }

  lemma OwnCallKept(w: World, a: Action)
    requires Inv(w) && Enabled(w, a)
    ensures CallOk(Apply(w, a), a.c)
  {
    assert CallOk(w, a.c);
    if Inside(w.calls[a.c]) {
      assert StreamOk(w, w.calls[a.c].stream);
    }
  }

  lemma InvKept(w: World, a: Action)
    requires Inv(w) && Enabled(w, a)
    ensures Inv(Apply(w, a))
  {
    var w' := Apply(w, a);
    assert CallOk(w, a.c);
    forall i | 0 <= i < |w'.streams| ensures StreamOk(w', i) {
      if i == StreamOf(w.calls[a.c]) {
        OwnStreamKept(w, a);
      } else if i < |w.streams| {
        OtherStreamKept(w, a, i);
      }
    }
    forall c | 0 <= c < |w'.calls| ensures CallOk(w', c) {
      if c == a.c {
        OwnCallKept(w, a);
      } else {
        OtherCallKept(w, a, c);
      }
    }
  }

  lemma {:induction false} InvAlways(run: seq<World>, i: nat)
    requires IsRun(run) && i < |run|
    ensures Inv(run[i])
  {
    if i > 0 {
      InvAlways(run, i - 1);
      assert Step(run[i - 1], run[i]);
      var a :| Enabled(run[i - 1], a) && run[i] == Apply(run[i - 1], a);
      InvKept(run[i - 1], a);
    }
  }

  /** Every call that gets files gets the answer to its own request, however many calls
      share the stream and whichever streams have failed. */
  lemma OwnAnswer(run: seq<World>, i: nat, c: nat)
    requires IsRun(run) && i < |run| && c < |run[i].calls|
    ensures run[i].calls[c].Answered? || run[i].calls[c].Succeeded? ==> run[i].calls[c].request == c
  {
    InvAlways(run, i);
    assert CallOk(run[i], c);
  }

  /** At most one call is between the lock and the unlock of a stream. */
  lemma OneInside(run: seq<World>, i: nat, c: nat, d: nat)
    requires IsRun(run) && i < |run| && c < |run[i].calls| && d < |run[i].calls|
    requires Inside(run[i].calls[c]) && Inside(run[i].calls[d]) && run[i].calls[c].stream == run[i].calls[d].stream
    ensures c == d
  {
    InvAlways(run, i);
    assert CallOk(run[i], c) && CallOk(run[i], d);
  }

  /** The shared stream has answered a request before it is shared. */
  lemma SharedStreamHasServed(run: seq<World>, i: nat)
    requires IsRun(run) && i < |run| && run[i].transport.Some?
    ensures run[i].transport.value < |run[i].streams| && run[i].streams[run[i].transport.value].served > 0
  {
    InvAlways(run, i);
  }

  /** Only an Unimplemented status, of a failed Send, a failed Recv or an error response, makes a
      call give up on the target, and only that sets the flag. */
  lemma OnlyUnimplementedGivesUp(w: World, a: Action)
    requires Enabled(w, a)
    ensures Apply(w, a).unusable <==> w.unusable || a.GiveUp?
    ensures Apply(w, a).calls[a.c].Unimplemented? <==>
      || (a.Send? && !a.ok && a.unimplemented)
      || (a.Recv? && !a.outcome.Files? && a.outcome.unimplemented)
  {
  }

  /** Only a failed Send or Recv ends a stream, and only the call's own; an error response does not. */
  lemma OnlyFailuresEndStreams(w: World, a: Action, i: nat)
    requires Enabled(w, a) && i < |w.streams|
    ensures i < |Apply(w, a).streams|
    ensures Apply(w, a).streams[i].broken <==> w.streams[i].broken || (Kills(a) && i == w.calls[a.c].stream)
  {
  }

  /** unusable is never reset, and a shared stream never becomes nil again. */
  lemma {:induction false} NeverReset(run: seq<World>, i: nat, j: nat)
    requires IsRun(run) && i <= j < |run|
    ensures run[i].unusable ==> run[j].unusable
    ensures run[i].transport.Some? ==> run[j].transport.Some?
    ensures |run[j].calls| == |run[i].calls|
  {
    if i < j {
      NeverReset(run, i, j - 1);
      assert Step(run[j - 1], run[j]);
    }
  }

  lemma OnlyFails(w: World, a: Action, c: nat)
    requires Enabled(w, a) && w.unusable && c < |w.calls| && (w.calls[c].Begun? || w.calls[c].Failed?)
    ensures var w' := Apply(w, a);
      w'.unusable && c < |w'.calls| && (w'.calls[c].Begun? || w'.calls[c].Failed?)
  {
  }

  /** A call that has not read the flag when it is set never reaches a stream. */
  lemma {:induction false} NoRequestOnceUnusable(run: seq<World>, i: nat, j: nat, c: nat)
    requires IsRun(run) && i <= j < |run| && run[i].unusable
    requires c < |run[i].calls| && run[i].calls[c].Begun?
    ensures run[j].unusable && c < |run[j].calls| && (run[j].calls[c].Begun? || run[j].calls[c].Failed?)
  {
    if i < j {
      NoRequestOnceUnusable(run, i, j - 1, c);
      assert Step(run[j - 1], run[j]);
      var a :| Enabled(run[j - 1], a) && run[j] == Apply(run[j - 1], a);
      OnlyFails(run[j - 1], a, c);
    }
  }

  // ----- When a shared stream that breaks is never replaced -----

  ghost predicate SharedDead(w: World) {
    w.transport.Some? && w.transport.value < |w.streams| && w.streams[w.transport.value].broken
  }

  /** The shared stream is dead, and so is every stream some call may still use; no call is
      about to create or publish another. */
  ghost predicate Stranded(w: World) {
    SharedDead(w) && forall c | 0 <= c < |w.calls| :: StrandedCall(w, w.calls[c])
  }

  ghost predicate StrandedCall(w: World, call: Call) {
    match call
    case Opening => false
    case Answered(_, _) => false
    case Queued(i) => i < |w.streams| && w.streams[i].broken
    case Locked(i) => i < |w.streams| && w.streams[i].broken
    case Awaiting(i) => i < |w.streams| && w.streams[i].broken
    case _ => true
  }

  lemma StrandedCallKept(w: World, a: Action, c: nat)
    requires Stranded(w) && Enabled(w, a) && c < |w.calls|
    ensures |Apply(w, a).calls| == |w.calls| && StrandedCall(Apply(w, a), Apply(w, a).calls[c])
    ensures Apply(w, a).calls[c].Succeeded? ==> w.calls[c].Succeeded?
  {
    assert StrandedCall(w, w.calls[c]) && StrandedCall(w, w.calls[a.c]);
  }

  lemma StrandedKept(w: World, a: Action)
    requires Stranded(w) && Enabled(w, a)
    ensures Stranded(Apply(w, a))
  {
    forall c | 0 <= c < |Apply(w, a).calls| ensures StrandedCall(Apply(w, a), Apply(w, a).calls[c]) {
      StrandedCallKept(w, a, if c < |w.calls| then c else 0);
    }
  }

  /** From a stranded state no call on this resolver succeeds any more, whatever the target
      does: only a new connection brings a new resolver and a new stream. */
  lemma {:induction false} BrokenStreamNeverReplaced(path: seq<World>, j: nat, c: nat)
    requires IsPath(path) && Stranded(path[0]) && j < |path|
    requires c < |path[0].calls| && !path[0].calls[c].Succeeded?
    ensures Stranded(path[j]) && c < |path[j].calls| && !path[j].calls[c].Succeeded?
  {
    if j > 0 {
      BrokenStreamNeverReplaced(path, j - 1, c);
      assert Step(path[j - 1], path[j]);
      var a :| Enabled(path[j - 1], a) && path[j] == Apply(path[j - 1], a);
      StrandedKept(path[j - 1], a);
      StrandedCallKept(path[j - 1], a, c);
    }
  }

  /** On the path, which starts at w, call c comes to succeed. */
  ghost predicate Leads(w: World, path: seq<World>, c: nat) {
    && IsPath(path) && path[0] == w
    && c < |w.calls| && !w.calls[c].Succeeded?
    && c < |path[|path| - 1].calls| && path[|path| - 1].calls[c].Succeeded?
  }

  lemma LeadsFromBefore(w: World, a: Action, path: seq<World>, c: nat)
    requires Enabled(w, a) && Leads(Apply(w, a), path, c)
    requires c < |w.calls| && !w.calls[c].Succeeded?
    ensures Leads(w, [w] + path, c)
  {
    var longer := [w] + path;
    forall i | 0 <= i < |longer| - 1 ensures Step(longer[i], longer[i + 1]) {
      if i == 0 {
        assert Step(w, Apply(w, a));
      } else {
        assert Step(path[i - 1], path[i]);
      }
    }
  }

  /** How far a call is from success. */
  function Distance(call: Call): nat {
    match call
    case Opening => 5
    case Queued(_) => 4
    case Locked(_) => 3
    case Awaiting(_) => 2
    case _ => 1
  }

  /** The step that takes a call towards success. */
  function NextStep(c: nat, call: Call): Action {
    match call
    case Opening => Open(c, true)
    case Queued(_) => Lock(c)
    case Locked(_) => Send(c, true, false)
    case Awaiting(_) => Recv(c, Files)
    case _ => Publish(c)
  }

  /** Some unfinished call can still succeed. */
  ghost predicate Recoverable(w: World) { exists path: seq<World>, c: nat :: Leads(w, path, c) }

  /** A call that is not stranded gets through, or, where another one holds its stream's lock,
      that one does. */
  lemma {:induction false} CallLeads(w: World, c: nat)
    requires Inv(w) && c < |w.calls| && !StrandedCall(w, w.calls[c])
    ensures Recoverable(w)
    decreases Distance(w.calls[c])
  {
    var call := w.calls[c];
    assert CallOk(w, c) && (StreamOf(call) >= 0 ==> StreamOk(w, StreamOf(call)));
    if call.Queued? && w.streams[call.stream].owner.Some? {
      CallLeads(w, w.streams[call.stream].owner.value);
    } else {
      var a := NextStep(c, call);
      InvKept(w, a);
      var w' := Apply(w, a);
      if call.Answered? {
        assert Step(w, w');
        assert Leads(w, [w, w'], c);
      } else {
        CallLeads(w', c);
        var path, d :| Leads(w', path, d);
        LeadsFromBefore(w, a, path, d);
      }
    }
  }

  /** With a dead shared stream, no continuation has another successful call if and only if no
      call is opening a stream, holds an answer, or is on a stream that still lives. */
  lemma StrandedExactly(w: World)
    requires Inv(w) && SharedDead(w)
    ensures Stranded(w) <==> !Recoverable(w)
  {
    if Stranded(w) {
      forall path: seq<World>, c: nat ensures !Leads(w, path, c) {
        if Leads(w, path, c) {
          BrokenStreamNeverReplaced(path, |path| - 1, c);
        }
      }
    } else {
      var c :| 0 <= c < |w.calls| && !StrandedCall(w, w.calls[c]);
      CallLeads(w, c);
    }
  }

  /** A failed Send or Recv. */
  predicate Kills(a: Action) { (a.Send? && !a.ok) || (a.Recv? && a.outcome.Dead?) }

  /** The call has a way to success that does not need the stream i. */
  predicate HasOtherWay(w: World, call: Call, i: nat) {
    match call
    case Opening => true
    case Answered(_, _) => true
    case Queued(j) => j != i && j < |w.streams| && !w.streams[j].broken
    case Locked(j) => j != i && j < |w.streams| && !w.streams[j].broken
    case Awaiting(j) => j != i && j < |w.streams| && !w.streams[j].broken
    case _ => false
  }

  lemma AfterKill(w: World, a: Action, d: nat)
    requires Inv(w) && Enabled(w, a) && Kills(a) && d < |w.calls| && d != a.c
    ensures |Apply(w, a).calls| == |w.calls|
    ensures StrandedCall(Apply(w, a), Apply(w, a).calls[d]) <==> !HasOtherWay(w, w.calls[d], w.calls[a.c].stream)
  {
    assert CallOk(w, d);
  }

  /** The shared stream's death strands the resolver exactly when no other call is opening a
      stream, holds an answer, or is on another live stream. */
  lemma DeathStrandsExactly(w: World, a: Action)
    requires Inv(w) && Enabled(w, a) && Kills(a) && w.transport == Some(w.calls[a.c].stream)
    ensures Stranded(Apply(w, a)) <==>
      forall d | 0 <= d < |w.calls| && d != a.c :: !HasOtherWay(w, w.calls[d], w.calls[a.c].stream)
  {
    var w' := Apply(w, a);
    assert StrandedCall(w', w'.calls[a.c]);
    forall d | 0 <= d < |w.calls| && d != a.c
      ensures StrandedCall(w', w'.calls[d]) <==> !HasOtherWay(w, w.calls[d], w.calls[a.c].stream) {
      AfterKill(w, a, d);
    }
  }

  lemma RunExtended(run: seq<World>, a: Action) returns (run': seq<World>)
    requires IsRun(run) && Enabled(run[|run| - 1], a)
    ensures run' == run + [Apply(run[|run| - 1], a)] && IsRun(run')
  {
    run' := run + [Apply(run[|run| - 1], a)];
    forall i | 0 <= i < |run'| - 1 ensures Step(run'[i], run'[i + 1]) {
      if i < |run| - 1 {
        assert Step(run[i], run[i + 1]);
      }
    }
  }

  /** After one successful call on the first stream, with others yet to begin. */
  const SHARED := World(Some(0), false, [Stream(None, [0], 1, false, 1)], [Succeeded(0, 0), Begun, Begun])

  lemma SharedReached()
    ensures exists run :: IsRun(run) && run[|run| - 1] == SHARED
  {
    var run := [World(None, false, [], [Begun, Begun, Begun])];
    run := RunExtended(run, Begin(0));
    run := RunExtended(run, Open(0, true));
    assert run[|run| - 1].streams == [Stream(None, [], 0, false, 0)];
    run := RunExtended(run, Lock(0));
    run := RunExtended(run, Send(0, true, false));
    assert run[|run| - 1].streams[0].sent == [0];
    run := RunExtended(run, Recv(0, Files));
    run := RunExtended(run, Publish(0));
    var w := run[|run| - 1];
    assert w.streams == SHARED.streams && w.calls == SHARED.calls;
  }

  /** A run that strands: the first call succeeds, the second one's Send fails; the third, which
      has not even begun, can no longer succeed. */
  lemma StrandedReached()
    ensures exists run :: IsRun(run) && EndsStranded(run[|run| - 1], [Succeeded(0, 0), Failed, Begun])
  {
    SharedReached();
    var run :| IsRun(run) && run[|run| - 1] == SHARED;
    run := RunExtended(run, Begin(1));
    run := RunExtended(run, Lock(1));
    run := RunExtended(run, Send(1, false, false));
    assert run[|run| - 1].calls == [Succeeded(0, 0), Failed, Begun];
    assert EndsStranded(run[|run| - 1], [Succeeded(0, 0), Failed, Begun]);
  }

  ghost predicate EndsStranded(w: World, calls: seq<Call>) { Stranded(w) && w.calls == calls }
}
