/** The handler's lazily dialled connection and the stubs bound to it. */
module Connection {
  import opened Prelude

  /** A gRPC stub: bound to a dialled connection, or set directly on the handler. */
  datatype Stub = BoundTo(conn: nat) | Injected

  /** The fields guarded by the handler's mutex; a resolver is known by its connection. */
  datatype Fields = Fields(conn: Option<nat>, client: Option<Stub>, csds: Option<Stub>, resolver: Option<nat>)

  datatype Kind = Channelz | Csds

  // ----- The locked sections, as functions of the fields -----

  /** What a fresh handler holds. */
  const NOTHING := Fields(None, None, None, None)

  predicate InjectedClient(f: Fields) { f.conn.None? && (f.client.Some? || f.csds.Some?) }

  function StubOf(f: Fields, kind: Kind): Option<Stub> {
    match kind
    case Channelz => f.client
    case Csds => f.csds
  }

  /** The connection dial() tears down: the current one when its state is TRANSIENT_FAILURE
      or SHUTDOWN. */
  function TornDown(f: Fields, broken: bool): Option<nat> { if broken then f.conn else None }

  predicate NeedsDial(f: Fields, broken: bool) { f.conn.None? || broken }

  /** The section in dial(): `broken` is what GetState reports, `attempt` what grpc.Dial yields. */
  function AfterDial(f: Fields, broken: bool, attempt: Option<nat>): Fields {
    if !NeedsDial(f, broken) then f
    else
      var torn := if f.conn.Some? then NOTHING else f;
      match attempt
      case None => torn
      case Some(c) => Fields(Some(c), Some(BoundTo(c)), Some(BoundTo(c)), torn.resolver)
  }

  predicate DialSucceeds(f: Fields, broken: bool, attempt: Option<nat>) {
    !NeedsDial(f, broken) || attempt.Some?
  }

  function AfterResolver(f: Fields): Fields {
    if f.conn.Some? && f.resolver.None? then f.(resolver := f.conn) else f
  }

  /** Connection and stubs are all nil or all set, everything is bound to the connection. */
  predicate AllOrNothing(f: Fields) {
    match f.conn
    case None => f == NOTHING
    case Some(c) =>
      f.client == Some(BoundTo(c)) && f.csds == Some(BoundTo(c)) && (f.resolver.None? || f.resolver == Some(c))
  }

  // ----- The handler object -----

  /** One request at a time; the sections are also the actions of the machine below. */
  class GrpcChannelzHandler {
    var conn: Option<nat>
    var client: Option<Stub>
    var csdsClient: Option<Stub>
    var reflResolver: Option<nat>

    function View(): Fields
      reads this
    {
      Fields(conn, client, csdsClient, reflResolver)
    }

    /** What a handler that dials for itself keeps. */
    predicate Valid()
      reads this
    {
      AllOrNothing(View())
    }

    constructor ()
      ensures Valid() && conn.None?
    {
      conn, client, csdsClient, reflResolver := None, None, None, None;
    }

    /** Never in injected mode unless somebody set a stub without a connection. */
    method ReadInjected() returns (injected: bool)
      ensures Valid() ==> !injected
      ensures injected <==> conn.None? && (client.Some? || csdsClient.Some?)
    {
      injected := conn.None? && (client.Some? || csdsClient.Some?);
    }

    method ReadStub(kind: Kind) returns (stub: Option<Stub>)
      ensures Valid() ==> (stub.Some? <==> conn.Some?)
      ensures Valid() && conn.Some? ==> stub == Some(BoundTo(conn.value))
      ensures kind.Channelz? ==> stub == client
      ensures kind.Csds? ==> stub == csdsClient
    {
      stub := if kind.Channelz? then client else csdsClient;
    }

    /** `broken` is what GetState reports, `attempt` the new connection grpc.Dial yields, if
        any, and `closed` the connection closed on the way, if any. */
    method Dial(broken: bool, attempt: Option<nat>) returns (ok: bool, closed: Option<nat>)
      requires Valid()
      modifies this
      ensures Valid()
      ensures ok <==> conn.Some?
      ensures ok ==> client == csdsClient == Some(BoundTo(conn.value))
      ensures old(conn).Some? && !broken ==> ok && View() == old(View()) && closed.None?
      ensures old(conn).Some? && broken ==> closed == old(conn) && reflResolver.None?
      ensures old(conn).None? || broken ==> conn == attempt
      ensures closed.Some? && attempt != old(conn) ==> conn != closed
      ensures View() == AfterDial(old(View()), broken, attempt)
      ensures ok == DialSucceeds(old(View()), broken, attempt) && closed == TornDown(old(View()), broken)
    {
      closed := None;
      if conn.Some? {
        if broken {
          closed := conn;
          conn, client, csdsClient, reflResolver := None, None, None, None;
        } else {
          return true, None;
        }
      }
      if attempt.None? {
        return false, closed;
      }
      conn := attempt;
      client := Some(BoundTo(attempt.value));
      csdsClient := Some(BoundTo(attempt.value));
      ok := true;
    }

    method ReflectionResolver() returns (resolver: Option<nat>)
      modifies this`reflResolver
      ensures old(Valid()) ==> Valid() && resolver == conn
      ensures resolver.Some? <==> conn.Some?
      ensures old(reflResolver).Some? ==> reflResolver == old(reflResolver)
      ensures View() == AfterResolver(old(View()))
    {
      if conn.None? {
        return None;
      }
      if reflResolver.None? {
        reflResolver := conn;
      }
      resolver := reflResolver;
    }

    /** connect() and connectCSDS() with no other request in between: the stub is the current
        connection's as soon as the own dial succeeds; an injected handler hands out what was set. */
    method Connect(kind: Kind, broken: bool, attempt: Option<nat>)
      returns (ok: bool, stub: Option<Stub>, closed: Option<nat>)
      requires Valid() || (conn.None? && (client.Some? || csdsClient.Some?))
      modifies this
      ensures old(Valid()) ==> Valid() && (ok <==> stub.Some?)
      ensures old(Valid()) && ok ==> conn.Some? && stub == Some(BoundTo(conn.value))
      ensures old(Valid()) && !ok ==> conn.None? && attempt.None?
      ensures old(Valid()) && closed.Some? && attempt != old(conn) ==> conn != closed == old(conn)
      ensures !old(Valid()) ==> ok && closed.None? && View() == old(View())
      ensures !old(Valid()) ==> stub == if kind.Channelz? then client else csdsClient
    {
      ok, stub, closed := true, None, None;
      var injected := ReadInjected();
      if !injected {
        ok, closed := Dial(broken, attempt);
      }
      if ok {
        stub := ReadStub(kind);
      }
    }
  }

  // ----- All interleavings -----

  /** Where a request is in connect() or connectCSDS(). */
  datatype Request =
    | Idle
    | Entered(kind: Kind)          // before the locked read of injectedClient
    | Bypassing(kind: Kind)        // it returned true; the stub is read next
    | Dialling(kind: Kind)         // it returned false; dial() is next
    | Dialled(kind: Kind)          // dial() returned nil; the stub is read next
    | DialFailed(kind: Kind)
    | Returned(kind: Kind, stub: Option<Stub>)

  /** The outcome of the latest dial() section and the request it belonged to. */
  datatype DialEvent = DialEvent(request: nat, ok: bool)

  datatype World = World(fields: Fields, dialled: nat, closed: set<nat>, requests: seq<Request>,
                         lastDial: Option<DialEvent>)

  datatype Action =
    | Enter(r: nat, kind: Kind)
    | Check(r: nat)
    | Dial(r: nat, broken: bool, succeeds: bool)   // connection state and dial outcome are arbitrary
    | Read(r: nat)
    | Resolve                                      // some page asks for the resolver

  ghost predicate Enabled(w: World, a: Action) {
    match a
    case Enter(r, _) =>
      r < |w.requests| && (w.requests[r].Idle? || w.requests[r].DialFailed? || w.requests[r].Returned?)
    case Check(r) => r < |w.requests| && w.requests[r].Entered?
    case Dial(r, _, _) => r < |w.requests| && w.requests[r].Dialling?
    case Read(r) => r < |w.requests| && (w.requests[r].Bypassing? || w.requests[r].Dialled?)
    case Resolve => true
  }

  /** A new connection gets the next number. */
  ghost function Attempt(w: World, succeeds: bool): Option<nat> { if succeeds then Some(w.dialled) else None }

  ghost function Apply(w: World, a: Action): World
    requires Enabled(w, a)
  {
    match a
    case Enter(r, kind) => w.(requests := w.requests[r := Entered(kind)])
    case Check(r) =>
      var kind := w.requests[r].kind;
      w.(requests := w.requests[r := if InjectedClient(w.fields) then Bypassing(kind) else Dialling(kind)])
    case Dial(r, broken, succeeds) =>
      var kind, attempt := w.requests[r].kind, Attempt(w, succeeds);
      var ok, torn := DialSucceeds(w.fields, broken, attempt), TornDown(w.fields, broken);
      var fields := AfterDial(w.fields, broken, attempt);
      World(fields,
            if NeedsDial(w.fields, broken) && succeeds then w.dialled + 1 else w.dialled,
            if torn.Some? then w.closed + {torn.value} else w.closed,
            w.requests[r := if ok then Dialled(kind) else DialFailed(kind)],
            Some(DialEvent(r, ok)))
    case Read(r) =>
      var kind := w.requests[r].kind;
      w.(requests := w.requests[r := Returned(kind, StubOf(w.fields, kind))])
    case Resolve => w.(fields := AfterResolver(w.fields))
  }

  ghost predicate Step(w: World, w': World) {
    exists a :: Enabled(w, a) && w' == Apply(w, a)
  }

  /** Any number of idle requests on a handler with the given fields. */
  ghost predicate IsStart(w: World, fields: Fields) {
    && w.fields == fields && w.dialled == 0 && w.closed == {} && w.lastDial == None
    && forall r | 0 <= r < |w.requests| :: w.requests[r].Idle?
  }

  ghost predicate IsRun(run: seq<World>, fields: Fields) {
    && run != [] && IsStart(run[0], fields)
    && forall i | 0 <= i < |run| - 1 :: Step(run[i], run[i + 1])
  }

  // ----- A handler built by CreateHandlerWithDialOpts -----

  /** Every connection ever dialled has been closed, except the current one. */
  ghost predicate OthersClosed(w: World) {
    && (forall c: nat :: c in w.closed <==> c < w.dialled && w.fields.conn != Some(c))
    && (w.fields.conn.Some? ==> w.fields.conn.value < w.dialled)
  }

  /** The connection is there exactly when the latest dial() succeeded. */
  ghost predicate DialTold(w: World) {
    w.fields.conn.Some? <==> w.lastDial.Some? && w.lastDial.value.ok
  }

  ghost predicate RequestOk(w: World, r: nat)
    requires r < |w.requests|
  {
    && !w.requests[r].Bypassing?
    && (w.requests[r].Dialled? ==> w.lastDial.Some? && (w.lastDial.value.request == r ==> w.lastDial.value.ok))
  }

  ghost predicate Inv(w: World) {
    && AllOrNothing(w.fields) && OthersClosed(w) && DialTold(w)
    && forall r | 0 <= r < |w.requests| :: RequestOk(w, r)
  }

  lemma RequestsKept(w: World, a: Action, r: nat)
    requires Inv(w) && Enabled(w, a) && r < |w.requests|
    ensures RequestOk(Apply(w, a), r)
  {
    assert RequestOk(w, r);
  }

  /** The lifecycle invariant: between any two critical sections of any interleaving. */
  lemma {:induction false} LifecycleAlways(run: seq<World>, i: nat)
    requires IsRun(run, NOTHING) && i < |run|
    ensures Inv(run[i])
    ensures !InjectedClient(run[i].fields)
  {
    if i > 0 {
      LifecycleAlways(run, i - 1);
      assert Step(run[i - 1], run[i]);
      var a :| Enabled(run[i - 1], a) && run[i] == Apply(run[i - 1], a);
      forall r | 0 <= r < |run[i].requests| ensures RequestOk(run[i], r) {
        RequestsKept(run[i - 1], a, r);
      }
    }
  }

  /** At most one connection is open. */
  lemma AtMostOneOpen(run: seq<World>, i: nat, c: nat, d: nat)
    requires IsRun(run, NOTHING) && i < |run|
    requires c < run[i].dialled && d < run[i].dialled
    requires c !in run[i].closed && d !in run[i].closed
    ensures c == d
  {
    LifecycleAlways(run, i);
  }

  /** What connect() and connectCSDS() hand out at their final locked read: the stub of the
      current connection if the latest dial() anywhere succeeded, and nil exactly otherwise;
      nil is always the doing of another request. */
  lemma StubAtRead(run: seq<World>, i: nat, r: nat)
    requires IsRun(run, NOTHING) && i < |run| && Enabled(run[i], Read(r))
    ensures var w := run[i];
      var stub := StubOf(w.fields, w.requests[r].kind);
      && w.lastDial.Some?
      && Apply(w, Read(r)).requests[r] == Returned(w.requests[r].kind, stub)
      && (w.lastDial.value.ok ==> w.fields.conn.Some? && stub == Some(BoundTo(w.fields.conn.value)))
      && (stub.None? <==> !w.lastDial.value.ok)
      && (stub.None? ==> w.lastDial.value.request != r)
  {
    LifecycleAlways(run, i);
    assert RequestOk(run[i], r);
  }

  /** As long as no dial fails, every stub handed out is the current connection's. */
  ghost predicate NoDialFailed(run: seq<World>) {
    forall i | 0 <= i < |run| :: run[i].lastDial.Some? ==> run[i].lastDial.value.ok
  }

  lemma NoFailureNoNilStub(run: seq<World>, i: nat, r: nat)
    requires IsRun(run, NOTHING) && NoDialFailed(run)
    requires i < |run| && Enabled(run[i], Read(r))
    ensures run[i].fields.conn.Some?
    ensures StubOf(run[i].fields, run[i].requests[r].kind) == Some(BoundTo(run[i].fields.conn.value))
  {
    StubAtRead(run, i, r);
  }

  // ----- A failed dial can leave another request with a nil stub and no error -----

  lemma RunExtended(run: seq<World>, fields: Fields, a: Action) returns (run': seq<World>)
    requires IsRun(run, fields) && Enabled(run[|run| - 1], a)
    ensures run' == run + [Apply(run[|run| - 1], a)] && IsRun(run', fields)
  {
    run' := run + [Apply(run[|run| - 1], a)];
    forall i | 0 <= i < |run'| - 1 ensures Step(run'[i], run'[i + 1]) {
      if i < |run| - 1 {
        assert Step(run[i], run[i + 1]);
      }
    }
  }

  ghost predicate LeavesNil(requests: seq<Request>) {
    requests == [Returned(Channelz, None), DialFailed(Channelz)]
  }

  /** Request 0 dials; request 1 finds the connection broken and cannot dial; request 0 reads. */
  lemma NilStubWithoutError()
    ensures exists run: seq<World> :: IsRun(run, NOTHING) && LeavesNil(run[|run| - 1].requests)
  {
    var run := [World(NOTHING, 0, {}, [Idle, Idle], None)];
    run := RunExtended(run, NOTHING, Enter(0, Channelz));
    run := RunExtended(run, NOTHING, Check(0));
    run := RunExtended(run, NOTHING, Dial(0, false, true));
    run := RunExtended(run, NOTHING, Enter(1, Channelz));
    run := RunExtended(run, NOTHING, Check(1));
    run := RunExtended(run, NOTHING, Dial(1, true, false));
    run := RunExtended(run, NOTHING, Read(0));
    assert LeavesNil(run[|run| - 1].requests);
  }

  // ----- A handler whose stubs were set directly -----

  ghost predicate InjectedOk(w: World, fields: Fields) {
    && w.fields == fields && w.dialled == 0
    && forall r | 0 <= r < |w.requests| ::
         && !w.requests[r].Dialling? && !w.requests[r].Dialled? && !w.requests[r].DialFailed?
         && (w.requests[r].Returned? ==>
               w.requests[r].stub == if w.requests[r].kind.Channelz? then fields.client else fields.csds)
  }

  /** It never dials and never changes; a request gets the stub that was set, which is nil
      (without an error) exactly when only the other stub was set. */
  lemma {:induction false} InjectedNeverChanges(run: seq<World>, fields: Fields, i: nat)
    requires fields.conn.None? && (fields.client.Some? || fields.csds.Some?)
    requires IsRun(run, fields) && i < |run|
    ensures InjectedOk(run[i], fields)
    ensures run[i].fields.conn.None?
  {
    if i > 0 {
      InjectedNeverChanges(run, fields, i - 1);
      assert Step(run[i - 1], run[i]);
      var a :| Enabled(run[i - 1], a) && run[i] == Apply(run[i - 1], a);
      assert !a.Dial?;
    }
  }
}
