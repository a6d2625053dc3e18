/** With a fault-free target the outcome of a resolution depends on what the target serves,
    not on the cache and not on what other goroutines do. */
module RegistryTransparency {
  import opened Prelude
  import opened Registry
  import opened Reflection
  import opened RegistryRaces
  import opened RegistryTermination
  import Transport

  /** The target's answer to what the goroutine asked: honest, and complete where the
      universe has the file. */
  ghost predicate FullAction(u: Files, t: Thread, a: Action)
    requires Enabled(t, a)
  {
    match a
    case Ask(r) => Genuine(r, u) && forall p | Defines(u, p, t.name) :: Delivers(r, u, p)
    case Fetch(r) =>
      var dep := Top(t).fd.deps[Top(t).next - 1];
      Genuine(r, u) && (dep in u ==> Delivers(r, u, dep))
    case _ => true
  }

  ghost predicate FaultFreeRun(u: Files, run: seq<World>, events: seq<Event>) {
    && IsRun(run, events)
    && forall n | 0 <= n < |events| ::
         StepBy(run[n], events[n].thread, events[n].action, run[n + 1])
         && FullAction(u, run[n].threads[events[n].thread], events[n].action)
  }

  ghost predicate Defined(u: Files, name: FullName) { exists p :: Defines(u, p, name) }

  /** A goroutine after a well-served lookup: it holds the defining file, or has the right result. */
  ghost predicate Served(u: Files, t: Thread) {
    && Known(u, t)
    && (t.phase.Ranging? ==> forall p | Defines(u, p, t.name) :: p in t.original)
    && (t.phase.Succeeded? ==> (t.phase.found <==> Defined(u, t.name)))
    && (t.phase.Failed? ==> !Defined(u, t.name))
  }

  lemma {:induction false} DeliveredDecodes(raws: seq<Raw>, batch: Files)
    requires forall i | 0 <= i < |raws| :: raws[i].Encoded?
    ensures Decoded(raws, batch).Some?
    ensures forall k | k in batch :: k in Decoded(raws, batch).value
    ensures forall i | 0 <= i < |raws| :: raws[i].file.path in Decoded(raws, batch).value
    decreases |raws|
  {
    if raws != [] {
      DeliveredDecodes(raws[1..], batch[raws[0].file.path := raws[0].file]);
      forall i | 0 <= i < |raws| ensures raws[i].file.path in Decoded(raws, batch).value {
        assert i > 0 ==> raws[i] == raws[1..][i - 1];
      }
    }
  }

  lemma DeliveredInBatch(r: Response, u: Files, p: string, batch: Files)
    requires p in u && u[p].path == p && Delivers(r, u, p)
    ensures Decoded(r.raws, batch).Some? && p in Decoded(r.raws, batch).value
  {
    DeliveredDecodes(r.raws, batch);
    var i :| 0 <= i < |r.raws| && r.raws[i] == Encoded(u[p]);
    assert r.raws[i].file.path == p;
  }

  lemma CommitStaysCached(u: Files, reg: Registry, t: Thread, a: Action)
    requires Named(u) && Cached(reg, u) && Known(u, t) && Enabled(t, a)
    ensures Cached(Shared(reg, t, a), u)
  {
    if a.Register? {
      assert FrameKnown(u, t.stack[|t.stack| - 1]);
    }
  }

  /** What the registry knows is defined, and a registered definer is known. */
  lemma KnownIffDefined(u: Files, reg: Registry, name: FullName)
    requires Cached(reg, u) && TypesAgree(reg)
    ensures name in reg.types ==> Defined(u, name)
    ensures forall p | Defines(u, p, name) && p in reg.files :: name in reg.types
  {
    if name in reg.types {
      assert Defines(u, reg.types[name], name);
    }
  }

  lemma AskServed(u: Files, reg: Registry, t: Thread, r: Response)
    requires Named(u) && Served(u, t) && Enabled(t, Ask(r)) && FullAction(u, t, Ask(r))
    ensures Served(u, Local(reg, t, Ask(r)))
  {
    OwnActionKnown(u, reg, t, Ask(r));
    forall p | Defines(u, p, t.name)
      ensures r.Descriptors? && Decoded(r.raws, map[]).Some? && p in Decoded(r.raws, map[]).value {
      DeliveredInBatch(r, u, p, map[]);
    }
  }

  lemma FetchServed(u: Files, reg: Registry, t: Thread, r: Response)
    requires Named(u) && LinkConsistent(u) && Served(u, t)
    requires Enabled(t, Fetch(r)) && FullAction(u, t, Fetch(r))
    ensures Served(u, Local(reg, t, Fetch(r))) && !Local(reg, t, Fetch(r)).phase.Failed?
  {
    var f := Top(t);
    assert FrameKnown(u, t.stack[|t.stack| - 1]);
    var dep := f.fd.deps[f.next - 1];
    assert dep in u && u[dep].path == dep;
    DeliveredInBatch(r, u, dep, t.batch);
    OwnActionKnown(u, reg, t, Fetch(r));
  }

  lemma RegisterServed(u: Files, reg: Registry, t: Thread)
    requires Named(u) && LinkConsistent(u) && Cached(reg, u) && Served(u, t)
    requires GoodThread(reg, t) && Enabled(t, Register)
    ensures Served(u, Local(reg, t, Register)) && !Local(reg, t, Register).phase.Failed?
  {
    var n := |t.stack| - 1;
    assert FrameKnown(u, t.stack[n]) && FrameOk(reg, t, n);
    if Top(t).path !in reg.files {
      UniverseLinks(u, reg, Top(t).fd);
    }
    OwnActionKnown(u, reg, t, Register);
  }

  lemma EndServed(u: Files, reg: Registry, t: Thread)
    requires Cached(reg, u) && TypesAgree(reg) && Served(u, t) && GoodThread(reg, t) && Enabled(t, EndRange)
    ensures Served(u, Local(reg, t, EndRange))
  {
    KnownIffDefined(u, reg, t.name);
    if Defined(u, t.name) {
      var p :| Defines(u, p, t.name);
      assert p in t.original && p in t.visited;
      assert p in reg.files;
    }
  }

  lemma OwnActionServed(u: Files, reg: Registry, t: Thread, a: Action)
    requires Named(u) && LinkConsistent(u) && Cached(reg, u) && RegistryOk(reg)
    requires Served(u, t) && GoodThread(reg, t) && Enabled(t, a) && FullAction(u, t, a)
    ensures Served(u, Local(reg, t, a))
  {
    match a {
      case LookUp => KnownIffDefined(u, reg, t.name);
      case Ask(r) => AskServed(u, reg, t, r);
      case EndRange => EndServed(u, reg, t);
      case Fetch(r) => FetchServed(u, reg, t, r);
      case Register => RegisterServed(u, reg, t);
      case _ => QuietServed(u, reg, t, a);
    }
  }

  lemma QuietServed(u: Files, reg: Registry, t: Thread, a: Action)
    requires Named(u) && Served(u, t) && Enabled(t, a) && (a.Visit? || a.EnterFile? || a.Scan?)
    ensures Served(u, Local(reg, t, a))
  {
    OwnActionKnown(u, reg, t, a);
  }

  lemma {:induction false} AlwaysServed(u: Files, run: seq<World>, events: seq<Event>, n: nat, i: nat)
    requires Named(u) && LinkConsistent(u) && FaultFreeRun(u, run, events)
    requires n < |run| && i < |run[0].threads|
    ensures |run[n].threads| == |run[0].threads| && Cached(run[n].reg, u) && Served(u, run[n].threads[i])
    ensures run[n].threads[i].name == run[0].threads[i].name
  {
    if n > 0 {
      var e := events[n - 1];
      assert StepBy(run[n - 1], e.thread, e.action, run[n]);
      AlwaysServed(u, run, events, n - 1, i);
      AlwaysServed(u, run, events, n - 1, e.thread);
      RegistryAlwaysOk(run, events, n - 1);
      var t := run[n - 1].threads[e.thread];
      assert GoodThread(run[n - 1].reg, t);
      CommitStaysCached(u, run[n - 1].reg, t, e.action);
      if e.thread == i {
        OwnActionServed(u, run[n - 1].reg, t, e.action);
      }
    }
  }

  /** However the goroutines interleave, and whatever is cached when one starts: it finds its
      message if the universe defines it, and finds nothing otherwise. */
  lemma OutcomeIsTheUniverses(u: Files, run: seq<World>, events: seq<Event>, n: nat, i: nat)
    requires Named(u) && LinkConsistent(u) && FaultFreeRun(u, run, events)
    requires n < |run| && i < |run[0].threads|
    ensures |run[n].threads| == |run[0].threads|
    ensures var t := run[n].threads[i];
      && (t.phase.Succeeded? ==> (t.phase.found <==> Defined(u, t.name)))
      && (t.phase.Failed? ==> !Defined(u, t.name))
  {
    AlwaysServed(u, run, events, n, i);
  }

  // ----- Why the answer is to the question -----

  /** What a goroutine asks for. */
  ghost function QueryOf(t: Thread, a: Action): Query
    requires Enabled(t, a) && (a.Ask? || a.Fetch?)
  {
    if a.Ask? then BySymbol(t.name) else ByFilename(Top(t).fd.deps[Top(t).next - 1])
  }

  /** Calls by number: what each asks for, and what the target answers to each. */
  ghost predicate ServesFully(u: Files, queries: seq<Query>, answers: seq<Response>) {
    && |queries| == |answers|
    && forall r | 0 <= r < |queries| ::
         && Genuine(answers[r], u)
         && (queries[r].ByFilename? && queries[r].path in u ==> Delivers(answers[r], u, queries[r].path))
         && (queries[r].BySymbol? ==> forall p | Defines(u, p, queries[r].name) :: Delivers(answers[r], u, p))
  }

  /** The response a call holds: the target's answer to the request it read from the stream. */
  ghost predicate Holds(call: Transport.Call, answers: seq<Response>, response: Response) {
    call.Answered? && call.request < |answers| && response == answers[call.request]
  }

  /** However calls share and lose streams, what reaches a goroutine is the target's full answer
      to its own question: the premise of a fault-free run. */
  lemma AnswersReachTheirQuestions(u: Files, queries: seq<Query>, answers: seq<Response>,
                                   run: seq<Transport.World>, n: nat, c: nat, t: Thread, a: Action)
    requires ServesFully(u, queries, answers)
    requires Transport.IsRun(run) && n < |run| && c < |run[n].calls| && c < |queries|
    requires Enabled(t, a) && (a.Ask? || a.Fetch?) && queries[c] == QueryOf(t, a)
    requires Holds(run[n].calls[c], answers, a.response)
    ensures FullAction(u, t, a)
  {
    Transport.OwnAnswer(run, n, c);
  }
}
