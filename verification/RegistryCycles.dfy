/** Resolutions end exactly when imports have no cycle. */
module RegistryCycles {
  import opened Prelude
  import opened Registry
  import opened Reflection
  import opened RegistryRaces
  import opened RegistryTermination
  import opened RegistryTransparency

  /** The chain of imports ends in a file it has been through before. */
  ghost predicate RunsIntoCycle(u: Files, chain: seq<string>) {
    ImportChain(u, chain) && exists back :: 0 <= back < |chain| - 1 && chain[back] == chain[|chain| - 1]
  }

  ghost predicate Acyclic(u: Files) { forall chain: seq<string> :: !RunsIntoCycle(u, chain) }

  // ----- A graph without cycles has heights -----

  /** h goes down along imports between files of s. */
  ghost predicate RankedOn(u: Files, s: set<string>, h: map<string, nat>)
    requires s <= u.Keys
  {
    forall p | p in s :: p in h
      && forall i | 0 <= i < |u[p].deps| && u[p].deps[i] in s :: u[p].deps[i] in h && h[u[p].deps[i]] < h[p]
  }

  ghost predicate ImportsInto(u: Files, s: set<string>, p: string)
    requires p in u
  {
    exists d :: d in u[p].deps && d in s
  }

  ghost predicate ChainWithin(u: Files, s: set<string>, n: nat, chain: seq<string>) {
    |chain| == n + 1 && ImportChain(u, chain) && forall i | 0 <= i < |chain| :: chain[i] in s
  }

  lemma {:induction false} LongChain(u: Files, s: set<string>, n: nat)
    requires s <= u.Keys && s != {} && forall p | p in s :: ImportsInto(u, s, p)
    ensures exists chain :: ChainWithin(u, s, n, chain)
  {
    if n == 0 {
      assert ChainWithin(u, s, n, [Pick(s)]);
    } else {
      LongChain(u, s, n - 1);
      var chain :| ChainWithin(u, s, n - 1, chain);
      var d :| d in u[chain[n - 1]].deps && d in s;
      assert ChainWithin(u, s, n, chain + [d]);
    }
  }

  lemma {:induction false} Pigeonhole(chain: seq<string>, s: set<string>)
    requires NoDup(chain) && forall i | 0 <= i < |chain| :: chain[i] in s
    ensures |chain| <= |s|
  {
    if chain != [] {
      var n := |chain| - 1;
      Pigeonhole(chain[..n], s - {chain[n]});
    }
  }

  lemma RepeatIsCycle(u: Files, chain: seq<string>, i: nat, j: nat)
    requires ImportChain(u, chain) && i < j < |chain| && chain[i] == chain[j]
    ensures RunsIntoCycle(u, chain[..j + 1])
  {
    var round := chain[..j + 1];
    assert round[i] == round[|round| - 1];
  }

  /** A chain longer than its files are many comes back to one of them. */
  lemma LongChainHasCycle(u: Files, s: set<string>, chain: seq<string>)
    requires ImportChain(u, chain) && |chain| > |s| && forall i | 0 <= i < |chain| :: chain[i] in s
    ensures !Acyclic(u)
  {
    if NoDup(chain) {
      Pigeonhole(chain, s);
    }
    var i, j :| 0 <= i < j < |chain| && chain[i] == chain[j];
    RepeatIsCycle(u, chain, i, j);
  }

  /** Some file of s imports none of s. */
  lemma SomeSink(u: Files, s: set<string>) returns (p: string)
    requires Acyclic(u) && s <= u.Keys && s != {}
    ensures p in s && !ImportsInto(u, s, p)
  {
    if forall q | q in s :: ImportsInto(u, s, q) {
      LongChain(u, s, |s|);
      var chain :| ChainWithin(u, s, |s|, chain);
      LongChainHasCycle(u, s, chain);
    }
    p :| p in s && !ImportsInto(u, s, p);
  }

  lemma {:induction false} HeightsOn(u: Files, s: set<string>)
    requires Acyclic(u) && s <= u.Keys
    ensures exists h :: RankedOn(u, s, h)
    decreases |s|
  {
    if s == {} {
      assert RankedOn(u, s, map[]);
    } else {
      var p := SomeSink(u, s);
      HeightsOn(u, s - {p});
      var rest :| RankedOn(u, s - {p}, rest);
      assert RankedOn(u, s, map q | q in s :: if q == p then 0 else rest[q] + 1);
    }
  }

  // ----- A file that leads into a cycle is never registered -----

  lemma {:induction false} ChainRegistered(u: Files, reg: Registry, chain: seq<string>, i: nat)
    requires Cached(reg, u) && Closed(reg) && ImportChain(u, chain) && i < |chain| && chain[0] in reg.files
    ensures chain[i] in reg.files
  {
    if i > 0 {
      ChainRegistered(u, reg, chain, i - 1);
    }
  }

  lemma CycleNeverRegistered(u: Files, reg: Registry, chain: seq<string>)
    requires RegistryOk(reg) && Cached(reg, u) && RunsIntoCycle(u, chain)
    ensures chain[0] !in reg.files
  {
    if chain[0] in reg.files {
      forall i | 0 <= i < |chain| ensures chain[i] in reg.files {
        ChainRegistered(u, reg, chain, i);
      }
      var back :| 0 <= back < |chain| - 1 && chain[back] == chain[|chain| - 1];
      assert ImportChain(reg.files, chain[back..]);
      NoCycleRegistered(reg, chain[back..]);
    }
  }

  // ----- So whoever needs such a file never finishes -----

  /** A message whose file leads into an import cycle keeps every lookup of it busy for ever:
      it neither succeeds nor fails, in any state of any interleaving over a fault-free target. */
  lemma CyclicLookupNeverEnds(u: Files, run: seq<World>, events: seq<Event>, n: nat, i: nat, chain: seq<string>)
    requires Named(u) && LinkConsistent(u) && FaultFreeRun(u, run, events)
    requires n < |run| && i < |run[0].threads|
    requires RunsIntoCycle(u, chain) && Defines(u, chain[0], run[0].threads[i].name)
    ensures |run[n].threads| == |run[0].threads|
    ensures !run[n].threads[i].phase.Succeeded? && !run[n].threads[i].phase.Failed?
  {
    AlwaysServed(u, run, events, n, i);
    RegistryAlwaysOk(run, events, n);
    var reg, t := run[n].reg, run[n].threads[i];
    assert Defined(u, t.name) && GoodThread(reg, t);
    CycleNeverRegistered(u, reg, chain);
    if t.phase.Succeeded? {
      var p := reg.types[t.name];
      assert Defines(u, p, t.name);
      OneDefiner(u, p, chain[0], t.name);
    }
  }

  /** The target's answer when it has one: the defining file. */
  ghost function AnswerTo(u: Files, name: FullName): seq<Raw> {
    if p :| Defines(u, p, name) then [Encoded(u[p])] else []
  }

  lemma AnswerIsFull(u: Files, t: Thread, more: seq<Raw>)
    requires Named(u) && LinkConsistent(u) && t.phase.Asking?
    requires forall i | 0 <= i < |more| :: more[i].Encoded? && IsFileOf(more[i].file, u)
    ensures FullAction(u, t, Ask(Descriptors(AnswerTo(u, t.name) + more)))
  {
    var r := Descriptors(AnswerTo(u, t.name) + more);
    forall p | Defines(u, p, t.name) ensures Delivers(r, u, p) {
      assert AnswerTo(u, t.name) != [];
      var q :| Defines(u, q, t.name) && AnswerTo(u, t.name) == [Encoded(u[q])];
      OneDefiner(u, p, q, t.name);
      assert r.raws[0] == Encoded(u[p]);
    }
  }

  /** An unfinished goroutine can act, and a fault-free target can answer what it asks. */
  lemma CanActFully(u: Files, run: seq<World>, events: seq<Event>, n: nat, i: nat)
    requires Named(u) && LinkConsistent(u) && FaultFreeRun(u, run, events)
    requires n < |run| && i < |run[0].threads| == |run[n].threads|
    requires !run[n].threads[i].phase.Succeeded? && !run[n].threads[i].phase.Failed?
    ensures exists a :: Enabled(run[n].threads[i], a) && FullAction(u, run[n].threads[i], a)
  {
    AlwaysServed(u, run, events, n, i);
    UnfinishedCanAct(run, events, n, i);
    var t := run[n].threads[i];
    var a :| Enabled(t, a);
    if a.Ask? {
      AnswerIsFull(u, t, []);
      a := Ask(Descriptors(AnswerTo(u, t.name) + []));
    } else if a.Fetch? {
      assert FrameKnown(u, t.stack[|t.stack| - 1]);
      var dep := Top(t).fd.deps[Top(t).next - 1];
      a := Fetch(Descriptors([Encoded(u[dep])]));
      assert a.response.raws[0] == Encoded(u[dep]);
    }
    assert Enabled(t, a) && FullAction(u, t, a);
  }

  ghost function After(w: World, i: nat, a: Action): World
    requires i < |w.threads| && Enabled(w.threads[i], a)
  {
    World(Shared(w.reg, w.threads[i], a), w.threads[i := Local(w.reg, w.threads[i], a)])
  }

  lemma RunExtended(u: Files, run: seq<World>, events: seq<Event>, i: nat, a: Action)
    returns (run': seq<World>, events': seq<Event>)
    requires FaultFreeRun(u, run, events) && i < |run[|run| - 1].threads|
    requires Enabled(run[|run| - 1].threads[i], a) && FullAction(u, run[|run| - 1].threads[i], a)
    ensures run' == run + [After(run[|run| - 1], i, a)] && events' == events + [Event(i, a)]
    ensures FaultFreeRun(u, run', events')
  {
    run', events' := run + [After(run[|run| - 1], i, a)], events + [Event(i, a)];
    forall n | 0 <= n < |events'|
      ensures StepBy(run'[n], events'[n].thread, events'[n].action, run'[n + 1])
      ensures FullAction(u, run'[n].threads[events'[n].thread], events'[n].action) {
      if n < |events| {
        assert run'[n] == run[n] && run'[n + 1] == run[n + 1] && events'[n] == events[n];
        assert StepBy(run[n], events[n].thread, events[n].action, run[n + 1]);
      }
    }
  }

  /** A fault-free run of one goroutine, which holds a file leading into a cycle and has acted
      k times or more. */
  ghost predicate Busy(u: Files, chain: seq<string>, name: FullName, run: seq<World>, events: seq<Event>, k: nat) {
    && FaultFreeRun(u, run, events) && |run[0].threads| == 1 && run[0].threads[0].name == name
    && HoldsFile(run[|run| - 1], chain) && OwnActions(events, 0) >= k
  }

  /** Such a goroutine goes on. */
  lemma BusyGoesOn(u: Files, chain: seq<string>, name: FullName, run: seq<World>, events: seq<Event>, k: nat)
    requires Named(u) && LinkConsistent(u) && RunsIntoCycle(u, chain)
    requires k > 0 && Busy(u, chain, name, run, events, k - 1)
    ensures exists run', events' :: Busy(u, chain, name, run', events', k)
  {
    var n := |run| - 1;
    AlwaysServed(u, run, events, n, 0);
    CanActFully(u, run, events, n, 0);
    var a :| Enabled(run[n].threads[0], a) && FullAction(u, run[n].threads[0], a);
    var run', events' := RunExtended(u, run, events, 0, a);
    assert events'[..|events|] == events;
    RegistryAlwaysOk(run, events, n);
    assert GoodThread(run[n].reg, run[n].threads[0]);
    StaysInRange(u, run[n].reg, run[n].threads[0], a);
    StillHolds(u, run', events', chain);
    assert Busy(u, chain, name, run', events', k);
  }

  /** It does not succeed: the file cannot be registered. */
  lemma StillHolds(u: Files, run: seq<World>, events: seq<Event>, chain: seq<string>)
    requires Named(u) && LinkConsistent(u) && RunsIntoCycle(u, chain)
    requires FaultFreeRun(u, run, events) && |run[0].threads| == 1
    requires var w := run[|run| - 1];
      |w.threads| == 1 && (w.threads[0].phase.Ranging? || w.threads[0].phase.Succeeded?)
      && chain[0] in w.threads[0].original
    ensures HoldsFile(run[|run| - 1], chain)
  {
    var n := |run| - 1;
    AlwaysServed(u, run, events, n, 0);
    RegistryAlwaysOk(run, events, n);
    assert GoodThread(run[n].reg, run[n].threads[0]);
    CycleNeverRegistered(u, run[n].reg, chain);
  }

  ghost predicate HoldsFile(w: World, chain: seq<string>) {
    |w.threads| == 1 && w.threads[0].phase.Ranging? && chain != [] && chain[0] in w.threads[0].original
  }

  /** Over a fault-free target nothing fails once the first response is in. */
  lemma StaysInRange(u: Files, reg: Registry, t: Thread, a: Action)
    requires Named(u) && LinkConsistent(u) && Cached(reg, u) && Served(u, t) && GoodThread(reg, t)
    requires t.phase.Ranging? && Enabled(t, a) && FullAction(u, t, a)
    ensures var t' := Local(reg, t, a); (t'.phase.Ranging? || t'.phase.Succeeded?) && t'.original == t.original
  {
    if a.Fetch? {
      FetchServed(u, reg, t, a.response);
    } else if a.Register? {
      RegisterServed(u, reg, t);
    }
  }

  /** The target may put any of its files into a response, so any lookup can meet the cycle. */
  lemma MeetsCycle(u: Files, chain: seq<string>, name: FullName)
    requires Named(u) && LinkConsistent(u) && RunsIntoCycle(u, chain)
    ensures exists run, events :: Busy(u, chain, name, run, events, 0)
  {
    var start := World(Registry(map[], map[], []), [Thread(name, LookingUp, map[], {}, {}, [])]);
    var run, events := RunExtended(u, [start], [], 0, LookUp);
    var asking := run[1].threads[0];
    var more := [Encoded(u[chain[0]])];
    AnswerIsFull(u, asking, more);
    var raws := AnswerTo(u, name) + more;
    DeliveredDecodes(raws, map[]);
    assert raws[|raws| - 1].file.path == chain[0];
    run, events := RunExtended(u, run, events, 0, Ask(Descriptors(raws)));
    assert Busy(u, chain, name, run, events, 0);
  }

  lemma {:induction false} GoesOnFor(u: Files, chain: seq<string>, name: FullName, k: nat)
    requires Named(u) && LinkConsistent(u) && RunsIntoCycle(u, chain)
    ensures exists run, events :: Busy(u, chain, name, run, events, k)
  {
    if k == 0 {
      MeetsCycle(u, chain, name);
    } else {
      GoesOnFor(u, chain, name, k - 1);
      var run, events :| Busy(u, chain, name, run, events, k - 1);
      BusyGoesOn(u, chain, name, run, events, k);
    }
  }

  // ----- The two halves together -----

  ghost predicate Resolves(run: seq<World>, i: nat, name: FullName) {
    run != [] && i < |run[0].threads| && run[0].threads[i].name == name
  }

  /** No goroutine that looks name up takes more than b actions, whatever the others do. */
  ghost predicate EndsWithin(u: Files, name: FullName, b: nat) {
    forall run: seq<World>, events: seq<Event>, i: nat | FaultFreeRun(u, run, events) && Resolves(run, i, name) ::
      OwnActions(events, i) <= b
  }

  lemma AcyclicEnds(u: Files, name: FullName) returns (b: nat)
    requires Named(u) && Acyclic(u)
    ensures EndsWithin(u, name, b)
  {
    HeightsOn(u, u.Keys);
    var h :| RankedOn(u, u.Keys, h);
    b := 3 + SetCost(u, h, u.Keys);
    forall run: seq<World>, events: seq<Event>, i: nat | FaultFreeRun(u, run, events) && Resolves(run, i, name)
      ensures OwnActions(events, i) <= b {
      ResolutionsEnd(u, h, run, events, |events|, i);
      assert events[..|events|] == events;
    }
  }

  /** Over a fault-free target the lookups of a name are bounded, under every interleaving, if
      and only if no file of the target leads into an import cycle. */
  lemma EndsExactlyWithoutCycles(u: Files, name: FullName)
    requires Named(u) && LinkConsistent(u)
    ensures (exists b :: EndsWithin(u, name, b)) <==> Acyclic(u)
  {
    if Acyclic(u) {
      var b := AcyclicEnds(u, name);
    } else {
      var chain :| RunsIntoCycle(u, chain);
      forall b: nat ensures !EndsWithin(u, name, b) {
        GoesOnFor(u, chain, name, b + 1);
        var run, events :| Busy(u, chain, name, run, events, b + 1);
        assert Resolves(run, 0, name);
      }
    }
  }

  // ----- The smallest example: the recursion itself never returns -----

  const LOOP := File("loop.proto", [], ["loop.proto"], [Message("Loop", [])], [], true)

  const LOOPS: Files := map["loop.proto" := LOOP]

  /** A goroutine inside k nested calls for that file. */
  ghost function Nested(k: nat): Thread {
    Thread(["Loop"], Ranging, LOOPS, {"loop.proto"}, {"loop.proto"},
           seq(k, (i: nat) => Frame("loop.proto", LOOP, Scanning, 1)) + [Frame("loop.proto", LOOP, Entering, 0)])
  }

  /** A fault-free run from a fresh resolver to k nested calls. */
  ghost predicate ReachesDepth(run: seq<World>, events: seq<Event>, k: nat) {
    && FaultFreeRun(LOOPS, run, events)
    && run[|run| - 1] == World(Registry(map[], map[], []), [Nested(k)])
  }

  lemma LoopEntered()
    ensures exists run, events :: ReachesDepth(run, events, 0)
  {
    var start := World(Registry(map[], map[], []), [Thread(["Loop"], LookingUp, map[], {}, {}, [])]);
    var r := Descriptors([Encoded(LOOP)]);
    var run, events := RunExtended(LOOPS, [start], [], 0, LookUp);
    assert r.raws[0] == Encoded(LOOP);
    assert Decoded(r.raws[1..], LOOPS) == Some(LOOPS);
    assert Decoded(r.raws, map[]) == Some(LOOPS);
    run, events := RunExtended(LOOPS, run, events, 0, Ask(r));
    run, events := RunExtended(LOOPS, run, events, 0, Visit("loop.proto"));
    assert LOOPS.Keys == {"loop.proto"};
    assert run[3].threads[0].stack == Nested(0).stack;
    assert run[3].threads[0] == Nested(0);
    assert ReachesDepth(run, events, 0);
  }

  /** From a fresh resolver, one lookup of a message in a file that imports itself reaches every
      depth of recursion. */
  lemma {:induction false} SelfImportRecursesForever(k: nat)
    ensures exists run, events :: ReachesDepth(run, events, k)
  {
    if k == 0 {
      LoopEntered();
    } else {
      SelfImportRecursesForever(k - 1);
      var run, events :| ReachesDepth(run, events, k - 1);
      run, events := RunExtended(LOOPS, run, events, 0, EnterFile);
      var scanning := run[|run| - 1].threads[0];
      assert Top(scanning) == Frame("loop.proto", LOOP, Scanning, 0);
      run, events := RunExtended(LOOPS, run, events, 0, Scan);
      assert run[|run| - 1].threads[0].stack == Nested(k).stack;
      assert ReachesDepth(run, events, k);
    }
  }
}
