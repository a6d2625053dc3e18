/** Every resolution ends, under every interleaving, when imports have no cycle. */
module RegistryTermination {
  import opened Prelude
  import opened Registry
  import opened Reflection
  import opened RegistryRaces

  /** An upper bound on the actions of registering one file from scratch. */
  ghost function Cost(u: Files, h: map<string, nat>, p: string): nat
    requires Ranked(u, h) && p in u
    decreases h[p], |u[p].deps| + 1
  {
    2 + DepsCost(u, h, p, 0)
  }

  /** The same for what is left of its dependency loop. */
  ghost function DepsCost(u: Files, h: map<string, nat>, p: string, i: nat): nat
    requires Ranked(u, h) && p in u && i <= |u[p].deps|
    decreases h[p], |u[p].deps| - i
  {
    if i == |u[p].deps| then 0
    else 2 + (if u[p].deps[i] in u then Cost(u, h, u[p].deps[i]) else 0) + DepsCost(u, h, p, i + 1)
  }

  ghost function SetCost(u: Files, h: map<string, nat>, s: set<string>): nat
    requires Ranked(u, h) && s <= u.Keys
  {
    if s == {} then 0
    else
      var p := Pick(s);
      Cost(u, h, p) + 1 + SetCost(u, h, s - {p})
  }

  lemma {:induction false} SetCostWithout(u: Files, h: map<string, nat>, s: set<string>, x: string)
    requires Ranked(u, h) && s <= u.Keys && x in s
    ensures SetCost(u, h, s) == Cost(u, h, x) + 1 + SetCost(u, h, s - {x})
    decreases s
  {
    var p := Pick(s);
    if p != x {
      SetCostWithout(u, h, s - {p}, x);
      SetCostWithout(u, h, s - {x}, p);
      assert s - {p} - {x} == s - {x} - {p};
    }
  }

  ghost predicate FrameKnown(u: Files, f: Frame) {
    && f.path in u && f.fd == u[f.path] && f.next <= |f.fd.deps|
    && (f.mode.Entering? ==> f.next == 0) && (f.mode.Fetching? ==> f.next > 0)
  }

  ghost function FrameCost(u: Files, h: map<string, nat>, f: Frame): nat
    requires Ranked(u, h) && FrameKnown(u, f)
  {
    match f.mode
    case Entering => 2 + DepsCost(u, h, f.path, 0)
    case Scanning => 1 + DepsCost(u, h, f.path, f.next)
    case Fetching =>
      var dep := f.fd.deps[f.next - 1];
      2 + DepsCost(u, h, f.path, f.next) + if dep in u then Cost(u, h, dep) else 0
  }

  ghost function StackCost(u: Files, h: map<string, nat>, stack: seq<Frame>): nat
    requires Ranked(u, h) && forall k | 0 <= k < |stack| :: FrameKnown(u, stack[k])
  {
    if stack == [] then 0
    else StackCost(u, h, stack[..|stack| - 1]) + FrameCost(u, h, stack[|stack| - 1])
  }

  /** A goroutine that has been told nothing but files of the universe. */
  ghost predicate Known(u: Files, t: Thread) {
    t.phase.Ranging? ==>
      && BatchOk(t.batch, u) && t.visited <= t.batch.Keys
      && forall k | 0 <= k < |t.stack| :: FrameKnown(u, t.stack[k])
  }

  /** The actions a goroutine can still take. */
  ghost function Remaining(u: Files, h: map<string, nat>, t: Thread): nat
    requires Ranked(u, h) && Known(u, t)
  {
    match t.phase
    case LookingUp => 3 + SetCost(u, h, u.Keys)
    case Asking => 2 + SetCost(u, h, u.Keys)
    case Ranging => 1 + SetCost(u, h, u.Keys - t.visited) + StackCost(u, h, t.stack)
    case Succeeded(_) => 0
    case Failed => 0
  }

  /** The response in an action, if it has one, shows only files of the universe. */
  ghost predicate HonestAction(a: Action, u: Files) {
    match a
    case Ask(r) => Genuine(r, u)
    case Fetch(r) => Genuine(r, u)
    case _ => true
  }

  lemma {:induction false} DecodedKnown(raws: seq<Raw>, batch: Files, u: Files)
    requires BatchOk(batch, u) && Genuine(Descriptors(raws), u) && Decoded(raws, batch).Some?
    ensures BatchOk(Decoded(raws, batch).value, u)
    ensures forall k | k in batch :: k in Decoded(raws, batch).value
    decreases |raws|
  {
    if raws != [] {
      assert Descriptors(raws).raws[0].Encoded? ==> IsFileOf(raws[0].file, u);
      var rest := Descriptors(raws[1..]);
      forall i | 0 <= i < |rest.raws| && rest.raws[i].Encoded? ensures IsFileOf(rest.raws[i].file, u) {
        assert raws[i + 1] == rest.raws[i];
        assert IsFileOf(Descriptors(raws).raws[i + 1].file, u);
      }
      DecodedKnown(raws[1..], batch[raws[0].file.path := raws[0].file], u);
    }
  }

  // ----- A goroutine stays within the universe -----

  /** What a goroutine holds is of the universe, cycles or not. */
  lemma OwnActionKnown(u: Files, reg: Registry, t: Thread, a: Action)
    requires Named(u) && Known(u, t) && Enabled(t, a) && HonestAction(a, u)
    ensures Known(u, Local(reg, t, a))
  {
    if a.Ask? {
      if a.response.Descriptors? && Decoded(a.response.raws, map[]).Some? {
        DecodedKnown(a.response.raws, map[], u);
      }
    } else if t.phase.Ranging? && t.stack != [] {
      assert FrameKnown(u, t.stack[|t.stack| - 1]);
      if a.Fetch? && a.response.Descriptors? && Decoded(a.response.raws, t.batch).Some? {
        DecodedKnown(a.response.raws, t.batch, u);
      }
    }
  }

  // ----- Every action uses up some of the bound -----

  /** Replacing the top frame, or dropping it. */
  lemma TopCost(u: Files, h: map<string, nat>, stack: seq<Frame>, f: Frame)
    requires Ranked(u, h) && stack != [] && FrameKnown(u, f)
    requires forall k | 0 <= k < |stack| :: FrameKnown(u, stack[k])
    ensures var n := |stack| - 1;
      var changed := stack[n := f];
      && (forall k | 0 <= k < |changed| :: FrameKnown(u, changed[k]))
      && StackCost(u, h, changed) == StackCost(u, h, stack[..n]) + FrameCost(u, h, f)
  {
    assert stack[|stack| - 1 := f][..|stack| - 1] == stack[..|stack| - 1];
  }

  lemma PushCost(u: Files, h: map<string, nat>, stack: seq<Frame>, p: string)
    requires Ranked(u, h) && p in u
    requires forall k | 0 <= k < |stack| :: FrameKnown(u, stack[k])
    ensures var pushed := stack + [Frame(p, u[p], Entering, 0)];
      && (forall k | 0 <= k < |pushed| :: FrameKnown(u, pushed[k]))
      && StackCost(u, h, pushed) == StackCost(u, h, stack) + Cost(u, h, p)
  {
    var pushed := stack + [Frame(p, u[p], Entering, 0)];
    assert pushed[..|stack|] == stack;
  }

  lemma ScanPasses(u: Files, h: map<string, nat>, reg: Registry, t: Thread)
    requires Ranked(u, h) && Known(u, t) && Enabled(t, Scan) && Top(t).fd.deps[Top(t).next] in reg.files
    requires Known(u, Local(reg, t, Scan))
    ensures Remaining(u, h, Local(reg, t, Scan)) < Remaining(u, h, t)
  {
    assert FrameKnown(u, t.stack[|t.stack| - 1]);
    TopCost(u, h, t.stack, Top(t).(next := Top(t).next + 1));
  }

  lemma ScanCalls(u: Files, h: map<string, nat>, reg: Registry, t: Thread)
    requires Ranked(u, h) && Known(u, t) && Enabled(t, Scan)
    requires Top(t).fd.deps[Top(t).next] !in reg.files && Top(t).fd.deps[Top(t).next] in t.batch
    requires Known(u, Local(reg, t, Scan))
    ensures Remaining(u, h, Local(reg, t, Scan)) < Remaining(u, h, t)
  {
    var f, n := Top(t), |t.stack| - 1;
    assert FrameKnown(u, t.stack[n]);
    TopCost(u, h, t.stack, f.(next := f.next + 1));
    PushCost(u, h, t.stack[n := f.(next := f.next + 1)], f.fd.deps[f.next]);
  }

  lemma ScanMustFetch(u: Files, h: map<string, nat>, reg: Registry, t: Thread)
    requires Ranked(u, h) && Known(u, t) && Enabled(t, Scan)
    requires Top(t).fd.deps[Top(t).next] !in reg.files && Top(t).fd.deps[Top(t).next] !in t.batch
    requires Known(u, Local(reg, t, Scan))
    ensures Remaining(u, h, Local(reg, t, Scan)) < Remaining(u, h, t)
  {
    assert FrameKnown(u, t.stack[|t.stack| - 1]);
    TopCost(u, h, t.stack, Top(t).(next := Top(t).next + 1, mode := Fetching));
  }

  lemma ScanShrinks(u: Files, h: map<string, nat>, reg: Registry, t: Thread)
    requires Ranked(u, h) && Known(u, t) && Enabled(t, Scan)
    requires Known(u, Local(reg, t, Scan))
    ensures Remaining(u, h, Local(reg, t, Scan)) < Remaining(u, h, t)
  {
    var dep := Top(t).fd.deps[Top(t).next];
    if dep in reg.files {
      ScanPasses(u, h, reg, t);
    } else if dep in t.batch {
      ScanCalls(u, h, reg, t);
    } else {
      ScanMustFetch(u, h, reg, t);
    }
  }

  lemma FetchShrinks(u: Files, h: map<string, nat>, reg: Registry, t: Thread, r: Response)
    requires Ranked(u, h) && Known(u, t) && Enabled(t, Fetch(r)) && Genuine(r, u)
    requires Known(u, Local(reg, t, Fetch(r)))
    ensures Remaining(u, h, Local(reg, t, Fetch(r))) < Remaining(u, h, t)
  {
    var f := Top(t);
    assert FrameKnown(u, t.stack[|t.stack| - 1]);
    if !Local(reg, t, Fetch(r)).phase.Failed? {
      var dep := f.fd.deps[f.next - 1];
      DecodedKnown(r.raws, t.batch, u);
      TopCost(u, h, t.stack, f.(mode := Scanning));
      PushCost(u, h, t.stack[|t.stack| - 1 := f.(mode := Scanning)], dep);
    }
  }

  lemma VisitShrinks(u: Files, h: map<string, nat>, reg: Registry, t: Thread, file: string)
    requires Ranked(u, h) && Known(u, t) && Enabled(t, Visit(file))
    requires Known(u, Local(reg, t, Visit(file)))
    ensures Remaining(u, h, Local(reg, t, Visit(file))) < Remaining(u, h, t)
  {
    SetCostWithout(u, h, u.Keys - t.visited, file);
    assert u.Keys - t.visited - {file} == u.Keys - (t.visited + {file});
    PushCost(u, h, t.stack, file);
  }

  lemma AskShrinks(u: Files, h: map<string, nat>, reg: Registry, t: Thread, r: Response)
    requires Ranked(u, h) && Known(u, t) && Enabled(t, Ask(r)) && Genuine(r, u)
    requires Known(u, Local(reg, t, Ask(r)))
    ensures Remaining(u, h, Local(reg, t, Ask(r))) < Remaining(u, h, t)
  {
    if r.Descriptors? && Decoded(r.raws, map[]).Some? {
      DecodedKnown(r.raws, map[], u);
      assert u.Keys - {} == u.Keys;
    }
  }

  /** A goroutine's own actions use up its bound; other goroutines' actions do not touch it. */
  lemma OwnActionShrinks(u: Files, h: map<string, nat>, reg: Registry, t: Thread, a: Action)
    requires Ranked(u, h) && Known(u, t) && Enabled(t, a) && HonestAction(a, u)
    ensures Known(u, Local(reg, t, a))
    ensures Remaining(u, h, Local(reg, t, a)) < Remaining(u, h, t)
  {
    OwnActionKnown(u, reg, t, a);
    match a {
      case Ask(r) => AskShrinks(u, h, reg, t, r);
      case Visit(file) => VisitShrinks(u, h, reg, t, file);
      case EnterFile => TopCost(u, h, t.stack, Top(t).(mode := Scanning));
      case Scan => ScanShrinks(u, h, reg, t);
      case Fetch(r) => FetchShrinks(u, h, reg, t, r);
      case _ =>
    }
  }

  ghost function OwnActions(events: seq<Event>, i: nat): nat {
    if events == [] then 0
    else OwnActions(events[..|events| - 1], i) + if events[|events| - 1].thread == i then 1 else 0
  }

  /** Every event's response is honest. */
  ghost predicate HonestRun(events: seq<Event>, u: Files) {
    forall n | 0 <= n < |events| :: HonestAction(events[n].action, u)
  }

  /** In any interleaving of any number of goroutines, with transient failures, each goroutine
      takes at most a number of actions that depends on the universe alone. */
  lemma {:induction false} ResolutionsEnd(u: Files, h: map<string, nat>, run: seq<World>, events: seq<Event>,
                                          n: nat, i: nat)
    requires Ranked(u, h) && IsRun(run, events) && HonestRun(events, u)
    requires n < |run| && i < |run[0].threads|
    ensures |run[n].threads| == |run[0].threads| && Known(u, run[n].threads[i])
    ensures OwnActions(events[..n], i) + Remaining(u, h, run[n].threads[i]) <= 3 + SetCost(u, h, u.Keys)
  {
    if n > 0 {
      ResolutionsEnd(u, h, run, events, n - 1, i);
      var e := events[n - 1];
      assert events[..n][..n - 1] == events[..n - 1];
      assert StepBy(run[n - 1], e.thread, e.action, run[n]);
      assert HonestAction(e.action, u);
      if e.thread == i {
        OwnActionShrinks(u, h, run[n - 1].reg, run[n - 1].threads[i], e.action);
      }
    }
  }

  /** A goroutine that has not finished can always act: nobody waits for anybody. */
  lemma UnfinishedCanAct(run: seq<World>, events: seq<Event>, n: nat, i: nat)
    requires IsRun(run, events) && n < |run| && i < |run[n].threads|
    requires !run[n].threads[i].phase.Succeeded? && !run[n].threads[i].phase.Failed?
    ensures exists a :: Enabled(run[n].threads[i], a)
  {
    RegistryAlwaysOk(run, events, n);
    var t, a := run[n].threads[i], LookUp;
    assert GoodThread(run[n].reg, t);
    match t.phase {
      case LookingUp =>
      case Asking => a := Ask(Error(false));
      case Ranging =>
        if t.stack == [] {
          if t.original <= t.visited {
            a := EndRange;
          } else {
            var p :| p in t.original && p !in t.visited;
            a := Visit(p);
          }
        } else {
          assert FrameOk(run[n].reg, t, |t.stack| - 1);
          match Top(t).mode {
            case Entering => a := EnterFile;
            case Scanning => a := if Top(t).next < |Top(t).fd.deps| then Scan else Register;
            case Fetching => a := Fetch(Error(false));
          }
        }
    }
    assert Enabled(t, a);
  }
}
