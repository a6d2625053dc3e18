/** Many goroutines resolving types at once: the locked sections of the resolver interleave,
    and the lock is free while a goroutine fetches. */
module RegistryRaces {
  import opened Prelude
  import opened Registry
  import opened Reflection

  /** An activation of registerFileDescriptor. `next` is the dependency it looks at next; while
      a recursive call for dependency next - 1 runs, its frame lies above. */
  datatype Frame = Frame(path: string, fd: File, mode: Mode, next: nat)

  /** Before the first check; in the dependency loop; fetching the dependency before next. */
  datatype Mode = Entering | Scanning | Fetching

  /** A goroutine in resolveMessageType. */
  datatype Phase =
    | LookingUp          // the first locked look at the types
    | Asking             // fetching the file that contains the symbol
    | Ranging            // in the range over the batch, inside a call when the stack is not empty
    | Succeeded(found: bool)
    | Failed

  datatype Thread = Thread(name: FullName, phase: Phase, batch: Files, original: set<string>,
                           visited: set<string>, stack: seq<Frame>)

  datatype World = World(reg: Registry, threads: seq<Thread>)

  /** Responses are arbitrary; in EndRange the range has visited what was there at the start. */
  datatype Action =
    | LookUp | Ask(response: Response) | Visit(file: string) | EndRange
    | EnterFile | Scan | Fetch(response: Response) | Register

  /** The batch after decoding a response; None when something does not decode. */
  ghost function Decoded(raws: seq<Raw>, batch: Files): Option<Files> {
    if raws == [] then Some(batch)
    else if raws[0].Malformed? then None
    else Decoded(raws[1..], batch[raws[0].file.path := raws[0].file])
  }

  ghost function Top(t: Thread): Frame
    requires t.stack != []
  {
    t.stack[|t.stack| - 1]
  }

  ghost function WithTop(t: Thread, f: Frame): Thread
    requires t.stack != []
  {
    t.(stack := t.stack[|t.stack| - 1 := f])
  }

  ghost function Push(t: Thread, path: string): Thread
    requires path in t.batch
  {
    t.(stack := t.stack + [Frame(path, t.batch[path], Entering, 0)])
  }

  ghost function Pop(t: Thread): Thread
    requires t.stack != []
  {
    t.(stack := t.stack[..|t.stack| - 1])
  }

  ghost predicate Enabled(t: Thread, a: Action) {
    match a
    case LookUp => t.phase.LookingUp?
    case Ask(_) => t.phase.Asking?
    case Visit(file) => t.phase.Ranging? && t.stack == [] && file in t.batch && file !in t.visited
    case EndRange => t.phase.Ranging? && t.stack == [] && t.original <= t.visited
    case EnterFile => t.phase.Ranging? && t.stack != [] && Top(t).mode.Entering?
    case Scan => t.phase.Ranging? && t.stack != [] && Top(t).mode.Scanning? && Top(t).next < |Top(t).fd.deps|
    case Fetch(_) => t.phase.Ranging? && t.stack != [] && Top(t).mode.Fetching? && 0 < Top(t).next <= |Top(t).fd.deps|
    case Register => t.phase.Ranging? && t.stack != [] && Top(t).mode.Scanning? && Top(t).next == |Top(t).fd.deps|
  }

  /** The thread after an action that looks at, but does not change, the registry. */
  ghost function Local(reg: Registry, t: Thread, a: Action): Thread
    requires Enabled(t, a)
  {
    match a
    case LookUp => t.(phase := if t.name in reg.types then Succeeded(true) else Asking)
    case Ask(r) =>
      if r.Error? || Decoded(r.raws, map[]).None? then t.(phase := Failed)
      else
        var batch := Decoded(r.raws, map[]).value;
        t.(phase := Ranging, batch := batch, original := batch.Keys, visited := {}, stack := [])
    case Visit(file) => Push(t.(visited := t.visited + {file}), file)
    case EndRange => t.(phase := Succeeded(t.name in reg.types))
    case EnterFile => if Top(t).path in reg.files then Pop(t) else WithTop(t, Top(t).(mode := Scanning))
    case Scan =>
      var f := Top(t);
      var dep := f.fd.deps[f.next];
      var moved := WithTop(t, f.(next := f.next + 1));
      if dep in reg.files then moved
      else if dep in t.batch then Push(moved, dep)
      else WithTop(t, f.(next := f.next + 1, mode := Fetching))
    case Fetch(r) =>
      var f := Top(t);
      var dep := f.fd.deps[f.next - 1];
      if r.Error? || Decoded(r.raws, t.batch).None? then t.(phase := Failed)
      else
        var batch := Decoded(r.raws, t.batch).value;
        if dep !in batch then t.(phase := Failed)
        else Push(WithTop(t.(batch := batch), f.(mode := Scanning)), dep)
    case Register =>
      var f := Top(t);
      if f.path in reg.files || Links(reg, f.fd) then Pop(t) else t.(phase := Failed)
  }

  ghost predicate Links(reg: Registry, fd: File) { CanLink(fd, reg.files) && CanRegister(fd, reg.files) }

  /** Only the final critical section writes to the registry. */
  ghost function Shared(reg: Registry, t: Thread, a: Action): Registry
    requires Enabled(t, a)
  {
    if a.Register? && Top(t).path !in reg.files && Links(reg, Top(t).fd) then Commit(reg, Top(t).fd)
    else reg
  }

  ghost predicate StepBy(w: World, i: nat, a: Action, w': World) {
    && i < |w.threads| && Enabled(w.threads[i], a)
    && w' == World(Shared(w.reg, w.threads[i], a), w.threads[i := Local(w.reg, w.threads[i], a)])
  }

  /** The i-th goroutine acts a. */
  datatype Event = Event(thread: nat, action: Action)

  ghost predicate IsStart(w: World) {
    && w.reg == Registry(map[], map[], [])
    && forall i | 0 <= i < |w.threads| :: w.threads[i].phase.LookingUp? && w.threads[i].original == {}
  }

  ghost predicate IsRun(run: seq<World>, events: seq<Event>) {
    && |run| == |events| + 1 && IsStart(run[0])
    && forall i | 0 <= i < |events| :: StepBy(run[i], events[i].thread, events[i].action, run[i + 1])
  }

  // ----- What every goroutine can rely on -----

  /** The dependencies the frame has passed; those before `upto` are registered. */
  ghost predicate Passed(reg: Registry, f: Frame, upto: int) {
    && f.next <= |f.fd.deps| && f.fd.path == f.path && (f.mode.Fetching? ==> 0 < f.next)
    && forall j | 0 <= j < upto && j < |f.fd.deps| :: f.fd.deps[j] in reg.files
  }

  ghost predicate FrameOk(reg: Registry, t: Thread, k: nat)
    requires k < |t.stack|
  {
    var f := t.stack[k];
    if k == |t.stack| - 1 then Passed(reg, f, if f.mode.Fetching? then f.next - 1 else f.next)
    else
      && Passed(reg, f, f.next - 1) && f.mode.Scanning?
      && 0 < f.next && t.stack[k + 1].path == f.fd.deps[f.next - 1]
  }

  ghost predicate ThreadOk(reg: Registry, t: Thread) {
    t.phase.Ranging? ==>
      && Named(t.batch) && t.original <= t.batch.Keys
      && (forall k | 0 <= k < |t.stack| :: FrameOk(reg, t, k))
      && (t.stack != [] ==> t.stack[0].path in t.visited)
      && (forall p | p in t.visited :: p in reg.files || (t.stack != [] && p == t.stack[0].path))
  }

  /** A goroutine that has left the range successfully has its whole batch registered, and
      what it found is still there. */
  ghost predicate OutcomeOk(reg: Registry, t: Thread) {
    t.phase.Succeeded? ==>
      && (forall p | p in t.original :: p in reg.files)
      && (t.phase.found ==> t.name in reg.types)
  }

  lemma {:induction false} DecodedNamed(raws: seq<Raw>, batch: Files)
    requires Named(batch) && Decoded(raws, batch).Some?
    ensures Named(Decoded(raws, batch).value)
    ensures forall k | k in batch :: k in Decoded(raws, batch).value
    decreases |raws|
  {
    if raws != [] {
      DecodedNamed(raws[1..], batch[raws[0].file.path := raws[0].file]);
    }
  }

  lemma SharedGrows(reg: Registry, t: Thread, a: Action)
    requires RegistryOk(reg) && Enabled(t, a)
    ensures RegistryOk(Shared(reg, t, a)) && Extends(reg, Shared(reg, t, a))
  {
    if a.Register? && Top(t).path !in reg.files && Links(reg, Top(t).fd) {
      CommitKeepsRegistry(reg, Top(t).fd);
    }
  }

  /** What a goroutine relies on survives the growth of the registry. */
  lemma StableUnderGrowth(reg: Registry, reg': Registry, t: Thread)
    requires Extends(reg, reg') && ThreadOk(reg, t) && OutcomeOk(reg, t)
    ensures ThreadOk(reg', t) && OutcomeOk(reg', t)
  {
    if t.phase.Ranging? {
      forall k | 0 <= k < |t.stack| ensures FrameOk(reg', t, k) {
        assert FrameOk(reg, t, k);
      }
    }
  }

  ghost predicate GoodThread(reg: Registry, t: Thread) { ThreadOk(reg, t) && OutcomeOk(reg, t) && FreshOk(t) }

  ghost predicate FreshOk(t: Thread) { t.phase.LookingUp? ==> t.original == {} }

  /** Pushing a frame for the dependency before `next`. */
  lemma PushKeeps(reg: Registry, t: Thread, path: string)
    requires t.phase.Ranging? && Named(t.batch) && path in t.batch && t.original <= t.batch.Keys
    requires forall k | 0 <= k < |t.stack| - 1 :: FrameOk(reg, t, k)
    requires t.stack != [] ==>
      && Passed(reg, Top(t), Top(t).next - 1) && Top(t).mode.Scanning?
      && 0 < Top(t).next && path == Top(t).fd.deps[Top(t).next - 1]
    requires if t.stack == [] then path in t.visited else t.stack[0].path in t.visited
    requires forall p | p in t.visited :: p in reg.files || p == (if t.stack == [] then path else t.stack[0].path)
    ensures ThreadOk(reg, Push(t, path))
  {
    var t' := Push(t, path);
    forall k | 0 <= k < |t'.stack| ensures FrameOk(reg, t', k) {
      if k < |t.stack| - 1 {
        assert FrameOk(reg, t, k);
      }
    }
  }

  /** Popping a frame whose file is registered. */
  lemma PopKeeps(reg: Registry, t: Thread)
    requires t.phase.Ranging? && ThreadOk(reg, t) && t.stack != [] && Top(t).path in reg.files
    ensures ThreadOk(reg, Pop(t))
  {
    var t' := Pop(t);
    forall k | 0 <= k < |t'.stack| ensures FrameOk(reg, t', k) {
      assert FrameOk(reg, t, k);
    }
  }

  /** Replacing the top frame by one that has passed as much as it says. */
  lemma ReplaceKeeps(reg: Registry, t: Thread, f: Frame)
    requires t.phase.Ranging? && ThreadOk(reg, t) && t.stack != [] && f.path == Top(t).path
    requires Passed(reg, f, if f.mode.Fetching? then f.next - 1 else f.next)
    ensures ThreadOk(reg, WithTop(t, f))
  {
    var t' := WithTop(t, f);
    forall k | 0 <= k < |t'.stack| ensures FrameOk(reg, t', k) {
      assert FrameOk(reg, t, k);
    }
  }

  lemma ScanKeeps(reg: Registry, t: Thread)
    requires GoodThread(reg, t) && Enabled(t, Scan)
    ensures ThreadOk(reg, Local(reg, t, Scan))
  {
    var n := |t.stack| - 1;
    var f := Top(t);
    assert FrameOk(reg, t, n);
    var dep := f.fd.deps[f.next];
    if dep in reg.files {
      ReplaceKeeps(reg, t, f.(next := f.next + 1));
    } else if dep in t.batch {
      var moved := WithTop(t, f.(next := f.next + 1));
      forall k | 0 <= k < n ensures FrameOk(reg, moved, k) {
        assert FrameOk(reg, t, k);
      }
      PushKeeps(reg, moved, dep);
    } else {
      ReplaceKeeps(reg, t, f.(next := f.next + 1, mode := Fetching));
    }
  }

  lemma FetchKeeps(reg: Registry, t: Thread, r: Response)
    requires GoodThread(reg, t) && Enabled(t, Fetch(r))
    ensures ThreadOk(reg, Local(reg, t, Fetch(r)))
  {
    var n := |t.stack| - 1;
    var f := Top(t);
    assert FrameOk(reg, t, n);
    if r.Descriptors? && Decoded(r.raws, t.batch).Some? {
      DecodedNamed(r.raws, t.batch);
      var batch := Decoded(r.raws, t.batch).value;
      var dep := f.fd.deps[f.next - 1];
      if dep in batch {
        var moved := WithTop(t.(batch := batch), f.(mode := Scanning));
        forall k | 0 <= k < n ensures FrameOk(reg, moved, k) {
          assert FrameOk(reg, t, k);
        }
        PushKeeps(reg, moved, dep);
      }
    }
  }

  lemma AskKeeps(reg: Registry, t: Thread, r: Response)
    requires GoodThread(reg, t) && Enabled(t, Ask(r))
    ensures ThreadOk(reg, Local(reg, t, Ask(r)))
  {
    if r.Descriptors? && Decoded(r.raws, map[]).Some? {
      DecodedNamed(r.raws, map[]);
    }
  }

  lemma RegisterKeeps(reg: Registry, t: Thread)
    requires RegistryOk(reg) && GoodThread(reg, t) && Enabled(t, Register)
    ensures ThreadOk(Shared(reg, t, Register), Local(reg, t, Register))
  {
    var reg' := Shared(reg, t, Register);
    SharedGrows(reg, t, Register);
    StableUnderGrowth(reg, reg', t);
    assert FrameOk(reg, t, |t.stack| - 1);
    if Local(reg, t, Register) == Pop(t) {
      PopKeeps(reg', t);
    }
  }

  /** Each action keeps what its own goroutine relies on. */
  lemma OwnActionKeeps(reg: Registry, t: Thread, a: Action)
    requires RegistryOk(reg) && GoodThread(reg, t) && Enabled(t, a)
    ensures GoodThread(Shared(reg, t, a), Local(reg, t, a))
  {
    match a {
      case Ask(r) => AskKeeps(reg, t, r);
      case Visit(file) => PushKeeps(reg, t.(visited := t.visited + {file}), file);
      case EnterFile =>
        assert FrameOk(reg, t, |t.stack| - 1);
        if Top(t).path in reg.files {
          PopKeeps(reg, t);
        } else {
          ReplaceKeeps(reg, t, Top(t).(mode := Scanning));
        }
      case Scan => ScanKeeps(reg, t);
      case Fetch(r) => FetchKeeps(reg, t, r);
      case Register => RegisterKeeps(reg, t);
      case _ =>
    }
  }

  ghost predicate AllGood(w: World) {
    RegistryOk(w.reg) && forall i | 0 <= i < |w.threads| :: GoodThread(w.reg, w.threads[i])
  }

  lemma StepKeeps(w: World, i: nat, a: Action, w': World)
    requires AllGood(w) && StepBy(w, i, a, w')
    ensures AllGood(w') && Extends(w.reg, w'.reg)
  {
    SharedGrows(w.reg, w.threads[i], a);
    OwnActionKeeps(w.reg, w.threads[i], a);
    forall j | 0 <= j < |w'.threads| ensures GoodThread(w'.reg, w'.threads[j]) {
      if j != i {
        StableUnderGrowth(w.reg, w'.reg, w.threads[j]);
      }
    }
  }

  /** In every state of every interleaving, with any server at all: the registry is closed
      under imports, free of conflicts, and its types are exactly the messages of its files. */
  lemma {:induction false} RegistryAlwaysOk(run: seq<World>, events: seq<Event>, n: nat)
    requires IsRun(run, events) && n < |run|
    ensures AllGood(run[n])
  {
    if n > 0 {
      RegistryAlwaysOk(run[..n], events[..n - 1], n - 1);
      var e := events[n - 1];
      StepKeeps(run[n - 1], e.thread, e.action, run[n]);
    }
  }

  /** A goroutine that has finished successfully has every file of its first response
      registered, although the batch grew while it was being ranged over. */
  lemma SuccessRegistersTheBatch(run: seq<World>, events: seq<Event>, n: nat, i: nat)
    requires IsRun(run, events) && n < |run| && i < |run[n].threads| && run[n].threads[i].phase.Succeeded?
    ensures forall p | p in run[n].threads[i].original :: p in run[n].reg.files
    ensures TypesAgree(run[n].reg) && Closed(run[n].reg)
  {
    RegistryAlwaysOk(run, events, n);
    assert GoodThread(run[n].reg, run[n].threads[i]);
  }

  lemma StepGrows(w: World, i: nat, a: Action, w': World)
    requires RegistryOk(w.reg) && StepBy(w, i, a, w')
    ensures Extends(w.reg, w'.reg)
  {
    SharedGrows(w.reg, w.threads[i], a);
  }

  lemma {:induction false} RegistryGrows(run: seq<World>, events: seq<Event>, n: nat, m: nat)
    requires IsRun(run, events) && n <= m < |run|
    ensures Extends(run[n].reg, run[m].reg)
  {
    if n < m {
      RegistryGrows(run, events, n, m - 1);
      RegistryAlwaysOk(run, events, m - 1);
      var e := events[m - 1];
      StepGrows(run[m - 1], e.thread, e.action, run[m]);
      ExtendsTransitive(run[n].reg, run[m - 1].reg, run[m].reg);
    }
  }

  /** Once a name is known, every goroutine that looks it up from then on has its answer at the
      first look and sends nothing. */
  lemma KnownNameAnsweredAtOnce(run: seq<World>, events: seq<Event>, n: nat, m: nat)
    requires IsRun(run, events) && n <= m < |events| && events[m].thread < |run[m].threads|
    requires run[m].threads[events[m].thread].phase.LookingUp?
    requires run[m].threads[events[m].thread].name in run[n].reg.types
    ensures events[m].action == LookUp
    ensures |run[m + 1].threads| == |run[m].threads|
    ensures run[m + 1].threads[events[m].thread].phase == Succeeded(true)
  {
    RegistryGrows(run, events, n, m);
    assert StepBy(run[m], events[m].thread, events[m].action, run[m + 1]);
  }
}
