/** The resolver that fills the registries from the target's reflection service. */
module Reflection {
  import opened Prelude
  import opened Strings
  import opened Registry

  datatype Query = BySymbol(name: FullName) | ByFilename(path: string)

  /** One serialized descriptor of a response. */
  datatype Raw = Malformed | Encoded(file: File)

  /** A failed call (no stream, dead stream, error or unexpected response) or descriptors. */
  datatype Response = Error(unimplemented: bool) | Descriptors(raws: seq<Raw>)

  /** The target: the files it serves, a height for each in its import graph, and what it
      answers to the t-th request. */
  datatype Server = Server(ghost universe: Files, ghost height: map<string, nat>, ghost faultFree: bool,
                           reply: (nat, Query) -> Response)

  /** Imports go down in height, so the graph has no cycle. */
  ghost predicate Ranked(u: Files, height: map<string, nat>) {
    forall p | p in u :: u[p].path == p && p in height
      && forall i | 0 <= i < |u[p].deps| && u[p].deps[i] in u ::
           u[p].deps[i] in height && height[u[p].deps[i]] < height[p]
  }

  /** Whatever decodes is a file of the universe, unchanged. */
  ghost predicate Genuine(r: Response, u: Files) {
    r.Descriptors? ==> forall i | 0 <= i < |r.raws| && r.raws[i].Encoded? :: IsFileOf(r.raws[i].file, u)
  }

  ghost predicate IsFileOf(f: File, u: Files) { f.path in u && u[f.path] == f }

  /** r decodes completely and contains the file at path. */
  ghost predicate Delivers(r: Response, u: Files, path: string)
    requires path in u
  {
    r.Descriptors? && (forall i | 0 <= i < |r.raws| :: r.raws[i].Encoded?) && Encoded(u[path]) in r.raws
  }

  ghost predicate Defines(u: Files, path: string, name: FullName) { path in u && name in NamesOf(u[path]) }

  /** A target without faults delivers every file and the file of every message it has. */
  ghost predicate AnswersFully(s: Server) {
    && (forall t, q :: s.reply(t, q) != Error(true))
    && (forall t, q | s.reply(t, q).Descriptors? ::
          forall i | 0 <= i < |s.reply(t, q).raws| :: s.reply(t, q).raws[i].Encoded?)
    && (forall t, p | p in s.universe :: Delivers(s.reply(t, ByFilename(p)), s.universe, p))
    && (forall t, p, n | Defines(s.universe, p, n) :: Delivers(s.reply(t, BySymbol(n)), s.universe, p))
  }

  /** The universe links: imports are served, and no two files conflict. */
  ghost predicate LinkConsistent(u: Files) {
    && (forall p | p in u :: u[p].linkable && NoDup(NamesOf(u[p])))
    && (forall p, i | p in u && 0 <= i < |u[p].deps| :: u[p].deps[i] in u)
    && (forall p, q | p in u && q in u && p != q :: !Clash(u[p], u[q]))
  }

  ghost predicate ValidServer(s: Server) {
    && Ranked(s.universe, s.height)
    && (forall t, q :: Genuine(s.reply(t, q), s.universe))
    && (s.faultFree ==> LinkConsistent(s.universe) && AnswersFully(s))
  }

  /** A batch of fetched files by name. */
  ghost predicate BatchOk(batch: Files, u: Files) {
    forall k | k in batch :: k in u && batch[k] == u[k]
  }

  /** What is registered is what the universe has. */
  ghost predicate Cached(reg: Registry, u: Files) { forall p | p in reg.files :: p in u && reg.files[p] == u[p] }

  lemma KnownIsDefined(u: Files, reg: Registry, name: FullName)
    requires Cached(reg, u) && TypesAgree(reg) && name in reg.types
    ensures Defines(u, reg.types[name], name)
  {
  }

  /** A file of a universe that links can always be registered after its imports. */
  lemma UniverseLinks(u: Files, reg: Registry, fd: File)
    requires Named(u) && LinkConsistent(u) && Cached(reg, u)
    requires IsFileOf(fd, u) && fd.path !in reg.files
    requires forall j | 0 <= j < |fd.deps| :: fd.deps[j] in reg.files
    ensures CanLink(fd, reg.files) && CanRegister(fd, reg.files)
  {
  }

  /** What decides the registration of a file that is not there yet. */
  lemma LinkFacts(u: Files, reg: Registry, fd: File, links: bool)
    requires Cached(reg, u) && IsFileOf(fd, u) && fd.path !in reg.files
    requires links == (CanLink(fd, reg.files) && CanRegister(fd, reg.files))
    ensures links <==> Registrable(fd, reg.files)
    ensures Named(u) && LinkConsistent(u) && (forall j | 0 <= j < |fd.deps| :: fd.deps[j] in reg.files) ==> links
  {
    RegistrableExactly(fd, reg.files);
    if Named(u) && LinkConsistent(u) && forall j | 0 <= j < |fd.deps| :: fd.deps[j] in reg.files {
      UniverseLinks(u, reg, fd);
    }
  }

  lemma CommitOfUniverse(u: Files, reg: Registry, fd: File)
    requires RegistryOk(reg) && Cached(reg, u) && IsFileOf(fd, u)
    requires CanLink(fd, reg.files) && CanRegister(fd, reg.files)
    ensures RegistryOk(Commit(reg, fd)) && Cached(Commit(reg, fd), u) && Extends(reg, Commit(reg, fd))
  {
    CommitKeepsRegistry(reg, fd);
  }

  /** With the files of a full answer registered, the message it was asked for is known. */
  lemma DeliveredIsKnown(u: Files, reg: Registry, raws: seq<Raw>, p: string, name: FullName)
    requires Cached(reg, u) && TypesAgree(reg) && Defines(u, p, name) && u[p].path == p
    requires Delivers(Descriptors(raws), u, p)
    requires forall i | 0 <= i < |raws| :: raws[i].Encoded? && raws[i].file.path in reg.files
    ensures name in reg.types
  {
    var i :| 0 <= i < |raws| && raws[i] == Encoded(u[p]);
    assert raws[i].file.path in reg.files;
  }

  /** Whatever the batch imports is in it or registered. */
  ghost predicate Complete(batch: Files, reg: Registry) {
    forall k, d | k in batch && d in batch[k].deps :: d in batch || d in reg.files
  }

  /** The response decodes, and whatever its files import is in it or registered. */
  ghost predicate CompleteRaws(raws: seq<Raw>, reg: Registry) {
    && (forall i | 0 <= i < |raws| :: raws[i].Encoded?)
    && forall i, d | 0 <= i < |raws| && d in raws[i].file.deps :: InRaws(raws, d) || d in reg.files
  }

  ghost predicate InRaws(raws: seq<Raw>, path: string) {
    exists i :: 0 <= i < |raws| && raws[i].Encoded? && raws[i].file.path == path
  }

  lemma CompleteAsBatch(raws: seq<Raw>, batch: Files, u: Files, reg: Registry)
    requires CompleteRaws(raws, reg) && Genuine(Descriptors(raws), u) && BatchOk(batch, u)
    requires forall k :: k in batch <==> InRaws(raws, k)
    ensures Complete(batch, reg)
  {
    forall k, d | k in batch && d in batch[k].deps ensures d in batch || d in reg.files {
      var i :| 0 <= i < |raws| && raws[i].Encoded? && raws[i].file.path == k;
      assert IsFileOf(Descriptors(raws).raws[i].file, u);
      assert d in raws[i].file.deps;
    }
  }

  lemma StaysComplete(batch: Files, was: Registry, now: Registry)
    requires Complete(batch, was) && Extends(was, now)
    ensures Complete(batch, now)
  {
  }

  /** Everything registered stays registered. */
  ghost predicate Extends(was: Registry, now: Registry) {
    && (forall p | p in was.files :: p in now.files)
    && (forall n | n in was.types :: n in now.types && now.types[n] == was.types[n])
  }

  lemma ExtendsTransitive(a: Registry, b: Registry, c: Registry)
    requires Extends(a, b) && Extends(b, c)
    ensures Extends(a, c)
  {
  }

  ghost predicate FirstIn(deps: seq<string>, n: nat, reg: Registry) {
    forall j | 0 <= j < n && j < |deps| :: deps[j] in reg.files
  }

  lemma OneMoreIn(deps: seq<string>, n: nat, was: Registry, now: Registry)
    requires FirstIn(deps, n, was) && Extends(was, now) && n < |deps| && deps[n] in now.files
    ensures FirstIn(deps, n + 1, now)
  {
  }

  lemma {:induction false} NamesTogether(prefix: FullName, a: seq<Message>, b: seq<Message>)
    ensures NamesIn(prefix, a + b) == NamesIn(prefix, a) + NamesIn(prefix, b)
    decreases |a|
  {
    if a == [] {
      assert a + b == b;
    } else {
      assert (a + b)[1..] == a[1..] + b;
      NamesTogether(prefix, a[1..], b);
    }
  }

  lemma {:induction false} AddTypesTogether(types: Types, a: seq<FullName>, b: seq<FullName>, path: string)
    ensures AddTypes(types, a + b, path) == AddTypes(AddTypes(types, a, path), b, path)
    decreases |a|
  {
    if a == [] {
      assert a + b == b;
    } else {
      assert (a + b)[1..] == a[1..] + b;
      AddTypesTogether(if a[0] in types then types else types[a[0] := path], a[1..], b, path);
    }
  }

  /** registerMessageTypes: each message, then its nested messages, then the next one. */
  method RegisterMessageTypes(types: Types, path: string, prefix: FullName, ms: seq<Message>) returns (types': Types)
    ensures types' == AddTypes(types, NamesIn(prefix, ms), path)
    decreases ms
  {
    types' := types;
    for i := 0 to |ms|
      invariant types' == AddTypes(types, NamesIn(prefix, ms[..i]), path)
    {
      var name := prefix + [ms[i].name];
      ghost var before := types';
      if name !in types' {
        types' := types'[name := path];
      }
      types' := RegisterMessageTypes(types', path, name, ms[i].nested);
      OneMessage(types, before, path, prefix, ms, i);
    }
    assert ms[..|ms|] == ms;
  }

  lemma OneMessage(types: Types, before: Types, path: string, prefix: FullName, ms: seq<Message>, i: nat)
    requires i < |ms| && before == AddTypes(types, NamesIn(prefix, ms[..i]), path)
    ensures var name := prefix + [ms[i].name];
      AddTypes(types, NamesIn(prefix, ms[..i + 1]), path)
      == AddTypes(if name in before then before else before[name := path], NamesIn(name, ms[i].nested), path)
  {
    var name := prefix + [ms[i].name];
    var own := NamesIn(prefix, [ms[i]]);
    assert ms[..i + 1] == ms[..i] + [ms[i]];
    NamesTogether(prefix, ms[..i], [ms[i]]);
    AddTypesTogether(types, NamesIn(prefix, ms[..i]), own, path);
    assert [ms[i]][1..] == [];
    assert own == [name] + NamesIn(name, ms[i].nested);
    assert own[1..] == NamesIn(name, ms[i].nested);
  }

  class ReflectionResolver {
    const server: Server
    var files: Files
    var types: Types
    ghost var order: seq<string>
    var unusable: bool
    var requests: nat                // requests sent so far

    ghost function Reg(): Registry
      reads this
    {
      Registry(files, types, order)
    }

    ghost predicate Valid()
      reads this
    {
      && ValidServer(server) && RegistryOk(Reg())
      && Cached(Reg(), server.universe)
      && (server.faultFree ==> !unusable)
    }

    constructor (server: Server)
      requires ValidServer(server)
      ensures Valid() && this.server == server && Reg() == Registry(map[], map[], []) && requests == 0
    {
      this.server, files, types, unusable, requests, order := server, map[], map[], false, 0, [];
    }

    /** One request, unless the target has been found to have no reflection service. */
    method Call(q: Query) returns (raws: Option<seq<Raw>>)
      requires Valid()
      modifies this`unusable, this`requests
      ensures Valid()
      ensures old(unusable) ==> unusable && raws.None? && requests == old(requests)
      ensures !old(unusable) ==> requests == old(requests) + 1
      ensures !old(unusable) ==> (unusable <==> server.reply(old(requests), q) == Error(true))
      ensures !old(unusable) ==> raws == RawsOf(server.reply(old(requests), q))
      ensures raws.Some? ==> Genuine(Descriptors(raws.value), server.universe)
      ensures server.faultFree ==> forall p | p in server.universe && (q == ByFilename(p) || IsSymbolOf(q, p)) ::
                raws.Some? && Delivers(Descriptors(raws.value), server.universe, p)
      ensures server.faultFree && raws.Some? ==> forall i | 0 <= i < |raws.value| :: raws.value[i].Encoded?
    {
      if unusable {
        return None;
      }
      var resp := server.reply(requests, q);
      requests := requests + 1;
      match resp {
        case Error(unimplemented) =>
          if unimplemented {
            unusable := true;
          }
          raws := None;
        case Descriptors(rs) =>
          assert Genuine(server.reply(old(requests), q), server.universe);
          raws := Some(rs);
      }
      if server.faultFree {
        forall p | p in server.universe && (q == ByFilename(p) || IsSymbolOf(q, p))
          ensures Delivers(resp, server.universe, p) {
        }
      }
    }

    static ghost function RawsOf(r: Response): Option<seq<Raw>> {
      if r.Descriptors? then Some(r.raws) else None
    }

    ghost predicate IsSymbolOf(q: Query, p: string) {
      q.BySymbol? && Defines(server.universe, p, q.name)
    }

    /** Decode a response into the batch, the last file of a name winning. */
    method AddToBatch(raws: seq<Raw>, batch: Files) returns (ok: bool, batch': Files)
      requires Genuine(Descriptors(raws), server.universe) && BatchOk(batch, server.universe)
      requires Ranked(server.universe, server.height)
      ensures BatchOk(batch', server.universe)
      ensures forall k | k in batch :: k in batch'
      ensures ok <==> forall i | 0 <= i < |raws| :: raws[i].Encoded?
      ensures ok ==> forall i | 0 <= i < |raws| :: raws[i].file.path in batch'
      ensures forall k | k in batch' :: k in batch || InRaws(raws, k)
    {
      batch' := batch;
      for n := 0 to |raws|
        invariant BatchOk(batch', server.universe)
        invariant forall k | k in batch :: k in batch'
        invariant forall i | 0 <= i < n :: raws[i].Encoded? && raws[i].file.path in batch'
        invariant forall k | k in batch' :: k in batch || InRaws(raws, k)
      {
        if raws[n].Malformed? {
          return false, batch';
        }
        assert IsFileOf(raws[n].file, server.universe);
        batch' := batch'[raws[n].file.path := raws[n].file];
      }
      ok := true;
    }

    /** The dependency loop body's fetch: the file must be in the response. */
    method FetchDependency(dep: string, batch: Files) returns (ok: bool, batch': Files)
      requires Valid() && BatchOk(batch, server.universe)
      modifies this`unusable, this`requests
      ensures Valid() && BatchOk(batch', server.universe)
      ensures forall k | k in batch :: k in batch'
      ensures ok ==> dep in batch'
      ensures server.faultFree && dep in server.universe ==> ok
    {
      batch' := batch;
      var raws := Call(ByFilename(dep));
      if raws.None? {
        return false, batch';
      }
      ok, batch' := AddToBatch(raws.value, batch);
      if ok {
        ok := dep in batch';
        if server.faultFree && dep in server.universe {
          var file := server.universe[dep];
          assert Delivers(Descriptors(raws.value), server.universe, dep);
          var i :| 0 <= i < |raws.value| && raws.value[i] == Encoded(file);
          assert raws.value[i].file.path in batch';
        }
      }
    }

    /** The final critical section: re-check, build, register the file and its types. */
    method RegisterLocked(fd: File) returns (ok: bool)
      requires Valid() && IsFileOf(fd, server.universe)
      modifies this`files, this`types, this`order
      ensures Valid() && Extends(old(Reg()), Reg())
      ensures ok <==> fd.path in files
      ensures ok <==> fd.path in old(files) || Registrable(fd, old(files))
      ensures !ok ==> Reg() == old(Reg())
      ensures LinkConsistent(server.universe) && (forall i | 0 <= i < |fd.deps| :: fd.deps[i] in old(files)) ==> ok
    {
      if fd.path in files {
        return true;
      }
      ok := CanLink(fd, files) && CanRegister(fd, files);
      LinkFacts(server.universe, Reg(), fd, ok);
      if !ok {
        return;
      }
      CommitOfUniverse(server.universe, Reg(), fd);
      files := files[fd.path := fd];
      types := RegisterMessageTypes(types, fd.path, fd.package, fd.messages);
      order := order + [fd.path];
      assert Reg() == Commit(old(Reg()), fd);
      ok := true;
    }

    /** The batch and the registry hold all that these imports lead to, and the universe links. */
    ghost predicate NeedsOnlyBatch(deps: seq<string>, batch: Files, reg: Registry) {
      && LinkConsistent(server.universe) && Complete(batch, reg)
      && forall i | 0 <= i < |deps| :: deps[i] in batch || deps[i] in reg.files
    }

    ghost predicate NeedsNothing(name: string, batch: Files, reg: Registry) {
      LinkConsistent(server.universe) && Complete(batch, reg) && name in batch
    }

    /** Register the imports of fd first, fetching those that are not in the batch, then fd.
        The batch is shared with the caller and grows. */
    method RegisterFileDescriptor(name: string, fd: File, batch: Files) returns (ok: bool, batch': Files)
      requires Valid() && BatchOk(batch, server.universe)
      requires name in server.universe && fd == server.universe[name]
      modifies this`files, this`types, this`order, this`unusable, this`requests
      ensures Valid() && Extends(old(Reg()), Reg()) && BatchOk(batch', server.universe)
      ensures forall k | k in batch :: k in batch'
      ensures ok ==> name in files
      ensures server.faultFree ==> ok
      ensures name in old(files) ==> ok && requests == old(requests)
      ensures NeedsNothing(name, batch, old(Reg())) ==> ok && batch' == batch && requests == old(requests)
      decreases server.height[name], 2
    {
      batch' := batch;
      if name in files {
        return true, batch';
      }
      assert NeedsNothing(name, batch, old(Reg())) ==> NeedsOnlyBatch(fd.deps, batch, old(Reg()));
      ok, batch' := RegisterDependencies(name, fd, batch');
      if ok {
        ghost var before := Reg();
        ok := RegisterLocked(fd);
        ExtendsTransitive(old(Reg()), before, Reg());
      }
    }

    /** Its dependency loop. */
    method RegisterDependencies(name: string, fd: File, batch: Files) returns (ok: bool, batch': Files)
      requires Valid() && BatchOk(batch, server.universe)
      requires name in server.universe && fd == server.universe[name]
      modifies this`files, this`types, this`order, this`unusable, this`requests
      ensures Valid() && Extends(old(Reg()), Reg()) && BatchOk(batch', server.universe)
      ensures forall k | k in batch :: k in batch'
      ensures ok ==> forall j | 0 <= j < |fd.deps| :: fd.deps[j] in files
      ensures NeedsOnlyBatch(fd.deps, batch, old(Reg())) ==> ok && batch' == batch && requests == old(requests)
      ensures server.faultFree ==> ok
      decreases server.height[name], 1
    {
      batch' := batch;
      for i := 0 to |fd.deps|
        invariant Valid() && Extends(old(Reg()), Reg()) && BatchOk(batch', server.universe)
        invariant forall k | k in batch :: k in batch'
        invariant FirstIn(fd.deps, i, Reg())
        invariant NeedsOnlyBatch(fd.deps, batch, old(Reg())) ==> batch' == batch && requests == old(requests)
      {
        ghost var before := Reg();
        if NeedsOnlyBatch(fd.deps, batch, old(Reg())) {
          StaysComplete(batch, old(Reg()), before);
          assert NeedsOnlyBatch([fd.deps[i]], batch, before);
        }
        ok, batch' := RegisterDependency(name, fd.deps[i], batch');
        ExtendsTransitive(old(Reg()), before, Reg());
        if !ok {
          return false, batch';
        }
        OneMoreIn(fd.deps, i, before, Reg());
      }
      ok := true;
    }

    /** One round of that loop. */
    method RegisterDependency(ghost name: string, dep: string, batch: Files) returns (ok: bool, batch': Files)
      requires Valid() && BatchOk(batch, server.universe)
      requires name in server.universe && dep in server.universe[name].deps
      modifies this`files, this`types, this`order, this`unusable, this`requests
      ensures Valid() && Extends(old(Reg()), Reg()) && BatchOk(batch', server.universe)
      ensures forall k | k in batch :: k in batch'
      ensures ok ==> dep in files
      ensures server.faultFree ==> ok
      ensures NeedsOnlyBatch([dep], batch, old(Reg())) ==> ok && batch' == batch && requests == old(requests)
      decreases server.height[name], 0
    {
      batch' := batch;
      assert [dep][0] == dep;
      if dep in files {
        return true, batch';
      }
      if dep !in batch' {
        ok, batch' := FetchDependency(dep, batch');
        if !ok {
          return false, batch';
        }
      }
      ok, batch' := RegisterFileDescriptor(dep, batch'[dep], batch');
    }

    /** Register every file of a response, and their imports. */
    method RegisterFileDescriptors(raws: seq<Raw>) returns (ok: bool)
      requires Valid() && Genuine(Descriptors(raws), server.universe)
      modifies this`files, this`types, this`order, this`unusable, this`requests
      ensures Valid() && Extends(old(Reg()), Reg())
      ensures ok ==> forall i | 0 <= i < |raws| :: raws[i].Encoded? && raws[i].file.path in files
      ensures server.faultFree && (forall i | 0 <= i < |raws| :: raws[i].Encoded?) ==> ok
      ensures LinkConsistent(server.universe) && CompleteRaws(raws, old(Reg())) ==> ok && requests == old(requests)
    {
      var batch: Files;
      ok, batch := AddToBatch(raws, map[]);
      if !ok {
        return false;
      }
      if LinkConsistent(server.universe) && CompleteRaws(raws, old(Reg())) {
        CompleteAsBatch(raws, batch, server.universe, Reg());
      }
      ok := RegisterBatch(batch);
    }

    /** The range over the batch, which grows: it visits what was there at the start, in any order,
        and may or may not visit what the recursion adds. */
    method RegisterBatch(start: Files) returns (ok: bool)
      requires Valid() && BatchOk(start, server.universe)
      modifies this`files, this`types, this`order, this`unusable, this`requests
      ensures Valid() && Extends(old(Reg()), Reg())
      ensures ok ==> forall k | k in start :: k in files
      ensures server.faultFree ==> ok
      ensures LinkConsistent(server.universe) && Complete(start, old(Reg())) ==> ok && requests == old(requests)
    {
      var batch, visited, more := start, {}, false;
      ghost var calm := LinkConsistent(server.universe) && Complete(start, old(Reg()));
      while !(start.Keys <= visited) || more
        invariant Valid() && Extends(old(Reg()), Reg()) && BatchOk(batch, server.universe)
        invariant start.Keys <= batch.Keys && visited <= batch.Keys
        invariant visited <= Reg().files.Keys
        invariant more ==> visited != batch.Keys
        invariant calm ==> batch == start && requests == old(requests)
        decreases server.universe.Keys - visited
      {
        var name;
        ok, name, batch := RegisterNext(batch, visited, old(Reg()));
        if !ok {
          return false;
        }
        visited := visited + {name};
        more := *;
        more := more && visited != batch.Keys;
      }
      ok := true;
    }

    /** One round of the range, which began with the registry `origin`. */
    method RegisterNext(batch: Files, visited: set<string>, ghost origin: Registry)
      returns (ok: bool, name: string, batch': Files)
      requires Valid() && BatchOk(batch, server.universe) && visited < batch.Keys
      requires Extends(origin, Reg()) && visited <= Reg().files.Keys
      modifies this`files, this`types, this`order, this`unusable, this`requests
      ensures Valid() && Extends(origin, Reg()) && BatchOk(batch', server.universe)
      ensures batch.Keys <= batch'.Keys && name in batch && name !in visited
      ensures ok ==> visited + {name} <= Reg().files.Keys
      ensures server.faultFree ==> ok
      ensures LinkConsistent(server.universe) && Complete(batch, origin) ==>
                ok && batch' == batch && requests == old(requests)
    {
      name := NextKey(batch.Keys - visited);
      if Complete(batch, origin) {
        StaysComplete(batch, origin, Reg());
      }
      ok, batch' := RegisterFileDescriptor(name, batch[name], batch);
      ExtendsTransitive(origin, old(Reg()), Reg());
    }

    /** A complete response of a universe that links needs no further request, and what it defines
        is found. */
    ghost predicate OneRequestEnough(r: Response, name: FullName, was: Registry, file: Option<string>, sent: int) {
      LinkConsistent(server.universe) && r.Descriptors? && CompleteRaws(r.raws, was) ==>
        && sent == 1
        && ((exists i :: 0 <= i < |r.raws| && name in NamesOf(r.raws[i].file)) ==> file.Some?)
    }

    /** Look a message up, fetching and registering its file and imports when it is unknown. */
    method ResolveMessageType(name: FullName) returns (file: Option<string>)
      requires Valid()
      modifies this`files, this`types, this`order, this`unusable, this`requests
      ensures Valid() && Extends(old(Reg()), Reg())
      ensures file.Some? ==> name in types && file.value == types[name] && Defines(server.universe, file.value, name)
      ensures name in old(types) ==> file == Some(old(types)[name]) && requests == old(requests)
      ensures server.faultFree ==> (file.Some? <==> exists p :: Defines(server.universe, p, name))
      ensures !old(unusable) && name !in old(types) ==>
                OneRequestEnough(server.reply(old(requests), BySymbol(name)), name, old(Reg()), file,
                                 requests - old(requests))
    {
      if name in types {
        KnownIsDefined(server.universe, Reg(), name);
        return Some(types[name]);
      }
      var raws := Call(BySymbol(name));
      if raws.None? {
        return None;
      }
      var ok := RegisterFileDescriptors(raws.value);
      if !ok {
        return None;
      }
      if server.faultFree {
        forall p | Defines(server.universe, p, name) ensures name in types {
          DeliveredIsKnown(server.universe, Reg(), raws.value, p, name);
        }
      }
      if name in types {
        KnownIsDefined(server.universe, Reg(), name);
        file := Some(types[name]);
      } else {
        file := None;
      }
    }

    /** What the lookup of a message finds. */
    ghost predicate FoundAs(found: MessageType, n: FullName, compiled: set<FullName>) {
      && (n in compiled ==> found == Compiled(n))
      && (n !in compiled ==> !found.Compiled?)
      && (found.Dynamic? ==> Defines(server.universe, found.file, n))
      && (server.faultFree && n !in compiled ==> (found.Dynamic? <==> exists p :: Defines(server.universe, p, n)))
    }

    /** The type of an Any: compiled in, resolved by reflection, or the empty message; a URL
        that cannot be resolved is logged the first time only. */
    method FindMessageByURL(url: string, compiled: set<FullName>, logged: set<string>)
      returns (found: MessageType, warned: bool, logged': set<string>)
      requires Valid()
      modifies this`files, this`types, this`order, this`unusable, this`requests
      ensures Valid() && Extends(old(Reg()), Reg())
      ensures found.Compiled? <==> NameOfUrl(url) in compiled
      ensures found.Compiled? ==> requests == old(requests)
      ensures found.Dynamic? ==> Defines(server.universe, found.file, NameOfUrl(url))
      ensures server.faultFree && !found.Compiled? ==>
                (found.Dynamic? <==> exists p :: Defines(server.universe, p, NameOfUrl(url)))
      ensures forall n | UrlNames(url, n) :: FoundAs(found, n, compiled)
      ensures warned <==> found.Fallback? && url !in logged
      ensures logged' == if found.Fallback? then logged + {url} else logged
    {
      var name := NameOfUrl(url);
      forall n | UrlNames(url, n) ensures n == name {
        UrlNamesOne(url, n);
      }
      if name in compiled {
        return Compiled(name), false, logged;
      }
      var file := ResolveMessageType(name);
      if file.Some? {
        return Dynamic(file.value), false, logged;
      }
      return Fallback, url !in logged, logged + {url};
    }
  }

  datatype MessageType = Compiled(name: FullName) | Dynamic(file: string) | Fallback

  /** The components of a dotted name. */
  function Components(s: string): FullName
    decreases |s|
  {
    var i := FirstIndex(s, '.');
    if i < 0 then [s] else [s[..i]] + Components(s[i + 1..])
  }

  /** The message name in a type URL: what follows the last slash. */
  function NameOfUrl(url: string): FullName {
    Components(AfterLast(url, '/'))
  }

  /** The dotted form of a name. */
  ghost function Join(n: FullName): string
    requires n != []
  {
    if |n| == 1 then n[0] else n[0] + ['.'] + Join(n[1..])
  }

  lemma JoinMore(x: string, rest: FullName)
    requires rest != []
    ensures Join([x] + rest) == x + ['.'] + Join(rest)
  {
    assert ([x] + rest)[1..] == rest;
  }

  lemma ComponentsMore(x: string, rest: string)
    requires '.' !in x
    ensures Components(x + ['.'] + rest) == [x] + Components(rest)
  {
    var s := x + ['.'] + rest;
    FirstSeparator(x, '.', rest);
    assert s[..|x|] == x && s[|x| + 1..] == rest;
  }

  lemma {:induction false} ComponentsOfJoin(n: FullName)
    requires n != [] && forall i | 0 <= i < |n| :: '.' !in n[i]
    ensures Components(Join(n)) == n
  {
    assert n == [n[0]] + n[1..];
    if |n| > 1 {
      ComponentsOfJoin(n[1..]);
      JoinMore(n[0], n[1..]);
      ComponentsMore(n[0], Join(n[1..]));
    }
  }

  lemma {:induction false} JoinOfComponents(s: string)
    ensures Components(s) != [] && Join(Components(s)) == s
    ensures forall i | 0 <= i < |Components(s)| :: '.' !in Components(s)[i]
    decreases |s|
  {
    var i := FirstIndex(s, '.');
    if i >= 0 {
      JoinOfComponents(s[i + 1..]);
      JoinMore(s[..i], Components(s[i + 1..]));
      assert s == s[..i] + ['.'] + s[i + 1..];
    }
  }

  /** The text names the message, or is a type URL that ends in its name. */
  ghost predicate UrlNames(url: string, n: FullName) {
    && n != [] && (forall i | 0 <= i < |n| :: '.' !in n[i])
    && '/' !in Join(n)
    && (url == Join(n) || exists prefix :: url == prefix + ['/'] + Join(n))
  }

  lemma OnlyOneNamed(url: string, n: FullName)
    requires UrlNames(url, n)
    ensures n == NameOfUrl(url)
  {
    ComponentsOfJoin(n);
    if url == Join(n) {
      NoLaterIndex([], url, '/');
      assert [] + url == url;
    } else {
      var prefix :| url == prefix + ['/'] + Join(n);
      AfterLastSeparator(prefix, '/', Join(n), url);
    }
  }

  /** Every text names exactly one message: the dotted name after its last slash. */
  lemma UrlNamesOne(url: string, n: FullName)
    ensures UrlNames(url, n) <==> n == NameOfUrl(url)
  {
    SplitAtLast(url, '/');
    JoinOfComponents(AfterLast(url, '/'));
    if UrlNames(url, n) {
      OnlyOneNamed(url, n);
    }
  }

  /** In a universe that links, a message has one defining file; so what a fault-free target
      lets the resolver find depends on the universe alone, not on what is already cached. */
  lemma OneDefiner(u: Files, p: string, q: string, n: FullName)
    requires LinkConsistent(u) && Defines(u, p, n) && Defines(u, q, n)
    ensures p == q
  {
    if p != q {
      CommonNameClashes(u[p], u[q], n);
    }
  }

  /** Two resolvers of one fault-free target, whatever each has cached, answer alike. */
  method ResolveTwice(a: ReflectionResolver, b: ReflectionResolver, name: FullName)
    returns (fa: Option<string>, fb: Option<string>)
    requires a != b && a.server == b.server && a.server.faultFree && a.Valid() && b.Valid()
    modifies a, b
    ensures fa == fb
  {
    fa := a.ResolveMessageType(name);
    fb := b.ResolveMessageType(name);
    if fa.Some? && fb.Some? {
      OneDefiner(a.server.universe, fa.value, fb.value, name);
    }
  }

  /** A lookup, and how many requests it took. */
  method CountedLookup(r: ReflectionResolver, name: FullName) returns (file: Option<string>, sent: int)
    requires r.Valid()
    modifies r
    ensures r.Valid()
    ensures name in old(r.types) ==> file == Some(old(r.types)[name]) && sent == 0
  {
    var before := r.requests;
    file := r.ResolveMessageType(name);
    sent := r.requests - before;
  }

  /** One lookup of name, then any number of others: what was found stays known. */
  method ResolveThenOthers(r: ReflectionResolver, name: FullName, others: seq<FullName>)
    returns (first: Option<string>)
    requires r.Valid()
    modifies r
    ensures r.Valid()
    ensures first.Some? ==> name in r.types && r.types[name] == first.value
  {
    first := r.ResolveMessageType(name);
    for i := 0 to |others|
      invariant r.Valid()
      invariant first.Some? ==> name in r.types && r.types[name] == first.value
    {
      var _ := r.ResolveMessageType(others[i]);
    }
  }

  /** Once a name has been found, looking it up again sends nothing and finds the same file,
      also after any number of other lookups; `sent` is how many requests the last lookup took. */
  method ResolveAgain(r: ReflectionResolver, name: FullName, others: seq<FullName>)
    returns (first: Option<string>, again: Option<string>, sent: int)
    requires r.Valid()
    modifies r
    ensures first.Some? ==> again == first && sent == 0
  {
    first := ResolveThenOthers(r, name, others);
    again, sent := CountedLookup(r, name);
  }
}
