/** File descriptors and the registries they are linked into. */
module Registry {
  import opened Prelude

  /** A dotted name, by its components. */
  type FullName = seq<string>

  datatype Message = Message(name: string, nested: seq<Message>)

  /** A file descriptor. `others` are its other top-level declarations; `linkable` stands for
      every check of protodesc.NewFile that looks at the file alone. */
  datatype File = File(path: string, package: FullName, deps: seq<string>,
                       messages: seq<Message>, others: seq<string>, linkable: bool)

  type Files = map<string, File>

  /** Each file stands under its own path. */
  ghost predicate Named(files: Files) { forall p | p in files :: files[p].path == p }

  /** The message types, each with the file that defines it. */
  type Types = map<FullName, string>

  /** The resolver's two registries; `order` is the order of registration. */
  datatype Registry = Registry(files: Files, types: Types, order: seq<string>)

  /** Every message below prefix, parents first. */
  function NamesIn(prefix: FullName, ms: seq<Message>): seq<FullName>
    decreases ms
  {
    if ms == [] then []
    else
      var name := prefix + [ms[0].name];
      [name] + NamesIn(name, ms[0].nested) + NamesIn(prefix, ms[1..])
  }

  function NamesOf(f: File): seq<FullName> { NamesIn(f.package, f.messages) }

  /** RegisterMessage over a list of names: a name already present is kept, its error ignored. */
  function AddTypes(types: Types, names: seq<FullName>, path: string): Types
    decreases |names|
  {
    if names == [] then types
    else AddTypes(if names[0] in types then types else types[names[0] := path], names[1..], path)
  }

  /** The names a file declares directly in its package. */
  function TopsOf(f: File): seq<FullName> {
    seq(|f.messages|, i requires 0 <= i < |f.messages| => f.package + [f.messages[i].name])
    + seq(|f.others|, i requires 0 <= i < |f.others| => f.package + [f.others[i]])
  }

  predicate IsPackage(n: FullName, f: File) { 0 < |n| <= |f.package| && f.package[..|n|] == n }

  /** The two files declare a common name, or one declares a name the other uses as a package. */
  predicate Clash(f: File, g: File) {
    || (exists n | n in TopsOf(f) :: n in TopsOf(g) || IsPackage(n, g))
    || (exists n | n in TopsOf(g) :: IsPackage(n, f))
  }

  /** protodesc.NewFile accepts f: everything it imports is registered, no message is declared twice. */
  predicate CanLink(f: File, files: Files) {
    f.linkable && (forall i | 0 <= i < |f.deps| :: f.deps[i] in files) && NoDup(NamesOf(f))
  }

  /** Files.RegisterFile accepts f: a new path, and no name conflict. */
  predicate CanRegister(f: File, files: Files) {
    f.path !in files && forall p | p in files :: !Clash(f, files[p])
  }

  // ----- What these checks come to, on names and packages -----

  /** x is declared by f directly in its package. */
  ghost predicate Declares(f: File, x: string) {
    (exists i :: 0 <= i < |f.messages| && f.messages[i].name == x) || x in f.others
  }

  /** g's package goes on from f's with a name that f declares. */
  ghost predicate LiesUnder(g: File, f: File) {
    |f.package| < |g.package| && f.package <= g.package && Declares(f, g.package[|f.package|])
  }

  ghost predicate ShareName(f: File, g: File) { exists x :: Declares(f, x) && Declares(g, x) }

  ghost predicate ConflictOnNames(f: File, g: File) {
    (f.package == g.package && ShareName(f, g)) || LiesUnder(f, g) || LiesUnder(g, f)
  }

  lemma TopIsDeclared(f: File, x: string)
    ensures f.package + [x] in TopsOf(f) <==> Declares(f, x)
  {
    var top := f.package + [x];
    if top in TopsOf(f) {
      var i :| 0 <= i < |TopsOf(f)| && TopsOf(f)[i] == top;
      assert top[|f.package|] == x;
    }
    if Declares(f, x) {
      if i :| 0 <= i < |f.messages| && f.messages[i].name == x {
        assert TopsOf(f)[i] == top;
      } else {
        var i :| 0 <= i < |f.others| && f.others[i] == x;
        assert TopsOf(f)[|f.messages| + i] == top;
      }
    }
  }

  lemma TopHasForm(f: File, n: FullName)
    requires n in TopsOf(f)
    ensures |n| == |f.package| + 1 && n == f.package + [n[|f.package|]] && Declares(f, n[|f.package|])
  {
    var i :| 0 <= i < |TopsOf(f)| && TopsOf(f)[i] == n;
    TopIsDeclared(f, n[|f.package|]);
  }

  lemma PackageMeetsTop(f: File, g: File)
    ensures (exists n | n in TopsOf(f) :: IsPackage(n, g)) <==> LiesUnder(g, f)
  {
    if n :| n in TopsOf(f) && IsPackage(n, g) {
      TopHasForm(f, n);
    }
    if LiesUnder(g, f) {
      var x := g.package[|f.package|];
      TopIsDeclared(f, x);
      assert g.package[..|f.package| + 1] == f.package + [x];
      assert IsPackage(f.package + [x], g);
    }
  }

  lemma TopsMeet(f: File, g: File)
    ensures (exists n | n in TopsOf(f) :: n in TopsOf(g)) <==> f.package == g.package && ShareName(f, g)
  {
    if n :| n in TopsOf(f) && n in TopsOf(g) {
      TopHasForm(f, n);
      TopHasForm(g, n);
      assert f.package == n[..|n| - 1] == g.package;
    }
    if f.package == g.package && ShareName(f, g) {
      var x :| Declares(f, x) && Declares(g, x);
      TopIsDeclared(f, x);
      TopIsDeclared(g, x);
    }
  }

  /** Two files conflict if and only if they have one package and declare a common name in it, or
      the package of one goes on from the other's with a name that the other declares. */
  lemma ClashExactly(f: File, g: File)
    ensures Clash(f, g) <==> ConflictOnNames(f, g)
  {
    TopsMeet(f, g);
    PackageMeetsTop(f, g);
    PackageMeetsTop(g, f);
  }

  /** Packages of which neither continues the other never conflict, whatever they share. */
  lemma UnrelatedPackages(f: File, g: File)
    requires !(f.package <= g.package) && !(g.package <= f.package)
    ensures !Clash(f, g)
  {
    ClashExactly(f, g);
  }

  /** The path of simple names leads from ms down to a message. */
  ghost predicate Reaches(ms: seq<Message>, path: FullName)
    decreases |path|
  {
    path != [] && exists i :: 0 <= i < |ms| && ReachesFrom(ms[i], path)
  }

  ghost predicate ReachesFrom(m: Message, path: FullName)
    requires path != []
    decreases |path|, 0
  {
    m.name == path[0] && (|path| == 1 || Reaches(m.nested, path[1..]))
  }

  /** The message names of a file are its package followed by the paths to its messages. */
  lemma {:induction false} NamesExactly(prefix: FullName, ms: seq<Message>, path: FullName)
    ensures prefix + path in NamesIn(prefix, ms) <==> Reaches(ms, path)
    decreases ms
  {
    if ms == [] {
    } else {
      var head := prefix + [ms[0].name];
      NamesExactly(prefix, ms[1..], path);
      assert Reaches(ms, path) <==> path != [] && (ReachesFrom(ms[0], path) || Reaches(ms[1..], path)) by {
        assert ms == [ms[0]] + ms[1..];
      }
      if path == [] {
        NotItsOwnPrefix(prefix, ms);
      } else {
        NamesExactly(head, ms[0].nested, path[1..]);
        assert path[0] == ms[0].name ==> head + path[1..] == prefix + path;
        if prefix + path in NamesIn(head, ms[0].nested) {
          NamesBelow(head, ms[0].nested, prefix + path);
          assert (prefix + path)[|prefix|] == head[|prefix|];
        }
        assert prefix + path == head ==> path == head[|prefix|..] by {
          assert (prefix + path)[|prefix|..] == path;
        }
      }
    }
  }

  lemma NotItsOwnPrefix(prefix: FullName, ms: seq<Message>)
    ensures prefix !in NamesIn(prefix, ms) && prefix + [] == prefix
  {
    if prefix in NamesIn(prefix, ms) {
      NamesBelow(prefix, ms, prefix);
    }
  }

  /** Messages next to each other have different names, at every depth. */
  ghost predicate DistinctSiblings(ms: seq<Message>) {
    && (forall i, j | 0 <= i < j < |ms| :: ms[i].name != ms[j].name)
    && (forall i | 0 <= i < |ms| :: DistinctSiblings(ms[i].nested))
  }

  lemma DistinctSiblingsStep(ms: seq<Message>)
    requires ms != []
    ensures DistinctSiblings(ms) <==>
      DistinctSiblings(ms[0].nested) && DistinctSiblings(ms[1..]) && !Reaches(ms[1..], [ms[0].name])
  {
    var m, rest := ms[0], ms[1..];
    assert forall i | 0 <= i < |rest| :: rest[i] == ms[i + 1];
    assert Reaches(rest, [m.name]) <==> exists i :: 0 <= i < |rest| && rest[i].name == m.name by {
      assert forall i | 0 <= i < |rest| :: ReachesFrom(rest[i], [m.name]) <==> rest[i].name == m.name;
    }
    assert ms == [m] + rest;
  }

  /** A file's messages have different names if and only if those next to each other do. */
  lemma {:induction false} NoDupExactly(prefix: FullName, ms: seq<Message>)
    ensures NoDup(NamesIn(prefix, ms)) <==> DistinctSiblings(ms)
    decreases ms
  {
    if ms != [] {
      var head := prefix + [ms[0].name];
      var below, beside := NamesIn(head, ms[0].nested), NamesIn(prefix, ms[1..]);
      NoDupExactly(head, ms[0].nested);
      NoDupExactly(prefix, ms[1..]);
      DistinctSiblingsStep(ms);
      NamesExactly(prefix, ms[1..], [ms[0].name]);
      NotItsOwnPrefix(head, ms[0].nested);
      if n :| n in below && n in beside {
        BelowAndBeside(prefix, ms, n);
      }
      NoDupTogether([head], below);
      NoDupTogether([head] + below, beside);
    }
  }

  lemma BelowAndBeside(prefix: FullName, ms: seq<Message>, n: FullName)
    requires ms != [] && n in NamesIn(prefix + [ms[0].name], ms[0].nested) && n in NamesIn(prefix, ms[1..])
    ensures Reaches(ms[1..], [ms[0].name])
  {
    var head, rest := prefix + [ms[0].name], ms[1..];
    NamesBelow(head, ms[0].nested, n);
    NamesBelow(prefix, rest, n);
    var i :| 0 <= i < |rest| && n[..|prefix| + 1] == prefix + [rest[i].name];
    assert n[..|prefix| + 1] == head;
    assert head[|prefix|] == rest[i].name;
    assert ReachesFrom(rest[i], [ms[0].name]);
  }

  /** What registering a file asks for, on names and packages alone. */
  ghost predicate Registrable(f: File, files: Files) {
    && f.linkable && (forall i | 0 <= i < |f.deps| :: f.deps[i] in files) && DistinctSiblings(f.messages)
    && forall p | p in files :: !ConflictOnNames(f, files[p])
  }

  lemma RegistrableExactly(f: File, files: Files)
    requires f.path !in files
    ensures CanLink(f, files) && CanRegister(f, files) <==> Registrable(f, files)
  {
    NoDupExactly(f.package, f.messages);
    forall p | p in files ensures Clash(f, files[p]) <==> ConflictOnNames(f, files[p]) {
      ClashExactly(f, files[p]);
    }
  }

  function Commit(reg: Registry, f: File): Registry {
    Registry(reg.files[f.path := f], AddTypes(reg.types, NamesOf(f), f.path), reg.order + [f.path])
  }

  // ----- The registry invariant -----

  ghost predicate FilesOk(reg: Registry) {
    && (forall p | p in reg.files :: reg.files[p].path == p && NoDup(NamesOf(reg.files[p])))
    && (forall p, q | p in reg.files && q in reg.files && p != q :: !Clash(reg.files[p], reg.files[q]))
  }

  /** Dependency-closed, in registration order: no file before its imports. */
  ghost predicate Closed(reg: Registry) {
    && (forall i | 0 <= i < |reg.order| :: reg.order[i] in reg.files)
    && (forall p | p in reg.files :: p in reg.order)
    && (forall i, d | 0 <= i < |reg.order| && 0 <= d < |reg.files[reg.order[i]].deps| ::
          reg.files[reg.order[i]].deps[d] in reg.order[..i])
    && NoDup(reg.order)
  }

  /** The types are exactly the nested messages of the registered files. */
  ghost predicate TypesAgree(reg: Registry) {
    && (forall n | n in reg.types :: reg.types[n] in reg.files && n in NamesOf(reg.files[reg.types[n]]))
    && (forall p, n | p in reg.files && n in NamesOf(reg.files[p]) :: n in reg.types && reg.types[n] == p)
  }

  ghost predicate RegistryOk(reg: Registry) {
    FilesOk(reg) && Closed(reg) && TypesAgree(reg)
  }

  lemma {:induction false} NamesBelow(prefix: FullName, ms: seq<Message>, n: FullName)
    requires n in NamesIn(prefix, ms)
    ensures |n| > |prefix| && n[..|prefix|] == prefix
    ensures exists i :: 0 <= i < |ms| && n[..|prefix| + 1] == prefix + [ms[i].name]
    decreases ms
  {
    var head := prefix + [ms[0].name];
    if n == head {
      assert n[..|prefix| + 1] == prefix + [ms[0].name];
    } else if n in NamesIn(head, ms[0].nested) {
      NamesBelow(head, ms[0].nested, n);
      assert n[..|prefix|] == head[..|prefix|];
      assert n[..|prefix| + 1] == prefix + [ms[0].name];
    } else {
      NamesBelow(prefix, ms[1..], n);
      var i :| 0 <= i < |ms[1..]| && n[..|prefix| + 1] == prefix + [ms[1..][i].name];
      assert ms[1..][i] == ms[i + 1];
    }
  }

  lemma TopOfName(f: File, n: FullName)
    requires n in NamesOf(f)
    ensures |n| > |f.package| && n[..|f.package|] == f.package && n[..|f.package| + 1] in TopsOf(f)
  {
    NamesBelow(f.package, f.messages, n);
    var i :| 0 <= i < |f.messages| && n[..|f.package| + 1] == f.package + [f.messages[i].name];
    assert TopsOf(f)[i] == n[..|f.package| + 1];
  }

  /** A common message name, at whatever depth, is a clash between the two files. */
  lemma CommonNameClashes(f: File, g: File, n: FullName)
    requires n in NamesOf(f) && n in NamesOf(g)
    ensures Clash(f, g)
  {
    TopOfName(f, n);
    TopOfName(g, n);
    var a, b := |f.package|, |g.package|;
    if a < b {
      assert g.package[..a + 1] == n[..b][..a + 1] == n[..a + 1];
      assert IsPackage(n[..a + 1], g);
    } else if b < a {
      assert f.package[..b + 1] == n[..a][..b + 1] == n[..b + 1];
      assert IsPackage(n[..b + 1], f);
    }
  }

  /** Adding names keeps what is there and adds each new one under its file. */
  lemma {:induction false} AddNewTypes(types: Types, names: seq<FullName>, path: string)
    ensures forall n :: n in AddTypes(types, names, path) <==> n in types || n in names
    ensures forall n | n in types :: AddTypes(types, names, path)[n] == types[n]
    ensures forall n | n in names && n !in types :: AddTypes(types, names, path)[n] == path
    decreases |names|
  {
    if names != [] {
      var types' := if names[0] in types then types else types[names[0] := path];
      assert names == [names[0]] + names[1..];
      AddNewTypes(types', names[1..], path);
    }
  }

  /** The message names of a file about to be registered are all new, so the error that
      RegisterMessage's caller ignores never occurs. */
  lemma NewFileNewNames(reg: Registry, f: File)
    requires RegistryOk(reg) && CanRegister(f, reg.files)
    ensures forall i | 0 <= i < |NamesOf(f)| :: NamesOf(f)[i] !in reg.types
  {
    forall i | 0 <= i < |NamesOf(f)| ensures NamesOf(f)[i] !in reg.types {
      var n := NamesOf(f)[i];
      if n in reg.types {
        CommonNameClashes(f, reg.files[reg.types[n]], n);
      }
    }
  }

  lemma CommitKeepsFiles(reg: Registry, f: File)
    requires RegistryOk(reg) && CanLink(f, reg.files) && CanRegister(f, reg.files)
    ensures FilesOk(Commit(reg, f))
  {
    var files' := Commit(reg, f).files;
    forall p, q | p in files' && q in files' && p != q ensures !Clash(files'[p], files'[q]) {
      assert q == f.path ==> !Clash(f, files'[p]);
    }
  }

  lemma CommitKeepsClosed(reg: Registry, f: File)
    requires RegistryOk(reg) && CanLink(f, reg.files) && CanRegister(f, reg.files)
    ensures Closed(Commit(reg, f))
  {
    var reg' := Commit(reg, f);
    forall i, d | 0 <= i < |reg'.order| && 0 <= d < |reg'.files[reg'.order[i]].deps|
      ensures reg'.files[reg'.order[i]].deps[d] in reg'.order[..i] {
      if i < |reg.order| {
        OlderStaysBelow(reg, f, i, d);
      }
    }
  }

  lemma OlderStaysBelow(reg: Registry, f: File, i: nat, d: nat)
    requires Closed(reg) && f.path !in reg.files && i < |reg.order| && d < |reg.files[reg.order[i]].deps|
    ensures Commit(reg, f).order[i] == reg.order[i] != f.path
    ensures reg.files[reg.order[i]].deps[d] in Commit(reg, f).order[..i]
  {
    assert Commit(reg, f).order[..i] == reg.order[..i];
  }

  /** With new and distinct names, types and files go on agreeing. */
  lemma TypesKept(reg: Registry, f: File)
    requires TypesAgree(reg) && f.path !in reg.files && NoDup(NamesOf(f))
    requires forall i | 0 <= i < |NamesOf(f)| :: NamesOf(f)[i] !in reg.types
    ensures TypesAgree(Commit(reg, f))
  {
    TypesHaveFiles(reg, f);
    FilesHaveTypes(reg, f);
  }

  lemma TypesHaveFiles(reg: Registry, f: File)
    requires TypesAgree(reg) && f.path !in reg.files && NoDup(NamesOf(f))
    requires forall i | 0 <= i < |NamesOf(f)| :: NamesOf(f)[i] !in reg.types
    ensures var reg' := Commit(reg, f);
      forall n | n in reg'.types :: reg'.types[n] in reg'.files && n in NamesOf(reg'.files[reg'.types[n]])
  {
    var reg' := Commit(reg, f);
    AddNewTypes(reg.types, NamesOf(f), f.path);
    forall n | n in reg'.types ensures reg'.types[n] in reg'.files && n in NamesOf(reg'.files[reg'.types[n]]) {
      if n in reg.types {
        assert reg.types[n] in reg.files;
      }
    }
  }

  lemma FilesHaveTypes(reg: Registry, f: File)
    requires TypesAgree(reg) && f.path !in reg.files && NoDup(NamesOf(f))
    requires forall i | 0 <= i < |NamesOf(f)| :: NamesOf(f)[i] !in reg.types
    ensures var reg' := Commit(reg, f);
      forall p, n | p in reg'.files && n in NamesOf(reg'.files[p]) :: n in reg'.types && reg'.types[n] == p
  {
    var reg' := Commit(reg, f);
    AddNewTypes(reg.types, NamesOf(f), f.path);
    forall p, n | p in reg'.files && n in NamesOf(reg'.files[p]) ensures n in reg'.types && reg'.types[n] == p {
      if p != f.path {
        assert n in reg.types && reg.types[n] == p;
      }
    }
  }

  /** The locked section that registers a file keeps the invariant, whatever the file. */
  lemma CommitKeepsRegistry(reg: Registry, f: File)
    requires RegistryOk(reg) && CanLink(f, reg.files) && CanRegister(f, reg.files)
    ensures RegistryOk(Commit(reg, f))
    ensures forall n | n in reg.types :: n in Commit(reg, f).types && Commit(reg, f).types[n] == reg.types[n]
  {
    CommitKeepsFiles(reg, f);
    CommitKeepsClosed(reg, f);
    NewFileNewNames(reg, f);
    TypesKept(reg, f);
    AddNewTypes(reg.types, NamesOf(f), f.path);
  }

  /** A chain of imports: each file imports the next. */
  ghost predicate ImportChain(files: Files, chain: seq<string>) {
    && (forall i | 0 <= i < |chain| :: chain[i] in files)
    && (forall i | 0 <= i < |chain| - 1 :: chain[i + 1] in files[chain[i]].deps)
  }

  lemma {:induction false} ChainGoesDown(reg: Registry, chain: seq<string>, a: nat, b: nat)
    requires Closed(reg) && ImportChain(reg.files, chain) && |chain| >= 2
    requires a < |reg.order| && reg.order[a] == chain[0]
    requires b < |reg.order| && reg.order[b] == chain[|chain| - 1]
    ensures b < a
  {
    assert chain[1] in reg.files[chain[0]].deps;
    var d :| 0 <= d < |reg.files[chain[0]].deps| && reg.files[chain[0]].deps[d] == chain[1];
    assert chain[1] in reg.order[..a];
    var k :| 0 <= k < a && reg.order[k] == chain[1];
    if |chain| > 2 {
      ChainGoesDown(reg, chain[1..], k, b);
    } else {
      assert k == b;
    }
  }

  /** No file on an import cycle is ever registered. */
  lemma NoCycleRegistered(reg: Registry, chain: seq<string>)
    requires RegistryOk(reg) && ImportChain(reg.files, chain) && |chain| >= 2
    ensures chain[0] != chain[|chain| - 1]
  {
    assert chain[0] in reg.files && chain[|chain| - 1] in reg.files;
    var a :| 0 <= a < |reg.order| && reg.order[a] == chain[0];
    var b :| 0 <= b < |reg.order| && reg.order[b] == chain[|chain| - 1];
    ChainGoesDown(reg, chain, a, b);
  }
}
