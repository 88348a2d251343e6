/** Copying a program's libraries and everything they depend on: a worklist that drains itself in batches
    and may queue a library again that its own batch has still to reach. */
module Dependencies {
  type Library = string
  type FileName = string

  /** The lookup of one library's dependencies. */
  type Lookup = Library -> set<Library>

  // ---- The transitive closure ----

  ghost predicate Path(deps: Lookup, start: set<Library>, p: seq<Library>) {
    && p != [] && p[0] in start
    && forall i :: 0 < i < |p| ==> p[i] in deps(p[i - 1])
  }

  ghost predicate Reached(deps: Lookup, start: set<Library>, lib: Library) {
    exists p :: Path(deps, start, p) && p[|p| - 1] == lib
  }

  lemma StartIsReached(deps: Lookup, start: set<Library>, lib: Library)
    requires lib in start
    ensures Reached(deps, start, lib)
  {
    assert Path(deps, start, [lib]) && [lib][|[lib]| - 1] == lib;
  }

  lemma DependencyIsReached(deps: Lookup, start: set<Library>, lib: Library, dep: Library)
    requires Reached(deps, start, lib) && dep in deps(lib)
    ensures Reached(deps, start, dep)
  {
    var p :| Path(deps, start, p) && p[|p| - 1] == lib;
    var q := p + [dep];
    assert Path(deps, start, q) && q[|q| - 1] == dep;
  }

  ghost predicate Closed(deps: Lookup, libs: set<Library>) {
    forall lib, dep :: lib in libs && dep in deps(lib) ==> dep in libs
  }

  lemma {:induction false} PathStaysInside(deps: Lookup, start: set<Library>, libs: set<Library>, p: seq<Library>)
    requires start <= libs && Closed(deps, libs) && Path(deps, start, p)
    ensures p[|p| - 1] in libs
    decreases |p|
  {
    if |p| == 1 {
    } else {
      var q := p[..|p| - 1];
      assert p[|p| - 1] in deps(q[|q| - 1]);
      PathStaysInside(deps, start, libs, q);
    }
  }

  /** A closed set of reached libraries that has the start in it is the closure. */
  lemma ClosedAndReachedIsClosure(deps: Lookup, start: set<Library>, libs: set<Library>)
    requires start <= libs && Closed(deps, libs)
    requires forall lib :: lib in libs ==> Reached(deps, start, lib)
    ensures forall lib :: lib in libs <==> Reached(deps, start, lib)
  {
    forall lib | Reached(deps, start, lib) ensures lib in libs {
      var p :| Path(deps, start, p) && p[|p| - 1] == lib;
      PathStaysInside(deps, start, libs, p);
    }
  }

  // ---- The worklist ----

  /** What is copied or queued has been reached, and a copied library's dependencies are copied or queued. */
  ghost predicate Inv(deps: Lookup, start: set<Library>, universe: set<Library>, copied: set<Library>,
                      queued: set<Library>) {
    && copied <= universe && queued <= universe
    && (forall lib :: lib in start ==> lib in copied || lib in queued)
    && (forall lib :: lib in copied || lib in queued ==> Reached(deps, start, lib))
    && forall lib, dep :: lib in copied && dep in deps(lib) ==> dep in copied || dep in queued
  }

  /** The files of the target directory: the first library copied under a name stays. */
  function Copy(files: map<FileName, Library>, name: FileName, lib: Library): map<FileName, Library> {
    if name in files then files else files[name := lib]
  }

  /** `files` is the directory `before` with a copy for the name of each library. */
  ghost predicate CopiesOf(before: map<FileName, Library>, files: map<FileName, Library>, nameOf: Library -> FileName,
                           libs: set<Library>) {
    && (forall name :: name in before ==> name in files && files[name] == before[name])
    && (forall lib :: lib in libs ==> nameOf(lib) in files)
    && forall name :: name in files && name !in before ==> files[name] in libs && nameOf(files[name]) == name
  }

  lemma CopyOneMore(before: map<FileName, Library>, files: map<FileName, Library>, nameOf: Library -> FileName,
                    libs: set<Library>, lib: Library)
    requires CopiesOf(before, files, nameOf, libs)
    ensures CopiesOf(before, Copy(files, nameOf(lib), lib), nameOf, libs + {lib})
  {
  }

  /** The invariant within a round, in which `checking` is the part of the batch still to be processed. */
  ghost predicate InRound(deps: Lookup, start: set<Library>, universe: set<Library>, already: set<Library>,
                          batch: set<Library>, copied: set<Library>, checking: set<Library>, pending: set<Library>) {
    && checking <= batch && pending <= universe
    && (forall lib :: lib in copied <==> lib in already || (lib in batch && lib !in checking))
    && (forall lib :: lib in pending ==> Reached(deps, start, lib))
    && (forall lib, dep :: lib in batch && lib !in checking && dep in deps(lib) ==> dep in copied || dep in pending)
    && (batch <= already ==> pending == {})
  }

  lemma RoundStep(deps: Lookup, start: set<Library>, universe: set<Library>, already: set<Library>,
                  batch: set<Library>, copied: set<Library>, checking: set<Library>, pending: set<Library>,
                  lib: Library)
    requires Closed(deps, universe) && Inv(deps, start, universe, already, batch) && lib in checking
    requires InRound(deps, start, universe, already, batch, copied, checking, pending)
    ensures InRound(deps, start, universe, already, batch, copied + {lib}, checking - {lib},
                    pending + (deps(lib) - (copied + {lib})))
  {
    forall dep | dep in deps(lib) ensures Reached(deps, start, dep) {
      DependencyIsReached(deps, start, lib, dep);
    }
    if batch <= already {
      assert deps(lib) <= copied;
    }
  }

  lemma RoundEnds(deps: Lookup, start: set<Library>, universe: set<Library>, already: set<Library>,
                  batch: set<Library>, copied: set<Library>, pending: set<Library>)
    requires Inv(deps, start, universe, already, batch)
    requires InRound(deps, start, universe, already, batch, copied, {}, pending)
    ensures copied == already + batch && Inv(deps, start, universe, copied, pending)
  {
  }

  /** One round. A round that finds nothing new to copy leaves nothing queued. */
  method Round(deps: Lookup, nameOf: Library -> FileName, before: map<FileName, Library>, batch: set<Library>,
               already: set<Library>, present: map<FileName, Library>, ghost start: set<Library>,
               ghost universe: set<Library>)
    returns (copied: set<Library>, pending: set<Library>, files: map<FileName, Library>)
    requires Closed(deps, universe) && Inv(deps, start, universe, already, batch)
    requires CopiesOf(before, present, nameOf, already)
    ensures Inv(deps, start, universe, copied, pending) && copied == already + batch
    ensures CopiesOf(before, files, nameOf, copied)
    ensures batch <= already ==> pending == {}
  {
    copied, pending, files := already, {}, present;
    var checking := batch;
    while checking != {}
      invariant InRound(deps, start, universe, already, batch, copied, checking, pending)
      invariant CopiesOf(before, files, nameOf, copied)
      decreases checking
    {
      var lib :| lib in checking;
      RoundStep(deps, start, universe, already, batch, copied, checking, pending, lib);
      CopyOneMore(before, files, nameOf, copied, lib);
      checking := checking - {lib};
      copied := copied + {lib};
      var toQueue := deps(lib);
      files := Copy(files, nameOf(lib), lib);
      toQueue := toQueue - copied;
      pending := pending + toQueue;
    }
    RoundEnds(deps, start, universe, already, batch, copied, pending);
  }

  lemma GrowsOrNot(already: set<Library>, batch: set<Library>, copied: set<Library>, universe: set<Library>)
    requires copied == already + batch <= universe
    ensures |already| <= |copied| && |universe - copied| + |copied| == |universe - already| + |already|
    ensures batch <= already || |already| < |copied|
  {
    assert copied == already + (copied - already);
    assert universe == already + (universe - already);
    assert universe == copied + (universe - copied);
    if !(batch <= already) {
      var x :| x in batch && x !in already;
      assert x in copied - already;
    }
  }

  lemma Start(deps: Lookup, start: set<Library>, universe: set<Library>)
    requires start <= universe
    ensures Inv(deps, start, universe, {}, start)
  {
    forall lib | lib in start ensures Reached(deps, start, lib) {
      StartIsReached(deps, start, lib);
    }
  }

  lemma Finish(deps: Lookup, start: set<Library>, universe: set<Library>, copied: set<Library>)
    requires Inv(deps, start, universe, copied, {})
    ensures forall lib :: lib in copied <==> Reached(deps, start, lib)
  {
    ClosedAndReachedIsClosure(deps, start, copied);
  }

  /** Terminates for every finite graph and every order in which batches are drained, and copies exactly
      what can be reached. There are no more rounds than libraries, and one. */
  method ProcessDependencies(deps: Lookup, nameOf: Library -> FileName, binaryDependencies: set<Library>,
                             before: map<FileName, Library>, ghost universe: set<Library>)
    returns (copied: set<Library>, files: map<FileName, Library>, ghost rounds: nat)
    requires binaryDependencies <= universe && Closed(deps, universe)
    ensures forall lib :: lib in copied <==> Reached(deps, binaryDependencies, lib)
    ensures CopiesOf(before, files, nameOf, copied)
    ensures rounds <= |copied| + 1
  {
    var pending := binaryDependencies;
    copied, files, rounds := {}, before, 0;
    Start(deps, binaryDependencies, universe);
    while pending != {}
      invariant Inv(deps, binaryDependencies, universe, copied, pending)
      invariant CopiesOf(before, files, nameOf, copied)
      invariant rounds <= |copied| + if pending == {} then 1 else 0
      decreases |universe - copied|, pending != {}
    {
      var checking := pending;
      ghost var already := copied;
      copied, pending, files := Round(deps, nameOf, before, checking, copied, files, binaryDependencies, universe);
      rounds := rounds + 1;
      GrowsOrNot(already, checking, copied, universe);
    }
    Finish(deps, binaryDependencies, universe, copied);
  }
}
