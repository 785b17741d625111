/** What on-demand loading does to a pool, and what the memory of known bad files means: a remembered file is missing
    from the database, or refused as the pool stands with nothing left to load for it, or a file that imports itself. */
module PoolMemory {
  import opened Descriptors
  import opened PoolState
  import opened PoolHistory
  import opened PoolRefusal

  type Database = map<string, FileProto>

  // ---------- imports ----------

  ghost predicate Imports(db: Database, a: string, b: string) { a in db && b in db[a].imports }

  ghost predicate ImportPath(db: Database, path: seq<string>) {
    path != [] && forall i :: 0 <= i < |path| - 1 ==> Imports(db, path[i], path[i + 1])
  }

  /** b is a, or can be reached from it along imports. */
  ghost predicate Reach(db: Database, a: string, b: string) {
    exists path :: ImportPath(db, path) && path[0] == a && path[|path| - 1] == b
  }

  lemma ReachSelf(db: Database, a: string)
    ensures Reach(db, a, a)
  {
    assert ImportPath(db, [a]);
  }

  lemma ReachOn(db: Database, a: string, d: string, b: string)
    requires Imports(db, a, d) && Reach(db, d, b)
    ensures Reach(db, a, b)
  {
    var path :| ImportPath(db, path) && path[0] == d && path[|path| - 1] == b;
    var longer := [a] + path;
    forall i | 0 <= i < |longer| - 1 ensures Imports(db, longer[i], longer[i + 1]) {
      if i > 0 { assert Imports(db, path[i - 1], path[i]); }
    }
    assert ImportPath(db, longer);
  }

  // ---------- the memory ----------

  function Files(history: seq<FileProto>): map<string, FileProto>
    requires Replay(history).Some?
  {
    Replay(history).value.files
  }

  /** Every import is in the pool or known bad, so that nothing is left to load for the file. */
  ghost predicate Settled(f: FileProto, files: map<string, FileProto>, bad: set<string>) {
    forall i :: 0 <= i < |f.imports| ==> f.imports[i] in files || f.imports[i] in bad
  }

  ghost predicate JustifiedAt(db: Database, history: seq<FileProto>, bad: set<string>, n: string)
    requires Replay(history).Some?
  {
    n in db ==>
      if n in Files(history) then n in db[n].imports
      else !Clean(Replay(history).value, db[n]) && Settled(db[n], Files(history), bad)
  }

  ghost predicate Justified(db: Database, history: seq<FileProto>, bad: set<string>, pending: seq<string>)
    requires Replay(history).Some?
  {
    forall n :: n in bad && n !in pending ==> JustifiedAt(db, history, bad, n)
  }

  ghost predicate FromDatabase(db: Database, history: seq<FileProto>) {
    forall k :: 0 <= k < |history| ==> history[k].Name() in db && db[history[k].Name()] == history[k]
  }

  /** The files of the pool that import themselves are known bad. */
  ghost predicate SelfImportersBad(files: map<string, FileProto>, bad: set<string>) {
    forall n :: n in files && n in files[n].imports ==> n in bad
  }

  /** The pool holds files of the database only, none of the pending ones, and the memory is justified. */
  ghost predicate Sound(db: Database, history: seq<FileProto>, bad: set<string>, pending: seq<string>) {
    && Replay(history).Some? && FromDatabase(db, history) && Justified(db, history, bad, pending)
    && SelfImportersBad(Files(history), bad)
    && forall i :: 0 <= i < |pending| ==> pending[i] !in Files(history)
  }

  // ---------- what loading does ----------

  ghost predicate LoadedFile(db: Database, root: string, f: FileProto, bad: set<string>, pending: seq<string>) {
    f.Name() !in pending && f.Name() !in bad && Reach(db, root, f.Name())
  }

  /** Only files that the root imports, directly or not, are accepted or remembered as bad; none of them was pending or
      known bad before. */
  ghost predicate Loads(db: Database, root: string, h0: seq<FileProto>, bad0: set<string>, h1: seq<FileProto>, bad1: set<string>,
      pending: seq<string>)
  {
    && h0 <= h1 && bad0 <= bad1 && Sound(db, h1, bad1, pending)
    && (forall k :: |h0| <= k < |h1| ==> LoadedFile(db, root, h1[k], bad0, pending))
    && (forall n :: n in bad1 && n !in bad0 ==> Reach(db, root, n))
  }

  /** The files that became bad are in the pool, but for one. */
  ghost predicate BadIn(files: map<string, FileProto>, bad0: set<string>, bad1: set<string>, but: set<string>) {
    forall n :: n in bad1 && n !in bad0 ==> n in files || n in but
  }

  lemma LoadsNothing(db: Database, root: string, h: seq<FileProto>, bad: set<string>, pending: seq<string>)
    requires Sound(db, h, bad, pending)
    ensures Loads(db, root, h, bad, h, bad, pending)
  {
  }

  /** Loading on behalf of an import is loading on behalf of the importing file. */
  lemma LoadsOn(db: Database, root: string, d: string, h0: seq<FileProto>, bad0: set<string>, h1: seq<FileProto>, bad1: set<string>,
      h2: seq<FileProto>, bad2: set<string>, pending: seq<string>)
    requires Loads(db, root, h0, bad0, h1, bad1, pending) && Loads(db, d, h1, bad1, h2, bad2, pending) && Imports(db, root, d)
    ensures Loads(db, root, h0, bad0, h2, bad2, pending)
  {
    hide Sound, Reach;
    forall k | |h0| <= k < |h2| ensures LoadedFile(db, root, h2[k], bad0, pending) {
      if k < |h1| {
        assert h2[k] == h1[k] && LoadedFile(db, root, h1[k], bad0, pending);
      } else {
        assert LoadedFile(db, d, h2[k], bad1, pending);
        ReachOn(db, root, d, h2[k].Name());
      }
    }
    forall n | n in bad2 && n !in bad0 ensures Reach(db, root, n) {
      if n !in bad1 { ReachOn(db, root, d, n); }
    }
  }

  /** A file of the larger pool was there before or has been loaded. */
  lemma ThereOrLoaded(db: Database, root: string, h0: seq<FileProto>, bad0: set<string>, h1: seq<FileProto>, bad1: set<string>,
      pending: seq<string>, n: string)
    requires Loads(db, root, h0, bad0, h1, bad1, pending) && Replay(h0).Some? && n in Files(h1)
    ensures n in Files(h0) || (n !in bad0 && n !in pending)
  {
    hide Replay, Justified, FromDatabase, Reach;
    FilesOfHistory(h1, n);
    var k :| 0 <= k < |h1| && h1[k] == Files(h1)[n];
    if k < |h0| {
      FilesOfHistory(h0, n);
      assert h0[k] == h1[k];
    } else {
      assert LoadedFile(db, root, h1[k], bad0, pending);
    }
  }

  lemma NotBefore(h0: seq<FileProto>, h1: seq<FileProto>, n: string)
    requires h0 <= h1 && Replay(h0).Some? && Replay(h1).Some? && n !in Files(h1)
    ensures n !in Files(h0)
  {
    hide Replay;
    FilesGrow(h0, h1);
  }

  /** While a file is pending, less is asked of the memory. */
  lemma Pushed(db: Database, h: seq<FileProto>, bad: set<string>, pending: seq<string>, name: string)
    requires Sound(db, h, bad, pending) && name !in Files(h)
    ensures Sound(db, h, bad, pending + [name])
  {
    hide Replay, JustifiedAt, FromDatabase;
    assert forall m :: m in pending ==> m in pending + [name];
  }

  /** Remembering one more name. */
  lemma Remembered(db: Database, h: seq<FileProto>, bad: set<string>, pending: seq<string>, name: string)
    requires Sound(db, h, bad, pending) && (name !in pending ==> JustifiedAt(db, h, bad, name))
    ensures Sound(db, h, bad + {name}, pending)
  {
    hide Replay, Clean, FromDatabase;
    forall n | n in bad + {name} && n !in pending ensures JustifiedAt(db, h, bad + {name}, n) {
      assert JustifiedAt(db, h, bad, n);
    }
  }

  // ---------- the end of one file ----------

  /** What is known when the imports of the file have been loaded, with the file itself pending. */
  ghost predicate ImportsLoaded(db: Database, f: FileProto, h0: seq<FileProto>, bad0: set<string>, h1: seq<FileProto>,
      bad1: set<string>, pending: seq<string>)
  {
    && Loads(db, f.Name(), h0, bad0, h1, bad1, pending) && Replay(h0).Some?
    && Settled(f, Files(h1), bad1)
    && (Settled(f, Files(h0), bad0) ==> h1 == h0 && bad1 == bad0)
    && (ImportsThere(f, Files(h1), |f.imports|) ==>
         BadIn(Files(h1), bad0, bad1, if f.Name() in f.imports then {f.Name()} else {}))
  }

  /** The first n imports are in the pool, the file itself apart. */
  ghost predicate ImportsThere(f: FileProto, files: map<string, FileProto>, n: nat)
    requires n <= |f.imports|
  {
    forall i :: 0 <= i < n ==> f.imports[i] in files || f.imports[i] == f.Name()
  }

  lemma CleanImports(st: State, f: FileProto)
    requires Clean(st, f)
    ensures ImportsThere(f, st.files, |f.imports|)
  {
    hide Declared, Linked, ServicesLinked, FileOk, FileDecls;
    forall i | 0 <= i < |f.imports| ensures f.imports[i] in st.files || f.imports[i] == f.Name() { assert ImportOk(st, f, i); }
  }

  /** A file that was known bad and is not in the pool is refused again, and nothing is loaded for it. */
  lemma BadAgain(db: Database, f: FileProto, h0: seq<FileProto>, bad0: set<string>, h1: seq<FileProto>, bad1: set<string>,
      pending: seq<string>)
    requires Sound(db, h0, bad0, pending) && f.Name() in db && db[f.Name()] == f && f.Name() !in pending && f.Name() !in Files(h0)
    requires ImportsLoaded(db, f, h0, bad0, h1, bad1, pending + [f.Name()]) && f.Name() in bad0
    ensures h1 == h0 && bad1 == bad0 && !Clean(Replay(h1).value, f)
  {
    hide Replay, Clean, FromDatabase, Loads;
    assert JustifiedAt(db, h0, bad0, f.Name());
  }

  /** Accepting the file leaves the memory justified. */
  lemma Accepted(db: Database, f: FileProto, h0: seq<FileProto>, bad0: set<string>, h1: seq<FileProto>, bad1: set<string>,
      pending: seq<string>)
    requires Sound(db, h0, bad0, pending) && f.Name() in db && db[f.Name()] == f && f.Name() !in pending && f.Name() !in Files(h0)
    requires ImportsLoaded(db, f, h0, bad0, h1, bad1, pending + [f.Name()]) && Clean(Replay(h1).value, f)
    ensures Loads(db, f.Name(), h0, bad0, h1 + [f], bad1, pending)
    ensures BadIn(Files(h1 + [f]), bad0, bad1, {}) && f.Name() in Files(h1 + [f])
  {
    hide Replay, Clean, Justified, FromDatabase, SelfImportersBad, Settled, Reach, ImportsThere, LoadedFile, BadIn;
    AddedFile(h1, f);
    AcceptedSound(db, f, h0, bad0, h1, bad1, pending);
    NotBadBefore(db, f, h0, bad0, h1, bad1, pending);
    LoadedMore(db, f, |h0|, bad0, h1, pending);
    CleanImports(Replay(h1).value, f);
    BadButOne(Files(h1), f, bad0, bad1);
  }

  lemma BadButOne(files: map<string, FileProto>, f: FileProto, bad0: set<string>, bad1: set<string>)
    requires BadIn(files, bad0, bad1, if f.Name() in f.imports then {f.Name()} else {})
    ensures BadIn(files[f.Name() := f], bad0, bad1, {})
  {
  }

  lemma LoadedMore(db: Database, f: FileProto, from: nat, bad0: set<string>, h1: seq<FileProto>, pending: seq<string>)
    requires f.Name() !in pending && f.Name() !in bad0
    requires forall k :: from <= k < |h1| ==> LoadedFile(db, f.Name(), h1[k], bad0, pending + [f.Name()])
    ensures forall k :: from <= k < |h1 + [f]| ==> LoadedFile(db, f.Name(), (h1 + [f])[k], bad0, pending)
  {
    hide Reach;
    ReachSelf(db, f.Name());
    assert forall m :: m in pending ==> m in pending + [f.Name()];
    forall k | from <= k < |h1 + [f]| ensures LoadedFile(db, f.Name(), (h1 + [f])[k], bad0, pending) {
      if k < |h1| { assert LoadedFile(db, f.Name(), h1[k], bad0, pending + [f.Name()]); }
    }
  }

  lemma NotBadBefore(db: Database, f: FileProto, h0: seq<FileProto>, bad0: set<string>, h1: seq<FileProto>, bad1: set<string>,
      pending: seq<string>)
    requires Sound(db, h0, bad0, pending) && f.Name() in db && db[f.Name()] == f && f.Name() !in pending && f.Name() !in Files(h0)
    requires ImportsLoaded(db, f, h0, bad0, h1, bad1, pending + [f.Name()]) && Clean(Replay(h1).value, f)
    ensures f.Name() !in bad0
  {
    hide Replay, Clean, Sound, Settled, ImportsThere, Loads, BadIn;
    if f.Name() in bad0 { BadAgain(db, f, h0, bad0, h1, bad1, pending); }
  }

  lemma AcceptedSound(db: Database, f: FileProto, h0: seq<FileProto>, bad0: set<string>, h1: seq<FileProto>, bad1: set<string>,
      pending: seq<string>)
    requires Sound(db, h0, bad0, pending) && f.Name() in db && db[f.Name()] == f && f.Name() !in pending && f.Name() !in Files(h0)
    requires ImportsLoaded(db, f, h0, bad0, h1, bad1, pending + [f.Name()]) && Clean(Replay(h1).value, f)
    ensures Sound(db, h1 + [f], bad1, pending)
  {
    AddedFile(h1, f);
    hide Replay, Clean, Reach, LoadedFile, JustifiedAt, Settled, ImportsThere, BadIn, FromDatabase, Files;
    forall n | n in bad1 && n !in pending ensures JustifiedAt(db, h1 + [f], bad1, n) {
      AcceptedJustified(db, f, h0, bad0, h1, bad1, pending, n);
    }
    FromMore(db, h1, f);
    SelfImporterKnown(f, Files(h1), bad1, pending);
    PendingStayOut(pending, f.Name(), Files(h1), f);
  }

  /** Its own name was pending when the imports were loaded, so it has become known bad if it is among them. */
  lemma SelfImporterKnown(f: FileProto, files: map<string, FileProto>, bad: set<string>, pending: seq<string>)
    requires SelfImportersBad(files, bad) && Settled(f, files, bad)
    requires forall i :: 0 <= i < |pending + [f.Name()]| ==> (pending + [f.Name()])[i] !in files
    ensures SelfImportersBad(files[f.Name() := f], bad)
  {
    assert (pending + [f.Name()])[|pending|] == f.Name();
  }

  lemma FromMore(db: Database, h: seq<FileProto>, f: FileProto)
    requires FromDatabase(db, h) && f.Name() in db && db[f.Name()] == f
    ensures FromDatabase(db, h + [f])
  {
  }

  lemma PendingStayOut(pending: seq<string>, name: string, files: map<string, FileProto>, f: FileProto)
    requires forall i :: 0 <= i < |pending + [name]| ==> (pending + [name])[i] !in files
    requires name !in pending
    ensures forall i :: 0 <= i < |pending| ==> pending[i] !in files[name := f]
  {
    forall i | 0 <= i < |pending| ensures pending[i] !in files[name := f] { assert (pending + [name])[i] == pending[i]; }
  }

  lemma AcceptedJustified(db: Database, f: FileProto, h0: seq<FileProto>, bad0: set<string>, h1: seq<FileProto>,
      bad1: set<string>, pending: seq<string>, n: string)
    requires Sound(db, h0, bad0, pending) && f.Name() in db && db[f.Name()] == f && f.Name() !in pending && f.Name() !in Files(h0)
    requires ImportsLoaded(db, f, h0, bad0, h1, bad1, pending + [f.Name()]) && Clean(Replay(h1).value, f)
    requires n in bad1 && n !in pending
    ensures Replay(h1 + [f]).Some? && JustifiedAt(db, h1 + [f], bad1, n)
  {
    AddedFile(h1, f);
    CleanImports(Replay(h1).value, f);
    NotBadBefore(db, f, h0, bad0, h1, bad1, pending);
    hide Replay, Clean, Reach, FromDatabase, LoadedFile, ImportsThere;
    if n == f.Name() {
      assert (pending + [n])[|pending|] == n && n !in Files(h1);
    } else {
      assert n !in pending + [f.Name()] && JustifiedAt(db, h1, bad1, n);
      if n in db && n !in Files(h1) { StillRefused(db, f, h0, bad0, h1, bad1, pending, n); }
    }
  }

  lemma AddedFile(h: seq<FileProto>, f: FileProto)
    requires Replay(h).Some? && Clean(Replay(h).value, f)
    ensures Replay(h + [f]).Some? && Files(h + [f]) == Files(h)[f.Name() := f]
  {
    hide Replay, Declared, Linked, FileOk, FileDecls, ImportsOk, ServicesLinked;
    ReplayMore(h, f);
  }

  /** A file known bad does not import the one that is accepted, so it stays refused. */
  lemma StillRefused(db: Database, f: FileProto, h0: seq<FileProto>, bad0: set<string>, h1: seq<FileProto>, bad1: set<string>,
      pending: seq<string>, n: string)
    requires Sound(db, h0, bad0, pending) && f.Name() in db && db[f.Name()] == f && f.Name() !in pending && f.Name() !in Files(h0)
    requires ImportsLoaded(db, f, h0, bad0, h1, bad1, pending + [f.Name()]) && Clean(Replay(h1).value, f)
    requires n in bad1 && n !in pending && n in db && n !in Files(h1) && n != f.Name() && f.Name() !in bad0
    ensures Replay(h1 + [f]).Some? && !Clean(Replay(h1 + [f]).value, db[n]) && Settled(db[n], Files(h1 + [f]), bad1)
  {
    AddedFile(h1, f);
    CleanImports(Replay(h1).value, f);
    hide Replay, Clean, Reach, FromDatabase, LoadedFile;
    var name := f.Name();
    assert n !in pending + [name] && JustifiedAt(db, h1, bad1, n);
    assert n in bad0;
    NotBefore(h0, h1, n);
    assert JustifiedAt(db, h0, bad0, n);
    assert name !in db[n].imports;
    RefusedStaysOne(h1, f, db[n]);
  }

  /** Refusing it leaves the memory justified, with or without the name of the file. */
  lemma Refused(db: Database, f: FileProto, h0: seq<FileProto>, bad0: set<string>, h1: seq<FileProto>, bad1: set<string>,
      pending: seq<string>)
    requires Sound(db, h0, bad0, pending) && f.Name() in db && db[f.Name()] == f && f.Name() !in pending && f.Name() !in Files(h0)
    requires ImportsLoaded(db, f, h0, bad0, h1, bad1, pending + [f.Name()]) && !Clean(Replay(h1).value, f)
    ensures Loads(db, f.Name(), h0, bad0, h1, bad1, pending) && f.Name() !in Files(h1)
    ensures JustifiedAt(db, h1, bad1, f.Name())
  {
    hide Replay, Clean, Reach, FromDatabase;
    var name := f.Name();
    assert (pending + [name])[|pending|] == name && name !in Files(h1);
    assert JustifiedAt(db, h1, bad1, name);
    forall n | n in bad1 && n !in pending ensures JustifiedAt(db, h1, bad1, n) {
      if n != name { assert n !in pending + [name]; }
    }
    forall i | 0 <= i < |pending| ensures pending[i] !in Files(h1) { assert (pending + [name])[i] == pending[i]; }
    forall k | |h0| <= k < |h1| ensures LoadedFile(db, name, h1[k], bad0, pending) {
      assert LoadedFile(db, name, h1[k], bad0, pending + [name]);
      assert forall m :: m in pending ==> m in pending + [name];
    }
  }

  // ---------- the loop over the imports ----------

  /** What is known when the first i imports have been dealt with. */
  ghost predicate Progress(db: Database, f: FileProto, h0: seq<FileProto>, bad0: set<string>, h1: seq<FileProto>,
      bad1: set<string>, pending: seq<string>, i: nat)
  {
    && Loads(db, f.Name(), h0, bad0, h1, bad1, pending) && Replay(h0).Some? && i <= |f.imports|
    && (forall j :: 0 <= j < i ==> f.imports[j] in Files(h1) || f.imports[j] in bad1)
    && (Settled(f, Files(h0), bad0) ==> h1 == h0 && bad1 == bad0)
    && (ImportsThere(f, Files(h1), i) ==> BadIn(Files(h1), bad0, bad1, if f.Name() in f.imports then {f.Name()} else {}))
  }

  lemma SoundNow(db: Database, f: FileProto, h0: seq<FileProto>, bad0: set<string>, h1: seq<FileProto>, bad1: set<string>,
      pending: seq<string>, i: nat)
    requires Progress(db, f, h0, bad0, h1, bad1, pending, i)
    ensures Sound(db, h1, bad1, pending)
  {
  }

  /** One import. */
  lemma ProgressOn(db: Database, f: FileProto, h0: seq<FileProto>, bad0: set<string>, h1: seq<FileProto>, bad1: set<string>,
      h2: seq<FileProto>, bad2: set<string>, pending: seq<string>, i: nat)
    requires Progress(db, f, h0, bad0, h1, bad1, pending, i) && i < |f.imports|
    requires f.Name() in db && db[f.Name()] == f && f.Name() in pending
    requires var d := f.imports[i];
      && Loads(db, d, h1, bad1, h2, bad2, pending)
      && (d in Files(h1) ==> h2 == h1 && bad2 == bad1)
      && (d in Files(h2) ==> BadIn(Files(h2), bad1, bad2, {}))
      && (d !in Files(h2) ==> d in bad2)
      && (d !in Files(h1) && (d in bad1 || d in pending) ==> h2 == h1 && bad2 == bad1 + {d})
    ensures Progress(db, f, h0, bad0, h2, bad2, pending, i + 1)
  {
    hide Replay, Justified, FromDatabase, Reach;
    var d := f.imports[i];
    LoadsOn(db, f.Name(), d, h0, bad0, h1, bad1, h2, bad2, pending);
    FilesGrow(h1, h2);
    if ImportsThere(f, Files(h2), i + 1) {
      forall j | 0 <= j < i ensures f.imports[j] in Files(h1) || f.imports[j] == f.Name() {
        if f.imports[j] in Files(h2) && f.imports[j] !in Files(h1) {
          ThereOrLoaded(db, d, h1, bad1, h2, bad2, pending, f.imports[j]);
        }
      }
    }
  }

  /** At the start of a call. */
  lemma Start(db: Database, f: FileProto, h: seq<FileProto>, bad: set<string>, pending: seq<string>)
    requires Sound(db, h, bad, pending) && f.Name() in db && db[f.Name()] == f
    ensures Loads(db, f.Name(), h, bad, h, bad, pending)
    ensures f.Name() in Files(h) ==> Files(h)[f.Name()] == f
    ensures f.Name() in pending ==> f.Name() !in Files(h)
  {
    hide Replay, Reach;
    if f.Name() in Files(h) { OutOfDatabase(db, h, f.Name()); }
  }

  lemma OutOfDatabase(db: Database, h: seq<FileProto>, n: string)
    requires Replay(h).Some? && FromDatabase(db, h) && n in Files(h)
    ensures n in db && Files(h)[n] == db[n]
  {
    hide Replay;
    FilesOfHistory(h, n);
    var k :| 0 <= k < |h| && h[k] == Files(h)[n];
    assert h[k].Name() in db;
  }

  /** The files that are in the pool and known bad are those that import themselves. */
  lemma BothIffSelfImport(db: Database, h: seq<FileProto>, bad: set<string>, pending: seq<string>, n: string)
    requires Sound(db, h, bad, pending) && n in Files(h)
    ensures n in db && Files(h)[n] == db[n] && (n in bad <==> n in db[n].imports)
  {
    hide Replay, Clean;
    OutOfDatabase(db, h, n);
    if n in bad { assert JustifiedAt(db, h, bad, n); }
  }
}
