/** DescriptorPool with a fallback database: BuildFile loads the imports of a file first, each of them in the same
    way, with a stack of pending files against recursion. */
module PoolLoader {
  import opened Prelude
  import opened Descriptors
  import opened PoolState
  import opened PoolTables
  import opened PoolHistory
  import opened PoolMemory
  import opened FileBuilder

  /** FindFileByName of the database answers with a file of that name. */
  predicate Keyed(db: Option<Database>) {
    db.Some? ==> forall n :: n in db.value ==> db.value[n].Name() == n
  }

  /** The files of the database that are not being built. */
  function Waiting(db: Option<Database>, pending: seq<string>): set<string> {
    if db.None? then {} else set n | n in db.value && n !in pending
  }

  lemma WaitingShrinks(db: Option<Database>, pending: seq<string>, name: string)
    requires db.Some? && name in db.value && name !in pending
    ensures |Waiting(db, pending + [name])| < |Waiting(db, pending)|
  {
    var a, b := Waiting(db, pending + [name]), Waiting(db, pending);
    assert name in b && name !in a;
    assert a <= b - {name};
    SubsetSize(a, b - {name});
  }

  class DescriptorPool {
    const tables: Tables
    const database: Option<Database>
    ghost var history: seq<FileProto>   // the files accepted so far, in order

    /** The tables hold exactly what the accepted files declare, and every key is a string the pool owns. */
    ghost predicate Valid()
      reads this, tables
    {
      tables.Valid() && Replay(history) == Some(State(tables.symbolsByName, tables.filesByName, tables.extensions))
    }

    constructor (database: Option<Database>)
      ensures Valid() && Remembers() && fresh(tables) && this.database == database && history == []
      ensures tables.pendingFiles == []
    {
      this.database := database;
      tables := new Tables();
      history := [];
      new;
      ReplayNothing();
    }

    /** The memory of known bad files is justified, and nothing pending is in the pool. */
    ghost predicate Remembers()
      reads this, tables
    {
      database.Some? ==> Sound(database.value, history, tables.knownBadFiles, tables.pendingFiles)
    }

    /** FindFileByName of the pool.  A file that is not found is missing from the database too, or is refused as the pool
        now stands, with every import of it in the pool or known bad; asking again changes nothing.  A file that is found is known bad
        as well exactly if it imports itself. */
    method FindFileByName(name: string) returns (found: bool)
      requires Valid() && Keyed(database) && Remembers() && tables.pendingFiles == []
      modifies this`history, tables
      ensures Valid() && Remembers() && tables.pendingFiles == [] && old(history) <= history
      ensures found <==> name in tables.filesByName
      ensures found && database.Some? ==>
        && name in database.value && tables.filesByName[name] == database.value[name]
        && (name in tables.knownBadFiles <==> name in database.value[name].imports)
      ensures !found && database.Some? ==>
        && name in tables.knownBadFiles
        && (name in database.value ==>
             !Clean(Replay(history).value, database.value[name])
             && Settled(database.value[name], tables.filesByName, tables.knownBadFiles))
      ensures name in old(tables.filesByName) || name in old(tables.knownBadFiles) ==>
        history == old(history) && tables.knownBadFiles == old(tables.knownBadFiles)
    {
      hide Waiting, Owned, Logged, LoggedExtensions, Replay, Clean, Reach;
      found := name in tables.filesByName;
      if !found {
        found := TryFindFile(name);
      }
      if found && database.Some? {
        BothIffSelfImport(database.value, history, tables.knownBadFiles, tables.pendingFiles, name);
      } else if !found && database.Some? {
        assert JustifiedAt(database.value, history, tables.knownBadFiles, name);
      }
    }

    /** TryFindFileInFallbackDatabase.  A file that could not be built is remembered and not tried again; after success
        nothing has become known bad but files that import themselves and are in the pool. */
    method TryFindFile(name: string) returns (found: bool)
      requires Valid() && Keyed(database) && Remembers() && name !in tables.filesByName
      modifies this`history, tables
      ensures Valid() && tables.pendingFiles == old(tables.pendingFiles) && Remembers()
      ensures found <==> name in tables.filesByName
      ensures database.None? ==> history == old(history) && tables.knownBadFiles == old(tables.knownBadFiles)
      ensures database.Some? ==> Loads(database.value, name, old(history), old(tables.knownBadFiles), history,
        tables.knownBadFiles, tables.pendingFiles)
      ensures database.Some? && found ==> BadIn(tables.filesByName, old(tables.knownBadFiles), tables.knownBadFiles, {})
      ensures database.Some? && !found ==> name in tables.knownBadFiles
      ensures database.Some? && (name in old(tables.knownBadFiles) || name !in database.value || name in tables.pendingFiles) ==>
        history == old(history) && tables.knownBadFiles == old(tables.knownBadFiles) + {name}
      decreases |Waiting(database, tables.pendingFiles)|, 2
    {
      hide Waiting, Owned, Logged, LoggedExtensions, Replay, Clean, Reach, Sound;
      if database.None? {
        return false;
      }
      ghost var db, h0, bad0 := database.value, history, tables.knownBadFiles;
      LoadsNothing(db, name, h0, bad0, tables.pendingFiles);
      if name in tables.knownBadFiles {
        assert bad0 + {name} == bad0;
        return false;
      }
      if name !in database.value {
        Remember(name, h0, bad0);
        return false;
      }
      ghost var loaded;
      found, loaded := BuildFile(database.value[name]);
      if !found {
        Remember(name, h0, bad0);
      }
    }

    /** known_bad_files_.insert. */
    method Remember(name: string, ghost h0: seq<FileProto>, ghost bad0: set<string>)
      requires Valid() && database.Some? && name !in tables.filesByName
      requires Loads(database.value, name, h0, bad0, history, tables.knownBadFiles, tables.pendingFiles)
      requires name !in tables.pendingFiles ==> JustifiedAt(database.value, history, tables.knownBadFiles, name)
      modifies tables`knownBadFiles
      ensures Valid() && tables.knownBadFiles == old(tables.knownBadFiles) + {name} && Remembers()
      ensures Loads(database.value, name, h0, bad0, history, tables.knownBadFiles, tables.pendingFiles)
    {
      hide Owned, Logged, LoggedExtensions, Replay, Reach, Sound;
      Remembered(database.value, history, tables.knownBadFiles, tables.pendingFiles, name);
      ReachSelf(database.value, name);
      tables.knownBadFiles := tables.knownBadFiles + {name};
    }

    /** The loop that loads the imports: afterwards each of them is in the pool or known bad. */
    method LoadImports(file: FileProto)
      requires Valid() && Keyed(database) && database.Some? && Remembers()
      requires file.Name() in database.value && database.value[file.Name()] == file && file.Name() in tables.pendingFiles
      modifies this`history, tables
      ensures Valid() && tables.pendingFiles == old(tables.pendingFiles)
      ensures ImportsLoaded(database.value, file, old(history), old(tables.knownBadFiles), history, tables.knownBadFiles,
        tables.pendingFiles)
      decreases |Waiting(database, tables.pendingFiles)|, 3
    {
      hide Waiting, Owned, Logged, LoggedExtensions, Replay, Sound, Reach;
      ghost var db, h0, bad0, pending := database.value, history, tables.knownBadFiles, tables.pendingFiles;
      LoadsNothing(db, file.Name(), h0, bad0, pending);
      var i := 0;
      while i < |file.imports|
        invariant 0 <= i <= |file.imports|
        invariant Valid() && tables.pendingFiles == pending
        invariant Progress(db, file, h0, bad0, history, tables.knownBadFiles, pending, i)
      {
        ghost var h1, bad1 := history, tables.knownBadFiles;
        SoundNow(db, file, h0, bad0, h1, bad1, pending, i);
        var loads := file.imports[i] !in tables.filesByName;
        if loads {
          var found := TryFindFile(file.imports[i]);
        } else {
          LoadsNothing(db, file.imports[i], h1, bad1, pending);
        }
        ProgressOn(db, file, h0, bad0, h1, bad1, history, tables.knownBadFiles, pending, i);
        i := i + 1;
      }
    }

    /** BuildFile.  `loaded` is the history once the imports have been loaded, with every import in the pool or known bad:
        it is all there is if the file is refused, and the file comes right after it if it is accepted, which happens
        exactly if it is clean in that state. */
    method BuildFile(file: FileProto) returns (built: bool, ghost loaded: seq<FileProto>)
      requires Valid() && Keyed(database) && Remembers()
      requires database.Some? ==> file.Name() in database.value && database.value[file.Name()] == file
      modifies this`history, tables
      ensures Valid() && tables.pendingFiles == old(tables.pendingFiles) && Remembers()
      ensures var known := file.Name() in old(tables.filesByName) && old(tables.filesByName)[file.Name()] == file;
        var pending := file.Name() in tables.pendingFiles;
        if known || pending then history == old(history) && tables.knownBadFiles == old(tables.knownBadFiles) && built == known
        else
          && Replay(loaded).Some? && built == Clean(Replay(loaded).value, file)
          && history == (if built then loaded + [file] else loaded)
          && (database.None? ==> loaded == old(history) && tables.knownBadFiles == old(tables.knownBadFiles))
          && (database.Some? ==> ImportsLoaded(database.value, file, old(history), old(tables.knownBadFiles), loaded,
               tables.knownBadFiles, tables.pendingFiles + [file.Name()]))
      ensures built ==> file.Name() in tables.filesByName && tables.filesByName[file.Name()] == file
      ensures database.Some? ==> Loads(database.value, file.Name(), old(history), old(tables.knownBadFiles), history,
        tables.knownBadFiles, tables.pendingFiles)
      ensures database.Some? && built ==> BadIn(tables.filesByName, old(tables.knownBadFiles), tables.knownBadFiles, {})
      ensures database.Some? && !built ==> file.Name() !in tables.filesByName
      ensures database.Some? && !built && file.Name() !in tables.pendingFiles ==>
        JustifiedAt(database.value, history, tables.knownBadFiles, file.Name())
      decreases |Waiting(database, tables.pendingFiles)|, 1
    {
      hide Waiting, Owned, Logged, LoggedExtensions, Replay, Clean, Reach, Sound;
      loaded := history;
      if database.Some? { Start(database.value, file, history, tables.knownBadFiles, tables.pendingFiles); }
      if file.Name() in tables.filesByName && tables.filesByName[file.Name()] == file {
        return true, loaded;
      }
      var pending := IsPending(file.Name());
      if pending {
        return false, loaded;
      }
      ghost var h0, bad0 := history, tables.knownBadFiles;
      if database.Some? {
        LoadFor(file);
      }
      loaded := history;
      built := Build(file);
      if database.Some? {
        if built {
          Accepted(database.value, file, h0, bad0, loaded, tables.knownBadFiles, tables.pendingFiles);
        } else {
          Refused(database.value, file, h0, bad0, loaded, tables.knownBadFiles, tables.pendingFiles);
        }
      }
    }

    method IsPending(name: string) returns (pending: bool)
      ensures pending == (name in tables.pendingFiles)
    {
      var i := 0;
      while i < |tables.pendingFiles|
        invariant 0 <= i <= |tables.pendingFiles| && name !in tables.pendingFiles[..i]
      {
        if tables.pendingFiles[i] == name {
          return true;
        }
        i := i + 1;
      }
      return false;
    }

    /** Loads the imports of the file with the file itself on the pending stack. */
    method LoadFor(file: FileProto)
      requires Valid() && Keyed(database) && database.Some? && Remembers()
      requires file.Name() in database.value && database.value[file.Name()] == file
      requires file.Name() !in tables.pendingFiles && file.Name() !in tables.filesByName
      modifies this`history, tables
      ensures Valid() && tables.pendingFiles == old(tables.pendingFiles)
      ensures ImportsLoaded(database.value, file, old(history), old(tables.knownBadFiles), history, tables.knownBadFiles,
        tables.pendingFiles + [file.Name()])
      decreases |Waiting(database, tables.pendingFiles)|, 0
    {
      hide Waiting, Owned, Logged, LoggedExtensions, Replay, Sound, Reach;
      WaitingShrinks(database, tables.pendingFiles, file.Name());
      Pushed(database.value, history, tables.knownBadFiles, tables.pendingFiles, file.Name());
      tables.pendingFiles := tables.pendingFiles + [file.Name()];
      LoadImports(file);
      tables.pendingFiles := tables.pendingFiles[..|tables.pendingFiles| - 1];
    }

    /** The transaction for the file itself. */
    method Build(file: FileProto) returns (built: bool)
      requires Valid()
      modifies this`history, tables
      ensures Valid() && tables.pendingFiles == old(tables.pendingFiles) && tables.knownBadFiles == old(tables.knownBadFiles)
      ensures built == Clean(Replay(old(history)).value, file)
      ensures history == if built then old(history) + [file] else old(history)
      ensures built ==> file.Name() in tables.filesByName && tables.filesByName[file.Name()] == file
    {
      hide Owned, Logged, LoggedExtensions, Replay, Clean, Installed;
      var builder := new DescriptorBuilder(tables, file);
      built := builder.BuildLoaded();
      if built {
        ReplayMore(history, file);
        InstalledFile(Replay(history).value, file);
        history := history + [file];
      }
    }
  }

  lemma InstalledFile(st: State, f: FileProto)
    requires Clean(st, f)
    ensures Installed(st, f).files == st.files[f.Name() := f]
  {
    hide Declared, Linked, ImportsOk, FileOk, FileDecls, ServicesLinked;
  }
}
