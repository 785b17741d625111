/** What holds of every pool, because its contents are the result of accepting some files one after the other. */
module PoolHistory {
  import opened Prelude
  import opened Descriptors
  import opened PoolState

  /** The state after these files have been accepted in this order; None if one of them would not have been. */
  function Replay(history: seq<FileProto>): Option<State> {
    if history == [] then Some(State(map[], map[], map[]))
    else
      var last := history[|history| - 1];
      match Replay(history[..|history| - 1])
      case None => None
      case Some(st) => if Clean(st, last) then Some(Installed(st, last)) else None
  }

  lemma ReplayNothing()
    ensures Replay([]) == Some(State(map[], map[], map[]))
  {
  }

  lemma ReplayMore(history: seq<FileProto>, f: FileProto)
    requires Replay(history).Some? && Clean(Replay(history).value, f)
    ensures Replay(history + [f]) == Some(Installed(Replay(history).value, f))
  {
    hide Clean, Installed;
    assert (history + [f])[..|history|] == history;
  }

  /** The last file was clean when it was accepted. */
  lemma ReplayLast(history: seq<FileProto>)
    requires Replay(history).Some? && history != []
    ensures var n := |history| - 1; var f := history[n];
      && Replay(history[..n]).Some? && Clean(Replay(history[..n]).value, f)
      && Replay(history).value == Installed(Replay(history[..n]).value, f)
      && f.Name() !in Replay(history[..n]).value.files
      && Replay(history).value.files == Replay(history[..n]).value.files[f.Name() := f]
  {
    hide Declared, Linked, FileOk, ImportsOk, ServicesLinked, FileDecls;
  }

  lemma {:induction false} ReplayPrefix(history: seq<FileProto>, k: nat)
    requires Replay(history).Some? && k <= |history|
    ensures Replay(history[..k]).Some?
  {
    hide Clean, Installed;
    if k < |history| {
      ReplayPrefix(history[..|history| - 1], k);
      assert history[..|history| - 1][..k] == history[..k];
    } else {
      assert history[..k] == history;
    }
  }

  lemma CleanWhenAccepted(history: seq<FileProto>, k: nat)
    requires Replay(history).Some? && k < |history|
    ensures Replay(history[..k]).Some? && Clean(Replay(history[..k]).value, history[k])
    ensures history[k].Name() !in Replay(history[..k]).value.files
  {
    hide Replay, Clean, Installed;
    ReplayPrefix(history, k + 1);
    ReplayLast(history[..k + 1]);
    assert history[..k + 1][..k] == history[..k];
  }

  // ---------- files and imports ----------

  /** The file table lists exactly the accepted files. */
  lemma {:induction false} FilesOfHistory(history: seq<FileProto>, name: string)
    requires Replay(history).Some?
    ensures var files := Replay(history).value.files;
      && (name in files ==> files[name] in history && files[name].Name() == name)
      && (forall k :: 0 <= k < |history| ==> history[k].Name() in files && files[history[k].Name()] == history[k])
  {
    hide Replay, Clean, Installed;
    if history == [] {
      ReplayNothing();
    } else {
      ReplayLast(history);
      var n := |history| - 1;
      FilesOfHistory(history[..n], name);
      forall k | 0 <= k < |history|
        ensures var files := Replay(history).value.files; history[k].Name() in files && files[history[k].Name()] == history[k]
      {
        if k < n { assert history[..n][k] == history[k]; }
      }
    }
  }

  /** Every import of an accepted file was accepted before it, unless the file imports itself. */
  lemma ImportsCommitted(history: seq<FileProto>, k: nat, i: nat)
    requires Replay(history).Some? && k < |history| && i < |history[k].imports|
    ensures var d := history[k].imports[i];
      d == history[k].Name() || exists j :: 0 <= j < k && history[j].Name() == d
  {
    CleanWhenAccepted(history, k);
    hide Declared, Linked, FileOk, ServicesLinked, Installed, NamesValid, Replay;
    var st, f := Replay(history[..k]).value, history[k];
    assert Clean(st, f) && ImportOk(st, f, i);
    if f.imports[i] in st.files {
      FilesOfHistory(history[..k], f.imports[i]);
      var j :| 0 <= j < k && history[..k][j] == st.files[f.imports[i]];
      assert history[j].Name() == f.imports[i];
    }
  }

  lemma NamesDiffer(history: seq<FileProto>, j: nat, k: nat)
    requires Replay(history).Some? && j < k < |history|
    ensures history[j].Name() != history[k].Name()
  {
    CleanWhenAccepted(history, k);
    hide Clean, Replay;
    FilesOfHistory(history[..k], history[k].Name());
    assert history[..k][j] == history[j];
  }

  /** A chain of imports: each file of the pool imports the next. */
  ghost predicate ImportChain(files: map<string, FileProto>, path: seq<string>) {
    forall i :: 0 <= i < |path| - 1 ==> ImportsNext(files, path, i)
  }

  ghost predicate ImportsNext(files: map<string, FileProto>, path: seq<string>, i: nat)
    requires i + 1 < |path|
  {
    path[i] in files && path[i + 1] in files[path[i]].imports
  }

  /** Position of a file in the history. */
  ghost predicate At(history: seq<FileProto>, name: string, k: nat) {
    k < |history| && history[k].Name() == name
  }

  lemma ImportGoesBack(history: seq<FileProto>, a: string, b: string, k: nat) returns (j: nat)
    requires Replay(history).Some? && At(history, a, k)
    requires a in Replay(history).value.files && b in Replay(history).value.files[a].imports
    ensures At(history, b, j) && j <= k
  {
    hide Replay;
    FilesOfHistory(history, a);
    assert Replay(history).value.files[history[k].Name()] == history[k];
    var i :| 0 <= i < |history[k].imports| && history[k].imports[i] == b;
    ImportsCommitted(history, k, i);
    if b == a {
      j := k;
    } else {
      j :| 0 <= j < k && history[j].Name() == b;
    }
  }

  lemma {:induction false} ChainGoesBack(history: seq<FileProto>, path: seq<string>, i: nat, j: nat, ki: nat) returns (kj: nat)
    requires Replay(history).Some? && ImportChain(Replay(history).value.files, path)
    requires i <= j < |path| && At(history, path[i], ki)
    ensures At(history, path[j], kj) && kj <= ki
    decreases j
  {
    hide Replay;
    if i == j {
      kj := ki;
    } else {
      var k := ChainGoesBack(history, path, i, j - 1, ki);
      assert ImportsNext(Replay(history).value.files, path, j - 1);
      kj := ImportGoesBack(history, path[j - 1], path[j], k);
    }
  }

  lemma PositionUnique(history: seq<FileProto>, name: string, j: nat, k: nat)
    requires Replay(history).Some? && At(history, name, j) && At(history, name, k)
    ensures j == k
  {
    if j < k { NamesDiffer(history, j, k); } else if k < j { NamesDiffer(history, k, j); }
  }

  /** An import cycle never goes through two different files: only a file importing itself is not excluded. */
  lemma NoImportCycle(history: seq<FileProto>, path: seq<string>, i: nat)
    requires Replay(history).Some? && ImportChain(Replay(history).value.files, path)
    requires |path| > 1 && path[|path| - 1] == path[0] && i < |path|
    ensures path[i] == path[0]
  {
    hide Replay;
    assert ImportsNext(Replay(history).value.files, path, 0);
    FilesOfHistory(history, path[0]);
    var k0 :| 0 <= k0 < |history| && history[k0] == Replay(history).value.files[path[0]];
    var ki := ChainGoesBack(history, path, 0, i, k0);
    var kl := ChainGoesBack(history, path, i, |path| - 1, ki);
    PositionUnique(history, path[0], kl, k0);
  }

  /** The file is entered before its imports are looked up, so importing itself is no error. */
  lemma SelfImportAccepted(st: State, name: string)
    requires name !in st.files
    ensures var f := FileProto(Some(name), "", [name], [], [], [], []);
      Clean(st, f) && Installed(st, f) == State(st.symbols, st.files[name := f], st.extensions)
  {
    var f := FileProto(Some(name), "", [name], [], [], [], []);
    assert f.imports[0] !in f.imports[..0];
    assert FileDecls(f) == [] && FileLinks(f) == [];
  }
}
