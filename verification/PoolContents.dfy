/** The symbol table of a pool is the union of what its files declare: nothing is lost, overwritten, or left behind
    by a file that was refused. */
module PoolContents {
  import opened Descriptors
  import opened PoolState
  import opened PoolHistory
  import opened ScopeClosure
  import opened PoolNumbers

  ghost predicate DeclaresName(decls: seq<Decl>, n: string) {
    exists i :: 0 <= i < |decls| && decls[i].fullName == n
  }

  /** The file's package, a package around it, or one of its declarations. */
  ghost predicate DeclaredBy(f: FileProto, n: string) {
    (f.pkg != "" && (n == f.pkg || IsScopeOf(n, f.pkg))) || DeclaresName(FileDecls(f), n)
  }

  lemma {:induction false} PackagesNamed(symbols: map<string, Symbol>, file: string, name: string, n: string)
    requires AddPackages(symbols, file, name).Some?
    ensures var t := AddPackages(symbols, file, name).value; n in t && n !in symbols ==> n == name || IsScopeOf(n, name)
    decreases |name|
  {
    hide ValidIdentifier, HasParent, Parent, LastPart, IsScopeOf;
    if name !in symbols && HasParent(name) {
      PackagesNamed(symbols[name := PackageSymbol(file)], file, Parent(name), n);
      ScopesOfName(name, n);
    }
  }

  /** What accepting a file adds, and nothing else. */
  lemma DeclaredNames(st: State, f: FileProto, n: string)
    requires Closed(st.symbols) && Clean(st, f)
    ensures Declared(st, f).Some?
    ensures n in Declared(st, f).value <==> n in st.symbols || DeclaredBy(f, n)
  {
    CleanDeclares(st, f);
    hide Clean, Declared, DeclaredBy, Closed;
    if DeclaredBy(f, n) || n in st.symbols { DeclaredThere(st, f, n); }
    if n in Declared(st, f).value { NothingElse(st, f, n); }
  }

  lemma DeclaredThere(st: State, f: FileProto, n: string)
    requires Closed(st.symbols) && Clean(st, f) && Declared(st, f).Some?
    requires n in st.symbols || DeclaredBy(f, n)
    ensures n in Declared(st, f).value
  {
    CleanNames(st, f);
    DeclaredClosed(st, f);
    hide Clean, FileDecls, AddAll, AddPackages, IsScopeOf, NamesValid;
    PackageHolds(st.symbols, f);
    var symbols, decls, t := WithPackage(st.symbols, f).value, FileDecls(f), Declared(st, f).value;
    AddAllHolds(symbols, decls);
    if f.pkg != "" {
      PackageThere(st.symbols, f.Name(), f.pkg);
      assert ClosedAt(t, f.pkg);
      if IsScopeOf(n, f.pkg) { assert HasScope(t, n); }
    }
  }

  lemma NothingElse(st: State, f: FileProto, n: string)
    requires Declared(st, f).Some? && n in Declared(st, f).value
    ensures n in st.symbols || DeclaredBy(f, n)
  {
    hide FileDecls, AddAll, AddPackages, IsScopeOf;
    AddAllHolds(WithPackage(st.symbols, f).value, FileDecls(f));
    if f.pkg != "" { PackagesNamed(st.symbols, f.Name(), f.pkg, n); }
  }

  lemma PackageThere(symbols: map<string, Symbol>, file: string, name: string)
    requires Closed(symbols) && AddPackages(symbols, file, name).Some?
    ensures name in AddPackages(symbols, file, name).value
  {
    hide AddPackages, IsScopeOf, ClosedAt;
    PackagesClosed(symbols, symbols, file, name);
  }

  lemma CleanNames(st: State, f: FileProto)
    requires Clean(st, f)
    ensures NamesValid(FileDecls(f))
  {
    hide FileDecls, Declared, Linked;
  }

  /** A name is in the table exactly if some accepted file declares it. */
  lemma {:induction false} SymbolsAreTheUnion(history: seq<FileProto>, n: string)
    requires Replay(history).Some?
    ensures n in Replay(history).value.symbols <==> exists k :: 0 <= k < |history| && DeclaredBy(history[k], n)
  {
    hide Replay, Declared, Linked, FileOk, ImportsOk, ServicesLinked, FileDecls, Clean, DeclaredBy, Closed;
    if history == [] {
      ReplayNothing();
    } else {
      var k := |history| - 1;
      ReplayLast(history);
      ScopesClosed(history[..k]);
      SymbolsAreTheUnion(history[..k], n);
      DeclaredNames(Replay(history[..k]).value, history[k], n);
      forall j | 0 <= j < k ensures history[..k][j] == history[j] {}
    }
  }

  /** Each declaration stands under its full name with its own symbol, whatever has been accepted since. */
  lemma {:induction false} DeclarationsStay(history: seq<FileProto>, k: nat, i: nat)
    requires Replay(history).Some? && k < |history| && i < |FileDecls(history[k])|
    ensures var d := FileDecls(history[k])[i]; var symbols := Replay(history).value.symbols;
      d.fullName in symbols && symbols[d.fullName] == d.symbol
  {
    hide Replay, Linked, FileOk, ImportsOk, ServicesLinked, FileDecls, Clean, AddAll, SymbolsChecked;
    var n := |history| - 1;
    ReplayLast(history);
    var st := Replay(history[..n]).value;
    MessagesOwnNumbers(history[..n]);
    DeclaredChecked(st, history[n]);
    if k < n {
      assert history[..n][k] == history[k];
      DeclarationsStay(history[..n], k, i);
    } else {
      CleanDeclares(st, history[n]);
      AddAllHolds(WithPackage(st.symbols, history[n]).value, FileDecls(history[n]));
    }
  }
}
