/** Why a pool may remember the files it has refused: a refused file stays refused in every larger pool, as long as no
    further import of it is accepted. */
module PoolRefusal {
  import opened Descriptors
  import opened FieldNumbers
  import opened ScopedLookup
  import opened PoolState
  import opened PoolHistory
  import opened ScopeClosure
  import opened PoolNumbers
  import opened PoolContents

  // ---------- what a file declares is its own ----------

  ghost predicate OwnDecl(d: Decl, file: string) {
    !d.symbol.NullSymbol? && !d.symbol.PackageSymbol? && d.symbol.file == file
  }

  ghost predicate AllOwn(decls: seq<Decl>, file: string) { forall i :: 0 <= i < |decls| ==> OwnDecl(decls[i], file) }

  lemma OwnConcat(a: seq<Decl>, b: seq<Decl>, file: string)
    requires AllOwn(a, file) && AllOwn(b, file)
    ensures AllOwn(a + b, file)
  {
  }

  lemma {:induction false} OwnFields(file: string, fields: seq<FieldProto>, scope: string, n: nat)
    requires n <= |fields|
    ensures AllOwn(FieldDecls(file, fields, scope, n), file)
  {
    if n > 0 { OwnFields(file, fields, scope, n - 1); }
  }

  lemma {:induction false} OwnValues(file: string, values: seq<string>, scope: string, n: nat)
    requires n <= |values|
    ensures AllOwn(ValueDecls(file, values, scope, n), file)
  {
    if n > 0 { OwnValues(file, values, scope, n - 1); }
  }

  lemma {:induction false} OwnEnums(file: string, enums: seq<EnumProto>, scope: string, n: nat)
    requires n <= |enums|
    ensures AllOwn(EnumsDecls(file, enums, scope, n), file)
  {
    if n > 0 {
      OwnEnums(file, enums, scope, n - 1);
      OwnValues(file, enums[n - 1].values, scope, |enums[n - 1].values|);
    }
  }

  lemma {:induction false} OwnMethods(file: string, methods: seq<MethodProto>, scope: string, n: nat)
    requires n <= |methods|
    ensures AllOwn(MethodDecls(file, methods, scope, n), file)
  {
    if n > 0 { OwnMethods(file, methods, scope, n - 1); }
  }

  lemma {:induction false} OwnServices(file: string, services: seq<ServiceProto>, scope: string, n: nat)
    requires n <= |services|
    ensures AllOwn(ServicesDecls(file, services, scope, n), file)
  {
    if n > 0 {
      OwnServices(file, services, scope, n - 1);
      var v := services[n - 1];
      OwnMethods(file, v.methods, Join(scope, v.name), |v.methods|);
    }
  }

  lemma {:induction false} OwnTree(file: string, m: MessageProto, scope: string)
    ensures AllOwn(MessageDecls(file, m, scope), file)
    decreases m, |m.nested| + 1
  {
    hide AllOwn, FieldDecls, NestedDecls, EnumsDecls;
    var full := Join(scope, m.name);
    OwnFields(file, m.fields, full, |m.fields|);
    OwnNested(file, m, full, |m.nested|);
    OwnEnums(file, m.enums, full, |m.enums|);
    OwnFields(file, m.extensions, full, |m.extensions|);
    OwnOne(MessageDecl(file, m, scope), file);
    var d1, d2 := FieldDecls(file, m.fields, full, |m.fields|), NestedDecls(file, m, full, |m.nested|);
    var d3, d4 := EnumsDecls(file, m.enums, full, |m.enums|), FieldDecls(file, m.extensions, full, |m.extensions|);
    OwnConcat(d1, d2, file);
    OwnConcat(d1 + d2, d3, file);
    OwnConcat(d1 + d2 + d3, d4, file);
    OwnConcat(d1 + d2 + d3 + d4, [MessageDecl(file, m, scope)], file);
  }

  lemma OwnOne(d: Decl, file: string)
    requires OwnDecl(d, file)
    ensures AllOwn([d], file)
  {
  }

  lemma {:induction false} OwnNested(file: string, m: MessageProto, scope: string, n: nat)
    requires n <= |m.nested|
    ensures AllOwn(NestedDecls(file, m, scope, n), file)
    decreases m, n
  {
    hide MessageDecls, OwnDecl;
    if n > 0 {
      OwnNested(file, m, scope, n - 1);
      OwnTree(file, m.nested[n - 1], scope);
    }
  }

  lemma {:induction false} OwnMessages(f: FileProto, n: nat)
    requires n <= |f.messages|
    ensures AllOwn(MessagesDecls(f, n), f.Name())
  {
    hide MessageDecls, OwnDecl;
    if n > 0 {
      OwnMessages(f, n - 1);
      OwnTree(f.Name(), f.messages[n - 1], f.pkg);
    }
  }

  lemma OwnFile(f: FileProto)
    ensures AllOwn(FileDecls(f), f.Name())
  {
    hide AllOwn, MessagesDecls, EnumsDecls, ServicesDecls, FieldDecls;
    OwnMessages(f, |f.messages|);
    OwnEnums(f.Name(), f.enums, f.pkg, |f.enums|);
    OwnServices(f.Name(), f.services, f.pkg, |f.services|);
    OwnFields(f.Name(), f.extensions, f.pkg, |f.extensions|);
    var d1, d2 := MessagesDecls(f, |f.messages|), EnumsDecls(f.Name(), f.enums, f.pkg, |f.enums|);
    var d3, d4 := ServicesDecls(f.Name(), f.services, f.pkg, |f.services|), FieldDecls(f.Name(), f.extensions, f.pkg, |f.extensions|);
    OwnConcat(d1, d2, f.Name());
    OwnConcat(d1 + d2, d3, f.Name());
    OwnConcat(d1 + d2 + d3, d4, f.Name());
  }

  // ---------- packages ----------

  ghost predicate IsPackage(symbols: map<string, Symbol>, n: string) { n in symbols && symbols[n].PackageSymbol? }

  ghost predicate ProperPackage(symbols: map<string, Symbol>, n: string) {
    ValidIdentifier(LastPart(n)) && (HasParent(n) ==> IsPackage(symbols, Parent(n)))
  }

  /** Packages have proper names and lie in packages. */
  ghost predicate PackagesProper(symbols: map<string, Symbol>) {
    forall n :: IsPackage(symbols, n) ==> ProperPackage(symbols, n)
  }

  lemma {:induction false} NewPackages(symbols: map<string, Symbol>, file: string, name: string)
    requires AddPackages(symbols, file, name).Some?
    ensures var t := AddPackages(symbols, file, name).value;
      IsPackage(t, name) && Extends(symbols, t) && forall n :: n in t && n !in symbols ==> t[n] == PackageSymbol(file) && ProperPackage(t, n)
    decreases |name|
  {
    hide ValidIdentifier, HasParent, Parent, LastPart;
    if name !in symbols && HasParent(name) {
      NewPackages(symbols[name := PackageSymbol(file)], file, Parent(name));
    }
  }

  lemma PackagesStayProper(symbols: map<string, Symbol>, f: FileProto)
    requires PackagesProper(symbols) && WithPackage(symbols, f).Some?
    ensures PackagesProper(WithPackage(symbols, f).value)
  {
    hide AddPackages, ValidIdentifier, LastPart, Parent, HasParent;
    if f.pkg != "" {
      NewPackages(symbols, f.Name(), f.pkg);
      var t := WithPackage(symbols, f).value;
      forall n | IsPackage(t, n) ensures ProperPackage(t, n) {
        if n in symbols { assert ProperPackage(symbols, n); }
      }
    }
  }

  lemma DeclaredProper(st: State, f: FileProto)
    requires PackagesProper(st.symbols) && Declared(st, f).Some?
    ensures PackagesProper(Declared(st, f).value)
  {
    hide WithPackage, AddAll, FileDecls, ValidIdentifier, LastPart, Parent, HasParent;
    PackagesStayProper(st.symbols, f);
    var symbols, decls, t := WithPackage(st.symbols, f).value, FileDecls(f), Declared(st, f).value;
    AddAllHolds(symbols, decls);
    OwnFile(f);
    forall n | IsPackage(t, n) ensures ProperPackage(t, n) {
      assert ProperPackage(symbols, n);
    }
  }

  lemma {:induction false} PackagesAreProper(history: seq<FileProto>)
    requires Replay(history).Some?
    ensures PackagesProper(Replay(history).value.symbols)
  {
    hide Replay, Declared, Clean, PackagesProper;
    if history == [] {
      ReplayNothing();
      NoPackages();
    } else {
      ReplayLast(history);
      PackagesAreProper(history[..|history| - 1]);
      CleanDeclares(Replay(history[..|history| - 1]).value, history[|history| - 1]);
      DeclaredProper(Replay(history[..|history| - 1]).value, history[|history| - 1]);
    }
  }

  lemma NoPackages()
    ensures PackagesProper(map[])
  {
  }

  /** AddPackage succeeds on the way from the package to the first existing one. */
  ghost predicate ChainOk(symbols: map<string, Symbol>, name: string)
    decreases |name|
  {
    if name in symbols then symbols[name].PackageSymbol?
    else ValidIdentifier(LastPart(name)) && (HasParent(name) ==> ChainOk(symbols, Parent(name)))
  }

  lemma {:induction false} ChainIgnoresLonger(symbols: map<string, Symbol>, n: string, x: Symbol, m: string)
    requires |m| < |n|
    ensures ChainOk(symbols[n := x], m) <==> ChainOk(symbols, m)
    decreases |m|
  {
    hide ValidIdentifier, HasParent, Parent, LastPart;
    if HasParent(m) { ChainIgnoresLonger(symbols, n, x, Parent(m)); }
  }

  lemma {:induction false} ChainDecides(symbols: map<string, Symbol>, file: string, name: string)
    ensures AddPackages(symbols, file, name).Some? <==> ChainOk(symbols, name)
    decreases |name|
  {
    hide ValidIdentifier, HasParent, Parent, LastPart;
    if name !in symbols && HasParent(name) {
      ChainDecides(symbols[name := PackageSymbol(file)], file, Parent(name));
      ChainIgnoresLonger(symbols, name, PackageSymbol(file), Parent(name));
    }
  }

  lemma {:induction false} ChainSmaller(small: map<string, Symbol>, large: map<string, Symbol>, name: string)
    requires Extends(small, large) && PackagesProper(large) && ChainOk(large, name)
    ensures ChainOk(small, name)
    decreases |name|
  {
    hide ValidIdentifier, HasParent, Parent, LastPart;
    if name !in small {
      if name in large { assert IsPackage(large, name) && ProperPackage(large, name); }
      if HasParent(name) { ChainSmaller(small, large, Parent(name)); }
    }
  }

  /** The packages around a package. */
  lemma {:induction false} ScopesArePackages(symbols: map<string, Symbol>, name: string, n: string)
    requires PackagesProper(symbols) && IsPackage(symbols, name) && IsScopeOf(n, name)
    ensures IsPackage(symbols, n)
    decreases |name|
  {
    hide ValidIdentifier, HasParent, Parent, LastPart, IsScopeOf;
    ScopesOfName(name, n);
    assert ProperPackage(symbols, name);
    if n != Parent(name) { ScopesArePackages(symbols, Parent(name), n); }
  }

  /** A name of the file's package or of a package around it. */
  ghost predicate OfPackage(f: FileProto, n: string) { f.pkg != "" && (n == f.pkg || IsScopeOf(n, f.pkg)) }

  lemma PackagesOf(symbols: map<string, Symbol>, f: FileProto, n: string)
    requires PackagesProper(symbols) && WithPackage(symbols, f).Some?
    ensures var t := WithPackage(symbols, f).value;
      && Extends(symbols, t)
      && (OfPackage(f, n) ==> IsPackage(t, n))
      && (n in t && n !in symbols ==> OfPackage(f, n) && t[n] == PackageSymbol(f.Name()))
  {
    hide AddPackages, IsScopeOf, ValidIdentifier;
    if f.pkg != "" {
      PackagesStayProper(symbols, f);
      NewPackages(symbols, f.Name(), f.pkg);
      PackagesNamed(symbols, f.Name(), f.pkg, n);
      if IsScopeOf(n, f.pkg) { ScopesArePackages(WithPackage(symbols, f).value, f.pkg, n); }
    }
  }

  // ---------- one more file ----------

  /** The larger pool holds one more file, which the refused one does not import. */
  ghost predicate OneMore(a: State, b: State, f: FileProto, g: FileProto) {
    && Clean(a, f) && b == Installed(a, f) && f.Name() !in g.imports && g.Name() != f.Name()
    && PackagesProper(a.symbols) && PackagesProper(b.symbols) && FilesPackaged(a)
  }

  /** The packages of all files are in the table. */
  ghost predicate FilesPackaged(st: State) {
    forall n, p :: n in st.files && OfPackage(st.files[n], p) ==> p in st.symbols
  }

  lemma InstalledParts(a: State, f: FileProto)
    requires Clean(a, f)
    ensures Declared(a, f).Some? && Installed(a, f).symbols == Declared(a, f).value && Installed(a, f).files == a.files[f.Name() := f]
  {
    hide Linked, FileDecls, FileOk, ImportsOk, ServicesLinked;
  }

  /** What accepting f adds to the table is its own, or a package. */
  lemma NewSymbols(a: State, f: FileProto, n: string)
    requires Declared(a, f).Some? && PackagesProper(a.symbols)
    ensures var t := Declared(a, f).value;
      && Extends(a.symbols, t)
      && (n in t && n !in a.symbols ==> !t[n].NullSymbol? && t[n].file == f.Name())
  {
    hide AddAll, FileDecls, WithPackage, IsScopeOf, PackagesProper;
    PackagesOf(a.symbols, f, n);
    AddAllHolds(WithPackage(a.symbols, f).value, FileDecls(f));
    OwnFile(f);
    ExtendsThrough(a.symbols, WithPackage(a.symbols, f).value, Declared(a, f).value);
  }

  lemma ExtendsThrough(a: map<string, Symbol>, b: map<string, Symbol>, c: map<string, Symbol>)
    requires Extends(a, b) && Extends(b, c)
    ensures Extends(a, c)
  {
  }

  // ---------- declaring ----------

  lemma {:induction false} AddAllSmaller(small: map<string, Symbol>, large: map<string, Symbol>, decls: seq<Decl>)
    requires small.Keys <= large.Keys && AddAll(large, decls).Some?
    ensures AddAll(small, decls).Some? && AddAll(small, decls).value.Keys <= AddAll(large, decls).value.Keys
  {
    if decls != [] { AddAllSmaller(small, large, decls[..|decls| - 1]); }
  }

  lemma PackageSmaller(a: State, b: State, g: FileProto)
    requires Extends(a.symbols, b.symbols) && PackagesProper(a.symbols) && PackagesProper(b.symbols)
    requires WithPackage(b.symbols, g).Some?
    ensures WithPackage(a.symbols, g).Some?
    ensures WithPackage(a.symbols, g).value.Keys <= WithPackage(b.symbols, g).value.Keys
  {
    hide AddPackages, ChainOk, OfPackage, PackagesProper;
    if g.pkg != "" {
      ChainDecides(b.symbols, g.Name(), g.pkg);
      ChainSmaller(a.symbols, b.symbols, g.pkg);
      ChainDecides(a.symbols, g.Name(), g.pkg);
    }
    var s, t := WithPackage(a.symbols, g).value, WithPackage(b.symbols, g).value;
    forall n | n in s ensures n in t {
      PackagesOf(a.symbols, g, n);
      PackagesOf(b.symbols, g, n);
    }
  }

  lemma DeclaredSmaller(a: State, b: State, g: FileProto)
    requires Extends(a.symbols, b.symbols) && PackagesProper(a.symbols) && PackagesProper(b.symbols) && Declared(b, g).Some?
    ensures Declared(a, g).Some?
  {
    hide AddAll, FileDecls, WithPackage, PackagesProper;
    PackageSmaller(a, b, g);
    AddAllSmaller(WithPackage(a.symbols, g).value, WithPackage(b.symbols, g).value, FileDecls(g));
  }

  // ---------- looking up ----------

  /** Two packages of one name may have been entered by different files; nothing depends on that. */
  ghost predicate Alike(x: Symbol, y: Symbol) { x == y || (x.PackageSymbol? && y.PackageSymbol?) }

  ghost predicate SeeAlike(c: Context, d: Context) {
    forall n :: Alike(FindSymbol(c, n), FindSymbol(d, n))
  }

  /** The symbol of a name in the table g is linked against. */
  lemma SymbolsOf(st: State, g: FileProto, n: string)
    requires Declared(st, g).Some? && PackagesProper(st.symbols)
    ensures var t := Declared(st, g).value;
      && (n in st.symbols ==> n in t && t[n] == st.symbols[n])
      && (OfPackage(g, n) ==> IsPackage(t, n))
      && (n in t && n !in st.symbols && !DeclaresName(FileDecls(g), n) ==> OfPackage(g, n) && t[n] == PackageSymbol(g.Name()))
      && (DeclaresName(FileDecls(g), n) ==> n in t && !t[n].NullSymbol? && t[n].file == g.Name() && n !in st.symbols)
  {
    hide AddAll, FileDecls, WithPackage, IsScopeOf, PackagesProper, OfPackage;
    PackagesOf(st.symbols, g, n);
    AddAllHolds(WithPackage(st.symbols, g).value, FileDecls(g));
    OwnFile(g);
    NotThere(WithPackage(st.symbols, g).value, FileDecls(g), n);
  }

  lemma {:induction false} NotThere(symbols: map<string, Symbol>, decls: seq<Decl>, n: string)
    requires AddAll(symbols, decls).Some?
    ensures DeclaresName(decls, n) ==> n !in symbols
  {
    if decls != [] {
      var k := |decls| - 1;
      NotThere(symbols, decls[..k], n);
      AddAllHolds(symbols, decls[..k]);
      if DeclaresName(decls, n) && decls[k].fullName != n {
        var i :| 0 <= i < |decls| && decls[i].fullName == n;
        assert decls[..k][i].fullName == n;
      }
    }
  }

  /** A declaration of g stands for the same symbol in both tables. */
  lemma SameDeclaration(a: State, b: State, g: FileProto, n: string)
    requires Declared(a, g).Some? && Declared(b, g).Some? && DeclaresName(FileDecls(g), n)
    ensures n in Declared(a, g).value && n in Declared(b, g).value && Declared(a, g).value[n] == Declared(b, g).value[n]
  {
    hide AddAll, FileDecls, WithPackage;
    AddAllHolds(WithPackage(a.symbols, g).value, FileDecls(g));
    AddAllHolds(WithPackage(b.symbols, g).value, FileDecls(g));
  }

  lemma InPackageIff(g: FileProto, n: string)
    requires n != ""
    ensures IsInPackage(g, n) <==> OfPackage(g, n)
  {
  }

  lemma PackageNamed(symbols: map<string, Symbol>, n: string)
    requires PackagesProper(symbols) && IsPackage(symbols, n)
    ensures n != ""
  {
    assert ProperPackage(symbols, n);
  }

  /** The same imports are seen from both pools. */
  lemma SameVisibility(c: Context, d: Context, f: FileProto, x: string)
    requires c.file == d.file && d.files == c.files[f.Name() := f] && f.Name() !in c.file.imports
    ensures IsVisible(c, x) <==> IsVisible(d, x)
    ensures PackageVisible(c, x) <==> PackageVisible(d, x)
  {
    forall i | 0 <= i < |c.file.imports| ensures ImportInPackage(c, i, x) <==> ImportInPackage(d, i, x) {
      assert c.file.imports[i] in c.file.imports;
    }
  }

  /** A symbol that only the larger pool has is not seen by g. */
  lemma NewIsHidden(a: State, b: State, f: FileProto, g: FileProto, d: Context, n: string)
    requires OneMore(a, b, f, g) && Declared(b, g).Some? && d == ContextOf(b, g, Declared(b, g).value)
    requires n in b.symbols && n !in a.symbols && !OfPackage(g, n) && n in d.symbols && d.symbols[n] == b.symbols[n]
    ensures FindSymbol(d, n).NullSymbol?
  {
    InstalledParts(a, f);
    hide Clean, Installed, Declared, OfPackage, IsScopeOf;
    NewSymbols(a, f, n);
    assert !IsVisible(d, f.Name());
    if b.symbols[n].PackageSymbol? {
      PackageNamed(b.symbols, n);
      InPackageIff(g, n);
      forall i | 0 <= i < |g.imports| ensures !ImportInPackage(d, i, n) {
        var h := g.imports[i];
        assert h in g.imports;
        if h in d.files && h != g.Name() {
          assert h in a.files && d.files[h] == a.files[h];
          InPackageIff(a.files[h], n);
        }
      }
    }
  }

  lemma FindAlike(a: State, b: State, f: FileProto, g: FileProto, c: Context, d: Context, n: string)
    requires OneMore(a, b, f, g) && Declared(a, g).Some? && Declared(b, g).Some?
    requires c == ContextOf(a, g, Declared(a, g).value) && d == ContextOf(b, g, Declared(b, g).value)
    ensures Alike(FindSymbol(c, n), FindSymbol(d, n))
  {
    hide Clean, Installed, Declared, FileDecls, IsScopeOf, PackagesProper, FilesPackaged, DeclaresName, OfPackage, FindSymbol;
    InstalledParts(a, f);
    NewSymbols(a, f, n);
    SymbolsOf(a, g, n);
    SymbolsOf(b, g, n);
    if n in a.symbols {
      SameSymbolSeen(c, d, f, n);
    } else if DeclaresName(FileDecls(g), n) {
      SameDeclaration(a, b, g, n);
      SameSymbolSeen(c, d, f, n);
    } else if OfPackage(g, n) {
      OwnPackageSeen(g, d, n);
      OwnPackageSeen(g, c, n);
    } else {
      NothingSeen(c, n);
      if n in b.symbols { NewIsHidden(a, b, f, g, d, n); } else { NothingSeen(d, n); }
    }
  }

  lemma NothingSeen(c: Context, n: string)
    requires n !in c.symbols
    ensures FindSymbol(c, n) == NullSymbol
  {
  }

  lemma SameSymbolSeen(c: Context, d: Context, f: FileProto, n: string)
    requires c.file == d.file && d.files == c.files[f.Name() := f] && f.Name() !in c.file.imports
    requires n in c.symbols && n in d.symbols && c.symbols[n] == d.symbols[n]
    ensures FindSymbol(c, n) == FindSymbol(d, n)
  {
    hide IsVisible, PackageVisible;
    if !c.symbols[n].NullSymbol? { SameVisibility(c, d, f, c.symbols[n].file); }
    SameVisibility(c, d, f, n);
  }

  lemma OwnPackageSeen(g: FileProto, c: Context, n: string)
    requires c.file == g && OfPackage(g, n) && IsPackage(c.symbols, n)
    ensures FindSymbol(c, n) == c.symbols[n] && c.symbols[n].PackageSymbol?
  {
  }

  lemma {:induction false} SearchAlike(c: Context, d: Context, name: string, relativeTo: string, mode: ResolveMode)
    requires SeeAlike(c, d)
    ensures Alike(Search(c, name, relativeTo, mode), Search(d, name, relativeTo, mode))
    decreases |relativeTo|
  {
    hide FindSymbol;
    var p := LastDot(relativeTo);
    if p != -1 {
      var scope := relativeTo[..p];
      assert Alike(FindSymbol(c, scope + "." + FirstPart(name)), FindSymbol(d, scope + "." + FirstPart(name)));
      assert Alike(FindSymbol(c, scope + "." + name), FindSymbol(d, scope + "." + name));
      SearchAlike(c, d, name, scope, mode);
    } else {
      assert Alike(FindSymbol(c, name), FindSymbol(d, name));
    }
  }

  lemma LookupAlike(c: Context, d: Context, name: string, relativeTo: string, mode: ResolveMode)
    requires SeeAlike(c, d)
    ensures Alike(Lookup(c, name, relativeTo, mode), Lookup(d, name, relativeTo, mode))
  {
    hide FindSymbol, Search;
    SearchAlike(c, d, name, relativeTo, mode);
    if name != "" && name[0] == '.' { assert Alike(FindSymbol(c, name[1..]), FindSymbol(d, name[1..])); }
  }

  // ---------- linking ----------

  lemma LinkOneAlike(c: Context, d: Context, s: Linking, t: Linking, l: Link)
    requires SeeAlike(c, d) && s.taken == t.taken
    ensures var x, y := LinkOne(c, s, l), LinkOne(d, t, l);
      (x.Some? <==> y.Some?) && (x.Some? ==> x.value.taken == y.value.taken)
  {
    hide Lookup, SeeAlike, IsExtensionNumber;
    if l.field.extendee.Some? { LookupAlike(c, d, l.field.extendee.value, l.fullName, LookupAll); }
    if l.field.typeName.Some? { LookupAlike(c, d, l.field.typeName.value, l.fullName, LookupTypes); }
  }

  lemma {:induction false} LinkAllAlike(c: Context, d: Context, s: Linking, t: Linking, links: seq<Link>)
    requires SeeAlike(c, d) && s.taken == t.taken
    ensures var x, y := LinkAll(c, s, links), LinkAll(d, t, links);
      (x.Some? <==> y.Some?) && (x.Some? ==> x.value.taken == y.value.taken)
  {
    hide LinkOne, SeeAlike;
    if links != [] {
      var n := |links| - 1;
      LinkAllAlike(c, d, s, t, links[..n]);
      if LinkAll(c, s, links[..n]).Some? {
        LinkOneAlike(c, d, LinkAll(c, s, links[..n]).value, LinkAll(d, t, links[..n]).value, links[n]);
      }
    }
  }

  lemma ServicesAlike(c: Context, d: Context, f: FileProto)
    requires SeeAlike(c, d)
    ensures ServicesLinked(c, f, |f.services|) <==> ServicesLinked(d, f, |f.services|)
  {
    hide Lookup, SeeAlike;
    forall i, j | 0 <= i < |f.services| && 0 <= j < |f.services[i].methods|
      ensures MethodLinked(c, f.services[i].methods[j], Join(f.pkg, f.services[i].name))
        <==> MethodLinked(d, f.services[i].methods[j], Join(f.pkg, f.services[i].name))
    {
      var m, service := f.services[i].methods[j], Join(f.pkg, f.services[i].name);
      LookupAlike(c, d, m.input, service + "." + m.name, LookupAll);
      LookupAlike(c, d, m.output, service + "." + m.name, LookupAll);
    }
  }

  // ---------- refusal ----------

  lemma SeenAlike(a: State, b: State, f: FileProto, g: FileProto)
    requires OneMore(a, b, f, g) && Declared(a, g).Some? && Declared(b, g).Some?
    ensures SeeAlike(ContextOf(a, g, Declared(a, g).value), ContextOf(b, g, Declared(b, g).value))
  {
    hide OneMore, Declared, FindSymbol;
    var c, d := ContextOf(a, g, Declared(a, g).value), ContextOf(b, g, Declared(b, g).value);
    forall n ensures Alike(FindSymbol(c, n), FindSymbol(d, n)) { FindAlike(a, b, f, g, c, d, n); }
  }

  lemma ImportsSmaller(a: State, b: State, f: FileProto, g: FileProto)
    requires b.files == a.files[f.Name() := f] && f.Name() !in g.imports && ImportsOk(b, g, |g.imports|)
    ensures ImportsOk(a, g, |g.imports|)
  {
    forall i | 0 <= i < |g.imports| ensures ImportOk(a, g, i) {
      assert ImportOk(b, g, i) && g.imports[i] in g.imports;
    }
  }

  /** The clauses of Clean, one by one. */
  lemma CleanParts(st: State, g: FileProto)
    ensures Clean(st, g) <==>
      && g.name.Some? && g.Name() !in st.files
      && ImportsOk(st, g, |g.imports|) && NamesValid(FileDecls(g)) && FileOk(g)
      && Declared(st, g).Some? && Linked(st, g, Declared(st, g).value).Some?
      && ServicesLinked(ContextOf(st, g, Declared(st, g).value), g, |g.services|)
  {
    hide Declared, Linked, ServicesLinked, FileOk, FileDecls, ImportsOk, NamesValid;
  }

  /** What the larger pool accepts, the smaller one accepts as well. */
  lemma CleanBefore(a: State, b: State, f: FileProto, g: FileProto)
    requires OneMore(a, b, f, g) && Clean(b, g)
    ensures Clean(a, g)
  {
    InstalledParts(a, f);
    NewSymbols0(a, f);
    CleanParts(a, g);
    CleanParts(b, g);
    hide Clean, Installed, Declared, ServicesLinked, FileOk, FileDecls, ImportsOk, NamesValid, LinkAll, FileLinks, PackagesProper,
      FilesPackaged;
    ImportsSmaller(a, b, f, g);
    DeclaredSmaller(a, b, g);
    SeenAlike(a, b, f, g);
    var c, d := ContextOf(a, g, Declared(a, g).value), ContextOf(b, g, Declared(b, g).value);
    LinkAllAlike(c, d, Linking({}, a.extensions), Linking({}, b.extensions), FileLinks(g));
    ServicesAlike(c, d, g);
  }

  lemma NewSymbols0(a: State, f: FileProto)
    requires Declared(a, f).Some? && PackagesProper(a.symbols)
    ensures Extends(a.symbols, Declared(a, f).value)
  {
    hide Declared, PackagesProper;
    forall n ensures n in a.symbols ==> n in Declared(a, f).value && Declared(a, f).value[n] == a.symbols[n] { NewSymbols(a, f, n); }
  }

  lemma PoolPackaged(history: seq<FileProto>)
    requires Replay(history).Some?
    ensures FilesPackaged(Replay(history).value)
  {
    hide Replay, IsScopeOf;
    var st := Replay(history).value;
    forall n, p | n in st.files && OfPackage(st.files[n], p) ensures p in st.symbols {
      FilesOfHistory(history, n);
      SymbolsAreTheUnion(history, p);
      var k :| 0 <= k < |history| && history[k] == st.files[n];
      assert DeclaredBy(history[k], p);
    }
  }

  /** Accepting a file leaves every file refused that does not import it. */
  lemma RefusedStaysOne(history: seq<FileProto>, f: FileProto, g: FileProto)
    requires Replay(history).Some? && Clean(Replay(history).value, f) && !Clean(Replay(history).value, g)
    requires f.Name() !in g.imports
    ensures Replay(history + [f]).Some? && !Clean(Replay(history + [f]).value, g)
  {
    hide Replay, Clean, Installed, PackagesProper, FilesPackaged;
    ReplayMore(history, f);
    PackagesAreProper(history);
    PackagesAreProper(history + [f]);
    PoolPackaged(history);
    var a, b := Replay(history).value, Replay(history + [f]).value;
    InstalledParts(a, f);
    if g.Name() == f.Name() {
      TakenIsRefused(b, g);
    } else if Clean(b, g) {
      CleanBefore(a, b, f, g);
    }
  }

  lemma TakenIsRefused(st: State, g: FileProto)
    requires g.Name() in st.files
    ensures !Clean(st, g)
  {
    hide Declared, Linked, ServicesLinked, FileOk, FileDecls, ImportsOk;
  }

  /** A file once refused is refused in every larger pool in which no further import of it has been accepted. */
  lemma {:induction false} RefusedStays(before: seq<FileProto>, after: seq<FileProto>, g: FileProto)
    requires before <= after && Replay(before).Some? && Replay(after).Some? && !Clean(Replay(before).value, g)
    requires forall i :: 0 <= i < |g.imports| && g.imports[i] in Replay(after).value.files ==> g.imports[i] in Replay(before).value.files
    ensures !Clean(Replay(after).value, g)
    decreases |after|
  {
    hide Replay, Clean, Installed;
    if before != after {
      var n := |after| - 1;
      ReplayLast(after);
      assert before <= after[..n] && after[..n] + [after[n]] == after;
      FilesGrow(before, after[..n]);
      RefusedStays(before, after[..n], g);
      RefusedStaysOne(after[..n], after[n], g);
    } else {
      assert before == after;
    }
  }

  /** Files stay. */
  lemma {:induction false} FilesGrow(before: seq<FileProto>, after: seq<FileProto>)
    requires before <= after && Replay(before).Some? && Replay(after).Some?
    ensures Replay(before).value.files.Keys <= Replay(after).value.files.Keys
    decreases |after|
  {
    hide Replay, Clean, Installed;
    if before != after {
      ReplayLast(after);
      assert before <= after[..|after| - 1];
      FilesGrow(before, after[..|after| - 1]);
    }
  }
}
