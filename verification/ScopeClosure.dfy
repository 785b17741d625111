/** Scope closure: in the symbol table of a pool every scope around a symbol is itself a symbol, and one that
    may contain others.  This is why AddPackage may stop at a package that exists. */
module ScopeClosure {
  import opened Descriptors
  import opened PoolState
  import opened PoolHistory

  ghost predicate HasScope(symbols: map<string, Symbol>, scope: string) {
    scope in symbols && symbols[scope].IsAggregate()
  }

  ghost predicate ClosedAt(symbols: map<string, Symbol>, name: string) {
    forall s :: IsScopeOf(s, name) ==> HasScope(symbols, s)
  }

  ghost predicate Closed(symbols: map<string, Symbol>) {
    forall n :: n in symbols ==> ClosedAt(symbols, n)
  }

  ghost predicate Extends(small: map<string, Symbol>, large: map<string, Symbol>) {
    forall n :: n in small ==> n in large && large[n] == small[n]
  }

  // ---------- packages ----------

  /** While AddPackage is on its way up, only the scopes from `top` outwards may be missing. */
  ghost predicate ClosedBelow(base: map<string, Symbol>, symbols: map<string, Symbol>, top: string) {
    && Closed(base) && Extends(base, symbols)
    && forall n :: n in symbols && n !in base ==> OnTheWay(symbols, top, n)
  }

  ghost predicate OnTheWay(symbols: map<string, Symbol>, top: string, n: string) {
    IsScopeOf(top, n) && forall s :: IsScopeOf(s, n) ==> s == top || IsScopeOf(s, top) || HasScope(symbols, s)
  }

  lemma ScopeOfScope(a: string, b: string, c: string)
    requires IsScopeOf(a, b) && IsScopeOf(b, c)
    ensures IsScopeOf(a, c)
  {
    assert c[..|b|][..|a|] == c[..|a|];
  }

  lemma WayUp(base: map<string, Symbol>, symbols: map<string, Symbol>, file: string, top: string)
    requires ClosedBelow(base, symbols, top) && top !in symbols && HasParent(top)
    ensures ClosedBelow(base, symbols[top := PackageSymbol(file)], Parent(top))
  {
    hide IsScopeOf, HasParent, Parent;
    var symbols', up := symbols[top := PackageSymbol(file)], Parent(top);
    forall n | n in symbols' && n !in base ensures OnTheWay(symbols', up, n) {
      ScopesOfName(top, up);
      if n == top {
        forall s | IsScopeOf(s, n) ensures s == up || IsScopeOf(s, up) { ScopesOfName(top, s); }
      } else {
        assert OnTheWay(symbols, top, n);
        ScopeOfScope(up, top, n);
        forall s | IsScopeOf(s, n) ensures s == up || IsScopeOf(s, up) || HasScope(symbols', s) { ScopesOfName(top, s); }
      }
    }
  }

  /** The innermost scope of a name ends before its last dot. */
  lemma ScopesOfName(name: string, s: string)
    ensures IsScopeOf(s, name) <==> HasParent(name) && (s == Parent(name) || IsScopeOf(s, Parent(name)))
  {
    var p := LastDot(name);
    if p >= 0 && |s| < p { assert name[..p][..|s|] == name[..|s|]; }
  }

  lemma Arrived(base: map<string, Symbol>, symbols: map<string, Symbol>, top: string)
    requires ClosedBelow(base, symbols, top) && HasScope(symbols, top) && ClosedAt(symbols, top)
    ensures Closed(symbols)
  {
    hide IsScopeOf;
    forall n | n in symbols ensures ClosedAt(symbols, n) {
      if n in base {
        assert ClosedAt(base, n);
      } else {
        assert OnTheWay(symbols, top, n);
      }
    }
  }

  lemma {:induction false} PackagesClosed(base: map<string, Symbol>, symbols: map<string, Symbol>, file: string, top: string)
    requires ClosedBelow(base, symbols, top) && AddPackages(symbols, file, top).Some?
    ensures var t := AddPackages(symbols, file, top).value;
      Closed(t) && Extends(symbols, t) && HasScope(t, top)
    decreases |top|
  {
    hide IsScopeOf, ClosedBelow, ClosedAt, Closed, HasParent, Parent, LastPart, ValidIdentifier;
    var symbols' := symbols[top := PackageSymbol(file)];
    if top in symbols {
      TopInBase(base, symbols, top);
      Arrived(base, symbols, top);
    } else if HasParent(top) {
      WayUp(base, symbols, file, top);
      PackagesClosed(base, symbols', file, Parent(top));
    } else {
      RootPackage(base, symbols, file, top);
    }
  }

  /** A package found on the way up was there before, with all its scopes. */
  lemma TopInBase(base: map<string, Symbol>, symbols: map<string, Symbol>, top: string)
    requires ClosedBelow(base, symbols, top) && top in symbols
    ensures ClosedAt(symbols, top)
  {
    assert top in base;
    assert ClosedAt(base, top);
  }

  lemma RootPackage(base: map<string, Symbol>, symbols: map<string, Symbol>, file: string, top: string)
    requires ClosedBelow(base, symbols, top) && top !in symbols && !HasParent(top)
    ensures Closed(symbols[top := PackageSymbol(file)])
  {
    hide IsScopeOf, HasParent;
    var symbols' := symbols[top := PackageSymbol(file)];
    forall s ensures !IsScopeOf(s, top) { ScopesOfName(top, s); }
    forall n | n in symbols' ensures ClosedAt(symbols', n) {
      if n in base {
        assert ClosedAt(base, n);
      } else if n != top {
        assert OnTheWay(symbols, top, n);
      }
    }
  }

  // ---------- declarations ----------

  ghost predicate Declares(decls: seq<Decl>, fullName: string) {
    exists i :: 0 <= i < |decls| && decls[i].fullName == fullName && decls[i].symbol.IsAggregate()
  }

  /** d is declared directly in s: at the top of the file or in an aggregate of the file. */
  ghost predicate PlacedIn(d: Decl, s: string, scope: string, decls: seq<Decl>) {
    d.fullName == Join(s, d.name) && (s == scope || Declares(decls, s))
  }

  ghost predicate Placed(d: Decl, scope: string, decls: seq<Decl>) {
    exists s :: PlacedIn(d, s, scope, decls)
  }

  ghost predicate AllPlaced(ds: seq<Decl>, scope: string, decls: seq<Decl>) {
    forall i :: 0 <= i < |ds| ==> Placed(ds[i], scope, decls)
  }

  predicate Within(ds: seq<Decl>, decls: seq<Decl>) {
    forall i :: 0 <= i < |ds| ==> ds[i] in decls
  }

  lemma WithinConcat(a: seq<Decl>, b: seq<Decl>, decls: seq<Decl>)
    ensures Within(a + b, decls) <==> Within(a, decls) && Within(b, decls)
  {
    if Within(a + b, decls) {
      forall i | 0 <= i < |a| ensures a[i] in decls { assert (a + b)[i] == a[i]; }
      forall i | 0 <= i < |b| ensures b[i] in decls { assert (a + b)[|a| + i] == b[i]; }
    }
  }

  lemma PlacedConcat(a: seq<Decl>, b: seq<Decl>, scope: string, decls: seq<Decl>)
    requires AllPlaced(a, scope, decls) && AllPlaced(b, scope, decls)
    ensures AllPlaced(a + b, scope, decls)
  {
  }

  lemma PlacedOne(d: Decl, s: string, scope: string, decls: seq<Decl>)
    requires PlacedIn(d, s, scope, decls)
    ensures AllPlaced([d], scope, decls)
  {
  }

  lemma {:induction false} FieldsPlaced(file: string, fields: seq<FieldProto>, s: string, n: nat, scope: string, decls: seq<Decl>)
    requires n <= |fields| && (s == scope || Declares(decls, s))
    ensures AllPlaced(FieldDecls(file, fields, s, n), scope, decls)
  {
    hide Declares, AllPlaced;
    if n == 0 {
      NothingPlaced(scope, decls);
    } else {
      FieldsPlaced(file, fields, s, n - 1, scope, decls);
      PlacedOne(FieldDecl(file, fields[n - 1], s), s, scope, decls);
      PlacedConcat(FieldDecls(file, fields, s, n - 1), [FieldDecl(file, fields[n - 1], s)], scope, decls);
    }
  }

  lemma NothingPlaced(scope: string, decls: seq<Decl>)
    ensures AllPlaced([], scope, decls)
  {
  }

  lemma {:induction false} ValuesPlaced(file: string, values: seq<string>, s: string, n: nat, scope: string, decls: seq<Decl>)
    requires n <= |values| && (s == scope || Declares(decls, s))
    ensures AllPlaced(ValueDecls(file, values, s, n), scope, decls)
  {
    hide Declares, AllPlaced;
    if n == 0 {
      NothingPlaced(scope, decls);
    } else {
      ValuesPlaced(file, values, s, n - 1, scope, decls);
      PlacedOne(ValueDecl(file, values[n - 1], s), s, scope, decls);
      PlacedConcat(ValueDecls(file, values, s, n - 1), [ValueDecl(file, values[n - 1], s)], scope, decls);
    }
  }

  lemma {:induction false} EnumsPlaced(file: string, enums: seq<EnumProto>, s: string, n: nat, scope: string, decls: seq<Decl>)
    requires n <= |enums| && (s == scope || Declares(decls, s))
    ensures AllPlaced(EnumsDecls(file, enums, s, n), scope, decls)
  {
    hide Declares, AllPlaced, ValueDecls;
    if n == 0 {
      NothingPlaced(scope, decls);
    } else {
      var e := enums[n - 1];
      EnumsPlaced(file, enums, s, n - 1, scope, decls);
      ValuesPlaced(file, e.values, s, |e.values|, scope, decls);
      PlacedOne(EnumDecl(file, e, s), s, scope, decls);
      PlacedConcat(ValueDecls(file, e.values, s, |e.values|), [EnumDecl(file, e, s)], scope, decls);
      PlacedConcat(EnumsDecls(file, enums, s, n - 1), EnumDecls(file, e, s), scope, decls);
    }
  }

  lemma {:induction false} MethodsPlaced(file: string, methods: seq<MethodProto>, s: string, n: nat, scope: string, decls: seq<Decl>)
    requires n <= |methods| && s != "" && Declares(decls, s)
    ensures AllPlaced(MethodDecls(file, methods, s, n), scope, decls)
  {
    hide Declares, AllPlaced;
    if n == 0 {
      NothingPlaced(scope, decls);
    } else {
      MethodsPlaced(file, methods, s, n - 1, scope, decls);
      PlacedOne(MethodDecl(file, methods[n - 1], s), s, scope, decls);
      PlacedConcat(MethodDecls(file, methods, s, n - 1), [MethodDecl(file, methods[n - 1], s)], scope, decls);
    }
  }

  lemma DeclaresLast(ds: seq<Decl>, d: Decl, decls: seq<Decl>)
    requires Within(ds + [d], decls) && d.symbol.IsAggregate()
    ensures Declares(decls, d.fullName) && Within(ds, decls)
  {
    WithinConcat(ds, [d], decls);
    assert (ds + [d])[|ds|] == d;
    var i :| 0 <= i < |decls| && decls[i] == d;
  }

  lemma {:induction false} ServicesPlaced(file: string, services: seq<ServiceProto>, s: string, n: nat, scope: string, decls: seq<Decl>)
    requires n <= |services| && (s == scope || Declares(decls, s))
    requires Within(ServicesDecls(file, services, s, n), decls) && NamesValid(decls)
    ensures AllPlaced(ServicesDecls(file, services, s, n), scope, decls)
  {
    hide Declares, AllPlaced, MethodDecls, Within, NamesValid;
    if n == 0 {
      NothingPlaced(scope, decls);
    } else {
      var v := services[n - 1];
      WithinConcat(ServicesDecls(file, services, s, n - 1), ServiceDecls(file, v, s), decls);
      ServicesPlaced(file, services, s, n - 1, scope, decls);
      ServicePlaced(file, v, s, scope, decls);
      PlacedConcat(ServicesDecls(file, services, s, n - 1), ServiceDecls(file, v, s), scope, decls);
    }
  }

  lemma ServicePlaced(file: string, v: ServiceProto, s: string, scope: string, decls: seq<Decl>)
    requires s == scope || Declares(decls, s)
    requires Within(ServiceDecls(file, v, s), decls) && NamesValid(decls)
    ensures AllPlaced(ServiceDecls(file, v, s), scope, decls)
  {
    hide Declares, AllPlaced, MethodDecls, Within, NamesValid;
    var full := Join(s, v.name);
    var inner := MethodDecls(file, v.methods, full, |v.methods|);
    DeclaresLast(inner, ServiceDecl(file, v, s), decls);
    NameNotEmpty(inner, ServiceDecl(file, v, s), decls);
    MethodsPlaced(file, v.methods, full, |v.methods|, scope, decls);
    PlacedOne(ServiceDecl(file, v, s), s, scope, decls);
    PlacedConcat(inner, [ServiceDecl(file, v, s)], scope, decls);
  }

  lemma NameNotEmpty(ds: seq<Decl>, d: Decl, decls: seq<Decl>)
    requires Within(ds + [d], decls) && NamesValid(decls)
    ensures d.name != ""
  {
    assert (ds + [d])[|ds|] == d;
    var i :| 0 <= i < |decls| && decls[i] == d;
  }

  lemma {:induction false} MessagePlaced(file: string, m: MessageProto, s: string, scope: string, decls: seq<Decl>)
    requires (s == scope || Declares(decls, s)) && Within(MessageDecls(file, m, s), decls)
    ensures AllPlaced(MessageDecls(file, m, s), scope, decls)
    decreases m, |m.nested| + 1
  {
    hide Declares, AllPlaced, Within, FieldDecls, NestedDecls, EnumsDecls;
    var full := Join(s, m.name);
    var d1, d2 := FieldDecls(file, m.fields, full, |m.fields|), NestedDecls(file, m, full, |m.nested|);
    var d3, d4 := EnumsDecls(file, m.enums, full, |m.enums|), FieldDecls(file, m.extensions, full, |m.extensions|);
    DeclaresLast(d1 + d2 + d3 + d4, MessageDecl(file, m, s), decls);
    WithinConcat(d1 + d2 + d3, d4, decls);
    WithinConcat(d1 + d2, d3, decls);
    WithinConcat(d1, d2, decls);
    FieldsPlaced(file, m.fields, full, |m.fields|, scope, decls);
    NestedPlaced(file, m, full, |m.nested|, scope, decls);
    EnumsPlaced(file, m.enums, full, |m.enums|, scope, decls);
    FieldsPlaced(file, m.extensions, full, |m.extensions|, scope, decls);
    PlacedOne(MessageDecl(file, m, s), s, scope, decls);
    PlacedConcat(d1, d2, scope, decls);
    PlacedConcat(d1 + d2, d3, scope, decls);
    PlacedConcat(d1 + d2 + d3, d4, scope, decls);
    PlacedConcat(d1 + d2 + d3 + d4, [MessageDecl(file, m, s)], scope, decls);
  }

  lemma {:induction false} NestedPlaced(file: string, m: MessageProto, s: string, n: nat, scope: string, decls: seq<Decl>)
    requires n <= |m.nested| && (s == scope || Declares(decls, s)) && Within(NestedDecls(file, m, s, n), decls)
    ensures AllPlaced(NestedDecls(file, m, s, n), scope, decls)
    decreases m, n
  {
    hide Declares, AllPlaced, Within, MessageDecls;
    if n == 0 {
      NothingPlaced(scope, decls);
    } else {
      WithinConcat(NestedDecls(file, m, s, n - 1), MessageDecls(file, m.nested[n - 1], s), decls);
      NestedPlaced(file, m, s, n - 1, scope, decls);
      MessagePlaced(file, m.nested[n - 1], s, scope, decls);
      PlacedConcat(NestedDecls(file, m, s, n - 1), MessageDecls(file, m.nested[n - 1], s), scope, decls);
    }
  }

  lemma {:induction false} MessagesPlaced(f: FileProto, n: nat, decls: seq<Decl>)
    requires n <= |f.messages| && Within(MessagesDecls(f, n), decls)
    ensures AllPlaced(MessagesDecls(f, n), f.pkg, decls)
  {
    hide Declares, AllPlaced, Within, MessageDecls;
    if n == 0 {
      NothingPlaced(f.pkg, decls);
    } else {
      WithinConcat(MessagesDecls(f, n - 1), MessageDecls(f.Name(), f.messages[n - 1], f.pkg), decls);
      MessagesPlaced(f, n - 1, decls);
      MessagePlaced(f.Name(), f.messages[n - 1], f.pkg, f.pkg, decls);
      PlacedConcat(MessagesDecls(f, n - 1), MessageDecls(f.Name(), f.messages[n - 1], f.pkg), f.pkg, decls);
    }
  }

  /** Every declaration of a file lies in its package or directly in an aggregate of the file. */
  lemma FilePlaced(f: FileProto)
    requires NamesValid(FileDecls(f))
    ensures AllPlaced(FileDecls(f), f.pkg, FileDecls(f))
  {
    hide Declares, AllPlaced, Within, MessagesDecls, EnumsDecls, ServicesDecls, FieldDecls, NamesValid;
    var all := FileDecls(f);
    var d1, d2 := MessagesDecls(f, |f.messages|), EnumsDecls(f.Name(), f.enums, f.pkg, |f.enums|);
    var d3, d4 := ServicesDecls(f.Name(), f.services, f.pkg, |f.services|), FieldDecls(f.Name(), f.extensions, f.pkg, |f.extensions|);
    WithinSelf(all);
    WithinConcat(d1 + d2 + d3, d4, all);
    WithinConcat(d1 + d2, d3, all);
    WithinConcat(d1, d2, all);
    MessagesPlaced(f, |f.messages|, all);
    EnumsPlaced(f.Name(), f.enums, f.pkg, |f.enums|, f.pkg, all);
    ServicesPlaced(f.Name(), f.services, f.pkg, |f.services|, f.pkg, all);
    FieldsPlaced(f.Name(), f.extensions, f.pkg, |f.extensions|, f.pkg, all);
    PlacedConcat(d1, d2, f.pkg, all);
    PlacedConcat(d1 + d2, d3, f.pkg, all);
    PlacedConcat(d1 + d2 + d3, d4, f.pkg, all);
  }

  lemma WithinSelf(decls: seq<Decl>)
    ensures Within(decls, decls)
  {
  }

  // ---------- adding a file ----------

  /** What the table holds afterwards: what it held before, and each declaration under its own name. */
  lemma {:induction false} AddAllHolds(symbols: map<string, Symbol>, decls: seq<Decl>)
    requires AddAll(symbols, decls).Some?
    ensures var t := AddAll(symbols, decls).value;
      && Extends(symbols, t)
      && (forall i :: 0 <= i < |decls| ==> decls[i].fullName in t && t[decls[i].fullName] == decls[i].symbol)
      && (forall n :: n in t && n !in symbols ==> exists i :: 0 <= i < |decls| && decls[i].fullName == n)
  {
    if decls != [] {
      var k := |decls| - 1;
      AddAllHolds(symbols, decls[..k]);
      var u, t := AddAll(symbols, decls[..k]).value, AddAll(symbols, decls).value;
      forall i | 0 <= i < |decls| ensures decls[i].fullName in t && t[decls[i].fullName] == decls[i].symbol {
        if i < k { assert decls[..k][i] == decls[i]; }
      }
      forall n | n in t && n !in symbols ensures exists i :: 0 <= i < |decls| && decls[i].fullName == n {
        if n == decls[k].fullName {
        } else {
          var i :| 0 <= i < k && decls[..k][i].fullName == n;
          assert decls[i].fullName == n;
        }
      }
    }
  }

  /** The scopes of a declared name are there, outermost first. */
  lemma {:induction false} DeclClosed(symbols: map<string, Symbol>, scope: string, decls: seq<Decl>, n: string)
    requires Closed(symbols) && (scope == "" || HasScope(symbols, scope))
    requires AddAll(symbols, decls).Some? && NamesValid(decls) && AllPlaced(decls, scope, decls)
    requires n in AddAll(symbols, decls).value
    ensures ClosedAt(AddAll(symbols, decls).value, n)
    decreases |n|
  {
    var t := AddAll(symbols, decls).value;
    AddAllHolds(symbols, decls);
    hide AddAll, IsScopeOf, ValidIdentifier;
    if n in symbols {
      assert ClosedAt(symbols, n);
    } else {
      var i :| 0 <= i < |decls| && decls[i].fullName == n;
      var d := decls[i];
      assert Placed(d, scope, decls);
      var q :| PlacedIn(d, q, scope, decls);
      assert ValidIdentifier(d.name);
      if q != "" {
        QualifierShorter(q, d.name);
        assert HasScope(t, q);
        DeclClosed(symbols, scope, decls, q);
      }
      forall s | IsScopeOf(s, n) ensures HasScope(t, s) { ScopesOfJoin(q, d.name, s); }
    }
  }

  lemma QualifierShorter(q: string, name: string)
    requires ValidIdentifier(name)
    ensures |q| < |Join(q, name)|
  {
  }

  lemma DeclaredClosed(st: State, f: FileProto)
    requires Closed(st.symbols) && NamesValid(FileDecls(f)) && Declared(st, f).Some?
    ensures Closed(Declared(st, f).value)
  {
    hide FileDecls, AddAll, NamesValid, AddPackages, IsScopeOf, ClosedAt;
    if f.pkg != "" { PackagesClosed(st.symbols, st.symbols, f.Name(), f.pkg); }
    var symbols := WithPackage(st.symbols, f).value;
    FilePlaced(f);
    var t := Declared(st, f).value;
    forall n | n in t ensures ClosedAt(t, n) { DeclClosed(symbols, f.pkg, FileDecls(f), n); }
  }

  /** In every pool, each scope around a symbol is a symbol that may contain others. */
  lemma {:induction false} ScopesClosed(history: seq<FileProto>)
    requires Replay(history).Some?
    ensures Closed(Replay(history).value.symbols)
  {
    hide Replay, Declared, Linked, FileOk, ImportsOk, ServicesLinked, FileDecls, ClosedAt;
    if history == [] {
      ReplayNothing();
    } else {
      ReplayLast(history);
      ScopesClosed(history[..|history| - 1]);
      DeclaredClosed(Replay(history[..|history| - 1]).value, history[|history| - 1]);
    }
  }
}
