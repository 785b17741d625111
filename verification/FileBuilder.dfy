/** DescriptorBuilder: adds a file to the tables declaration by declaration, links it, and keeps it only if
    nothing was wrong. */
module FileBuilder {
  import opened Prelude
  import opened Descriptors
  import opened FieldNumbers
  import opened ScopedLookup
  import opened PoolState
  import opened PoolTables

  /** Whether an error was reported, and the symbols. */
  datatype View = View(errors: bool, symbols: map<string, Symbol>)

  /** From a to b, exactly these declarations were added, and an error was reported exactly if one of them is
      unacceptable or `ok` does not hold.  Once there is an error, nothing more is said. */
  ghost predicate Step(a: View, b: View, decls: seq<Decl>, ok: bool) {
    && (a.errors ==> b.errors)
    && (!a.errors ==> (b.errors <==> !(ok && NamesValid(decls) && AddAll(a.symbols, decls).Some?)))
    && (!b.errors ==> AddAll(a.symbols, decls) == Some(b.symbols))
  }

  lemma StepThen(a: View, b: View, c: View, d1: seq<Decl>, ok1: bool, d2: seq<Decl>, ok2: bool)
    requires Step(a, b, d1, ok1) && Step(b, c, d2, ok2)
    ensures Step(a, c, d1 + d2, ok1 && ok2)
  {
    hide AddAll, NamesValid;
    AddAllConcat(a.symbols, d1, d2);
    NamesValidConcat(d1, d2);
  }

  lemma NamesValidConcat(a: seq<Decl>, b: seq<Decl>)
    ensures NamesValid(a + b) <==> NamesValid(a) && NamesValid(b)
  {
    if NamesValid(a + b) {
      forall i | 0 <= i < |a| ensures ValidIdentifier(a[i].name) { assert (a + b)[i] == a[i]; }
      forall i | 0 <= i < |b| ensures ValidIdentifier(b[i].name) { assert (a + b)[|a| + i] == b[i]; }
    }
  }

  /** Nothing declared, but a check that may fail. */
  lemma StepCheck(a: View, b: View, ok: bool)
    requires b.errors == (a.errors || !ok) && b.symbols == a.symbols
    ensures Step(a, b, [], ok)
  {
  }

  /** One declaration: its name is checked and its key inserted unless it is taken. */
  lemma StepOne(a: View, b: View, d: Decl, ok: bool)
    requires b.errors == (a.errors || !ok || !ValidIdentifier(d.name) || d.fullName in a.symbols)
    requires b.symbols == if d.fullName in a.symbols then a.symbols else a.symbols[d.fullName := d.symbol]
    ensures Step(a, b, [d], ok)
  {
    assert [d][..0] == [];
    assert AddAll(a.symbols, []) == Some(a.symbols);
  }

  /** The insertion alone, for a declaration whose name has been checked before. */
  lemma StepInsert(a: View, b: View, d: Decl)
    requires ValidIdentifier(d.name) || a.errors
    requires b.errors == (a.errors || d.fullName in a.symbols)
    requires b.symbols == if d.fullName in a.symbols then a.symbols else a.symbols[d.fullName := d.symbol]
    ensures Step(a, b, [d], true)
  {
    assert [d][..0] == [];
    assert AddAll(a.symbols, []) == Some(a.symbols);
  }

  lemma StepRecheck(a: View, b: View, decls: seq<Decl>, ok: bool, ok': bool)
    requires Step(a, b, decls, ok) && (NamesValid(decls) ==> (ok <==> ok'))
    ensures Step(a, b, decls, ok')
  {
  }

  lemma LastNameValid(ds: seq<Decl>, d: Decl)
    ensures NamesValid(ds + [d]) ==> ValidIdentifier(d.name)
  {
    assert (ds + [d])[|ds|] == d;
  }

  /** A declaration that is checked first, has children, and is inserted last. */
  lemma StepAround(a: View, b: View, c: View, e: View, d: Decl, check: bool, inner: seq<Decl>, ok: bool)
    requires b.errors == (a.errors || !(check && ValidIdentifier(d.name))) && b.symbols == a.symbols
    requires Step(b, c, inner, ok)
    requires e.errors == (c.errors || d.fullName in c.symbols)
    requires e.symbols == if d.fullName in c.symbols then c.symbols else c.symbols[d.fullName := d.symbol]
    ensures Step(a, e, inner + [d], check && ok)
  {
    hide AddAll, NamesValid;
    var named := check && ValidIdentifier(d.name);
    StepCheck(a, b, named);
    StepThen(a, b, c, [], named, inner, ok);
    StepInsert(c, e, d) by { StepMonotone(b, c, inner, ok); }
    assert [] + inner == inner;
    StepThen(a, c, e, inner, named && ok, [d], true);
    LastNameValid(inner, d);
    StepRecheck(a, e, inner + [d], named && ok, check && ok);
  }

  lemma StepLastCheck(a: View, b: View, c: View, decls: seq<Decl>, ok: bool, check: bool)
    requires Step(a, b, decls, ok) && c.errors == (b.errors || !check) && c.symbols == b.symbols
    ensures Step(a, c, decls, ok && check)
  {
    StepCheck(b, c, check);
    StepThen(a, b, c, decls, ok, [], check);
    assert decls + [] == decls;
  }

  lemma StepMonotone(a: View, b: View, decls: seq<Decl>, ok: bool)
    requires Step(a, b, decls, ok)
    ensures a.errors ==> b.errors
  {
  }

  function MessageInner(file: string, m: MessageProto, full: string): seq<Decl> {
    FieldDecls(file, m.fields, full, |m.fields|)
    + NestedDecls(file, m, full, |m.nested|)
    + EnumsDecls(file, m.enums, full, |m.enums|)
    + FieldDecls(file, m.extensions, full, |m.extensions|)
  }

  predicate InnerOk(m: MessageProto) {
    && FieldsOk(m.fields, false, |m.fields|) && NestedOk(m, |m.nested|) && EnumsOk(m.enums, |m.enums|)
    && RangesAllowed(m.ranges, |m.ranges|) && FieldsOk(m.extensions, true, |m.extensions|)
  }

  lemma MessageParts(file: string, m: MessageProto, scope: string)
    ensures MessageDecls(file, m, scope) == MessageInner(file, m, Join(scope, m.name)) + [MessageDecl(file, m, scope)]
    ensures MessageOk(m) <==> InnerOk(m) && RangesClean(m)
  {
  }

  /** The children of a message in the order they are built. */
  lemma StepInner(file: string, m: MessageProto, full: string, v: seq<View>)
    requires |v| == 6
    requires Step(v[0], v[1], FieldDecls(file, m.fields, full, |m.fields|), FieldsOk(m.fields, false, |m.fields|))
    requires Step(v[1], v[2], NestedDecls(file, m, full, |m.nested|), NestedOk(m, |m.nested|))
    requires Step(v[2], v[3], EnumsDecls(file, m.enums, full, |m.enums|), EnumsOk(m.enums, |m.enums|))
    requires Step(v[3], v[4], [], RangesAllowed(m.ranges, |m.ranges|))
    requires Step(v[4], v[5], FieldDecls(file, m.extensions, full, |m.extensions|), FieldsOk(m.extensions, true, |m.extensions|))
    ensures Step(v[0], v[5], MessageInner(file, m, full), InnerOk(m))
  {
    hide Step, FieldDecls, NestedDecls, EnumsDecls, FieldsOk, NestedOk, EnumsOk, RangesAllowed;
    var d1, d2 := FieldDecls(file, m.fields, full, |m.fields|), NestedDecls(file, m, full, |m.nested|);
    var d3, d5 := EnumsDecls(file, m.enums, full, |m.enums|), FieldDecls(file, m.extensions, full, |m.extensions|);
    var ok1, ok2, ok3 := FieldsOk(m.fields, false, |m.fields|), NestedOk(m, |m.nested|), EnumsOk(m.enums, |m.enums|);
    var ok4, ok5 := RangesAllowed(m.ranges, |m.ranges|), FieldsOk(m.extensions, true, |m.extensions|);
    StepThen(v[0], v[1], v[2], d1, ok1, d2, ok2);
    StepThen(v[0], v[2], v[3], d1 + d2, ok1 && ok2, d3, ok3);
    StepThen(v[0], v[3], v[4], d1 + d2 + d3, ok1 && ok2 && ok3, [], ok4);
    assert d1 + d2 + d3 + [] == d1 + d2 + d3;
    StepThen(v[0], v[4], v[5], d1 + d2 + d3, ok1 && ok2 && ok3 && ok4, d5, ok5);
  }

  // ---------- packages and files ----------

  ghost predicate PackageStep(a: View, b: View, result: Option<map<string, Symbol>>) {
    && (a.errors ==> b.errors)
    && (!a.errors ==> (b.errors <==> result.None?))
    && (!b.errors ==> result == Some(b.symbols))
  }

  lemma LastPartOfRoot(name: string)
    requires !HasParent(name)
    ensures LastPart(name) == name
  {
  }

  lemma StepFile(f: FileProto, a: View, b: View, c: View, d: View, e: View)
    requires Step(a, b, MessagesDecls(f, |f.messages|), MessagesOk(f, |f.messages|))
    requires Step(b, c, EnumsDecls(f.Name(), f.enums, f.pkg, |f.enums|), EnumsOk(f.enums, |f.enums|))
    requires Step(c, d, ServicesDecls(f.Name(), f.services, f.pkg, |f.services|), true)
    requires Step(d, e, FieldDecls(f.Name(), f.extensions, f.pkg, |f.extensions|), FieldsOk(f.extensions, true, |f.extensions|))
    ensures Step(a, e, FileDecls(f), FileOk(f))
  {
    hide Step, MessagesDecls, EnumsDecls, ServicesDecls, FieldDecls, MessagesOk, EnumsOk, FieldsOk;
    var d1, d2 := MessagesDecls(f, |f.messages|), EnumsDecls(f.Name(), f.enums, f.pkg, |f.enums|);
    var d3, d4 := ServicesDecls(f.Name(), f.services, f.pkg, |f.services|), FieldDecls(f.Name(), f.extensions, f.pkg, |f.extensions|);
    var ok1, ok2, ok4 := MessagesOk(f, |f.messages|), EnumsOk(f.enums, |f.enums|), FieldsOk(f.extensions, true, |f.extensions|);
    StepThen(a, b, c, d1, ok1, d2, ok2);
    StepThen(a, c, d, d1 + d2, ok1 && ok2, d3, true);
    StepThen(a, d, e, d1 + d2 + d3, ok1 && ok2, d4, ok4);
  }

  // ---------- linking ----------

  datatype LinkView = LinkView(errors: bool, linking: Linking)

  /** From a to b exactly these links were made, and an error was reported exactly if one of them is unacceptable. */
  ghost predicate LinkStep(c: Context, a: LinkView, b: LinkView, links: seq<Link>) {
    && (a.errors ==> b.errors)
    && (!a.errors ==> (b.errors <==> LinkAll(c, a.linking, links).None?))
    && (!b.errors ==> LinkAll(c, a.linking, links) == Some(b.linking))
  }

  lemma LinkThen(c: Context, x: LinkView, y: LinkView, z: LinkView, l1: seq<Link>, l2: seq<Link>)
    requires LinkStep(c, x, y, l1) && LinkStep(c, y, z, l2)
    ensures LinkStep(c, x, z, l1 + l2)
  {
    hide LinkAll;
    LinkAllConcat(c, x.linking, l1, l2);
  }

  lemma LinkNothing(c: Context, x: LinkView)
    ensures LinkStep(c, x, x, [])
  {
  }

  lemma LinkSingle(c: Context, x: LinkView, y: LinkView, l: Link)
    requires x.errors ==> y.errors
    requires !x.errors ==> (y.errors <==> LinkOne(c, x.linking, l).None?)
    requires !y.errors ==> LinkOne(c, x.linking, l) == Some(y.linking)
    ensures LinkStep(c, x, y, [l])
  {
    hide LinkOne;
    assert [l][..0] == [];
    assert LinkAll(c, x.linking, []) == Some(x.linking);
  }

  /** The parts of a file that are linked, put together: accepted exactly if the pool accepts the file. */
  lemma CleanFromSteps(st: State, f: FileProto, a: View, b: View, c: View, d: View, x: LinkView, y: LinkView, last: bool)
    requires f.Name() !in st.files
    requires a == View(f.name.None?, st.symbols)
    requires PackageStep(a, b, WithPackage(st.symbols, f))
    requires c == View(b.errors || !ImportsOk(st, f, |f.imports|), b.symbols)
    requires Step(c, d, FileDecls(f), FileOk(f))
    requires x == LinkView(d.errors, Linking({}, st.extensions))
    requires LinkStep(ContextOf(st, f, d.symbols), x, y, FileLinks(f))
    requires last == (y.errors || !ServicesLinked(ContextOf(st, f, d.symbols), f, |f.services|))
    ensures !last <==> Clean(st, f)
    ensures Clean(st, f) ==> Installed(st, f) == State(d.symbols, st.files[f.Name() := f], y.linking.extensions)
  {
    hide AddAll, LinkAll, NamesValid, FileOk, ImportsOk, ServicesLinked, WithPackage, FileDecls, FileLinks;
  }

  class DescriptorBuilder {
    const tables: Tables
    const file: FileProto
    var hadErrors: bool
    var taken: set<ExtensionKey>   // the keys of fields_by_number_

    constructor (tables: Tables, file: FileProto)
      ensures this.tables == tables && this.file == file && !hadErrors && taken == {}
    {
      this.tables := tables;
      this.file := file;
      hadErrors := false;
      taken := {};
    }

    ghost function Now(): View
      reads this, tables
    {
      View(hadErrors, tables.symbolsByName)
    }

    method AddError()
      modifies this`hadErrors
      ensures hadErrors
    {
      hadErrors := true;
    }

    method ValidateSymbolName(name: string)
      modifies this`hadErrors
      ensures hadErrors == (old(hadErrors) || !ValidIdentifier(name))
    {
      if name == "" {
        AddError();
      } else {
        var i := 0;
        while i < |name|
          invariant 0 <= i <= |name|
          invariant hadErrors == (old(hadErrors) || exists k :: 0 <= k < i && !IdentifierChar(name[k]))
        {
          if !IdentifierChar(name[i]) {
            AddError();
          }
          i := i + 1;
        }
      }
    }

    /** The key must be a string of the pool. */
    method AddSymbol(key: nat, symbol: Symbol)
      requires tables.Valid() && key < |tables.strings|
      modifies this`hadErrors, tables
      ensures tables.Valid() && tables.Fixed() == old(tables.Fixed()) && tables.strings == old(tables.strings)
      ensures var name := tables.strings[key]; var was := old(tables.symbolsByName);
        && hadErrors == (old(hadErrors) || name in was)
        && tables.symbolsByName == if name in was then was else was[name := symbol]
    {
      var added := tables.AddSymbol(key, symbol);
      if !added {
        AddError();
      }
    }

    /** A declaration without children: name and full name are allocated, the name is validated, the symbol added. */
    method Declare(d: Decl)
      requires tables.Valid()
      modifies this`hadErrors, tables
      ensures tables.Valid() && tables.Fixed() == old(tables.Fixed()) && old(tables.strings) <= tables.strings
      ensures Step(old(Now()), Now(), [d], true)
    {
      hide Owned, Logged, LoggedExtensions, Step, ValidIdentifier, FieldOk;
      ghost var before := Now();
      var key := tables.AllocateString(d.fullName);
      ValidateSymbolName(d.name);
      var nameKey := tables.AllocateString(d.name);
      AddSymbol(key, d.symbol);
      StepOne(before, Now(), d, true);
    }

    /** BuildFieldOrExtension. */
    method BuildFieldOrExtension(f: FieldProto, scope: string, isExtension: bool)
      requires tables.Valid()
      modifies this`hadErrors, tables
      ensures tables.Valid() && tables.Fixed() == old(tables.Fixed()) && old(tables.strings) <= tables.strings
      ensures Step(old(Now()), Now(), [FieldDecl(file.Name(), f, scope)], FieldOk(f, isExtension))
    {
      hide Owned, Logged, LoggedExtensions, Step, ValidIdentifier, FieldOk;
      ghost var before := Now();
      var key := tables.AllocateString(Join(scope, f.name));
      ValidateSymbolName(f.name);
      var nameKey := tables.AllocateString(f.name);
      CheckField(f, isExtension);
      AddSymbol(key, FieldSymbol(file.Name()));
      StepOne(before, Now(), FieldDecl(file.Name(), f, scope), FieldOk(f, isExtension));
    }

    /** The checks of BuildFieldOrExtension on the number and the extendee. */
    method CheckField(f: FieldProto, isExtension: bool)
      modifies this`hadErrors
      ensures hadErrors == (old(hadErrors) || !FieldOk(f, isExtension))
    {
      if f.number <= 0 {
        AddError();
      } else if f.number > MAX_NUMBER {
        AddError();
      } else if f.number >= FIRST_RESERVED && f.number <= LAST_RESERVED {
        AddError();
      }
      if isExtension {
        if f.extendee.None? {
          AddError();
        }
      } else {
        if f.extendee.Some? {
          AddError();
        }
      }
    }

    method BuildFields(fields: seq<FieldProto>, scope: string, isExtension: bool)
      requires tables.Valid()
      modifies this`hadErrors, tables
      ensures tables.Valid() && tables.Fixed() == old(tables.Fixed()) && old(tables.strings) <= tables.strings
      ensures Step(old(Now()), Now(), FieldDecls(file.Name(), fields, scope, |fields|), FieldsOk(fields, isExtension, |fields|))
    {
      hide Owned, Logged, LoggedExtensions, Step, FieldOk, FieldDecl;
      ghost var before := Now();
      StepCheck(before, Now(), true);
      var i := 0;
      while i < |fields|
        invariant 0 <= i <= |fields|
        invariant tables.Valid() && tables.Fixed() == old(tables.Fixed()) && old(tables.strings) <= tables.strings
        invariant Step(before, Now(), FieldDecls(file.Name(), fields, scope, i), FieldsOk(fields, isExtension, i))
      {
        ghost var mid := Now();
        BuildFieldOrExtension(fields[i], scope, isExtension);
        StepThen(before, mid, Now(), FieldDecls(file.Name(), fields, scope, i), FieldsOk(fields, isExtension, i),
          [FieldDecl(file.Name(), fields[i], scope)], FieldOk(fields[i], isExtension));
        i := i + 1;
        assert FieldsOk(fields, isExtension, i) <==> FieldsOk(fields, isExtension, i - 1) && FieldOk(fields[i - 1], isExtension);
      }
    }

    method BuildEnumValues(values: seq<string>, scope: string)
      requires tables.Valid()
      modifies this`hadErrors, tables
      ensures tables.Valid() && tables.Fixed() == old(tables.Fixed()) && old(tables.strings) <= tables.strings
      ensures Step(old(Now()), Now(), ValueDecls(file.Name(), values, scope, |values|), true)
    {
      hide Owned, Logged, LoggedExtensions, Step, ValueDecl;
      ghost var before := Now();
      StepCheck(before, Now(), true);
      var i := 0;
      while i < |values|
        invariant 0 <= i <= |values|
        invariant tables.Valid() && tables.Fixed() == old(tables.Fixed()) && old(tables.strings) <= tables.strings
        invariant Step(before, Now(), ValueDecls(file.Name(), values, scope, i), true)
      {
        ghost var mid := Now();
        Declare(ValueDecl(file.Name(), values[i], scope));
        StepThen(before, mid, Now(), ValueDecls(file.Name(), values, scope, i), true,
          [ValueDecl(file.Name(), values[i], scope)], true);
        i := i + 1;
      }
    }

    method BuildEnum(e: EnumProto, scope: string)
      requires tables.Valid()
      modifies this`hadErrors, tables
      ensures tables.Valid() && tables.Fixed() == old(tables.Fixed()) && old(tables.strings) <= tables.strings
      ensures Step(old(Now()), Now(), EnumDecls(file.Name(), e, scope), e.values != [])
    {
      hide Owned, Logged, LoggedExtensions, Step, ValidIdentifier;
      ghost var before := Now();
      var key := tables.AllocateString(Join(scope, e.name));
      ValidateSymbolName(e.name);
      var nameKey := tables.AllocateString(e.name);
      if e.values == [] {
        AddError();
      }
      ghost var checked := Now();
      BuildEnumValues(e.values, scope);
      ghost var filled := Now();
      AddSymbol(key, EnumSymbol(file.Name()));
      StepAround(before, checked, filled, Now(), EnumDecl(file.Name(), e, scope), e.values != [],
        ValueDecls(file.Name(), e.values, scope, |e.values|), true);
    }

    method BuildEnums(enums: seq<EnumProto>, scope: string)
      requires tables.Valid()
      modifies this`hadErrors, tables
      ensures tables.Valid() && tables.Fixed() == old(tables.Fixed()) && old(tables.strings) <= tables.strings
      ensures Step(old(Now()), Now(), EnumsDecls(file.Name(), enums, scope, |enums|), EnumsOk(enums, |enums|))
    {
      hide Owned, Logged, LoggedExtensions, Step, EnumDecls;
      ghost var before := Now();
      StepCheck(before, Now(), true);
      var i := 0;
      while i < |enums|
        invariant 0 <= i <= |enums|
        invariant tables.Valid() && tables.Fixed() == old(tables.Fixed()) && old(tables.strings) <= tables.strings
        invariant Step(before, Now(), EnumsDecls(file.Name(), enums, scope, i), EnumsOk(enums, i))
      {
        ghost var mid := Now();
        BuildEnum(enums[i], scope);
        StepThen(before, mid, Now(), EnumsDecls(file.Name(), enums, scope, i), EnumsOk(enums, i),
          EnumDecls(file.Name(), enums[i], scope), enums[i].values != []);
        i := i + 1;
        assert EnumsOk(enums, i) <==> EnumsOk(enums, i - 1) && enums[i - 1].values != [];
      }
    }

    method BuildMethods(methods: seq<MethodProto>, service: string)
      requires tables.Valid()
      modifies this`hadErrors, tables
      ensures tables.Valid() && tables.Fixed() == old(tables.Fixed()) && old(tables.strings) <= tables.strings
      ensures Step(old(Now()), Now(), MethodDecls(file.Name(), methods, service, |methods|), true)
    {
      hide Owned, Logged, LoggedExtensions, Step, MethodDecl;
      ghost var before := Now();
      StepCheck(before, Now(), true);
      var i := 0;
      while i < |methods|
        invariant 0 <= i <= |methods|
        invariant tables.Valid() && tables.Fixed() == old(tables.Fixed()) && old(tables.strings) <= tables.strings
        invariant Step(before, Now(), MethodDecls(file.Name(), methods, service, i), true)
      {
        ghost var mid := Now();
        Declare(MethodDecl(file.Name(), methods[i], service));
        StepThen(before, mid, Now(), MethodDecls(file.Name(), methods, service, i), true,
          [MethodDecl(file.Name(), methods[i], service)], true);
        i := i + 1;
      }
    }

    method BuildService(s: ServiceProto, scope: string)
      requires tables.Valid()
      modifies this`hadErrors, tables
      ensures tables.Valid() && tables.Fixed() == old(tables.Fixed()) && old(tables.strings) <= tables.strings
      ensures Step(old(Now()), Now(), ServiceDecls(file.Name(), s, scope), true)
    {
      hide Owned, Logged, LoggedExtensions, Step, ValidIdentifier;
      ghost var before := Now();
      var key := tables.AllocateString(Join(scope, s.name));
      ValidateSymbolName(s.name);
      var nameKey := tables.AllocateString(s.name);
      ghost var checked := Now();
      BuildMethods(s.methods, Join(scope, s.name));
      ghost var filled := Now();
      AddSymbol(key, ServiceSymbol(file.Name()));
      StepAround(before, checked, filled, Now(), ServiceDecl(file.Name(), s, scope), true,
        MethodDecls(file.Name(), s.methods, Join(scope, s.name), |s.methods|), true);
    }

    method BuildServices(services: seq<ServiceProto>, scope: string)
      requires tables.Valid()
      modifies this`hadErrors, tables
      ensures tables.Valid() && tables.Fixed() == old(tables.Fixed()) && old(tables.strings) <= tables.strings
      ensures Step(old(Now()), Now(), ServicesDecls(file.Name(), services, scope, |services|), true)
    {
      hide Owned, Logged, LoggedExtensions, Step, ServiceDecls;
      ghost var before := Now();
      StepCheck(before, Now(), true);
      var i := 0;
      while i < |services|
        invariant 0 <= i <= |services|
        invariant tables.Valid() && tables.Fixed() == old(tables.Fixed()) && old(tables.strings) <= tables.strings
        invariant Step(before, Now(), ServicesDecls(file.Name(), services, scope, i), true)
      {
        ghost var mid := Now();
        BuildService(services[i], scope);
        StepThen(before, mid, Now(), ServicesDecls(file.Name(), services, scope, i), true,
          ServiceDecls(file.Name(), services[i], scope), true);
        i := i + 1;
      }
    }

    method BuildExtensionRange(r: Range)
      modifies this`hadErrors
      ensures hadErrors == (old(hadErrors) || !RangeAllowed(r))
    {
      if r.start <= 0 {
        AddError();
      }
      if r.end > MAX_NUMBER + 1 {
        AddError();
      }
      if r.start >= r.end {
        AddError();
      }
    }

    method BuildExtensionRanges(ranges: seq<Range>)
      modifies this`hadErrors
      ensures hadErrors == (old(hadErrors) || !RangesAllowed(ranges, |ranges|))
    {
      hide RangeAllowed;
      var i := 0;
      while i < |ranges|
        invariant 0 <= i <= |ranges|
        invariant hadErrors == (old(hadErrors) || !RangesAllowed(ranges, i))
      {
        BuildExtensionRange(ranges[i]);
        i := i + 1;
        assert RangesAllowed(ranges, i) <==> RangesAllowed(ranges, i - 1) && RangeAllowed(ranges[i - 1]);
      }
    }

    /** The two loops over the finished message. */
    method CheckNumbers(m: MessageProto)
      modifies this`hadErrors
      ensures hadErrors == (old(hadErrors) || !RangesClean(m))
    {
      hide FieldOutside, RangeApart;
      var inRange := CheckFields(m);
      if inRange {
        AddError();
      }
      var overlap := CheckRanges(m);
      if overlap {
        AddError();
      }
    }

    method BuildNested(m: MessageProto, full: string)
      requires tables.Valid()
      modifies this`hadErrors, tables
      ensures tables.Valid() && tables.Fixed() == old(tables.Fixed()) && old(tables.strings) <= tables.strings
      ensures Step(old(Now()), Now(), NestedDecls(file.Name(), m, full, |m.nested|), NestedOk(m, |m.nested|))
      decreases m, 0
    {
      hide Owned, Logged, LoggedExtensions, Step, MessageDecls, MessageOk;
      ghost var before := Now();
      StepCheck(before, Now(), true);
      var i := 0;
      while i < |m.nested|
        invariant 0 <= i <= |m.nested|
        invariant tables.Valid() && tables.Fixed() == old(tables.Fixed()) && old(tables.strings) <= tables.strings
        invariant Step(before, Now(), NestedDecls(file.Name(), m, full, i), NestedOk(m, i))
      {
        ghost var mid := Now();
        BuildMessage(m.nested[i], full);
        StepThen(before, mid, Now(), NestedDecls(file.Name(), m, full, i), NestedOk(m, i),
          MessageDecls(file.Name(), m.nested[i], full), MessageOk(m.nested[i]));
        i := i + 1;
      }
    }

    /** Fields, nested messages, enums, extension ranges and extensions, then the message itself, then the number checks. */
    method BuildMessage(m: MessageProto, scope: string)
      requires tables.Valid()
      modifies this`hadErrors, tables
      ensures tables.Valid() && tables.Fixed() == old(tables.Fixed()) && old(tables.strings) <= tables.strings
      ensures Step(old(Now()), Now(), MessageDecls(file.Name(), m, scope), MessageOk(m))
      decreases m, 1
    {
      hide Owned, Logged, LoggedExtensions, Step, ValidIdentifier, MessageDecls, MessageOk, InnerOk, MessageInner;
      ghost var before := Now();
      var full := Join(scope, m.name);
      var key := tables.AllocateString(full);
      ValidateSymbolName(m.name);
      var nameKey := tables.AllocateString(m.name);
      ghost var checked := Now();
      BuildChildren(m, full);
      ghost var filled := Now();
      AddSymbol(key, MessageSymbol(file.Name(), full, m));
      ghost var added := Now();
      StepAround(before, checked, filled, added, MessageDecl(file.Name(), m, scope), true,
        MessageInner(file.Name(), m, full), InnerOk(m));
      CheckNumbers(m);
      StepLastCheck(before, added, Now(), MessageInner(file.Name(), m, full) + [MessageDecl(file.Name(), m, scope)],
        InnerOk(m), RangesClean(m));
      MessageParts(file.Name(), m, scope);
    }

    method BuildChildren(m: MessageProto, full: string)
      requires tables.Valid()
      modifies this`hadErrors, tables
      ensures tables.Valid() && tables.Fixed() == old(tables.Fixed()) && old(tables.strings) <= tables.strings
      ensures Step(old(Now()), Now(), MessageInner(file.Name(), m, full), InnerOk(m))
      decreases m, 1, 0
    {
      hide Owned, Logged, LoggedExtensions, Step, MessageInner, InnerOk;
      ghost var v0 := Now();
      BuildFields(m.fields, full, false);
      ghost var v1 := Now();
      BuildNested(m, full);
      ghost var v2 := Now();
      BuildEnums(m.enums, full);
      ghost var v3 := Now();
      BuildExtensionRanges(m.ranges);
      ghost var v4 := Now();
      StepCheck(v3, v4, RangesAllowed(m.ranges, |m.ranges|));
      BuildFields(m.extensions, full, true);
      StepInner(file.Name(), m, full, [v0, v1, v2, v3, v4, Now()]);
    }

    /** Adds the package and, if it is new, the packages around it. */
    method AddPackage(key: nat)
      requires tables.Valid() && key < |tables.strings|
      modifies this`hadErrors, tables
      ensures tables.Valid() && tables.Fixed() == old(tables.Fixed()) && old(tables.strings) <= tables.strings
      ensures PackageStep(old(Now()), Now(), AddPackages(old(tables.symbolsByName), file.Name(), old(tables.strings[key])))
      decreases |tables.strings[key]|
    {
      hide Owned, Logged, LoggedExtensions, ValidIdentifier, HasParent, Parent, LastPart;
      var name := tables.strings[key];
      var added := tables.AddSymbol(key, PackageSymbol(file.Name()));
      if added {
        if !HasParent(name) {
          LastPartOfRoot(name);
          ValidateSymbolName(name);
        } else {
          var parentKey := tables.AllocateString(Parent(name));
          AddPackage(parentKey);
          ValidateSymbolName(LastPart(name));
        }
      } else {
        var existing := tables.symbolsByName[name];
        if !existing.PackageSymbol? {
          AddError();
        }
      }
    }

    /** The loop over the imports; all that can be loaded has been loaded before. */
    method CheckImports(ghost st: State)
      requires tables.filesByName == st.files[file.Name() := file]
      modifies this`hadErrors
      ensures hadErrors == (old(hadErrors) || !ImportsOk(st, file, |file.imports|))
    {
      var seen: set<string> := {};
      var i := 0;
      while i < |file.imports|
        invariant 0 <= i <= |file.imports|
        invariant forall d :: d in seen <==> d in file.imports[..i]
        invariant hadErrors == (old(hadErrors) || !ImportsOk(st, file, i))
      {
        if file.imports[i] in seen {
          AddError();
        }
        if file.imports[i] !in tables.filesByName {
          AddError();
        }
        assert file.imports[..i + 1] == file.imports[..i] + [file.imports[i]];
        seen := seen + {file.imports[i]};
        i := i + 1;
        assert ImportsOk(st, file, i) <==> ImportsOk(st, file, i - 1) && ImportOk(st, file, i - 1);
      }
    }

    method BuildMessages()
      requires tables.Valid()
      modifies this`hadErrors, tables
      ensures tables.Valid() && tables.Fixed() == old(tables.Fixed()) && old(tables.strings) <= tables.strings
      ensures Step(old(Now()), Now(), MessagesDecls(file, |file.messages|), MessagesOk(file, |file.messages|))
    {
      hide Owned, Logged, LoggedExtensions, Step, MessageDecls, MessageOk;
      ghost var before := Now();
      StepCheck(before, Now(), true);
      var i := 0;
      while i < |file.messages|
        invariant 0 <= i <= |file.messages|
        invariant tables.Valid() && tables.Fixed() == old(tables.Fixed()) && old(tables.strings) <= tables.strings
        invariant Step(before, Now(), MessagesDecls(file, i), MessagesOk(file, i))
      {
        ghost var mid := Now();
        BuildMessage(file.messages[i], file.pkg);
        StepThen(before, mid, Now(), MessagesDecls(file, i), MessagesOk(file, i),
          MessageDecls(file.Name(), file.messages[i], file.pkg), MessageOk(file.messages[i]));
        i := i + 1;
        assert MessagesOk(file, i) <==> MessagesOk(file, i - 1) && MessageOk(file.messages[i - 1]);
      }
    }

    /** The children of the file in the order they are built. */
    method ConvertChildren()
      requires tables.Valid()
      modifies this`hadErrors, tables
      ensures tables.Valid() && tables.Fixed() == old(tables.Fixed()) && old(tables.strings) <= tables.strings
      ensures Step(old(Now()), Now(), FileDecls(file), FileOk(file))
    {
      hide Owned, Logged, LoggedExtensions, Step, FileDecls, FileOk;
      ghost var v0 := Now();
      BuildMessages();
      ghost var v1 := Now();
      BuildEnums(file.enums, file.pkg);
      ghost var v2 := Now();
      BuildServices(file.services, file.pkg);
      ghost var v3 := Now();
      BuildFields(file.extensions, file.pkg, true);
      StepFile(file, v0, v1, v2, v3, Now());
    }

    // ---------- cross-linking ----------

    ghost function Links(): LinkView
      reads this, tables
    {
      LinkView(hadErrors, Linking(taken, tables.extensions))
    }

    function Here(): Context
      reads tables
    {
      Context(tables.symbolsByName, tables.filesByName, file)
    }

    /** The part of CrossLinkField that finds the extendee; None after an error that ends the linking of the field. */
    method LinkExtendee(l: Link) returns (container: Option<string>)
      modifies this`hadErrors
      ensures hadErrors == (old(hadErrors) || Container(Here(), l).None?)
      ensures Container(Here(), l).Some? ==> container == Container(Here(), l)
    {
      hide Lookup;
      if l.field.extendee.None? {
        return Some(l.containing);
      }
      var extendee := LookupSymbolNoPlaceholder(Here(), l.field.extendee.value, l.fullName, LookupAll);
      if extendee.NullSymbol? {
        AddError();
        return None;
      } else if !extendee.MessageSymbol? {
        AddError();
        return None;
      }
      var declared := IsExtensionNumberLoop(extendee.message, l.field.number);
      if !declared {
        AddError();
      }
      return Some(extendee.fullName);
    }

    /** The part of CrossLinkField that finds the type; false after an error that ends the linking of the field. */
    method LinkType(l: Link) returns (goOn: bool)
      modifies this`hadErrors
      ensures hadErrors == (old(hadErrors) || !TypeOk(Here(), l))
      ensures TypeOk(Here(), l) ==> goOn
    {
      hide Lookup;
      if l.field.typeName.Some? {
        var t := LookupSymbolNoPlaceholder(Here(), l.field.typeName.value, l.fullName, LookupTypes);
        if t.NullSymbol? {
          AddError();
          return false;
        }
        var fieldType := l.field.fieldType;
        if fieldType.Unset? {
          if t.MessageSymbol? {
            fieldType := MessageType;
          } else if t.EnumSymbol? {
            fieldType := EnumType;
          } else {
            AddError();
            return false;
          }
        }
        if fieldType.MessageType? {
          if !t.MessageSymbol? {
            AddError();
            return false;
          }
        } else if fieldType.EnumType? {
          if !t.EnumSymbol? {
            AddError();
            return false;
          }
        } else {
          AddError();
        }
      } else if l.field.fieldType.MessageType? || l.field.fieldType.EnumType? {
        AddError();
      }
      return true;
    }

    /** A field is an extension here exactly if it has an extendee: any other has been reported when it was built. */
    method CrossLinkField(l: Link)
      requires tables.Valid()
      modifies this`hadErrors, this`taken, tables`extensions, tables`extensionsAfterCheckpoint
      ensures tables.Valid() && LinkStep(Here(), old(Links()), Links(), [l])
    {
      hide Owned, Logged, LoggedExtensions, Container, TypeOk, LinkAll, LinkStep;
      ghost var before := Links();
      var container := LinkExtendee(l);
      if container.None? {
        LinkSingle(Here(), before, Links(), l);
        return;
      }
      var goOn := LinkType(l);
      if !goOn {
        LinkSingle(Here(), before, Links(), l);
        return;
      }
      var key := (container.value, l.field.number);
      if key in taken {
        AddError();
      } else {
        taken := taken + {key};
      }
      if l.field.extendee.Some? {
        var added := tables.AddExtension(key, l.fullName);
      }
      LinkSingle(Here(), before, Links(), l);
    }

    method CrossLinkFields(fields: seq<FieldProto>, scope: string, containing: string)
      requires tables.Valid()
      modifies this`hadErrors, this`taken, tables`extensions, tables`extensionsAfterCheckpoint
      ensures tables.Valid() && LinkStep(Here(), old(Links()), Links(), FieldLinks(fields, scope, containing, |fields|))
    {
      hide Owned, Logged, LoggedExtensions, LinkStep;
      ghost var before, c := Links(), Here();
      LinkNothing(c, before);
      var i := 0;
      while i < |fields|
        invariant 0 <= i <= |fields| && tables.Valid() && Here() == c
        invariant LinkStep(c, before, Links(), FieldLinks(fields, scope, containing, i))
      {
        ghost var mid := Links();
        CrossLinkField(Link(fields[i], Join(scope, fields[i].name), containing));
        LinkThen(c, before, mid, Links(), FieldLinks(fields, scope, containing, i),
          [Link(fields[i], Join(scope, fields[i].name), containing)]);
        i := i + 1;
      }
    }

    method CrossLinkNested(m: MessageProto, full: string)
      requires tables.Valid()
      modifies this`hadErrors, this`taken, tables`extensions, tables`extensionsAfterCheckpoint
      ensures tables.Valid() && LinkStep(Here(), old(Links()), Links(), NestedLinks(m, full, |m.nested|))
      decreases m, 0
    {
      hide Owned, Logged, LoggedExtensions, LinkStep, MessageLinks;
      ghost var before, c := Links(), Here();
      LinkNothing(c, before);
      var i := 0;
      while i < |m.nested|
        invariant 0 <= i <= |m.nested| && tables.Valid() && Here() == c
        invariant LinkStep(c, before, Links(), NestedLinks(m, full, i))
      {
        ghost var mid := Links();
        CrossLinkMessage(m.nested[i], full);
        LinkThen(c, before, mid, Links(), NestedLinks(m, full, i), MessageLinks(m.nested[i], full));
        i := i + 1;
      }
    }

    /** Nested messages, then fields, then extensions. */
    method CrossLinkMessage(m: MessageProto, scope: string)
      requires tables.Valid()
      modifies this`hadErrors, this`taken, tables`extensions, tables`extensionsAfterCheckpoint
      ensures tables.Valid() && LinkStep(Here(), old(Links()), Links(), MessageLinks(m, scope))
      decreases m, 1
    {
      hide Owned, Logged, LoggedExtensions, LinkStep, NestedLinks, FieldLinks;
      ghost var before, c := Links(), Here();
      var full := Join(scope, m.name);
      CrossLinkNested(m, full);
      ghost var v1 := Links();
      CrossLinkFields(m.fields, full, full);
      ghost var v2 := Links();
      LinkThen(c, before, v1, v2, NestedLinks(m, full, |m.nested|), FieldLinks(m.fields, full, full, |m.fields|));
      CrossLinkFields(m.extensions, full, full);
      LinkThen(c, before, v2, Links(), NestedLinks(m, full, |m.nested|) + FieldLinks(m.fields, full, full, |m.fields|),
        FieldLinks(m.extensions, full, full, |m.extensions|));
    }

    method CrossLinkMessages()
      requires tables.Valid()
      modifies this`hadErrors, this`taken, tables`extensions, tables`extensionsAfterCheckpoint
      ensures tables.Valid() && LinkStep(Here(), old(Links()), Links(), MessagesLinks(file, |file.messages|))
    {
      hide Owned, Logged, LoggedExtensions, LinkStep, MessageLinks;
      ghost var before, c := Links(), Here();
      LinkNothing(c, before);
      var i := 0;
      while i < |file.messages|
        invariant 0 <= i <= |file.messages| && tables.Valid() && Here() == c
        invariant LinkStep(c, before, Links(), MessagesLinks(file, i))
      {
        ghost var mid := Links();
        CrossLinkMessage(file.messages[i], file.pkg);
        LinkThen(c, before, mid, Links(), MessagesLinks(file, i), MessageLinks(file.messages[i], file.pkg));
        i := i + 1;
      }
    }

    method CrossLinkMethod(m: MethodProto, service: string)
      modifies this`hadErrors
      ensures hadErrors == (old(hadErrors) || !MethodLinked(Here(), m, service))
    {
      hide Lookup;
      var input := LookupSymbolNoPlaceholder(Here(), m.input, service + "." + m.name, LookupAll);
      if input.NullSymbol? {
        AddError();
      } else if !input.MessageSymbol? {
        AddError();
      }
      var output := LookupSymbolNoPlaceholder(Here(), m.output, service + "." + m.name, LookupAll);
      if output.NullSymbol? {
        AddError();
      } else if !output.MessageSymbol? {
        AddError();
      }
    }

    method CrossLinkService(s: ServiceProto)
      modifies this`hadErrors
      ensures hadErrors == (old(hadErrors) || !ServiceLinked(Here(), s, file.pkg, |s.methods|))
    {
      hide MethodLinked;
      var i := 0;
      while i < |s.methods|
        invariant 0 <= i <= |s.methods|
        invariant hadErrors == (old(hadErrors) || !ServiceLinked(Here(), s, file.pkg, i))
      {
        CrossLinkMethod(s.methods[i], Join(file.pkg, s.name));
        i := i + 1;
        assert ServiceLinked(Here(), s, file.pkg, i) <==>
          ServiceLinked(Here(), s, file.pkg, i - 1) && MethodLinked(Here(), s.methods[i - 1], Join(file.pkg, s.name));
      }
    }

    method CrossLinkServices()
      modifies this`hadErrors
      ensures hadErrors == (old(hadErrors) || !ServicesLinked(Here(), file, |file.services|))
    {
      hide ServiceLinked;
      var i := 0;
      while i < |file.services|
        invariant 0 <= i <= |file.services|
        invariant hadErrors == (old(hadErrors) || !ServicesLinked(Here(), file, i))
      {
        CrossLinkService(file.services[i]);
        i := i + 1;
        assert ServicesLinked(Here(), file, i) <==>
          ServicesLinked(Here(), file, i - 1) && ServiceLinked(Here(), file.services[i - 1], file.pkg, |file.services[i - 1].methods|);
      }
    }

    /** CrossLinkFile, up to the services: messages, then extensions. */
    method CrossLinkMessagesAndExtensions()
      requires tables.Valid()
      modifies this`hadErrors, this`taken, tables`extensions, tables`extensionsAfterCheckpoint
      ensures tables.Valid() && LinkStep(Here(), old(Links()), Links(), FileLinks(file))
    {
      hide Owned, Logged, LoggedExtensions, LinkStep, MessagesLinks, FieldLinks;
      ghost var before, c := Links(), Here();
      CrossLinkMessages();
      ghost var mid := Links();
      CrossLinkFields(file.extensions, file.pkg, file.pkg);
      LinkThen(c, before, mid, Links(), MessagesLinks(file, |file.messages|), FieldLinks(file.extensions, file.pkg, file.pkg, |file.extensions|));
    }

    // ---------- the transaction ----------

    ghost function Pool(): State
      reads tables
    {
      State(tables.symbolsByName, tables.filesByName, tables.extensions)
    }

    /** Everything BuildFile does to the tables once the file itself is entered. */
    method Fill(packageKey: nat, ghost st: State)
      requires tables.Valid() && packageKey < |tables.strings| && tables.strings[packageKey] == file.pkg
      requires hadErrors == file.name.None? && taken == {} && file.Name() !in st.files
      requires Pool() == State(st.symbols, st.files[file.Name() := file], st.extensions)
      modifies this, tables
      ensures tables.Valid() && tables.base == old(tables.base)
      ensures tables.pendingFiles == old(tables.pendingFiles) && tables.knownBadFiles == old(tables.knownBadFiles)
      ensures hadErrors <==> !Clean(st, file)
      ensures !hadErrors ==> Pool() == Installed(st, file)
    {
      hide Owned, Logged, LoggedExtensions, Step, LinkStep, PackageStep, Clean, ImportsOk, ServicesLinked, AddPackages, FileDecls, FileOk, FileLinks;
      ghost var a := Now();
      PackageNothing(a);
      if file.pkg != "" {
        AddPackage(packageKey);
      }
      ghost var b := Now();
      CheckImports(st);
      ghost var c := Now();
      ConvertChildren();
      ghost var d, x := Now(), Links();
      CrossLinkMessagesAndExtensions();
      ghost var y := Links();
      CrossLinkServices();
      CleanFromSteps(st, file, a, b, c, d, x, y, hadErrors);
    }

    /** BuildFile from the checkpoint on, when all imports that can be loaded are loaded.  The file is accepted exactly
        if it is clean, and then the pool holds all of it; otherwise every table is as it was. */
    method BuildLoaded() returns (accepted: bool)
      requires tables.Valid() && !hadErrors && taken == {}
      modifies this, tables
      ensures tables.Valid() && tables.base == tables.Current()
      ensures tables.pendingFiles == old(tables.pendingFiles) && tables.knownBadFiles == old(tables.knownBadFiles)
      ensures accepted <==> Clean(old(Pool()), file)
      ensures accepted ==> Pool() == Installed(old(Pool()), file)
      ensures !accepted ==> tables.Current() == old(tables.Current())
    {
      hide Owned, Logged, LoggedExtensions, Clean, Installed;
      ghost var st := Pool();
      var added, packageKey := Enter();
      if !added {
        AddError();
        TakenName(st, file);
      } else {
        Fill(packageKey, st);
      }
      accepted := Finish();
    }

    /** Checkpoint, then the file itself. */
    method Enter() returns (added: bool, packageKey: nat)
      requires tables.Valid() && !hadErrors
      modifies this`hadErrors, tables
      ensures tables.Valid() && tables.base == old(tables.Current())
      ensures tables.pendingFiles == old(tables.pendingFiles) && tables.knownBadFiles == old(tables.knownBadFiles)
      ensures packageKey < |tables.strings| && tables.strings[packageKey] == file.pkg
      ensures hadErrors == file.name.None? && added == (file.Name() !in old(tables.filesByName))
      ensures added ==> Pool() == State(old(tables.symbolsByName), old(tables.filesByName)[file.Name() := file], old(tables.extensions))
    {
      hide Owned, Logged, LoggedExtensions;
      tables.Checkpoint();
      if file.name.None? {
        AddError();
      }
      var nameKey := tables.AllocateString(file.Name());
      packageKey := tables.AllocateString(file.pkg);
      added := tables.AddFile(nameKey, file);
    }

    /** The transaction ends: rolled back after an error, else the new checkpoint. */
    method Finish() returns (accepted: bool)
      requires tables.Valid()
      modifies tables
      ensures tables.Valid() && tables.base == tables.Current() && accepted == !hadErrors
      ensures tables.pendingFiles == old(tables.pendingFiles) && tables.knownBadFiles == old(tables.knownBadFiles)
      ensures tables.Current() == if accepted then old(tables.Current()) else old(tables.base)
    {
      hide Owned, Logged, LoggedExtensions;
      if hadErrors {
        tables.Rollback();
        return false;
      } else {
        tables.Checkpoint();
        return true;
      }
    }
  }

  lemma TakenName(st: State, f: FileProto)
    requires f.Name() in st.files
    ensures !Clean(st, f)
  {
  }

  lemma PackageNothing(a: View)
    ensures PackageStep(a, a, Some(a.symbols))
  {
  }
}
