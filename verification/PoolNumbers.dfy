/** Field-number ownership in a whole pool: what one accepted file guarantees about its messages holds for every
    message that an extension, from whatever file, may extend. */
module PoolNumbers {
  import opened Prelude
  import opened Descriptors
  import opened FieldNumbers
  import opened ScopedLookup
  import opened PoolState
  import opened PoolHistory
  import opened ScopeClosure

  // ---------- the numbers taken while linking ----------

  lemma LinkTakes(c: Context, s: Linking, l: Link)
    requires LinkOne(c, s, l).Some?
    ensures s.taken <= LinkOne(c, s, l).value.taken
    ensures l.field.extendee.None? ==>
      (l.containing, l.field.number) !in s.taken && (l.containing, l.field.number) in LinkOne(c, s, l).value.taken
  {
    hide TypeOk;
  }

  /** The fields of one message get different numbers, because each takes the pair of message and number. */
  lemma {:induction false} FieldsTaken(c: Context, s: Linking, fields: seq<FieldProto>, scope: string, full: string, n: nat, i: nat)
    requires n <= |fields| && LinkAll(c, s, FieldLinks(fields, scope, full, n)).Some?
    requires i < n && fields[i].extendee.None?
    ensures (full, fields[i].number) in LinkAll(c, s, FieldLinks(fields, scope, full, n)).value.taken
    ensures i < n - 1 && fields[n - 1].extendee.None? ==> fields[i].number != fields[n - 1].number
  {
    hide LinkOne;
    var links, l := FieldLinks(fields, scope, full, n), Link(fields[n - 1], Join(scope, fields[n - 1].name), full);
    LinksLength(fields, scope, full, n - 1);
    assert links[..n - 1] == FieldLinks(fields, scope, full, n - 1) && links[n - 1] == l;
    LinkTakes(c, LinkAll(c, s, links[..n - 1]).value, l);
    if i < n - 1 { FieldsTaken(c, s, fields, scope, full, n - 1, i); }
  }

  lemma {:induction false} LinksLength(fields: seq<FieldProto>, scope: string, full: string, n: nat)
    requires n <= |fields|
    ensures |FieldLinks(fields, scope, full, n)| == n
  {
    if n > 0 { LinksLength(fields, scope, full, n - 1); }
  }

  lemma {:induction false} NumbersDistinct(c: Context, s: Linking, fields: seq<FieldProto>, scope: string, full: string, n: nat)
    requires n <= |fields| && LinkAll(c, s, FieldLinks(fields, scope, full, n)).Some?
    requires forall i :: 0 <= i < n ==> fields[i].extendee.None?
    ensures forall i, j :: 0 <= i < j < n ==> fields[i].number != fields[j].number
  {
    hide LinkOne;
    if n > 0 {
      var links := FieldLinks(fields, scope, full, n);
      LinksLength(fields, scope, full, n - 1);
      assert links[..n - 1] == FieldLinks(fields, scope, full, n - 1);
      NumbersDistinct(c, s, fields, scope, full, n - 1);
      forall i | 0 <= i < n - 1 ensures fields[i].number != fields[n - 1].number {
        FieldsTaken(c, s, fields, scope, full, n, i);
      }
    }
  }

  // ---------- one file ----------

  lemma LinkParts(c: Context, s: Linking, a: seq<Link>, b: seq<Link>) returns (t: Linking)
    requires LinkAll(c, s, a + b).Some?
    ensures LinkAll(c, s, a) == Some(t) && LinkAll(c, t, b).Some?
  {
    LinkAllConcat(c, s, a, b);
    t := LinkAll(c, s, a).value;
  }

  /** All messages declared by these declarations have passed every number check. */
  ghost predicate AllChecked(decls: seq<Decl>) {
    forall i :: 0 <= i < |decls| ==> DeclChecked(decls[i])
  }

  ghost predicate DeclChecked(d: Decl) {
    d.symbol.MessageSymbol? ==> d.symbol.fullName == d.fullName && NumbersChecked(d.symbol.message)
  }

  lemma CheckedConcat(a: seq<Decl>, b: seq<Decl>)
    requires AllChecked(a) && AllChecked(b)
    ensures AllChecked(a + b)
  {
  }

  lemma {:induction false} NoMessagesInFields(file: string, fields: seq<FieldProto>, scope: string, n: nat)
    requires n <= |fields|
    ensures AllChecked(FieldDecls(file, fields, scope, n))
  {
    if n > 0 { NoMessagesInFields(file, fields, scope, n - 1); }
  }

  lemma {:induction false} NoMessagesInValues(file: string, values: seq<string>, scope: string, n: nat)
    requires n <= |values|
    ensures AllChecked(ValueDecls(file, values, scope, n))
  {
    if n > 0 { NoMessagesInValues(file, values, scope, n - 1); }
  }

  lemma {:induction false} NoMessagesInEnums(file: string, enums: seq<EnumProto>, scope: string, n: nat)
    requires n <= |enums|
    ensures AllChecked(EnumsDecls(file, enums, scope, n))
  {
    if n > 0 {
      NoMessagesInEnums(file, enums, scope, n - 1);
      NoMessagesInValues(file, enums[n - 1].values, scope, |enums[n - 1].values|);
    }
  }

  lemma {:induction false} NoMessagesInMethods(file: string, methods: seq<MethodProto>, scope: string, n: nat)
    requires n <= |methods|
    ensures AllChecked(MethodDecls(file, methods, scope, n))
  {
    if n > 0 { NoMessagesInMethods(file, methods, scope, n - 1); }
  }

  lemma {:induction false} NoMessagesInServices(file: string, services: seq<ServiceProto>, scope: string, n: nat)
    requires n <= |services|
    ensures AllChecked(ServicesDecls(file, services, scope, n))
  {
    if n > 0 {
      NoMessagesInServices(file, services, scope, n - 1);
      var v := services[n - 1];
      NoMessagesInMethods(file, v.methods, Join(scope, v.name), |v.methods|);
    }
  }

  lemma MessageChecked(c: Context, s: Linking, m: MessageProto, full: string)
    requires MessageOk(m) && LinkAll(c, s, FieldLinks(m.fields, full, full, |m.fields|)).Some?
    ensures NumbersChecked(m)
  {
    hide LinkAll, FieldLinks, NestedOk, EnumsOk, RangeAllowed, NumberAllowed;
    forall i | 0 <= i < |m.fields| ensures NumberAllowed(m.fields[i].number) && m.fields[i].extendee.None? {
      assert FieldOk(m.fields[i], false);
    }
    NumbersDistinct(c, s, m.fields, full, full, |m.fields|);
  }

  lemma {:induction false} TreeChecked(c: Context, s: Linking, file: string, m: MessageProto, scope: string)
    requires MessageOk(m) && LinkAll(c, s, MessageLinks(m, scope)).Some?
    ensures AllChecked(MessageDecls(file, m, scope))
    decreases m, |m.nested| + 1
  {
    hide AllChecked, LinkAll, FieldLinks, NestedLinks, FieldDecls, NestedDecls, EnumsDecls, NumbersChecked;
    var full := Join(scope, m.name);
    var l1, l2 := NestedLinks(m, full, |m.nested|), FieldLinks(m.fields, full, full, |m.fields|);
    var l3 := FieldLinks(m.extensions, full, full, |m.extensions|);
    var t2 := LinkParts(c, s, l1 + l2, l3);
    var t1 := LinkParts(c, s, l1, l2);
    MessageChecked(c, t1, m, full);
    MessageOkNested(m);
    NestedChecked(c, s, file, m, full, |m.nested|);
    NoMessagesInFields(file, m.fields, full, |m.fields|);
    NoMessagesInEnums(file, m.enums, full, |m.enums|);
    NoMessagesInFields(file, m.extensions, full, |m.extensions|);
    var d1, d2 := FieldDecls(file, m.fields, full, |m.fields|), NestedDecls(file, m, full, |m.nested|);
    var d3, d4 := EnumsDecls(file, m.enums, full, |m.enums|), FieldDecls(file, m.extensions, full, |m.extensions|);
    CheckedConcat(d1, d2);
    CheckedConcat(d1 + d2, d3);
    CheckedConcat(d1 + d2 + d3, d4);
    CheckedOne(MessageDecl(file, m, scope));
    CheckedConcat(d1 + d2 + d3 + d4, [MessageDecl(file, m, scope)]);
  }

  lemma MessageOkNested(m: MessageProto)
    requires MessageOk(m)
    ensures NestedOk(m, |m.nested|)
  {
  }

  lemma CheckedOne(d: Decl)
    requires DeclChecked(d)
    ensures AllChecked([d])
  {
  }

  lemma {:induction false} NestedChecked(c: Context, s: Linking, file: string, m: MessageProto, scope: string, n: nat)
    requires n <= |m.nested| && NestedOk(m, n) && LinkAll(c, s, NestedLinks(m, scope, n)).Some?
    ensures AllChecked(NestedDecls(file, m, scope, n))
    decreases m, n
  {
    hide LinkAll, MessageLinks, MessageDecls, MessageOk, DeclChecked;
    if n > 0 {
      var t := LinkParts(c, s, NestedLinks(m, scope, n - 1), MessageLinks(m.nested[n - 1], scope));
      NestedChecked(c, s, file, m, scope, n - 1);
      TreeChecked(c, t, file, m.nested[n - 1], scope);
    }
  }

  lemma {:induction false} MessagesChecked(c: Context, s: Linking, f: FileProto, n: nat)
    requires n <= |f.messages| && MessagesOk(f, n) && LinkAll(c, s, MessagesLinks(f, n)).Some?
    ensures AllChecked(MessagesDecls(f, n))
  {
    hide LinkAll, MessageLinks, MessageDecls, MessageOk, DeclChecked;
    if n > 0 {
      var t := LinkParts(c, s, MessagesLinks(f, n - 1), MessageLinks(f.messages[n - 1], f.pkg));
      MessagesChecked(c, s, f, n - 1);
      TreeChecked(c, t, f.Name(), f.messages[n - 1], f.pkg);
    }
  }

  /** Every message a clean file declares passes all number checks. */
  lemma FileChecked(st: State, f: FileProto)
    requires Clean(st, f)
    ensures AllChecked(FileDecls(f))
  {
    hide AllChecked, LinkAll, MessagesLinks, FieldLinks, Declared, MessagesDecls, EnumsDecls, ServicesDecls, FieldDecls, MessagesOk,
      ImportsOk, NamesValid, ServicesLinked;
    var symbols := Declared(st, f).value;
    var c, s := ContextOf(st, f, symbols), Linking({}, st.extensions);
    var t := LinkParts(c, s, MessagesLinks(f, |f.messages|), FieldLinks(f.extensions, f.pkg, f.pkg, |f.extensions|));
    MessagesChecked(c, s, f, |f.messages|);
    NoMessagesInEnums(f.Name(), f.enums, f.pkg, |f.enums|);
    NoMessagesInServices(f.Name(), f.services, f.pkg, |f.services|);
    NoMessagesInFields(f.Name(), f.extensions, f.pkg, |f.extensions|);
    var d1, d2 := MessagesDecls(f, |f.messages|), EnumsDecls(f.Name(), f.enums, f.pkg, |f.enums|);
    var d3, d4 := ServicesDecls(f.Name(), f.services, f.pkg, |f.services|), FieldDecls(f.Name(), f.extensions, f.pkg, |f.extensions|);
    CheckedConcat(d1, d2);
    CheckedConcat(d1 + d2, d3);
    CheckedConcat(d1 + d2 + d3, d4);
  }

  // ---------- the whole pool ----------

  /** Each message symbol stands under its own name, and its numbers are checked. */
  ghost predicate SymbolsChecked(symbols: map<string, Symbol>) {
    forall n :: n in symbols ==> SymbolChecked(n, symbols[n])
  }

  ghost predicate SymbolChecked(n: string, s: Symbol) {
    s.MessageSymbol? ==> s.fullName == n && NumbersChecked(s.message)
  }

  lemma {:induction false} PackagesHold(symbols: map<string, Symbol>, file: string, name: string, n: string)
    requires AddPackages(symbols, file, name).Some?
    ensures var t := AddPackages(symbols, file, name).value;
      && (n in symbols ==> n in t && t[n] == symbols[n])
      && (n in t && n !in symbols ==> t[n] == PackageSymbol(file))
    decreases |name|
  {
    hide ValidIdentifier, HasParent, Parent, LastPart;
    if name !in symbols && HasParent(name) {
      PackagesHold(symbols[name := PackageSymbol(file)], file, Parent(name), n);
    }
  }

  lemma PackageHolds(symbols: map<string, Symbol>, f: FileProto)
    requires WithPackage(symbols, f).Some?
    ensures var t := WithPackage(symbols, f).value;
      Extends(symbols, t) && forall n :: n in t && n !in symbols ==> t[n] == PackageSymbol(f.Name())
  {
    hide AddPackages;
    if f.pkg != "" {
      forall n { PackagesHold(symbols, f.Name(), f.pkg, n); }
    }
  }

  lemma DeclaredChecked(st: State, f: FileProto)
    requires SymbolsChecked(st.symbols) && Clean(st, f)
    ensures SymbolsChecked(Declared(st, f).value) && Extends(st.symbols, Declared(st, f).value)
  {
    FileChecked(st, f);
    CleanDeclares(st, f);
    hide Clean, FileDecls, AddAll, WithPackage, NumbersChecked;
    PackageHolds(st.symbols, f);
    var symbols, decls := WithPackage(st.symbols, f).value, FileDecls(f);
    AddAllHolds(symbols, decls);
    var t := Declared(st, f).value;
    forall n | n in t ensures SymbolChecked(n, t[n]) {
      if n in symbols {
        assert n in st.symbols ==> SymbolChecked(n, st.symbols[n]);
      } else {
        var i :| 0 <= i < |decls| && decls[i].fullName == n;
        assert DeclChecked(decls[i]);
      }
    }
  }

  lemma CleanDeclares(st: State, f: FileProto)
    requires Clean(st, f)
    ensures Declared(st, f).Some?
  {
  }

  /** In every pool each message owns its numbers: no number belongs to two fields, two ranges, or a field and a range. */
  lemma {:induction false} MessagesOwnNumbers(history: seq<FileProto>)
    requires Replay(history).Some?
    ensures SymbolsChecked(Replay(history).value.symbols)
  {
    hide Replay, Declared, Linked, FileOk, ImportsOk, ServicesLinked, FileDecls, NumbersChecked, Clean;
    if history == [] {
      ReplayNothing();
    } else {
      ReplayLast(history);
      MessagesOwnNumbers(history[..|history| - 1]);
      DeclaredChecked(Replay(history[..|history| - 1]).value, history[|history| - 1]);
    }
  }

  // ---------- extensions ----------

  /** Every registered extension number is one its message gives out. */
  ghost predicate ExtensionsGiven(symbols: map<string, Symbol>, extensions: map<ExtensionKey, string>) {
    forall k :: k in extensions ==> Given(symbols, k)
  }

  ghost predicate Given(symbols: map<string, Symbol>, k: ExtensionKey) {
    k.0 in symbols && symbols[k.0].MessageSymbol? && IsExtensionNumber(symbols[k.0].message, k.1)
  }

  /** A name resolves to a symbol of the table, whatever scope it is found in. */
  lemma FindsInTable(c: Context, name: string)
    ensures FindSymbol(c, name).MessageSymbol? ==> name in c.symbols && c.symbols[name] == FindSymbol(c, name)
  {
  }

  lemma {:induction false} SearchInTable(c: Context, name: string, relativeTo: string, mode: ResolveMode)
    requires SymbolsChecked(c.symbols) && Search(c, name, relativeTo, mode).MessageSymbol?
    ensures var s := Search(c, name, relativeTo, mode); s.fullName in c.symbols && c.symbols[s.fullName] == s
    decreases |relativeTo|
  {
    hide FindSymbol, Qualifies, NumbersChecked;
    var p := LastDot(relativeTo);
    if p == -1 {
      FindsInTable(c, name);
      assert SymbolChecked(name, c.symbols[name]);
    } else {
      var scope := relativeTo[..p];
      if Qualifies(c, name, scope, mode) {
        FindsInTable(c, scope + "." + name);
        assert SymbolChecked(scope + "." + name, c.symbols[scope + "." + name]);
      } else {
        SearchInTable(c, name, scope, mode);
      }
    }
  }

  lemma LookupInTable(c: Context, name: string, relativeTo: string, mode: ResolveMode)
    requires SymbolsChecked(c.symbols) && Lookup(c, name, relativeTo, mode).MessageSymbol?
    ensures var s := Lookup(c, name, relativeTo, mode); s.fullName in c.symbols && c.symbols[s.fullName] == s
  {
    hide FindSymbol, Search, NumbersChecked;
    if name != "" && name[0] == '.' {
      FindsInTable(c, name[1..]);
      assert SymbolChecked(name[1..], c.symbols[name[1..]]);
    } else {
      SearchInTable(c, name, relativeTo, mode);
    }
  }

  lemma ContainerGives(c: Context, l: Link)
    requires SymbolsChecked(c.symbols) && l.field.extendee.Some? && Container(c, l).Some?
    ensures Given(c.symbols, (Container(c, l).value, l.field.number))
  {
    hide Lookup, IsExtensionNumber;
    LookupInTable(c, l.field.extendee.value, l.fullName, LookupAll);
  }

  lemma {:induction false} LinkedGiven(c: Context, s: Linking, links: seq<Link>)
    requires SymbolsChecked(c.symbols) && ExtensionsGiven(c.symbols, s.extensions) && LinkAll(c, s, links).Some?
    ensures ExtensionsGiven(c.symbols, LinkAll(c, s, links).value.extensions)
  {
    hide Container, TypeOk, Given, SymbolsChecked;
    if links != [] {
      LinkedGiven(c, s, links[..|links| - 1]);
      var l := links[|links| - 1];
      if l.field.extendee.Some? { ContainerGives(c, l); }
    }
  }

  lemma InstalledGiven(st: State, f: FileProto)
    requires SymbolsChecked(st.symbols) && ExtensionsGiven(st.symbols, st.extensions) && Clean(st, f)
    ensures ExtensionsGiven(Installed(st, f).symbols, Installed(st, f).extensions)
  {
    DeclaredChecked(st, f);
    hide LinkAll, FileLinks, Declared, ImportsOk, NamesValid, ServicesLinked, FileOk, FileDecls, SymbolsChecked, IsExtensionNumber;
    var symbols := Declared(st, f).value;
    forall k | k in st.extensions ensures Given(symbols, k) { assert Given(st.symbols, k); }
    LinkedGiven(ContextOf(st, f, symbols), Linking({}, st.extensions), FileLinks(f));
  }

  lemma {:induction false} ExtensionsAreGiven(history: seq<FileProto>)
    requires Replay(history).Some?
    ensures ExtensionsGiven(Replay(history).value.symbols, Replay(history).value.extensions)
  {
    hide Replay, Installed, Clean, SymbolsChecked, Given;
    if history == [] {
      ReplayNothing();
    } else {
      ReplayLast(history);
      ExtensionsAreGiven(history[..|history| - 1]);
      MessagesOwnNumbers(history[..|history| - 1]);
      InstalledGiven(Replay(history[..|history| - 1]).value, history[|history| - 1]);
    }
  }

  /** No extension, in whatever file it is declared, has the number of a field of the message it extends. */
  lemma ExtensionsMissFields(history: seq<FileProto>, k: ExtensionKey, i: nat)
    requires Replay(history).Some? && k in Replay(history).value.extensions
    ensures var symbols := Replay(history).value.symbols;
      && k.0 in symbols && symbols[k.0].MessageSymbol?
      && OneOwner(symbols[k.0].message)
      && (i < |symbols[k.0].message.fields| ==> symbols[k.0].message.fields[i].number != k.1)
  {
    hide Replay, IsExtensionNumber, OneOwner, NumbersChecked;
    MessagesOwnNumbers(history);
    ExtensionsAreGiven(history);
    var symbols := Replay(history).value.symbols;
    assert Given(symbols, k) && SymbolChecked(k.0, symbols[k.0]);
    var m := symbols[k.0].message;
    CheckedIffOneOwner(m);
    if i < |m.fields| { ExtensionIsNoField(m, k.1, i); }
  }
}
