/** The extension table of a pool: each number of a message belongs to the first extension that took it, and an
    extension of a later file with the same number is accepted but never found. */
module PoolExtensions {
  import opened Prelude
  import opened Descriptors
  import opened ScopedLookup
  import opened PoolState
  import opened PoolHistory
  import opened PoolNumbers
  import opened PoolContents

  /** The link is an extension, and key is the message it extends with its number. */
  ghost predicate Registers(c: Context, l: Link, key: ExtensionKey) {
    l.field.extendee.Some? && Container(c, l) == Some(key.0) && l.field.number == key.1
  }

  ghost predicate SomeRegisters(c: Context, links: seq<Link>, key: ExtensionKey) {
    exists i :: 0 <= i < |links| && Registers(c, links[i], key)
  }

  // ---------- one file ----------

  lemma LinkOneRegisters(c: Context, s: Linking, l: Link, key: ExtensionKey)
    requires LinkOne(c, s, l).Some?
    ensures var t := LinkOne(c, s, l).value;
      && s.taken <= t.taken
      && (Registers(c, l, key) ==> key !in s.taken && key in t.taken)
      && (key in s.extensions ==> key in t.extensions && t.extensions[key] == s.extensions[key])
      && (key !in s.extensions ==>
           (key in t.extensions <==> Registers(c, l, key)) && (Registers(c, l, key) ==> t.extensions[key] == l.fullName))
  {
    hide Container, TypeOk;
  }

  /** Within one file no number is registered twice: what was in the table stays, and a new key names the one extension
      that registers it. */
  lemma {:induction false} LinksRegister(c: Context, s: Linking, links: seq<Link>, key: ExtensionKey)
    requires LinkAll(c, s, links).Some?
    ensures var t := LinkAll(c, s, links).value;
      && (SomeRegisters(c, links, key) ==> key in t.taken)
      && (key in s.extensions ==> key in t.extensions && t.extensions[key] == s.extensions[key])
      && (key !in s.extensions ==> (key in t.extensions <==> SomeRegisters(c, links, key)))
      && (key !in s.extensions ==>
           forall i :: 0 <= i < |links| && Registers(c, links[i], key) ==> t.extensions[key] == links[i].fullName)
  {
    hide LinkOne, Registers;
    if links != [] {
      var n := |links| - 1;
      LinksRegister(c, s, links[..n], key);
      var u := LinkAll(c, s, links[..n]).value;
      LinkOneRegisters(c, u, links[n], key);
      forall i | 0 <= i < n ensures links[..n][i] == links[i] {}
      if SomeRegisters(c, links[..n], key) {
        var i :| 0 <= i < n && Registers(c, links[..n][i], key);
        assert Registers(c, links[i], key);
      }
      if SomeRegisters(c, links, key) && !Registers(c, links[n], key) {
        var i :| 0 <= i < |links| && Registers(c, links[i], key);
        assert Registers(c, links[..n][i], key);
      }
    }
  }

  // ---------- the whole pool ----------

  /** What the file saw when it was linked. */
  ghost function ContextAt(history: seq<FileProto>, k: nat): Context
    requires Replay(history).Some? && k < |history|
  {
    CleanWhenAccepted(history, k);
    CleanDeclares(Replay(history[..k]).value, history[k]);
    ContextOf(Replay(history[..k]).value, history[k], Declared(Replay(history[..k]).value, history[k]).value)
  }

  ghost predicate FileRegisters(history: seq<FileProto>, k: nat, key: ExtensionKey)
    requires Replay(history).Some? && k < |history|
  {
    SomeRegisters(ContextAt(history, k), FileLinks(history[k]), key)
  }

  lemma ContextOfPrefix(history: seq<FileProto>, prefix: seq<FileProto>, k: nat)
    requires Replay(history).Some? && Replay(prefix).Some? && prefix <= history && k < |prefix|
    ensures ContextAt(prefix, k) == ContextAt(history, k)
  {
    hide Replay, Clean, Declared;
    assert prefix[..k] == history[..k];
  }

  /** The step from all files but the last to all files. */
  lemma LastRegisters(history: seq<FileProto>, key: ExtensionKey)
    requires Replay(history).Some? && history != []
    ensures var n := |history| - 1;
      && Replay(history[..n]).Some?
      && var before, after := Replay(history[..n]).value.extensions, Replay(history).value.extensions;
      && (key in before ==> key in after && after[key] == before[key])
      && (key !in before ==> (key in after <==> FileRegisters(history, n, key)))
      && (key !in before ==> forall i :: 0 <= i < |FileLinks(history[n])| ==>
           Registers(ContextAt(history, n), FileLinks(history[n])[i], key) ==> after[key] == FileLinks(history[n])[i].fullName)
  {
    hide Replay, Declared, FileOk, ImportsOk, ServicesLinked, FileDecls, FileLinks, LinkAll, Registers, NamesValid, SomeRegisters;
    var n := |history| - 1;
    ReplayLast(history);
    LinksRegister(ContextAt(history, n), Linking({}, Replay(history[..n]).value.extensions), FileLinks(history[n]), key);
  }

  ghost predicate FileRegistersBelow(history: seq<FileProto>, n: nat, key: ExtensionKey)
    requires Replay(history).Some? && n <= |history|
  {
    exists k :: 0 <= k < n && FileRegisters(history, k, key)
  }

  lemma RegistersPrefix(history: seq<FileProto>, prefix: seq<FileProto>, k: nat, key: ExtensionKey)
    requires Replay(history).Some? && Replay(prefix).Some? && prefix <= history && k < |prefix|
    ensures FileRegisters(prefix, k, key) <==> FileRegisters(history, k, key)
  {
    hide Replay, SomeRegisters, ContextAt, FileLinks;
    ContextOfPrefix(history, prefix, k);
  }

  lemma BelowPrefix(history: seq<FileProto>, prefix: seq<FileProto>, n: nat, key: ExtensionKey)
    requires Replay(history).Some? && Replay(prefix).Some? && prefix <= history && n <= |prefix|
    ensures FileRegistersBelow(prefix, n, key) <==> FileRegistersBelow(history, n, key)
  {
    hide Replay, FileRegisters;
    forall k | 0 <= k < n ensures FileRegisters(prefix, k, key) <==> FileRegisters(history, k, key) {
      RegistersPrefix(history, prefix, k, key);
    }
  }

  /** A number is in the table exactly if some accepted file registers it. */
  lemma {:induction false} TableIsTheUnion(history: seq<FileProto>, key: ExtensionKey)
    requires Replay(history).Some?
    ensures key in Replay(history).value.extensions <==> FileRegistersBelow(history, |history|, key)
  {
    hide Replay, FileRegisters;
    if history == [] {
      ReplayNothing();
    } else {
      var n := |history| - 1;
      LastRegisters(history, key);
      TableIsTheUnion(history[..n], key);
      BelowPrefix(history, history[..n], n, key);
    }
  }

  /** The first extension that registers a number is the one the table names, for good. */
  lemma {:induction false} FirstIsFound(history: seq<FileProto>, k: nat, i: nat, key: ExtensionKey)
    requires Replay(history).Some? && k < |history| && i < |FileLinks(history[k])|
    requires Registers(ContextAt(history, k), FileLinks(history[k])[i], key)
    requires !FileRegistersBelow(history, k, key)
    ensures var table := Replay(history).value.extensions; key in table && table[key] == FileLinks(history[k])[i].fullName
  {
    hide Replay, FileLinks, Registers, ContextAt, FileRegisters;
    var n := |history| - 1;
    LastRegisters(history, key);
    if k < n {
      ContextOfPrefix(history, history[..n], k);
      BelowPrefix(history, history[..n], k, key);
      FirstIsFound(history[..n], k, i, key);
    } else {
      TableIsTheUnion(history[..n], key);
      BelowPrefix(history, history[..n], n, key);
      OneRegisters(history, n, i, key);
    }
  }

  lemma OneRegisters(history: seq<FileProto>, k: nat, i: nat, key: ExtensionKey)
    requires Replay(history).Some? && k < |history| && i < |FileLinks(history[k])|
    requires Registers(ContextAt(history, k), FileLinks(history[k])[i], key)
    ensures FileRegisters(history, k, key)
  {
    hide Replay, FileLinks, Registers, ContextAt;
  }

  // ---------- whose extension is found ----------

  /** Every linked field is declared by the file, under the same name. */
  ghost predicate AllDeclared(links: seq<Link>, decls: seq<Decl>, file: string) {
    forall i :: 0 <= i < |links| ==> IsDeclared(links[i], decls, file)
  }

  ghost predicate IsDeclared(l: Link, decls: seq<Decl>, file: string) {
    exists j :: 0 <= j < |decls| && decls[j].fullName == l.fullName && decls[j].symbol == FieldSymbol(file)
  }

  lemma DeclaredMore(links: seq<Link>, a: seq<Decl>, b: seq<Decl>, c: seq<Decl>, file: string)
    requires AllDeclared(links, b, file)
    ensures AllDeclared(links, a + b + c, file)
  {
    forall i | 0 <= i < |links| ensures IsDeclared(links[i], a + b + c, file) {
      var j :| 0 <= j < |b| && b[j].fullName == links[i].fullName && b[j].symbol == FieldSymbol(file);
      assert (a + b + c)[|a| + j] == b[j];
    }
  }

  lemma DeclaredBoth(l1: seq<Link>, l2: seq<Link>, decls: seq<Decl>, file: string)
    requires AllDeclared(l1, decls, file) && AllDeclared(l2, decls, file)
    ensures AllDeclared(l1 + l2, decls, file)
  {
    hide IsDeclared;
  }

  lemma {:induction false} FieldsDeclared(file: string, fields: seq<FieldProto>, scope: string, containing: string, n: nat)
    requires n <= |fields|
    ensures AllDeclared(FieldLinks(fields, scope, containing, n), FieldDecls(file, fields, scope, n), file)
  {
    if n > 0 {
      FieldsDeclared(file, fields, scope, containing, n - 1);
      var before, d := FieldDecls(file, fields, scope, n - 1), FieldDecl(file, fields[n - 1], scope);
      DeclaredMore(FieldLinks(fields, scope, containing, n - 1), [], before, [d], file);
      assert [] + before + [d] == before + [d] && (before + [d])[|before|] == d;
    }
  }

  lemma {:induction false} TreeDeclared(file: string, m: MessageProto, scope: string)
    ensures AllDeclared(MessageLinks(m, scope), MessageDecls(file, m, scope), file)
    decreases m, |m.nested| + 1
  {
    hide AllDeclared, FieldLinks, NestedLinks, FieldDecls, NestedDecls, EnumsDecls;
    var full := Join(scope, m.name);
    NestedDeclared(file, m, full, |m.nested|);
    FieldsDeclared(file, m.fields, full, full, |m.fields|);
    FieldsDeclared(file, m.extensions, full, full, |m.extensions|);
    var d1, d2 := FieldDecls(file, m.fields, full, |m.fields|), NestedDecls(file, m, full, |m.nested|);
    var d3, d4 := EnumsDecls(file, m.enums, full, |m.enums|), FieldDecls(file, m.extensions, full, |m.extensions|);
    var d5 := [MessageDecl(file, m, scope)];
    var all := MessageDecls(file, m, scope);
    assert all == [] + d1 + (d2 + d3 + d4 + d5) && all == d1 + d2 + (d3 + d4 + d5) && all == (d1 + d2 + d3) + d4 + d5;
    DeclaredMore(NestedLinks(m, full, |m.nested|), d1, d2, d3 + d4 + d5, file);
    DeclaredMore(FieldLinks(m.fields, full, full, |m.fields|), [], d1, d2 + d3 + d4 + d5, file);
    DeclaredMore(FieldLinks(m.extensions, full, full, |m.extensions|), d1 + d2 + d3, d4, d5, file);
    DeclaredBoth(NestedLinks(m, full, |m.nested|), FieldLinks(m.fields, full, full, |m.fields|), all, file);
    DeclaredBoth(NestedLinks(m, full, |m.nested|) + FieldLinks(m.fields, full, full, |m.fields|),
      FieldLinks(m.extensions, full, full, |m.extensions|), all, file);
  }

  lemma {:induction false} NestedDeclared(file: string, m: MessageProto, scope: string, n: nat)
    requires n <= |m.nested|
    ensures AllDeclared(NestedLinks(m, scope, n), NestedDecls(file, m, scope, n), file)
    decreases m, n
  {
    hide IsDeclared, MessageLinks, MessageDecls;
    if n > 0 {
      NestedDeclared(file, m, scope, n - 1);
      TreeDeclared(file, m.nested[n - 1], scope);
      DeclaredAfter(NestedLinks(m, scope, n - 1), MessageLinks(m.nested[n - 1], scope),
        NestedDecls(file, m, scope, n - 1), MessageDecls(file, m.nested[n - 1], scope), file);
    }
  }

  lemma DeclaredAfter(l1: seq<Link>, l2: seq<Link>, d1: seq<Decl>, d2: seq<Decl>, file: string)
    requires AllDeclared(l1, d1, file) && AllDeclared(l2, d2, file)
    ensures AllDeclared(l1 + l2, d1 + d2, file)
  {
    hide AllDeclared;
    DeclaredMore(l1, [], d1, d2, file);
    DeclaredMore(l2, d1, d2, [], file);
    assert [] + d1 + d2 == d1 + d2 && d1 + d2 + [] == d1 + d2;
    DeclaredBoth(l1, l2, d1 + d2, file);
  }

  lemma {:induction false} MessagesDeclared(f: FileProto, n: nat)
    requires n <= |f.messages|
    ensures AllDeclared(MessagesLinks(f, n), MessagesDecls(f, n), f.Name())
  {
    hide IsDeclared, MessageLinks, MessageDecls;
    if n > 0 {
      MessagesDeclared(f, n - 1);
      TreeDeclared(f.Name(), f.messages[n - 1], f.pkg);
      DeclaredAfter(MessagesLinks(f, n - 1), MessageLinks(f.messages[n - 1], f.pkg),
        MessagesDecls(f, n - 1), MessageDecls(f.Name(), f.messages[n - 1], f.pkg), f.Name());
    }
  }

  lemma LinksDeclared(f: FileProto)
    ensures AllDeclared(FileLinks(f), FileDecls(f), f.Name())
  {
    hide AllDeclared, MessagesLinks, FieldLinks, MessagesDecls, EnumsDecls, ServicesDecls, FieldDecls;
    MessagesDeclared(f, |f.messages|);
    FieldsDeclared(f.Name(), f.extensions, f.pkg, f.pkg, |f.extensions|);
    var d1, d2 := MessagesDecls(f, |f.messages|), EnumsDecls(f.Name(), f.enums, f.pkg, |f.enums|);
    var d3, d4 := ServicesDecls(f.Name(), f.services, f.pkg, |f.services|), FieldDecls(f.Name(), f.extensions, f.pkg, |f.extensions|);
    assert FileDecls(f) == (d1 + d2 + d3) + d4 + [] && FileDecls(f) == [] + d1 + (d2 + d3 + d4);
    DeclaredMore(MessagesLinks(f, |f.messages|), [], d1, d2 + d3 + d4, f.Name());
    DeclaredMore(FieldLinks(f.extensions, f.pkg, f.pkg, |f.extensions|), d1 + d2 + d3, d4, [], f.Name());
    DeclaredBoth(MessagesLinks(f, |f.messages|), FieldLinks(f.extensions, f.pkg, f.pkg, |f.extensions|), FileDecls(f), f.Name());
  }

  /** Fields of different files have different names. */
  lemma NamesOfFiles(history: seq<FileProto>, j: nat, k: nat, i: nat, p: nat)
    requires Replay(history).Some? && j < k < |history| && i < |FileLinks(history[j])| && p < |FileLinks(history[k])|
    ensures FileLinks(history[j])[i].fullName != FileLinks(history[k])[p].fullName
  {
    hide Replay, FileLinks, FileDecls, Clean;
    NamesDiffer(history, j, k);
    LinksDeclared(history[j]);
    LinksDeclared(history[k]);
    assert IsDeclared(FileLinks(history[j])[i], FileDecls(history[j]), history[j].Name());
    assert IsDeclared(FileLinks(history[k])[p], FileDecls(history[k]), history[k].Name());
    var a :| 0 <= a < |FileDecls(history[j])| && FileDecls(history[j])[a].fullName == FileLinks(history[j])[i].fullName
      && FileDecls(history[j])[a].symbol == FieldSymbol(history[j].Name());
    var b :| 0 <= b < |FileDecls(history[k])| && FileDecls(history[k])[b].fullName == FileLinks(history[k])[p].fullName
      && FileDecls(history[k])[b].symbol == FieldSymbol(history[k].Name());
    DeclarationsStay(history, j, a);
    DeclarationsStay(history, k, b);
  }

  lemma {:induction false} FirstFile(history: seq<FileProto>, n: nat, key: ExtensionKey) returns (k: nat)
    requires Replay(history).Some? && n <= |history| && FileRegistersBelow(history, n, key)
    ensures k < n && FileRegisters(history, k, key) && !FileRegistersBelow(history, k, key)
  {
    hide Replay, FileRegisters;
    if FileRegistersBelow(history, n - 1, key) { k := FirstFile(history, n - 1, key); } else { k := n - 1; }
  }

  /** An extension of an accepted file is the one found under its number exactly if no file accepted earlier has
      registered that number. */
  lemma FoundIffFirst(history: seq<FileProto>, k: nat, i: nat, key: ExtensionKey)
    requires Replay(history).Some? && k < |history| && i < |FileLinks(history[k])|
    requires Registers(ContextAt(history, k), FileLinks(history[k])[i], key)
    ensures var table := Replay(history).value.extensions;
      key in table && (table[key] == FileLinks(history[k])[i].fullName <==> !FileRegistersBelow(history, k, key))
  {
    hide Replay, FileLinks, Registers, ContextAt;
    if FileRegistersBelow(history, k, key) {
      var j := FirstFile(history, k, key);
      var p :| 0 <= p < |FileLinks(history[j])| && Registers(ContextAt(history, j), FileLinks(history[j])[p], key);
      FirstIsFound(history, j, p, key);
      NamesOfFiles(history, j, k, p, i);
    } else {
      FirstIsFound(history, k, i, key);
    }
  }

  // ---------- it happens ----------

  function Base(): FileProto {
    FileProto(Some("b"), "", [], [MessageProto("M", [], [], [], [Range(1, 10)], [])], [], [], [])
  }

  /** A file that extends M of the base file with number 5. */
  function Extending(name: string, field: string): FileProto {
    FileProto(Some(name), "", ["b"], [], [], [], [FieldProto(field, 5, Some("M"), None, Primitive)])
  }

  function BaseState(): State {
    State(map["M" := MessageSymbol("b", "M", Base().messages[0])], map["b" := Base()], map[])
  }

  lemma BaseLists()
    ensures var m := Base().messages[0]; FileDecls(Base()) == [MessageDecl("b", m, "")] && FileLinks(Base()) == []
  {
    var m := Base().messages[0];
    assert MessageDecls("b", m, "") == [MessageDecl("b", m, "")];
    assert MessagesDecls(Base(), 0) == [];
    assert MessageLinks(m, "") == [];
  }

  lemma AddOne(symbols: map<string, Symbol>, d: Decl)
    requires d.fullName !in symbols
    ensures AddAll(symbols, [d]) == Some(symbols[d.fullName := d.symbol])
  {
    assert [d][..0] == [] && AddAll(symbols, []) == Some(symbols);
  }

  lemma BaseAccepted()
    ensures Replay([Base()]) == Some(BaseState())
  {
    var m, st := Base().messages[0], State(map[], map[], map[]);
    BaseLists();
    AddOne(map[], MessageDecl("b", m, ""));
    assert ValidIdentifier("M") && Join("", "M") == "M";
    assert FileOk(Base());
    hide FileDecls, FileLinks, AddAll, FileOk;
    assert Declared(st, Base()) == Some(BaseState().symbols);
    assert Clean(st, Base());
    assert [Base()][..0] == [];
  }

  function Extended(st: State, name: string, field: string): State {
    State(st.symbols[field := FieldSymbol(name)], st.files[name := Extending(name, field)],
      if ("M", 5) in st.extensions then st.extensions else st.extensions[("M", 5) := field])
  }

  lemma ExtendingAccepted(st: State, name: string, field: string)
    requires "b" in st.files && name !in st.files && "M" in st.symbols && st.symbols["M"] == BaseState().symbols["M"]
    requires field !in st.symbols && ValidIdentifier(field) && LastDot(field) == -1
    ensures Clean(st, Extending(name, field)) && Installed(st, Extending(name, field)) == Extended(st, name, field)
  {
    var f := Extending(name, field);
    var d, l := FieldDecl(name, f.extensions[0], ""), Link(f.extensions[0], field, "");
    ExtendingLists(name, field);
    AddOne(st.symbols, d);
    assert FileOk(f);
    hide FileDecls, FileLinks, AddAll, FileOk, Container;
    var symbols := st.symbols[field := FieldSymbol(name)];
    assert Declared(st, f) == Some(symbols);
    var c, s := ContextOf(st, f, symbols), Linking({}, st.extensions);
    MessageSeen(c, l);
    LinkSingle(c, s, l);
    assert f.imports[0] !in f.imports[..0];
  }

  lemma ExtendingLists(name: string, field: string)
    ensures var f := Extending(name, field);
      FileDecls(f) == [FieldDecl(name, f.extensions[0], "")] && FileLinks(f) == [Link(f.extensions[0], field, "")]
  {
    var f := Extending(name, field);
    assert FieldDecls(name, f.extensions, "", 0) == [] && FieldLinks(f.extensions, "", "", 0) == [];
    assert FieldDecls(name, f.extensions, "", 1) == [FieldDecl(name, f.extensions[0], "")];
    assert FieldLinks(f.extensions, "", "", 1) == [Link(f.extensions[0], field, "")];
  }

  lemma LinkSingle(c: Context, s: Linking, l: Link)
    ensures LinkAll(c, s, [l]) == LinkOne(c, s, l)
  {
    hide LinkOne;
    assert [l][..0] == [] && LinkAll(c, s, []) == Some(s);
  }

  lemma MessageSeen(c: Context, l: Link)
    requires "b" in c.file.imports && "b" in c.files && LastDot(l.fullName) == -1
    requires "M" in c.symbols && c.symbols["M"] == BaseState().symbols["M"]
    requires l.field.extendee == Some("M") && l.field.number == 5
    ensures Container(c, l) == Some("M")
  {
    assert BaseState().symbols["M"].message.ranges[0] == Range(1, 10);
    assert Lookup(c, "M", l.fullName, LookupAll) == BaseState().symbols["M"];
  }

  /** Two files extend the same message with the same number: both are accepted, and the second extension is not the
      one found. */
  lemma SecondIsLost()
    ensures var history := [Base(), Extending("x", "e"), Extending("y", "f")];
      && Replay(history).Some? && ("M", 5) in Replay(history).value.extensions
      && Replay(history).value.extensions[("M", 5)] == "e" && "f" in Replay(history).value.symbols
  {
    hide Clean, Installed, Replay;
    var x, y := Extending("x", "e"), Extending("y", "f");
    NoDots();
    BaseAccepted();
    ExtendingAccepted(BaseState(), "x", "e");
    ReplayMore([Base()], x);
    var st := Extended(BaseState(), "x", "e");
    ExtendingAccepted(st, "y", "f");
    ReplayMore([Base()] + [x], y);
    assert [Base()] + [x] + [y] == [Base(), x, y];
  }

  lemma NoDots()
    ensures LastDot("e") == -1 && LastDot("f") == -1 && ValidIdentifier("e") && ValidIdentifier("f")
  {
  }
}
