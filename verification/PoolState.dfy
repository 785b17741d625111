/** What a pool contains, and which files it accepts: the state the builder must reach when it reports no error. */
module PoolState {
  import opened Prelude
  import opened Descriptors
  import opened FieldNumbers
  import opened ScopedLookup

  datatype State = State(symbols: map<string, Symbol>, files: map<string, FileProto>, extensions: map<ExtensionKey, string>)

  // ---------- symbols ----------

  /** The declarations on top of the table, or None if one of the names is taken. */
  function AddAll(symbols: map<string, Symbol>, decls: seq<Decl>): Option<map<string, Symbol>> {
    if decls == [] then Some(symbols)
    else
      var last := decls[|decls| - 1];
      match AddAll(symbols, decls[..|decls| - 1])
      case None => None
      case Some(t) => if last.fullName in t then None else Some(t[last.fullName := last.symbol])
  }

  function AddMore(symbols: Option<map<string, Symbol>>, decls: seq<Decl>): Option<map<string, Symbol>> {
    match symbols
    case None => None
    case Some(t) => AddAll(t, decls)
  }

  lemma {:induction false} AddAllConcat(symbols: map<string, Symbol>, a: seq<Decl>, b: seq<Decl>)
    ensures AddAll(symbols, a + b) == AddMore(AddAll(symbols, a), b)
  {
    if b == [] {
      assert a + b == a;
    } else {
      var n := |b| - 1;
      assert (a + b)[..|a + b| - 1] == a + b[..n];
      AddAllConcat(symbols, a, b[..n]);
    }
  }

  predicate NamesValid(decls: seq<Decl>) {
    forall i :: 0 <= i < |decls| ==> ValidIdentifier(decls[i].name)
  }

  predicate HasParent(name: string) { LastDot(name) >= 0 }

  /** The package around a package. */
  function Parent(name: string): (parent: string)
    requires HasParent(name)
    ensures |parent| < |name|
  {
    name[..LastDot(name)]
  }

  function LastPart(name: string): string { name[LastDot(name) + 1..] }

  /** A package and the packages around it; one that exists is not visited again. */
  function AddPackages(symbols: map<string, Symbol>, file: string, name: string): Option<map<string, Symbol>>
    decreases |name|
  {
    if name in symbols then (if symbols[name].PackageSymbol? then Some(symbols) else None)
    else if !ValidIdentifier(LastPart(name)) then None
    else if HasParent(name) then AddPackages(symbols[name := PackageSymbol(file)], file, Parent(name))
    else Some(symbols[name := PackageSymbol(file)])
  }

  function WithPackage(symbols: map<string, Symbol>, f: FileProto): Option<map<string, Symbol>> {
    if f.pkg == "" then Some(symbols) else AddPackages(symbols, f.Name(), f.pkg)
  }

  function Declared(st: State, f: FileProto): Option<map<string, Symbol>> {
    AddMore(WithPackage(st.symbols, f), FileDecls(f))
  }

  // ---------- numbers ----------

  /** Number and extendee of a field or of an extension. */
  predicate FieldOk(f: FieldProto, isExtension: bool) {
    NumberAllowed(f.number) && (f.extendee.Some? <==> isExtension)
  }

  predicate FieldsOk(fields: seq<FieldProto>, isExtension: bool, n: nat)
    requires n <= |fields|
  {
    forall i :: 0 <= i < n ==> FieldOk(fields[i], isExtension)
  }

  /** An enum has at least one value. */
  predicate EnumsOk(enums: seq<EnumProto>, n: nat)
    requires n <= |enums|
  {
    forall i :: 0 <= i < n ==> enums[i].values != []
  }

  predicate RangesAllowed(ranges: seq<Range>, n: nat)
    requires n <= |ranges|
  {
    forall i :: 0 <= i < n ==> RangeAllowed(ranges[i])
  }

  predicate MessageOk(m: MessageProto)
    decreases m, |m.nested| + 1
  {
    && FieldsOk(m.fields, false, |m.fields|) && NestedOk(m, |m.nested|) && EnumsOk(m.enums, |m.enums|)
    && RangesAllowed(m.ranges, |m.ranges|) && FieldsOk(m.extensions, true, |m.extensions|) && RangesClean(m)
  }

  predicate NestedOk(m: MessageProto, n: nat)
    requires n <= |m.nested|
    decreases m, n
  {
    n > 0 ==> NestedOk(m, n - 1) && MessageOk(m.nested[n - 1])
  }

  predicate MessagesOk(f: FileProto, n: nat)
    requires n <= |f.messages|
  {
    forall i :: 0 <= i < n ==> MessageOk(f.messages[i])
  }

  predicate FileOk(f: FileProto) {
    MessagesOk(f, |f.messages|) && EnumsOk(f.enums, |f.enums|) && FieldsOk(f.extensions, true, |f.extensions|)
  }

  // ---------- imports ----------

  predicate ImportOk(st: State, f: FileProto, i: nat)
    requires i < |f.imports|
  {
    (f.imports[i] in st.files || f.imports[i] == f.Name()) && f.imports[i] !in f.imports[..i]
  }

  predicate ImportsOk(st: State, f: FileProto, n: nat)
    requires n <= |f.imports|
  {
    forall i :: 0 <= i < n ==> ImportOk(st, f, i)
  }

  // ---------- cross-linking ----------

  /** A field or extension to be linked; `containing` is the message it is declared in as a field. */
  datatype Link = Link(field: FieldProto, fullName: string, containing: string)

  function FieldLinks(fields: seq<FieldProto>, scope: string, containing: string, n: nat): seq<Link>
    requires n <= |fields|
  {
    if n == 0 then []
    else FieldLinks(fields, scope, containing, n - 1) + [Link(fields[n - 1], Join(scope, fields[n - 1].name), containing)]
  }

  /** Nested messages first, then the fields, then the extensions. */
  function MessageLinks(m: MessageProto, scope: string): seq<Link>
    decreases m, |m.nested| + 1
  {
    var full := Join(scope, m.name);
    NestedLinks(m, full, |m.nested|) + FieldLinks(m.fields, full, full, |m.fields|)
    + FieldLinks(m.extensions, full, full, |m.extensions|)
  }

  function NestedLinks(m: MessageProto, scope: string, n: nat): seq<Link>
    requires n <= |m.nested|
    decreases m, n
  {
    if n == 0 then [] else NestedLinks(m, scope, n - 1) + MessageLinks(m.nested[n - 1], scope)
  }

  function MessagesLinks(f: FileProto, n: nat): seq<Link>
    requires n <= |f.messages|
  {
    if n == 0 then [] else MessagesLinks(f, n - 1) + MessageLinks(f.messages[n - 1], f.pkg)
  }

  function FileLinks(f: FileProto): seq<Link> {
    MessagesLinks(f, |f.messages|) + FieldLinks(f.extensions, f.pkg, f.pkg, |f.extensions|)
  }

  /** The message a field belongs to: the declared one, or the extendee if that has the number to give. */
  function Container(c: Context, l: Link): Option<string> {
    if l.field.extendee.None? then Some(l.containing)
    else
      var e := Lookup(c, l.field.extendee.value, l.fullName, LookupAll);
      if e.MessageSymbol? && IsExtensionNumber(e.message, l.field.number) then Some(e.fullName) else None
  }

  /** A type name must resolve to a type of the declared kind, and must be there for messages and enums only. */
  predicate TypeOk(c: Context, l: Link) {
    if l.field.typeName.None? then l.field.fieldType.Unset? || l.field.fieldType.Primitive?
    else
      var t := Lookup(c, l.field.typeName.value, l.fullName, LookupTypes);
      match l.field.fieldType
      case Unset => t.IsType()
      case MessageType => t.MessageSymbol?
      case EnumType => t.EnumSymbol?
      case Primitive => false
  }

  /** The numbers taken in this file, and the extension table of the pool. */
  datatype Linking = Linking(taken: set<ExtensionKey>, extensions: map<ExtensionKey, string>)

  /** An extension whose number some other file has taken is linked, but the table keeps the first one. */
  function LinkOne(c: Context, s: Linking, l: Link): Option<Linking> {
    match Container(c, l)
    case None => None
    case Some(message) =>
      var key := (message, l.field.number);
      if !TypeOk(c, l) || key in s.taken then None
      else if l.field.extendee.Some? && key !in s.extensions then Some(Linking(s.taken + {key}, s.extensions[key := l.fullName]))
      else Some(Linking(s.taken + {key}, s.extensions))
  }

  function LinkAll(c: Context, s: Linking, links: seq<Link>): Option<Linking> {
    if links == [] then Some(s)
    else match LinkAll(c, s, links[..|links| - 1])
      case None => None
      case Some(t) => LinkOne(c, t, links[|links| - 1])
  }

  function LinkMore(c: Context, s: Option<Linking>, links: seq<Link>): Option<Linking> {
    match s
    case None => None
    case Some(t) => LinkAll(c, t, links)
  }

  lemma {:induction false} LinkAllConcat(c: Context, s: Linking, a: seq<Link>, b: seq<Link>)
    ensures LinkAll(c, s, a + b) == LinkMore(c, LinkAll(c, s, a), b)
  {
    if b == [] {
      assert a + b == a;
    } else {
      var n := |b| - 1;
      assert (a + b)[..|a + b| - 1] == a + b[..n];
      LinkAllConcat(c, s, a, b[..n]);
    }
  }

  predicate MethodLinked(c: Context, m: MethodProto, service: string) {
    && Lookup(c, m.input, service + "." + m.name, LookupAll).MessageSymbol?
    && Lookup(c, m.output, service + "." + m.name, LookupAll).MessageSymbol?
  }

  predicate ServiceLinked(c: Context, s: ServiceProto, scope: string, n: nat)
    requires n <= |s.methods|
  {
    forall i :: 0 <= i < n ==> MethodLinked(c, s.methods[i], Join(scope, s.name))
  }

  predicate ServicesLinked(c: Context, f: FileProto, n: nat)
    requires n <= |f.services|
  {
    forall i :: 0 <= i < n ==> ServiceLinked(c, f.services[i], f.pkg, |f.services[i].methods|)
  }

  // ---------- accepting a file ----------

  function ContextOf(st: State, f: FileProto, symbols: map<string, Symbol>): Context {
    Context(symbols, st.files[f.Name() := f], f)
  }

  function Linked(st: State, f: FileProto, symbols: map<string, Symbol>): Option<Linking> {
    LinkAll(ContextOf(st, f, symbols), Linking({}, st.extensions), FileLinks(f))
  }

  /** The file can be added to the pool in this state. */
  predicate Clean(st: State, f: FileProto) {
    && f.name.Some? && f.Name() !in st.files
    && ImportsOk(st, f, |f.imports|) && NamesValid(FileDecls(f)) && FileOk(f)
    && match Declared(st, f)
       case None => false
       case Some(symbols) =>
         Linked(st, f, symbols).Some? && ServicesLinked(ContextOf(st, f, symbols), f, |f.services|)
  }

  /** The pool with the file in it. */
  function Installed(st: State, f: FileProto): State
    requires Clean(st, f)
  {
    var symbols := Declared(st, f).value;
    State(symbols, st.files[f.Name() := f], Linked(st, f, symbols).value.extensions)
  }
}
