/** File descriptions as the builder receives them, symbols as the tables hold them, and the list of
    symbols a file declares, in the order in which the builder adds them. */
module Descriptors {
  import opened Prelude

  /** FieldDescriptorProto.type: absent, message or group, enum, or any other type. */
  datatype FieldType = Unset | MessageType | EnumType | Primitive

  datatype FieldProto = FieldProto(name: string, number: int, extendee: Option<string>, typeName: Option<string>, fieldType: FieldType)

  /** Extension numbers from start up to, not including, end. */
  datatype Range = Range(start: int, end: int)

  datatype EnumProto = EnumProto(name: string, values: seq<string>)

  datatype MessageProto = MessageProto(name: string, fields: seq<FieldProto>, nested: seq<MessageProto>,
    enums: seq<EnumProto>, ranges: seq<Range>, extensions: seq<FieldProto>)

  datatype MethodProto = MethodProto(name: string, input: string, output: string)

  datatype ServiceProto = ServiceProto(name: string, methods: seq<MethodProto>)

  datatype FileProto = FileProto(name: Option<string>, pkg: string, imports: seq<string>, messages: seq<MessageProto>,
    enums: seq<EnumProto>, services: seq<ServiceProto>, extensions: seq<FieldProto>)
  {
    /** proto.name() of a file without a name is the empty string. */
    function Name(): string { if name.Some? then name.value else "" }
  }

  /** A descriptor is known here by the file and the name it was declared under. */
  datatype Symbol =
    | NullSymbol
    | MessageSymbol(file: string, fullName: string, message: MessageProto)
    | FieldSymbol(file: string)
    | EnumSymbol(file: string)
    | EnumValueSymbol(file: string)
    | ServiceSymbol(file: string)
    | MethodSymbol(file: string)
    | PackageSymbol(file: string)
  {
    predicate IsType() { MessageSymbol? || EnumSymbol? }

    predicate IsAggregate() { MessageSymbol? || PackageSymbol? || EnumSymbol? || ServiceSymbol? }
  }

  /** An extension number of a message. */
  type ExtensionKey = (string, int)

  // ---------- names ----------

  function Join(scope: string, name: string): string { if scope == "" then name else scope + "." + name }

  predicate IdentifierChar(c: char) { 'a' <= c <= 'z' || 'A' <= c <= 'Z' || '0' <= c <= '9' || c == '_' }

  /** What ValidateSymbolName accepts. */
  predicate ValidIdentifier(name: string) { name != "" && forall i :: 0 <= i < |name| ==> IdentifierChar(name[i]) }

  /** find_last_of('.'), with -1 for npos. */
  function LastDot(s: string): (p: int)
    ensures -1 <= p < |s| && (p >= 0 ==> s[p] == '.') && forall i :: p < i < |s| ==> s[i] != '.'
  {
    if s == "" then -1 else if s[|s| - 1] == '.' then |s| - 1 else LastDot(s[..|s| - 1])
  }

  /** The scopes a name lies in: the parts before each of its dots. */
  predicate IsScopeOf(scope: string, name: string) {
    |scope| < |name| && name[|scope|] == '.' && name[..|scope|] == scope
  }

  /** The innermost scope of a joined name is the scope it was joined to, and the others are that scope's own. */
  lemma ScopesOfJoin(scope: string, name: string, s: string)
    requires ValidIdentifier(name)
    ensures IsScopeOf(s, Join(scope, name)) <==> scope != "" && (s == scope || IsScopeOf(s, scope))
  {
    var full := Join(scope, name);
    if scope != "" {
      if |s| < |scope| {
        assert full[..|s|] == scope[..|s|] && full[|s|] == scope[|s|];
      } else if |s| == |scope| {
        assert full[..|s|] == scope && full[|s|] == '.';
      } else if |s| < |full| {
        assert full[|s|] == name[|s| - |scope| - 1];
      }
    } else if |s| < |full| {
      assert full[|s|] == name[|s|];
    }
  }

  // ---------- declarations ----------

  /** A symbol to be added: its simple name is validated, its full name is the key. */
  datatype Decl = Decl(name: string, fullName: string, symbol: Symbol)

  function FieldDecl(file: string, f: FieldProto, scope: string): Decl {
    Decl(f.name, Join(scope, f.name), FieldSymbol(file))
  }

  /** Enum values are declared beside their enum, not inside it. */
  function ValueDecl(file: string, value: string, scope: string): Decl {
    Decl(value, Join(scope, value), EnumValueSymbol(file))
  }

  function EnumDecl(file: string, e: EnumProto, scope: string): Decl {
    Decl(e.name, Join(scope, e.name), EnumSymbol(file))
  }

  function MessageDecl(file: string, m: MessageProto, scope: string): Decl {
    Decl(m.name, Join(scope, m.name), MessageSymbol(file, Join(scope, m.name), m))
  }

  function MethodDecl(file: string, m: MethodProto, service: string): Decl {
    Decl(m.name, service + "." + m.name, MethodSymbol(file))
  }

  function ServiceDecl(file: string, s: ServiceProto, scope: string): Decl {
    Decl(s.name, Join(scope, s.name), ServiceSymbol(file))
  }

  function FieldDecls(file: string, fields: seq<FieldProto>, scope: string, n: nat): seq<Decl>
    requires n <= |fields|
  {
    if n == 0 then [] else FieldDecls(file, fields, scope, n - 1) + [FieldDecl(file, fields[n - 1], scope)]
  }

  function ValueDecls(file: string, values: seq<string>, scope: string, n: nat): seq<Decl>
    requires n <= |values|
  {
    if n == 0 then [] else ValueDecls(file, values, scope, n - 1) + [ValueDecl(file, values[n - 1], scope)]
  }

  function EnumDecls(file: string, e: EnumProto, scope: string): seq<Decl> {
    ValueDecls(file, e.values, scope, |e.values|) + [EnumDecl(file, e, scope)]
  }

  function EnumsDecls(file: string, enums: seq<EnumProto>, scope: string, n: nat): seq<Decl>
    requires n <= |enums|
  {
    if n == 0 then [] else EnumsDecls(file, enums, scope, n - 1) + EnumDecls(file, enums[n - 1], scope)
  }

  function MessageDecls(file: string, m: MessageProto, scope: string): seq<Decl>
    decreases m, |m.nested| + 1
  {
    var full := Join(scope, m.name);
    FieldDecls(file, m.fields, full, |m.fields|)
    + NestedDecls(file, m, full, |m.nested|)
    + EnumsDecls(file, m.enums, full, |m.enums|)
    + FieldDecls(file, m.extensions, full, |m.extensions|)
    + [MessageDecl(file, m, scope)]
  }

  function NestedDecls(file: string, m: MessageProto, scope: string, n: nat): seq<Decl>
    requires n <= |m.nested|
    decreases m, n
  {
    if n == 0 then [] else NestedDecls(file, m, scope, n - 1) + MessageDecls(file, m.nested[n - 1], scope)
  }

  function MethodDecls(file: string, methods: seq<MethodProto>, scope: string, n: nat): seq<Decl>
    requires n <= |methods|
  {
    if n == 0 then [] else MethodDecls(file, methods, scope, n - 1) + [MethodDecl(file, methods[n - 1], scope)]
  }

  function ServiceDecls(file: string, s: ServiceProto, scope: string): seq<Decl> {
    var full := Join(scope, s.name);
    MethodDecls(file, s.methods, full, |s.methods|) + [ServiceDecl(file, s, scope)]
  }

  function ServicesDecls(file: string, services: seq<ServiceProto>, scope: string, n: nat): seq<Decl>
    requires n <= |services|
  {
    if n == 0 then [] else ServicesDecls(file, services, scope, n - 1) + ServiceDecls(file, services[n - 1], scope)
  }

  function MessagesDecls(f: FileProto, n: nat): seq<Decl>
    requires n <= |f.messages|
  {
    if n == 0 then [] else MessagesDecls(f, n - 1) + MessageDecls(f.Name(), f.messages[n - 1], f.pkg)
  }

  function FileDecls(f: FileProto): seq<Decl> {
    MessagesDecls(f, |f.messages|)
    + EnumsDecls(f.Name(), f.enums, f.pkg, |f.enums|)
    + ServicesDecls(f.Name(), f.services, f.pkg, |f.services|)
    + FieldDecls(f.Name(), f.extensions, f.pkg, |f.extensions|)
  }
}
