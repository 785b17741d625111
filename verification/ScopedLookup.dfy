/** FindSymbol and LookupSymbolNoPlaceholder: which symbols a file may use, and how a relative name is
    resolved against the scopes around it. */
module ScopedLookup {
  import opened Descriptors

  /** What a builder sees: the symbols, the files (its own included) and the file being built. */
  datatype Context = Context(symbols: map<string, Symbol>, files: map<string, FileProto>, file: FileProto)

  datatype ResolveMode = LookupAll | LookupTypes

  /** package is the given package or lies inside it. */
  predicate IsInPackage(file: FileProto, packageName: string) {
    file.pkg == packageName || IsScopeOf(packageName, file.pkg)
  }

  /** The file itself or one of its imports. */
  predicate IsVisible(c: Context, file: string) {
    file == c.file.Name() || (file in c.file.imports && file in c.files)
  }

  /** The symbol of that name if the file may use it: its own, those of direct imports, and a package that
      the file or a direct import lies in, whichever file defined it first. */
  function FindSymbol(c: Context, name: string): Symbol {
    if name !in c.symbols then NullSymbol
    else
      var s := c.symbols[name];
      if s.NullSymbol? then NullSymbol
      else if IsVisible(c, s.file) then s
      else if s.PackageSymbol? && PackageVisible(c, name) then s
      else NullSymbol
  }

  predicate PackageVisible(c: Context, name: string) {
    IsInPackage(c.file, name) || exists i :: 0 <= i < |c.file.imports| && ImportInPackage(c, i, name)
  }

  predicate ImportInPackage(c: Context, i: nat, name: string)
    requires i < |c.file.imports|
  {
    c.file.imports[i] in c.files && IsInPackage(c.files[c.file.imports[i]], name)
  }

  /** FindSymbol as the source computes it. */
  method FindSymbolInPool(c: Context, name: string) returns (result: Symbol)
    ensures result == FindSymbol(c, name)
  {
    result := if name in c.symbols then c.symbols[name] else NullSymbol;
    if result.NullSymbol? {
      return;
    }
    if result.file == c.file.Name() {
      return;
    }
    var i := 0;
    while i < |c.file.imports|
      invariant 0 <= i <= |c.file.imports|
      invariant forall k :: 0 <= k < i ==> !(c.file.imports[k] == result.file && c.file.imports[k] in c.files)
    {
      if c.file.imports[i] in c.files && c.file.imports[i] == result.file {
        return;
      }
      i := i + 1;
    }
    assert !IsVisible(c, result.file);
    if result.PackageSymbol? {
      if IsInPackage(c.file, name) {
        return;
      }
      i := 0;
      while i < |c.file.imports|
        invariant 0 <= i <= |c.file.imports|
        invariant forall k :: 0 <= k < i ==> !ImportInPackage(c, k, name)
      {
        if ImportInPackage(c, i, name) {
          return;
        }
        i := i + 1;
      }
    }
    return NullSymbol;
  }

  // ---------- relative names ----------

  /** find_first_of('.'), with |s| for npos. */
  function FirstDot(s: string): (p: nat)
    ensures p <= |s| && (p < |s| ==> s[p] == '.') && forall i :: 0 <= i < p ==> s[i] != '.'
  {
    if s == "" || s[0] == '.' then 0 else 1 + FirstDot(s[1..])
  }

  function FirstPart(name: string): string { name[..FirstDot(name)] }

  /** In this scope the first part of the name is found and settles the search: an aggregate if more parts
      follow, otherwise a type if types are asked for. */
  predicate Qualifies(c: Context, name: string, scope: string, mode: ResolveMode) {
    var first := FindSymbol(c, scope + "." + FirstPart(name));
    !first.NullSymbol? &&
      if |FirstPart(name)| < |name| then first.IsAggregate() else mode.LookupTypes? ==> first.IsType()
  }

  /** The search from the inside out, over the scopes of `relativeTo`. */
  function Search(c: Context, name: string, relativeTo: string, mode: ResolveMode): Symbol
    decreases |relativeTo|
  {
    var p := LastDot(relativeTo);
    if p == -1 then FindSymbol(c, name)
    else
      var scope := relativeTo[..p];
      if Qualifies(c, name, scope, mode) then FindSymbol(c, scope + "." + name)
      else Search(c, name, scope, mode)
  }

  function Lookup(c: Context, name: string, relativeTo: string, mode: ResolveMode): Symbol {
    if name != "" && name[0] == '.' then FindSymbol(c, name[1..]) else Search(c, name, relativeTo, mode)
  }

  /** scope is the innermost scope of relativeTo that qualifies. */
  ghost predicate Innermost(c: Context, name: string, relativeTo: string, mode: ResolveMode, scope: string) {
    && IsScopeOf(scope, relativeTo) && Qualifies(c, name, scope, mode)
    && forall s :: IsScopeOf(s, relativeTo) && Qualifies(c, name, s, mode) ==> |s| <= |scope|
  }

  lemma ScopesBelow(relativeTo: string, s: string)
    ensures IsScopeOf(s, relativeTo) <==>
      var p := LastDot(relativeTo); p >= 0 && (s == relativeTo[..p] || IsScopeOf(s, relativeTo[..p]))
  {
    var p := LastDot(relativeTo);
    if p >= 0 && |s| < p {
      assert relativeTo[..p][..|s|] == relativeTo[..|s|];
    }
  }

  lemma {:induction false} SearchTakesInnermost(c: Context, name: string, relativeTo: string, mode: ResolveMode, scope: string)
    requires Innermost(c, name, relativeTo, mode, scope)
    ensures Search(c, name, relativeTo, mode) == FindSymbol(c, scope + "." + name)
    decreases |relativeTo|
  {
    hide FindSymbol, Qualifies;
    ScopesBelow(relativeTo, scope);
    var inner := relativeTo[..LastDot(relativeTo)];
    ScopesBelow(relativeTo, inner);
    if !Qualifies(c, name, inner, mode) {
      forall s | IsScopeOf(s, inner) ensures IsScopeOf(s, relativeTo) { ScopesBelow(relativeTo, s); }
      SearchTakesInnermost(c, name, inner, mode, scope);
    }
  }

  lemma {:induction false} SearchFallsToRoot(c: Context, name: string, relativeTo: string, mode: ResolveMode)
    requires forall s :: IsScopeOf(s, relativeTo) ==> !Qualifies(c, name, s, mode)
    ensures Search(c, name, relativeTo, mode) == FindSymbol(c, name)
    decreases |relativeTo|
  {
    hide FindSymbol, Qualifies;
    var p := LastDot(relativeTo);
    if p >= 0 {
      ScopesBelow(relativeTo, relativeTo[..p]);
      forall s | IsScopeOf(s, relativeTo[..p]) ensures IsScopeOf(s, relativeTo) { ScopesBelow(relativeTo, s); }
      SearchFallsToRoot(c, name, relativeTo[..p], mode);
    }
  }

  /** A relative name means the name inside the innermost enclosing scope whose first part qualifies, even if the
      rest is missing there; only when no scope qualifies is it looked up at the root. */
  lemma LookupIsInnermost(c: Context, name: string, relativeTo: string, mode: ResolveMode, scope: string)
    requires name == "" || name[0] != '.'
    ensures Innermost(c, name, relativeTo, mode, scope) ==>
      Lookup(c, name, relativeTo, mode) == FindSymbol(c, scope + "." + name)
    ensures (forall s :: IsScopeOf(s, relativeTo) ==> !Qualifies(c, name, s, mode)) ==>
      Lookup(c, name, relativeTo, mode) == FindSymbol(c, name)
    ensures (exists s :: Innermost(c, name, relativeTo, mode, s)) || forall s :: IsScopeOf(s, relativeTo) ==> !Qualifies(c, name, s, mode)
  {
    hide FindSymbol, Qualifies, Search;
    if Innermost(c, name, relativeTo, mode, scope) {
      SearchTakesInnermost(c, name, relativeTo, mode, scope);
    }
    if forall s :: IsScopeOf(s, relativeTo) ==> !Qualifies(c, name, s, mode) {
      SearchFallsToRoot(c, name, relativeTo, mode);
    } else {
      var s := FindInnermost(c, name, relativeTo, mode);
    }
  }

  lemma {:induction false} FindInnermost(c: Context, name: string, relativeTo: string, mode: ResolveMode) returns (scope: string)
    requires exists s :: IsScopeOf(s, relativeTo) && Qualifies(c, name, s, mode)
    ensures Innermost(c, name, relativeTo, mode, scope)
    decreases |relativeTo|
  {
    hide FindSymbol, Qualifies;
    var s :| IsScopeOf(s, relativeTo) && Qualifies(c, name, s, mode);
    ScopesBelow(relativeTo, s);
    var inner := relativeTo[..LastDot(relativeTo)];
    ScopesBelow(relativeTo, inner);
    if Qualifies(c, name, inner, mode) {
      scope := inner;
    } else {
      scope := FindInnermost(c, name, inner, mode);
      ScopesBelow(relativeTo, scope);
      forall t | IsScopeOf(t, relativeTo) && Qualifies(c, name, t, mode) ensures |t| <= |scope| { ScopesBelow(relativeTo, t); }
    }
  }

  /** The loop edits one string: it chops the last component of the scope, appends the first part of the name,
      and takes it off again. */
  method LookupSymbolNoPlaceholder(c: Context, name: string, relativeTo: string, mode: ResolveMode) returns (result: Symbol)
    ensures result == Lookup(c, name, relativeTo, mode)
  {
    hide FindSymbol;
    if name != "" && name[0] == '.' {
      result := FindSymbolInPool(c, name[1..]);
      return;
    }
    var firstPartOfName := name[..FirstDot(name)];
    var scopeToTry := relativeTo;
    while true
      invariant Search(c, name, relativeTo, mode) == Search(c, name, scopeToTry, mode)
      decreases |scopeToTry|
    {
      var dotPos := LastDot(scopeToTry);
      if dotPos == -1 {
        result := FindSymbolInPool(c, name);
        return;
      }
      scopeToTry := scopeToTry[..dotPos];
      var oldSize := |scopeToTry|;
      ghost var scope := scopeToTry;
      scopeToTry := scopeToTry + ".";
      scopeToTry := scopeToTry + firstPartOfName;
      assert scopeToTry == scope + "." + FirstPart(name);
      result := FindSymbolInPool(c, scopeToTry);
      if !result.NullSymbol? {
        if |firstPartOfName| < |name| {
          if result.IsAggregate() {
            scopeToTry := scopeToTry + name[|firstPartOfName|..];
            assert scopeToTry == scope + "." + name;
            result := FindSymbolInPool(c, scopeToTry);
            return;
          }
        } else {
          if !(mode.LookupTypes? && !result.IsType()) {
            assert firstPartOfName == name;
            return;
          }
        }
      }
      scopeToTry := scopeToTry[..oldSize];
      assert scopeToTry == scope;
    }
  }
}
