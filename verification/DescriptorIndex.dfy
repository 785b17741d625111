/** SimpleDescriptorDatabase::DescriptorIndex: an ordered map of symbol names, queried by
    "last key not above the name".  std::map is a sorted sequence of entries and an iterator is
    an index into it; end() is the length. */
module DescriptorIndex {
  import opened Prelude
  import opened SymbolOrder

  datatype Entry<V> = Entry(key: string, value: V)

  // ---------- the ordered map ----------

  predicate Sorted<V>(m: seq<Entry<V>>) {
    forall i, j :: 0 <= i < j < |m| ==> Lt(m[i].key, m[j].key)
  }

  predicate ValidKeys<V>(m: seq<Entry<V>>) {
    forall i :: 0 <= i < |m| ==> ValidName(m[i].key)
  }

  /** No key is a sub-symbol of another: the map invariant the source comments ask for. */
  predicate Antichain<V>(m: seq<Entry<V>>) {
    forall i, j :: 0 <= i < |m| && 0 <= j < |m| && i != j ==> !IsSub(m[i].key, m[j].key)
  }

  predicate HasKey<V>(m: seq<Entry<V>>, k: string) {
    exists i :: 0 <= i < |m| && m[i].key == k
  }

  /** std::map::upper_bound: the first entry whose key sorts above `name`. */
  function UpperBound<V>(m: seq<Entry<V>>, name: string): (i: nat)
    requires Sorted(m)
    ensures i <= |m|
    ensures forall j :: 0 <= j < i ==> Le(m[j].key, name)
    ensures forall j :: i <= j < |m| ==> Lt(name, m[j].key)
  {
    if m == [] then 0
    else
      var n := |m| - 1;
      LtTotal(m[n].key, name);
      if Le(m[n].key, name) then
        assert forall j :: 0 <= j < n ==> Le(m[j].key, name) by {
          forall j | 0 <= j < n ensures Le(m[j].key, name) {
            if m[n].key != name { LtTransitive(m[j].key, m[n].key, name); }
          }
        }
        |m|
      else UpperBound(m[..n], name)
  }

  /** FindLastLessOrEqual, branch for branch: it steps back from upper_bound unless that is begin(),
      so on a map whose keys all sort above `name` it yields begin(). */
  function FindLast<V>(m: seq<Entry<V>>, name: string): (i: nat)
    requires Sorted(m)
    ensures i <= |m|
    ensures i == |m| <==> m == []
    ensures i < |m| ==> forall j :: i < j < |m| ==> Lt(name, m[j].key)
    ensures i < |m| && Lt(name, m[i].key) ==> i == 0
  {
    var u := UpperBound(m, name);
    if u != 0 then LeNotGt(m[u - 1].key, name); u - 1 else u
  }

  lemma LeNotGt(a: string, b: string)
    requires Le(a, b)
    ensures !Lt(b, a)
  {
    LtIrreflexive(a);
    if Lt(b, a) && Lt(a, b) { LtTransitive(a, b, a); }
  }

  /** FindSymbol on the entries. */
  function Find<V>(m: seq<Entry<V>>, name: string): Option<V>
    requires Sorted(m)
  {
    var i := FindLast(m, name);
    if i != |m| && IsSub(m[i].key, name) then Some(m[i].value) else None
  }

  /** std::map::insert: the hint does not decide the position, the order does. */
  function Insert<V>(m: seq<Entry<V>>, name: string, value: V): (r: seq<Entry<V>>)
    requires Sorted(m) && !HasKey(m, name)
    ensures Sorted(r)
    ensures Inserted(m, UpperBound(m, name), Entry(name, value), r)
  {
    var u := UpperBound(m, name);
    assert forall j :: 0 <= j < u ==> Lt(m[j].key, name);
    m[..u] + [Entry(name, value)] + m[u..]
  }

  /** `r` is `m` with `e` put in front of position `u`. */
  ghost predicate Inserted<V>(m: seq<Entry<V>>, u: nat, e: Entry<V>, r: seq<Entry<V>>) {
    && u <= |m| && |r| == |m| + 1
    && r[u] == e
    && (forall i :: 0 <= i < u ==> r[i] == m[i])
    && (forall i :: u < i < |r| ==> r[i] == m[i - 1])
  }

  /** AddSymbol on the entries, branch for branch. */
  function Add<V>(m: seq<Entry<V>>, name: string, value: V): (r: (bool, seq<Entry<V>>))
    requires Sorted(m)
    ensures Sorted(r.1)
    ensures !r.0 ==> r.1 == m
    ensures r.0 ==> ValidName(name) && !HasKey(m, name) && r.1 == Insert(m, name, value)
  {
    if !ValidName(name) then (false, m)
    else
      var i := FindLast(m, name);
      if i == |m| then (true, Insert(m, name, value))
      else if IsSub(m[i].key, name) then (false, m)
      else if i + 1 != |m| && IsSub(name, m[i + 1].key) then (false, m)
      else
        FreshKey(m, name);
        (true, Insert(m, name, value))
  }

  lemma FreshKey<V>(m: seq<Entry<V>>, name: string)
    requires Sorted(m) && m != []
    requires !IsSub(m[FindLast(m, name)].key, name)
    ensures !HasKey(m, name)
  {
    LtIrreflexive(name);
  }

  // ---------- FindSymbol against exhaustive search ----------

  /** Some key is `name` itself or one of its dotted prefixes. */
  predicate Enclosed<V>(m: seq<Entry<V>>, name: string) {
    exists i :: 0 <= i < |m| && IsSub(m[i].key, name)
  }

  /** The single probe of FindSymbol is an exhaustive search: it answers exactly when some key
      encloses the name, and what it answers belongs to such a key. */
  ghost predicate AgreesOn<V>(m: seq<Entry<V>>, name: string)
    requires Sorted(m)
  {
    && (Find(m, name).Some? <==> Enclosed(m, name))
    && (Find(m, name).Some? ==>
        exists i :: 0 <= i < |m| && IsSub(m[i].key, name) && Find(m, name) == Some(m[i].value))
  }

  ghost predicate Agrees<V>(m: seq<Entry<V>>)
    requires Sorted(m)
  {
    forall name: string :: AgreesOn(m, name)
  }

  /** With no sub-symbol pairs at most one key encloses a name, and the probe lands on it. */
  lemma ProbeFindsEncloser<V>(m: seq<Entry<V>>, name: string, k: nat)
    requires Sorted(m) && ValidKeys(m) && Antichain(m)
    requires k < |m| && IsSub(m[k].key, name)
    ensures FindLast(m, name) == k
  {
    var i := FindLast(m, name);
    SubIsLe(m[k].key, name);
    LeNotGt(m[k].key, name);
    assert k <= i;
    if k < i {
      LtTotal(m[i].key, name);
      assert Le(m[i].key, name);
      SubtreeIsContiguous(m[k].key, m[i].key, name);
      assert false;
    }
  }

  lemma AntichainAgrees<V>(m: seq<Entry<V>>)
    requires Sorted(m) && ValidKeys(m) && Antichain(m)
    ensures Agrees(m)
  {
    forall name: string ensures AgreesOn(m, name) {
      if Enclosed(m, name) {
        var k :| 0 <= k < |m| && IsSub(m[k].key, name);
        ProbeFindsEncloser(m, name, k);
      }
    }
  }

  /** The largest key lying strictly inside key `i`. */
  function LastInside<V>(m: seq<Entry<V>>, i: nat, n: nat): (r: Option<nat>)
    requires i < |m| && n <= |m|
    ensures r.Some? ==> r.value < n && r.value != i && IsSub(m[i].key, m[r.value].key)
    ensures forall j :: (if r.Some? then r.value + 1 else 0) <= j < n && j != i ==> !IsSub(m[i].key, m[j].key)
  {
    if n == 0 then None
    else if n - 1 != i && IsSub(m[i].key, m[n - 1].key) then Some(n - 1)
    else LastInside(m, i, n - 1)
  }

  /** Whenever one key lies inside another, some name enclosed by the outer key is missed:
      extend the largest inner key with a character other than '.'. */
  lemma NestedKeysAreMissed<V>(m: seq<Entry<V>>, i: nat, j: nat)
    requires Sorted(m) && ValidKeys(m)
    requires i < |m| && j < |m| && i != j && IsSub(m[i].key, m[j].key)
    ensures !Agrees(m)
  {
    var r := LastInside(m, i, |m|);
    var q := r.value;
    var outer, inner := m[i].key, m[q].key;
    var name := inner + "0";
    assert outer != inner by {
      LtIrreflexive(outer);
      assert if i < q then Lt(outer, inner) else Lt(inner, outer);
    }
    assert name[..|outer|] == inner[..|outer|] && name[|outer|] == inner[|outer|];
    assert IsSub(outer, name) && Enclosed(m, name);
    PrefixLt(inner, "0");
    LeNotGt(inner, name);
    var p := FindLast(m, name);
    assert q <= p;
    assert !IsSub(inner, name);
    if q < p {
      LtTotal(m[p].key, name);
      assert Le(m[p].key, name);
      SubIsLe(outer, inner);
      LtTransitive(outer, inner, m[p].key);
      SubtreeIsContiguous(outer, m[p].key, name);
      LtIrreflexive(outer);
      assert false;
    }
    assert Find(m, name) == None;
    assert !AgreesOn(m, name);
  }

  /** FindSymbol is an exhaustive search on every name exactly when no key is inside another. */
  lemma AgreesIffAntichain<V>(m: seq<Entry<V>>)
    requires Sorted(m) && ValidKeys(m)
    ensures Agrees(m) <==> Antichain(m)
  {
    if Antichain(m) {
      AntichainAgrees(m);
    } else {
      var i, j :| 0 <= i < |m| && 0 <= j < |m| && i != j && IsSub(m[i].key, m[j].key);
      NestedKeysAreMissed(m, i, j);
    }
  }

  // ---------- AddSymbol ----------

  /** Inserting `name` would put one key inside another. */
  predicate Conflicts<V>(m: seq<Entry<V>>, name: string) {
    exists i :: 0 <= i < |m| && (IsSub(m[i].key, name) || IsSub(name, m[i].key))
  }

  /** The branch that goes wrong: every key sorts above `name`, so the iterator is begin() and the
      increment steps over the one neighbour that had to be inspected. */
  predicate Gap<V>(m: seq<Entry<V>>, name: string) {
    && m != [] && Lt(name, m[0].key) && IsSub(name, m[0].key)
    && !(|m| > 1 && IsSub(name, m[1].key))
  }

  lemma GtNotSub(k: string, name: string)
    requires Lt(name, k)
    ensures !IsSub(k, name)
  {
    if IsSub(k, name) {
      SubIsLe(k, name);
      LeNotGt(k, name);
    }
  }

  lemma GapProbe<V>(m: seq<Entry<V>>, name: string)
    requires Sorted(m) && Gap(m, name)
    ensures FindLast(m, name) == 0 && !IsSub(m[0].key, name)
  {
    GtNotSub(m[0].key, name);
    forall j | 0 <= j < |m| ensures Lt(name, m[j].key) {
      if j != 0 { LtTransitive(name, m[0].key, m[j].key); }
    }
  }

  /** Away from the gap two neighbours decide the conflict with the whole map. */
  lemma AddDecidesConflicts<V>(m: seq<Entry<V>>, name: string, value: V)
    requires Sorted(m) && ValidKeys(m) && Antichain(m) && ValidName(name)
    ensures Add(m, name, value).0 <==> !Conflicts(m, name) || Gap(m, name)
  {
    if m != [] {
      var i := FindLast(m, name);
      forall k | 0 <= k < |m| && IsSub(m[k].key, name) ensures k == i {
        ProbeFindsEncloser(m, name, k);
      }
      var first := if Lt(name, m[i].key) then i else i + 1;
      forall k | 0 <= k < |m| && IsSub(name, m[k].key) && name != m[k].key
        ensures first < |m| && first <= k && IsSub(name, m[first].key)
      {
        SubIsLe(name, m[k].key);
        if k < first {
          if k < i { LtTransitive(name, m[k].key, m[i].key); }
          assert false;
        }
        if first < k { SubtreeIsContiguous(name, m[first].key, m[k].key); }
      }
      if i + 1 < |m| && IsSub(name, m[i + 1].key) { assert Conflicts(m, name); }
      if IsSub(m[i].key, name) {
        assert Conflicts(m, name);
        SubIsLe(m[i].key, name);
        LeNotGt(m[i].key, name);
      }
      if Gap(m, name) { GapProbe(m, name); }
    }
  }

  /** Where the entry at position `i` of `m` is found after an insertion at `u`. */
  function Shift(u: nat, i: nat): nat {
    if i < u then i else i + 1
  }

  lemma InsertBreaksAntichain<V>(m: seq<Entry<V>>, u: nat, e: Entry<V>, r: seq<Entry<V>>)
    requires Inserted(m, u, e, r)
    requires !Antichain(m) || Conflicts(m, e.key)
    ensures !Antichain(r)
  {
    forall i | 0 <= i < |m| ensures r[Shift(u, i)] == m[i] {}
    if Conflicts(m, e.key) {
      var i :| 0 <= i < |m| && (IsSub(m[i].key, e.key) || IsSub(e.key, m[i].key));
      assert IsSub(r[Shift(u, i)].key, r[u].key) || IsSub(r[u].key, r[Shift(u, i)].key);
    } else {
      var i, j :| 0 <= i < |m| && 0 <= j < |m| && i != j && IsSub(m[i].key, m[j].key);
      assert IsSub(r[Shift(u, i)].key, r[Shift(u, j)].key);
    }
  }

  lemma InsertKeepsAntichain<V>(m: seq<Entry<V>>, u: nat, e: Entry<V>, r: seq<Entry<V>>)
    requires Inserted(m, u, e, r)
    requires Antichain(m) && !Conflicts(m, e.key)
    ensures Antichain(r)
  {
    forall i, j | 0 <= i < |r| && 0 <= j < |r| && i != j ensures !IsSub(r[i].key, r[j].key) {
      if i != u && j != u {
        var i', j' := if i < u then i else i - 1, if j < u then j else j - 1;
        assert r[i] == m[i'] && r[j] == m[j'] && i' != j';
      }
    }
  }

  lemma InsertKeepsAntichainIff<V>(m: seq<Entry<V>>, name: string, value: V)
    requires Sorted(m) && Antichain(m) && !HasKey(m, name)
    ensures Antichain(Insert(m, name, value)) <==> !Conflicts(m, name)
  {
    var r, u := Insert(m, name, value), UpperBound(m, name);
    if Conflicts(m, name) {
      InsertBreaksAntichain(m, u, Entry(name, value), r);
    } else {
      InsertKeepsAntichain(m, u, Entry(name, value), r);
    }
  }

  /** One AddSymbol meets its comment -- keep the keys free of sub-symbol pairs and reject exactly
      the names that would create one -- if and only if the call does not fall into the gap. */
  lemma AddIsRightIffNoGap<V>(m: seq<Entry<V>>, name: string, value: V)
    requires Sorted(m) && ValidKeys(m) && Antichain(m) && ValidName(name)
    ensures (Antichain(Add(m, name, value).1) && (Add(m, name, value).0 <==> !Conflicts(m, name)))
            <==> !Gap(m, name)
  {
    AddDecidesConflicts(m, name, value);
    if Add(m, name, value).0 { InsertKeepsAntichainIff(m, name, value); }
    if Gap(m, name) { assert Conflicts(m, name); }
  }

  // ---------- whole runs ----------

  datatype Request<V> = Request(name: string, value: V)

  /** The index after a series of AddSymbol calls, whatever they return. */
  function Run<V>(adds: seq<Request<V>>): (m: seq<Entry<V>>)
    ensures Sorted(m)
  {
    if adds == [] then []
    else
      var last := adds[|adds| - 1];
      Add(Run(adds[..|adds| - 1]), last.name, last.value).1
  }

  /** Call number `n` of the run falls into the gap. */
  predicate GapAt<V>(adds: seq<Request<V>>, n: nat)
    requires n < |adds|
  {
    ValidName(adds[n].name) && Gap(Run(adds[..n]), adds[n].name)
  }

  lemma {:induction false} RunKeysValid<V>(adds: seq<Request<V>>)
    ensures ValidKeys(Run(adds))
  {
    if adds != [] {
      var n := |adds| - 1;
      RunKeysValid(adds[..n]);
      var m := Run(adds[..n]);
    }
  }

  lemma BrokenStaysBroken<V>(m: seq<Entry<V>>, name: string, value: V)
    requires Sorted(m) && !Antichain(m)
    ensures !Antichain(Add(m, name, value).1)
  {
    if Add(m, name, value).0 {
      InsertBreaksAntichain(m, UpperBound(m, name), Entry(name, value), Insert(m, name, value));
    }
  }

  /** A call keeps the keys free of sub-symbol pairs exactly when they were and it misses the gap. */
  lemma AddAntichainIff<V>(m: seq<Entry<V>>, name: string, value: V)
    requires Sorted(m) && ValidKeys(m)
    ensures Antichain(Add(m, name, value).1) <==> Antichain(m) && !(ValidName(name) && Gap(m, name))
  {
    if !Antichain(m) {
      BrokenStaysBroken(m, name, value);
    } else if ValidName(name) {
      AddDecidesConflicts(m, name, value);
      if Add(m, name, value).0 { InsertKeepsAntichainIff(m, name, value); }
      if Gap(m, name) { assert Conflicts(m, name); }
    }
  }

  lemma GapAtPrefix<V>(adds: seq<Request<V>>, k: nat, n: nat)
    requires n < k <= |adds|
    ensures GapAt(adds[..k], n) <==> GapAt(adds, n)
  {
    assert adds[..k][..n] == adds[..n];
  }

  ghost predicate NoGap<V>(adds: seq<Request<V>>) {
    forall n :: 0 <= n < |adds| ==> !GapAt(adds, n)
  }

  lemma NoGapStep<V>(adds: seq<Request<V>>)
    requires adds != []
    ensures var k := |adds| - 1; NoGap(adds) <==> NoGap(adds[..k]) && !GapAt(adds, k)
  {
    var k := |adds| - 1;
    forall n | 0 <= n < k ensures GapAt(adds[..k], n) <==> GapAt(adds, n) {
      GapAtPrefix(adds, k, n);
    }
  }

  lemma {:induction false} RunAntichainIff<V>(adds: seq<Request<V>>)
    ensures Antichain(Run(adds)) <==> NoGap(adds)
  {
    if adds != [] {
      var k := |adds| - 1;
      var before := adds[..k];
      RunAntichainIff(before);
      RunKeysValid(before);
      AddAntichainIff(Run(before), adds[k].name, adds[k].value);
      NoGapStep(adds);
    }
  }

  /** After any series of AddSymbol calls, FindSymbol is an exhaustive search on every name exactly
      when no call of the series fell into the gap. */
  lemma RunAgreesIff<V>(adds: seq<Request<V>>)
    ensures Agrees(Run(adds)) <==> NoGap(adds)
  {
    RunKeysValid(adds);
    RunAntichainIff(adds);
    AgreesIffAntichain(Run(adds));
  }

  lemma {:induction false} SamePrefixLt(p: string, a: string, b: string)
    ensures Lt(p + a, p + b) <==> Lt(a, b)
  {
    if p == "" {
      assert p + a == a && p + b == b;
    } else {
      SamePrefixLt(p[1..], a, b);
      assert (p + a)[1..] == p[1..] + a && (p + b)[1..] == p[1..] + b;
    }
  }

  lemma ExampleOrder()
    ensures Lt("foo", "foo.bar") && Lt("foo.bar", "foo.baz")
    ensures IsSub("foo", "foo.bar") && IsSub("foo", "foo.baz") && !IsSub("foo.bar", "foo.baz")
  {
    assert "foo" + ".bar" == "foo.bar" && "foo.ba" + "r" == "foo.bar" && "foo.ba" + "z" == "foo.baz";
    PrefixLt("foo", ".bar");
    SamePrefixLt("foo.ba", "r", "z");
    assert "foo.bar"[..3] == "foo" == "foo.baz"[..3];
  }

  lemma ExampleInsert(m: seq<Entry<int>>)
    requires m == [Entry("foo.bar", 1)]
    ensures Gap(m, "foo") && Add(m, "foo", 2) == (true, [Entry("foo", 2), Entry("foo.bar", 1)])
  {
    ExampleOrder();
    assert m[0].key == "foo.bar";
    GapProbe(m, "foo");
    LeNotGt("foo", "foo.bar");
    assert UpperBound(m, "foo") == 0;
    var r := Add(m, "foo", 2);
    assert ValidName("foo") && r.0;
    assert Inserted(m, 0, Entry("foo", 2), r.1);
    assert r.1 == [Entry("foo", 2), m[0]];
  }

  lemma ExampleLookup(m: seq<Entry<int>>)
    requires m == [Entry("foo", 2), Entry("foo.bar", 1)]
    requires Sorted(m)
    ensures Enclosed(m, "foo.baz") && Find(m, "foo.baz") == None
  {
    ExampleOrder();
    assert IsSub(m[0].key, "foo.baz");
    LeNotGt("foo.bar", "foo.baz");
    assert FindLast(m, "foo.baz") == 1;
  }

  /** The smallest failing run: "foo.bar", then its own package "foo".  Both are accepted, and the
      symbol "foo.baz" is then not found although "foo" encloses it. */
  lemma GapExample()
    ensures var adds := [Request("foo.bar", 1), Request("foo", 2)];
      GapAt(adds, 1) && Enclosed(Run(adds), "foo.baz") && Find(Run(adds), "foo.baz") == None
  {
    var adds := [Request("foo.bar", 1), Request("foo", 2)];
    var first := adds[..1];
    assert first[..0] == [] && first[0] == adds[0];
    assert Run(first) == [Entry("foo.bar", 1)];
    ExampleInsert(Run(first));
    ExampleLookup(Run(adds));
  }

  // ---------- the class ----------

  class Index<V> {
    var bySymbol: seq<Entry<V>>

    ghost predicate Valid()
      reads this
    {
      Sorted(bySymbol) && ValidKeys(bySymbol)
    }

    constructor ()
      ensures Valid() && bySymbol == []
    {
      bySymbol := [];
    }

    method FindLastLessOrEqual(name: string) returns (iter: nat)
      requires Valid()
      ensures iter == FindLast(bySymbol, name)
    {
      iter := UpperBound(bySymbol, name);
      if iter != 0 {
        iter := iter - 1;
      }
    }

    method ValidateSymbolName(name: string) returns (ok: bool)
      ensures ok <==> ValidName(name)
    {
      var i := 0;
      while i < |name|
        invariant 0 <= i <= |name|
        invariant forall j :: 0 <= j < i ==> ValidChar(name[j])
      {
        if name[i] != '.' && name[i] != '_' &&
           (name[i] < '0' || name[i] > '9') &&
           (name[i] < 'A' || name[i] > 'Z') &&
           (name[i] < 'a' || name[i] > 'z') {
          return false;
        }
        i := i + 1;
      }
      return true;
    }

    method FindSymbol(name: string) returns (value: Option<V>)
      requires Valid()
      ensures value == Find(bySymbol, name)
      ensures Antichain(bySymbol) ==> (value.Some? <==> Enclosed(bySymbol, name))
    {
      var iter := FindLastLessOrEqual(name);
      if iter != |bySymbol| && IsSub(bySymbol[iter].key, name) {
        value := Some(bySymbol[iter].value);
      } else {
        value := None;
      }
      ghost var m := bySymbol;
      if Antichain(m) {
        AntichainAgrees(m);
        assert AgreesOn(m, name);
      }
    }

    method AddSymbol(name: string, value: V) returns (ok: bool)
      requires Valid()
      modifies this
      ensures Valid()
      ensures (ok, bySymbol) == Add(old(bySymbol), name, value)
      ensures old(Antichain(bySymbol)) && ValidName(name) && !old(Gap(bySymbol, name)) ==>
        Antichain(bySymbol) && (ok <==> !old(Conflicts(bySymbol, name)))
    {
      ghost var m := bySymbol;
      if Antichain(m) && ValidName(name) { AddIsRightIffNoGap(m, name, value); }
      var valid := ValidateSymbolName(name);
      if !valid {
        return false;
      }
      var iter := FindLastLessOrEqual(name);
      if iter == |bySymbol| {
        bySymbol := Insert(bySymbol, name, value);
        return true;
      }
      if IsSub(bySymbol[iter].key, name) {
        return false;
      }
      iter := iter + 1;
      if iter != |bySymbol| && IsSub(name, bySymbol[iter].key) {
        return false;
      }
      FreshKey(m, name);
      bySymbol := Insert(bySymbol, name, value);
      return true;
    }
  }
}
