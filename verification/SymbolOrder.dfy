/** Lexicographic order of std::string, and the symbol-name predicates that
    DescriptorIndex builds on it. */
module SymbolOrder {

  /** operator< of std::string: the first differing character decides, a proper prefix is smaller. */
  predicate Lt(a: string, b: string) {
    b != "" && (a == "" || a[0] < b[0] || (a[0] == b[0] && Lt(a[1..], b[1..])))
  }

  predicate Le(a: string, b: string) {
    a == b || Lt(a, b)
  }

  /** Characters allowed in a symbol name: letters, digits, '_' and the separator '.'. */
  predicate ValidChar(c: char) {
    c == '.' || c == '_' || '0' <= c <= '9' || 'A' <= c <= 'Z' || 'a' <= c <= 'z'
  }

  predicate ValidName(name: string) {
    forall i :: 0 <= i < |name| ==> ValidChar(name[i])
  }

  /** IsSubSymbol(sub, super): equal, or `sub` is a dotted prefix of `super`.
      (The source's parameter names read the other way round from what they hold.) */
  predicate IsSub(sub: string, super: string) {
    sub == super || (|sub| < |super| && super[..|sub|] == sub && super[|sub|] == '.')
  }

  lemma {:induction false} LtIrreflexive(a: string)
    ensures !Lt(a, a)
  {
    if a != "" { LtIrreflexive(a[1..]); }
  }

  lemma {:induction false} LtTotal(a: string, b: string)
    ensures Lt(a, b) || a == b || Lt(b, a)
  {
    if a != "" && b != "" && a[0] == b[0] {
      LtTotal(a[1..], b[1..]);
      assert a == [a[0]] + a[1..] && b == [b[0]] + b[1..];
    }
  }

  lemma {:induction false} LtTransitive(a: string, b: string, c: string)
    requires Lt(a, b) && Lt(b, c)
    ensures Lt(a, c)
  {
    if a != "" && a[0] == b[0] == c[0] { LtTransitive(a[1..], b[1..], c[1..]); }
  }

  /** A string sorts below each of its proper extensions. */
  lemma {:induction false} PrefixLt(a: string, t: string)
    requires t != ""
    ensures Lt(a, a + t)
  {
    if a == "" {
      assert a + t == t;
    } else {
      PrefixLt(a[1..], t);
      assert (a + t)[1..] == a[1..] + t;
    }
  }

  /** Everything strictly between a string and one of its extensions extends it as well. */
  lemma {:induction false} BetweenExtensions(k: string, p: string, t: string)
    requires Lt(k, p) && Le(p, k + t)
    ensures |k| < |p| && p[..|k|] == k && Le(p[|k|..], t)
  {
    if k == "" {
      assert k + t == t && p[|k|..] == p && p[..0] == k;
    } else {
      assert (k + t)[0] == k[0] && (k + t)[1..] == k[1..] + t;
      if p == k + t {
        assert p[|k|..] == t;
        if t == "" {
          assert p == k;
          LtIrreflexive(k);
        }
      } else {
        assert p[0] == k[0];
        BetweenExtensions(k[1..], p[1..], t);
        assert p[1..][|k| - 1..] == p[|k|..];
        assert p[..|k|] == [p[0]] + p[1..][..|k| - 1];
        assert k == [k[0]] + k[1..];
      }
    }
  }

  lemma SubIsLe(k: string, name: string)
    requires IsSub(k, name)
    ensures Le(k, name)
  {
    if k != name {
      PrefixLt(k, name[|k|..]);
      assert k + name[|k|..] == name;
    }
  }

  /** '.' is the smallest valid character, so the names below a symbol follow it without a gap:
      a valid name that sorts after `k` and no later than some name inside `k` is itself inside `k`. */
  lemma SubtreeIsContiguous(k: string, p: string, name: string)
    requires IsSub(k, name) && ValidName(p)
    requires Lt(k, p) && Le(p, name)
    ensures IsSub(k, p)
  {
    var t := name[|k|..];
    if k == name {
      LtIrreflexive(k);
      if p != name { LtTransitive(k, p, k); }
      assert false;
    } else {
      assert k + t == name;
      BetweenExtensions(k, p, t);
      assert p[|k|..][0] == p[|k|];
      assert t[0] == '.';
      assert ValidChar(p[|k|]);
    }
  }
}
