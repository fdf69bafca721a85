/** Values shared by every part of the model: options, results and addresses. */
module Common {

  datatype Option<+T> = None | Some(value: T)

  datatype Result<+T, +E> = Ok(value: T) | Err(error: E)

  /** An EVM address as the program handles it, as text: `value` is the 160-bit
      number it denotes and `spelling` stands for the letter case of its digits.
      Fixed-width lower-case hex text orders as the number does. */
  datatype Address = Address(value: nat, spelling: nat)

  /** `a.toLowerCase()`: the canonical spelling of the same address. */
  function Lower(a: Address): Address {
    Address(a.value, 0)
  }

  /** Case-insensitive membership in an accepted set. */
  predicate Accepts(accepted: set<Address>, a: Address) {
    exists c :: c in accepted && Lower(c) == Lower(a)
  }

  /** Case-insensitive membership in a list. */
  predicate Lists(addresses: seq<Address>, a: Address) {
    exists i :: 0 <= i < |addresses| && Lower(addresses[i]) == Lower(a)
  }

  /** Spelling never matters: addresses are compared by the number they denote. */
  lemma ByValue(accepted: set<Address>, addresses: seq<Address>, a: Address, b: Address)
    ensures Lower(a) == Lower(b) <==> a.value == b.value
    ensures Accepts(accepted, a) <==> exists c :: c in accepted && c.value == a.value
    ensures Lists(addresses, a) <==> exists c :: c in addresses && c.value == a.value
  {
    if Lists(addresses, a) {
      var i :| 0 <= i < |addresses| && Lower(addresses[i]) == Lower(a);
      assert addresses[i] in addresses && addresses[i].value == a.value;
    }
    if c :| c in addresses && c.value == a.value {
      var i :| 0 <= i < |addresses| && addresses[i] == c;
    }
  }

  function Min(a: int, b: int): int {
    if a < b then a else b
  }

  function Max(a: int, b: int): int {
    if a > b then a else b
  }

  /** The elements of `s` that satisfy `p`, in order. */
  function Filter<T>(s: seq<T>, p: T -> bool): seq<T> {
    if s == [] then []
    else
      var rest := Filter(s[..|s| - 1], p);
      if p(s[|s| - 1]) then rest + [s[|s| - 1]] else rest
  }

  /** Filtering keeps every copy of an element that satisfies `p` and no copy of any other. */
  lemma {:induction false} FilterCount<T>(s: seq<T>, p: T -> bool, x: T)
    ensures multiset(Filter(s, p))[x] == if p(x) then multiset(s)[x] else 0
  {
    if s != [] {
      var n := |s| - 1;
      assert s == s[..n] + [s[n]];
      FilterCount(s[..n], p, x);
    }
  }

  lemma FilterMember<T>(s: seq<T>, p: T -> bool, x: T)
    ensures x in Filter(s, p) <==> x in s && p(x)
  {}

  /** `rel` holds between every element and each later one. */
  ghost predicate Pairwise<T(!new)>(s: seq<T>, rel: (T, T) -> bool) {
    forall i, j :: 0 <= i < j < |s| ==> rel(s[i], s[j])
  }

  lemma {:induction false} FilterPairwise<T(!new)>(s: seq<T>, p: T -> bool, rel: (T, T) -> bool)
    requires Pairwise(s, rel)
    ensures Pairwise(Filter(s, p), rel)
  {
    if s != [] {
      var n := |s| - 1;
      FilterPairwise(s[..n], p, rel);
      var rest := Filter(s[..n], p);
      forall i | 0 <= i < |rest| ensures rel(rest[i], s[n]) {
        assert rest[i] in rest;
        FilterMember(s[..n], p, rest[i]);
      }
    }
  }

  lemma {:induction false} FilterAll<T>(s: seq<T>, p: T -> bool)
    requires forall i :: 0 <= i < |s| ==> p(s[i])
    ensures Filter(s, p) == s
  {
    if s != [] {
      FilterAll(s[..|s| - 1], p);
    }
  }

  lemma {:induction false} FilterAppendNone<T>(s: seq<T>, rest: seq<T>, p: T -> bool)
    requires forall i :: 0 <= i < |rest| ==> !p(rest[i])
    ensures Filter(s + rest, p) == Filter(s, p)
  {
    if rest == [] {
      assert s + rest == s;
    } else {
      var n := |rest| - 1;
      assert (s + rest)[..|s + rest| - 1] == s + rest[..n];
      FilterAppendNone(s, rest[..n], p);
    }
  }

  lemma FilterNone<T>(s: seq<T>, p: T -> bool)
    requires forall i :: 0 <= i < |s| ==> !p(s[i])
    ensures Filter(s, p) == []
  {}
}
