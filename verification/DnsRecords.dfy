/** DNS records, their keys and normal form, the insertion-ordered dictionary they are kept in, and its listing. */
module DnsRecords {
  import opened Prelude
  import opened Text
  import opened Sorting

  datatype DnsRecord = DnsRecord(
    rtype: string, name: string, value: string, ttl: int,
    priority: Option<int>, purpose: string, proxied: bool)

  /** The dictionary key. The digest of a TXT value stands for the value it was taken from. */
  datatype Key = Key(rtype: string, name: string, tag: Option<string>)

  function KeyOf(r: DnsRecord): Key {
    Key(r.rtype, r.name, if r.rtype == "TXT" then Some(r.value) else None)
  }

  /** The key as the program spells it. */
  function KeyString(r: DnsRecord, digest: string -> string): string {
    r.rtype + ":" + r.name + if r.rtype == "TXT" then ":" + digest(r.value) else ""
  }

  lemma ColonSplits(a: string, b: string, a': string, b': string)
    requires ':' !in a && ':' !in a' && a + ":" + b == a' + ":" + b'
    ensures a == a' && b == b'
  {
    SplitFirst(a, ':', b);
    SplitFirst(a', ':', b');
    assert a == Split(a + ":" + b, ':')[0] == a';
    assert (a + ":" + b)[|a|+1..] == b && (a' + ":" + b')[|a'|+1..] == b';
  }

  function Tail(r: DnsRecord, digest: string -> string): string {
    r.name + if r.rtype == "TXT" then ":" + digest(r.value) else ""
  }

  lemma KeyStringTail(r: DnsRecord, digest: string -> string)
    ensures KeyString(r, digest) == r.rtype + ":" + Tail(r, digest)
    ensures r.rtype == "TXT" ==> Tail(r, digest) == r.name + ":" + digest(r.value)
  {
  }

  /** Where the digests of two values tell them apart, key strings tell apart exactly what keys do. */
  lemma KeyStringIsFaithful(r: DnsRecord, s: DnsRecord, digest: string -> string)
    requires ':' !in r.rtype && ':' !in r.name && ':' !in s.rtype && ':' !in s.name
    requires digest(r.value) == digest(s.value) ==> r.value == s.value
    ensures KeyString(r, digest) == KeyString(s, digest) <==> KeyOf(r) == KeyOf(s)
  {
    KeyStringTail(r, digest);
    KeyStringTail(s, digest);
    if KeyString(r, digest) == KeyString(s, digest) {
      ColonSplits(r.rtype, Tail(r, digest), s.rtype, Tail(s, digest));
      if r.rtype == "TXT" {
        ColonSplits(r.name, digest(r.value), s.name, digest(s.value));
      } else {
        assert Tail(r, digest) == r.name && Tail(s, digest) == s.name;
      }
    }
    if KeyOf(r) == KeyOf(s) {
      assert r.rtype == s.rtype && r.name == s.name;
    }
  }

  /** The prefix test of `find` and `remove` selects exactly the TXT records at the name. */
  lemma TxtPrefixIsOwner(r: DnsRecord, name: string, digest: string -> string)
    requires ':' !in r.rtype && ':' !in r.name && ':' !in name
    ensures "TXT:" + name + ":" <= KeyString(r, digest) <==> r.rtype == "TXT" && r.name == name
  {
    var prefix, k := "TXT:" + name + ":", KeyString(r, digest);
    KeyStringTail(r, digest);
    if prefix <= k {
      var more := k[|prefix|..];
      assert k == "TXT" + ":" + (name + ":" + more);
      ColonSplits(r.rtype, Tail(r, digest), "TXT", name + ":" + more);
      ColonSplits(r.name, digest(r.value), name, more);
    }
    if r.rtype == "TXT" && r.name == name {
      assert k == prefix + digest(r.value);
    }
  }

  // ---- Normal form ----

  function DropDots(s: string): string {
    if s != "" && s[|s|-1] == '.' then DropDots(s[..|s|-1]) else s
  }

  /** Exactly one trailing dot. */
  function Canonical(name: string): string { DropDots(name) + "." }

  lemma {:induction false} DropDotsStops(s: string)
    ensures var t := DropDots(s); t <= s && (t == "" || t[|t|-1] != '.') && DropDots(t) == t
  {
    if s != "" && s[|s|-1] == '.' {
      DropDotsStops(s[..|s|-1]);
    }
  }

  lemma CanonicalIdempotent(name: string)
    ensures Canonical(Canonical(name)) == Canonical(name)
  {
    DropDotsStops(name);
    assert Canonical(name)[..|Canonical(name)|-1] == DropDots(name);
  }

  predicate Normal(r: DnsRecord) { Upper(r.rtype) == r.rtype && Canonical(r.name) == r.name }

  predicate AllNormal(rs: seq<DnsRecord>) { forall r :: r in rs ==> Normal(r) }

  // ---- The dictionary ----

  predicate DistinctKeys(rs: seq<DnsRecord>) {
    forall i, j :: 0 <= i < j < |rs| ==> KeyOf(rs[i]) != KeyOf(rs[j])
  }

  function Keys(rs: seq<DnsRecord>): set<Key> { set r | r in rs :: KeyOf(r) }

  function Lookup(rs: seq<DnsRecord>, k: Key): (r: Option<DnsRecord>)
    ensures r.Some? ==> r.value in rs && KeyOf(r.value) == k
    ensures r.Some? <==> k in Keys(rs)
  {
    if rs == [] then None
    else if KeyOf(rs[0]) == k then assert rs[0] in rs; Some(rs[0])
    else
      assert Keys(rs) == {KeyOf(rs[0])} + Keys(rs[1..]) by { assert rs == [rs[0]] + rs[1..]; }
      Lookup(rs[1..], k)
  }

  lemma {:induction false} LookupUnique(rs: seq<DnsRecord>, r: DnsRecord)
    requires DistinctKeys(rs) && r in rs
    ensures Lookup(rs, KeyOf(r)) == Some(r)
  {
    if rs[0] != r {
      var j :| 0 <= j < |rs| && rs[j] == r;
      LookupUnique(rs[1..], r);
    }
  }

  /** `d[k] = r` on an insertion-ordered dictionary: replaced in place, or added at the end. */
  function Put(rs: seq<DnsRecord>, r: DnsRecord): seq<DnsRecord> {
    if rs == [] then [r]
    else if KeyOf(rs[0]) == KeyOf(r) then [r] + rs[1..]
    else [rs[0]] + Put(rs[1..], r)
  }

  lemma {:induction false} PutLookup(rs: seq<DnsRecord>, r: DnsRecord)
    ensures forall k :: Lookup(Put(rs, r), k) == if k == KeyOf(r) then Some(r) else Lookup(rs, k)
    ensures Keys(Put(rs, r)) == Keys(rs) + {KeyOf(r)}
    ensures DistinctKeys(rs) ==> DistinctKeys(Put(rs, r))
  {
    if rs != [] {
      PutLookup(rs[1..], r);
      if KeyOf(rs[0]) == KeyOf(r) {
        assert ([r] + rs[1..])[1..] == rs[1..];
      } else {
        assert ([rs[0]] + Put(rs[1..], r))[1..] == Put(rs[1..], r);
        if DistinctKeys(rs) {
          assert KeyOf(rs[0]) !in Keys(rs[1..]);
          var q := Put(rs[1..], r);
          forall j | 0 <= j < |q|
            ensures KeyOf(rs[0]) != KeyOf(q[j])
          {
            assert KeyOf(q[j]) in Keys(q);
          }
        }
      }
    }
    forall k
      ensures k in Keys(Put(rs, r)) <==> k in Keys(rs) + {KeyOf(r)}
    {
      assert Lookup(Put(rs, r), k) == if k == KeyOf(r) then Some(r) else Lookup(rs, k);
    }
  }

  lemma {:induction false} PutAppends(rs: seq<DnsRecord>, r: DnsRecord)
    requires KeyOf(r) !in Keys(rs)
    ensures Put(rs, r) == rs + [r]
  {
    if rs != [] {
      assert rs[0] in rs;
      assert rs == [rs[0]] + rs[1..];
      PutAppends(rs[1..], r);
    }
  }

  predicate Owned(r: DnsRecord, rtype: string, name: string) { r.rtype == rtype && r.name == name }

  function NotOwned(rs: seq<DnsRecord>, rtype: string, name: string): (r: seq<DnsRecord>)
    ensures forall x :: x in r <==> x in rs && !Owned(x, rtype, name)
  {
    if rs == [] then []
    else (if Owned(rs[0], rtype, name) then [] else [rs[0]]) + NotOwned(rs[1..], rtype, name)
  }

  function FirstOwned(rs: seq<DnsRecord>, rtype: string, name: string): (r: Option<DnsRecord>)
    ensures r.Some? ==> r.value in rs && Owned(r.value, rtype, name)
    ensures r.None? ==> forall x :: x in rs ==> !Owned(x, rtype, name)
  {
    if rs == [] then None
    else if Owned(rs[0], rtype, name) then Some(rs[0])
    else FirstOwned(rs[1..], rtype, name)
  }

  lemma TailKeys(rs: seq<DnsRecord>)
    requires rs != [] && DistinctKeys(rs)
    ensures DistinctKeys(rs[1..]) && forall x :: x in rs[1..] ==> KeyOf(x) != KeyOf(rs[0])
  {
    forall x | x in rs[1..]
      ensures KeyOf(x) != KeyOf(rs[0])
    {
      var i :| 0 <= i < |rs[1..]| && rs[1..][i] == x;
      assert rs[i+1] == x;
    }
  }

  lemma ConsKeys(r: DnsRecord, rs: seq<DnsRecord>)
    requires DistinctKeys(rs) && forall x :: x in rs ==> KeyOf(x) != KeyOf(r)
    ensures DistinctKeys([r] + rs)
  {
  }

  lemma {:induction false} NotOwnedDistinct(rs: seq<DnsRecord>, rtype: string, name: string)
    requires DistinctKeys(rs)
    ensures DistinctKeys(NotOwned(rs, rtype, name))
  {
    if rs != [] {
      TailKeys(rs);
      NotOwnedDistinct(rs[1..], rtype, name);
      var rest := NotOwned(rs[1..], rtype, name);
      if Owned(rs[0], rtype, name) {
        assert [] + rest == rest;
      } else {
        ConsKeys(rs[0], rest);
      }
    }
  }

  lemma NotOwnedLookup(rs: seq<DnsRecord>, rtype: string, name: string, k: Key)
    requires DistinctKeys(rs)
    ensures Lookup(NotOwned(rs, rtype, name), k)
         == if k.rtype == rtype && k.name == name then None else Lookup(rs, k)
  {
    var left := NotOwned(rs, rtype, name);
    NotOwnedDistinct(rs, rtype, name);
    if Lookup(rs, k).Some? && !(k.rtype == rtype && k.name == name) {
      LookupUnique(left, Lookup(rs, k).value);
    }
    if Lookup(left, k).Some? {
      LookupUnique(rs, Lookup(left, k).value);
    }
  }

  // ---- The order of `all()` ----

  predicate OwnerLe(a: DnsRecord, b: DnsRecord) {
    if a.rtype != b.rtype then StringLe(a.rtype, b.rtype) else StringLe(a.name, b.name)
  }

  predicate SameOwner(a: DnsRecord, b: DnsRecord) { Owned(b, a.rtype, a.name) }

  predicate OwnersUnique(rs: seq<DnsRecord>) {
    forall i, j :: 0 <= i < j < |rs| ==> !SameOwner(rs[i], rs[j])
  }

  lemma OwnerOrder()
    ensures TotalPreorder(OwnerLe)
    ensures forall x, y :: OwnerLe(x, y) && OwnerLe(y, x) <==> SameOwner(x, y)
  {
    forall x: DnsRecord, y: DnsRecord
      ensures OwnerLe(x, y) || OwnerLe(y, x)
      ensures OwnerLe(x, y) && OwnerLe(y, x) <==> SameOwner(x, y)
    {
      StringLeTotal(x.rtype, y.rtype);
      StringLeTotal(x.name, y.name);
    }
    forall x: DnsRecord, y: DnsRecord, z: DnsRecord | OwnerLe(x, y) && OwnerLe(y, z)
      ensures OwnerLe(x, z)
    {
      StringLeTotal(x.rtype, y.rtype);
      StringLeTotal(y.rtype, z.rtype);
      if x.rtype != y.rtype && y.rtype != z.rtype {
        StringLeTransitive(x.rtype, y.rtype, z.rtype);
        StringLeTotal(x.rtype, z.rtype);
      } else if x.rtype == y.rtype == z.rtype {
        StringLeTransitive(x.name, y.name, z.name);
      }
    }
  }

  function All(rs: seq<DnsRecord>): seq<DnsRecord> { Sort(OwnerLe, rs) }

  lemma AllIsSorted(rs: seq<DnsRecord>)
    ensures multiset(All(rs)) == multiset(rs) && SortedBy(OwnerLe, All(rs))
    ensures forall r :: r in All(rs) <==> r in rs
  {
    OwnerOrder();
    SortSorts(OwnerLe, rs);
  }

  lemma OwnersUniqueDistinguishes(rs: seq<DnsRecord>)
    requires OwnersUnique(rs)
    ensures Distinguishes(OwnerLe, multiset(rs))
  {
    OwnerOrder();
    forall x, y | x in multiset(rs) && y in multiset(rs) && OwnerLe(x, y) && OwnerLe(y, x)
      ensures x == y
    {
      var i :| 0 <= i < |rs| && rs[i] == x;
      var j :| 0 <= j < |rs| && rs[j] == y;
      assert SameOwner(rs[i], rs[j]) && SameOwner(rs[j], rs[i]);
    }
  }

  /** Two distinct records of one owner come out in the order they went in. */
  lemma OrderLeaks(x: DnsRecord, y: DnsRecord, rest: seq<DnsRecord>)
    requires SameOwner(x, y) && x != y
    ensures All([x, y] + rest) != All([y, x] + rest)
  {
    OwnerOrder();
    var p := (r: DnsRecord) => SameOwner(x, r);
    var xs, ys := [x, y] + rest, [y, x] + rest;
    forall a, b | p(a) && p(b)
      ensures OwnerLe(a, b)
    {
      assert SameOwner(a, b);
    }
    SortStable(OwnerLe, p, xs);
    SortStable(OwnerLe, p, ys);
    assert Filter(p, xs)[0] == x && Filter(p, ys)[0] == y;
  }

  lemma PairFirst(rs: seq<DnsRecord>, i: nat, j: nat)
    requires i < j < |rs|
    ensures var rest := rs[..i] + rs[i+1..j] + rs[j+1..];
      multiset([rs[i], rs[j]] + rest) == multiset(rs) == multiset([rs[j], rs[i]] + rest)
  {
    assert rs == rs[..i] + [rs[i]] + rs[i+1..j] + [rs[j]] + rs[j+1..];
  }

  ghost predicate OrderFree(rs: seq<DnsRecord>) {
    forall qs :: multiset(qs) == multiset(rs) ==> All(qs) == All(rs)
  }

  lemma UniqueIsOrderFree(rs: seq<DnsRecord>)
    requires OwnersUnique(rs)
    ensures OrderFree(rs)
  {
    OwnersUniqueDistinguishes(rs);
    AllIsSorted(rs);
    forall qs | multiset(qs) == multiset(rs)
      ensures All(qs) == All(rs)
    {
      AllIsSorted(qs);
      SortedUnique(OwnerLe, All(rs), All(qs));
    }
  }

  lemma OrderFreeIsUnique(rs: seq<DnsRecord>, i: nat, j: nat)
    requires i < j < |rs| && rs[i] != rs[j] && OrderFree(rs)
    ensures !SameOwner(rs[i], rs[j])
  {
    if SameOwner(rs[i], rs[j]) {
      var rest := rs[..i] + rs[i+1..j] + rs[j+1..];
      PairFirst(rs, i, j);
      OrderLeaks(rs[i], rs[j], rest);
      assert false;
    }
  }

  /** What `all()` lists ignores insertion order exactly when no two records have the same type and name. */
  lemma AllIgnoresOrderIff(rs: seq<DnsRecord>)
    requires DistinctKeys(rs)
    ensures OrderFree(rs) <==> OwnersUnique(rs)
  {
    if OwnersUnique(rs) {
      UniqueIsOrderFree(rs);
    }
    if OrderFree(rs) {
      forall i, j | 0 <= i < j < |rs|
        ensures !SameOwner(rs[i], rs[j])
      {
        assert KeyOf(rs[i]) != KeyOf(rs[j]);
        OrderFreeIsUnique(rs, i, j);
      }
    }
  }

  lemma {:induction false} DistinctCounts(xs: seq<DnsRecord>)
    requires DistinctKeys(xs)
    ensures forall x :: multiset(xs)[x] <= 1
    ensures forall x, y :: x in multiset(xs) && y in multiset(xs) && KeyOf(x) == KeyOf(y) ==> x == y
  {
    if xs != [] {
      DistinctCounts(xs[1..]);
      assert xs == [xs[0]] + xs[1..];
      forall y | y in multiset(xs[1..])
        ensures KeyOf(y) != KeyOf(xs[0])
      {
        var j :| 0 <= j < |xs[1..]| && xs[1..][j] == y;
        assert xs[j+1] == y;
      }
    }
  }

  lemma TwoPlaces(ys: seq<DnsRecord>, i: nat, j: nat)
    requires i < j < |ys|
    ensures ys[i] == ys[j] ==> multiset(ys)[ys[i]] >= 2
  {
    assert ys == ys[..i] + [ys[i]] + ys[i+1..j] + [ys[j]] + ys[j+1..];
  }

  /** Distinct keys depend only on which records there are, not on their order. */
  lemma DistinctKeysOfMultiset(xs: seq<DnsRecord>, ys: seq<DnsRecord>)
    requires DistinctKeys(xs) && multiset(xs) == multiset(ys)
    ensures DistinctKeys(ys)
  {
    DistinctCounts(xs);
    forall i, j | 0 <= i < j < |ys|
      ensures KeyOf(ys[i]) != KeyOf(ys[j])
    {
      assert ys[i] in multiset(ys) && ys[j] in multiset(ys);
      TwoPlaces(ys, i, j);
    }
  }
}
