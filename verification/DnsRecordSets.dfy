/** The record set object: diff, verify, and the calls that change it. */
module DnsRecordSets {
  import opened Prelude
  import opened Text
  import opened Sorting
  import opened DnsRecords

  // ---- Diff ----

  datatype DnsDiff = DnsDiff(toCreate: seq<DnsRecord>, toUpdate: seq<(DnsRecord, DnsRecord)>, toDelete: seq<DnsRecord>) {
    predicate IsEmpty() { toCreate == [] && toUpdate == [] && toDelete == [] }
  }

  predicate Differs(local: DnsRecord, remote: DnsRecord) {
    || local.value != remote.value
    || local.ttl != remote.ttl
    || (local.proxied != remote.proxied && local.rtype in ["A", "AAAA", "CNAME"])
  }

  predicate DistinctNew(us: seq<(DnsRecord, DnsRecord)>) {
    forall i, j :: 0 <= i < j < |us| ==> KeyOf(us[i].1) != KeyOf(us[j].1)
  }

  /** `d` lists each missing, foreign and changed record once. */
  ghost predicate IsDiff(local: seq<DnsRecord>, remote: seq<DnsRecord>, d: DnsDiff) {
    && DistinctKeys(d.toCreate) && DistinctKeys(d.toDelete) && DistinctNew(d.toUpdate)
    && (forall r :: r in d.toCreate <==> r in local && KeyOf(r) !in Keys(remote))
    && (forall r :: r in d.toDelete <==> r in remote && KeyOf(r) !in Keys(local))
    && (forall u :: u in d.toUpdate <==>
          u.1 in local && u.0 in remote && KeyOf(u.0) == KeyOf(u.1) && Differs(u.1, u.0))
  }

  predicate KeyStringLe(digest: string -> string, a: DnsRecord, b: DnsRecord) {
    StringLe(KeyString(a, digest), KeyString(b, digest))
  }

  /** In the order of the dictionary keys. */
  ghost predicate InKeyOrder(rs: seq<DnsRecord>, digest: string -> string) {
    forall i, j :: 0 <= i < j < |rs| ==> KeyStringLe(digest, rs[i], rs[j])
  }

  ghost predicate UpdatesInKeyOrder(us: seq<(DnsRecord, DnsRecord)>, digest: string -> string) {
    forall i, j :: 0 <= i < j < |us| ==> KeyStringLe(digest, us[i].1, us[j].1)
  }

  /** The records of `xs` whose key `ys` has (`shared`) or lacks. */
  function Matching(xs: seq<DnsRecord>, ys: seq<DnsRecord>, shared: bool): (r: seq<DnsRecord>)
    ensures forall x :: x in r <==> x in xs && (KeyOf(x) in Keys(ys)) == shared
    ensures multiset(r) <= multiset(xs)
  {
    if xs == [] then [] else
    assert xs == [xs[0]] + xs[1..];
    (if (KeyOf(xs[0]) in Keys(ys)) == shared then [xs[0]] else []) + Matching(xs[1..], ys, shared)
  }

  function ByKey(xs: seq<DnsRecord>, digest: string -> string): seq<DnsRecord> {
    Sort((a, b) => KeyStringLe(digest, a, b), xs)
  }

  lemma KeyOrder(digest: string -> string)
    ensures TotalPreorder((a: DnsRecord, b: DnsRecord) => KeyStringLe(digest, a, b))
  {
    var le := (a: DnsRecord, b: DnsRecord) => KeyStringLe(digest, a, b);
    forall x: DnsRecord, y: DnsRecord
      ensures le(x, y) || le(y, x)
    {
      StringLeTotal(KeyString(x, digest), KeyString(y, digest));
    }
    forall x: DnsRecord, y: DnsRecord, z: DnsRecord | le(x, y) && le(y, z)
      ensures le(x, z)
    {
      StringLeTransitive(KeyString(x, digest), KeyString(y, digest), KeyString(z, digest));
    }
  }

  lemma {:induction false} MatchingDistinct(xs: seq<DnsRecord>, ys: seq<DnsRecord>, shared: bool)
    requires DistinctKeys(xs)
    ensures DistinctKeys(Matching(xs, ys, shared))
  {
    if xs != [] {
      TailKeys(xs);
      MatchingDistinct(xs[1..], ys, shared);
      var rest := Matching(xs[1..], ys, shared);
      if (KeyOf(xs[0]) in Keys(ys)) == shared {
        ConsKeys(xs[0], rest);
      } else {
        assert [] + rest == rest;
      }
    }
  }

  lemma ByKeyKeeps(xs: seq<DnsRecord>, digest: string -> string)
    requires DistinctKeys(xs)
    ensures DistinctKeys(ByKey(xs, digest)) && forall r :: r in ByKey(xs, digest) <==> r in xs
    ensures InKeyOrder(ByKey(xs, digest), digest)
  {
    KeyOrder(digest);
    var le := (a, b) => KeyStringLe(digest, a, b);
    SortSorts(le, xs);
    DistinctKeysOfMultiset(xs, Sort(le, xs));
    assert ByKey(xs, digest) == Sort(le, xs);
  }

  // ---- Verify ----

  datatype Issue =
    | MissingRemotely(r: DnsRecord)
    | Mismatch(rtype: string, name: string)
    | LocalValue(value: string)
    | RemoteValue(value: string)
    | UnexpectedRemotely(r: DnsRecord)

  function LocalIssues(r: DnsRecord, remote: seq<DnsRecord>): seq<Issue> {
    match FirstOwned(remote, Upper(r.rtype), Canonical(r.name))
    case None => [MissingRemotely(r)]
    case Some(q) =>
      if q.value == r.value then [] else [Mismatch(r.rtype, r.name), LocalValue(r.value), RemoteValue(q.value)]
  }

  /** The case of a type and the dots behind a name do not matter to what verify finds. */
  lemma FoundInAnySpelling(r: DnsRecord, s: DnsRecord, remote: seq<DnsRecord>)
    requires SameButCase(r.rtype, s.rtype) && DropDots(r.name) == DropDots(s.name) && r.value == s.value
    ensures LocalIssues(r, remote) == [] <==> LocalIssues(s, remote) == []
    ensures LocalIssues(r, remote) == [MissingRemotely(r)] <==> LocalIssues(s, remote) == [MissingRemotely(s)]
  {
    CaseForgotten(r.rtype, s.rtype);
  }

  function AllLocalIssues(rs: seq<DnsRecord>, remote: seq<DnsRecord>): seq<Issue> {
    if rs == [] then [] else
    AllLocalIssues(rs[..|rs|-1], remote) + LocalIssues(rs[|rs|-1], remote)
  }

  function RemoteIssues(rs: seq<DnsRecord>, local: set<Key>): seq<Issue> {
    if rs == [] then [] else
    var last := rs[|rs|-1];
    RemoteIssues(rs[..|rs|-1], local) + if KeyOf(last) in local then [] else [UnexpectedRemotely(last)]
  }

  function VerifyIssues(local: seq<DnsRecord>, remote: seq<DnsRecord>): seq<Issue> {
    AllLocalIssues(All(local), remote) + RemoteIssues(All(remote), Keys(local))
  }

  lemma OneMoreLocal(rs: seq<DnsRecord>, r: DnsRecord, remote: seq<DnsRecord>)
    ensures AllLocalIssues(rs + [r], remote) == AllLocalIssues(rs, remote) + LocalIssues(r, remote)
    ensures Keys(rs + [r]) == Keys(rs) + {KeyOf(r)}
  {
    assert (rs + [r])[..|rs|] == rs;
  }

  lemma {:induction false} NoLocalIssuesIff(rs: seq<DnsRecord>, remote: seq<DnsRecord>)
    ensures AllLocalIssues(rs, remote) == [] <==> forall r :: r in rs ==> LocalIssues(r, remote) == []
  {
    if rs != [] {
      var n := |rs| - 1;
      NoLocalIssuesIff(rs[..n], remote);
      assert rs == rs[..n] + [rs[n]];
    }
  }

  lemma {:induction false} NoRemoteIssuesIff(rs: seq<DnsRecord>, local: set<Key>)
    ensures RemoteIssues(rs, local) == [] <==> forall r :: r in rs ==> KeyOf(r) in local
  {
    if rs != [] {
      var n := |rs| - 1;
      NoRemoteIssuesIff(rs[..n], local);
      assert rs == rs[..n] + [rs[n]];
    }
  }

  predicate SameValues(local: seq<DnsRecord>, remote: seq<DnsRecord>) {
    forall r, q :: r in local && q in remote && KeyOf(r) == KeyOf(q) ==> r.value == q.value
  }

  predicate OneTxtPerName(rs: seq<DnsRecord>) {
    forall x, y :: x in rs && y in rs && x.rtype == "TXT" && SameOwner(x, y) ==> x.value == y.value
  }

  /** No issues exactly when keys and values agree and no name holds two TXT records. */
  lemma VerifyCleanIff(local: seq<DnsRecord>, remote: seq<DnsRecord>)
    requires DistinctKeys(local) && DistinctKeys(remote) && AllNormal(local) && AllNormal(remote)
    ensures VerifyIssues(local, remote) == [] <==>
      Keys(local) == Keys(remote) && SameValues(local, remote) && OneTxtPerName(remote)
  {
    AllIsSorted(local);
    AllIsSorted(remote);
    NoLocalIssuesIff(All(local), remote);
    NoRemoteIssuesIff(All(remote), Keys(local));
    if VerifyIssues(local, remote) == [] {
      CleanImpliesAgreement(local, remote);
    }
    if Keys(local) == Keys(remote) && SameValues(local, remote) && OneTxtPerName(remote) {
      forall r | r in local
        ensures LocalIssues(r, remote) == []
      {
        assert KeyOf(r) in Keys(remote);
        var q :| q in remote && KeyOf(q) == KeyOf(r);
        assert Owned(q, r.rtype, r.name);
        var f := FirstOwned(remote, r.rtype, r.name).value;
        if r.rtype != "TXT" {
          assert KeyOf(f) == KeyOf(r);
        } else {
          assert SameOwner(f, q);
        }
      }
    }
  }

  lemma CleanImpliesAgreement(local: seq<DnsRecord>, remote: seq<DnsRecord>)
    requires AllNormal(local) && AllNormal(remote)
    requires forall r :: r in local ==> LocalIssues(r, remote) == []
    requires forall r :: r in remote ==> KeyOf(r) in Keys(local)
    requires DistinctKeys(remote)
    ensures Keys(local) == Keys(remote) && SameValues(local, remote) && OneTxtPerName(remote)
  {
    forall r | r in local
      ensures KeyOf(r) in Keys(remote)
      ensures forall q :: q in remote && SameOwner(r, q) && r.rtype == "TXT" ==>
        FirstOwned(remote, r.rtype, r.name) == Some(q) || q.value != r.value
    {
      var f := FirstOwned(remote, r.rtype, r.name).value;
      assert KeyOf(f) == KeyOf(r);
      LookupUnique(remote, f);
      forall q | q in remote && SameOwner(r, q) && r.rtype == "TXT" && q.value == r.value
        ensures q == f
      {
        LookupUnique(remote, q);
      }
    }
    forall r, q | r in local && q in remote && KeyOf(r) == KeyOf(q)
      ensures r.value == q.value
    {
      var f := FirstOwned(remote, r.rtype, r.name).value;
      LookupUnique(remote, f);
      LookupUnique(remote, q);
    }
    forall x, y | x in remote && y in remote && x.rtype == "TXT" && SameOwner(x, y)
      ensures x.value == y.value
    {
      var r :| r in local && KeyOf(r) == KeyOf(x);
      var s :| s in local && KeyOf(s) == KeyOf(y);
      assert FirstOwned(remote, x.rtype, x.name).value.value == r.value == s.value;
    }
  }

  /** The record verify compares a local one with: the first of its type, in capitals, and name, with one dot. */
  ghost predicate ComparedWith(r: DnsRecord, remote: seq<DnsRecord>, i: nat) {
    && i < |remote| && remote[i].rtype == Upper(r.rtype) && remote[i].name == Canonical(r.name)
    && forall j :: 0 <= j < i ==> !(remote[j].rtype == Upper(r.rtype) && remote[j].name == Canonical(r.name))
  }

  lemma {:induction false} FirstOwnedIndex(rs: seq<DnsRecord>, t: string, n: string) returns (i: nat)
    requires FirstOwned(rs, t, n).Some?
    ensures i < |rs| && FirstOwned(rs, t, n) == Some(rs[i]) && Owned(rs[i], t, n)
    ensures forall j :: 0 <= j < i ==> !Owned(rs[j], t, n)
  {
    if Owned(rs[0], t, n) {
      i := 0;
    } else {
      i := FirstOwnedIndex(rs[1..], t, n);
      i := i + 1;
    }
  }

  /** The lines about one local record: that it is missing, or how its value differs from the one it is compared with. */
  lemma LocalIssuesAre(r: DnsRecord, remote: seq<DnsRecord>)
    ensures LocalIssues(r, remote) == [MissingRemotely(r)] <==>
      forall q :: q in remote ==> !(q.rtype == Upper(r.rtype) && q.name == Canonical(r.name))
    ensures forall i: nat :: ComparedWith(r, remote, i) ==>
      LocalIssues(r, remote) == if remote[i].value == r.value then []
        else [Mismatch(r.rtype, r.name), LocalValue(r.value), RemoteValue(remote[i].value)]
  {
    var t, n := Upper(r.rtype), Canonical(r.name);
    if FirstOwned(remote, t, n).Some? {
      var k := FirstOwnedIndex(remote, t, n);
      assert remote[k] in remote;
      forall i: nat | ComparedWith(r, remote, i)
        ensures i == k
      {
        assert Owned(remote[i], t, n);
      }
    } else {
      assert forall q :: q in remote ==> !Owned(q, t, n);
    }
  }

  lemma {:induction false} LocalIssuesOf(rs: seq<DnsRecord>, remote: seq<DnsRecord>, x: Issue)
    ensures x in AllLocalIssues(rs, remote) <==> exists r :: r in rs && x in LocalIssues(r, remote)
  {
    if rs != [] {
      var n := |rs| - 1;
      LocalIssuesOf(rs[..n], remote, x);
      assert rs == rs[..n] + [rs[n]];
    }
  }

  lemma {:induction false} RemoteIssuesOf(rs: seq<DnsRecord>, local: set<Key>, x: Issue)
    ensures x in RemoteIssues(rs, local) <==> exists q :: q in rs && KeyOf(q) !in local && x == UnexpectedRemotely(q)
  {
    if rs != [] {
      var n := |rs| - 1;
      RemoteIssuesOf(rs[..n], local, x);
      assert rs == rs[..n] + [rs[n]];
    }
  }

  lemma IssuesAre(local: seq<DnsRecord>, remote: seq<DnsRecord>, x: Issue)
    ensures x in VerifyIssues(local, remote) <==>
      || (exists r :: r in local && x in LocalIssues(r, remote))
      || (exists q :: q in remote && KeyOf(q) !in Keys(local) && x == UnexpectedRemotely(q))
  {
    AllIsSorted(local);
    AllIsSorted(remote);
    LocalIssuesOf(All(local), remote, x);
    RemoteIssuesOf(All(remote), Keys(local), x);
  }

  /** What the report says is missing. */
  lemma MissingReported(local: seq<DnsRecord>, remote: seq<DnsRecord>, r: DnsRecord)
    ensures MissingRemotely(r) in VerifyIssues(local, remote) <==>
      r in local && forall q :: q in remote ==> !(q.rtype == Upper(r.rtype) && q.name == Canonical(r.name))
  {
    hide VerifyIssues;
    IssuesAre(local, remote, MissingRemotely(r));
    LocalIssuesAre(r, remote);
  }

  /** What the report says is unexpected. */
  lemma UnexpectedReported(local: seq<DnsRecord>, remote: seq<DnsRecord>, q: DnsRecord)
    ensures UnexpectedRemotely(q) in VerifyIssues(local, remote) <==>
      q in remote && forall r :: r in local ==> KeyOf(r) != KeyOf(q)
  {
    hide VerifyIssues;
    IssuesAre(local, remote, UnexpectedRemotely(q));
  }

  /** An empty diff means equal keys and no differing pair; nothing else. */
  lemma DiffEmptyIff(local: seq<DnsRecord>, remote: seq<DnsRecord>, d: DnsDiff)
    requires IsDiff(local, remote, d)
    ensures d.IsEmpty() <==>
      Keys(local) == Keys(remote)
      && forall r, q :: r in local && q in remote && KeyOf(r) == KeyOf(q) ==> !Differs(r, q)
  {
    if d.IsEmpty() {
      assert forall r :: r in local ==> r !in d.toCreate;
      assert forall r :: r in remote ==> r !in d.toDelete;
      forall r, q | r in local && q in remote && KeyOf(r) == KeyOf(q)
        ensures !Differs(r, q)
      {
        assert (q, r) !in d.toUpdate;
      }
    } else if d.toCreate != [] {
      assert d.toCreate[0] in d.toCreate;
    } else if d.toDelete != [] {
      assert d.toDelete[0] in d.toDelete;
    } else {
      assert d.toUpdate[0] in d.toUpdate;
    }
  }

  /** What the update list holds, written out. */
  lemma UpdateListedIff(local: seq<DnsRecord>, remote: seq<DnsRecord>, d: DnsDiff, q: DnsRecord, r: DnsRecord)
    requires IsDiff(local, remote, d)
    ensures (q, r) in d.toUpdate <==>
      && r in local && q in remote && KeyOf(q) == KeyOf(r)
      && (r.value != q.value || r.ttl != q.ttl
          || ((r.rtype == "A" || r.rtype == "AAAA" || r.rtype == "CNAME") && r.proxied != q.proxied))
  {
    assert (q, r).0 == q && (q, r).1 == r;
  }

  /** Nothing to sync, written out: the same keys, and under each of them the same value and ttl and, for addresses
      and aliases, the same proxying. */
  lemma NothingToSyncIff(local: seq<DnsRecord>, remote: seq<DnsRecord>, d: DnsDiff)
    requires IsDiff(local, remote, d)
    ensures d == DnsDiff([], [], []) <==>
      && Keys(local) == Keys(remote)
      && forall r, q :: r in local && q in remote && KeyOf(r) == KeyOf(q) ==>
           r.value == q.value && r.ttl == q.ttl
           && (r.rtype == "A" || r.rtype == "AAAA" || r.rtype == "CNAME" ==> r.proxied == q.proxied)
  {
    DiffEmptyIff(local, remote, d);
  }

  /** A clean verify leaves the diff nothing but ttl and proxy changes. */
  lemma CleanLeavesOnlyTtl(local: seq<DnsRecord>, remote: seq<DnsRecord>, d: DnsDiff)
    requires DistinctKeys(local) && DistinctKeys(remote) && AllNormal(local) && AllNormal(remote)
    requires IsDiff(local, remote, d)
    ensures VerifyIssues(local, remote) == [] ==>
      d.toCreate == [] && d.toDelete == [] && forall u :: u in d.toUpdate ==> u.0.value == u.1.value
  {
    assert d.toCreate == [] || d.toCreate[0] in d.toCreate;
    assert d.toDelete == [] || d.toDelete[0] in d.toDelete;
    VerifyCleanIff(local, remote);
  }

  /** An empty diff verifies clean exactly when no remote name holds two TXT records. */
  lemma EmptyDiffVerifiesIff(local: seq<DnsRecord>, remote: seq<DnsRecord>, d: DnsDiff)
    requires DistinctKeys(local) && DistinctKeys(remote) && AllNormal(local) && AllNormal(remote)
    requires IsDiff(local, remote, d) && d.IsEmpty()
    ensures VerifyIssues(local, remote) == [] <==> OneTxtPerName(remote)
  {
    assert Keys(local) == Keys(remote) && SameValues(local, remote) by { EmptyDiffAgrees(local, remote, d); }
    VerifyCleanIff(local, remote);
  }

  lemma EmptyDiffAgrees(local: seq<DnsRecord>, remote: seq<DnsRecord>, d: DnsDiff)
    requires IsDiff(local, remote, d) && d.IsEmpty()
    ensures Keys(local) == Keys(remote) && SameValues(local, remote)
  {
    DiffEmptyIff(local, remote, d);
  }

  /** Pairs for the first `i` common records, and one for the next. */
  lemma NextUpdate(update: seq<(DnsRecord, DnsRecord)>, common: seq<DnsRecord>, i: nat, other: DnsRecord, digest: string -> string)
    requires DistinctKeys(common) && InKeyOrder(common, digest) && i < |common|
    requires DistinctNew(update) && UpdatesInKeyOrder(update, digest) && forall u :: u in update ==> u.1 in common[..i]
    ensures var more := update + [(other, common[i])]; DistinctNew(more) && UpdatesInKeyOrder(more, digest)
  {
    forall j | 0 <= j < |update|
      ensures KeyOf(update[j].1) != KeyOf(common[i]) && KeyStringLe(digest, update[j].1, common[i])
    {
      assert update[j] in update;
      var k :| 0 <= k < i && common[..i][k] == update[j].1;
      assert common[k] == update[j].1;
    }
  }

  // ---- The record set object ----

  class DnsRecordSet {
    const domain: string
    var records: seq<DnsRecord>

    ghost predicate Valid()
      reads this
    {
      DistinctKeys(records)
    }

    constructor (domain: string)
      ensures Valid() && records == [] && this.domain == Canonical(domain)
    {
      this.domain := Canonical(domain);
      records := [];
    }

    method Add(r: DnsRecord)
      requires Valid()
      modifies this
      ensures Valid() && records == Put(old(records), r)
      ensures forall k :: Lookup(records, k) == if k == KeyOf(r) then Some(r) else Lookup(old(records), k)
    {
      PutLookup(records, r);
      records := Put(records, r);
    }

    /** An exact key is looked up first; otherwise, for TXT, every record at the name is dropped. */
    method Remove(rtype: string, name: string)
      requires Valid()
      modifies this
      ensures Valid() && records == NotOwned(old(records), Upper(rtype), Canonical(name))
      ensures forall k ::
        Lookup(records, k)
        == if k.rtype == Upper(rtype) && k.name == Canonical(name) then None else Lookup(old(records), k)
    {
      var t, n := Upper(rtype), Canonical(name);
      NotOwnedDistinct(records, t, n);
      forall k {
        NotOwnedLookup(records, t, n, k);
      }
      if Lookup(records, Key(t, n, None)).Some? || t == "TXT" {
        records := NotOwned(records, t, n);
      } else {
        forall r | r in records
          ensures !Owned(r, t, n)
        {
          assert KeyOf(r) in Keys(records);
        }
        NothingOwned(records, t, n);
      }
    }

    method Find(rtype: string, name: string) returns (r: Option<DnsRecord>)
      requires Valid()
      ensures r == FirstOwned(records, Upper(rtype), Canonical(name))
    {
      var t, n := Upper(rtype), Canonical(name);
      r := Lookup(records, Key(t, n, None));
      if r.Some? {
        var f := FirstOwned(records, t, n);
        LookupUnique(records, f.value);
        return;
      }
      if t == "TXT" {
        for i := 0 to |records|
          invariant forall j :: 0 <= j < i ==> !Owned(records[j], t, n)
        {
          if Owned(records[i], t, n) {
            FirstOwnedAt(records, t, n, i);
            return Some(records[i]);
          }
        }
      }
      forall x | x in records
        ensures !Owned(x, t, n)
      {
        assert KeyOf(x) in Keys(records);
      }
    }

    /** The pairs whose value, ttl or proxying changed, in the order of `common`. */
    method Updates(common: seq<DnsRecord>, remote: DnsRecordSet, ghost digest: string -> string)
      returns (update: seq<(DnsRecord, DnsRecord)>)
      requires remote.Valid() && DistinctKeys(common) && InKeyOrder(common, digest)
      requires forall r :: r in common ==> KeyOf(r) in Keys(remote.records)
      ensures DistinctNew(update) && UpdatesInKeyOrder(update, digest)
      ensures forall u :: u in update <==>
        u.1 in common && u.0 in remote.records && KeyOf(u.0) == KeyOf(u.1) && Differs(u.1, u.0)
    {
      update := [];
      for i := 0 to |common|
        invariant DistinctNew(update) && UpdatesInKeyOrder(update, digest)
        invariant forall u :: u in update <==>
          u.1 in common[..i] && u.0 in remote.records && KeyOf(u.0) == KeyOf(u.1) && Differs(u.1, u.0)
      {
        var local := common[i];
        assert local in common;
        var other := Lookup(remote.records, KeyOf(local)).value;
        assert common[..i+1] == common[..i] + [local];
        forall q | q in remote.records && KeyOf(q) == KeyOf(local)
          ensures q == other
        {
          LookupUnique(remote.records, q);
        }
        NextUpdate(update, common, i, other, digest);
        if Differs(local, other) {
          update := update + [(other, local)];
        }
      }
      assert common[..|common|] == common;
    }

    method Diff(remote: DnsRecordSet, digest: string -> string) returns (d: DnsDiff)
      requires Valid() && remote.Valid()
      ensures IsDiff(records, remote.records, d)
      ensures InKeyOrder(d.toCreate, digest) && InKeyOrder(d.toDelete, digest) && UpdatesInKeyOrder(d.toUpdate, digest)
    {
      var create := Matching(records, remote.records, false);
      var delete := Matching(remote.records, records, false);
      var common := Matching(records, remote.records, true);
      MatchingDistinct(records, remote.records, false);
      MatchingDistinct(remote.records, records, false);
      MatchingDistinct(records, remote.records, true);
      ByKeyKeeps(create, digest);
      ByKeyKeeps(delete, digest);
      ByKeyKeeps(common, digest);
      var update := Updates(ByKey(common, digest), remote, digest);
      d := DnsDiff(ByKey(create, digest), update, ByKey(delete, digest));
      assert IsDiff(records, remote.records, d);
    }

    static method VerifyOne(r: DnsRecord, remote: DnsRecordSet) returns (issues: seq<Issue>)
      requires remote.Valid()
      ensures issues == LocalIssues(r, remote.records)
    {
      var other := remote.Find(r.rtype, r.name);
      if other.None? {
        return [MissingRemotely(r)];
      } else if other.value.value != r.value {
        return [Mismatch(r.rtype, r.name), LocalValue(r.value), RemoteValue(other.value.value)];
      }
      return [];
    }

    method Verify(remote: DnsRecordSet) returns (issues: seq<Issue>)
      requires Valid() && remote.Valid()
      ensures issues == VerifyIssues(records, remote.records)
    {
      var found;
      issues, found := Compare(All(records), remote);
      AllIsSorted(records);
      assert Keys(All(records)) == Keys(records);
      var unexpected := Unexpected(All(remote.records), found);
      issues := issues + unexpected;
    }

    static method Compare(mine: seq<DnsRecord>, remote: DnsRecordSet) returns (issues: seq<Issue>, found: set<Key>)
      requires remote.Valid()
      ensures issues == AllLocalIssues(mine, remote.records) && found == Keys(mine)
    {
      issues, found := [], {};
      for i := 0 to |mine|
        invariant issues == AllLocalIssues(mine[..i], remote.records)
        invariant found == Keys(mine[..i])
      {
        assert mine[..i+1] == mine[..i] + [mine[i]];
        OneMoreLocal(mine[..i], mine[i], remote.records);
        found := found + {KeyOf(mine[i])};
        var more := VerifyOne(mine[i], remote);
        issues := issues + more;
      }
      assert mine[..|mine|] == mine;
    }

    static method Unexpected(theirs: seq<DnsRecord>, found: set<Key>) returns (issues: seq<Issue>)
      ensures issues == RemoteIssues(theirs, found)
    {
      issues := [];
      for i := 0 to |theirs|
        invariant issues == RemoteIssues(theirs[..i], found)
      {
        assert theirs[..i+1][..i] == theirs[..i];
        if KeyOf(theirs[i]) !in found {
          issues := issues + [UnexpectedRemotely(theirs[i])];
        }
      }
      assert theirs[..|theirs|] == theirs;
    }
  }

  lemma {:induction false} NothingOwned(rs: seq<DnsRecord>, rtype: string, name: string)
    requires forall r :: r in rs ==> !Owned(r, rtype, name)
    ensures NotOwned(rs, rtype, name) == rs
  {
    if rs != [] {
      NothingOwned(rs[1..], rtype, name);
    }
  }

  lemma {:induction false} FirstOwnedAt(rs: seq<DnsRecord>, rtype: string, name: string, i: nat)
    requires i < |rs| && Owned(rs[i], rtype, name) && forall j :: 0 <= j < i ==> !Owned(rs[j], rtype, name)
    ensures FirstOwned(rs, rtype, name) == Some(rs[i])
  {
    if i > 0 {
      FirstOwnedAt(rs[1..], rtype, name, i - 1);
    }
  }
}
