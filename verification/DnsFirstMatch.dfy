/** Providers that find a record by type and name alone and take the first match: which zones syncs can settle. */
module DnsFirstMatch {
  import opened Prelude
  import opened DnsRecords
  import opened DnsRecordSets
  import opened DnsSync
  import opened DnsReconcile

  lemma NoRecord(rs: seq<DnsRecord>)
    requires forall x :: x !in rs
    ensures rs == []
  {
    if rs != [] {
      HeadIn(rs);
    }
  }

  lemma HeadIn(rs: seq<DnsRecord>)
    requires rs != []
    ensures rs[0] in rs
  {
  }

  // ---- One owner's records ----

  function Part(rs: seq<DnsRecord>, t: string, n: string): (r: seq<DnsRecord>)
    ensures |r| <= |rs| && forall x :: x in r <==> x in rs && Owned(x, t, n)
  {
    Filter((x: DnsRecord) => Owned(x, t, n), rs)
  }

  function AsListed(rs: seq<DnsRecord>): seq<DnsRecord> { Map((r: DnsRecord) => Stored(ByName, r), rs) }

  lemma PartFirst(rs: seq<DnsRecord>, t: string, n: string)
    requires rs != []
    ensures Part(rs, t, n) == (if Owned(rs[0], t, n) then [rs[0]] else []) + Part(rs[1..], t, n)
  {
  }

  lemma PartAppend(a: seq<DnsRecord>, b: seq<DnsRecord>, t: string, n: string)
    ensures Part(a + b, t, n) == Part(a, t, n) + Part(b, t, n)
  {
    FilterAppend((x: DnsRecord) => Owned(x, t, n), a, b);
  }

  lemma PartOne(r: DnsRecord, t: string, n: string)
    ensures Part([r], t, n) == if Owned(r, t, n) then [r] else []
  {
    assert [r][1..] == [];
  }

  lemma {:induction false} FirstOfPart(zone: seq<DnsRecord>, t: string, n: string)
    ensures FirstOwned(zone, t, n) == if Part(zone, t, n) == [] then None else Some(Part(zone, t, n)[0])
  {
    if zone != [] {
      PartFirst(zone, t, n);
      FirstOfPart(zone[1..], t, n);
    }
  }

  lemma {:induction false} RemoveFirstPart(zone: seq<DnsRecord>, q: DnsRecord, t: string, n: string)
    requires FirstOwned(zone, q.rtype, q.name) == Some(q)
    ensures var p := Part(zone, t, n);
      if Owned(q, t, n) then p != [] && Part(RemoveFirst(zone, q), t, n) == p[1..]
      else Part(RemoveFirst(zone, q), t, n) == p
  {
    PartFirst(zone, t, n);
    if zone[0] != q {
      RemoveFirstPart(zone[1..], q, t, n);
      var z := RemoveFirst(zone, q);
      assert z[1..] == RemoveFirst(zone[1..], q);
      PartFirst(z, t, n);
    }
  }

  lemma ConsPart(x: DnsRecord, rest: seq<DnsRecord>, t: string, n: string)
    ensures Part([x] + rest, t, n) == (if Owned(x, t, n) then [x] else []) + Part(rest, t, n)
  {
    PartAppend([x], rest, t, n);
    PartOne(x, t, n);
  }

  lemma SkipPart(x: DnsRecord, rest: seq<DnsRecord>, t: string, n: string)
    requires !Owned(x, t, n)
    ensures Part([x] + rest, t, n) == Part(rest, t, n)
  {
    ConsPart(x, rest, t, n);
  }

  lemma TakePart(x: DnsRecord, rest: seq<DnsRecord>, t: string, n: string)
    requires Owned(x, t, n)
    ensures Part([x] + rest, t, n) == [x] + Part(rest, t, n)
  {
    ConsPart(x, rest, t, n);
  }

  lemma {:induction false} ReplaceFirstHere(zone: seq<DnsRecord>, q: DnsRecord, x: DnsRecord, t: string, n: string)
    requires FirstOwned(zone, t, n) == Some(q) && Owned(x, t, n)
    ensures Part(zone, t, n) != [] && Part(ReplaceFirst(zone, q, x), t, n) == [x] + Part(zone, t, n)[1..]
  {
    var head, rest := zone[0], zone[1..];
    assert zone == [head] + rest;
    if head == q {
      TakePart(head, rest, t, n);
      TakePart(x, rest, t, n);
    } else {
      ReplaceFirstHere(rest, q, x, t, n);
      SkipPart(head, rest, t, n);
      SkipPart(head, ReplaceFirst(rest, q, x), t, n);
    }
  }

  lemma {:induction false} ReplaceFirstElsewhere(zone: seq<DnsRecord>, q: DnsRecord, x: DnsRecord, t: string, n: string)
    requires !Owned(q, t, n) && !Owned(x, t, n)
    ensures Part(ReplaceFirst(zone, q, x), t, n) == Part(zone, t, n)
  {
    if zone != [] {
      PartFirst(zone, t, n);
      if zone[0] == q {
        ConsPart(x, zone[1..], t, n);
      } else {
        ReplaceFirstElsewhere(zone[1..], q, x, t, n);
        ConsPart(zone[0], ReplaceFirst(zone[1..], q, x), t, n);
      }
    }
  }

  // ---- The three phases of a sync, owner by owner ----

  function Dropped(p: seq<DnsRecord>, k: nat): seq<DnsRecord> { if k <= |p| then p[k..] else [] }

  function Tail(p: seq<DnsRecord>): seq<DnsRecord> { Dropped(p, 1) }

  /** The first record is rewritten, or created when there is none, once for each update. */
  function Rewritten(p: seq<DnsRecord>, news: seq<DnsRecord>): seq<DnsRecord>
    decreases news
  {
    if news == [] then p
    else Rewritten([Stored(ByName, news[0])] + Tail(p), news[1..])
  }

  lemma DeletePart(zone: seq<DnsRecord>, r: DnsRecord, t: string, n: string)
    requires Canonical(r.name) == r.name
    ensures var z := DeleteIn(ByName, zone, r);
      z.Some? && Part(z.value, t, n) == Dropped(Part(zone, t, n), if Owned(r, t, n) then 1 else 0)
  {
    FirstOfPart(zone, r.rtype, r.name);
    if Listed(zone, r).Some? {
      RemoveFirstPart(zone, Listed(zone, r).value, t, n);
    }
  }

  lemma {:induction false} DeletesPart(zone: seq<DnsRecord>, ds: seq<DnsRecord>, t: string, n: string)
    requires Named(ds)
    ensures var z := Deletes(ByName, zone, ds);
      z.Some? && Part(z.value, t, n) == Dropped(Part(zone, t, n), |Part(ds, t, n)|)
    decreases ds
  {
    if ds != [] {
      assert ds[0] in ds;
      DeletePart(zone, ds[0], t, n);
      PartFirst(ds, t, n);
      DeletesPart(DeleteIn(ByName, zone, ds[0]).value, ds[1..], t, n);
    }
  }

  lemma CreatePart(zone: seq<DnsRecord>, r: DnsRecord, t: string, n: string)
    requires Canonical(r.name) == r.name
    ensures Part(CreateIn(ByName, zone, r), t, n) == Part(zone, t, n) + AsListed(if Owned(r, t, n) then [r] else [])
  {
    var x := Stored(ByName, r);
    PartAppend(zone, [x], t, n);
    PartOne(x, t, n);
  }

  lemma AsListedAppend(p: seq<DnsRecord>, a: seq<DnsRecord>, b: seq<DnsRecord>)
    ensures p + AsListed(a) + AsListed(b) == p + AsListed(a + b)
  {
  }

  lemma {:induction false} CreatesPart(zone: seq<DnsRecord>, cs: seq<DnsRecord>, t: string, n: string)
    requires Named(cs)
    ensures Part(Creates(ByName, zone, cs), t, n) == Part(zone, t, n) + AsListed(Part(cs, t, n))
    decreases cs
  {
    if cs != [] {
      assert cs[0] in cs;
      var head := if Owned(cs[0], t, n) then [cs[0]] else [];
      CreatePart(zone, cs[0], t, n);
      CreatesPart(CreateIn(ByName, zone, cs[0]), cs[1..], t, n);
      PartFirst(cs, t, n);
      AsListedAppend(Part(zone, t, n), head, Part(cs[1..], t, n));
    }
  }

  lemma UpdatePart(zone: seq<DnsRecord>, stale: DnsRecord, r: DnsRecord, t: string, n: string)
    requires Canonical(r.name) == r.name
    ensures Part(UpdateIn(ByName, zone, stale, r), t, n)
         == Rewritten(Part(zone, t, n), if Owned(r, t, n) then [r] else [])
  {
    var x := Stored(ByName, r);
    FirstOfPart(zone, r.rtype, r.name);
    assert [r][1..] == [];
    if Listed(zone, r).Some? {
      var q := Listed(zone, r).value;
      if Owned(r, t, n) {
        ReplaceFirstHere(zone, q, x, t, n);
      } else {
        ReplaceFirstElsewhere(zone, q, x, t, n);
      }
    } else {
      PartAppend(zone, [x], t, n);
      PartOne(x, t, n);
    }
  }

  lemma RewrittenAppend(p: seq<DnsRecord>, head: seq<DnsRecord>, rest: seq<DnsRecord>)
    requires |head| <= 1
    ensures Rewritten(Rewritten(p, head), rest) == Rewritten(p, head + rest)
  {
    if head == [] {
      assert head + rest == rest;
    } else {
      assert head[1..] == [] && (head + rest)[1..] == rest;
    }
  }

  lemma {:induction false} UpdatesPart(zone: seq<DnsRecord>, us: seq<(DnsRecord, DnsRecord)>, t: string, n: string)
    requires Named(News(us))
    ensures Part(Updates(ByName, zone, us), t, n) == Rewritten(Part(zone, t, n), Part(News(us), t, n))
    decreases us
  {
    if us != [] {
      var r := us[0].1;
      var head := if Owned(r, t, n) then [r] else [];
      assert News(us)[0] == r && News(us)[1..] == News(us[1..]);
      UpdatePart(zone, us[0].0, r, t, n);
      UpdatesPart(UpdateIn(ByName, zone, us[0].0, r), us[1..], t, n);
      PartFirst(News(us), t, n);
      RewrittenAppend(Part(zone, t, n), head, Part(News(us[1..]), t, n));
    }
  }

  // ---- What a diff holds for one owner ----

  lemma KeysPart(rs: seq<DnsRecord>, k: Key)
    ensures k in Keys(rs) <==> k in Keys(Part(rs, k.rtype, k.name))
  {
    if k in Keys(rs) {
      var x :| x in rs && KeyOf(x) == k;
      assert x in Part(rs, k.rtype, k.name);
    }
  }

  lemma {:induction false} LastListedIn(p: seq<DnsRecord>, k: Key)
    ensures var q := LastListed(p, k);
      (q.Some? <==> k in Keys(p)) && (q.Some? ==> q.value in p && KeyOf(q.value) == k)
  {
    if p != [] {
      var n := |p| - 1;
      assert p == p[..n] + [p[n]];
      LastListedIn(p[..n], k);
    }
  }

  lemma {:induction false} LastListedPart(zone: seq<DnsRecord>, k: Key)
    ensures LastListed(zone, k) == LastListed(Part(zone, k.rtype, k.name), k)
  {
    if zone != [] {
      var n := |zone| - 1;
      var p := Part(zone[..n], k.rtype, k.name);
      assert zone == zone[..n] + [zone[n]];
      PartAppend(zone[..n], [zone[n]], k.rtype, k.name);
      PartOne(zone[n], k.rtype, k.name);
      LastListedPart(zone[..n], k);
      if Owned(zone[n], k.rtype, k.name) {
        assert (p + [zone[n]])[..|p|] == p;
      } else {
        assert p + [] == p;
      }
    }
  }

  /** The record that wins when the owner's records are indexed is not as `r` says. */
  predicate Outdated(p: seq<DnsRecord>, r: DnsRecord) {
    var q := LastListed(p, KeyOf(r));
    q.Some? && Differs(r, q.value)
  }

  predicate Foreign(lp: seq<DnsRecord>, q: DnsRecord) { KeyOf(q) !in Keys(lp) }

  /** The keys a sync deletes. */
  function Strangers(lp: seq<DnsRecord>, p: seq<DnsRecord>): set<Key> { set q | q in p && Foreign(lp, q) :: KeyOf(q) }

  lemma {:induction false} PartDistinct(rs: seq<DnsRecord>, t: string, n: string)
    requires DistinctKeys(rs)
    ensures DistinctKeys(Part(rs, t, n))
  {
    if rs != [] {
      TailKeys(rs);
      PartDistinct(rs[1..], t, n);
      assert rs == [rs[0]] + rs[1..];
      if Owned(rs[0], t, n) {
        TakePart(rs[0], rs[1..], t, n);
        ConsKeys(rs[0], Part(rs[1..], t, n));
      } else {
        SkipPart(rs[0], rs[1..], t, n);
      }
    }
  }

  lemma {:induction false} DistinctSize(rs: seq<DnsRecord>)
    requires DistinctKeys(rs)
    ensures |Keys(rs)| == |rs|
  {
    if rs != [] {
      TailKeys(rs);
      DistinctSize(rs[1..]);
      assert rs == [rs[0]] + rs[1..];
      assert Keys(rs) == Keys(rs[1..]) + {KeyOf(rs[0])};
    }
  }

  /** Each foreign key is deleted once. */
  lemma DeletePartOfDiff(local: seq<DnsRecord>, zone: seq<DnsRecord>, d: DnsDiff, t: string, n: string)
    requires IsDiff(local, IndexOf(zone), d)
    ensures |Part(d.toDelete, t, n)| == |Strangers(Part(local, t, n), Part(zone, t, n))|
  {
    var lp, p, ds := Part(local, t, n), Part(zone, t, n), Part(d.toDelete, t, n);
    IndexLooksUpLast(zone);
    IndexMembers(zone);
    PartDistinct(d.toDelete, t, n);
    DistinctSize(ds);
    forall x | x in ds
      ensures KeyOf(x) in Strangers(lp, p)
    {
      KeysPart(local, KeyOf(x));
      assert x in p && Foreign(lp, x);
    }
    forall q | q in p && Foreign(lp, q)
      ensures KeyOf(q) in Keys(ds)
    {
      KeysPart(local, KeyOf(q));
      assert KeyOf(q) in Keys(IndexOf(zone));
      var x :| x in IndexOf(zone) && KeyOf(x) == KeyOf(q);
      assert x in d.toDelete && x in ds;
    }
    assert Keys(ds) == Strangers(lp, p);
  }

  lemma CreatePartOfDiff(local: seq<DnsRecord>, zone: seq<DnsRecord>, d: DnsDiff, t: string, n: string)
    requires IsDiff(local, IndexOf(zone), d)
    ensures forall r :: r in Part(d.toCreate, t, n) <==> r in Part(local, t, n) && KeyOf(r) !in Keys(Part(zone, t, n))
  {
    IndexLooksUpLast(zone);
    forall r | r in Part(local, t, n)
      ensures r in d.toCreate <==> KeyOf(r) !in Keys(Part(zone, t, n))
    {
      KeysPart(zone, KeyOf(r));
    }
  }

  lemma UpdatePartOfDiff(local: seq<DnsRecord>, zone: seq<DnsRecord>, d: DnsDiff, t: string, n: string)
    requires IsDiff(local, IndexOf(zone), d)
    ensures forall r :: r in Part(News(d.toUpdate), t, n) <==> r in Part(local, t, n) && Outdated(Part(zone, t, n), r)
  {
    IndexLooksUpLast(zone);
    UpdateNews(local, IndexOf(zone), d);
    forall r | r in Part(local, t, n)
      ensures r in News(d.toUpdate) <==> Outdated(Part(zone, t, n), r)
    {
      LastListedPart(zone, KeyOf(r));
      forall q | q in IndexOf(zone) && KeyOf(q) == KeyOf(r)
        ensures LastListed(zone, KeyOf(r)) == Some(q)
      {
        LookupUnique(IndexOf(zone), q);
      }
      assert Lookup(IndexOf(zone), KeyOf(r)) == LastListed(zone, KeyOf(r));
    }
  }

  /** What one sync does to one owner: `k` records fall off the front, those of `cs` are added at the end, and
      the front record is rewritten for those of `us`. */
  ghost predicate OwnerSync(lp: seq<DnsRecord>, p: seq<DnsRecord>, k: nat, cs: seq<DnsRecord>, us: seq<DnsRecord>) {
    && k == |Strangers(lp, p)|
    && (forall r :: r in cs <==> r in lp && KeyOf(r) !in Keys(p))
    && (forall r :: r in us <==> r in lp && Outdated(p, r))
  }

  function Synced(p: seq<DnsRecord>, k: nat, cs: seq<DnsRecord>, us: seq<DnsRecord>): seq<DnsRecord> {
    Rewritten(Dropped(p, k) + AsListed(cs), us)
  }

  lemma SyncOfOwner(local: seq<DnsRecord>, zone: seq<DnsRecord>, d: DnsDiff, t: string, n: string)
    requires Named(local) && Named(zone) && IsDiff(local, IndexOf(zone), d)
    ensures Apply(ByName, zone, d).Some?
    ensures var k, cs, us := |Part(d.toDelete, t, n)|, Part(d.toCreate, t, n), Part(News(d.toUpdate), t, n);
      && OwnerSync(Part(local, t, n), Part(zone, t, n), k, cs, us)
      && Part(Apply(ByName, zone, d).value, t, n) == Synced(Part(zone, t, n), k, cs, us)
  {
    IndexMembers(zone);
    NewsNamed(local, IndexOf(zone), d);
    DeletesPart(zone, d.toDelete, t, n);
    var z := Deletes(ByName, zone, d.toDelete).value;
    CreatesPart(z, d.toCreate, t, n);
    UpdatesPart(Creates(ByName, z, d.toCreate), d.toUpdate, t, n);
    DeletePartOfDiff(local, zone, d, t, n);
    CreatePartOfDiff(local, zone, d, t, n);
    UpdatePartOfDiff(local, zone, d, t, n);
  }

  // ---- Which records outlive the deletes ----

  /** The place after the last foreign record. */
  function LastForeign(lp: seq<DnsRecord>, p: seq<DnsRecord>): (m: nat)
    ensures m <= |p| && (m > 0 ==> Foreign(lp, p[m-1])) && forall i :: m <= i < |p| ==> !Foreign(lp, p[i])
  {
    if p == [] then 0 else if Foreign(lp, p[|p|-1]) then |p| else LastForeign(lp, p[..|p|-1])
  }

  /** One sync deletes all there is up to the last foreign record: it is all foreign, under different keys. */
  predicate Sweepable(lp: seq<DnsRecord>, p: seq<DnsRecord>) {
    var m := LastForeign(lp, p);
    DistinctKeys(p[..m]) && forall q :: q in p[..m] ==> Foreign(lp, q)
  }

  /** From this place on, records outlive every delete and every rewriting of the front record. */
  function Kept(lp: seq<DnsRecord>, p: seq<DnsRecord>): nat {
    LastForeign(lp, p) + if Sweepable(lp, p) then 1 else 0
  }

  lemma StrangersFirst(lp: seq<DnsRecord>, q: DnsRecord, rest: seq<DnsRecord>)
    ensures Strangers(lp, [q] + rest) == Strangers(lp, rest) + if Foreign(lp, q) then {KeyOf(q)} else {}
  {
    assert forall x :: x in [q] + rest <==> x == q || x in rest;
  }

  lemma {:induction false} StrangersCount(lp: seq<DnsRecord>, p: seq<DnsRecord>)
    ensures |Strangers(lp, p)| <= |p|
    ensures |Strangers(lp, p)| == |p| <==> DistinctKeys(p) && forall q :: q in p ==> Foreign(lp, q)
  {
    if p == [] {
      assert Strangers(lp, p) == {};
    } else {
      var q, rest := p[0], p[1..];
      assert p == [q] + rest && q in p;
      StrangersCount(lp, rest);
      StrangersFirst(lp, q, rest);
      if forall x :: x in rest ==> Foreign(lp, x) {
        StrangersCons(lp, q, rest);
      }
    }
  }

  lemma StrangersCons(lp: seq<DnsRecord>, q: DnsRecord, rest: seq<DnsRecord>)
    requires forall x :: x in rest ==> Foreign(lp, x)
    ensures DistinctKeys([q] + rest) <==> DistinctKeys(rest) && KeyOf(q) !in Strangers(lp, rest)
  {
    if DistinctKeys([q] + rest) {
      TailKeys([q] + rest);
      assert ([q] + rest)[1..] == rest;
    }
    if DistinctKeys(rest) && KeyOf(q) !in Strangers(lp, rest) {
      ConsKeys(q, rest);
    }
  }

  lemma SweepCount(lp: seq<DnsRecord>, p: seq<DnsRecord>)
    ensures var k, m := |Strangers(lp, p)|, LastForeign(lp, p);
      k <= m && (k == 0 <==> m == 0) && (k == m <==> Sweepable(lp, p))
  {
    var m := LastForeign(lp, p);
    forall q | q in p && Foreign(lp, q)
      ensures q in p[..m]
    {
      var i :| 0 <= i < |p| && p[i] == q;
      assert p[..m][i] == q;
    }
    assert Strangers(lp, p) == Strangers(lp, p[..m]);
    StrangersCount(lp, p[..m]);
    if m > 0 {
      assert KeyOf(p[m-1]) in Strangers(lp, p);
    }
  }

  // ---- Last listed, in a part and in the whole ----

  lemma {:induction false} LastListedAppend(a: seq<DnsRecord>, b: seq<DnsRecord>, k: Key)
    ensures LastListed(a + b, k) == if LastListed(b, k).Some? then LastListed(b, k) else LastListed(a, k)
  {
    if b == [] {
      assert a + b == a;
    } else {
      var n := |b| - 1;
      assert (a + b)[..|a|+n] == a + b[..n];
      LastListedAppend(a, b[..n], k);
    }
  }

  lemma OutdatedLater(p: seq<DnsRecord>, i: nat, j: nat, r: DnsRecord)
    requires i <= j && Outdated(Dropped(p, j), r)
    ensures Outdated(Dropped(p, i), r)
  {
    assert p[i..] == p[i..j] + p[j..];
    LastListedAppend(p[i..j], p[j..], KeyOf(r));
  }

  /** A record set in normal form, one record to a key. */
  predicate Ready(rs: seq<DnsRecord>) { DistinctKeys(rs) && Named(rs) && Unproxied(rs) }

  lemma StoredAgrees(r: DnsRecord)
    requires Canonical(r.name) == r.name && !r.proxied
    ensures KeyOf(Stored(ByName, r)) == KeyOf(r) && !Differs(r, Stored(ByName, r))
  {
  }

  lemma OneToAKey(rs: seq<DnsRecord>, r: DnsRecord, s: DnsRecord)
    requires DistinctKeys(rs) && r in rs && s in rs && KeyOf(r) == KeyOf(s)
    ensures r == s
  {
    LookupUnique(rs, r);
    LookupUnique(rs, s);
  }

  lemma CreatedRight(lp: seq<DnsRecord>, cs: seq<DnsRecord>, r: DnsRecord)
    requires Ready(lp) && r in lp && forall c :: c in cs ==> c in lp
    ensures !Outdated(AsListed(cs), r)
    ensures KeyOf(r) in Keys(AsListed(cs)) <==> r in cs
  {
    LastListedIn(AsListed(cs), KeyOf(r));
    forall i | 0 <= i < |cs|
      ensures KeyOf(AsListed(cs)[i]) == KeyOf(r) <==> cs[i] == r
      ensures cs[i] == r ==> !Differs(r, AsListed(cs)[i])
    {
      assert cs[i] in cs;
      StoredAgrees(cs[i]);
      if KeyOf(cs[i]) == KeyOf(r) {
        OneToAKey(lp, cs[i], r);
      }
    }
    if r in cs {
      var i :| 0 <= i < |cs| && cs[i] == r;
      assert AsListed(cs)[i] in AsListed(cs);
    }
  }

  lemma OutdatedWithCreated(lp: seq<DnsRecord>, x: seq<DnsRecord>, cs: seq<DnsRecord>, r: DnsRecord)
    requires Ready(lp) && r in lp && forall c :: c in cs ==> c in lp
    ensures Outdated(x + AsListed(cs), r) <==> Outdated(x, r) && r !in cs
  {
    CreatedRight(lp, cs, r);
    LastListedIn(AsListed(cs), KeyOf(r));
    LastListedAppend(x, AsListed(cs), KeyOf(r));
  }

  // ---- One owner, sync after sync ----

  /** Nothing foreign, and every local record listed last under its key as it should be. */
  predicate Quiet(lp: seq<DnsRecord>, p: seq<DnsRecord>) {
    && LastForeign(lp, p) == 0
    && (forall r :: r in lp ==> KeyOf(r) in Keys(p) && !Outdated(p, r))
  }

  /** Some local record is last listed wrong among the records that outlive everything. */
  predicate Stuck(lp: seq<DnsRecord>, p: seq<DnsRecord>) {
    exists r :: r in lp && Outdated(Dropped(p, Kept(lp, p)), r)
  }

  /** How many syncs the owner still needs at most. */
  function Rank(lp: seq<DnsRecord>, p: seq<DnsRecord>): nat { if Quiet(lp, p) then 0 else LastForeign(lp, p) + 1 }

  lemma QuietStays(lp: seq<DnsRecord>, p: seq<DnsRecord>, k: nat, cs: seq<DnsRecord>, us: seq<DnsRecord>)
    requires OwnerSync(lp, p, k, cs, us)
    ensures Quiet(lp, p) <==> k == 0 && cs == [] && us == []
    ensures Quiet(lp, p) ==> Synced(p, k, cs, us) == p
  {
    SweepCount(lp, p);
    if Quiet(lp, p) {
      NoRecord(cs);
      NoRecord(us);
    }
  }

  lemma OursAreNotForeign(lp: seq<DnsRecord>, cs: seq<DnsRecord>)
    requires Ready(lp) && forall c :: c in cs ==> c in lp
    ensures forall i :: 0 <= i < |cs| ==> !Foreign(lp, AsListed(cs)[i])
  {
    forall i | 0 <= i < |cs|
      ensures !Foreign(lp, AsListed(cs)[i])
    {
      assert cs[i] in cs;
      StoredAgrees(cs[i]);
    }
  }

  lemma {:induction false} RewrittenOnce(p: seq<DnsRecord>, us: seq<DnsRecord>)
    requires us != []
    ensures Rewritten(p, us) == [Stored(ByName, us[|us|-1])] + Tail(p)
    decreases us
  {
    if |us| > 1 {
      var x := Stored(ByName, us[0]);
      assert Tail([x] + Tail(p)) == Tail(p);
      RewrittenOnce([x] + Tail(p), us[1..]);
    }
  }

  lemma LastForeignIs(lp: seq<DnsRecord>, p: seq<DnsRecord>, m: nat)
    requires m <= |p| && (m > 0 ==> Foreign(lp, p[m-1])) && forall i :: m <= i < |p| ==> !Foreign(lp, p[i])
    ensures LastForeign(lp, p) == m
  {
  }

  lemma LastForeignDropped(lp: seq<DnsRecord>, p: seq<DnsRecord>, j: nat)
    requires j <= |p|
    ensures LastForeign(lp, p[j..]) == Max(0, LastForeign(lp, p) - j)
  {
    LastForeignIs(lp, p[j..], Max(0, LastForeign(lp, p) - j));
  }

  lemma LastForeignAppend(lp: seq<DnsRecord>, p: seq<DnsRecord>, ours: seq<DnsRecord>)
    requires forall i :: 0 <= i < |ours| ==> !Foreign(lp, ours[i])
    ensures LastForeign(lp, p + ours) == LastForeign(lp, p)
  {
    LastForeignIs(lp, p + ours, LastForeign(lp, p));
  }

  lemma LastForeignCons(lp: seq<DnsRecord>, x: DnsRecord, p: seq<DnsRecord>)
    requires !Foreign(lp, x)
    ensures LastForeign(lp, [x] + p) == if LastForeign(lp, p) == 0 then 0 else LastForeign(lp, p) + 1
  {
    LastForeignIs(lp, [x] + p, if LastForeign(lp, p) == 0 then 0 else LastForeign(lp, p) + 1);
  }

  /** Where the last foreign record stands once the front record was rewritten. */
  lemma LastForeignBehind(lp: seq<DnsRecord>, p: seq<DnsRecord>, k: nat, x: DnsRecord, ours: seq<DnsRecord>)
    requires k < |p| && !Foreign(lp, x) && forall i :: 0 <= i < |ours| ==> !Foreign(lp, ours[i])
    ensures var m := LastForeign(lp, p);
      LastForeign(lp, [x] + (p[k+1..] + ours)) == if m >= k + 2 then m - k else 0
  {
    LastForeignDropped(lp, p, k + 1);
    LastForeignAppend(lp, p[k+1..], ours);
    LastForeignCons(lp, x, p[k+1..] + ours);
  }

  lemma DroppedBehind(p: seq<DnsRecord>, k: nat, j: nat, x: DnsRecord, ours: seq<DnsRecord>)
    requires k < j <= |p|
    ensures Dropped([x] + (p[k+1..] + ours), j - k) == Dropped(p, j) + ours
  {
  }

  /** The front record rewritten: what outlives everything is what did so before, and what was created. */
  lemma KeptBehindRewritten(lp: seq<DnsRecord>, p: seq<DnsRecord>, k: nat, x: DnsRecord, ours: seq<DnsRecord>)
    requires k == |Strangers(lp, p)| < |p| && !Foreign(lp, x)
    requires forall i :: 0 <= i < |ours| ==> !Foreign(lp, ours[i])
    ensures var p', m := [x] + (p[k+1..] + ours), LastForeign(lp, p);
      && (if m > 0 then LastForeign(lp, p') < m else LastForeign(lp, p') == 0)
      && Dropped(p', Kept(lp, p')) == Dropped(p, Kept(lp, p)) + ours
  {
    SweepCount(lp, p);
    LastForeignBehind(lp, p, k, x, ours);
    var p', s := [x] + (p[k+1..] + ours), Kept(lp, p);
    var m' := LastForeign(lp, p');
    if m' > 0 {
      assert p'[..m'][0] == x && x in p'[..m'];
    }
    assert Kept(lp, p') == s - k;
    DroppedBehind(p, k, s, x, ours);
  }

  lemma TailAppend(p: seq<DnsRecord>, k: nat, ours: seq<DnsRecord>)
    requires k < |p|
    ensures Tail(Dropped(p, k) + ours) == p[k+1..] + ours
  {
  }

  /** A sync with something to rewrite and something left to rewrite. */
  lemma SyncRewrites(lp: seq<DnsRecord>, p: seq<DnsRecord>, k: nat, cs: seq<DnsRecord>, us: seq<DnsRecord>)
    requires Ready(lp) && OwnerSync(lp, p, k, cs, us) && us != [] && k < |p|
    ensures var p', u, m := Synced(p, k, cs, us), us[|us|-1], LastForeign(lp, p);
      && u in us && p' == [Stored(ByName, u)] + (p[k+1..] + AsListed(cs))
      && (if m > 0 then LastForeign(lp, p') < m else LastForeign(lp, p') == 0)
      && Dropped(p', Kept(lp, p')) == Dropped(p, Kept(lp, p)) + AsListed(cs)
  {
    var u := us[|us|-1];
    assert u in us;
    StoredAgrees(u);
    OursAreNotForeign(lp, cs);
    RewrittenOnce(Dropped(p, k) + AsListed(cs), us);
    TailAppend(p, k, AsListed(cs));
    KeptBehindRewritten(lp, p, k, Stored(ByName, u), AsListed(cs));
  }

  lemma NotCreated(lp: seq<DnsRecord>, p: seq<DnsRecord>, j: nat, r: DnsRecord)
    requires Outdated(Dropped(p, j), r)
    ensures Outdated(p, r) && KeyOf(r) in Keys(p) && j < |p|
  {
    OutdatedLater(p, 0, j, r);
    assert Dropped(p, 0) == p;
    LastListedIn(p, KeyOf(r));
  }

  /** A stuck owner has something to do, and is stuck afterwards. */
  lemma StuckStays(lp: seq<DnsRecord>, p: seq<DnsRecord>, k: nat, cs: seq<DnsRecord>, us: seq<DnsRecord>)
    requires Ready(lp) && OwnerSync(lp, p, k, cs, us) && Stuck(lp, p)
    ensures !Quiet(lp, p) && Stuck(lp, Synced(p, k, cs, us))
  {
    var r :| r in lp && Outdated(Dropped(p, Kept(lp, p)), r);
    NotCreated(lp, p, Kept(lp, p), r);
    SweepCount(lp, p);
    SyncRewrites(lp, p, k, cs, us);
    OutdatedWithCreated(lp, Dropped(p, Kept(lp, p)), cs, r);
  }

  /** A sync with nothing to rewrite leaves nothing to rewrite. */
  lemma SyncRewritesNothing(lp: seq<DnsRecord>, p: seq<DnsRecord>, k: nat, cs: seq<DnsRecord>, us: seq<DnsRecord>)
    requires Ready(lp) && OwnerSync(lp, p, k, cs, us) && us == []
    ensures var p', m := Synced(p, k, cs, us), LastForeign(lp, p);
      && k <= m && LastForeign(lp, p') == m - k
      && forall r :: r in lp ==> !Outdated(p', r)
  {
    var ours := AsListed(cs);
    SweepCount(lp, p);
    OursAreNotForeign(lp, cs);
    LastForeignDropped(lp, p, k);
    LastForeignAppend(lp, p[k..], ours);
    forall r | r in lp
      ensures !Outdated(p[k..] + ours, r)
    {
      assert r !in us;
      OutdatedWithCreated(lp, p[k..], cs, r);
      if Outdated(Dropped(p, k), r) {
        NotCreated(lp, p, k, r);
      }
    }
  }

  lemma NothingOutdatedNotStuck(lp: seq<DnsRecord>, p: seq<DnsRecord>)
    requires forall r :: r in lp ==> !Outdated(p, r)
    ensures !Stuck(lp, p)
  {
    forall r | r in lp
      ensures !Outdated(Dropped(p, Kept(lp, p)), r)
    {
      if Outdated(Dropped(p, Kept(lp, p)), r) {
        NotCreated(lp, p, Kept(lp, p), r);
      }
    }
  }

  lemma KeptWhenOurs(lp: seq<DnsRecord>, p: seq<DnsRecord>)
    requires LastForeign(lp, p) == 0
    ensures Kept(lp, p) == 1
  {
    assert p[..0] == [];
  }

  lemma AllCreated(lp: seq<DnsRecord>, x: DnsRecord, rest: seq<DnsRecord>)
    requires !Foreign(lp, x) && forall i :: 0 <= i < |rest| ==> !Foreign(lp, rest[i])
    ensures LastForeign(lp, [x] + rest) == 0 && Dropped([x] + rest, Kept(lp, [x] + rest)) == rest
  {
    LastForeignIs(lp, [x] + rest, 0);
    KeptWhenOurs(lp, [x] + rest);
  }

  lemma CreatedTailRight(lp: seq<DnsRecord>, cs: seq<DnsRecord>, r: DnsRecord)
    requires Ready(lp) && r in lp && forall c :: c in cs ==> c in lp
    ensures !Outdated(Tail(AsListed(cs)), r)
  {
    CreatedRight(lp, cs, r);
    if Outdated(Dropped(AsListed(cs), 1), r) {
      NotCreated(lp, AsListed(cs), 1, r);
    }
  }

  lemma TailOurs(lp: seq<DnsRecord>, ours: seq<DnsRecord>)
    requires forall i :: 0 <= i < |ours| ==> !Foreign(lp, ours[i])
    ensures forall i :: 0 <= i < |Tail(ours)| ==> !Foreign(lp, Tail(ours)[i])
  {
  }

  lemma CreatedAlone(lp: seq<DnsRecord>, u: DnsRecord, cs: seq<DnsRecord>)
    requires Ready(lp) && u in lp && forall c :: c in cs ==> c in lp
    ensures var p' := [Stored(ByName, u)] + Tail(AsListed(cs)); LastForeign(lp, p') == 0 && !Stuck(lp, p')
  {
    StoredAgrees(u);
    OursAreNotForeign(lp, cs);
    TailOurs(lp, AsListed(cs));
    AllCreated(lp, Stored(ByName, u), Tail(AsListed(cs)));
    forall r | r in lp
      ensures !Outdated(Tail(AsListed(cs)), r)
    {
      CreatedTailRight(lp, cs, r);
    }
  }

  /** Everything listed was deleted, and something rewritten: only created records are left. */
  lemma SyncReplacesAll(lp: seq<DnsRecord>, p: seq<DnsRecord>, k: nat, cs: seq<DnsRecord>, us: seq<DnsRecord>)
    requires Ready(lp) && OwnerSync(lp, p, k, cs, us) && us != [] && k == |p|
    ensures LastForeign(lp, Synced(p, k, cs, us)) == 0 && !Stuck(lp, Synced(p, k, cs, us))
  {
    var u := us[|us|-1];
    assert u in us && Dropped(p, k) + AsListed(cs) == AsListed(cs);
    RewrittenOnce(AsListed(cs), us);
    CreatedAlone(lp, u, cs);
  }

  /** While something foreign is listed, every sync moves the last of it forward. */
  lemma ForeignShrinks(lp: seq<DnsRecord>, p: seq<DnsRecord>, k: nat, cs: seq<DnsRecord>, us: seq<DnsRecord>)
    requires Ready(lp) && OwnerSync(lp, p, k, cs, us) && LastForeign(lp, p) > 0 && !Stuck(lp, p)
    ensures LastForeign(lp, Synced(p, k, cs, us)) < LastForeign(lp, p) && !Stuck(lp, Synced(p, k, cs, us))
  {
    SweepCount(lp, p);
    if us == [] {
      SyncRewritesNothing(lp, p, k, cs, us);
      NothingOutdatedNotStuck(lp, Synced(p, k, cs, us));
    } else if k == |p| {
      SyncReplacesAll(lp, p, k, cs, us);
    } else {
      SyncRewrites(lp, p, k, cs, us);
      StaysUnstuck(lp, p, k, cs, us);
    }
  }

  lemma StaysUnstuck(lp: seq<DnsRecord>, p: seq<DnsRecord>, k: nat, cs: seq<DnsRecord>, us: seq<DnsRecord>)
    requires Ready(lp) && OwnerSync(lp, p, k, cs, us) && us != [] && k < |p| && !Stuck(lp, p)
    ensures !Stuck(lp, Synced(p, k, cs, us))
  {
    SyncRewrites(lp, p, k, cs, us);
    forall r | r in lp
      ensures !Outdated(Dropped(p, Kept(lp, p)) + AsListed(cs), r)
    {
      OutdatedWithCreated(lp, Dropped(p, Kept(lp, p)), cs, r);
    }
  }

  /** Only the front record is out of date: it is the only listed one under the key of what replaces it. */
  lemma FrontIsReplaced(p: seq<DnsRecord>, u: DnsRecord)
    requires Outdated(p, u) && !Outdated(Tail(p), u)
    ensures p != [] && KeyOf(p[0]) == KeyOf(u) && KeyOf(u) !in Keys(Tail(p))
  {
    assert p == [p[0]] + Tail(p);
    LastListedAppend([p[0]], Tail(p), KeyOf(u));
    LastListedIn(Tail(p), KeyOf(u));
    LastListedIn([p[0]], KeyOf(u));
  }

  lemma KeysCons(x: DnsRecord, rest: seq<DnsRecord>)
    ensures Keys([x] + rest) == {KeyOf(x)} + Keys(rest)
  {
    assert forall y :: y in [x] + rest <==> y == x || y in rest;
  }

  lemma OutdatedCons(x: DnsRecord, rest: seq<DnsRecord>, r: DnsRecord)
    requires !Outdated(rest, r) && (KeyOf(x) == KeyOf(r) ==> !Differs(r, x))
    ensures !Outdated([x] + rest, r)
  {
    LastListedAppend([x], rest, KeyOf(r));
    LastListedIn([x], KeyOf(r));
  }

  lemma CreatedKeys(lp: seq<DnsRecord>, p: seq<DnsRecord>, cs: seq<DnsRecord>)
    requires Ready(lp) && forall r :: r in cs <==> r in lp && KeyOf(r) !in Keys(p)
    ensures forall r :: r in lp ==> KeyOf(r) in Keys(p + AsListed(cs))
  {
    forall r | r in lp
      ensures KeyOf(r) in Keys(p + AsListed(cs))
    {
      CreatedRight(lp, cs, r);
      LastListedAppend(p, AsListed(cs), KeyOf(r));
      LastListedIn(p, KeyOf(r));
      LastListedIn(AsListed(cs), KeyOf(r));
      LastListedIn(p + AsListed(cs), KeyOf(r));
    }
  }

  lemma FrontRight(lp: seq<DnsRecord>, p: seq<DnsRecord>, cs: seq<DnsRecord>, u: DnsRecord, r: DnsRecord)
    requires Ready(lp) && u in lp && r in lp && !Outdated(Tail(p), r) && forall c :: c in cs ==> c in lp
    ensures !Outdated([Stored(ByName, u)] + (Tail(p) + AsListed(cs)), r)
  {
    OutdatedWithCreated(lp, Tail(p), cs, r);
    StoredAgrees(u);
    if KeyOf(r) == KeyOf(u) {
      OneToAKey(lp, r, u);
    }
    OutdatedCons(Stored(ByName, u), Tail(p) + AsListed(cs), r);
  }

  lemma FrontKeys(p: seq<DnsRecord>, x: DnsRecord, ours: seq<DnsRecord>)
    requires p != [] && KeyOf(p[0]) == KeyOf(x)
    ensures Keys([x] + (Tail(p) + ours)) == Keys(p + ours)
  {
    KeysCons(x, Tail(p) + ours);
    KeysCons(p[0], Tail(p) + ours);
    assert [p[0]] + (Tail(p) + ours) == p + ours;
  }

  lemma FrontQuiet(lp: seq<DnsRecord>, p: seq<DnsRecord>, cs: seq<DnsRecord>, u: DnsRecord)
    requires Ready(lp) && u in lp && p != [] && KeyOf(p[0]) == KeyOf(u)
    requires forall r :: r in cs <==> r in lp && KeyOf(r) !in Keys(p)
    requires forall r :: r in lp ==> !Outdated(Tail(p), r)
    requires LastForeign(lp, [Stored(ByName, u)] + (Tail(p) + AsListed(cs))) == 0
    ensures Quiet(lp, [Stored(ByName, u)] + (Tail(p) + AsListed(cs)))
  {
    StoredAgrees(u);
    FrontKeys(p, Stored(ByName, u), AsListed(cs));
    CreatedKeys(lp, p, cs);
    forall r | r in lp
      ensures !Outdated([Stored(ByName, u)] + (Tail(p) + AsListed(cs)), r)
    {
      FrontRight(lp, p, cs, u, r);
    }
  }

  lemma FrontCompletes(lp: seq<DnsRecord>, p: seq<DnsRecord>, cs: seq<DnsRecord>, us: seq<DnsRecord>)
    requires Ready(lp) && OwnerSync(lp, p, 0, cs, us) && us != []
    requires LastForeign(lp, p) == 0 && forall r :: r in lp ==> !Outdated(Tail(p), r)
    ensures Quiet(lp, Synced(p, 0, cs, us))
  {
    var u := us[|us|-1];
    assert u in us;
    FrontIsReplaced(p, u);
    SyncRewrites(lp, p, 0, cs, us);
    FrontQuiet(lp, p, cs, u);
  }

  /** Without anything foreign, an owner that is not stuck is quiet after one more sync. */
  lemma SyncCompletes(lp: seq<DnsRecord>, p: seq<DnsRecord>, k: nat, cs: seq<DnsRecord>, us: seq<DnsRecord>)
    requires Ready(lp) && OwnerSync(lp, p, k, cs, us) && LastForeign(lp, p) == 0 && !Stuck(lp, p)
    ensures Quiet(lp, Synced(p, k, cs, us))
  {
    SweepCount(lp, p);
    if us == [] {
      SyncRewritesNothing(lp, p, k, cs, us);
      assert Dropped(p, 0) == p;
      CreatedKeys(lp, p, cs);
    } else {
      FrontCompletes(lp, p, cs, us);
    }
  }

  /** Unless it is stuck, every sync brings an owner nearer to rest. */
  lemma RankFalls(lp: seq<DnsRecord>, p: seq<DnsRecord>, k: nat, cs: seq<DnsRecord>, us: seq<DnsRecord>)
    requires Ready(lp) && OwnerSync(lp, p, k, cs, us) && !Stuck(lp, p)
    ensures var p' := Synced(p, k, cs, us);
      !Stuck(lp, p') && Rank(lp, p') <= Max(0, Rank(lp, p) - 1)
  {
    if Quiet(lp, p) {
      QuietStays(lp, p, k, cs, us);
    } else if LastForeign(lp, p) > 0 {
      ForeignShrinks(lp, p, k, cs, us);
    } else {
      SyncCompletes(lp, p, k, cs, us);
      NothingOutdatedNotStuck(lp, Synced(p, k, cs, us));
    }
  }

  // ---- Whole runs ----

  /** Syncs one after the other, each on the zone the one before it left. */
  ghost predicate Syncs(local: seq<DnsRecord>, zones: seq<seq<DnsRecord>>, ds: seq<DnsDiff>) {
    && |zones| == |ds| + 1
    && forall i :: 0 <= i < |ds| ==>
         IsDiff(local, IndexOf(zones[i]), ds[i]) && Apply(ByName, zones[i], ds[i]) == Some(zones[i+1])
  }

  /** Among the zone's records of the type and name of `r` that outlive every sync, the last one under its key is wrong. */
  predicate Blocked(local: seq<DnsRecord>, zone: seq<DnsRecord>, r: DnsRecord) {
    var lp, p := Part(local, r.rtype, r.name), Part(zone, r.rtype, r.name);
    Outdated(Dropped(p, Kept(lp, p)), r)
  }

  lemma ReadyPart(local: seq<DnsRecord>, t: string, n: string)
    requires Ready(local)
    ensures Ready(Part(local, t, n))
  {
    PartDistinct(local, t, n);
  }

  lemma StuckIsBlocked(local: seq<DnsRecord>, zone: seq<DnsRecord>, t: string, n: string)
    requires forall r :: r in local ==> !Blocked(local, zone, r)
    ensures !Stuck(Part(local, t, n), Part(zone, t, n))
  {
    var lp, p := Part(local, t, n), Part(zone, t, n);
    forall r | r in lp
      ensures !Outdated(Dropped(p, Kept(lp, p)), r)
    {
      assert r in local && !Blocked(local, zone, r);
    }
  }

  lemma EmptyIffQuiet(local: seq<DnsRecord>, zone: seq<DnsRecord>, d: DnsDiff)
    requires Named(local) && Named(zone) && IsDiff(local, IndexOf(zone), d)
    ensures d.IsEmpty() <==> forall t, n :: Quiet(Part(local, t, n), Part(zone, t, n))
  {
    forall t, n
      ensures Quiet(Part(local, t, n), Part(zone, t, n))
         <==> Part(d.toDelete, t, n) == [] && Part(d.toCreate, t, n) == [] && Part(News(d.toUpdate), t, n) == []
    {
      SyncOfOwner(local, zone, d, t, n);
      QuietStays(Part(local, t, n), Part(zone, t, n), |Part(d.toDelete, t, n)|, Part(d.toCreate, t, n),
                 Part(News(d.toUpdate), t, n));
    }
    if forall t, n :: Quiet(Part(local, t, n), Part(zone, t, n)) {
      NoParts(d.toDelete);
      NoParts(d.toCreate);
      NoParts(News(d.toUpdate));
    }
  }

  lemma NoParts(rs: seq<DnsRecord>)
    requires forall t, n :: Part(rs, t, n) == []
    ensures rs == []
  {
    forall x
      ensures x !in rs
    {
      assert x in rs <==> x in Part(rs, x.rtype, x.name);
    }
    NoRecord(rs);
  }

  lemma ApplyNamed(zone: seq<DnsRecord>, d: DnsDiff)
    requires Named(zone) && Apply(ByName, zone, d).Some?
    ensures Named(Apply(ByName, zone, d).value)
  {
    DeletesNamed(ByName, zone, d.toDelete);
    var z := Deletes(ByName, zone, d.toDelete).value;
    CreatesNamed(ByName, z, d.toCreate);
    UpdatesNamed(ByName, Creates(ByName, z, d.toCreate), d.toUpdate);
  }

  lemma ZonesNamed(local: seq<DnsRecord>, zones: seq<seq<DnsRecord>>, ds: seq<DnsDiff>)
    requires Syncs(local, zones, ds) && Named(zones[0])
    ensures forall i :: 0 <= i < |zones| ==> Named(zones[i])
  {
    for i := 0 to |ds|
      invariant forall j :: 0 <= j <= i ==> Named(zones[j])
    {
      assert Apply(ByName, zones[i], ds[i]) == Some(zones[i+1]);
      ApplyNamed(zones[i], ds[i]);
    }
  }

  lemma OwnerStep(local: seq<DnsRecord>, zone: seq<DnsRecord>, d: DnsDiff, zone': seq<DnsRecord>, t: string, n: string)
    requires Ready(local) && Named(zone) && IsDiff(local, IndexOf(zone), d) && Apply(ByName, zone, d) == Some(zone')
    ensures var lp, p, p' := Part(local, t, n), Part(zone, t, n), Part(zone', t, n);
      if Stuck(lp, p) then Stuck(lp, p') && !d.IsEmpty()
      else !Stuck(lp, p') && Rank(lp, p') <= Max(0, Rank(lp, p) - 1)
  {
    var lp, p := Part(local, t, n), Part(zone, t, n);
    var k, cs, us := |Part(d.toDelete, t, n)|, Part(d.toCreate, t, n), Part(News(d.toUpdate), t, n);
    SyncOfOwner(local, zone, d, t, n);
    ReadyPart(local, t, n);
    if Stuck(lp, p) {
      StuckStays(lp, p, k, cs, us);
      EmptyIffQuiet(local, zone, d);
    } else {
      RankFalls(lp, p, k, cs, us);
    }
  }

  /** One owner over a whole run: at rest after as many syncs as the zone had records, and one. */
  lemma OwnerRun(local: seq<DnsRecord>, zones: seq<seq<DnsRecord>>, ds: seq<DnsDiff>, t: string, n: string)
    requires Syncs(local, zones, ds) && Ready(local) && Named(zones[0])
    requires !Stuck(Part(local, t, n), Part(zones[0], t, n))
    ensures forall i :: |zones[0]| < i < |zones| ==> Quiet(Part(local, t, n), Part(zones[i], t, n))
  {
    ZonesNamed(local, zones, ds);
    var lp, most := Part(local, t, n), |zones[0]| + 1;
    for i := 0 to |ds|
      invariant !Stuck(lp, Part(zones[i], t, n))
      invariant Rank(lp, Part(zones[i], t, n)) <= Max(0, most - i)
      invariant forall j :: |zones[0]| < j <= i ==> Quiet(lp, Part(zones[j], t, n))
    {
      OwnerStep(local, zones[i], ds[i], zones[i+1], t, n);
    }
  }

  /** One blocked record, and no sync in any number of them is ever quiet. */
  lemma FirstMatchNeverSettles(local: seq<DnsRecord>, zones: seq<seq<DnsRecord>>, ds: seq<DnsDiff>, r: DnsRecord)
    requires Syncs(local, zones, ds) && Ready(local) && Named(zones[0]) && r in local && Blocked(local, zones[0], r)
    ensures forall i :: 0 <= i < |ds| ==> !ds[i].IsEmpty()
  {
    var t, n := r.rtype, r.name;
    assert r in Part(local, t, n);
    ZonesNamed(local, zones, ds);
    for i := 0 to |ds|
      invariant Stuck(Part(local, t, n), Part(zones[i], t, n))
      invariant forall j :: 0 <= j < i ==> !ds[j].IsEmpty()
    {
      OwnerStep(local, zones[i], ds[i], zones[i+1], t, n);
    }
  }

  /** Otherwise syncs run out: all of them are quiet once there were more than the zone had records. */
  lemma FirstMatchSettles(local: seq<DnsRecord>, zones: seq<seq<DnsRecord>>, ds: seq<DnsDiff>)
    requires Syncs(local, zones, ds) && Ready(local) && Named(zones[0])
    requires forall r :: r in local ==> !Blocked(local, zones[0], r)
    ensures forall i :: |zones[0]| < i < |ds| ==> ds[i].IsEmpty()
  {
    ZonesNamed(local, zones, ds);
    forall i | |zones[0]| < i < |ds|
      ensures ds[i].IsEmpty()
    {
      forall t, n
        ensures Quiet(Part(local, t, n), Part(zones[i], t, n))
      {
        StuckIsBlocked(local, zones[0], t, n);
        OwnerRun(local, zones, ds, t, n);
      }
      EmptyIffQuiet(local, zones[i], ds[i]);
    }
  }

  /** A local name without its trailing dot is listed under another name, and created again by every sync. */
  lemma UnnamedNeverSettles(local: seq<DnsRecord>, zones: seq<seq<DnsRecord>>, ds: seq<DnsDiff>)
    requires Syncs(local, zones, ds) && Named(zones[0]) && !Named(local)
    ensures forall i :: 0 <= i < |ds| ==> !ds[i].IsEmpty()
  {
    var r :| r in local && Canonical(r.name) != r.name;
    ZonesNamed(local, zones, ds);
    forall i | 0 <= i < |ds|
      ensures !ds[i].IsEmpty()
    {
      IndexLooksUpLast(zones[i]);
      assert r in ds[i].toCreate;
    }
  }

  /** Repeated first-match syncs come to rest exactly when every local name is in normal form and no local record
      is blocked in the zone they start from. */
  lemma FirstMatchSettlesIff(local: seq<DnsRecord>, zones: seq<seq<DnsRecord>>, ds: seq<DnsDiff>)
    requires Syncs(local, zones, ds) && |ds| > |zones[0]| + 1
    requires DistinctKeys(local) && Unproxied(local) && Named(zones[0])
    ensures (exists i :: 0 <= i < |ds| && ds[i].IsEmpty())
       <==> Named(local) && forall r :: r in local ==> !Blocked(local, zones[0], r)
  {
    if !Named(local) {
      UnnamedNeverSettles(local, zones, ds);
    } else if r :| r in local && Blocked(local, zones[0], r) {
      FirstMatchNeverSettles(local, zones, ds, r);
    } else {
      FirstMatchSettles(local, zones, ds);
      assert ds[|zones[0]| + 1].IsEmpty();
    }
  }

  // ---- What blocks ----

  lemma OneLast(p: seq<DnsRecord>, k: Key)
    requires p != [] && forall q :: q in p ==> KeyOf(q) == k
    ensures LastListed(p, k) == Some(p[|p|-1])
  {
    assert p[|p|-1] in p;
  }

  lemma OneKeyOutdated(p: seq<DnsRecord>, r: DnsRecord)
    requires forall q :: q in p ==> KeyOf(q) == KeyOf(r)
    ensures Outdated(Tail(p), r) <==> |p| >= 2 && Differs(r, p[|p|-1])
  {
    if |p| >= 2 {
      OneLast(Tail(p), KeyOf(r));
    }
  }

  /** Other than TXT: what blocks is a type and name listed twice or more, of which the last is wrong. */
  lemma WrongDuplicateBlocks(local: seq<DnsRecord>, zone: seq<DnsRecord>, r: DnsRecord)
    requires r in local && r.rtype != "TXT"
    ensures var p := Part(zone, r.rtype, r.name);
      Blocked(local, zone, r) <==> |p| >= 2 && Differs(r, p[|p|-1])
  {
    var lp, p := Part(local, r.rtype, r.name), Part(zone, r.rtype, r.name);
    assert r in lp;
    forall i | 0 <= i < |p|
      ensures !Foreign(lp, p[i])
    {
      assert p[i] in p;
    }
    LastForeignIs(lp, p, 0);
    KeptWhenOurs(lp, p);
    OneKeyOutdated(p, r);
  }

  lemma AgreeingNotOutdated(p: seq<DnsRecord>, r: DnsRecord)
    requires r.rtype == "TXT" && forall q :: q in p && KeyOf(q) == KeyOf(r) ==> q.ttl == r.ttl
    ensures !Outdated(p, r)
  {
    LastListedIn(p, KeyOf(r));
  }

  /** TXT: nothing blocks while no listed record has the local value and another ttl. */
  lemma AgreeingTxtIsFree(local: seq<DnsRecord>, zone: seq<DnsRecord>, r: DnsRecord)
    requires r in local && r.rtype == "TXT" && forall q :: q in zone && KeyOf(q) == KeyOf(r) ==> q.ttl == r.ttl
    ensures !Blocked(local, zone, r)
  {
    var lp, p := Part(local, r.rtype, r.name), Part(zone, r.rtype, r.name);
    AgreeingNotOutdated(p, r);
    if Outdated(Dropped(p, Kept(lp, p)), r) {
      NotCreated(lp, p, Kept(lp, p), r);
    }
  }

  /** The ttl of a TXT record changed that is listed behind another wanted one of its name: the updates go to that
      other record, which the next sync puts back, and so on for ever. */
  lemma FirstMatchTxtNeverSettles(a: DnsRecord, b: DnsRecord, stale: DnsRecord,
                                  zones: seq<seq<DnsRecord>>, ds: seq<DnsDiff>)
    requires a.rtype == "TXT" && SameOwner(a, b) && a.value != b.value && Ready([a, b])
    requires KeyOf(stale) == KeyOf(b) && stale.ttl != b.ttl
    requires Syncs([a, b], zones, ds) && zones[0] == [a, stale]
    ensures forall i :: 0 <= i < |ds| ==> !ds[i].IsEmpty()
  {
    assert a in [a, b] && b in [a, b];
    PartOfOwned([a, b], a.rtype, a.name);
    PartOfOwned([a, stale], a.rtype, a.name);
    LastForeignIs([a, b], [a, stale], 0);
    assert Dropped([a, stale], 1) == [stale];
    OneLast([stale], KeyOf(b));
    FirstMatchNeverSettles([a, b], zones, ds, b);
  }

  lemma {:induction false} PartOfOwned(rs: seq<DnsRecord>, t: string, n: string)
    requires forall r :: r in rs ==> Owned(r, t, n)
    ensures Part(rs, t, n) == rs
  {
    if rs != [] {
      PartFirst(rs, t, n);
      PartOfOwned(rs[1..], t, n);
    }
  }
}
