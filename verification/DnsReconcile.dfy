/** Repeated syncs: when the next one has nothing to do, and why they run out of work. */
module DnsReconcile {
  import opened Prelude
  import opened DnsRecords
  import opened DnsRecordSets
  import opened DnsSync

  // ---- Names without the trailing dot ----

  lemma {:induction false} ReplaceFirstKeeps(zone: seq<DnsRecord>, stale: DnsRecord, fresher: DnsRecord)
    requires stale in zone
    ensures multiset(ReplaceFirst(zone, stale, fresher)) == multiset(zone) - multiset{stale} + multiset{fresher}
  {
    assert zone == [zone[0]] + zone[1..];
    if zone[0] != stale {
      ReplaceFirstKeeps(zone[1..], stale, fresher);
    }
  }

  lemma NamedOfMultiset(a: seq<DnsRecord>, b: seq<DnsRecord>, extra: DnsRecord)
    requires Named(a) && Canonical(extra.name) == extra.name
    requires forall r :: r in multiset(b) ==> r in multiset(a) || r == extra
    ensures Named(b)
  {
    forall r | r in b
      ensures Canonical(r.name) == r.name
    {
      assert r in multiset(b);
    }
  }

  lemma StoredNamed(disc: Discipline, r: DnsRecord)
    requires !disc.Exact?
    ensures Canonical(Stored(disc, r).name) == Stored(disc, r).name
  {
    CanonicalIdempotent(r.name);
  }

  lemma RemoveNamed(zone: seq<DnsRecord>, q: DnsRecord)
    requires Named(zone) && q in zone
    ensures Named(RemoveFirst(zone, q))
  {
    RemoveFirstCounts(zone, q);
    NamedOfMultiset(zone, RemoveFirst(zone, q), q);
  }

  lemma ReplaceNamed(zone: seq<DnsRecord>, q: DnsRecord, x: DnsRecord)
    requires Named(zone) && q in zone && Canonical(x.name) == x.name
    ensures Named(ReplaceFirst(zone, q, x))
  {
    ReplaceFirstKeeps(zone, q, x);
    NamedOfMultiset(zone, ReplaceFirst(zone, q, x), x);
  }

  lemma StepNamed(disc: Discipline, zone: seq<DnsRecord>, stale: DnsRecord, r: DnsRecord)
    requires !disc.Exact? && Named(zone)
    ensures Named(CreateIn(disc, zone, r)) && Named(UpdateIn(disc, zone, stale, r))
    ensures DeleteIn(disc, zone, r).Some? ==> Named(DeleteIn(disc, zone, r).value)
  {
    StoredNamed(disc, r);
    if disc.ByName? && Listed(zone, r).Some? {
      RemoveNamed(zone, Listed(zone, r).value);
      ReplaceNamed(zone, Listed(zone, r).value, Stored(disc, r));
    }
  }

  lemma {:induction false} DeletesNamed(disc: Discipline, zone: seq<DnsRecord>, ds: seq<DnsRecord>)
    requires !disc.Exact? && Named(zone) && Deletes(disc, zone, ds).Some?
    ensures Named(Deletes(disc, zone, ds).value)
    decreases ds
  {
    if ds != [] {
      StepNamed(disc, zone, ds[0], ds[0]);
      DeletesNamed(disc, DeleteIn(disc, zone, ds[0]).value, ds[1..]);
    }
  }

  lemma {:induction false} CreatesNamed(disc: Discipline, zone: seq<DnsRecord>, cs: seq<DnsRecord>)
    requires !disc.Exact? && Named(zone)
    ensures Named(Creates(disc, zone, cs))
    decreases cs
  {
    if cs != [] {
      StepNamed(disc, zone, cs[0], cs[0]);
      CreatesNamed(disc, CreateIn(disc, zone, cs[0]), cs[1..]);
    }
  }

  lemma {:induction false} UpdatesNamed(disc: Discipline, zone: seq<DnsRecord>, us: seq<(DnsRecord, DnsRecord)>)
    requires !disc.Exact? && Named(zone)
    ensures Named(Updates(disc, zone, us))
    decreases us
  {
    if us != [] {
      StepNamed(disc, zone, us[0].0, us[0].1);
      UpdatesNamed(disc, UpdateIn(disc, zone, us[0].0, us[0].1), us[1..]);
    }
  }

  /** The sync after a sync is quiet exactly when every local name carries its trailing dot. */
  lemma NextSyncQuietIffNamed(disc: Discipline, local: seq<DnsRecord>, zone: seq<DnsRecord>, d: DnsDiff, d': DnsDiff)
    requires !disc.Exact? && OwnersUnique(local) && Unproxied(local)
    requires OwnersUnique(zone) && Named(zone) && IsDiff(local, IndexOf(zone), d)
    requires Apply(disc, zone, d).Some? && IsDiff(local, IndexOf(Apply(disc, zone, d).value), d')
    ensures d'.IsEmpty() <==> Named(local)
  {
    if Named(local) {
      SyncConverges(disc, local, zone, d);
    } else {
      var r :| r in local && Canonical(r.name) != r.name;
      DeletesNamed(disc, zone, d.toDelete);
      var z1 := Deletes(disc, zone, d.toDelete).value;
      CreatesNamed(disc, z1, d.toCreate);
      UpdatesNamed(disc, Creates(disc, z1, d.toCreate), d.toUpdate);
      IndexLooksUpLast(Apply(disc, zone, d).value);
      assert r in d'.toCreate;
    }
  }

  // ---- Work left, under the exact-record discipline ----

  /** Foreign, or different from the local record of the same key. */
  predicate Bad(local: seq<DnsRecord>, r: DnsRecord) {
    match Lookup(local, KeyOf(r))
    case None => true
    case Some(l) => Differs(l, r)
  }

  function BadCount(local: seq<DnsRecord>, zone: seq<DnsRecord>): nat {
    if zone == [] then 0 else (if Bad(local, zone[0]) then 1 else 0) + BadCount(local, zone[1..])
  }

  function Missing(local: seq<DnsRecord>, zone: seq<DnsRecord>): set<Key> { Keys(local) - Keys(zone) }

  /** Foreign records, differing records and missing keys. */
  function Work(local: seq<DnsRecord>, zone: seq<DnsRecord>): nat {
    BadCount(local, zone) + |Missing(local, zone)|
  }

  function Actions(d: DnsDiff): nat { |d.toDelete| + |d.toCreate| + |d.toUpdate| }

  lemma {:induction false} BadCountRemove(local: seq<DnsRecord>, zone: seq<DnsRecord>, r: DnsRecord)
    requires r in zone && Bad(local, r)
    ensures BadCount(local, RemoveFirst(zone, r)) + 1 == BadCount(local, zone)
  {
    if zone[0] != r {
      BadCountRemove(local, zone[1..], r);
    }
  }

  lemma {:induction false} BadCountReplace(local: seq<DnsRecord>, zone: seq<DnsRecord>, stale: DnsRecord, fresher: DnsRecord)
    requires stale in zone && Bad(local, stale) && !Bad(local, fresher)
    ensures BadCount(local, ReplaceFirst(zone, stale, fresher)) + 1 == BadCount(local, zone)
  {
    if zone[0] != stale {
      BadCountReplace(local, zone[1..], stale, fresher);
    }
  }

  lemma {:induction false} BadCountAppend(local: seq<DnsRecord>, zone: seq<DnsRecord>, r: DnsRecord)
    requires !Bad(local, r)
    ensures BadCount(local, zone + [r]) == BadCount(local, zone)
  {
    if zone == [] {
      assert zone + [r] == [r];
    } else {
      assert (zone + [r])[1..] == zone[1..] + [r];
      BadCountAppend(local, zone[1..], r);
    }
  }

  lemma SameMembersOutside(a: seq<DnsRecord>, b: seq<DnsRecord>, r: DnsRecord, x: DnsRecord)
    requires multiset(b) == multiset(a) - multiset{r} && x != r
    ensures x in a <==> x in b
  {
    assert x in multiset(a) <==> x in multiset(b);
  }

  lemma {:induction false} DeletesDoWork(local: seq<DnsRecord>, zone: seq<DnsRecord>, ds: seq<DnsRecord>)
    requires DistinctKeys(ds) && forall r :: r in ds ==> r in zone && KeyOf(r) !in Keys(local)
    ensures var z := Deletes(Exact, zone, ds);
      && z.Some? && BadCount(local, z.value) + |ds| == BadCount(local, zone)
      && forall x :: KeyOf(x) in Keys(local) ==> (x in z.value <==> x in zone)
    decreases ds
  {
    if ds != [] {
      var r := ds[0];
      var left := RemoveFirst(zone, r);
      assert r in ds;
      BadCountRemove(local, zone, r);
      RemoveFirstCounts(zone, r);
      forall x | x != r
        ensures x in left <==> x in zone
      {
        SameMembersOutside(zone, left, r, x);
      }
      forall q | q in ds[1..]
        ensures q in left && KeyOf(q) !in Keys(local)
      {
        var i :| 0 <= i < |ds[1..]| && ds[1..][i] == q;
        assert KeyOf(ds[0]) != KeyOf(ds[i+1]) && q in ds;
      }
      DeletesDoWork(local, left, ds[1..]);
    }
  }

  lemma KeysAppend(zone: seq<DnsRecord>, r: DnsRecord)
    ensures Keys(zone + [r]) == Keys(zone) + {KeyOf(r)}
  {
    forall k | k in Keys(zone) + {KeyOf(r)}
      ensures k in Keys(zone + [r])
    {
      var q :| q in zone + [r] && KeyOf(q) == k;
    }
  }

  lemma MissingShrinks(local: seq<DnsRecord>, zone: seq<DnsRecord>, k: Key, keys: set<Key>)
    requires k in Keys(local) && k !in Keys(zone) && keys == Keys(zone) + {k}
    ensures |Keys(local) - keys| + 1 == |Missing(local, zone)|
  {
    assert Keys(local) - keys == Missing(local, zone) - {k};
  }

  lemma CreateDoesWork(local: seq<DnsRecord>, zone: seq<DnsRecord>, r: DnsRecord)
    requires DistinctKeys(local) && r in local && KeyOf(r) !in Keys(zone)
    ensures BadCount(local, zone + [r]) == BadCount(local, zone)
    ensures |Missing(local, zone + [r])| + 1 == |Missing(local, zone)|
    ensures Keys(zone + [r]) == Keys(zone) + {KeyOf(r)}
  {
    LookupUnique(local, r);
    BadCountAppend(local, zone, r);
    KeysAppend(zone, r);
    MissingShrinks(local, zone, KeyOf(r), Keys(zone + [r]));
  }

  lemma {:induction false} CreatesDoWork(local: seq<DnsRecord>, zone: seq<DnsRecord>, cs: seq<DnsRecord>)
    requires DistinctKeys(local) && DistinctKeys(cs)
    requires forall r :: r in cs ==> r in local && KeyOf(r) !in Keys(zone)
    ensures BadCount(local, Creates(Exact, zone, cs)) == BadCount(local, zone)
    ensures |Missing(local, Creates(Exact, zone, cs))| + |cs| == |Missing(local, zone)|
    ensures forall x :: x in zone ==> x in Creates(Exact, zone, cs)
    decreases cs
  {
    if cs != [] {
      var z := zone + [cs[0]];
      assert cs[0] in cs;
      CreateDoesWork(local, zone, cs[0]);
      forall q | q in cs[1..]
        ensures q in local && KeyOf(q) !in Keys(z)
      {
        var i :| 0 <= i < |cs[1..]| && cs[1..][i] == q;
        assert KeyOf(cs[0]) != KeyOf(cs[i+1]) && q in cs;
      }
      CreatesDoWork(local, z, cs[1..]);
    }
  }

  predicate Improves(local: seq<DnsRecord>, zone: seq<DnsRecord>, u: (DnsRecord, DnsRecord)) {
    u.0 in zone && u.1 in local && KeyOf(u.0) == KeyOf(u.1) && Differs(u.1, u.0)
  }

  lemma ReplaceKeepsKeys(zone: seq<DnsRecord>, stale: DnsRecord, fresher: DnsRecord)
    requires stale in zone && KeyOf(stale) == KeyOf(fresher)
    ensures Keys(ReplaceFirst(zone, stale, fresher)) == Keys(zone)
    ensures forall x :: x in zone && x != stale ==> x in ReplaceFirst(zone, stale, fresher)
  {
    var z := ReplaceFirst(zone, stale, fresher);
    ReplaceFirstKeeps(zone, stale, fresher);
    assert fresher in multiset(z);
    forall x | x in zone && x != stale
      ensures x in z
    {
      assert x in multiset(z);
    }
    forall x | x in z
      ensures KeyOf(x) in Keys(zone)
    {
      assert x in multiset(z);
      assert x == fresher || x in zone;
    }
    forall x | x in zone
      ensures KeyOf(x) in Keys(z)
    {
      assert x == stale || x in z;
    }
  }

  lemma {:induction false} UpdatesDoWork(local: seq<DnsRecord>, zone: seq<DnsRecord>, us: seq<(DnsRecord, DnsRecord)>)
    requires DistinctKeys(local) && DistinctNew(us)
    requires forall u :: u in us ==> Improves(local, zone, u)
    ensures var z := Updates(Exact, zone, us);
      BadCount(local, z) + |us| == BadCount(local, zone) && Keys(z) == Keys(zone)
    decreases us
  {
    if us != [] {
      var u := us[0];
      var z := ReplaceFirst(zone, u.0, u.1);
      assert u in us;
      LookupUnique(local, u.1);
      BadCountReplace(local, zone, u.0, u.1);
      ReplaceKeepsKeys(zone, u.0, u.1);
      forall v | v in us[1..]
        ensures Improves(local, z, v)
      {
        var i :| 0 <= i < |us[1..]| && us[1..][i] == v;
        assert KeyOf(us[0].1) != KeyOf(us[i+1].1) && v in us;
      }
      UpdatesDoWork(local, z, us[1..]);
    }
  }

  /** Every action of a round removes exactly one unit of work, duplicates under one key included. */
  lemma RoundDoesWork(local: seq<DnsRecord>, zone: seq<DnsRecord>, d: DnsDiff)
    requires DistinctKeys(local) && IsDiff(local, IndexOf(zone), d)
    ensures var z := Apply(Exact, zone, d);
      z.Some? && Work(local, z.value) + Actions(d) == Work(local, zone)
  {
    IndexLooksUpLast(zone);
    IndexMembers(zone);
    DeletesDoWork(local, zone, d.toDelete);
    var z1 := Deletes(Exact, zone, d.toDelete).value;
    forall r | r in local
      ensures KeyOf(r) in Keys(z1) <==> KeyOf(r) in Keys(zone)
    {
      assert KeyOf(r) in Keys(local);
    }
    assert Missing(local, z1) == Missing(local, zone);
    CreatesDoWork(local, z1, d.toCreate);
    var z2 := Creates(Exact, z1, d.toCreate);
    forall u | u in d.toUpdate
      ensures Improves(local, z2, u)
    {
      assert KeyOf(u.0) in Keys(local);
      assert u.0 in z1;
    }
    UpdatesDoWork(local, z2, d.toUpdate);
    var z3 := Updates(Exact, z2, d.toUpdate);
    assert Missing(local, z3) == Missing(local, z2);
  }

  lemma {:induction false} IndexMembers(zone: seq<DnsRecord>)
    ensures forall r :: r in IndexOf(zone) ==> r in zone
  {
    if zone != [] {
      var n := |zone| - 1;
      IndexMembers(zone[..n]);
      PutMembers(IndexOf(zone[..n]), zone[n]);
    }
  }

  lemma {:induction false} PutMembers(rs: seq<DnsRecord>, r: DnsRecord)
    ensures forall x :: x in Put(rs, r) ==> x in rs || x == r
  {
    if rs != [] {
      PutMembers(rs[1..], r);
    }
  }

  /** A sync that had something to do, and did it. */
  ghost predicate Round(local: seq<DnsRecord>, zone: seq<DnsRecord>, d: DnsDiff, zone': seq<DnsRecord>) {
    IsDiff(local, IndexOf(zone), d) && !d.IsEmpty() && Apply(Exact, zone, d) == Some(zone')
  }

  ghost predicate Rounds(local: seq<DnsRecord>, zones: seq<seq<DnsRecord>>, ds: seq<DnsDiff>) {
    |zones| == |ds| + 1 && forall i :: 0 <= i < |ds| ==> Round(local, zones[i], ds[i], zones[i+1])
  }

  lemma RoundMakesProgress(local: seq<DnsRecord>, zone: seq<DnsRecord>, d: DnsDiff, zone': seq<DnsRecord>)
    requires DistinctKeys(local) && Round(local, zone, d, zone')
    ensures Work(local, zone') < Work(local, zone)
  {
    RoundDoesWork(local, zone, d);
  }

  /** Repeating sync until it reports no changes terminates: no run has more rounds than there was work. */
  lemma RoundsRunOut(local: seq<DnsRecord>, zones: seq<seq<DnsRecord>>, ds: seq<DnsDiff>)
    requires DistinctKeys(local) && Rounds(local, zones, ds)
    ensures |ds| + Work(local, zones[|ds|]) <= Work(local, zones[0])
  {
    for i := 0 to |ds|
      invariant i + Work(local, zones[i]) <= Work(local, zones[0])
    {
      RoundMakesProgress(local, zones[i], ds[i], zones[i+1]);
    }
  }

  /** Where it stops: no foreign key, no missing key, and the last listed record of each key is right. */
  lemma QuietIff(local: seq<DnsRecord>, zone: seq<DnsRecord>, d: DnsDiff)
    requires DistinctKeys(local) && IsDiff(local, IndexOf(zone), d)
    ensures d.IsEmpty() <==>
      && Keys(zone) == Keys(local)
      && forall r :: r in local && LastListed(zone, KeyOf(r)).Some? ==> !Differs(r, LastListed(zone, KeyOf(r)).value)
  {
    IndexLooksUpLast(zone);
    var index := IndexOf(zone);
    DiffEmptyIff(local, index, d);
    forall q | q in index
      ensures LastListed(zone, KeyOf(q)) == Some(q)
    {
      LookupUnique(index, q);
    }
    forall r | r in local && LastListed(zone, KeyOf(r)).Some?
      ensures LastListed(zone, KeyOf(r)).value in index && KeyOf(LastListed(zone, KeyOf(r)).value) == KeyOf(r)
    {
      assert Lookup(index, KeyOf(r)) == LastListed(zone, KeyOf(r));
    }
  }

  /** Only the last one: a stale duplicate listed earlier survives a sync that reports no changes. */
  lemma StaleDuplicateSurvives(r: DnsRecord, value: string, d: DnsDiff)
    requires r.rtype != "TXT" && value != r.value
    requires IsDiff([r], IndexOf([r.(value := value), r]), d)
    ensures d.IsEmpty() && Work([r], [r.(value := value), r]) == 1
  {
    var stale := r.(value := value);
    var zone := [stale, r];
    QuietIff([r], zone, d);
    assert LastListed(zone, KeyOf(r)) == Some(r);
    assert Keys(zone) == {KeyOf(r)} == Keys([r]);
    assert zone[1..] == [r];
    assert BadCount([r], [r]) == 0;
    assert BadCount([r], zone) == 1;
    assert Missing([r], zone) == {};
  }
}
