/** Pushing a record set to a provider: list, index, diff, then delete, create and update. */
module DnsSync {
  import opened Prelude
  import opened DnsRecords
  import opened DnsRecordSets

  /** How a provider finds the record a call is about.
      - Exact: the record itself, as the transport protocol says.
      - ByName: the first record with the type and name (Cloudflare, Hetzner, Porkbun, DigitalOcean).
      - RrsetStrict: writes replace everything at the type and name; a delete must describe it exactly (Route53).
      - RrsetAny: writes replace, and deletes drop, everything at the type and name (GoDaddy). */
  datatype Discipline = Exact | ByName | RrsetStrict | RrsetAny

  /** A record as the provider lists it back. Purpose, priority and proxying do not survive the trip. */
  function Stored(disc: Discipline, r: DnsRecord): DnsRecord {
    if disc.Exact? then r else DnsRecord(r.rtype, Canonical(r.name), r.value, r.ttl, None, "", false)
  }

  function RemoveFirst(zone: seq<DnsRecord>, r: DnsRecord): seq<DnsRecord> {
    if zone == [] then [] else if zone[0] == r then zone[1..] else [zone[0]] + RemoveFirst(zone[1..], r)
  }

  function ReplaceFirst(zone: seq<DnsRecord>, stale: DnsRecord, fresher: DnsRecord): seq<DnsRecord> {
    if zone == [] then [] else
    if zone[0] == stale then [fresher] + zone[1..] else [zone[0]] + ReplaceFirst(zone[1..], stale, fresher)
  }

  function Listed(zone: seq<DnsRecord>, r: DnsRecord): Option<DnsRecord> {
    FirstOwned(zone, r.rtype, Canonical(r.name))
  }

  function Upserted(disc: Discipline, zone: seq<DnsRecord>, r: DnsRecord): seq<DnsRecord> {
    NotOwned(zone, r.rtype, Canonical(r.name)) + [Stored(disc, r)]
  }

  function CreateIn(disc: Discipline, zone: seq<DnsRecord>, r: DnsRecord): seq<DnsRecord> {
    match disc
    case Exact => zone + [Stored(disc, r)]
    case ByName => zone + [Stored(disc, r)]
    case _ => Upserted(disc, zone, r)
  }

  function UpdateIn(disc: Discipline, zone: seq<DnsRecord>, stale: DnsRecord, fresher: DnsRecord): seq<DnsRecord> {
    match disc
    case Exact => ReplaceFirst(zone, stale, fresher)
    case ByName =>
      (match Listed(zone, fresher)
       case None => CreateIn(disc, zone, fresher)
       case Some(q) => ReplaceFirst(zone, q, Stored(disc, fresher)))
    case _ => Upserted(disc, zone, fresher)
  }

  /** None: the provider refuses the call and the sync is abandoned. */
  function DeleteIn(disc: Discipline, zone: seq<DnsRecord>, r: DnsRecord): Option<seq<DnsRecord>> {
    match disc
    case Exact => Some(RemoveFirst(zone, r))
    case ByName =>
      (match Listed(zone, r)
       case None => Some(zone)
       case Some(q) => Some(RemoveFirst(zone, q)))
    case RrsetStrict =>
      var left := NotOwned(zone, r.rtype, Canonical(r.name));
      var q := Listed(zone, r);
      if |left| + 1 == |zone| && q.Some? && q.value.value == r.value && q.value.ttl == r.ttl then Some(left) else None
    case RrsetAny => Some(NotOwned(zone, r.rtype, Canonical(r.name)))
  }

  /** A provider's zone, seen through one of the transports. */
  class Transport {
    const discipline: Discipline
    var zone: seq<DnsRecord>

    constructor (discipline: Discipline, zone: seq<DnsRecord>)
      ensures this.discipline == discipline && this.zone == zone
    {
      this.discipline, this.zone := discipline, zone;
    }

    method Create(r: DnsRecord)
      modifies this
      ensures zone == CreateIn(discipline, old(zone), r)
      ensures Written(discipline, old(zone), r, zone)
    {
      CreateMeans(discipline, zone, r);
      if discipline.RrsetStrict? || discipline.RrsetAny? {
        zone := NotOwned(zone, r.rtype, Canonical(r.name));
      }
      zone := zone + [Stored(discipline, r)];
    }

    method Update(stale: DnsRecord, fresher: DnsRecord)
      modifies this
      ensures zone == UpdateIn(discipline, old(zone), stale, fresher)
    {
      match discipline
      case Exact => zone := ReplaceFirst(zone, stale, fresher);
      case ByName =>
        var existing := FirstOwned(zone, fresher.rtype, Canonical(fresher.name));
        if existing.None? {
          Create(fresher);
        } else {
          zone := ReplaceFirst(zone, existing.value, Stored(discipline, fresher));
        }
      case _ => Create(fresher);
    }

    /** False: the provider refuses, and the zone stays. */
    method Delete(r: DnsRecord) returns (ok: bool)
      modifies this
      ensures var z := DeleteIn(discipline, old(zone), r);
        ok == z.Some? && zone == if ok then z.value else old(zone)
      ensures !ok ==> discipline.RrsetStrict?
      ensures ok ==> Removed(discipline, old(zone), r, zone)
    {
      DeleteMeans(discipline, zone, r);
      var t, n := r.rtype, Canonical(r.name);
      ok := true;
      match discipline {
        case Exact =>
          zone := RemoveFirst(zone, r);
        case ByName =>
          var existing := FirstOwned(zone, t, n);
          if existing.Some? {
            zone := RemoveFirst(zone, existing.value);
          }
        case RrsetStrict =>
          var existing, left := FirstOwned(zone, t, n), NotOwned(zone, t, n);
          ok := |left| + 1 == |zone| && existing.Some? && existing.value.value == r.value && existing.value.ttl == r.ttl;
          if ok {
            zone := left;
          }
        case RrsetAny =>
          zone := NotOwned(zone, t, n);
      }
    }
  }

  /** A record as given, or as a provider lists it back. */
  predicate ListedAs(disc: Discipline, r: DnsRecord, q: DnsRecord) {
    if disc.Exact? then q == r
    else q.rtype == r.rtype && q.name == Canonical(r.name) && q.value == r.value && q.ttl == r.ttl
         && q.priority == None && q.purpose == "" && !q.proxied
  }

  /** What a create leaves: one more record, last; at an rrset provider it is then the only one of its type and name. */
  ghost predicate Written(disc: Discipline, before: seq<DnsRecord>, r: DnsRecord, after: seq<DnsRecord>) {
    var t, n := r.rtype, Canonical(r.name);
    && after != [] && ListedAs(disc, r, after[|after|-1])
    && (if disc.Exact? || disc.ByName? then after[..|after|-1] == before
        else forall q :: q in after[..|after|-1] <==> q in before && !(q.rtype == t && q.name == n))
  }

  lemma CreateMeans(disc: Discipline, zone: seq<DnsRecord>, r: DnsRecord)
    ensures Written(disc, zone, r, CreateIn(disc, zone, r))
  {
    var after := CreateIn(disc, zone, r);
    if disc.Exact? || disc.ByName? {
      assert after[..|after|-1] == zone;
    } else {
      assert after[..|after|-1] == NotOwned(zone, r.rtype, Canonical(r.name));
    }
  }

  /** What a delete takes: with exact addressing one copy of the record; otherwise nothing at any other type
      and name, and there one record or all of them. */
  ghost predicate Removed(disc: Discipline, before: seq<DnsRecord>, r: DnsRecord, after: seq<DnsRecord>) {
    var t, n := r.rtype, Canonical(r.name);
    match disc
    case Exact => multiset(after) == if r in before then multiset(before) - multiset{r} else multiset(before)
    case ByName =>
      NotOwned(after, t, n) == NotOwned(before, t, n)
      && |after| == |before| - if Listed(before, r).Some? then 1 else 0
    case _ => NotOwned(after, t, n) == NotOwned(before, t, n) && Listed(after, r).None?
  }

  lemma DeleteMeans(disc: Discipline, zone: seq<DnsRecord>, r: DnsRecord)
    ensures var z := DeleteIn(disc, zone, r);
      (z.None? ==> disc.RrsetStrict?) && (z.Some? ==> Removed(disc, zone, r, z.value))
  {
    var t, n := r.rtype, Canonical(r.name);
    match disc
    case Exact => RemoveFirstCounts(zone, r);
    case ByName =>
      if Listed(zone, r).Some? {
        RemoveFirstCounts(zone, Listed(zone, r).value);
        RemoveFirstElsewhere(zone, Listed(zone, r).value, t, n);
      }
    case _ => NotOwnedTwice(zone, t, n);
  }

  lemma {:induction false} RemoveFirstCounts(zone: seq<DnsRecord>, r: DnsRecord)
    ensures r in zone ==> |RemoveFirst(zone, r)| == |zone| - 1
    ensures multiset(RemoveFirst(zone, r)) == if r in zone then multiset(zone) - multiset{r} else multiset(zone)
  {
    if zone != [] {
      assert zone == [zone[0]] + zone[1..];
      if zone[0] != r {
        RemoveFirstCounts(zone[1..], r);
      }
    }
  }

  lemma {:induction false} RemoveFirstElsewhere(zone: seq<DnsRecord>, q: DnsRecord, t: string, n: string)
    requires Owned(q, t, n)
    ensures NotOwned(RemoveFirst(zone, q), t, n) == NotOwned(zone, t, n)
  {
    if zone != [] && zone[0] != q {
      RemoveFirstElsewhere(zone[1..], q, t, n);
      assert ([zone[0]] + RemoveFirst(zone[1..], q))[1..] == RemoveFirst(zone[1..], q);
    }
  }

  lemma {:induction false} NotOwnedTwice(zone: seq<DnsRecord>, t: string, n: string)
    ensures NotOwned(NotOwned(zone, t, n), t, n) == NotOwned(zone, t, n)
  {
    if zone != [] {
      NotOwnedTwice(zone[1..], t, n);
      var rest := NotOwned(zone[1..], t, n);
      assert ([zone[0]] + rest)[1..] == rest;
      assert [] + rest == rest;
    }
  }

  // ---- Sync ----

  /** The record set built by adding the listed records one by one: the last of each key wins. */
  function IndexOf(zone: seq<DnsRecord>): seq<DnsRecord> {
    if zone == [] then [] else Put(IndexOf(zone[..|zone|-1]), zone[|zone|-1])
  }

  function Deletes(disc: Discipline, zone: seq<DnsRecord>, ds: seq<DnsRecord>): Option<seq<DnsRecord>>
    decreases ds
  {
    if ds == [] then Some(zone) else
    match DeleteIn(disc, zone, ds[0])
    case None => None
    case Some(z) => Deletes(disc, z, ds[1..])
  }

  lemma {:induction false} DeletesOneMore(disc: Discipline, zone: seq<DnsRecord>, ds: seq<DnsRecord>, i: nat)
    requires i < |ds| && Deletes(disc, zone, ds[..i]).Some?
    ensures Deletes(disc, zone, ds[..i+1]) == DeleteIn(disc, Deletes(disc, zone, ds[..i]).value, ds[i])
    decreases i
  {
    if i == 0 {
      assert ds[..1][1..] == [];
    } else {
      assert ds[..i][1..] == ds[1..][..i-1] && ds[..i+1][1..] == ds[1..][..i];
      DeletesOneMore(disc, DeleteIn(disc, zone, ds[0]).value, ds[1..], i - 1);
    }
  }

  /** The deletes in front of a refused one were carried out, and nothing else. */
  ghost predicate RefusedAt(disc: Discipline, zone: seq<DnsRecord>, ds: seq<DnsRecord>, left: seq<DnsRecord>) {
    exists k :: 0 <= k < |ds| && Deletes(disc, zone, ds[..k]) == Some(left) && DeleteIn(disc, left, ds[k]).None?
  }

  function Creates(disc: Discipline, zone: seq<DnsRecord>, cs: seq<DnsRecord>): seq<DnsRecord>
    decreases cs
  {
    if cs == [] then zone else Creates(disc, CreateIn(disc, zone, cs[0]), cs[1..])
  }

  function Updates(disc: Discipline, zone: seq<DnsRecord>, us: seq<(DnsRecord, DnsRecord)>): seq<DnsRecord>
    decreases us
  {
    if us == [] then zone else Updates(disc, UpdateIn(disc, zone, us[0].0, us[0].1), us[1..])
  }

  function Apply(disc: Discipline, zone: seq<DnsRecord>, d: DnsDiff): Option<seq<DnsRecord>> {
    match Deletes(disc, zone, d.toDelete)
    case None => None
    case Some(z) => Some(Updates(disc, Creates(disc, z, d.toCreate), d.toUpdate))
  }

  datatype Action =
    | Deleted(rtype: string, name: string)
    | Created(rtype: string, name: string, value: string)
    | Updated(rtype: string, name: string, value: string)
    | NoChanges

  function Report(d: DnsDiff): (r: seq<Action>)
    ensures |r| == |d.toDelete| + |d.toCreate| + |d.toUpdate| && NoChanges !in r
    ensures forall i :: 0 <= i < |d.toDelete| ==> r[i] == Deleted(d.toDelete[i].rtype, d.toDelete[i].name)
    ensures var n := |d.toDelete|;
      forall i :: n <= i < n + |d.toCreate| ==>
        r[i] == Created(d.toCreate[i-n].rtype, d.toCreate[i-n].name, d.toCreate[i-n].value)
    ensures var n := |d.toDelete| + |d.toCreate|;
      forall i :: n <= i < |r| ==> r[i] == Updated(d.toUpdate[i-n].1.rtype, d.toUpdate[i-n].1.name, d.toUpdate[i-n].1.value)
  {
    Map((r: DnsRecord) => Deleted(r.rtype, r.name), d.toDelete)
    + Map((r: DnsRecord) => Created(r.rtype, r.name, r.value), d.toCreate)
    + Map((u: (DnsRecord, DnsRecord)) => Updated(u.1.rtype, u.1.name, u.1.value), d.toUpdate)
  }

  function ActionsOf(d: DnsDiff): seq<Action> { if Report(d) == [] then [NoChanges] else Report(d) }

  /** The report names what was deleted, created and updated, and says so when there was nothing. */
  lemma ReportMeans(d: DnsDiff)
    ensures NoChanges in ActionsOf(d) <==> d.toDelete == [] && d.toCreate == [] && d.toUpdate == []
    ensures forall t, n :: Deleted(t, n) in ActionsOf(d) <==> exists r :: r in d.toDelete && r.rtype == t && r.name == n
    ensures forall t, n, v :: Created(t, n, v) in ActionsOf(d) <==>
      exists r :: r in d.toCreate && r.rtype == t && r.name == n && r.value == v
    ensures forall t, n, v :: Updated(t, n, v) in ActionsOf(d) <==>
      exists u :: u in d.toUpdate && u.1.rtype == t && u.1.name == n && u.1.value == v
  {
    var report := Report(d);
    forall i | 0 <= i < |d.toDelete|
      ensures Deleted(d.toDelete[i].rtype, d.toDelete[i].name) in report
    {
      assert report[i] in report;
    }
    forall i | 0 <= i < |d.toCreate|
      ensures Created(d.toCreate[i].rtype, d.toCreate[i].name, d.toCreate[i].value) in report
    {
      assert report[|d.toDelete| + i] in report;
    }
    forall i | 0 <= i < |d.toUpdate|
      ensures Updated(d.toUpdate[i].1.rtype, d.toUpdate[i].1.name, d.toUpdate[i].1.value) in report
    {
      assert report[|d.toDelete| + |d.toCreate| + i] in report;
    }
  }

  method IndexZone(zone: seq<DnsRecord>, domain: string) returns (remote: DnsRecordSet)
    ensures fresh(remote) && remote.Valid() && remote.records == IndexOf(zone)
  {
    remote := new DnsRecordSet(domain);
    for i := 0 to |zone|
      invariant remote.Valid() && remote.records == IndexOf(zone[..i])
    {
      remote.Add(zone[i]);
      assert zone[..i+1][..i] == zone[..i];
    }
    assert zone[..|zone|] == zone;
  }

  method SyncRecords(local: DnsRecordSet, transport: Transport, domain: string, digest: string -> string, dryRun: bool)
    returns (ok: bool, actions: seq<Action>, ghost d: DnsDiff)
    requires local.Valid()
    modifies transport
    ensures local.records == old(local.records)
    ensures IsDiff(local.records, IndexOf(old(transport.zone)), d)
    ensures dryRun ==> ok && transport.zone == old(transport.zone)
    ensures !dryRun ==> ok == Apply(transport.discipline, old(transport.zone), d).Some?
    ensures !dryRun && ok ==> transport.zone == Apply(transport.discipline, old(transport.zone), d).value
    ensures !ok ==> RefusedAt(transport.discipline, old(transport.zone), d.toDelete, transport.zone)
    ensures ok ==> actions == ActionsOf(d)
  {
    var remote := IndexZone(transport.zone, domain);
    var diff := local.Diff(remote, digest);
    d := diff;
    ok, actions := true, [];
    if !dryRun {
      ok := ApplyDiff(transport, diff);
      if !ok { return; }
    }
    actions := Map((r: DnsRecord) => Deleted(r.rtype, r.name), diff.toDelete)
      + Map((r: DnsRecord) => Created(r.rtype, r.name, r.value), diff.toCreate)
      + Map((u: (DnsRecord, DnsRecord)) => Updated(u.1.rtype, u.1.name, u.1.value), diff.toUpdate);
    if actions == [] {
      actions := [NoChanges];
    }
  }

  /** Deletes first, then creates, then updates. */
  method ApplyDiff(transport: Transport, d: DnsDiff) returns (ok: bool)
    modifies transport
    ensures ok == Apply(transport.discipline, old(transport.zone), d).Some?
    ensures ok ==> transport.zone == Apply(transport.discipline, old(transport.zone), d).value
    ensures !ok ==> RefusedAt(transport.discipline, old(transport.zone), d.toDelete, transport.zone)
  {
    ghost var disc, before := transport.discipline, transport.zone;
    for i := 0 to |d.toDelete|
      invariant Deletes(disc, before, d.toDelete) == Deletes(disc, transport.zone, d.toDelete[i..])
      invariant Deletes(disc, before, d.toDelete[..i]) == Some(transport.zone)
    {
      DeletesOneMore(disc, before, d.toDelete, i);
      var done := transport.Delete(d.toDelete[i]);
      if !done {
        assert Deletes(disc, before, d.toDelete[..i]) == Some(transport.zone);
        return false;
      }
    }
    ghost var afterDeletes := transport.zone;
    for i := 0 to |d.toCreate|
      invariant Creates(disc, afterDeletes, d.toCreate) == Creates(disc, transport.zone, d.toCreate[i..])
    {
      transport.Create(d.toCreate[i]);
    }
    ghost var afterCreates := transport.zone;
    for i := 0 to |d.toUpdate|
      invariant Updates(disc, afterCreates, d.toUpdate) == Updates(disc, transport.zone, d.toUpdate[i..])
    {
      transport.Update(d.toUpdate[i].0, d.toUpdate[i].1);
    }
    ok := true;
  }

  method VerifyRecords(local: DnsRecordSet, transport: Transport, domain: string) returns (issues: seq<Issue>)
    requires local.Valid()
    ensures issues == VerifyIssues(local.records, IndexOf(transport.zone))
  {
    var remote := IndexZone(transport.zone, domain);
    issues := local.Verify(remote);
  }

  // ---- Indexing ----

  /** The last listed record with a key. */
  function LastListed(zone: seq<DnsRecord>, k: Key): Option<DnsRecord> {
    if zone == [] then None
    else if KeyOf(zone[|zone|-1]) == k then Some(zone[|zone|-1])
    else LastListed(zone[..|zone|-1], k)
  }

  lemma {:induction false} IndexLooksUpLast(zone: seq<DnsRecord>)
    ensures DistinctKeys(IndexOf(zone)) && Keys(IndexOf(zone)) == Keys(zone)
    ensures forall k :: Lookup(IndexOf(zone), k) == LastListed(zone, k)
  {
    if zone != [] {
      var n := |zone| - 1;
      IndexLooksUpLast(zone[..n]);
      PutLookup(IndexOf(zone[..n]), zone[n]);
      assert zone == zone[..n] + [zone[n]];
    }
  }

  lemma {:induction false} IndexOfDistinct(zone: seq<DnsRecord>)
    requires DistinctKeys(zone)
    ensures IndexOf(zone) == zone
  {
    if zone != [] {
      var n := |zone| - 1;
      IndexOfDistinct(zone[..n]);
      assert zone == zone[..n] + [zone[n]];
      PutAppends(zone[..n], zone[n]);
    }
  }

  lemma UniqueOwnersDistinctKeys(rs: seq<DnsRecord>)
    requires OwnersUnique(rs)
    ensures DistinctKeys(rs)
  {
    forall i, j | 0 <= i < j < |rs|
      ensures KeyOf(rs[i]) != KeyOf(rs[j])
    {
      assert !SameOwner(rs[i], rs[j]);
    }
  }

  // ---- One record per owner: every discipline acts alike ----

  predicate Named(rs: seq<DnsRecord>) { forall r :: r in rs ==> Canonical(r.name) == r.name }

  predicate Unproxied(rs: seq<DnsRecord>) { forall r :: r in rs ==> !r.proxied }

  lemma {:induction false} OwnerIsFound(rs: seq<DnsRecord>, r: DnsRecord)
    requires OwnersUnique(rs) && r in rs
    ensures FirstOwned(rs, r.rtype, r.name) == Some(r)
  {
    if rs[0] != r {
      var j :| 0 <= j < |rs| && rs[j] == r;
      assert !SameOwner(rs[0], rs[j]);
      OwnerIsFound(rs[1..], r);
    }
  }

  lemma {:induction false} NotOwnedUnique(rs: seq<DnsRecord>, t: string, n: string)
    requires OwnersUnique(rs)
    ensures OwnersUnique(NotOwned(rs, t, n))
    ensures forall t', n' :: FirstOwned(NotOwned(rs, t, n), t', n')
                             == if t' == t && n' == n then None else FirstOwned(rs, t', n')
  {
    if rs != [] {
      NotOwnedUnique(rs[1..], t, n);
      var rest := NotOwned(rs[1..], t, n);
      if Owned(rs[0], t, n) {
        assert [] + rest == rest;
        assert FirstOwned(rest, t, n) == None;
      } else {
        assert ([rs[0]] + rest)[1..] == rest;
        forall j | 0 <= j < |rest|
          ensures !SameOwner(rs[0], rest[j])
        {
          assert rest[j] in rs[1..];
          var i :| 0 <= i < |rs[1..]| && rs[1..][i] == rest[j];
          assert !SameOwner(rs[0], rs[i+1]);
        }
      }
    }
  }

  lemma {:induction false} RemoveFirstUnique(zone: seq<DnsRecord>, r: DnsRecord)
    requires OwnersUnique(zone) && r in zone
    ensures RemoveFirst(zone, r) == NotOwned(zone, r.rtype, r.name)
    ensures |NotOwned(zone, r.rtype, r.name)| + 1 == |zone|
  {
    if zone[0] == r {
      forall x | x in zone[1..]
        ensures !Owned(x, r.rtype, r.name)
      {
        var i :| 0 <= i < |zone[1..]| && zone[1..][i] == x;
        assert !SameOwner(zone[0], zone[i+1]);
      }
      NothingOwned(zone[1..], r.rtype, r.name);
    } else {
      var j :| 0 <= j < |zone| && zone[j] == r;
      assert !SameOwner(zone[0], zone[j]);
      RemoveFirstUnique(zone[1..], r);
    }
  }

  lemma DeleteUnique(disc: Discipline, zone: seq<DnsRecord>, r: DnsRecord)
    requires OwnersUnique(zone) && r in zone && Canonical(r.name) == r.name
    ensures DeleteIn(disc, zone, r) == Some(NotOwned(zone, r.rtype, r.name))
  {
    OwnerIsFound(zone, r);
    RemoveFirstUnique(zone, r);
  }

  lemma {:induction false} FirstOwnedAppend(zone: seq<DnsRecord>, r: DnsRecord, t: string, n: string)
    ensures FirstOwned(zone + [r], t, n)
         == if FirstOwned(zone, t, n).Some? then FirstOwned(zone, t, n) else if Owned(r, t, n) then Some(r) else None
  {
    if zone == [] {
      assert zone + [r] == [r];
    } else {
      assert (zone + [r])[1..] == zone[1..] + [r];
      FirstOwnedAppend(zone[1..], r, t, n);
    }
  }

  /** Putting a record where its owner has none. */
  lemma AppendUnique(zone: seq<DnsRecord>, r: DnsRecord)
    requires OwnersUnique(zone) && FirstOwned(zone, r.rtype, r.name).None?
    ensures OwnersUnique(zone + [r])
    ensures forall t, n :: FirstOwned(zone + [r], t, n) == if Owned(r, t, n) then Some(r) else FirstOwned(zone, t, n)
  {
    forall t, n
      ensures FirstOwned(zone + [r], t, n) == if Owned(r, t, n) then Some(r) else FirstOwned(zone, t, n)
    {
      FirstOwnedAppend(zone, r, t, n);
    }
    forall i, j | 0 <= i < j < |zone + [r]|
      ensures !SameOwner((zone + [r])[i], (zone + [r])[j])
    {
      assert zone[i] in zone;
    }
  }

  lemma CreateUnique(disc: Discipline, zone: seq<DnsRecord>, r: DnsRecord)
    requires FirstOwned(zone, r.rtype, r.name).None? && Canonical(r.name) == r.name
    ensures CreateIn(disc, zone, r) == zone + [Stored(disc, r)]
  {
    NothingOwned(zone, r.rtype, r.name);
  }

  lemma {:induction false} ReplaceFirstOwners(zone: seq<DnsRecord>, stale: DnsRecord, fresher: DnsRecord)
    requires SameOwner(stale, fresher)
    ensures |ReplaceFirst(zone, stale, fresher)| == |zone|
    ensures forall i :: 0 <= i < |zone| ==> SameOwner(zone[i], ReplaceFirst(zone, stale, fresher)[i])
  {
    if zone != [] && zone[0] != stale {
      ReplaceFirstOwners(zone[1..], stale, fresher);
    }
  }

  lemma {:induction false} ReplaceFirstAt(zone: seq<DnsRecord>, stale: DnsRecord, fresher: DnsRecord, t: string, n: string)
    requires OwnersUnique(zone) && stale in zone && SameOwner(stale, fresher)
    ensures FirstOwned(ReplaceFirst(zone, stale, fresher), t, n)
         == if Owned(fresher, t, n) then Some(fresher) else FirstOwned(zone, t, n)
  {
    if zone[0] != stale {
      var j :| 0 <= j < |zone| && zone[j] == stale;
      assert !SameOwner(zone[0], zone[j]);
      ReplaceFirstAt(zone[1..], stale, fresher, t, n);
    }
  }

  lemma ReplaceFirstUnique(zone: seq<DnsRecord>, stale: DnsRecord, fresher: DnsRecord)
    requires OwnersUnique(zone) && stale in zone && SameOwner(stale, fresher)
    ensures OwnersUnique(ReplaceFirst(zone, stale, fresher))
    ensures forall t, n :: FirstOwned(ReplaceFirst(zone, stale, fresher), t, n)
                           == if Owned(fresher, t, n) then Some(fresher) else FirstOwned(zone, t, n)
  {
    var z := ReplaceFirst(zone, stale, fresher);
    ReplaceFirstOwners(zone, stale, fresher);
    forall i, k | 0 <= i < k < |z|
      ensures !SameOwner(z[i], z[k])
    {
      assert !SameOwner(zone[i], zone[k]);
      assert SameOwner(zone[i], z[i]) && SameOwner(zone[k], z[k]);
    }
    forall t, n {
      ReplaceFirstAt(zone, stale, fresher, t, n);
    }
  }

  lemma UpdateUnique(disc: Discipline, zone: seq<DnsRecord>, stale: DnsRecord, fresher: DnsRecord)
    requires OwnersUnique(zone) && stale in zone && SameOwner(stale, fresher) && Canonical(fresher.name) == fresher.name
    ensures var z := UpdateIn(disc, zone, stale, fresher);
      && OwnersUnique(z)
      && forall t, n :: FirstOwned(z, t, n) == if Owned(fresher, t, n) then Some(Stored(disc, fresher)) else FirstOwned(zone, t, n)
  {
    OwnerIsFound(zone, stale);
    match disc
    case Exact => ReplaceFirstUnique(zone, stale, fresher);
    case ByName => ReplaceFirstUnique(zone, stale, Stored(disc, fresher));
    case _ =>
      NotOwnedUnique(zone, fresher.rtype, fresher.name);
      AppendUnique(NotOwned(zone, fresher.rtype, fresher.name), Stored(disc, fresher));
  }

  // ---- Whole phases ----

  lemma {:induction false} DeletesUnique(disc: Discipline, zone: seq<DnsRecord>, ds: seq<DnsRecord>)
    requires OwnersUnique(zone) && Named(zone) && DistinctKeys(ds) && forall r :: r in ds ==> r in zone
    ensures var z := Deletes(disc, zone, ds);
      && z.Some? && OwnersUnique(z.value)
      && forall t, n :: FirstOwned(z.value, t, n) == if FirstOwned(ds, t, n).Some? then None else FirstOwned(zone, t, n)
    decreases ds
  {
    if ds != [] {
      var r := ds[0];
      var left := NotOwned(zone, r.rtype, r.name);
      assert r in ds;
      DeleteUnique(disc, zone, r);
      NotOwnedUnique(zone, r.rtype, r.name);
      forall q | q in ds[1..]
        ensures q in left
      {
        var i :| 0 <= i < |ds[1..]| && ds[1..][i] == q;
        assert ds[i+1] == q && KeyOf(ds[0]) != KeyOf(ds[i+1]) && q in ds;
        OwnerIsFound(zone, r);
        OwnerIsFound(zone, q);
      }
      DeletesUnique(disc, left, ds[1..]);
    }
  }

  lemma HeadOwnerOnce(rs: seq<DnsRecord>)
    requires rs != [] && OwnersUnique(rs)
    ensures OwnersUnique(rs[1..])
    ensures FirstOwned(rs[1..], rs[0].rtype, rs[0].name).None?
    ensures forall q :: q in rs[1..] ==> !Owned(q, rs[0].rtype, rs[0].name)
  {
    forall q | q in rs[1..]
      ensures !Owned(q, rs[0].rtype, rs[0].name)
    {
      var i :| 0 <= i < |rs[1..]| && rs[1..][i] == q;
      assert !SameOwner(rs[0], rs[i+1]);
    }
  }

  /** What an owner holds after `changes` were written over `before`. */
  function Overlaid(disc: Discipline, changes: seq<DnsRecord>, before: seq<DnsRecord>, t: string, n: string): Option<DnsRecord> {
    match FirstOwned(changes, t, n)
    case Some(r) => Some(Stored(disc, r))
    case None => FirstOwned(before, t, n)
  }

  lemma {:induction false} CreatesUnique(disc: Discipline, zone: seq<DnsRecord>, cs: seq<DnsRecord>)
    requires OwnersUnique(zone) && OwnersUnique(cs) && Named(cs)
    requires forall r :: r in cs ==> FirstOwned(zone, r.rtype, r.name).None?
    ensures OwnersUnique(Creates(disc, zone, cs))
    ensures forall t, n :: FirstOwned(Creates(disc, zone, cs), t, n) == Overlaid(disc, cs, zone, t, n)
    decreases cs
  {
    if cs != [] {
      var r := cs[0];
      assert r in cs;
      HeadOwnerOnce(cs);
      CreateUnique(disc, zone, r);
      AppendUnique(zone, Stored(disc, r));
      CreatesUnique(disc, zone + [Stored(disc, r)], cs[1..]);
    }
  }

  function News(us: seq<(DnsRecord, DnsRecord)>): (r: seq<DnsRecord>)
    ensures |r| == |us| && forall i :: 0 <= i < |us| ==> r[i] == us[i].1
  {
    if us == [] then [] else [us[0].1] + News(us[1..])
  }

  lemma RestStillThere(disc: Discipline, zone: seq<DnsRecord>, us: seq<(DnsRecord, DnsRecord)>, z: seq<DnsRecord>)
    requires us != [] && OwnersUnique(zone) && OwnersUnique(News(us))
    requires forall u :: u in us ==> SameOwner(u.0, u.1) && u.0 in zone
    requires forall t, n | !Owned(us[0].1, t, n) :: FirstOwned(z, t, n) == FirstOwned(zone, t, n)
    ensures News(us)[1..] == News(us[1..])
    ensures forall u :: u in us[1..] ==> SameOwner(u.0, u.1) && u.0 in z
  {
    HeadOwnerOnce(News(us));
    forall u | u in us[1..]
      ensures SameOwner(u.0, u.1) && u.0 in z
    {
      var i :| 0 <= i < |us[1..]| && us[1..][i] == u;
      assert News(us)[1..][i] == u.1 && u in us;
      OwnerIsFound(zone, u.0);
      assert FirstOwned(z, u.0.rtype, u.0.name) == Some(u.0);
    }
  }

  lemma {:induction false} UpdatesUnique(disc: Discipline, zone: seq<DnsRecord>, us: seq<(DnsRecord, DnsRecord)>)
    requires OwnersUnique(zone) && OwnersUnique(News(us)) && Named(News(us))
    requires forall u :: u in us ==> SameOwner(u.0, u.1) && u.0 in zone
    ensures OwnersUnique(Updates(disc, zone, us))
    ensures forall t, n :: FirstOwned(Updates(disc, zone, us), t, n) == Overlaid(disc, News(us), zone, t, n)
    decreases us
  {
    if us != [] {
      var u := us[0];
      var z := UpdateIn(disc, zone, u.0, u.1);
      assert u in us && u.1 == News(us)[0] && u.1 in News(us);
      UpdateUnique(disc, zone, u.0, u.1);
      RestStillThere(disc, zone, us, z);
      HeadOwnerOnce(News(us));
      UpdatesUnique(disc, z, us[1..]);
    }
  }

  // ---- Convergence ----

  datatype Core = Core(rtype: string, name: string, value: string, ttl: int)

  function CoreOf(r: DnsRecord): Core { Core(r.rtype, r.name, r.value, r.ttl) }

  function Cores(rs: seq<DnsRecord>): set<Core> { set r | r in rs :: CoreOf(r) }

  /** What the zone holds for each owner is what the record set says, or nothing. */
  ghost predicate Matches(local: seq<DnsRecord>, zone: seq<DnsRecord>) {
    forall t, n ::
      match FirstOwned(local, t, n)
      case None => FirstOwned(zone, t, n).None?
      case Some(r) => FirstOwned(zone, t, n).Some? && !Differs(r, FirstOwned(zone, t, n).value)
  }

  lemma MatchOf(local: seq<DnsRecord>, zone: seq<DnsRecord>, r: DnsRecord) returns (q: DnsRecord)
    requires OwnersUnique(local) && OwnersUnique(zone) && Matches(local, zone) && r in local
    ensures q in zone && CoreOf(q) == CoreOf(r) && KeyOf(q) == KeyOf(r) && !Differs(r, q)
    ensures forall x :: x in zone && KeyOf(x) == KeyOf(r) ==> x == q
  {
    OwnerIsFound(local, r);
    q := FirstOwned(zone, r.rtype, r.name).value;
    forall x | x in zone && KeyOf(x) == KeyOf(r)
      ensures x == q
    {
      OwnerIsFound(zone, x);
    }
  }

  lemma MatchedBy(local: seq<DnsRecord>, zone: seq<DnsRecord>, q: DnsRecord) returns (r: DnsRecord)
    requires OwnersUnique(local) && OwnersUnique(zone) && Matches(local, zone) && q in zone
    ensures r in local && CoreOf(q) == CoreOf(r) && KeyOf(q) == KeyOf(r)
  {
    OwnerIsFound(zone, q);
    r := FirstOwned(local, q.rtype, q.name).value;
  }

  lemma MatchesAgrees(local: seq<DnsRecord>, zone: seq<DnsRecord>)
    requires OwnersUnique(local) && OwnersUnique(zone) && Matches(local, zone)
    ensures Cores(zone) == Cores(local) && Keys(zone) == Keys(local)
    ensures forall r, q :: r in local && q in zone && KeyOf(r) == KeyOf(q) ==> !Differs(r, q)
  {
    forall r | r in local
      ensures CoreOf(r) in Cores(zone) && KeyOf(r) in Keys(zone)
      ensures forall q :: q in zone && KeyOf(r) == KeyOf(q) ==> !Differs(r, q)
    {
      var q := MatchOf(local, zone, r);
    }
    forall q | q in zone
      ensures CoreOf(q) in Cores(local) && KeyOf(q) in Keys(local)
    {
      var r := MatchedBy(local, zone, q);
    }
  }

  lemma SubsetUnique(rs: seq<DnsRecord>, all: seq<DnsRecord>)
    requires DistinctKeys(rs) && OwnersUnique(all) && forall r :: r in rs ==> r in all
    ensures OwnersUnique(rs)
  {
    forall i, j | 0 <= i < j < |rs|
      ensures !SameOwner(rs[i], rs[j])
    {
      assert KeyOf(rs[i]) != KeyOf(rs[j]);
      assert rs[i] in rs && rs[j] in rs;
      OwnerIsFound(all, rs[i]);
      OwnerIsFound(all, rs[j]);
    }
  }

  function DeletedAt(local: seq<DnsRecord>, zone: seq<DnsRecord>, t: string, n: string): Option<DnsRecord> {
    match FirstOwned(zone, t, n)
    case Some(q) => if KeyOf(q) in Keys(local) then None else Some(q)
    case None => None
  }

  function UpdatedAt(local: seq<DnsRecord>, zone: seq<DnsRecord>, t: string, n: string): Option<DnsRecord> {
    match (FirstOwned(local, t, n), FirstOwned(zone, t, n))
    case (Some(r), Some(q)) => if KeyOf(r) == KeyOf(q) && Differs(r, q) then Some(r) else None
    case _ => None
  }

  /** The diff of two sets with unique owners, owner by owner. */
  lemma DiffByOwner(local: seq<DnsRecord>, zone: seq<DnsRecord>, d: DnsDiff)
    requires OwnersUnique(local) && OwnersUnique(zone) && IsDiff(local, zone, d)
    ensures OwnersUnique(d.toCreate) && OwnersUnique(News(d.toUpdate))
    ensures forall t, n :: FirstOwned(d.toDelete, t, n) == DeletedAt(local, zone, t, n)
    ensures forall t, n :: FirstOwned(d.toCreate, t, n) == DeletedAt(zone, local, t, n)
    ensures forall t, n :: FirstOwned(News(d.toUpdate), t, n) == UpdatedAt(local, zone, t, n)
  {
    SubsetUnique(d.toCreate, local);
    SubsetUnique(d.toDelete, zone);
    UpdateNews(local, zone, d);
    SubsetUnique(News(d.toUpdate), local);
    forall t, n
      ensures FirstOwned(d.toDelete, t, n) == DeletedAt(local, zone, t, n)
      ensures FirstOwned(d.toCreate, t, n) == DeletedAt(zone, local, t, n)
    {
      FilteredOwner(d.toDelete, zone, t, n);
      FilteredOwner(d.toCreate, local, t, n);
    }
    forall t, n
      ensures FirstOwned(News(d.toUpdate), t, n) == UpdatedAt(local, zone, t, n)
    {
      FilteredOwner(News(d.toUpdate), local, t, n);
      if FirstOwned(local, t, n).Some? {
        var r := FirstOwned(local, t, n).value;
        forall q | q in zone && KeyOf(q) == KeyOf(r)
          ensures FirstOwned(zone, t, n) == Some(q)
        {
          OwnerIsFound(zone, q);
        }
      }
    }
  }

  lemma FilteredOwner(some: seq<DnsRecord>, all: seq<DnsRecord>, t: string, n: string)
    requires OwnersUnique(all) && forall r :: r in some ==> r in all
    ensures FirstOwned(some, t, n)
      == (match FirstOwned(all, t, n)
          case Some(r) => if r in some then Some(r) else None
          case None => None)
  {
    if FirstOwned(some, t, n).Some? {
      OwnerIsFound(all, FirstOwned(some, t, n).value);
    }
  }

  lemma UpdateNews(local: seq<DnsRecord>, remote: seq<DnsRecord>, d: DnsDiff)
    requires IsDiff(local, remote, d)
    ensures DistinctKeys(News(d.toUpdate))
    ensures forall r :: r in News(d.toUpdate) <==>
      r in local && exists q :: q in remote && KeyOf(q) == KeyOf(r) && Differs(r, q)
  {
    var news := News(d.toUpdate);
    forall r | r in news
      ensures r in local && exists q :: q in remote && KeyOf(q) == KeyOf(r) && Differs(r, q)
    {
      var i :| 0 <= i < |news| && news[i] == r;
      assert d.toUpdate[i] in d.toUpdate;
    }
    forall r, q | r in local && q in remote && KeyOf(q) == KeyOf(r) && Differs(r, q)
      ensures r in news
    {
      assert (q, r) in d.toUpdate;
      var i :| 0 <= i < |d.toUpdate| && d.toUpdate[i] == (q, r);
      assert news[i] == r;
    }
  }

  /** Once the deletes are done nothing stands where a record is to be created:
      a TXT record that only changed its value is deleted under its old key first. */
  lemma DeletesMakeRoom(local: seq<DnsRecord>, zone: seq<DnsRecord>, d: DnsDiff, r: DnsRecord)
    requires OwnersUnique(local) && OwnersUnique(zone) && IsDiff(local, zone, d) && r in d.toCreate
    ensures FirstOwned(d.toDelete, r.rtype, r.name).Some? || FirstOwned(zone, r.rtype, r.name).None?
  {
    DiffByOwner(local, zone, d);
    OwnerIsFound(local, r);
    if FirstOwned(zone, r.rtype, r.name).Some? {
      var q := FirstOwned(zone, r.rtype, r.name).value;
      forall x | x in local && KeyOf(x) == KeyOf(q)
        ensures x == r
      {
        OwnerIsFound(local, x);
      }
      assert KeyOf(q) !in Keys(local);
    }
  }

  lemma UpdatedStillThere(local: seq<DnsRecord>, zone: seq<DnsRecord>, d: DnsDiff, u: (DnsRecord, DnsRecord))
    requires OwnersUnique(local) && OwnersUnique(zone) && IsDiff(local, zone, d) && u in d.toUpdate
    ensures SameOwner(u.0, u.1) && FirstOwned(zone, u.0.rtype, u.0.name) == Some(u.0)
    ensures FirstOwned(d.toDelete, u.0.rtype, u.0.name).None?
    ensures FirstOwned(d.toCreate, u.0.rtype, u.0.name).None?
  {
    DiffByOwner(local, zone, d);
    OwnerIsFound(zone, u.0);
    OwnerIsFound(local, u.1);
  }

  lemma NewsNamed(local: seq<DnsRecord>, zone: seq<DnsRecord>, d: DnsDiff)
    requires Named(local) && IsDiff(local, zone, d)
    ensures Named(News(d.toUpdate)) && Named(d.toCreate)
  {
    UpdateNews(local, zone, d);
  }

  lemma AfterDeletes(disc: Discipline, local: seq<DnsRecord>, zone: seq<DnsRecord>, d: DnsDiff)
    returns (z: seq<DnsRecord>)
    requires OwnersUnique(local) && OwnersUnique(zone) && Named(zone) && IsDiff(local, zone, d)
    ensures Deletes(disc, zone, d.toDelete) == Some(z) && OwnersUnique(z)
    ensures forall t, n :: FirstOwned(z, t, n)
                           == if FirstOwned(d.toDelete, t, n).Some? then None else FirstOwned(zone, t, n)
    ensures forall r :: r in d.toCreate ==> FirstOwned(z, r.rtype, r.name).None?
  {
    DeletesUnique(disc, zone, d.toDelete);
    z := Deletes(disc, zone, d.toDelete).value;
    forall r | r in d.toCreate
      ensures FirstOwned(z, r.rtype, r.name).None?
    {
      DeletesMakeRoom(local, zone, d, r);
    }
  }

  lemma AfterCreates(disc: Discipline, local: seq<DnsRecord>, zone: seq<DnsRecord>, d: DnsDiff, z: seq<DnsRecord>)
    returns (z': seq<DnsRecord>)
    requires OwnersUnique(local) && Named(local) && OwnersUnique(zone) && IsDiff(local, zone, d) && OwnersUnique(z)
    requires forall t, n :: FirstOwned(z, t, n)
                            == if FirstOwned(d.toDelete, t, n).Some? then None else FirstOwned(zone, t, n)
    requires forall r :: r in d.toCreate ==> FirstOwned(z, r.rtype, r.name).None?
    ensures z' == Creates(disc, z, d.toCreate) && OwnersUnique(z')
    ensures forall t, n :: FirstOwned(z', t, n) == Overlaid(disc, d.toCreate, z, t, n)
    ensures forall u :: u in d.toUpdate ==> SameOwner(u.0, u.1) && u.0 in z'
  {
    z' := Creates(disc, z, d.toCreate);
    assert OwnersUnique(d.toCreate) by { DiffByOwner(local, zone, d); }
    NewsNamed(local, zone, d);
    CreatesUnique(disc, z, d.toCreate);
    forall u | u in d.toUpdate
      ensures SameOwner(u.0, u.1) && u.0 in z'
    {
      UpdatedStillThere(local, zone, d, u);
      assert FirstOwned(z', u.0.rtype, u.0.name) == Some(u.0);
    }
  }

  lemma AfterUpdates(disc: Discipline, local: seq<DnsRecord>, zone: seq<DnsRecord>, d: DnsDiff) returns (z: seq<DnsRecord>)
    requires OwnersUnique(local) && Named(local) && Unproxied(local)
    requires OwnersUnique(zone) && Named(zone) && IsDiff(local, zone, d)
    ensures Apply(disc, zone, d) == Some(z) && OwnersUnique(z)
    ensures forall t, n :: FirstOwned(z, t, n) == Outcome(disc, zone, d, t, n)
  {
    var z1 := AfterDeletes(disc, local, zone, d);
    var z2 := AfterCreates(disc, local, zone, d, z1);
    assert OwnersUnique(News(d.toUpdate)) by { DiffByOwner(local, zone, d); }
    NewsNamed(local, zone, d);
    UpdatesUnique(disc, z2, d.toUpdate);
    z := Updates(disc, z2, d.toUpdate);
    PhasesCompose(disc, zone, d, z1, z2, z);
  }

  lemma PhasesCompose(disc: Discipline, zone: seq<DnsRecord>, d: DnsDiff,
                      z1: seq<DnsRecord>, z2: seq<DnsRecord>, z3: seq<DnsRecord>)
    requires forall t, n :: FirstOwned(z1, t, n)
                            == if FirstOwned(d.toDelete, t, n).Some? then None else FirstOwned(zone, t, n)
    requires forall t, n :: FirstOwned(z2, t, n) == Overlaid(disc, d.toCreate, z1, t, n)
    requires forall t, n :: FirstOwned(z3, t, n) == Overlaid(disc, News(d.toUpdate), z2, t, n)
    ensures forall t, n :: FirstOwned(z3, t, n) == Outcome(disc, zone, d, t, n)
  {
    forall t, n
      ensures FirstOwned(z3, t, n) == Outcome(disc, zone, d, t, n)
    {
      assert FirstOwned(z3, t, n) == Overlaid(disc, News(d.toUpdate), z2, t, n);
      assert FirstOwned(z2, t, n) == Overlaid(disc, d.toCreate, z1, t, n);
    }
  }

  /** After the three phases the zone matches the record set, whichever way the provider addresses records. */
  lemma ApplyMatches(disc: Discipline, local: seq<DnsRecord>, zone: seq<DnsRecord>, d: DnsDiff)
    requires OwnersUnique(local) && Named(local) && Unproxied(local)
    requires OwnersUnique(zone) && Named(zone) && IsDiff(local, zone, d)
    ensures var z := Apply(disc, zone, d);
      z.Some? && OwnersUnique(z.value) && Matches(local, z.value)
  {
    var z := AfterUpdates(disc, local, zone, d);
    MatchesAfter(disc, local, zone, d, z);
  }

  /** Where each phase left an owner, latest phase first. */
  function Outcome(disc: Discipline, zone: seq<DnsRecord>, d: DnsDiff, t: string, n: string): Option<DnsRecord> {
    if FirstOwned(News(d.toUpdate), t, n).Some? then Some(Stored(disc, FirstOwned(News(d.toUpdate), t, n).value))
    else if FirstOwned(d.toCreate, t, n).Some? then Some(Stored(disc, FirstOwned(d.toCreate, t, n).value))
    else if FirstOwned(d.toDelete, t, n).Some? then None
    else FirstOwned(zone, t, n)
  }

  lemma MatchesAfter(disc: Discipline, local: seq<DnsRecord>, zone: seq<DnsRecord>, d: DnsDiff, z: seq<DnsRecord>)
    requires OwnersUnique(local) && Unproxied(local) && OwnersUnique(zone) && IsDiff(local, zone, d)
    requires forall t, n :: FirstOwned(z, t, n) == Outcome(disc, zone, d, t, n)
    ensures Matches(local, z)
  {
    DiffByOwner(local, zone, d);
    forall t, n
      ensures match FirstOwned(local, t, n)
        case None => FirstOwned(z, t, n).None?
        case Some(r) => FirstOwned(z, t, n).Some? && !Differs(r, FirstOwned(z, t, n).value)
    {
      match FirstOwned(local, t, n)
      case None =>
        if FirstOwned(zone, t, n).Some? {
          var q := FirstOwned(zone, t, n).value;
          forall x | x in local
            ensures KeyOf(x) != KeyOf(q)
          {
            assert !Owned(x, t, n);
          }
        }
      case Some(r) =>
        if KeyOf(r) in Keys(zone) {
          var q :| q in zone && KeyOf(q) == KeyOf(r);
          OwnerIsFound(zone, q);
        }
    }
  }

  predicate Proxied(q: DnsRecord) { q.proxied && (q.rtype == "A" || q.rtype == "AAAA" || q.rtype == "CNAME") }

  lemma NoneProxied(local: seq<DnsRecord>, zone: seq<DnsRecord>)
    requires OwnersUnique(local) && OwnersUnique(zone) && Unproxied(local) && Matches(local, zone)
    ensures forall q :: q in zone ==> !Proxied(q)
  {
    forall q | q in zone
      ensures !Proxied(q)
    {
      OwnerIsFound(zone, q);
      var r := MatchedBy(local, zone, q);
    }
  }

  /** Sync converges under every discipline when neither side has two records of one type and name:
      the zone then agrees on type, name, value and ttl, has no proxied address or alias, and the next sync finds
      nothing to do. */
  lemma SyncConverges(disc: Discipline, local: seq<DnsRecord>, zone: seq<DnsRecord>, d: DnsDiff)
    requires OwnersUnique(local) && Named(local) && Unproxied(local)
    requires OwnersUnique(zone) && Named(zone) && IsDiff(local, IndexOf(zone), d)
    ensures var z := Apply(disc, zone, d);
      && z.Some? && OwnersUnique(z.value) && Cores(z.value) == Cores(local)
      && (forall q :: q in z.value ==> !Proxied(q))
      && forall d' :: IsDiff(local, IndexOf(z.value), d') ==> d'.IsEmpty() && Apply(disc, z.value, d') == z
  {
    UniqueOwnersDistinctKeys(zone);
    IndexOfDistinct(zone);
    ApplyMatches(disc, local, zone, d);
    var z := Apply(disc, zone, d).value;
    MatchesAgrees(local, z);
    NoneProxied(local, z);
    UniqueOwnersDistinctKeys(z);
    IndexOfDistinct(z);
    forall d' | IsDiff(local, z, d')
      ensures d'.IsEmpty() && Apply(disc, z, d') == Some(z)
    {
      DiffEmptyIff(local, z, d');
    }
  }

  // ---- The order of the phases matters ----

  function ApplyCreatesFirst(disc: Discipline, zone: seq<DnsRecord>, d: DnsDiff): Option<seq<DnsRecord>> {
    match Deletes(disc, Creates(disc, zone, d.toCreate), d.toDelete)
    case None => None
    case Some(z) => Some(Updates(disc, z, d.toUpdate))
  }

  predicate Vacant(zone: seq<DnsRecord>, t: string, n: string) { FirstOwned(zone, t, n).None? }

  lemma {:induction false} DropsKeepVacant(zone: seq<DnsRecord>, ds: seq<DnsRecord>, t: string, n: string)
    ensures var z := Deletes(RrsetAny, zone, ds); z.Some? && (Vacant(zone, t, n) ==> Vacant(z.value, t, n))
    decreases ds
  {
    if ds != [] {
      DropsKeepVacant(NotOwned(zone, ds[0].rtype, Canonical(ds[0].name)), ds[1..], t, n);
    }
  }

  lemma {:induction false} DropsVacate(zone: seq<DnsRecord>, ds: seq<DnsRecord>, q: DnsRecord)
    requires q in ds
    ensures var z := Deletes(RrsetAny, zone, ds); z.Some? && Vacant(z.value, q.rtype, Canonical(q.name))
    decreases ds
  {
    var left := NotOwned(zone, ds[0].rtype, Canonical(ds[0].name));
    if q == ds[0] {
      DropsKeepVacant(left, ds[1..], q.rtype, Canonical(q.name));
    } else {
      DropsVacate(left, ds[1..], q);
    }
  }

  lemma {:induction false} UpdatesKeepVacant(zone: seq<DnsRecord>, us: seq<(DnsRecord, DnsRecord)>, t: string, n: string)
    requires Vacant(zone, t, n) && forall u :: u in us ==> !(u.1.rtype == t && Canonical(u.1.name) == n)
    ensures Vacant(Updates(RrsetAny, zone, us), t, n)
    decreases us
  {
    if us != [] {
      assert us[0] in us && forall u :: u in us[1..] ==> u in us;
      UpdatesKeepVacant(Upserted(RrsetAny, zone, us[0].1), us[1..], t, n);
    }
  }

  /** With creates before deletes, changing any TXT value at a GoDaddy-like provider loses the record. */
  lemma CreatesFirstLosesRecord(local: seq<DnsRecord>, zone: seq<DnsRecord>, d: DnsDiff, r: DnsRecord, q: DnsRecord)
    requires OwnersUnique(local) && Named(local) && OwnersUnique(zone) && IsDiff(local, zone, d)
    requires r in local && q in zone && SameOwner(r, q) && r.rtype == "TXT" && r.value != q.value
    ensures var z := ApplyCreatesFirst(RrsetAny, zone, d); z.Some? && Vacant(z.value, "TXT", r.name)
  {
    OwnerIsFound(local, r);
    OwnerIsFound(zone, q);
    forall x | x in local && KeyOf(x) == KeyOf(q)
      ensures x == r
    {
      OwnerIsFound(local, x);
    }
    assert q in d.toDelete;
    DropsVacate(Creates(RrsetAny, zone, d.toCreate), d.toDelete, q);
    forall u | u in d.toUpdate
      ensures !(u.1.rtype == "TXT" && Canonical(u.1.name) == r.name)
    {
      OwnerIsFound(local, u.1);
      OwnerIsFound(zone, u.0);
    }
    UpdatesKeepVacant(Deletes(RrsetAny, Creates(RrsetAny, zone, d.toCreate), d.toDelete).value, d.toUpdate, "TXT", r.name);
  }
}
