/** The JSON form of records and record sets. */
module DnsJson {
  import opened Prelude
  import opened Text
  import opened Sorting
  import opened DnsRecords

  datatype RecordData = RecordData(
    rtype: Option<string>, name: Option<string>, value: Option<string>,
    ttl: Option<int>, priority: Option<int>, proxied: Option<bool>)

  datatype ValidationError = UnsupportedType | NameRequired | ValueRequired | NegativeTtl

  datatype Result<+T> = Success(value: T) | Failure(error: ValidationError)

  const SUPPORTED := ["A", "AAAA", "CNAME", "MX", "TXT", "NS", "SRV", "CAA", "TLSA"]

  function ToDict(r: DnsRecord): RecordData {
    RecordData(Some(r.rtype), Some(r.name), Some(r.value), Some(r.ttl), r.priority,
               if r.proxied then Some(true) else None)
  }

  function FromDict(d: RecordData): Result<DnsRecord> {
    var rtype := Upper(if d.rtype.Some? then d.rtype.value else "");
    if rtype !in SUPPORTED then Failure(UnsupportedType)
    else if d.name.None? || d.name.value == "" then Failure(NameRequired)
    else if d.value.None? || d.value.value == "" then Failure(ValueRequired)
    else
      var ttl := if d.ttl.Some? then d.ttl.value else 300;
      if ttl < 0 then Failure(NegativeTtl)
      else Success(DnsRecord(
        rtype, Canonical(d.name.value), d.value.value, ttl,
        if d.priority.Some? && d.priority.value != 0 then d.priority else None,
        "", d.proxied == Some(true)))
  }

  function WithoutPurpose(r: DnsRecord): DnsRecord { r.(purpose := "") }

  predicate Storable(r: DnsRecord) {
    r.rtype in SUPPORTED && Canonical(r.name) == r.name && r.value != "" && r.ttl >= 0 && r.priority != Some(0)
  }

  lemma SupportedIsUpper(t: string)
    requires t in SUPPORTED
    ensures Upper(t) == t
  {
  }

  /** A record survives the JSON form, up to its purpose, exactly when it is storable. */
  lemma RecordRoundTripIff(r: DnsRecord)
    ensures FromDict(ToDict(r)) == Success(WithoutPurpose(r)) <==> Storable(r)
  {
    if r.rtype in SUPPORTED {
      SupportedIsUpper(r.rtype);
    }
  }

  /** What `from_dict` accepts is in normal form. */
  lemma AcceptedIsNormal(d: RecordData)
    requires FromDict(d).Success?
    ensures Normal(FromDict(d).value) && Storable(FromDict(d).value)
  {
    SupportedIsUpper(FromDict(d).value.rtype);
    CanonicalIdempotent(d.name.value);
  }

  /** One of the supported types, in either case. */
  predicate TypeNamed(given: string, rtype: string) {
    SameButCase(given, rtype)
    && (rtype == "A" || rtype == "AAAA" || rtype == "CNAME" || rtype == "MX" || rtype == "TXT" || rtype == "NS"
        || rtype == "SRV" || rtype == "CAA" || rtype == "TLSA")
  }

  lemma TypeNamedIff(given: string, rtype: string)
    ensures TypeNamed(given, rtype) <==> Upper(given) == rtype && rtype in SUPPORTED
  {
    CaseForgotten(given, rtype);
    if TypeNamed(given, rtype) || rtype in SUPPORTED {
      assert rtype in SUPPORTED;
      SupportedIsUpper(rtype);
    }
  }

  /** What a dictionary has to hold, and what becomes of it: a known type in either case, a name and a value, and a ttl
      that is not negative, 300 when there is none; a zero priority counts as none. */
  lemma AcceptedIff(d: RecordData, r: DnsRecord)
    ensures FromDict(d) == Success(r) <==>
      && d.rtype.Some? && TypeNamed(d.rtype.value, r.rtype)
      && d.name.Some? && d.name.value != "" && r.name == Canonical(d.name.value)
      && d.value.Some? && d.value.value != "" && r.value == d.value.value
      && r.ttl >= 0 && (if d.ttl.Some? then r.ttl == d.ttl.value else r.ttl == 300)
      && (if d.priority.Some? && d.priority.value != 0 then r.priority == d.priority else r.priority == None)
      && r.purpose == "" && (r.proxied <==> d.proxied == Some(true))
  {
    var given := if d.rtype.Some? then d.rtype.value else "";
    TypeNamedIff(given, r.rtype);
  }

  /** The first thing wrong is what is reported. */
  lemma RefusedFor(d: RecordData)
    ensures var known := d.rtype.Some? && exists t :: TypeNamed(d.rtype.value, t);
      var named := d.name.Some? && d.name.value != "";
      var valued := d.value.Some? && d.value.value != "";
      && (FromDict(d) == Failure(UnsupportedType) <==> !known)
      && (FromDict(d) == Failure(NameRequired) <==> known && !named)
      && (FromDict(d) == Failure(ValueRequired) <==> known && named && !valued)
      && (FromDict(d) == Failure(NegativeTtl) <==> known && named && valued && d.ttl.Some? && d.ttl.value < 0)
  {
    var given := if d.rtype.Some? then d.rtype.value else "";
    TypeNamedIff(given, Upper(given));
    forall t {:trigger TypeNamed(given, t)} | TypeNamed(given, t)
      ensures Upper(given) in SUPPORTED
    {
      TypeNamedIff(given, t);
    }
  }

  function ToDicts(rs: seq<DnsRecord>): seq<RecordData> { Map(ToDict, All(rs)) }

  /** Records are added one by one; the first bad one stops the load. */
  function FromDicts(ds: seq<RecordData>): Result<seq<DnsRecord>> {
    if ds == [] then Success([]) else
    var n := |ds| - 1;
    match FromDicts(ds[..n])
    case Failure(e) => Failure(e)
    case Success(rs) =>
      match FromDict(ds[n])
      case Failure(e) => Failure(e)
      case Success(r) => Success(Put(rs, r))
  }

  /** Adding one more distinct record to a loaded list appends it. */
  lemma LoadOneMore(rs: seq<DnsRecord>, last: DnsRecord)
    requires DistinctKeys(rs + [last]) && Storable(last)
    ensures FromDict(ToDict(last)) == Success(WithoutPurpose(last))
    ensures Put(Map(WithoutPurpose, rs), WithoutPurpose(last)) == Map(WithoutPurpose, rs) + [WithoutPurpose(last)]
  {
    RecordRoundTripIff(last);
    var done := Map(WithoutPurpose, rs);
    forall q | q in done
      ensures KeyOf(q) != KeyOf(last)
    {
      var i :| 0 <= i < |done| && done[i] == q;
      assert KeyOf(q) == KeyOf((rs + [last])[i]) && (rs + [last])[|rs|] == last;
    }
    PutAppends(done, WithoutPurpose(last));
  }

  lemma {:induction false} FromDictsOf(rs: seq<DnsRecord>)
    requires DistinctKeys(rs) && forall r :: r in rs ==> Storable(r)
    ensures FromDicts(Map(ToDict, rs)) == Success(Map(WithoutPurpose, rs))
  {
    if rs != [] {
      var n := |rs| - 1;
      var init, last := rs[..n], rs[n];
      assert rs == init + [last];
      FromDictsOf(init);
      LoadOneMore(init, last);
      assert Map(ToDict, rs)[..n] == Map(ToDict, init);
      assert Map(WithoutPurpose, rs) == Map(WithoutPurpose, init) + [WithoutPurpose(last)];
    } else {
      assert Map(ToDict, rs) == [] && Map(WithoutPurpose, rs) == [];
    }
  }

  lemma StrippedDistinct(all: seq<DnsRecord>)
    requires DistinctKeys(all)
    ensures DistinctKeys(Map(WithoutPurpose, all))
    ensures forall i :: 0 <= i < |all| ==> KeyOf(Map(WithoutPurpose, all)[i]) == KeyOf(all[i])
  {
  }

  /** Stripping the purposes of the same records in another order changes no lookup but for them. */
  lemma StrippedLookup(rs: seq<DnsRecord>, all: seq<DnsRecord>, k: Key)
    requires DistinctKeys(all) && DistinctKeys(rs) && forall r :: r in rs <==> r in all
    ensures Lookup(Map(WithoutPurpose, all), k)
      == if Lookup(rs, k).Some? then Some(WithoutPurpose(Lookup(rs, k).value)) else None
  {
    var back := Map(WithoutPurpose, all);
    StrippedDistinct(all);
    if Lookup(back, k).Some? {
      var i :| 0 <= i < |back| && back[i] == Lookup(back, k).value;
      assert all[i] in rs && KeyOf(all[i]) == k;
    }
    if k in Keys(rs) {
      var i :| 0 <= i < |all| && all[i] == Lookup(rs, k).value;
      LookupUnique(back, back[i]);
    }
  }

  /** Saving and loading a set of storable records gives back the same key-to-record map. */
  lemma SetRoundTrip(rs: seq<DnsRecord>)
    requires DistinctKeys(rs) && forall r :: r in rs ==> Storable(r)
    ensures var back := FromDicts(ToDicts(rs));
      && back.Success? && DistinctKeys(back.value) && |back.value| == |rs|
      && forall k :: Lookup(back.value, k) ==
           if Lookup(rs, k).Some? then Some(WithoutPurpose(Lookup(rs, k).value)) else None
  {
    var all := All(rs);
    AllIsSorted(rs);
    assert |all| == |multiset(all)| == |multiset(rs)| == |rs|;
    DistinctKeysOfMultiset(rs, all);
    FromDictsOf(all);
    forall r
      ensures r in rs <==> r in all
    {
      assert r in multiset(rs) <==> r in multiset(all);
    }
    forall k
      ensures Lookup(Map(WithoutPurpose, all), k)
        == if Lookup(rs, k).Some? then Some(WithoutPurpose(Lookup(rs, k).value)) else None
    {
      StrippedLookup(rs, all, k);
    }
    StrippedDistinct(all);
  }

  // ---- What the content hash is taken of ----

  lemma DictsCons(x: DnsRecord, rs: seq<DnsRecord>)
    ensures Map(ToDict, [x] + rs) == [ToDict(x)] + Map(ToDict, rs)
  {
  }

  lemma DictsSplit(a: seq<DnsRecord>, b: seq<DnsRecord>)
    requires Map(ToDict, a) == Map(ToDict, b) && a != []
    ensures b != [] && ToDict(a[0]) == ToDict(b[0]) && Map(ToDict, a[1..]) == Map(ToDict, b[1..])
  {
    assert |a| == |Map(ToDict, a)| == |Map(ToDict, b)| == |b|;
    assert a == [a[0]] + a[1..] && b == [b[0]] + b[1..];
    DictsCons(a[0], a[1..]);
    DictsCons(b[0], b[1..]);
    assert Map(ToDict, a)[1..] == Map(ToDict, a[1..]) && Map(ToDict, b)[1..] == Map(ToDict, b[1..]);
  }

  lemma {:induction false} FilteredDicts(a: seq<DnsRecord>, b: seq<DnsRecord>, p: DnsRecord -> bool)
    requires Map(ToDict, a) == Map(ToDict, b) && forall x, y :: ToDict(x) == ToDict(y) ==> p(x) == p(y)
    ensures Filter(p, a) != [] && Filter(p, b) != [] ==> ToDict(Filter(p, a)[0]) == ToDict(Filter(p, b)[0])
  {
    if a != [] {
      DictsSplit(a, b);
      if !p(a[0]) {
        FilteredDicts(a[1..], b[1..], p);
      }
    }
  }

  /** Two TXT records of one name are hashed in the order they went in. */
  lemma DictsLeak(x: DnsRecord, y: DnsRecord, rest: seq<DnsRecord>)
    requires SameOwner(x, y) && KeyOf(x) != KeyOf(y)
    ensures ToDicts([x, y] + rest) != ToDicts([y, x] + rest)
  {
    var p := (r: DnsRecord) => SameOwner(x, r);
    var xs, ys := [x, y] + rest, [y, x] + rest;
    OwnerOrder();
    SortStable(OwnerLe, p, xs);
    SortStable(OwnerLe, p, ys);
    assert Filter(p, xs)[0] == x && Filter(p, ys)[0] == y;
    if ToDicts(xs) == ToDicts(ys) {
      FilteredDicts(All(xs), All(ys), p);
    }
  }

  ghost predicate HashOrderFree(rs: seq<DnsRecord>) {
    forall qs :: multiset(qs) == multiset(rs) ==> ToDicts(qs) == ToDicts(rs)
  }

  lemma SwapSeen(rs: seq<DnsRecord>, i: nat, j: nat)
    requires i < j < |rs| && KeyOf(rs[i]) != KeyOf(rs[j]) && HashOrderFree(rs)
    ensures !SameOwner(rs[i], rs[j])
  {
    var rest := rs[..i] + rs[i+1..j] + rs[j+1..];
    PairFirst(rs, i, j);
    assert ToDicts([rs[i], rs[j]] + rest) == ToDicts(rs) == ToDicts([rs[j], rs[i]] + rest);
    if SameOwner(rs[i], rs[j]) {
      DictsLeak(rs[i], rs[j], rest);
    }
  }

  /** What `content_hash()` hashes ignores insertion order exactly when no two records have the same type and name. */
  lemma HashIgnoresOrderIff(rs: seq<DnsRecord>)
    requires DistinctKeys(rs)
    ensures HashOrderFree(rs) <==> OwnersUnique(rs)
  {
    if OwnersUnique(rs) {
      UniqueIsOrderFree(rs);
      forall qs | multiset(qs) == multiset(rs)
        ensures ToDicts(qs) == ToDicts(rs)
      {
        assert All(qs) == All(rs);
      }
    }
    if HashOrderFree(rs) {
      forall i, j | 0 <= i < j < |rs|
        ensures !SameOwner(rs[i], rs[j])
      {
        SwapSeen(rs, i, j);
      }
    }
  }
}
