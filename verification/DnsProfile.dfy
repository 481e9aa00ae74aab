/** The DNS records derived from a setup profile. */
module DnsProfile {
  import opened Prelude
  import opened DnsRecords
  import opened DnsRecordSets
  import opened DnsSync
  import opened DnsReconcile

  datatype Dkim = Dkim(selector: string, publicKey: string)

  datatype Profile = Profile(
    domain: string, ipv4: string, ipv6: string, dkim: Option<Dkim>, dmarcPolicy: string)

  const HOSTS := ["admin", "email", "autoconfig", "autodiscover", "imap", "smtp"]

  const SERVICES := [
    "_submission._tcp", "_submissions._tcp", "_imaps._tcp", "_sieve._tcp",
    "_autodiscover._tcp", "_autoconfig._tcp", "_carddav._tcp", "_caldav._tcp"]

  const PORTS := ["587", "465", "993", "4190", "443", "443", "443", "443"]

  const HOST_PURPOSES := [
    "Admin GUI", "Webmail", "Auto-config (Thunderbird)", "Auto-discover (Outlook)",
    "Explicit IMAP endpoint", "Explicit SMTP endpoint"]

  const SERVICE_PURPOSES := [
    "Mail submission STARTTLS", "Mail submission implicit TLS", "IMAPS service discovery",
    "ManageSieve service discovery", "Outlook autodiscovery", "Thunderbird autoconfig",
    "CardDAV contacts sync", "CalDAV calendar sync"]

  function Under(stem: string, domain: string): string { stem + "." + domain }

  /** What MX, SRV and CNAME records point at. */
  function ServerTarget(p: Profile): string { Under("mail", p.domain) + "." }

  function Plain(rtype: string, name: string, value: string, purpose: string): DnsRecord {
    DnsRecord(rtype, name, value, 300, None, purpose, false)
  }

  function Spf(p: Profile): string {
    "v=spf1" + (if p.ipv4 != "" then " ip4:" + p.ipv4 else "")
    + (if p.ipv6 != "" then " ip6:" + p.ipv6 else "") + " mx -all"
  }

  function Dmarc(p: Profile): string {
    "v=DMARC1; p=" + p.dmarcPolicy + "; rua=mailto:dmarc@" + p.domain + "; ruf=mailto:dmarc@" + p.domain + "; fo=1"
  }

  function Addresses(p: Profile): seq<DnsRecord> {
    (if p.ipv4 != "" then [Plain("A", Under("mail", p.domain), p.ipv4, "Mail server IPv4")] else [])
    + (if p.ipv6 != "" then [Plain("AAAA", Under("mail", p.domain), p.ipv6, "Mail server IPv6")] else [])
  }

  function Apex(p: Profile): seq<DnsRecord> {
    [Plain("MX", p.domain, "10 " + ServerTarget(p), "Inbound mail routing"),
     Plain("TXT", p.domain, Spf(p), "SPF sender policy")]
  }

  function DkimRecord(k: Dkim, domain: string): DnsRecord {
    Plain("TXT", k.selector + "._domainkey." + DropDots(domain) + ".",
          "v=DKIM1; k=rsa; p=" + k.publicKey, "DKIM signing key")
  }

  function DkimRecords(p: Profile): seq<DnsRecord> {
    if p.dkim.Some? then [DkimRecord(p.dkim.value, p.domain)] else []
  }

  function Policies(p: Profile): seq<DnsRecord> {
    [Plain("TXT", Under("_dmarc", p.domain), Dmarc(p), "DMARC (p=" + p.dmarcPolicy + ")"),
     Plain("TXT", Under("_smtp._tls", p.domain), "v=TLSRPTv1; rua=mailto:tls-rpt@" + p.domain, "SMTP TLS reporting")]
  }

  function Alias(p: Profile, i: nat): DnsRecord
    requires i < |HOSTS|
  {
    Plain("CNAME", Under(HOSTS[i], p.domain), ServerTarget(p), HOST_PURPOSES[i])
  }

  function Service(p: Profile, i: nat): DnsRecord
    requires i < |SERVICES|
  {
    Plain("SRV", Under(SERVICES[i], p.domain), "0 1 " + PORTS[i] + " " + ServerTarget(p), SERVICE_PURPOSES[i])
  }

  function Aliases(p: Profile): seq<DnsRecord> { seq(|HOSTS|, i requires 0 <= i < |HOSTS| => Alias(p, i)) }

  function Services(p: Profile): seq<DnsRecord> { seq(|SERVICES|, i requires 0 <= i < |SERVICES| => Service(p, i)) }

  function StsRecord(p: Profile): DnsRecord {
    Plain("TXT", Under("_mta-sts", p.domain), "v=STSv1; id=1", "MTA-STS policy advertisement")
  }

  function Plan(p: Profile): seq<DnsRecord> {
    Addresses(p) + Apex(p) + DkimRecords(p) + Policies(p) + Aliases(p) + Services(p) + [StsRecord(p)]
  }

  // ---- Names: a stem and what every name ends with ----

  /** The stem of an owner under the domain; None is the domain itself. */
  function CanonicalName(stem: Option<string>, domain: string): string {
    var base := DropDots(domain);
    match stem
    case None => base + "."
    case Some(l) => if base == "" then l + "." else l + "." + base + "."
  }

  lemma {:induction false} DropDotsUnder(a: string, s: string)
    requires a != "" && a[|a|-1] != '.'
    ensures DropDots(a + s) == a + DropDots(s)
  {
    if s == "" {
      assert a + s == a && a + "" == a;
    } else if s[|s|-1] == '.' {
      assert (a + s)[..|a + s|-1] == a + s[..|s|-1];
      DropDotsUnder(a, s[..|s|-1]);
    }
  }

  lemma {:induction false} DropDotsPrefixed(c: char, s: string)
    requires DropDots(s) != "" || c != '.'
    ensures DropDots([c] + s) == [c] + DropDots(s)
  {
    if s == "" {
      assert [c] + s == [c] && DropDots([c]) == [c];
    } else if s[|s|-1] == '.' {
      assert ([c] + s)[..|[c] + s|-1] == [c] + s[..|s|-1];
      DropDotsPrefixed(c, s[..|s|-1]);
    }
  }

  lemma {:induction false} DropDotsVanish(s: string)
    requires DropDots(s) == ""
    ensures DropDots("." + s) == ""
  {
    if s == "" {
      assert "." + s == ".";
      assert DropDots(".") == DropDots("");
    } else {
      assert s[|s|-1] == '.';
      assert ("." + s)[..|"." + s|-1] == "." + s[..|s|-1];
      DropDotsVanish(s[..|s|-1]);
    }
  }

  lemma CanonicalUnder(stem: string, domain: string)
    requires stem != "" && stem[|stem|-1] != '.'
    ensures Canonical(Under(stem, domain)) == CanonicalName(Some(stem), domain)
  {
    assert Under(stem, domain) == stem + ("." + domain);
    DropDotsUnder(stem, "." + domain);
    if DropDots(domain) == "" {
      DropDotsVanish(domain);
      assert stem + "" == stem;
    } else {
      DropDotsPrefixed('.', domain);
      assert stem + ("." + DropDots(domain)) == stem + "." + DropDots(domain);
    }
  }

  lemma CanonicalNamesDiffer(a: Option<string>, b: Option<string>, domain: string)
    requires a != Some("") && b != Some("")
    ensures CanonicalName(a, domain) == CanonicalName(b, domain) <==> a == b
  {
    var base := DropDots(domain);
    var tail := if base == "" then "." else "." + base + ".";
    if a.Some? {
      assert CanonicalName(a, domain) == a.value + tail;
      assert CanonicalName(a, domain)[..|a.value|] == a.value;
    }
    if b.Some? {
      assert CanonicalName(b, domain) == b.value + tail;
      assert CanonicalName(b, domain)[..|b.value|] == b.value;
    }
  }

  // ---- Slots: which type sits at which stem ----

  datatype Slot = Slot(rtype: string, stem: Option<string>)

  predicate Clash(a: Slot, b: Slot) {
    a.stem == b.stem && (a.rtype == b.rtype || a.rtype == "CNAME" || b.rtype == "CNAME")
  }

  predicate Fits(r: DnsRecord, s: Slot, domain: string) {
    r.rtype == s.rtype && Canonical(r.name) == CanonicalName(s.stem, domain) && s.stem != Some("")
  }

  ghost predicate AllFit(rs: seq<DnsRecord>, slots: seq<Slot>, domain: string) {
    |rs| == |slots| && forall i :: 0 <= i < |rs| ==> Fits(rs[i], slots[i], domain)
  }

  ghost predicate NoClash(slots: seq<Slot>) {
    forall i, j :: 0 <= i < j < |slots| ==> !Clash(slots[i], slots[j])
  }

  ghost predicate Apart(a: seq<Slot>, b: seq<Slot>) {
    forall x, y :: x in a && y in b ==> !Clash(x, y)
  }

  lemma NoClashAppend(a: seq<Slot>, b: seq<Slot>)
    requires NoClash(a) && NoClash(b) && Apart(a, b)
    ensures NoClash(a + b)
  {
    forall i, j | 0 <= i < j < |a + b|
      ensures !Clash((a + b)[i], (a + b)[j])
    {
      if i < |a| <= j {
        assert a[i] in a && b[j-|a|] in b;
      }
    }
  }

  lemma AllFitAppend(rs: seq<DnsRecord>, a: seq<Slot>, qs: seq<DnsRecord>, b: seq<Slot>, domain: string)
    requires AllFit(rs, a, domain) && AllFit(qs, b, domain)
    ensures AllFit(rs + qs, a + b, domain)
  {
  }

  function AddressSlots(p: Profile): seq<Slot> {
    (if p.ipv4 != "" then [Slot("A", Some("mail"))] else [])
    + (if p.ipv6 != "" then [Slot("AAAA", Some("mail"))] else [])
  }

  const APEX_SLOTS := [Slot("MX", None), Slot("TXT", None)]

  function DkimSlots(p: Profile): seq<Slot> {
    if p.dkim.Some? then [Slot("TXT", Some(p.dkim.value.selector + "._domainkey"))] else []
  }

  const POLICY_SLOTS := [Slot("TXT", Some("_dmarc")), Slot("TXT", Some("_smtp._tls"))]

  function AliasSlots(): seq<Slot> { seq(|HOSTS|, i requires 0 <= i < |HOSTS| => Slot("CNAME", Some(HOSTS[i]))) }

  function ServiceSlots(): seq<Slot> { seq(|SERVICES|, i requires 0 <= i < |SERVICES| => Slot("SRV", Some(SERVICES[i]))) }

  const STS_SLOTS := [Slot("TXT", Some("_mta-sts"))]

  function Slots(p: Profile): seq<Slot> {
    AddressSlots(p) + APEX_SLOTS + DkimSlots(p) + POLICY_SLOTS + AliasSlots() + ServiceSlots() + STS_SLOTS
  }

  lemma DkimName(k: Dkim, domain: string)
    ensures Canonical(DkimRecord(k, domain).name) == CanonicalName(Some(k.selector + "._domainkey"), domain)
  {
    var stem := k.selector + "._domainkey";
    DropDotsStops(domain);
    CanonicalUnder(stem, DropDots(domain) + ".");
    assert (DropDots(domain) + ".")[..|DropDots(domain)|] == DropDots(domain);
    assert DkimRecord(k, domain).name == Under(stem, DropDots(domain) + ".");
  }

  lemma HostsAndServices()
    ensures forall i :: 0 <= i < |HOSTS| ==> HOSTS[i] != "" && HOSTS[i][|HOSTS[i]|-1] != '.'
    ensures forall i :: 0 <= i < |SERVICES| ==> SERVICES[i] != "" && SERVICES[i][|SERVICES[i]|-1] != '.'
    ensures forall i, j :: 0 <= i < j < |HOSTS| ==> HOSTS[i] != HOSTS[j]
    ensures forall i, j :: 0 <= i < j < |SERVICES| ==> SERVICES[i] != SERVICES[j]
    ensures forall h :: h in HOSTS ==> h !in SERVICES
  {
  }

  lemma AddressesFit(p: Profile)
    ensures AllFit(Addresses(p), AddressSlots(p), p.domain)
  {
    CanonicalUnder("mail", p.domain);
  }

  lemma ApexFits(p: Profile)
    ensures AllFit(Apex(p), APEX_SLOTS, p.domain)
  {
  }

  lemma DkimFits(p: Profile)
    ensures AllFit(DkimRecords(p), DkimSlots(p), p.domain)
  {
    if p.dkim.Some? {
      DkimName(p.dkim.value, p.domain);
    }
  }

  lemma PoliciesFit(p: Profile)
    ensures AllFit(Policies(p), POLICY_SLOTS, p.domain)
  {
    CanonicalUnder("_dmarc", p.domain);
    CanonicalUnder("_smtp._tls", p.domain);
  }

  lemma StsFits(p: Profile)
    ensures AllFit([StsRecord(p)], STS_SLOTS, p.domain)
  {
    CanonicalUnder("_mta-sts", p.domain);
  }

  lemma TablesFit(p: Profile)
    ensures AllFit(Aliases(p), AliasSlots(), p.domain)
    ensures AllFit(Services(p), ServiceSlots(), p.domain)
  {
    HostsAndServices();
    forall i | 0 <= i < |HOSTS|
      ensures Fits(Aliases(p)[i], AliasSlots()[i], p.domain)
    {
      CanonicalUnder(HOSTS[i], p.domain);
    }
    forall i | 0 <= i < |SERVICES|
      ensures Fits(Services(p)[i], ServiceSlots()[i], p.domain)
    {
      CanonicalUnder(SERVICES[i], p.domain);
    }
  }

  lemma PlanFits(p: Profile)
    ensures AllFit(Plan(p), Slots(p), p.domain)
  {
    AddressesFit(p);
    ApexFits(p);
    DkimFits(p);
    PoliciesFit(p);
    StsFits(p);
    TablesFit(p);
    var d := p.domain;
    AllFitAppend(Addresses(p), AddressSlots(p), Apex(p), APEX_SLOTS, d);
    var rs, ss := Addresses(p) + Apex(p), AddressSlots(p) + APEX_SLOTS;
    AllFitAppend(rs, ss, DkimRecords(p), DkimSlots(p), d);
    rs, ss := rs + DkimRecords(p), ss + DkimSlots(p);
    AllFitAppend(rs, ss, Policies(p), POLICY_SLOTS, d);
    rs, ss := rs + Policies(p), ss + POLICY_SLOTS;
    AllFitAppend(rs, ss, Aliases(p), AliasSlots(), d);
    rs, ss := rs + Aliases(p), ss + AliasSlots();
    AllFitAppend(rs, ss, Services(p), ServiceSlots(), d);
    rs, ss := rs + Services(p), ss + ServiceSlots();
    AllFitAppend(rs, ss, [StsRecord(p)], STS_SLOTS, d);
  }

  lemma DkimStemIsNew(selector: string)
    ensures var l := selector + "._domainkey";
      && l != "mail" && l != "_dmarc" && l != "_smtp._tls" && l != "_mta-sts" && l !in HOSTS
  {
    var l := selector + "._domainkey";
    assert l[|l|-1] == 'y';
    assert forall i :: 0 <= i < |HOSTS| ==> HOSTS[i][|HOSTS[i]|-1] != 'y';
  }

  /** Slots that are neither aliases nor services, nor at a stem kept for later. */
  predicate Plainly(s: Slot) {
    s.rtype != "CNAME" && s.rtype != "SRV" && s.stem != Some("_mta-sts")
    && (s.stem.Some? ==> s.stem.value !in HOSTS)
  }

  function FirstSlots(p: Profile): seq<Slot> { AddressSlots(p) + APEX_SLOTS + DkimSlots(p) }

  /** The mail host's addresses, the domain's own records, or the DKIM key. */
  predicate Early(p: Profile, s: Slot) {
    || (s.stem == Some("mail") && s.rtype in ["A", "AAAA"])
    || (s.stem == None && s.rtype in ["MX", "TXT"])
    || (p.dkim.Some? && s == Slot("TXT", Some(p.dkim.value.selector + "._domainkey")))
  }

  lemma EarlyIsPlain(p: Profile, s: Slot)
    requires Early(p, s)
    ensures Plainly(s) && forall t :: t in POLICY_SLOTS ==> !Clash(s, t)
  {
    if s.stem.Some? && s.stem != Some("mail") {
      DkimStemIsNew(p.dkim.value.selector);
    }
  }

  lemma HostAndApexApart(p: Profile)
    ensures NoClash(AddressSlots(p) + APEX_SLOTS)
    ensures forall s :: s in AddressSlots(p) + APEX_SLOTS ==>
      Early(p, s) && (s.stem == Some("mail") || s.stem == None)
  {
    NoClashAppend(AddressSlots(p), APEX_SLOTS);
  }

  lemma FirstSlotsApart(p: Profile)
    ensures NoClash(FirstSlots(p))
    ensures forall s :: s in FirstSlots(p) ==> Early(p, s)
  {
    HostAndApexApart(p);
    if p.dkim.Some? {
      DkimStemIsNew(p.dkim.value.selector);
    }
    NoClashAppend(AddressSlots(p) + APEX_SLOTS, DkimSlots(p));
  }

  lemma PlainSlotsApart(p: Profile)
    ensures NoClash(FirstSlots(p) + POLICY_SLOTS)
    ensures forall s :: s in FirstSlots(p) + POLICY_SLOTS ==> Plainly(s)
  {
    FirstSlotsApart(p);
    forall s | s in FirstSlots(p)
      ensures Plainly(s) && forall t :: t in POLICY_SLOTS ==> !Clash(s, t)
    {
      EarlyIsPlain(p, s);
    }
    NoClashAppend(FirstSlots(p), POLICY_SLOTS);
  }

  lemma TableSlotsApart()
    ensures NoClash(AliasSlots()) && NoClash(ServiceSlots())
    ensures forall s :: s in AliasSlots() ==> s.rtype == "CNAME" && s.stem.Some? && s.stem.value in HOSTS
    ensures forall s :: s in ServiceSlots() ==> s.rtype == "SRV" && s.stem.Some? && s.stem.value in SERVICES
  {
    HostsAndServices();
  }

  lemma TablesApart()
    ensures NoClash(AliasSlots() + ServiceSlots())
    ensures forall s :: s in AliasSlots() + ServiceSlots() ==> s.rtype in ["CNAME", "SRV"] && s.stem != Some("_mta-sts")
    ensures forall s :: s in AliasSlots() + ServiceSlots() ==>
      s.stem.Some? && (s.rtype == "CNAME" ==> s.stem.value in HOSTS)
  {
    TableSlotsApart();
    assert forall h :: h in HOSTS ==> h !in SERVICES by { HostsAndServices(); }
    NoClashAppend(AliasSlots(), ServiceSlots());
    assert "_mta-sts" !in HOSTS && "_mta-sts" !in SERVICES;
  }

  lemma SlotsApart(p: Profile)
    ensures NoClash(Slots(p))
  {
    var plain, tables := FirstSlots(p) + POLICY_SLOTS, AliasSlots() + ServiceSlots();
    PlainSlotsApart(p);
    TablesApart();
    NoClashAppend(plain, tables);
    StsApart(plain, tables);
    NoClashAppend(plain + tables, STS_SLOTS);
    assert plain + tables + STS_SLOTS == Slots(p);
  }

  lemma StsApart(plain: seq<Slot>, tables: seq<Slot>)
    requires forall s :: s in plain + tables ==> s.stem != Some("_mta-sts")
    ensures Apart(plain + tables, STS_SLOTS)
  {
  }

  // ---- The generated set ----

  predicate Targeted(r: DnsRecord, target: string) {
    |target| < |r.value| && r.value[|r.value|-|target|..] == target && r.value[|r.value|-|target|-1] == ' '
  }

  /** No two records of one type and name, even after normalising; and a CNAME's owner has nothing else. */
  lemma GeneratedOwnersUnique(p: Profile)
    ensures forall i, j :: 0 <= i < j < |Plan(p)| && Canonical(Plan(p)[i].name) == Canonical(Plan(p)[j].name) ==>
      Plan(p)[i].rtype != Plan(p)[j].rtype && Plan(p)[i].rtype != "CNAME" && Plan(p)[j].rtype != "CNAME"
  {
    PlanFits(p);
    SlotsApart(p);
    var rs, ss := Plan(p), Slots(p);
    forall i, j | 0 <= i < j < |rs| && Canonical(rs[i].name) == Canonical(rs[j].name)
      ensures rs[i].rtype != rs[j].rtype && rs[i].rtype != "CNAME" && rs[j].rtype != "CNAME"
    {
      assert Fits(rs[i], ss[i], p.domain) && Fits(rs[j], ss[j], p.domain);
      CanonicalNamesDiffer(ss[i].stem, ss[j].stem, p.domain);
      assert !Clash(ss[i], ss[j]);
    }
  }

  lemma InPlan(p: Profile, r: DnsRecord)
    requires r in Plan(p)
    ensures r in Addresses(p) || r in Apex(p) || r in DkimRecords(p) || r in Policies(p)
      || r in Aliases(p) || r in Services(p) || r == StsRecord(p)
  {
  }

  lemma EndsInTarget(r: DnsRecord, prefix: string, target: string)
    requires r.value == prefix + " " + target
    ensures Targeted(r, target)
  {
    assert r.value[|prefix|+1..] == target;
  }

  /** Every MX and SRV points at the mail host. */
  lemma TargetsAreTheServer(p: Profile, r: DnsRecord)
    requires r in Plan(p) && (r.rtype == "MX" || r.rtype == "SRV")
    ensures Targeted(r, ServerTarget(p))
  {
    InPlan(p, r);
    if r in Apex(p) {
      assert "10 " + ServerTarget(p) == "10" + " " + ServerTarget(p);
      EndsInTarget(r, "10", ServerTarget(p));
    } else {
      var i :| 0 <= i < |SERVICES| && r == Service(p, i);
      EndsInTarget(r, "0 1 " + PORTS[i], ServerTarget(p));
    }
  }

  lemma CanonicalServer(p: Profile)
    ensures Canonical(ServerTarget(p)) == CanonicalName(Some("mail"), p.domain)
  {
    CanonicalUnder("mail", p.domain + ".");
    assert ServerTarget(p) == Under("mail", p.domain + ".");
    assert (p.domain + ".")[..|p.domain|] == p.domain;
  }

  /** The mail host is no alias, so no MX or SRV target is. */
  lemma ServerIsNoAlias(p: Profile, r: DnsRecord)
    requires r in Plan(p) && r.rtype == "CNAME"
    ensures Canonical(r.name) != Canonical(ServerTarget(p))
  {
    assert r in Aliases(p) by { InPlan(p, r); }
    var i :| 0 <= i < |HOSTS| && r == Alias(p, i);
    CanonicalServer(p);
    HostIsNotMail(i);
    CanonicalUnder(HOSTS[i], p.domain);
    CanonicalNamesDiffer(Some(HOSTS[i]), Some("mail"), p.domain);
  }

  lemma HostIsNotMail(i: nat)
    requires i < |HOSTS|
    ensures HOSTS[i] != "mail" && HOSTS[i] != "" && HOSTS[i][|HOSTS[i]|-1] != '.'
  {
  }

  // ---- The generated records, written out ----

  predicate WrittenHost(p: Profile, rtype: string, name: string, value: string) {
    || (rtype == "A" && name == "mail." + p.domain && value == p.ipv4 && p.ipv4 != "")
    || (rtype == "AAAA" && name == "mail." + p.domain && value == p.ipv6 && p.ipv6 != "")
    || (rtype == "MX" && name == p.domain && value == "10 mail." + p.domain + ".")
  }

  predicate WrittenSpf(p: Profile, value: string) {
    || (p.ipv4 != "" && p.ipv6 != "" && value == "v=spf1 ip4:" + p.ipv4 + " ip6:" + p.ipv6 + " mx -all")
    || (p.ipv4 != "" && p.ipv6 == "" && value == "v=spf1 ip4:" + p.ipv4 + " mx -all")
    || (p.ipv4 == "" && p.ipv6 != "" && value == "v=spf1 ip6:" + p.ipv6 + " mx -all")
    || (p.ipv4 == "" && p.ipv6 == "" && value == "v=spf1 mx -all")
  }

  predicate WrittenTxt(p: Profile, name: string, value: string) {
    || (name == p.domain && WrittenSpf(p, value))
    || (p.dkim.Some? && name == p.dkim.value.selector + "._domainkey." + Canonical(p.domain)
        && value == "v=DKIM1; k=rsa; p=" + p.dkim.value.publicKey)
    || (name == "_dmarc." + p.domain
        && value == "v=DMARC1; p=" + p.dmarcPolicy + "; rua=mailto:dmarc@" + p.domain + "; ruf=mailto:dmarc@" + p.domain
                    + "; fo=1")
    || (name == "_smtp._tls." + p.domain && value == "v=TLSRPTv1; rua=mailto:tls-rpt@" + p.domain)
    || (name == "_mta-sts." + p.domain && value == "v=STSv1; id=1")
  }

  /** The service at a stem, and its port. */
  predicate Port(stem: string, port: string) {
    || (stem == "_submission._tcp" && port == "587")
    || (stem == "_submissions._tcp" && port == "465")
    || (stem == "_imaps._tcp" && port == "993")
    || (stem == "_sieve._tcp" && port == "4190")
    || ((stem == "_autodiscover._tcp" || stem == "_autoconfig._tcp" || stem == "_carddav._tcp" || stem == "_caldav._tcp")
        && port == "443")
  }

  predicate HostName(stem: string) {
    || stem == "admin" || stem == "email" || stem == "autoconfig" || stem == "autodiscover" || stem == "imap"
    || stem == "smtp"
  }

  ghost predicate Written(p: Profile, rtype: string, name: string, value: string) {
    || WrittenHost(p, rtype, name, value)
    || (rtype == "TXT" && WrittenTxt(p, name, value))
    || (rtype == "CNAME" && value == "mail." + p.domain + "." && exists s :: HostName(s) && name == s + "." + p.domain)
    || (rtype == "SRV" && exists s, port ::
          Port(s, port) && name == s + "." + p.domain && value == "0 1 " + port + " mail." + p.domain + ".")
  }

  lemma TableEntries()
    ensures |PORTS| == |SERVICES| && forall i :: 0 <= i < |SERVICES| ==> Port(SERVICES[i], PORTS[i])
    ensures forall i :: 0 <= i < |HOSTS| ==> HostName(HOSTS[i])
    ensures forall s, port :: Port(s, port) ==> exists i :: 0 <= i < |SERVICES| && SERVICES[i] == s && PORTS[i] == port
    ensures forall s :: HostName(s) ==> exists i :: 0 <= i < |HOSTS| && HOSTS[i] == s
  {
    forall s, port | Port(s, port)
      ensures exists i :: 0 <= i < |SERVICES| && SERVICES[i] == s && PORTS[i] == port
    {
      assert SERVICES[0] == "_submission._tcp" && SERVICES[1] == "_submissions._tcp" && SERVICES[2] == "_imaps._tcp";
      assert SERVICES[3] == "_sieve._tcp" && SERVICES[4] == "_autodiscover._tcp" && SERVICES[5] == "_autoconfig._tcp";
      assert SERVICES[6] == "_carddav._tcp" && SERVICES[7] == "_caldav._tcp";
    }
    forall s | HostName(s)
      ensures exists i :: 0 <= i < |HOSTS| && HOSTS[i] == s
    {
      assert HOSTS[0] == "admin" && HOSTS[1] == "email" && HOSTS[2] == "autoconfig";
      assert HOSTS[3] == "autodiscover" && HOSTS[4] == "imap" && HOSTS[5] == "smtp";
    }
  }

  lemma ServiceValue(port: string, domain: string)
    ensures "0 1 " + port + " " + ("mail" + "." + domain + ".") == "0 1 " + port + " mail." + domain + "."
  {
    assert " " + ("mail" + "." + domain + ".") == " mail." + domain + ".";
  }

  predicate Is(r: DnsRecord, rtype: string, name: string, value: string) {
    r.rtype == rtype && r.name == name && r.value == value
  }

  ghost predicate Holds(rs: seq<DnsRecord>, rtype: string, name: string, value: string) {
    exists r :: r in rs && Is(r, rtype, name, value)
  }

  lemma HostWritten(p: Profile, rtype: string, name: string, value: string)
    ensures Holds(Addresses(p) + [Apex(p)[0]], rtype, name, value) <==> WrittenHost(p, rtype, name, value)
  {
    assert "10 " + ServerTarget(p) == "10 mail." + p.domain + ".";
    assert Under("mail", p.domain) == "mail." + p.domain;
    var rs := Addresses(p) + [Apex(p)[0]];
    assert Apex(p)[0] in rs;
    if p.ipv4 != "" {
      assert Plain("A", Under("mail", p.domain), p.ipv4, "Mail server IPv4") in rs;
    }
    if p.ipv6 != "" {
      assert Plain("AAAA", Under("mail", p.domain), p.ipv6, "Mail server IPv6") in rs;
    }
  }

  lemma SpfWritten(p: Profile)
    ensures forall value :: WrittenSpf(p, value) <==> value == Spf(p)
  {
    var a, b := p.ipv4, p.ipv6;
    assert "v=spf1" + (" ip4:" + a) + (" ip6:" + b) + " mx -all" == "v=spf1 ip4:" + a + " ip6:" + b + " mx -all";
    assert "v=spf1" + (" ip4:" + a) + "" + " mx -all" == "v=spf1 ip4:" + a + " mx -all";
    assert "v=spf1" + "" + (" ip6:" + b) + " mx -all" == "v=spf1 ip6:" + b + " mx -all";
    assert "v=spf1" + "" + "" + " mx -all" == "v=spf1 mx -all";
  }

  lemma TxtNames(p: Profile)
    ensures Under("_dmarc", p.domain) == "_dmarc." + p.domain && Under("_smtp._tls", p.domain) == "_smtp._tls." + p.domain
    ensures Under("_mta-sts", p.domain) == "_mta-sts." + p.domain
    ensures forall k: Dkim :: DkimRecord(k, p.domain).name == k.selector + "._domainkey." + Canonical(p.domain)
  {
    forall k: Dkim
      ensures DkimRecord(k, p.domain).name == k.selector + "._domainkey." + Canonical(p.domain)
    {
      assert k.selector + "._domainkey." + DropDots(p.domain) + "."
          == k.selector + "._domainkey." + (DropDots(p.domain) + ".");
    }
  }

  lemma TxtWritten(p: Profile, name: string, value: string)
    ensures Holds([Apex(p)[1]] + DkimRecords(p) + Policies(p) + [StsRecord(p)], "TXT", name, value)
       <==> WrittenTxt(p, name, value)
  {
    SpfWritten(p);
    TxtNames(p);
    var rs := [Apex(p)[1]] + DkimRecords(p) + Policies(p) + [StsRecord(p)];
    assert Apex(p)[1] in rs && Policies(p)[0] in rs && Policies(p)[1] in rs && StsRecord(p) in rs;
    if p.dkim.Some? {
      assert DkimRecord(p.dkim.value, p.domain) in rs;
    }
  }

  lemma AliasWritten(p: Profile, name: string, value: string)
    ensures Holds(Aliases(p), "CNAME", name, value) <==>
      value == "mail." + p.domain + "." && exists s :: HostName(s) && name == s + "." + p.domain
  {
    TableEntries();
    assert ServerTarget(p) == "mail." + p.domain + ".";
    forall i | 0 <= i < |HOSTS|
      ensures HostName(HOSTS[i]) && Aliases(p)[i] in Aliases(p) && Aliases(p)[i].name == HOSTS[i] + "." + p.domain
    {
    }
    forall s | HostName(s) && name == s + "." + p.domain && value == ServerTarget(p)
      ensures exists r :: r in Aliases(p) && Is(r, "CNAME", name, value)
    {
      var i :| 0 <= i < |HOSTS| && HOSTS[i] == s;
      assert Is(Aliases(p)[i], "CNAME", name, value);
    }
  }

  lemma ServiceWritten(p: Profile, name: string, value: string)
    ensures Holds(Services(p), "SRV", name, value) <==>
      exists s, port :: Port(s, port) && name == s + "." + p.domain && value == "0 1 " + port + " mail." + p.domain + "."
  {
    TableEntries();
    forall i | 0 <= i < |SERVICES|
      ensures Port(SERVICES[i], PORTS[i]) && Services(p)[i] in Services(p)
      ensures Is(Services(p)[i], "SRV", SERVICES[i] + "." + p.domain, "0 1 " + PORTS[i] + " mail." + p.domain + ".")
    {
      ServiceValue(PORTS[i], p.domain);
    }
    forall s, port | Port(s, port) && name == s + "." + p.domain && value == "0 1 " + port + " mail." + p.domain + "."
      ensures exists r :: r in Services(p) && Is(r, "SRV", name, value)
    {
      var i :| 0 <= i < |SERVICES| && SERVICES[i] == s && PORTS[i] == port;
      assert Is(Services(p)[i], "SRV", name, value);
    }
  }

  lemma HoldsOfParts(p: Profile, rtype: string, name: string, value: string)
    ensures Holds(Plan(p), rtype, name, value) <==>
      || Holds(Addresses(p) + [Apex(p)[0]], rtype, name, value)
      || Holds([Apex(p)[1]] + DkimRecords(p) + Policies(p) + [StsRecord(p)], rtype, name, value)
      || Holds(Aliases(p), rtype, name, value) || Holds(Services(p), rtype, name, value)
  {
    assert Apex(p) == [Apex(p)[0]] + [Apex(p)[1]];
    forall r
      ensures r in Plan(p) <==>
        || r in Addresses(p) + [Apex(p)[0]]
        || r in [Apex(p)[1]] + DkimRecords(p) + Policies(p) + [StsRecord(p)]
        || r in Aliases(p) || r in Services(p)
    {
    }
  }

  lemma TypesOfParts(p: Profile, rtype: string, name: string, value: string)
    ensures Holds([Apex(p)[1]] + DkimRecords(p) + Policies(p) + [StsRecord(p)], rtype, name, value) ==> rtype == "TXT"
    ensures Holds(Aliases(p), rtype, name, value) ==> rtype == "CNAME"
    ensures Holds(Services(p), rtype, name, value) ==> rtype == "SRV"
  {
  }

  lemma PlanDefaults(p: Profile, r: DnsRecord)
    requires r in Plan(p)
    ensures r.ttl == 300 && r.priority == None && !r.proxied
  {
    InPlan(p, r);
  }

  /** The generated records are exactly these, type, name and value; each has a ttl of 300 and none a priority. */
  lemma PlanWritten(p: Profile, rtype: string, name: string, value: string)
    ensures (exists r :: r in Plan(p) && r.rtype == rtype && r.name == name && r.value == value)
       <==> Written(p, rtype, name, value)
    ensures forall r :: r in Plan(p) ==> r.ttl == 300 && r.priority == None && !r.proxied
  {
    HoldsOfParts(p, rtype, name, value);
    TypesOfParts(p, rtype, name, value);
    HostWritten(p, rtype, name, value);
    TxtWritten(p, name, value);
    AliasWritten(p, name, value);
    ServiceWritten(p, name, value);
    assert Holds(Plan(p), rtype, name, value) <==> Written(p, rtype, name, value);
    assert forall r :: Is(r, rtype, name, value) <==> r.rtype == rtype && r.name == name && r.value == value;
    forall r | r in Plan(p)
      ensures r.ttl == 300 && r.priority == None && !r.proxied
    {
      PlanDefaults(p, r);
    }
  }

  // ---- Generating it ----

  function PutAll(rs: seq<DnsRecord>): seq<DnsRecord> {
    if rs == [] then [] else Put(PutAll(rs[..|rs|-1]), rs[|rs|-1])
  }

  lemma {:induction false} PutAllDistinct(rs: seq<DnsRecord>)
    requires DistinctKeys(rs)
    ensures PutAll(rs) == rs
  {
    if rs != [] {
      var n := |rs| - 1;
      PutAllDistinct(rs[..n]);
      assert rs == rs[..n] + [rs[n]];
      PutAppends(rs[..n], rs[n]);
    }
  }

  /** `rs.add(...)`, remembering what was added so far. */
  method Include(rs: DnsRecordSet, ghost added: seq<DnsRecord>, r: DnsRecord)
    requires rs.Valid() && rs.records == PutAll(added)
    modifies rs
    ensures rs.Valid() && rs.records == PutAll(added + [r])
  {
    assert (added + [r])[..|added|] == added;
    rs.Add(r);
  }

  /** The generated set holds exactly the planned records, in the order they are added. */
  method GenerateDnsRecords(p: Profile) returns (rs: DnsRecordSet)
    ensures fresh(rs) && rs.Valid() && rs.records == Plan(p) && rs.domain == Canonical(p.domain)
  {
    rs := new DnsRecordSet(p.domain);
    AddAddresses(rs, p);
    AddCore(rs, p, Addresses(p));
    ghost var added := Addresses(p) + Apex(p) + DkimRecords(p) + Policies(p);
    AddAliases(rs, p, added);
    AddServices(rs, p, added + Aliases(p));
    Include(rs, added + Aliases(p) + Services(p), StsRecord(p));
    PlanIsItself(p);
  }

  lemma PlanIsItself(p: Profile)
    ensures PutAll(Plan(p)) == Plan(p)
  {
    NormalisedPlanIsReady(p);
    UniqueOwnersDistinctKeys(Plan(p));
    PutAllDistinct(Plan(p));
  }

  method AddAddresses(rs: DnsRecordSet, p: Profile)
    requires rs.Valid() && rs.records == []
    modifies rs
    ensures rs.Valid() && rs.records == PutAll(Addresses(p))
  {
    ghost var added: seq<DnsRecord> := [];
    if p.ipv4 != "" {
      Include(rs, added, Plain("A", Under("mail", p.domain), p.ipv4, "Mail server IPv4"));
      added := added + [Plain("A", Under("mail", p.domain), p.ipv4, "Mail server IPv4")];
    }
    if p.ipv6 != "" {
      Include(rs, added, Plain("AAAA", Under("mail", p.domain), p.ipv6, "Mail server IPv6"));
      added := added + [Plain("AAAA", Under("mail", p.domain), p.ipv6, "Mail server IPv6")];
    }
    assert added == Addresses(p);
  }

  method AddAliases(rs: DnsRecordSet, p: Profile, ghost added: seq<DnsRecord>)
    requires rs.Valid() && rs.records == PutAll(added)
    modifies rs
    ensures rs.Valid() && rs.records == PutAll(added + Aliases(p))
  {
    assert added + Aliases(p)[..0] == added;
    for i := 0 to |HOSTS|
      invariant rs.Valid() && rs.records == PutAll(added + Aliases(p)[..i])
    {
      assert added + Aliases(p)[..i] + [Alias(p, i)] == added + Aliases(p)[..i+1];
      Include(rs, added + Aliases(p)[..i], Alias(p, i));
    }
    assert added + Aliases(p)[..|HOSTS|] == added + Aliases(p);
  }

  method AddCore(rs: DnsRecordSet, p: Profile, ghost added: seq<DnsRecord>)
    requires rs.Valid() && rs.records == PutAll(added)
    modifies rs
    ensures rs.Valid() && rs.records == PutAll(added + Apex(p) + DkimRecords(p) + Policies(p))
  {
    AddPair(rs, added, Apex(p));
    ghost var sofar := added + Apex(p);
    if p.dkim.Some? {
      Include(rs, sofar, DkimRecord(p.dkim.value, p.domain));
    } else {
      assert sofar + DkimRecords(p) == sofar;
    }
    AddPair(rs, sofar + DkimRecords(p), Policies(p));
  }

  method AddPair(rs: DnsRecordSet, ghost added: seq<DnsRecord>, pair: seq<DnsRecord>)
    requires rs.Valid() && rs.records == PutAll(added) && |pair| == 2
    modifies rs
    ensures rs.Valid() && rs.records == PutAll(added + pair)
  {
    Include(rs, added, pair[0]);
    Include(rs, added + [pair[0]], pair[1]);
    assert added + [pair[0]] + [pair[1]] == added + pair;
  }

  method AddServices(rs: DnsRecordSet, p: Profile, ghost added: seq<DnsRecord>)
    requires rs.Valid() && rs.records == PutAll(added)
    modifies rs
    ensures rs.Valid() && rs.records == PutAll(added + Services(p))
  {
    assert added + Services(p)[..0] == added;
    for i := 0 to |SERVICES|
      invariant rs.Valid() && rs.records == PutAll(added + Services(p)[..i])
    {
      assert added + Services(p)[..i] + [Service(p, i)] == added + Services(p)[..i+1];
      Include(rs, added + Services(p)[..i], Service(p, i));
    }
    assert added + Services(p)[..|SERVICES|] == added + Services(p);
  }

  /** The normalising step between the generator and the sync. */
  function Renamed(r: DnsRecord): DnsRecord { r.(name := Canonical(r.name)) }

  function Normalised(rs: seq<DnsRecord>): seq<DnsRecord> { Map(Renamed, rs) }

  lemma NormalisedPlanIsReady(p: Profile)
    ensures var local := Normalised(Plan(p)); OwnersUnique(local) && Named(local) && Unproxied(local)
    ensures OwnersUnique(Plan(p)) && Unproxied(Plan(p))
  {
    GeneratedOwnersUnique(p);
    var rs, local := Plan(p), Normalised(Plan(p));
    forall i | 0 <= i < |rs|
      ensures Canonical(local[i].name) == local[i].name && !rs[i].proxied
    {
      CanonicalIdempotent(rs[i].name);
      var r := rs[i];
      assert r in rs;
      assert r in Addresses(p) || r in Apex(p) || r in DkimRecords(p) || r in Policies(p)
        || r in Aliases(p) || r in Services(p) || r == StsRecord(p);
    }
  }

  /** The generated set, once normalised, always converges on a zone with one record per type and name. */
  lemma GeneratedSyncConverges(disc: Discipline, p: Profile, zone: seq<DnsRecord>, d: DnsDiff)
    requires OwnersUnique(zone) && Named(zone) && IsDiff(Normalised(Plan(p)), IndexOf(zone), d)
    ensures var local := Normalised(Plan(p));
      var z := Apply(disc, zone, d);
      && z.Some? && Cores(z.value) == Cores(local)
      && forall d' :: IsDiff(local, IndexOf(z.value), d') ==> d'.IsEmpty()
  {
    NormalisedPlanIsReady(p);
    SyncConverges(disc, Normalised(Plan(p)), zone, d);
  }

  /** As generated, without that step, the next sync is quiet only for a domain written with its trailing dot. */
  lemma GeneratedQuietIffDotted(disc: Discipline, p: Profile, zone: seq<DnsRecord>, d: DnsDiff, d': DnsDiff)
    requires !disc.Exact? && OwnersUnique(zone) && Named(zone) && IsDiff(Plan(p), IndexOf(zone), d)
    requires Apply(disc, zone, d).Some? && IsDiff(Plan(p), IndexOf(Apply(disc, zone, d).value), d')
    ensures d'.IsEmpty() <==> Dotted(p.domain)
  {
    NormalisedPlanIsReady(p);
    NextSyncQuietIffNamed(disc, Plan(p), zone, d, d');
    PlanNamedIff(p);
  }

  /** A domain with a name in it and exactly one trailing dot. `validate_domain` accepts none such. */
  predicate Dotted(domain: string) { DropDots(domain) != "" && domain == DropDots(domain) + "." }

  lemma PlanNamedIff(p: Profile)
    ensures Named(Plan(p)) <==> Dotted(p.domain)
  {
    var apex := Apex(p)[0];
    assert apex in Plan(p) && StsRecord(p) in Plan(p);
    CanonicalUnder("_mta-sts", p.domain);
    assert p.domain == "." ==> DropDots(".") == DropDots("");
    if Dotted(p.domain) {
      forall r | r in Plan(p)
        ensures Canonical(r.name) == r.name
      {
        DottedNames(p, r);
      }
    }
  }

  lemma DottedUnder(stem: string, domain: string)
    requires Dotted(domain) && stem != "" && stem[|stem|-1] != '.'
    ensures Canonical(Under(stem, domain)) == Under(stem, domain)
  {
    CanonicalUnder(stem, domain);
  }

  lemma DottedNames(p: Profile, r: DnsRecord)
    requires Dotted(p.domain) && r in Plan(p)
    ensures Canonical(r.name) == r.name
  {
    InPlan(p, r);
    if r in Aliases(p) || r in Services(p) {
      DottedTables(p, r);
    } else if r in DkimRecords(p) {
      DottedDkim(p, r);
    } else if r in Policies(p) {
      DottedPolicies(p, r);
    } else {
      DottedHost(p, r);
    }
  }

  lemma DottedDkim(p: Profile, r: DnsRecord)
    requires Dotted(p.domain) && r in DkimRecords(p)
    ensures Canonical(r.name) == r.name
  {
    DottedUnder(p.dkim.value.selector + "._domainkey", p.domain);
    assert r.name == Under(p.dkim.value.selector + "._domainkey", p.domain);
  }

  lemma DottedPolicies(p: Profile, r: DnsRecord)
    requires Dotted(p.domain) && r in Policies(p)
    ensures Canonical(r.name) == r.name
  {
    DottedUnder("_dmarc", p.domain);
    DottedUnder("_smtp._tls", p.domain);
  }

  lemma DottedHost(p: Profile, r: DnsRecord)
    requires Dotted(p.domain) && (r in Addresses(p) || r in Apex(p) || r == StsRecord(p))
    ensures Canonical(r.name) == r.name
  {
    DottedUnder("mail", p.domain);
    DottedUnder("_mta-sts", p.domain);
  }

  lemma DottedTables(p: Profile, r: DnsRecord)
    requires Dotted(p.domain) && (r in Aliases(p) || r in Services(p))
    ensures Canonical(r.name) == r.name
  {
    HostsAndServices();
    if r in Aliases(p) {
      var i :| 0 <= i < |HOSTS| && r == Alias(p, i);
      DottedUnder(HOSTS[i], p.domain);
    } else {
      var i :| 0 <= i < |SERVICES| && r == Service(p, i);
      DottedUnder(SERVICES[i], p.domain);
    }
  }
}
