# Verified model of the KTC Mail control plane

KTC Mail is a set of small Python programs around Postfix, Dovecot and a DNS provider. This project models
the six of them that keep state and make promises about it, in Dafny, and proves those promises for every
input, every sequence of calls and every reachable state. `dafny verify dfyconfig.toml` checks everything.

| module | models |
|---|---|
| `RateLimiter` | the per-user outbound rate counter: two windows, lazy reset, pruning, DEFER to REJECT escalation |
| `PolicyProtocol` | the byte-stream loop that frames and parses Postfix policy requests in front of it |
| `DnsRecords`, `DnsRecordSets`, `DnsJson` | DNS records, the keyed record set with `diff` and `verify`, and its JSON form |
| `DnsSync`, `DnsReconcile`, `DnsFirstMatch` | `sync_records` against a zone, under four ways providers address records, and repeated syncs |
| `DnsProfile` | the generated record set of a setup profile |
| `AuditExport` | the append-only audit log, its byte cursor and the export to two destinations |
| `UserStore` | the passwd, alias and mailbox files as one store of mail users |
| `LoginLimiter` | the failed-login limiter and its two backends |
| `BreakGlass`, `Mfa`, `AdminSessions` | the single-use operator token, HOTP/TOTP and recovery codes, and the admin sessions built on them |
| `Text`, `Sorting`, `Prelude` | Python's string operations, stable sorting, and shared shapes |

Objects that the programs update in place are classes here (`RateTracker`, `DnsRecordSet`, `Transport`,
`Exporter`, `UserManager`, `MemoryLimiter`, `Store`, `Server`); loops are loops. Each such method is proved
against a function of the old state, and the theorems are about those functions: `Track` and `Run`, `Put`,
`IsDiff`, `Apply`, `Export` and `History`, `UserAdd`/`UserDelete`/`UserPasswd`, `MemoryCheck`, `Respond` and
`Effect`.

## Where the code and its own words differ

The model follows the code.

- The rate tracker calls its windows sliding (src/ktc_mail_admin/rate_limiter.py:90). They are fixed windows
  that start at the first message after the last one expired, so the bound over an arbitrary interval of k
  windows is (k+1) times the limit, less one. `RateLimiter.BoundReached` gives runs that reach it for every k, and
  `RateLimiter.SlidesIff` says for exactly which limits a closed hour never holds more than the hourly limit.
- A limit below one still admits the first message of a window (src/ktc_mail_admin/rate_limiter.py:114-120),
  so `RateLimiter.IntervalBound` is stated with the larger of the limit and one, and needs no condition.
- `generate_dns_records` writes most names without the trailing dot that everything read back carries. Its
  set converges once normalised (`DnsProfile.GeneratedSyncConverges`); as generated the next sync is never
  quiet for a domain the setup accepts (`DnsProfile.GeneratedQuietIffDotted`).
- The home directory is said to be domain first (src/ktc_mail_admin/user_manager.py:11), but the
  split of the address names its parts the other way round: `UserStore.HomeIsLocalFirst`.
- `user_add` accepts addresses and quotas that its own files do not give back. `UserStore.AddedReadsBackIff`
  says exactly which are read back from the passwd file: an address on one line that does not start with '#',
  and a quota on one line without '=', "::" or trailing white space. `UserStore.QuotaIsCutAtNewline` shows what
  becomes of a quota with a newline. A space in an address survives there, but not in the map files, of which
  `UserStore.DeleteLeavesMaps` says exactly what a delete leaves.
- A break-glass record is "wiped" on use (src/ktc_mail_admin/breakglass.py:116-123), but an error while
  unlinking is ignored: `BreakGlass.UnwipedSucceedsAgain`.
- PRODUCTION_READINESS.md:37 says that changing the second factor invalidates sessions. By itself it does not:
  `AdminSessions.OldCookieStillAdmitted` is a run in which the old cookie edits the account again, because
  `require_role`, which guards every page, does not look at the version. `AdminSessions.MfaChangeEndsSessionIff`
  says exactly when such a change ends a session: when the session meets GET /login after it.
- The login limiter's two backends are meant to be interchangeable. They are as long as no address fails twice at
  one moment; `LoginLimiter.AgreementIff` says exactly when, and `LoginLimiter.TiesDiverge` gives a run. What the
  Redis backend bounds in every run is moments, not failures: `LoginLimiter.RedisAtMostFiveMoments`.
- Repeating a sync is meant to end with nothing left to do. At a provider that takes the first match by type and
  name it need not: `DnsFirstMatch.FirstMatchSettlesIff` says exactly for which zones it does.
- The export cursor is called a byte offset, but text mode turns "\r\n" into one character:
  `AuditExport.CursorReachesEndIff`. Nothing is lost by that (`AuditExport.EveryHistoryCovers`), but the end of the
  log is read and sent again (`AuditExport.CrLfRereads`).
- `/logout` has no route (src/ktc_mail_admin/admin_server.py:1083), so it is not a request of the model.

## Model

| member | source | states |
|---|---|---|
| `RateLimiter.RateTracker.CheckAndTrack` | src/ktc_mail_admin/rate_limiter.py:122-169 | The answer is OK exactly when in neither the last 3600 nor the last 86400 seconds' window the user's running counter has reached its limit; otherwise it names the full window, the hour first, and is REJECT exactly from the third denial in a row on; the three tables become those of `Track` and nobody else's entries move. |
| `RateLimiter.RateTracker.Deny` | src/ktc_mail_admin/rate_limiter.py:152-169 | Counts one more consecutive denial and answers REJECT from the third on, DEFER before. |
| `RateLimiter.RateTracker.Prune` | src/ktc_mail_admin/rate_limiter.py:171-199 | Drops exactly the expired counters and the zero denial counts. |
| `RateLimiter.RateTracker.DropStale` | src/ktc_mail_admin/rate_limiter.py:175-189 | One table keeps exactly its live windows. |
| `RateLimiter.TrackerIsPerUser` | src/ktc_mail_admin/rate_limiter.py:122-199 | In every run with a clock that does not go back, the answers a user gets are those of a tracker that serves that user alone and never prunes. |
| `RateLimiter.PruningAndOthersInvisible` | src/ktc_mail_admin/rate_limiter.py:171-199 | Two runs in which a user sends at the same times, whatever the other users send and wherever pruning happens, give that user the same decisions. |
| `RateLimiter.RejectIffThirdDenialInARow` | src/ktc_mail_admin/rate_limiter.py:152-169 | A decision is REJECT if and only if this and the two preceding requests of the same user were denied. |
| `RateLimiter.ErasingDenialsIsInvisible` | src/ktc_mail_admin/rate_limiter.py:114-150 | Erasing any set of denied requests from a run leaves the verdict, and the limit named, of every remaining request: retries never extend a block. |
| `RateLimiter.IntervalBound` | src/ktc_mail_admin/rate_limiter.py:103-150 | In every run, for every user, window and k >= 1, a closed interval of k windows holds at most (k+1)*max(1, limit) - 1 admitted messages. |
| `RateLimiter.BoundReached` | src/ktc_mail_admin/rate_limiter.py:103-150 | For both windows, every k >= 1, every limit of at least one and every other limit of at least k+1 times it, an ordered run admits (k+1)*limit - 1 messages of a user in a closed interval of k windows: the bound is tight. |
| `RateLimiter.HourBound` | src/ktc_mail_admin/rate_limiter.py:103-150 | With a daily limit no larger than the hourly one, a closed hour holds at most the hourly limit or twice the daily one less two, whichever is more. |
| `RateLimiter.SlidesIff` | src/ktc_mail_admin/rate_limiter.py:89-93 | For all limits: every run keeps to the hourly limit in every closed hour, as a sliding window would, if and only if the hourly limit is one, or it is more, the daily limit does not exceed it, and twice the daily limit (at least one) less two does not either. |
| `PolicyProtocol.FramesRebuild` | src/ktc_mail_admin/rate_limiter.py:222-228 | Frames, delimiters and leftover rebuild the stream; the leftover holds no delimiter and no frame is cut late. |
| `PolicyProtocol.FramesUnique` | src/ktc_mail_admin/rate_limiter.py:222-228 | That is the only way to cut the stream. |
| `PolicyProtocol.FramesAppend` | src/ktc_mail_admin/rate_limiter.py:216-228 | Framing a stream that arrives in two parts is framing the first and then the leftover with the second. |
| `PolicyProtocol.HandleClient` | src/ktc_mail_admin/rate_limiter.py:205-245 | Over any chunks, the connection answers exactly the frames of all that was received, in order: OK where no sender is named, and elsewhere, in order, what a run of the rate tracker over the named senders answers; the tables are what that run leaves. |
| `PolicyProtocol.Drain` | src/ktc_mail_admin/rate_limiter.py:222-245 | The inner loop consumes every complete frame of the buffer, answers each once and keeps the leftover. |
| `PolicyProtocol.ParseRequest` | src/ktc_mail_admin/rate_limiter.py:230-235 | The attribute map built line by line; later lines win and lines without '=' are ignored. |
| `PolicyProtocol.Decide` | src/ktc_mail_admin/rate_limiter.py:237-244 | A request without a value under "sasl_username" passes, and the tracker stays as it is; any other is tracked under that value. |
| `PolicyProtocol.ChunkingIsInvisible` | src/ktc_mail_admin/rate_limiter.py:215-245 | Any two cuts of one stream into non-empty chunks are received as the same stream; with `HandleClient` and `FramesAppend`, which carry the result, they give the same frames, user names, responses and tracker state. |
| `PolicyProtocol.LineParses` | src/ktc_mail_admin/rate_limiter.py:231-235 | A printed `name=value` line sets exactly that attribute. |
| `PolicyProtocol.LineSets` | src/ktc_mail_admin/rate_limiter.py:231-235 | Any line sets what stands in front of its first '=' to what stands behind it, both without the white space around; a line without one sets nothing. |
| `PolicyProtocol.PrintedRequestsReadBack` | src/ktc_mail_admin/rate_limiter.py:215-235 | A printed list of well-formed requests, however chunked, is read back as the same attribute maps with nothing left over. |
| `PolicyProtocol.ServedByName` | src/ktc_mail_admin/rate_limiter.py:222-245 | For any frames and starting tables, the nameless requests are answered OK, the others get, in order, the decisions of a run of the rate tracker on their senders and times, and the final tables are those of that run. |
| `PolicyProtocol.PrintedRequestsServed` | src/ktc_mail_admin/rate_limiter.py:215-245 | The same for a printed list of well-formed requests, however chunked, with the senders taken from the printed "sasl_username" attributes. |
| `PolicyProtocol.PassedBound` | src/ktc_mail_admin/rate_limiter.py:205-245 | On any stream, from a fresh tracker and with a clock that does not go back, a closed interval of k windows holds at most (k+1)*max(1, limit) - 1 OK answers to the requests that name one sender. |
| `DnsRecords.KeyStringIsFaithful` | src/ktc_mail_admin/config.py:159-167 | For names and types without ':' and a digest that tells the two values apart, two key strings are equal exactly when the modelled keys are. |
| `DnsRecords.TxtPrefixIsOwner` | src/ktc_mail_admin/config.py:281-304 | The `TXT:name:` prefix test of `find` and `remove` selects exactly the TXT records of that name. |
| `DnsRecords.CanonicalIdempotent` | src/ktc_mail_admin/config.py:184-212 | Normalising a name twice is normalising it once. |
| `DnsRecords.PutLookup` | src/ktc_mail_admin/config.py:276-279 | Adding a record sets its own key, touches no other key and keeps keys distinct. |
| `DnsRecords.NotOwnedLookup` | src/ktc_mail_admin/config.py:281-291 | Dropping an owner's records clears exactly the keys of that type and name. |
| `DnsRecords.AllIgnoresOrderIff` | src/ktc_mail_admin/config.py:306-307 | `all()` lists the same for every insertion order if and only if no two records share type and name. |
| `DnsRecords.OrderLeaks` | src/ktc_mail_admin/config.py:306-307 | Two different records of one type and name come out in the order they went in. |
| `DnsRecordSets.DnsRecordSet.Add` | src/ktc_mail_admin/config.py:276-279 | The record replaces the one under its key, or is new; every other key keeps its record. |
| `DnsRecordSets.DnsRecordSet.Remove` | src/ktc_mail_admin/config.py:281-291 | Exactly the records of that type and name are gone, for TXT all of them, however type and name were spelt. |
| `DnsRecordSets.DnsRecordSet.Find` | src/ktc_mail_admin/config.py:293-304 | The first record of that type and name in insertion order, or none. |
| `DnsRecordSets.DnsRecordSet.Updates` | src/ktc_mail_admin/config.py:331-340 | The update list holds exactly the pairs under one key whose value, ttl or proxying differ, each new record once, in key order. |
| `DnsRecordSets.DnsRecordSet.Diff` | src/ktc_mail_admin/config.py:317-342 | Creates are the local keys missing remotely, deletes the remote keys unknown locally, updates the differing pairs, each listed once and each list in the order of the key strings. |
| `DnsRecordSets.UpdateListedIff` | src/ktc_mail_admin/config.py:331-340 | A pair is in the update list if and only if both records are present under one key and differ in value, in ttl or, for A, AAAA and CNAME, in proxying. |
| `DnsRecordSets.DnsRecordSet.VerifyOne` | src/ktc_mail_admin/config.py:351-371 | The issue of one local record: missing, or a different value found under its type and name. |
| `DnsRecordSets.LocalIssuesAre` | src/ktc_mail_admin/config.py:351-371 | A local record is reported missing if and only if no remote record has its type in capitals and its name with one trailing dot; otherwise it is compared with the first that has, and a different value is reported with both values. |
| `DnsRecordSets.FoundInAnySpelling` | src/ktc_mail_admin/config.py:384-420 | What verify says of a local record does not depend on the case of its type or on dots behind its name. |
| `DnsRecordSets.DnsRecordSet.Verify` | src/ktc_mail_admin/config.py:351-371 | The issue list: local records in `all()` order, then remote records nobody asked for. |
| `DnsRecordSets.VerifyCleanIff` | src/ktc_mail_admin/config.py:351-371 | For normalised sets, no issues if and only if key sets and values agree and no remote name holds two TXT records. |
| `DnsRecordSets.MissingReported` | src/ktc_mail_admin/config.py:351-371 | A record is in the report as missing if and only if it is local and nothing remote has its type and name. |
| `DnsRecordSets.UnexpectedReported` | src/ktc_mail_admin/config.py:367-370 | A record is in the report as unexpected if and only if it is remote and no local record has its key. |
| `DnsRecordSets.DiffEmptyIff` | src/ktc_mail_admin/config.py:317-342 | The diff is empty if and only if key sets agree and no pair under one key differs. |
| `DnsRecordSets.NothingToSyncIff` | src/ktc_mail_admin/config.py:317-342 | There is nothing to sync if and only if the key sets agree and every pair under one key has equal value and ttl and, for A, AAAA and CNAME, equal proxying. |
| `DnsRecordSets.CleanLeavesOnlyTtl` | src/ktc_mail_admin/config.py:317-371 | After a clean verify the diff creates and deletes nothing, and no update changes a value. |
| `DnsRecordSets.EmptyDiffVerifiesIff` | src/ktc_mail_admin/config.py:317-371 | An empty diff verifies clean if and only if each remote name has at most one TXT record. |
| `DnsJson.RecordRoundTripIff` | src/ktc_mail_admin/config.py:169-212 | `from_dict(to_dict(r))` gives r without its purpose if and only if r is storable: supported type, normalised name, non-empty value, priority not 0. |
| `DnsJson.AcceptedIsNormal` | src/ktc_mail_admin/config.py:184-212 | Whatever `from_dict` accepts is normalised and storable. |
| `DnsJson.AcceptedIff` | src/ktc_mail_admin/config.py:184-212 | A dictionary is accepted as a given record if and only if it holds a supported type in either case, a name, a value and no negative ttl, and the record has that type, the name with one trailing dot, the value, the ttl or 300, the priority unless it is zero, no purpose and the proxy flag. |
| `DnsJson.RefusedFor` | src/ktc_mail_admin/config.py:184-212 | Which error is raised: the first of an unsupported type, a missing name, a missing value and a negative ttl. |
| `DnsJson.SetRoundTrip` | src/ktc_mail_admin/config.py:373-384 | Saving and loading a set of storable records gives back the same key-to-record map, purposes aside. |
| `DnsJson.HashIgnoresOrderIff` | src/ktc_mail_admin/config.py:346-349 | The list of dictionaries that `content_hash()` hashes, purposes left out, is the same for every insertion order if and only if no two records share type and name. |
| `DnsSync.Transport.Create` | src/ktc_mail_admin/dns_provider.py:175-184 | One more record at the end of the zone, as given or as the provider lists it back: the same type, value and ttl, the name with one trailing dot, no priority, no purpose, unproxied; at an rrset provider it is then the only one of its type and name. |
| `DnsSync.Transport.Update` | src/ktc_mail_admin/dns_provider.py:186-206 | An update call under each discipline: that record, the first of that type and name, or the rrset. |
| `DnsSync.Transport.Delete` | src/ktc_mail_admin/dns_provider.py:208-215 | A delete call under each discipline: exact addressing takes one copy of the record, a first-match provider one record of that type and name if there is any, an rrset provider all of them; nothing at another type and name goes, and only a strict rrset provider refuses. |
| `DnsSync.IndexZone` | src/ktc_mail_admin/dns_provider.py:1046-1049 | The set built from a listing is the listing added record by record. |
| `DnsSync.IndexLooksUpLast` | src/ktc_mail_admin/dns_provider.py:1046-1049 | Its keys are the listed keys, and under each stands the last listed record. |
| `DnsSync.SyncRecords` | src/ktc_mail_admin/dns_provider.py:1036-1072 | One sync: the diff against the indexed zone, applied in full; or, when a delete is refused, exactly the deletes in front of it; a dry run changes nothing and reports the same actions. |
| `DnsSync.ReportMeans` | src/ktc_mail_admin/dns_provider.py:1051-1072 | The report has a "delete" entry exactly for each type and name in the delete list, a "create" entry for each type, name and value in the create list, an "update" entry for each new record of the update list, and says "no changes" exactly when there are none. |
| `DnsSync.ApplyDiff` | src/ktc_mail_admin/dns_provider.py:1054-1067 | The apply phase calls deletes, then creates, then updates, in list order; a refused delete leaves exactly the deletes in front of it done. |
| `DnsSync.VerifyRecords` | src/ktc_mail_admin/dns_provider.py:1075-1089 | The issues of the record set against the indexed zone. |
| `DnsSync.SyncConverges` | src/ktc_mail_admin/dns_provider.py:1036-1072 | Under every discipline, when names are in normal form, neither side has two records of one type and name and local records are unproxied, a sync succeeds, leaves the zone with exactly the local types, names, values and ttls and with no A, AAAA or CNAME record proxied, and the next sync is empty. |
| `DnsSync.DeletesMakeRoom` | src/ktc_mail_admin/dns_provider.py:1054-1062 | Where a record is to be created, the zone holds none of its type and name or the delete phase addresses it first. |
| `DnsSync.CreatesFirstLosesRecord` | src/ktc_mail_admin/dns_provider.py:740-782 | With creates before deletes, a provider that deletes whole rrsets would be left without any TXT record whose value changed, for every record set and zone with one record per type and name: the order is what convergence rests on. |
| `DnsReconcile.NextSyncQuietIffNamed` | src/ktc_mail_admin/dns_provider.py:1036-1072 | At a provider that is not exact, with one record per type and name on both sides, unproxied local records, a zone in normal form and a first sync that succeeds, the next sync is empty if and only if every local name is in normal form. |
| `DnsReconcile.RoundDoesWork` | src/ktc_mail_admin/dns_provider.py:1054-1067 | With exact addressing and any duplicates, each action of a sync removes exactly one unit of foreign, differing or missing records. |
| `DnsReconcile.RoundsRunOut` | src/ktc_mail_admin/dns_provider.py:1036-1072 | So no sequence of non-empty syncs is longer than the work there was at the start. |
| `DnsReconcile.QuietIff` | src/ktc_mail_admin/config.py:317-342 | A sync reports no changes if and only if no key is foreign or missing and the last listed record of every key is right. |
| `DnsReconcile.StaleDuplicateSurvives` | src/ktc_mail_admin/dns_provider.py:1046-1049 | A stale duplicate listed before the right record survives a sync that reports no changes. |
| `DnsFirstMatch.FirstMatchSettlesIff` | src/ktc_mail_admin/dns_provider.py:186-243 | At a first-match provider, for every unproxied record set with one record to a key, every zone with names in normal form, duplicates and TXT included, and every run of more syncs than the zone has records and one: some sync of the run is empty if and only if every local name is in normal form and no local record is blocked in the zone the run starts from, that is, last listed wrong among the records that outlive every delete and every rewriting of the front record. |
| `DnsFirstMatch.FirstMatchSettles` | src/ktc_mail_admin/dns_provider.py:186-243 | And then every sync is empty once there were more than the zone had records. |
| `DnsFirstMatch.FirstMatchNeverSettles` | src/ktc_mail_admin/dns_provider.py:186-243 | With one blocked record no sync in any number of them is empty. |
| `DnsFirstMatch.WrongDuplicateBlocks` | src/ktc_mail_admin/dns_provider.py:186-243 | A local record other than TXT is blocked if and only if the zone lists its type and name twice or more and the last one differs from it. |
| `DnsFirstMatch.AgreeingTxtIsFree` | src/ktc_mail_admin/dns_provider.py:186-243 | A local TXT record is not blocked when no listed record has its name and value and another ttl. |
| `DnsFirstMatch.FirstMatchTxtNeverSettles` | src/ktc_mail_admin/dns_provider.py:186-243 | Otherwise it can be: when the ttl of the second of two wanted TXT records of one name changed, no sync in any number of them is empty. |
| `DnsFirstMatch.SyncOfOwner` | src/ktc_mail_admin/dns_provider.py:186-243 | What one sync does to the records of one type and name: as many as there are foreign keys fall off the front, the missing ones are added at the end, and the front record is rewritten once for each local record last listed wrong. |
| `DnsProfile.GenerateDnsRecords` | src/ktc_mail_admin/config.py:750-874 | The generated set holds exactly the planned records, in order, under the normalised domain. |
| `DnsProfile.PlanWritten` | src/ktc_mail_admin/config.py:750-874 | For every profile the generated records are exactly the written-out ones, by type, name and value: addresses, MX, SPF, DKIM, DMARC, TLS-RPT, MTA-STS, six aliases, and eight services with their ports; all with ttl 300, unproxied and without a priority. |
| `DnsProfile.GeneratedOwnersUnique` | src/ktc_mail_admin/config.py:750-874 | For every profile, no two generated records have the same type and name even after normalising, and a CNAME owner has no other record (section 3.6.2 of RFC 1034). |
| `DnsProfile.TargetsAreTheServer` | src/ktc_mail_admin/config.py:750-874 | Every MX and SRV record points at the mail host. |
| `DnsProfile.ServerIsNoAlias` | src/ktc_mail_admin/config.py:750-874 | No generated CNAME is owned by the mail host, so no MX or SRV target is an alias (section 10.3 of RFC 2181, `Target` in RFC 2782). |
| `DnsProfile.NormalisedPlanIsReady` | src/ktc_mail_admin/config.py:750-874 | The normalised generated set meets the hypotheses of the sync and ordering theorems. |
| `DnsProfile.GeneratedSyncConverges` | src/ktc_mail_admin/dns_provider.py:1036-1072 | For every profile, discipline and zone with one record per type and name, syncing the normalised generated set converges. |
| `DnsProfile.GeneratedQuietIffDotted` | src/ktc_mail_admin/config.py:750-813 | Synced as generated, to a provider that is not exact with one record per type and normal name and a first sync that succeeds, the next sync is empty if and only if the domain itself was written with its trailing dot. |
| `AuditExport.AppendedEventReadBackIff` | src/ktc_mail_admin/audit_export.py:68-110 | The event `audit_log` was given, with "-" for an empty address, is what reading from the old end of any log yields, at the new end's offset, if and only if no field holds a tab or a line end and the timestamp does not start with '#'. |
| `AuditExport.CollectNew` | src/ktc_mail_admin/audit_export.py:95-110 | The events at or after an offset, each with the offset just past its line. |
| `AuditExport.CursorComposes` | src/ktc_mail_admin/audit_export.py:95-110 | For a log of whole lines without "\r\n", reading from event i's offset yields exactly the events after the i-th of a full read. |
| `AuditExport.AllAppended` | src/ktc_mail_admin/audit_export.py:95-110 | Appending whole lines without "\r\n" adds their events and disturbs nothing before them. |
| `AuditExport.CursorReachesEndIff` | src/ktc_mail_admin/audit_export.py:103-110 | When the last line holds an event, the cursor after a full read stands at the end of the file if and only if no line ends in "\r\n", which text mode shortens. |
| `AuditExport.SavedPosLoads` | src/ktc_mail_admin/audit_export.py:113-131 | A saved cursor is loaded back, for every cursor. |
| `AuditExport.Exporter.RunOnce` | src/ktc_mail_admin/audit_export.py:203-243 | One run under any fault: what each destination received, the number of events forwarded counted per destination, and a cursor that moves to the batch's end only when nothing failed; a failed run leaves the cursor file. |
| `AuditExport.Exporter.Send` | src/ktc_mail_admin/audit_export.py:226-239 | The sending part: syslog first, then SIEM, each all, a prefix or nothing, and the number forwarded, the batch's size once per destination. |
| `AuditExport.HighWaterMeans` | src/ktc_mail_admin/audit_export.py:203-243 | A destination with a high-water mark m has been given exactly the first m events, none before every earlier one. |
| `AuditExport.EveryHistorySkipsNothing` | src/ktc_mail_admin/audit_export.py:203-243 | Over every interleaving of appends of whole lines without "\r\n", runs, failures after any delivered prefix and crashes, each destination holds an initial segment of the log that covers the cursor, with first occurrences in log order. |
| `AuditExport.EveryHistoryCovers` | src/ktc_mail_admin/audit_export.py:203-243 | Over the same interleavings with line ends of any kind, "\r\n" included, the cursor stays inside the file, every destination was sent every event in front of the cursor, and a history that ends in a completed run has sent every event of the log. |
| `AuditExport.CrLfRereads` | src/ktc_mail_admin/audit_export.py:95-110 | But with two lines ending in "\r\n" in front of a last event line, the cursor falls two short and the next run reads the last character of that line as an event of its own. |
| `AuditExport.NoFailuresNoDuplicates` | src/ktc_mail_admin/audit_export.py:203-243 | A failure-free history of such appends that ends in a run has delivered every event of the log exactly once, in order. |
| `UserStore.ParseFormatted` | src/ktc_mail_admin/user_manager.py:47-81 | Parsing a written passwd line gives back the address, the hash and the stored form of the quota. |
| `UserStore.PrefixIsEquality` | src/ktc_mail_admin/user_manager.py:192-221 | A prefix test up to a separator is equality of what stands before it. |
| `UserStore.PasswdLineOf` | src/ktc_mail_admin/user_manager.py:47-81 | `address + ":"` begins a user's passwd line if and only if it is that user's address, and the line parses back to the user. |
| `UserStore.UserManager.Add` | src/ktc_mail_admin/user_manager.py:128-189 | `user_add`: the new files and exit status, with every refusal, the dry run and the exception for an address without '@'. |
| `UserStore.ValidatedIff` | src/ktc_mail_admin/user_manager.py:35-44 | An address is accepted if and only if it has a character that is not white space and holds none of ':', newline, carriage return and NUL. |
| `UserStore.ValidatedIsFolded` | src/ktc_mail_admin/user_manager.py:35-44 | An accepted address is the given one without white space at its ends and without upper-case ASCII letters. |
| `UserStore.ValidatedAlikeIff` | src/ktc_mail_admin/user_manager.py:35-44 | Two accepted addresses are the same user if and only if, stripped, they differ at most in the case of ASCII letters. |
| `UserStore.AddedOnce` | src/ktc_mail_admin/user_manager.py:128-189 | After a successful add to files in order, adding any spelling of the address that differs only in case fails and leaves all three files as they are. |
| `UserStore.UserManager.Delete` | src/ktc_mail_admin/user_manager.py:192-220 | `user_delete`: every line of the address leaves the three files, or the call is refused and nothing changes. |
| `UserStore.UserManager.Passwd` | src/ktc_mail_admin/user_manager.py:244-302 | `user_passwd`: the address's line gets the new hash and keeps its quota and place, all else is unchanged, and every early exit leaves the file alone. |
| `UserStore.UserManager.Rewrite` | src/ktc_mail_admin/user_manager.py:256-290 | The rewriting loop, with the points where it returns or raises midway. |
| `UserStore.PasswdRewrites` | src/ktc_mail_admin/user_manager.py:256-290 | A readable line that is the address, a colon and anything is written anew with the new hash and the quota that was read; every other line is kept. |
| `UserStore.FoundIff` | src/ktc_mail_admin/user_manager.py:262-270 | The address counts as found if and only if some line is the address, a colon and anything. |
| `UserStore.DefaultQuota` | src/ktc_mail_admin/user_manager.py:65-71 | A line without a quota field is read as one gigabyte. |
| `UserStore.StepRefines` | src/ktc_mail_admin/user_manager.py:128-302 | On files that render a list of users, each call leaves the files that render the list the abstract call leaves, with the same exit status. |
| `UserStore.FilesRefineStore` | src/ktc_mail_admin/user_manager.py:128-302 | So under every sequence of add, delete and passwd the three files are one abstract store, with unique addresses. |
| `UserStore.StepKeeps` | src/ktc_mail_admin/user_manager.py:128-302 | Addresses stay unique; a password change keeps every user's place, address and quota, and every other user's hash. |
| `UserStore.AddThenDeleteRestores` | src/ktc_mail_admin/user_manager.py:128-220 | Adding a user and deleting it restores all three files byte for byte. |
| `UserStore.AddedReadsBackIff` | src/ktc_mail_admin/user_manager.py:128-165 | After a successful add to files in order, the passwd file as it is read back lists the user with the address, hash and quota given if and only if address and quota are one line each, the address is no comment and the quota has no '=', no "::" and no trailing white space; and then it lists that user after everybody else and nothing more. |
| `UserStore.QuotaIsCutAtNewline` | src/ktc_mail_admin/user_manager.py:159-165 | Any quota with a newline is cut there, when its first part is one line: the passwd file lists the users before, one line with the stored form of that first part as the quota, and then whatever lines the rest makes. |
| `UserStore.NewlineQuotaIsNotReadBack` | src/ktc_mail_admin/user_manager.py:159-165 | Of the quota "1\n2" only "1" is read back. |
| `UserStore.DeleteLeavesMaps` | src/ktc_mail_admin/user_manager.py:210-218 | Whatever addresses the alias and mailbox files list, a successful delete leaves in each exactly the entries it does not take: the address's own, those whose address goes on with a space after it, and those it goes on after with a space and the start of their value. |
| `UserStore.AliasLostIff` | src/ktc_mail_admin/user_manager.py:210-218 | In the alias file that deleting an address without a space leaves, another listed address's entry is missing if and only if that address goes on with a space after the deleted one. |
| `UserStore.HomeIsLocalFirst` | src/ktc_mail_admin/user_manager.py:74-81 | The home directory is local part first; it is the documented one if and only if the two parts, each with a slash after it, repeat one string, which for addresses without a slash means that they are equal. |
| `LoginLimiter.MemoryLimiter.Check` | src/ktc_mail_admin/admin_server.py:597-613 | The in-memory check keeps exactly the attempts of the last 60 seconds and blocks if and only if they are five or more. |
| `LoginLimiter.MemoryLimiter.Record` | src/ktc_mail_admin/admin_server.py:616-625 | A failure is appended to the address's list, nobody else's list moves. |
| `LoginLimiter.MemoryLimiter.Clear` | src/ktc_mail_admin/admin_server.py:628-635 | The address's history is forgotten. |
| `LoginLimiter.RedisCheckMeans` | src/ktc_mail_admin/admin_server.py:597-606 | The Redis check blocks if and only if the key is alive and holds five or more different moments of the last 60 seconds. |
| `LoginLimiter.RedisRecordMeans` | src/ktc_mail_admin/admin_server.py:616-622 | Recording in Redis adds the moment, keeps what the live key held, lets it live 70 seconds more, and touches no other key. |
| `LoginLimiter.BackendsAgree` | src/ktc_mail_admin/admin_server.py:597-635 | From agreeing records in which every moment held twice is followed by five different ones, for any calls with a clock that does not go back and no failure at a moment already held for its address, the Redis and the in-memory limiter answer every check alike, key expiry included. |
| `LoginLimiter.AgreementIff` | src/ktc_mail_admin/admin_server.py:597-635 | From agreeing records, all such continuations are answered alike if and only if, for every address, each moment held twice inside the window has five different moments at or after it. |
| `LoginLimiter.FreshBackendsAgree` | src/ktc_mail_admin/admin_server.py:597-635 | From a fresh start they agree on every run without two failures of one address at one moment. |
| `LoginLimiter.TiesDiverge` | src/ktc_mail_admin/admin_server.py:616-625 | Without distinct times they part: five failures at one moment block in memory and not in Redis. |
| `LoginLimiter.AtMostFiveFailures` | src/ktc_mail_admin/admin_server.py:892-1034 | With check and record of a request atomic, over any requests to `/login` and `/login/mfa`, unrecorded ones included, no half-open 60-second window since the last clear holds more than five recorded failures of an address. |
| `LoginLimiter.LogInDoes` | src/ktc_mail_admin/admin_server.py:892-1034 | One request is blocked exactly when five or more attempts of the last 60 seconds are held; otherwise a wrong one is recorded, a right one clears the address, and any other only drops what is older. |
| `LoginLimiter.BlockedIff` | src/ktc_mail_admin/admin_server.py:597-635 | In every history a request is blocked if and only if its address has five or more recorded failures of the last 60 seconds since the last clear. |
| `LoginLimiter.RedisBlockedIff` | src/ktc_mail_admin/admin_server.py:597-635 | With Redis, if and only if it has recorded failures at five or more different moments of the last 60 seconds. |
| `LoginLimiter.RedisAtMostFiveMoments` | src/ktc_mail_admin/admin_server.py:597-635 | With the Redis backend, over any such requests, no half-open 60-second window since the last clear holds recorded failures of an address at more than five different moments. |
| `LoginLimiter.RedisAtMostFiveFailures` | src/ktc_mail_admin/admin_server.py:597-635 | So the bound on recorded failures is the same as in memory when no two recorded failures of the address since the last clear fell on one moment. |
| `BreakGlass.Store.IssueToken` | src/ktc_mail_admin/breakglass.py:82-113 | Issuing replaces the record by one with the digest of the stripped, upper-cased token that expires `ttl` after now. |
| `BreakGlass.Store.ConsumeToken` | src/ktc_mail_admin/breakglass.py:116-139 | Succeeds exactly on an unused, unexpired record with the digest of the stripped, upper-cased token, names its operator and wipes it if unlinking works; otherwise changes nothing. |
| `BreakGlass.Store.ClearToken` | src/ktc_mail_admin/breakglass.py:142-147 | Revokes whatever is outstanding, if unlinking works. |
| `BreakGlass.FoldedAlikeIff` | src/ktc_mail_admin/breakglass.py:51-53 | Two tokens are hashed alike before the digest if and only if, stripped, they have equal length and at each place the same character or the two cases of one ASCII letter. |
| `BreakGlass.ConsumeSucceedsIff` | src/ktc_mail_admin/breakglass.py:82-147 | In every history, with a digest that tells the tokens that occur apart, a consume succeeds if and only if the latest issue, clear or wiping success is an issue of the same token, up to white space at its ends and the case of ASCII letters, and now is before its expiry. |
| `BreakGlass.SingleUse` | src/ktc_mail_admin/breakglass.py:116-139 | Between two successes, the first of which wiped the record, a token was issued. |
| `BreakGlass.UnwipedSucceedsAgain` | src/ktc_mail_admin/breakglass.py:134-139 | The next submission of the same token before the expiry succeeds if and only if the wipe failed. |
| `Mfa.TruncateReads` | src/ktc_mail_admin/mfa.py:39-45 | Truncation reads four bytes inside the 20-byte digest, most significant first, and drops exactly the top bit (section 5.3 of RFC 4226). |
| `Mfa.HotpIsDigits` | src/ktc_mail_admin/mfa.py:27-45 | A code is exactly `digits` decimal characters and decodes to the truncated value modulo 10^digits. |
| `Mfa.SixDigits` | src/ktc_mail_admin/mfa.py:23-45 | With six digits the code is six decimal characters and decodes to the truncated value modulo a million. |
| `Mfa.VerifyTotp` | src/ktc_mail_admin/mfa.py:64-94 | True if and only if the code is ASCII, the first counter of the window can be packed and some step of the window has this code; false if and only if it is ASCII, the whole window can be packed and no step has it; otherwise it raises. |
| `Mfa.VerdictWritten` | src/ktc_mail_admin/mfa.py:64-94 | The verdict written out: true for an ASCII code of some step of a window that does not begin before zero; false for an ASCII code of none, when the window also stays below 2^64; otherwise the check raises. |
| `Mfa.CodeLifetime` | src/ktc_mail_admin/mfa.py:48-94 | A code minted at t is accepted by `verify_totp` at every t' at most interval*window away whose step is at least `window`, and from interval*(window+1) away only if a code of another step in the window coincides. |
| `Mfa.VerifyAndConsume` | src/ktc_mail_admin/mfa.py:204-228 | Succeeds exactly when the hash is stored, and then removes exactly its first occurrence. |
| `Mfa.CodesConserved` | src/ktc_mail_admin/mfa.py:204-228 | Over any sequence of submissions, generated codes are the remaining and the used ones as multisets, and what remains keeps its order. |
| `Mfa.NoCodeTwice` | src/ktc_mail_admin/mfa.py:204-228 | No code is accepted more often than it was generated. |
| `AdminSessions.Server.ServeLoginPage` | src/ktc_mail_admin/admin_server.py:874-890 | GET /login empties an authenticated session of another version and changes nothing else. |
| `AdminSessions.Server.ServeLogin` | src/ktc_mail_admin/admin_server.py:892-950 | POST /login: refusals, the pending state when a second factor is on, the full sign-in when it is off. |
| `AdminSessions.Server.ServeLoginMfa` | src/ktc_mail_admin/admin_server.py:952-1047 | POST /login/mfa: limiter, form token, expiry of the pending password, missing secret, one-time password, recovery code with its removal. |
| `AdminSessions.Server.ServeLoginBreakGlass` | src/ktc_mail_admin/admin_server.py:1049-1082 | POST /login/break-glass signs in as operator exactly on a consumed token. |
| `AdminSessions.Server.ServeChangePassword` | src/ktc_mail_admin/admin_server.py:1297-1348 | The password changes only for an admitted admin who repeats the current one. |
| `AdminSessions.Server.ServeMfaEnable` | src/ktc_mail_admin/admin_server.py:1354-1394 | The second factor is switched on only with a code of the stored secret, and the version moves on. |
| `AdminSessions.Server.ServeMfaDisable` | src/ktc_mail_admin/admin_server.py:1396-1422 | Switching off also forgets the secret, and the version moves on. |
| `AdminSessions.Server.ServeMfaRecovery` | src/ktc_mail_admin/admin_server.py:1424-1460 | New recovery codes replace the old, and the version moves on. |
| `AdminSessions.Server.ServeMfaInit` | src/ktc_mail_admin/admin_server.py:1462-1502 | A new secret and codes replace the old, the second factor is off, and the version moves on. |
| `AdminSessions.AdmitsIff` | src/ktc_mail_admin/admin_server.py:806-821 | Admission asks for an authenticated session with no second factor open and the role admin, admin or operator, or any of the three; a missing role counts as read-only. |
| `AdminSessions.LoginDoes` | src/ktc_mail_admin/admin_server.py:892-950 | POST /login signs in exactly with an unlimited address, a good form token and a right password on an account without a second factor, and says which address, role and version; with a second factor it remembers the address and the time; otherwise it does nothing. |
| `AdminSessions.LoginMfaAccepts` | src/ktc_mail_admin/admin_server.py:952-1047 | POST /login/mfa, asked within 300 seconds with the current one-time password or else a stored recovery code, signs the pending address in with the account's role and version, forgets the pending step, and removes the recovery code that was used. |
| `AdminSessions.LoginMfaRefuses` | src/ktc_mail_admin/admin_server.py:952-1047 | In every other case it signs nobody in and changes nothing but to forget a pending step older than 300 seconds. |
| `AdminSessions.LoginBreakGlassDoes` | src/ktc_mail_admin/admin_server.py:1049-1082 | POST /login/break-glass signs in the stored record's operator exactly with a good form token and the unused, unexpired token, and wipes the record if unlinking works. |
| `AdminSessions.LoginPageDoes` | src/ktc_mail_admin/admin_server.py:870-884 | GET /login empties exactly the authenticated sessions whose version, -1 when missing, is not the account's. |
| `AdminSessions.ChangePasswordDoes` | src/ktc_mail_admin/admin_server.py:1297-1351 | The password changes exactly for an admin with a good form token who repeats the current password and gives the new one twice with at least eight characters. |
| `AdminSessions.FactorEditsDo` | src/ktc_mail_admin/admin_server.py:1354-1503 | What enabling, disabling, regenerating codes and starting over each ask for and write, with the version one higher exactly when they do. |
| `AdminSessions.CommandsDo` | src/ktc_mail_admin/admin_server.py:235-250 | The operator commands: issuing and revoking a token change that record only, and bootstrapping starts the account over as an admin without a second factor at version 0. |
| `AdminSessions.SignsInIff` | src/ktc_mail_admin/admin_server.py:892-1082 | A request authenticates an unauthenticated session if and only if it is one of the three sign-ins. |
| `AdminSessions.TwoStepsSignIn` | src/ktc_mail_admin/admin_server.py:892-1047 | In every run, a right password on an account with a second factor, followed on the cookie it returned within 300 seconds by an accepted code, ends in a session signed in as the address the password came with. |
| `AdminSessions.AuthenticatedHasOrigin` | src/ktc_mail_admin/admin_server.py:892-1082 | Over every interleaving of requests and replayed cookies, each authenticated session descends from a password sign-in with the second factor off, a password and within 300 seconds a one-time password or unused recovery code, or a break-glass use, and still carries the address and role given there. |
| `AdminSessions.EnabledHasSecret` | src/ktc_mail_admin/admin_server.py:1354-1502 | Every reachable account with the second factor on has a secret, and no reachable version is negative. |
| `AdminSessions.EditsComeFromAdmins` | src/ktc_mail_admin/admin_server.py:806-821 | A request changes the password, the secret or whether the second factor is on only for a session that descends from a sign-in with the password made while the account was admin; never for a break-glass session. Recovery codes are not meant here. |
| `AdminSessions.CodesComeFromOperators` | src/ktc_mail_admin/admin_server.py:1424-1502 | The recovery codes are replaced only for a session that descends from a sign-in with the password made while the account was admin or operator, or from a break-glass sign-in, and for the latter never together with the secret. |
| `AdminSessions.VersionsGrow` | src/ktc_mail_admin/admin_server.py:1354-1502 | Without a bootstrap the version never falls, and stays exactly when nobody changed the second factor or its codes. |
| `AdminSessions.SurvivorsSawNoMfaChange` | src/ktc_mail_admin/admin_server.py:794-804 | A session still signed in after GET /login was stamped by a sign-in since which, bootstraps aside, nobody changed the second factor. |
| `AdminSessions.VisitSignsOutIff` | src/ktc_mail_admin/admin_server.py:794-804 | One request ends an authenticated session if and only if it is GET /login served while the account is at another version than the session. |
| `AdminSessions.StaysSignedInIff` | src/ktc_mail_admin/admin_server.py:794-821 | Along any path of requests that sign nobody in, an authenticated cookie stays authenticated if and only if none of them is GET /login served at another version than the cookie's. |
| `AdminSessions.MfaChangeEndsSessionIff` | src/ktc_mail_admin/admin_server.py:794-821 | So, bootstraps aside, changing the second factor or its codes ends a session signed in before if and only if that session meets GET /login after the change. |
| `AdminSessions.OldCookieStillAdmitted` | src/ktc_mail_admin/admin_server.py:806-821 | The run that shows it: sign in, turn the second factor off, and the first cookie, now of another version, is still admitted as admin and edits the account again. |
| `AdminSessions.RecoveryConserved` | src/ktc_mail_admin/admin_server.py:998-1024 | Between regenerations, stored codes then are stored codes now plus the codes that signed somebody in, as multisets. |
| `AdminSessions.BreakGlassWasIssued` | src/ktc_mail_admin/admin_server.py:1049-1082 | In every run that starts without a record, with a digest that tells issued and submitted tokens apart, a break-glass sign-in presents, before its expiry, a token issued earlier, up to white space at its ends and the case of ASCII letters, and becomes the operator it was issued to. |
| `AdminSessions.BreakGlassBounded` | src/ktc_mail_admin/admin_server.py:1049-1082 | If every use wipes the record, break-glass sign-ins plus the outstanding token never exceed the tokens issued. |

## Left out

- RateLimiter.IntervalBound: times are real numbers from one clock that does not go back, as `time.monotonic` promises; the decision string is a value that names the window instead of the limit's number.
- PolicyProtocol.HandleClient: bytes are characters, so decoding with replacement is not modelled; socket errors, which end a connection silently, are not either.
- DnsRecords.KeyStringIsFaithful: SHA-256 is any function; the keys of the model carry the value itself, which is what the truncated digest stands for when it tells the values present apart.
- DnsSync.SyncConverges: names are in normal form and each side has one record per type and name; providers' own spelling of values, pagination, zone lookup and HTTP errors other than a refused delete are not modelled. `DnsReconcile` covers duplicates, where exact addressing still settles, and `DnsFirstMatch.FirstMatchSettlesIff` says exactly when first-match addressing does.
- DnsFirstMatch.FirstMatchSettlesIff: nobody else writes to the zone between the syncs, and the local records are unproxied, as src/ktc_mail_admin/config.py:157 demands of mail records.
- DnsJson.RecordRoundTripIff: upper-casing is ASCII; JSON text itself is not modelled, only the mapping.
- DnsProfile.GenerateDnsRecords: the eight SRV `add` calls, written out in the program, are made from a table in the same order.
- AuditExport.EveryHistorySkipsNothing: fixed destinations, appends of whole lines without "\r\n", no rotation or truncation; decoding errors, which would shift offsets, are not modelled. `AuditExport.CursorReachesEndIff`, `AuditExport.EveryHistoryCovers` and `AuditExport.CrLfRereads` say what "\r\n" does. A cursor file holding anything but decimal digits counts as zero, although `int` accepts a few other spellings.
- UserStore.FilesRefineStore: operations run to completion (no crash between the three file writes) and added addresses and quotas are manageable: storable, by `UserStore.AddedReadsBackIff` exactly those that are read back, and without a space in the address, by `UserStore.DeleteLeavesMaps` what deletes need. Lower-casing is ASCII.
- UserStore.UserManager.Add: prompts and doveadm appear as one optional hash; creating the maildir and reloading dovecot have no effect on the files.
- LoginLimiter.BackendsAgree: Redis expires keys by the program's own clock, and different times have different decimal spellings.
- LoginLimiter.AtMostFiveFailures: check and record of one request are one step; concurrent requests between them are not modelled, nor is a switch of backend.
- BreakGlass.ConsumeSucceedsIff: the digest tells apart the folded tokens that occur; a record file damaged by hand, which reads as no record, is not modelled.
- Mfa.VerifyTotp: HMAC-SHA1 is any function to twenty bytes; base32 decoding, which raises for a damaged secret, and the timing of comparisons are not modelled.
- AdminSessions.AuthenticatedHasOrigin: the verdicts of the login limiter, of the form token and of the password and one-time-password checks are inputs; each request is one step, also `/login/mfa`, which awaits its form after asking the limiter. The login time and the form token in the session are not modelled.
- AdminSessions.BreakGlassBounded: assumes that every use manages to unlink the record, without which `BreakGlass.UnwipedSucceedsAgain` applies.
- AdminSessions.SurvivorsSawNoMfaChange: a bootstrap writes version 0 again and is set apart for that reason.
- Not modelled: the senders' wire formats, the daemon loop with its signals, PID file and health thread, `user_list`, the firewall, fail2ban, certificate, backup and template modules, and the command-line and web layers around them; they are text templates or thin wrappers with no state of their own.
- Not modelled: API keys and the log viewer's tail reading; saving and loading keys use different JSON shapes and the tail reader does not rejoin lines split across blocks, so neither has a round trip to prove.
