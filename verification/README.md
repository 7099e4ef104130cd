# Boron's stateful core, modelled and proved in Dafny

Boron is a hosting panel: one daemon changes DNS zones, replicates them, limits databases, writes configuration
files, runs backups and edits crontabs, while providers fail, messages get lost and tenants interfere. This project
models the parts of it in which state is changed in several steps that can stop anywhere, and proves what holds
whatever step fails.

## How the model is laid out

Every file models one component and can be read on its own.

| file | models | main results |
|---|---|---|
| `Text.dfy` | Python's string methods used below | round trips the other files need |
| `CloudflareValues.dfy` | translation between record values and Cloudflare's fields | inverse of quoting, when canonicalising is idempotent |
| `CloudflareMeaning.dfy` | what a value says and what a record stores | `ReadsExactly`, `SaysExactly` |
| `CloudflareStore.dfy` | an atomic REPLACE emulated over one object per value | `Upsert`, `WriteThenList`, `Rerun` |
| `ZoneView.dfy`, `ZoneLifecycle.dfy` | two providers, resyncs, transitions, staged migration | `Run`: one record map changed only by writes; `WriteThenList` |
| `ZoneLookup.dfy` | which managed zone covers a name | `FindManagedZone` |
| `ClusterBatch.dfy` | notifications coalesced over a batch | `ToldWhatHappened`, `Notifier.Run` |
| `ClusterReceiver.dfy`, `ClusterProtocol.dfy` | a coalescing outbox, lost messages, a receiver with receipts | `NoLostUpdate` and its exact limits, `Replicate` |
| `ClusterProvenance.dfy` | which remote zones may be overwritten | `ForeignZonesAreSpared` |
| `DbGovernor.dfy` | native limits kept equal to durable policy by compensation | `Run`: only named logins can disagree |
| `ConfigTx.dfy` | several configuration files as one transaction | `Apply`, `RunAll` |
| `BackupQueue.dfy` | admission, workers and retention | `Run` over all interleavings |
| `DomainWelcome.dfy` | a placeholder removed under a tenant's hands | `Run` over all interleavings |
| `RateLimit.dfy` | pruned queues against the full log | `Serve`, `AnswersAreRight` |
| `SqlCleaner.dfy` | a chunked cleaner against a line-at-a-time one | `StreamClean` |
| `Cron.dfy` | a table edited in place against a list of jobs | `UpdatesExactly`, `Crontab.Run` |
| `DnsEditor.dfy` | diff, preview and patch of a zone | `PatchIsExact`, `PreviewThenApply` |
| `AccountPool.dfy` | a pool with a cached count | `Run`, `EnableMany` |

Calls that can fail consume a `script` of booleans, one per call, so that a contract holds for every pattern of
failures; contracts also say what happens when none fails. Where others act at the same time, their steps are
scripted too (`gaps`, `others`), between any two steps of the component, or the component is a state machine over
all its steps. A few places where the code and what it promises part are stated as exact conditions, with an input
or a run that shows the failure: text still quoted after two unquotes, a revert that cannot commit and leaves a zone
stranded, late requests, an interleaved existence check, a zone deleted and made again within one batch, a backup
that fails after completing, a retention pass that dies, characters that split lines, schedules with six fields,
markers that head no job, a zone edit whose clean-up fails, and a single configuration file that did not exist.

## Model

| member | source | states |
|---|---|---|
| `CloudflareValues.UnescapeText` | daemon/cloudflare.py:280-290 | the index loop over escapes computes the recursive `Unescape` |
| `CloudflareValues.UnescapeEscape` | daemon/cloudflare.py:280-302 | taking the escapes out of an escaped text gives the text back, for every text |
| `CloudflareValues.UnquoteQuote` | daemon/cloudflare.py:293-302 | `_unquote_txt(_quote_txt(s)) == s` for every s |
| `CloudflareValues.TxtCanonical` | daemon/cloudflare.py:305-370 | a TXT value goes through two unquotes and one quote on its way in and out |
| `CloudflareValues.CanonicalIdempotent` | daemon/cloudflare.py:365-370 | `_canonical_value` is idempotent on an accepted value of any type if and only if it is not TXT text that is still wrapped in quotes after two unquotes |
| `CloudflareValues.TripleQuotedCounterexample` | daemon/cloudflare.py:365-370 | a TXT value quoted three times changes again when canonicalised a second time |
| `CloudflareValues.PatchReadsCanonical` | daemon/cloudflare.py:305-370 | updating any stored record of the type with a value's fields, whatever fields it had, makes it read as that value's canonical form |
| `CloudflareValues.MeaningSurvives` | daemon/cloudflare.py:305-370 | canonicalising never changes the text a value stands for once every layer of quotes is off |
| `CloudflareValues.MeaningIsCanonical` | daemon/cloudflare.py:365-370 | that meaning is the canonical form itself exactly for the values on which canonicalising is idempotent |
| `CloudflareValues.LabelRoundTrip` | daemon/dns_zone_lookup.py:23-26 | `_record_name(zone, label_within_zone(n, zone)) == n` if and only if n is the apex or a proper name below it |
| `CloudflareMeaning.UnquotesExactly` | daemon/cloudflare.py:280-297 | `_unquote_txt` takes off exactly one layer of double quotes, with whitespace around it and escapes within, if there is one |
| `CloudflareMeaning.ReadsExactly` | daemon/cloudflare.py:342-362 | a stored record of any type reads as the panel's text for something if and only if its fields hold it: priority, weight, port, flags, tag, the host up to dots behind it, the text below one layer of quotes; whatever else the fields hold |
| `CloudflareMeaning.CreatedHolds` | daemon/cloudflare.py:305-339 | the record made of an accepted value's request fields holds exactly what the value says |
| `CloudflareMeaning.SaysExactly` | daemon/cloudflare.py:305-370 | a value says something, however it is spaced, dotted and quoted, if and only if a record of its type can hold it and the value's canonical form is the panel's text for it |
| `CloudflareMeaning.SpelledSays` | daemon/cloudflare.py:342-370 | the panel's own text says what it was written for, so it is its own canonical form; for TXT exactly if the text is not itself in quotes |
| `CloudflareMeaning.SameCanonical` | daemon/cloudflare.py:365-370 | two values share a canonical form if and only if they say the same, field by field |
| `CloudflareStore.CreateFacts` | daemon/cloudflare.py:409-410 | a created record adds its reading to its rrset and touches no other |
| `CloudflareStore.RemoveFacts` | daemon/cloudflare.py:418-420 | a deleted record takes its reading from its rrset and touches no other |
| `CloudflareStore.FileByReading` | daemon/cloudflare.py:395-402 | the listed records are filed into buckets by the value they read as, each once |
| `CloudflareStore.MidwayMatch` | daemon/cloudflare.py:405-416 | a stored record matched to a value stays and counts for it; what is still unmatched is exactly the old readings less the values done |
| `CloudflareStore.LeftoverStep` | daemon/cloudflare.py:418-420 | deleting an unmatched record never deletes a wanted value |
| `CloudflareStore.GroupedStep` | daemon/cloudflare.py:432-456 | grouping one more record keeps each rrset's values the readings of its records, its TTL one of theirs, and its proxied flag the disjunction of theirs |
| `CloudflareStore.ConvergedIsWrittenOut` | daemon/cloudflare.py:404-420 | a rrset that reads as the canonical forms of values has one record for each, which stores in its fields what the value says, and no other; each has the TTL (at least a minute, or automatic when proxied) and the flag asked for |
| `CloudflareStore.WrittenIsShown` | daemon/cloudflare.py:432-456 | such a rrset is listed with the panel's text of each value, its TTL (an hour when proxied) and its flag; one without records is not listed |
| `CloudflareStore.Cloudflare.Request` | daemon/cloudflare.py:161-167 | a request reaches the zone only under its current id; a fault fails it without effect |
| `CloudflareStore.Cloudflare.CreateZone` | daemon/cloudflare.py:175-192 | a zone is created only where none is, and starts empty |
| `CloudflareStore.Cloudflare.DeleteZone` | daemon/cloudflare.py:195-203 | afterwards the zone is gone, or unchanged if the request failed |
| `CloudflareStore.Cloudflare.Paged` | daemon/cloudflare.py:140-153 | paging returns every record asked for exactly once |
| `CloudflareStore.Cloudflare.WriteValue` | daemon/cloudflare.py:405-416 | one round of the first loop settles one value: matched and patched only if it differs in TTL or proxied flag, or created; no other rrset is touched |
| `CloudflareStore.Cloudflare.WriteValues` | daemon/cloudflare.py:404-416 | after any prefix of the calls the rrset lies between what it was and what is wanted, and nothing is written if it already is as wanted |
| `CloudflareStore.Cloudflare.DeleteExtras` | daemon/cloudflare.py:418-420 | the second loop leaves exactly the wanted values and settings |
| `CloudflareStore.Cloudflare.Upsert` | daemon/cloudflare.py:377-420 | REPLACE from any store: on success the records of the name and type are one per value and store in their fields exactly what the values say, with the TTL and flag asked for, and no other record changed; stopped anywhere the rrset still reads as all the old values or already as all the wanted ones, and nothing beyond the two |
| `CloudflareStore.Cloudflare.Delete` | daemon/cloudflare.py:424-429 | no record of the name and type is left and no other changed; stopped anywhere the rrset has only shrunk |
| `CloudflareStore.Cloudflare.ListRecords` | daemon/cloudflare.py:432-456 | the listing holds exactly the names and types, but the SOA, that some record has, each with its readings, which are the panel's texts of what the records store |
| `CloudflareStore.Cloudflare.WriteThenList` | daemon/cloudflare.py:377-456 | what a completed REPLACE wrote is what a listing after it shows: value by value, with TTL and flag |
| `CloudflareStore.Cloudflare.Rerun` | daemon/cloudflare.py:377-420 | a second run after a first that stopped anywhere converges to the same result; after a completed one it issues no write |
| `ZoneView.MeaningsOfCanonicals` | daemon/cloudflare.py:365-370 | the canonical forms of accepted values mean what the values mean, as multisets |
| `ZoneView.MirrorKeepsView` | daemon/cloudflare_ops.py:415-436 | once Cloudflare mirrors PowerDNS both give the same view, so routing may flip |
| `ZoneView.CopyKeepsView` | daemon/cloudflare_ops.py:439-456 | once PowerDNS is a copy of Cloudflare both give the same view |
| `ZoneView.MirroredIsSame` | daemon/cloudflare_ops.py:407-436 | a mirror has, for every local rrset but a SOA and the zone's own NS (the delegation of a name below it among them), exactly the records that a write of its values and TTL asks for, and none else |
| `ZoneView.CopiedIsSame` | daemon/cloudflare_ops.py:407-456 | a copy has, for every name and type there but those, the texts of what Cloudflare's records store, under a TTL of theirs, and nothing else |
| `ZoneView.MeaningsMatch` | daemon/cloudflare.py:365-370 | values that together mean what others spell mean the same one by one, in some order |
| `ZoneView.CloudWritten` | daemon/dnsprovider.py:172-199 | a routed write to Cloudflare changes the view at its own key only: done, to the meanings of the values given; stopped, to something that still has all of the old ones or already all of the new ones, and nothing else |
| `ZoneView.LocalWritten` | daemon/dnsprovider.py:172-199 | the same for PowerDNS |
| `ZoneLifecycle.Panel.LocalReplace` | daemon/powerdns.py:91-112 | one atomic REPLACE of one rrset, or nothing |
| `ZoneLifecycle.Panel.LocalDelete` | daemon/powerdns.py:115-121 | one atomic DELETE of one rrset, or nothing |
| `ZoneLifecycle.Panel.PushAll` | daemon/cloudflare_ops.py:419-428 | every local rrset but apex NS and SOA is replaced at Cloudflare; a mirror already there is not written to |
| `ZoneLifecycle.Panel.PruneCloud` | daemon/cloudflare_ops.py:429-436 | what PowerDNS does not have is deleted at Cloudflare, apex NS and SOA excepted |
| `ZoneLifecycle.Panel.ResyncOut` | daemon/cloudflare_ops.py:415-436 | from any content at Cloudflare, a completed resync leaves for every local rrset but a SOA and the zone's own NS, child delegations included, exactly the records its values, types and TTL ask for, and no record beside them; the SOA and the zone's own NS are untouched; run again it writes nothing |
| `ZoneLifecycle.Panel.PullAll` | daemon/cloudflare_ops.py:443-450 | every listed rrset is copied to PowerDNS |
| `ZoneLifecycle.Panel.PruneLocal` | daemon/cloudflare_ops.py:451-456 | what Cloudflare does not list is deleted locally, apex NS and SOA excepted |
| `ZoneLifecycle.Panel.ResyncIn` | daemon/cloudflare_ops.py:439-456 | from any local content, a completed resync leaves for every name and type at Cloudflare but those two the values its records store, under a TTL of theirs, and no rrset beside them; the local SOA and the zone's own NS stay |
| `ZoneLifecycle.Panel.ListRecords` | daemon/dnsprovider.py:202-207 | the listing is the view, key by key up to the meaning of the values, unless the zone is stranded, and then it fails |
| `ZoneLifecycle.Panel.Write` | daemon/dnsprovider.py:172-189 | routed by status: at Cloudflare the records become those the values, TTL and flag ask for, the flag only when the rails are ready, and no other record or local rrset changes; in PowerDNS the rrset becomes the values and TTL, and nothing else; in the view a failed one leaves all the old values or already all the wanted ones, and nothing beyond the two |
| `ZoneLifecycle.Panel.Erase` | daemon/dnsprovider.py:192-199 | the same for deletions: done nothing of the name and type is left, failed it has only shrunk |
| `ZoneLifecycle.Panel.Activate` | daemon/cloudflare_ops.py:460-486 | the view is unchanged whichever call fails; the row turns active only when Cloudflare has, record by record, all that crosses, child delegations included |
| `ZoneLifecycle.Panel.Enable` | daemon/cloudflare_ops.py:490-557 | the view is unchanged whichever call fails; an enabled zone has a live Cloudflare zone holding all that crosses; no zone is stranded by it |
| `ZoneLifecycle.Panel.CheckStatus` | daemon/cloudflare_ops.py:561-596 | polling never changes the view and activates exactly when Cloudflare reports it |
| `ZoneLifecycle.Panel.Disable` | daemon/cloudflare_ops.py:600-645 | without force the view is unchanged whichever step fails; after a resync PowerDNS holds what Cloudflare's records stored, child delegations included; from an active zone, with no failing call, it resyncs and deletes, so the zone ends stranded exactly if the row cannot be dropped; in general exactly if it was also resynced (or forced) and deleted at Cloudflare |
| `ZoneLifecycle.Panel.Migrate` | daemon/dnssetup.py:185-236 | staging a copy never changes the view and strands no zone; its source is the provider that serves the zone, and it waits for the delegation, the cluster or nothing as source and target say |
| `ZoneLifecycle.Panel.Verify` | daemon/dnssetup.py:239-304 | switching never changes the view and completes exactly when the target serves, the delegation has moved if it has to, and the cluster is ready if it is the target; it strands a zone only if it cannot commit the row it drops |
| `ZoneLifecycle.Panel.Execute` | daemon/dnsprovider.py:172-207 | each command refines one step of a single record map, and strands a zone only if a revert cannot commit |
| `ZoneLifecycle.Panel.Run` | daemon/cloudflare_ops.py:459-648 | over every run of enabling, writes, polling, staged migration and disabling without force, with any step failing partway, the two stores behave as one record map that only the writes change, and the listing shows that map at every point, unless some revert failed to commit; from then on it never does |
| `ZoneLifecycle.Panel.WriteThenList` | daemon/cloudflare_ops.py:407-648 | what a successful write wrote, the delegation of a name below the zone among it, is what a listing shows, value by value, after any later commands that do not touch the rrset, with moves between the providers and failing calls among them |
| `ZoneLifecycle.StrandedCounterexample` | daemon/cloudflare_ops.py:600-645 | a run, enabling and then a revert whose last session fails, after which the record is in PowerDNS and the listing fails |
| `ZoneLifecycle.Unwritten` | daemon/cloudflare_ops.py:459-648 | a rrset, child delegations included, that no command of the rest of a run writes keeps its values to the end, through every transition |
| `ZoneLifecycle.LastWriteWins` | daemon/cloudflare_ops.py:459-648 | at the end of a run a rrset has the values of the last write to it, if that write succeeded |
| `ZoneLookup.CoveringIsUnique` | daemon/dns_zone_lookup.py:17-20 | zones of one length that cover a name are one zone |
| `ZoneLookup.CoversExactly` | daemon/dns_zone_lookup.py:17-20 | a zone covers the names that are it or have labels and a dot in front of it |
| `ZoneLookup.CoveringNests` | daemon/dns_zone_lookup.py:17-20 | of two zones that cover a name the shorter covers the longer |
| `ZoneLookup.FindManagedZone` | daemon/dns_zone_lookup.py:17-20 | the longest covering zone is found exactly when one covers the name; it lies in every other one, whatever the order of the rows, and a record written there under the label of the name gets that name |
| `ClusterBatch.CoalescedIsComplete` | daemon/dnsprovider.py:49-54 | every zone notified in a batch is pending, and as a deletion exactly if it was deleted at some point |
| `ClusterBatch.ToldWhatHappened` | daemon/dnsprovider.py:49-54 | the action handed over is the last one of the batch if and only if the zone was not deleted and made again |
| `ClusterBatch.RecreatedCounterexample` | daemon/dnsprovider.py:51-52 | a zone deleted and made again in one batch is handed over as deleted |
| `ClusterBatch.Notifier.Notify` | daemon/dnsprovider.py:42-62 | inside a batch a notice only joins it, outside it is queued at once |
| `ClusterBatch.Notifier.End` | daemon/dnsprovider.py:66-84 | an inner batch hands nothing over; the outermost one each zone once, with its coalesced action, dropping one only if the queue fails |
| `ClusterBatch.Notifier.Run` | daemon/dnsprovider.py:42-84 | over every run of notices and nested batches, the storage working, a zone reaches the outbox exactly if it was notified, and what is said of it last is what was notified last, but for zones deleted and then upserted in one batch |
| `ClusterReceiver.ValidatePayload` | daemon/dnscluster.py:707-737 | the loop accepts and cleans exactly what `Validated` does |
| `ClusterReceiver.ValidatedInZone` | daemon/dnscluster.py:707-737 | accepted records lie in the zone, are the records sent but for a dot added to a name without one, and keep their order and number |
| `ClusterReceiver.ValidatedExactly` | daemon/dnscluster.py:707-737 | a payload is accepted if and only if its version, zone, number, names, types, TTLs, values and digest are in order, and its records are then kept as sent under dotted names |
| `ClusterReceiver.DesiredExactly` | daemon/dnscluster.py:776 | what is desired is exactly the last record of each name and type but the SOA, with its own TTL and values |
| `ClusterReceiver.SettledExactly` | daemon/dnscluster.py:775-781 | a zone equals an accepted payload if and only if it has, record for record, each rrset of it but the SOA under its own name, type and TTL, and no other |
| `ClusterReceiver.WelcomeExactly` | daemon/dnscluster.py:740-774 | what a receiver applies is exactly a new event with an acceptable payload whose serial is higher, or equal with the same records, and which names the apex nameservers if the zone has to be created |
| `ClusterReceiver.PlanRemovals` | daemon/dnscluster.py:775-778 | the first half of the change list deletes what is not desired and keeps the SOA |
| `ClusterReceiver.PlanChanges` | daemon/dnscluster.py:775-781 | the change list makes any zone's non-SOA rrsets exactly the desired ones and leaves the SOA alone |
| `ClusterReceiver.OrderedPlus` | daemon/dnscluster.py:761-769 | accepting a fresh payload keeps the accepted ones in order: serials never fall, equal serials carry equal content |
| `ClusterReceiver.PeerZone.ApplyZone` | daemon/dnscluster.py:770-781 | afterwards the non-SOA rrsets equal the payload, whatever was there before; a failed batch changes nothing |
| `ClusterReceiver.PeerZone.ApplyIncoming` | daemon/dnscluster.py:740-794 | an applied upsert leaves every rrset of the message but the SOA in the zone under its own name, type, TTL and values, and no other; only a welcome message of a permitted peer with a proper event id is applied, and while calls work every such one is; a receipted event has no second effect and is told so; the stored serial never decreases |
| `ClusterProtocol.Outbox.Enqueue` | daemon/dnscluster.py:246-257 | a new payload replaces the waiting one under a new event id; each session of the sender and the protocol step of that name share one function of the row |
| `ClusterProtocol.Outbox.Claim` | daemon/dnscluster.py:628-639 | only a job that is not running is taken |
| `ClusterProtocol.Outbox.Complete` | daemon/dnscluster.py:670-674 | a job is only removed by the event id that was sent |
| `ClusterProtocol.Outbox.Recover` | daemon/dnscluster.py:839-843 | after a restart a running job is pending again |
| `ClusterProtocol.ProcessOne` | daemon/dnscluster.py:628-704 | whatever is lost, enqueued meanwhile, or dies, what the worker does on a real outbox and receiver is a path of protocol steps; if the job is gone afterwards the receiver holds its content record for record, and it goes when nothing fails and the message is welcome |
| `ClusterProtocol.InvNext` | daemon/dnscluster.py:628-704 | every step of sender, worker, network and receiver keeps the protocol's invariant |
| `ClusterProtocol.NoLostUpdate` | daemon/dnscluster.py:246-257 | at every step of every run, with re-enqueueing during a send, lost requests and replies and restarts, the outbox holds the latest payload or the receiver's zone holds it record for record |
| `ClusterProtocol.NoLostUpdateLate` | daemon/dnscluster.py:761-769 | the same even if any message ever sent may still arrive, in any order and any number of times, when only upserts with serials that never go back are enqueued |
| `ClusterProtocol.Replicate` | daemon/dnscluster.py:628-704 | the sender and the receiver as they run, over any sequence of changes, worker turns with losses and deaths, and restarts: the last event enqueued is in the outbox, or the receiver's zone holds record for record what it says |
| `ClusterProtocol.LateRequestUndoes` | daemon/dnscluster.py:740-794 | otherwise a late request can undo the latest one: for any two acceptable actions that no zone satisfies at once and that are not rising upserts there is a run that loses the update |
| `ClusterProvenance.InvNext` | daemon/dnscluster.py:420-535 | no call of the panel changes a zone of a third party, and ownership is only claimed for zones it created |
| `ClusterProvenance.ForeignZonesAreSpared` | daemon/dnscluster.py:420-535 | over first sends, skips, failures after creation, observed deletion and retries, no step of the panel overwrites or deletes a zone it did not create |
| `ClusterProvenance.OwnedMeansCreated` | daemon/dnscluster.py:651-691 | `sent-owned` implies that an earlier step of the panel created the zone, and that no third party owns it now |
| `ClusterProvenance.UpsertDelivered` | daemon/dnscluster.py:420-535 | an upsert that nothing disturbs creates the zone where none is and records that, leaves a third party's zone as it is, and writes to one on record as created |
| `ClusterProvenance.DeleteDelivered` | daemon/dnscluster.py:420-535 | a deletion that nothing disturbs takes the zone away exactly if it is on record as created, and forgets it |
| `ClusterProvenance.InterleavedSaveOverwrites` | daemon/dnscluster.py:493-535 | for DirectAdmin this needs check and save not to be interleaved: a four-step run that overwrites a foreign zone otherwise |
| `DbGovernor.Governor.ApplyUser` | daemon/db_governor.py:93-128 | two ALTERs in turn: done, each of the five limits is the policy's, or zero where it sets none; on failure the login has its old limits, or the new portable ones with the old statement time |
| `DbGovernor.Governor.ApplyAll` | daemon/db_governor.py:350-355 | a plan is applied in order, and only logins up to the failing one are touched |
| `DbGovernor.Governor.Undo` | daemon/db_governor.py:142-158 | previous limits are put back in reverse, past failures; whoever is not named has them |
| `DbGovernor.Restored` | daemon/db_governor.py:142-158 | undoing the applied part brings back every login that was in order and is not named |
| `DbGovernor.GovernedAfter` | daemon/db_governor.py:332-392 | carrying out a plan leaves exactly the limits of the new durable state |
| `DbGovernor.GovernedIsKept` | daemon/db_governor.py:93-176 | logins in order have, limit by limit, their account's policy while it and the governor enforce, and no limits otherwise |
| `DbGovernor.Governor.Transition` | daemon/db_governor.py:350-392 | the saga: all targets installed and committed, or every login outside the named ones as before; one failure names nobody |
| `DbGovernor.Governor.SetGlobalMode` | daemon/db_governor.py:332-392 | done, the mode is changed and every owned login not named has, limit by limit, what that mode and its policy promise; rolled back, nothing durable changed and only the named can disagree; a single failing ALTER, commit or unsupported limit names nobody |
| `DbGovernor.Governor.SavePolicy` | daemon/db_governor.py:395-462 | done under enforcement with an enforcing policy, every login of the account has each limit the policy sets and zero for the others; rolled back, nothing durable changed and only the named can disagree; refused exactly when the account has no logins |
| `DbGovernor.Governor.ResetPolicy` | daemon/db_governor.py:466-499 | the same for dropping a policy, after which the account's logins have no limits |
| `DbGovernor.Governor.AddUser` | daemon/db_governor.py:185-193 | a new login has, limit by limit, what its account's policy promises before it is recorded, or is not recorded; all other logins stay |
| `DbGovernor.Governor.ReconcileAccount` | daemon/db_governor.py:196-206 | reinstalling the effective limits never puts a login in doubt, and takes the account's out of it when it completes |
| `DbGovernor.Governor.ReconcileAll` | daemon/db_governor.py:209-226 | a pass without failures leaves every owned login with its effective limits, whatever was left in doubt |
| `DbGovernor.Governor.Run` | daemon/db_governor.py:331-499 | over every run of commands with any failing calls, mode, policies and logins are what the commands that went through made of them, and an owned login that no raised error named has, limit by limit, its account's policy while it and the mode enforce and zero otherwise; with one failure per command nobody is named |
| `DbGovernor.Governor.Perform` | daemon/db_governor.py:331-499 | one command goes through or changes nothing durable; with no failing call it goes through unless the account has no logins or the login exists |
| `ConfigTx.Host.BackUp` | daemon/configtx.py:258-264 | every existing target is copied under a fresh name |
| `ConfigTx.Host.Replace` | daemon/configtx.py:267-269 | the temporary files move onto their targets, one by one |
| `ConfigTx.Host.Restore` | daemon/configtx.py:284-288 | every target gets its prior content or absence back |
| `ConfigTx.Settled` | daemon/configtx.py:235-294 | with all targets replaced the configuration is the updated one, with none the old one, and no temporary file of a target is left |
| `ConfigTx.Host.Apply` | daemon/configtx.py:235-294 | for any answers of validate, reload and verify: the new contents are all there exactly when the result is ok (or a callable raised with them in place), otherwise all prior ones; no temporary file of a target remains; the service, if it ran on the files that were there, runs on those that are there now exactly when no reload raised with the new files in place, and none that followed a failed verification went badly |
| `ConfigTx.Host.ApplyOne` | daemon/configtx.py:130-191 | the single-file writer does the same, except that a rollback to a file that had not existed does not reload, so the service stays on the new file if it had taken it |
| `ConfigTx.Host.RunAll` | daemon/configtx.py:231-294 | over every run of multi-file transactions the configuration is exactly what the transactions that took have made it, the last reload was asked for with exactly these files, and the service runs on them unless some transaction strayed, and at any rate after an applied one |
| `ConfigTx.PruneBackups` | daemon/configtx.py:56-71 | the loop and its running counters compute which backups stay |
| `ConfigTx.WithinBudgets` | daemon/configtx.py:56-71 | what stays is at most 32 files and 64 MiB |
| `ConfigTx.NewestAreKept` | daemon/configtx.py:56-71 | the newest files all stay as long as they fit together, and so does whatever is to be preserved |
| `RateLimit.WindowBound` | api/ratelimit.py:88-106 | no half-open window of the tier's length, anywhere, holds more than the tier's limit |
| `RateLimit.RetryIsExact` | api/ratelimit.py:97-99 | a rejected request is admitted after waiting d if and only if d reaches the expiry of the limit-th latest admission |
| `RateLimit.PrunedCount` | api/ratelimit.py:94-97 | a pruned queue holds exactly the admissions of the current window |
| `RateLimit.ChargeKeepsRegular` | api/ratelimit.py:97-100 | admitting under the limit keeps every admission a whole window away from the limit-th one after it |
| `RateLimit.EveryWindowBounded` | api/ratelimit.py:192-221 | over every interleaving of requests each bucket is charged at most its limit in any window; for an address in the authenticated tier these are the requests that reach a credential check |
| `RateLimit.RotationDoesNotHelp` | api/ratelimit.py:192-221 | one address bucket gets at most 300 authenticated admissions per minute, whatever credentials it presents |
| `RateLimit.AnswersAreRight` | api/ratelimit.py:55-221 | over every run: of POSTs to /login and /login/2fa, with or without a credential, an address passes at most 10 in any half-open 300 seconds; to /change-password 5 in 3600; other requests without a credential 30 in 60, with one 300 in 60, and a credential 300 in 60; /healthz and /static are free; each is rejected exactly when its number has passed, and told the first moment at which it would pass |
| `RateLimit.RetryIsLeast` | api/ratelimit.py:97-99 | the Retry-After of a rejection is at least a millisecond and, from then on, exactly the wait after which it is admitted |
| `RateLimit.IdleIsForgotten` | api/ratelimit.py:108-114 | forgetting a bucket idle for the longest window loses nothing that can count |
| `RateLimit.Limiter.Check` | api/ratelimit.py:88-106 | the decision and the Retry-After are those of the full admission log, every admission is logged, and every 4096th leaves no bucket without an admission in the last hour |
| `RateLimit.Limiter.Sweep` | api/ratelimit.py:108-114 | only buckets idle for an hour go, and the rest represents the log as before |
| `RateLimit.Limiter.Begin` | api/ratelimit.py:192-212 | classification and first check refine one step of the limiter that forgets nothing, whose answers `AnswersAreRight` pins down on paths and numbers |
| `RateLimit.Limiter.Finish` | api/ratelimit.py:213-221 | so does the credential check, which only a request admitted by its address reaches |
| `RateLimit.Limiter.Serve` | api/ratelimit.py:192-221 | over every run the pruning, sweeping limiter answers exactly what the one that forgets nothing answers; from an empty one every answer is right in the sense of `AnswersAreRight` |
| `BackupQueue.AdmissionKeepsOneAtATime` | daemon/backup.py:347-372 | admission with nothing active keeps at most one active job per account |
| `BackupQueue.Daemon.AdmitBackup` | daemon/backup.py:321-433 | admitted exactly when no snapshot, backup or restore of the account is active |
| `BackupQueue.Daemon.AdmitRestore` | daemon/backup.py:1017-1076 | admitted exactly when the account's own backup is completed and nothing of the account is active |
| `BackupQueue.Daemon.Finish` | daemon/backup.py:806-813 | completing gives the row a completion later than all others and keeps every invariant |
| `BackupQueue.Daemon.FailLate` | daemon/backup.py:814-829 | a worker that raises after completing turns its completed row failed |
| `BackupQueue.Daemon.Perform` | daemon/backup.py:734-833 | a worker's step makes no job active and drops no completion; it is exactly `After`, and what it reports is exactly the completed backup it fails, if it does |
| `BackupQueue.Daemon.SelectedAreOld` | daemon/backup.py:861-874 | what a pass selects is exactly what has the retention count of newer completed rows on its shelf |
| `BackupQueue.Daemon.NewestFirst` | daemon/backup.py:861-870 | the query's order, newest completion first |
| `BackupQueue.Daemon.Unlink` | daemon/backup.py:877-890 | an artifact nobody reads goes, and only one with enough newer ones |
| `BackupQueue.Daemon.Record` | daemon/backup.py:894-903 | the row goes, or stays as expired history exactly when a restore refers to it |
| `BackupQueue.Daemon.Expire` | daemon/backup.py:876-903 | one victim, with other workers busy in every gap: read by an active restore it stays; a failed deletion leaves it; it raises exactly when it loses track of it, between deleting and recording, and never while calls work |
| `BackupQueue.Daemon.EnforceRetention` | daemon/backup.py:843-903 | only backups with the count of newer ones go, and without failures all of them go that no restore cites; a pass that raises loses track of one of them and has its own job marked failed; one whose first record fails does raise |
| `BackupQueue.Daemon.Handle` | daemon/backup.py:321-903 | each event does what it says: an admission adds one row exactly when nothing of the account is pending or running, a worker's step is that step, a pass deletes only what has enough newer completed rows of the same account, destination and kind, and all of it but what a restore cites while calls work |
| `BackupQueue.Daemon.Run` | daemon/backup.py:321-903 | over all interleavings each event does what it says, and: no two jobs of an account are pending or running at once; the newest backups ever completed keep their artifacts; every pending or running restore's backup is completed and its artifact is there, unless a step of the events or gaps failed that completed backup, or a pass raised, which then lost exactly one artifact, of a backup with as many newer ones as it was to keep: with neither there are no exceptions, and no pass raises while calls work |
| `BackupQueue.LateFailureCounterexample` | daemon/backup.py:814-829 | a run of admission, worker steps and a late failure after which an active restore reads a backup marked failed |
| `BackupQueue.DeadPassCounterexample` | daemon/backup.py:877-903 | a run of two backups, a retention pass whose second call fails, and an admitted restore that finds no artifact |
| `SqlCleaner.DirectiveOfPrefix` | daemon/cpanel_import.py:611-612 | a complete directive at the start of a part of a line is the one at the start of the line, and the other way round as far as the part goes |
| `SqlCleaner.LeadingMore` | daemon/cpanel_import.py:636-638 | taking one more directive off keeps to complete leading directives, and when there is none left the line is stripped |
| `SqlCleaner.StrippedContent` | daemon/cpanel_import.py:616-643 | the newline at its end changes nothing for a line |
| `SqlCleaner.DirectiveIs` | daemon/cpanel_import.py:611-612 | what is taken for a directive is, after whitespace, USE, or CREATE or DROP and DATABASE, whole words in any case, and what follows up to the first semicolon |
| `SqlCleaner.DirectiveFound` | daemon/cpanel_import.py:611-612 | and every such piece at the front of a text is found |
| `SqlCleaner.StrippedIs` | daemon/cpanel_import.py:636-638 | what is left of a stripped line has no directive in front |
| `SqlCleaner.SameNonBlankLines` | daemon/cpanel_import.py:616-643 | lines cut as the line-at-a-time filter cuts them leave its lines, blank ones aside |
| `SqlCleaner.ReadLine` | daemon/cpanel_import.py:707 | a read stops after a newline, at the size, or at the end |
| `SqlCleaner.StreamClean` | daemon/cpanel_import.py:694-727 | for every text and size of read: each line loses some directives in front, whole ones, and is otherwise copied verbatim, and loses all of them if it fits one read; what is held back stays below two reads; if every line fits one read the non-blank lines are those of `_strip_dump_database_context` |
| `Cron.RereadExactly` | daemon/cron.py:136-153 | a table is read back as written, but for one empty line at its end, if and only if no line holds a character at which `splitlines` breaks |
| `Cron.LinesEnd` | daemon/cron.py:136-144 | a line of the table ends at the first character at which `splitlines` breaks, a carriage return taking a newline behind it along |
| `Cron.BreaksAre` | daemon/cron.py:136-144 | these characters, one by one |
| `Cron.JobLineRoundTrip` | daemon/cron.py:189-193 | schedule (whitespace normalised) and command are read back if and only if the schedule has five fields, or is one nickname |
| `Cron.MarkerRoundTrip` | daemon/cron.py:29 | a marker line with any stripped label is read back as its id and label |
| `Cron.MarkerExactly` | daemon/cron.py:29 | a stripped line is a marker if and only if it is a hash sign, boron:id= and an id of 36 hexadecimal digits and dashes, and nothing behind it or label= and the label, whitespace between them |
| `Cron.NormalFixed` | daemon/cron.py:189-193 | a schedule written with single spaces is stored as it is |
| `Cron.EditRefines` | daemon/cron.py:250-292 | on tables in which every marker has its job line an update replaces and a delete removes exactly the jobs of that id, other lines keep text and order, and an id is found exactly when it is in the list |
| `Cron.ScannersAgree` | daemon/cron.py:181-292 | for any table: the edit scanner finds an id exactly when the list has it, for every id, if and only if every marker with a line below it heads a job of the list or has the id of one that does |
| `Cron.BarrenMarkerCounterexample` | daemon/cron.py:181-197 | a marker whose line below is no job line: its id is found and is not in the list |
| `Cron.UpdatesExactly` | daemon/cron.py:181-273 | for any table: every update of it is that update of its list if and only if every marker the parser visits above another line has a job line there, which is a marker to the edit scanner only of the same id |
| `Cron.PairedRefines` | daemon/cron.py:250-292 | on those tables deletions too are those of the list, and the lines outside jobs stay |
| `Cron.PairedIsCovered` | daemon/cron.py:181-292 | on those tables ids are found exactly when they are in the list |
| `Cron.AdditionsExactly` | daemon/cron.py:181-247 | for any table: every addition to it is that addition to its list if and only if the parser does not end on a marker with nothing below it |
| `Cron.WellFormedIsPaired` | daemon/cron.py:181-292 | tables in which every marker has its job line meet both conditions |
| `Cron.AddRefines` | daemon/cron.py:237-247 | adding appends one job to the parsed list |
| `Cron.KeptRefines` | daemon/cron.py:147-153 | the empty line that a write can lose at the end carries no job |
| `Cron.AdjacentMarkersCounterexample` | daemon/cron.py:181-197 | two markers in a row: the second one's id is found and is not in the list |
| `Cron.MailtoRemoved` | daemon/cron.py:164-178 | dropping the MAILTO lines keeps the jobs and the other lines |
| `Cron.MailtoExactly` | daemon/cron.py:30 | a line sets MAILTO if and only if, stripped, it is that name, an equals sign and the value, whitespace around the sign |
| `Cron.ParseJobs` | daemon/cron.py:181-197 | the index loop computes the parsed list |
| `Cron.EditLines` | daemon/cron.py:256-268 | the index loop computes the edit and whether the id was found |
| `Cron.Crontab.AddJob` | daemon/cron.py:237-247 | accepted exactly when the library takes the schedule, the trimmed command has 1 to 1000 characters and the label at most 200, without line ends; reading the table then gives the old list and the new job, for a recoverable job on a well-formed table |
| `Cron.Crontab.UpdateJob` | daemon/cron.py:250-273 | reading it after an update gives the list with the job replaced, on every table for which that holds of all updates; invalid input and unknown ids change nothing |
| `Cron.Crontab.DeleteJob` | daemon/cron.py:276-292 | reading it after a deletion gives the list without the job, on the same tables |
| `Cron.Crontab.Run` | daemon/cron.py:237-292 | over every run of additions, updates and deletions on a table in which every marker has its job line, the table is read back as the list under the same requests |
| `Cron.Crontab.SetMailto` | daemon/cron.py:164-178 | the jobs stay and the setting reads as the address given |
| `DomainWelcome.ActIsOutOfReach` | daemon/domain_welcome.py:210-217 | no step of the tenant touches a private name or a file that has no other name |
| `DomainWelcome.TenantCan` | daemon/domain_welcome.py:201-247 | the tenant of the model can make, take away, move, link and rewrite anything within reach |
| `DomainWelcome.StepTakes` | daemon/domain_welcome.py:201-247 | of all legal steps only the tenant's, and removals of the recorded inode and content, take a file its last name |
| `DomainWelcome.FateOfFile` | daemon/domain_welcome.py:210-247 | in every history a file without a name lost its last one to a step of the tenant, or was removed as recorded |
| `DomainWelcome.Site.RenameNoReplace` | daemon/domain_welcome.py:201-207 | it succeeds only onto a name that is free, and changes nothing otherwise |
| `DomainWelcome.Site.MatchesPrivate` | daemon/domain_welcome.py:100-120 | a match at a private name has one link, the recorded inode and the recorded content, the tenant acting between the two readings |
| `DomainWelcome.Site.QuarantineAndCheck` | daemon/domain_welcome.py:219-237 | what is unlinked is the recorded file; anything else gets a name of the document root again, another one if need be, unless a call failed, and then that is raised; the tenant acts only as the gaps say |
| `DomainWelcome.Site.RemoveVerified` | daemon/domain_welcome.py:210-247 | one file is removed, the recorded one, or none, whichever private directory is found under the new name; no file is left out of the tenant's reach unless that is raised; left alone, an unchanged placeholder goes |
| `DomainWelcome.Site.RetireWelcome` | daemon/domain_welcome.py:250-285 | whatever the tenant does between any two system calls only the recorded inode with the recorded content is removed, and no file is left out of reach unless a call failed and the record is kept; it is forgotten when the tenant removed the new directory; left alone, the placeholder goes exactly once a site is there |
| `DomainWelcome.Site.EnsureWelcome` | daemon/domain_welcome.py:142-182 | a placeholder is created only in an empty root and under a free name, and replaces nothing; left alone and with no failing call it is created exactly in an empty root |
| `DomainWelcome.Site.Run` | daemon/domain_welcome.py:142-285 | over every interleaving, the tenant doing exactly what the events and the used gaps say: a file without a name lost its last one to the tenant or was removed as recorded; while no call fails no file is only in a private directory; and if the tenant never acts between the daemon's calls, each event does exactly what it should: a placeholder goes into an empty root, an unchanged one comes out once index.html or index.php is there, and a changed one is left alone and forgotten |
| `AccountPool.OneZoneMore` | daemon/cloudflare_accounts.py:63-75 | assigning a zone changes one account's true number by one |
| `AccountPool.StaysEven` | daemon/cloudflare_accounts.py:94-105 | choosing the least loaded account with room keeps the pool even |
| `AccountPool.Pool.Sync` | daemon/cloudflare_accounts.py:63-75 | the cached number becomes the counted one |
| `AccountPool.Pool.Pick` | daemon/cloudflare_accounts.py:94-105 | of the active accounts below their cap the one with the fewest zones, then the lowest id; none exactly when there is none |
| `AccountPool.Pool.EnableZone` | daemon/cloudflare_ops.py:505-549 | a populated pool refuses exactly when every active account is full; the zone goes to the active account below its cap with the fewest zones, the lowest id among equals, which stays within its cap; evenness is kept |
| `AccountPool.Pool.RemoveZone` | daemon/dnsprovider.py:137-160 | dropping a zone row recounts its account |
| `AccountPool.Pool.TerminateZones` | daemon/cloudflare_ops.py:883-902 | termination recounts every account it takes a zone from; if a session fails, exactly the zones before it are gone |
| `AccountPool.Pool.MigrateSingleToken` | daemon/cloudflare_accounts.py:313-339 | the first account adopts every zone, with the true number |
| `AccountPool.Pool.Set` | daemon/cloudflare_accounts.py:286-307 | it changes the cap and the state as asked, and no number |
| `AccountPool.Pool.Delete` | daemon/cloudflare_accounts.py:253-283 | refused while it serves zones; forced, its zones fall back to the legacy token and no other assignment changes |
| `AccountPool.Pool.Run` | daemon/cloudflare_accounts.py:63-339 | over every run each cached number equals the number of zone rows assigned, and while no call fails the domains on Cloudflare are those the operations done put and left there |
| `AccountPool.Pool.EnableMany` | daemon/cloudflare_accounts.py:94-134 | enabling zone after zone, from a pool without zones or an even one, keeps every account within its cap and active ones within one zone of each other unless the smaller is full |
| `DnsEditor.MakePlan` | daemon/dns_editor.py:164-185 | refused exactly when a protected record would be overlapped or a CNAME would share its name; otherwise exactly the rows that differ |
| `DnsEditor.EditedExactly` | daemon/dns_editor.py:90-185 | the changes leave marked rows, types other than the nine editable ones and the zone's own NS as they were, every wanted row with its TTL and values (an equal one, up to order and TXT presentation, as it was), and nothing else |
| `DnsEditor.ToldExactly` | daemon/dns_editor.py:164-185 | the changes name exactly the rows that differ, with their values before and after and the new TTL |
| `DnsEditor.ReadingExactly` | daemon/dns_editor.py:85-87 | two readings have one fingerprint if and only if they agree in names, types, TTLs and marks, and in values, those of editable types up to order and TXT presentation |
| `DnsEditor.PatchIsExact` | daemon/dns_editor.py:164-185 | applying the changes gives the protected rows as they were, the desired ones up to canonical values, nothing else, rows already right untouched, and no CNAME that shares its name (section 3.6.2 of RFC 1034) |
| `DnsEditor.WantedNeedsNothing` | daemon/dns_editor.py:176-184 | planning the same edit on its result finds no change |
| `DnsEditor.FingerprintDecides` | daemon/dns_editor.py:85-87 | two readings with one fingerprint give the same verdict and the same changes |
| `DnsEditor.StillExact` | daemon/dns_editor.py:289-298 | changes planned from one reading do the same to a later one with the same fingerprint |
| `DnsEditor.Editor.Preview` | daemon/dns_editor.py:188-195 | the preview is stale exactly when the fingerprint differs |
| `DnsEditor.Editor.Apply` | daemon/dns_editor.py:235-305 | what is written is exactly the edit on the rows read last, the zone's own NS and marked rows spared; an acceptable, confirmed, current edit with no failing call is made; a stale, refused, unconfirmed or failed edit writes nothing, except that an error after the write is reported as a failure of an edit that was made |
| `DnsEditor.LateErrorCounterexample` | daemon/dns_editor.py:298-305 | any acceptable edit of an empty zone can be made and still be reported as failed, by an error in dropping old saved copies |
| `DnsEditor.Editor.PreviewThenApply` | daemon/dns_editor.py:188-299 | the changes performed are the changes previewed, whatever others did in between |

## Left out

- Retries of Cloudflare requests: a request fails without effect or succeeds. A retried creation whose first reply was lost could leave a duplicate record; a rerun of the upsert removes it.
- `CloudflareValues.CanonicalIdempotent`: digits are ASCII; Python's `int` and `isdigit` accept other scripts.
- `ZoneLifecycle.Panel.Run`: the view leaves out apex NS, SOA, TTL and the proxied flag (`Write`, `ResyncOut` and `ResyncIn` state TTLs), and values count by meaning, which is the canonical form except for TXT text still wrapped after two unquotes. Forced reverts change the view as documented in the code and are only covered by `Disable`. After a stranding (the Cloudflare zone is deleted and the row could not be dropped) the view lives on in PowerDNS, but listing fails until a forced revert.
- `ZoneLifecycle.Panel.Enable`: whether a pool account has room is a parameter here; `AccountPool` models the pool. A Cloudflare zone just created is empty.
- Events, SSL modes and cache purges around DNS transitions: best-effort side calls that change no record.
- The DNS mutation lock makes one command at a time; it is what lets commands be steps.
- `ClusterProtocol.NoLostUpdate`: one pair of peer and zone, with the panel as the zone's only writer; back-off delays and the attempt limit only postpone a job. Two peers that replicate to each other share the serial row, which is not modelled.
- `ClusterProtocol.Replicate`: within a turn of the worker an event is enqueued after the delivery, and a death comes before the row is settled; `NoLostUpdate` has them at every other moment too.
- `ClusterReceiver.PeerZone.ApplyIncoming`: SHA-256 is taken as injective, as is the SOA content that PowerDNS makes up for a new zone.
- `ClusterProvenance.ForeignZonesAreSpared`: assumes that the peer is not re-pointed, that no third party reuses a name the panel created, and, for DirectAdmin, that nothing comes between the existence check and the save.
- `DbGovernor.Governor.Run`: statement times are exact reals, not rounded to three places; dropping logins and accounts, events and warnings are left out.
- `ConfigTx.Host.Apply`: reading, writing, renaming and copying files succeed; a disk error between two renames would leave some targets new. Ownership and modes are left out. Within a transaction pruning may remove any backups, after the rollback no longer needs them; which ones stay is modelled separately, for a listing with the newest first, and without removals that fail. Targets are distinct and no target is named like another's temporary file. A reload that does not answer well is taken to leave the service on what it ran on.
- `RateLimit.Limiter.Serve`: the clock does not run backwards from one lock acquisition to the next. The code reads it just before taking the lock, so two threads could record their times in the other order.
- Fingerprints of credentials and the /64 grouping of addresses: inputs of the model.
- `BackupQueue.Daemon.Run`: completion times are distinct and artifact names fresh; a deletion that fails deletes nothing. Building, fetching and restoring archives, quotas and authorisation of items are left out; activity of the snapshot engine is a parameter of admission.
- `SqlCleaner.StreamClean`: which characters belong to a word is a parameter, so the result holds for any notion of it. `splitlines` also breaks at rarer characters than the newline; the comparison is for dumps without them.
- `Cron.Crontab.Run`: for tables in which every marker has its job line; which other tables single edits and additions treat as their list is stated exactly by `UpdatesExactly` and `AdditionsExactly`. MAILTO is set by an operation of its own.
- `Cron.Crontab.SetMailto`: for addresses that passed validation; the quotes that `get_mailto` strips from hand-written settings are left out. The English description of a schedule is left out, and the cron library's judgement of a schedule is a parameter.
- `DomainWelcome.Site.Run`: the tenant does not write through descriptors opened before; SHA-256 is taken as injective; the random name under which a file goes back when its own is taken is free; the document root itself is never missing. The template, ownership and modes of the placeholder, and the round-robin of `reconcile_pending` are left out.
- `AccountPool.Pool.EnableZone`: caps are not lowered between choosing an account and recording the zone. Tokens and their encryption are left out.
- `DnsEditor.Editor.Apply`: PowerDNS only. Parsing and printing of zone text are left out: the wanted rows are the input, one per name and type, with the bytes of a TXT value given by a function. The order of the change list, the content of the saved copies, the account binding and `template` are left out, the fingerprint is the thing it digests, and the last reading and the write are one step.
- Bulk operations, job status pages, notifications, templates, installers and the web layer: thin branches with easy claims.
