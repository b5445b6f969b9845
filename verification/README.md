# Centauri: a verified model

Centauri is a TLS reverse proxy. This project models, in Dafny, the parts of it whose
correctness is hardest to see by reading, and proves what they promise:

- the distributed certificate lock and the certificate hash that several instances share
  through Redis (`LockProtocol`, `LockSafety`, `LockLiveness`, `RedisLock`, `RedisStore`, `SaveProtocol`);
- the certificate stores, suppliers and manager (`Names`, `Certificates`, `JsonStore`,
  `Suppliers`, `CertManager`, `ManagerRules`, `ManagerSafety`, `ManagerStores`, `LockedSaves`,
  `SectionSaves`);
- the route configuration language and its delivery (`ConfigLexer`, `ConfigParser`,
  `ConfigMeaning`, `ConfigPrinter`, `ConfigFormat`, `Frames`, `Delivery`, `NetworkSource`, `ConfigSession`,
  `FileSource`);
- names, routing and redirects (`Domains`, `Routing`, `Wildcards`).

`dafny verify dfyconfig.toml` checks the whole project.

## How the model is built

Protocols are transition systems; a theorem about them speaks of every run, with any
number of processes, delays, lost messages and crashes. Code that works by updating things
is a class or a method with loops, proved equal to a function on values; the theorems are
then about that function. Time is an integer in milliseconds, and 0 is Go's zero time.
Clock readings, random numbers and the answers of ACME servers, OCSP responders, Redis,
config servers and disks are parameters, so a theorem holds for all of them. Lock tokens
are assumed to be fresh, and Redis scripts and transactions to be atomic.

Where the text of the repository and its code disagree, the model follows the code:

- The comment on `refresh` (certificate/store_redis.go:303-304) says it stops extending a
  lock that was lost. The code goes on trying. Token freshness makes those attempts
  harmless (`LockSafety.TokenStep`).
- The comment on `magicBytes` (config/source_network.go:15) says they are sent at the start of
  every connection. The code reads them before every configuration, and so does the model.
- docs/routes.md says lines starting with `#` are ignored. Only the word `#` by itself is;
  `ConfigLexer.CommentIgnoredIff` gives the exact condition.

Some natural expectations turn out to hold only under a condition, which is proved exact:

- A token that has left its lock key can come back if the Redis client library resends a
  SETNX within the five seconds its call may take; it never does exactly when resending is
  off (`LockSafety.NeverReturnsIffNoRetries`). The client that the program builds sets no
  `MaxRetries` (certificate/store_redis_factory.go:15-22), so the library's default applies,
  which is to resend. The lock then stays taken until it expires, with no section to release
  it (`LockSafety.ResentTokenReturns`).
- Unlock releases whatever token the `redisLock` of the process records. It is the
  section's own exactly when no other section of the process took or released the lock in
  between (`LockSafety.UnlockReleasesOwnIffUntouched`); otherwise a section can lose its
  lock to a sibling before its lease runs out (`LockSafety.LateUnlockReleasesSibling`). In
  a run without late replies and without two failed refreshes in a row none of this
  happens, and only one section is ever past Lock (`LockSafety.OneInside`).
- The two stores hold the same unexpired certificates exactly when hash fields tell the
  saved certificates apart (`RedisStore.StoresAgreeIff`), which names without `;` guarantee.
  They hold the same certificates altogether exactly when the last save was of a certificate
  that had not expired (`RedisStore.SameAfterLastIff`); an expired one makes lookups differ
  (`RedisStore.ExpiredSaveDiverges`).
- Certificates that share a hash field share a lock exactly when no supplier's name
  continues another's after a `;` (`Names.FieldsDetermineLocksIff`), whatever is in the
  certificate names. The suppliers `lego` and `selfsigned` (certificate/provider.go:27-33) meet this.
- Reading and saving a certificate under the lock is atomic if every transaction takes
  effect before its section unlocks (`SectionSaves.ReadAndSaveAreAtomic`); one that takes
  effect later can be overwritten unseen (`SectionSaves.LateTransactionIsOverwritten`).
- A certificate that is not due for renewal can have expired, unless its renewal time is
  before its expiry (`ManagerSafety.RenewsInTimeIsExact`); `ManagerSafety.ReturnsExpiredIff`
  says exactly when it is then returned.
- A client that lower-cases host names, as browsers do, is redirected for ever exactly
  when a redirecting route spells a primary domain that it serves with a capital letter
  (`Routing.LowerCasingTerminatesIff`), because the comparison of hosts minds case
  (proxy/redirector.go:58).

Theorems about what a lookup finds after a save suppose one certificate per provider and
names. Saves keep it so, and from an empty store they make it so; the theorems about what
requests leave alone hold for every list.

## Model

| member | source | states |
|---|---|---|
| LockProtocol.InvAt | certificate/store_redis.go:256-330 | in every state of every run, a lock key holds only a granted token generated for that key, for at most one TTL; a redisLock records only tokens of its own process and key; a section's token is its own |
| LockSafety.TokenStep | certificate/store_redis.go:226-230 | a live token stops being live exactly by expiry or by a served release of that very token, and its expiry moves only by a served extension of that very token |
| LockSafety.LeaseHolds | certificate/store_redis.go:24-30 | an unreleased lease lasts at least until the expiry it had, whatever all other processes do |
| LockSafety.OnlyExpiryOrOwnerEndsLease | certificate/store_redis.go:280-301 | whenever a token was lost in a run, it expired, or an Unlock of the process that generated it took it from the redisLock of that key |
| LockSafety.ReleaseOrigin | certificate/store_redis.go:282-301 | every release sent was sent by an Unlock on the object of the process and key that generated the token |
| LockSafety.ExtensionOrigin | certificate/store_redis.go:305-330 | every extension sent comes from the refresh goroutine started by the section that generated the token |
| LockSafety.NeverReturns | certificate/store_redis.go:256-278 | without resending, a token that has left its key never returns |
| LockSafety.ResentTokenReturns | certificate/store_redis.go:256-278 | a run, at a standing clock, in which a SETNX is resent during its call and the second of the two requests is served after the section has unlocked: the token is back and no section is left to release it |
| LockSafety.NeverReturnsIffNoRetries | certificate/store_redis.go:256-278 | tokens never return in any run if and only if SETNX is not resent |
| LockSafety.MutualExclusion | certificate/store_redis.go:137-147 | two sections on one key are never both inside live leases |
| LockSafety.NamesExcludeEachOther | certificate/store_redis.go:150-163 | the same for any two sections for the same subject and any permutation of the same alt names |
| LockSafety.GrantsAreSeparated | certificate/store_redis.go:256-278 | a later grant on the same key means the earlier lease ran out or was released in between |
| LockSafety.UnlockReleasesOwnIffUntouched | certificate/store_redis.go:280-301 | Unlock releases the token its own Lock obtained if and only if no other section of the process returned from Lock or ran Unlock on that key in between |
| LockSafety.LateUnlockReleasesSibling | certificate/store_redis.go:280-301 | a run in which a late Unlock releases a sibling's lease, and another process enters while that sibling is inside with its lease not run out |
| LockSafety.UndisturbedSectionHoldsLock | certificate/store_redis.go:256-301 | an undisturbed section holds the key for as long as any lease it had lasts |
| LockSafety.RefreshKeepsLock | certificate/store_redis.go:303-330 | in every run with replies within the operation timeout and no two consecutive failed refreshes, every section holds its lock from Lock to Unlock, always with ten seconds or more left |
| LockSafety.NobodyDisturbs | certificate/store_redis.go:256-301 | in such a run no section of a process enters or unlocks while another of its sections is inside on that key |
| LockSafety.OneInside | certificate/store_redis.go:137-147 | in such a run at most one section, of all processes, is past Lock and before Unlock on one key |
| LockSafety.UnlockReleasesOwn | certificate/store_redis.go:282-301 | in such a run every Unlock releases the token its own Lock obtained |
| LockLiveness.RefreshRenews | certificate/store_redis.go:305-316 | a refresh tick sends an extension, and serving it while the token is live gives a whole TTL again |
| LockLiveness.OnlyRefreshProlongs | certificate/store_redis.go:305-316 | a lease is only ever prolonged by a refresh of the section that obtained it |
| LockLiveness.EnterStartsRefreshing | certificate/store_redis.go:266-274 | from the moment Lock returns, its refresh goroutine can tick |
| LockLiveness.LockCanBeHeld | certificate/store_redis.go:303-330 | for every n there is a run meeting the conditions of RefreshKeepsLock in which a section is past Lock for n refresh intervals and still has a whole TTL left |
| LockLiveness.MarginIsTight | certificate/store_redis.go:303-330 | the ten seconds of RefreshKeepsLock are exact: a run that meets its conditions and leaves no more |
| LockLiveness.GivenUpNeverEnters | certificate/store_redis.go:256-278 | an attempt that was given up never becomes a lock, even if the server grants it later, and the section can try again with a new token |
| LockLiveness.NoLateResend | certificate/store_redis.go:256-265 | once the call that sent a SETNX has returned or is gone, that SETNX is not sent again |
| LockLiveness.OneAttemptAtATime | certificate/store_redis.go:256-278 | before its next attempt a section has given up, unlocked or crashed |
| LockLiveness.NeverStuck | certificate/store_redis.go:256-301 | a waiting section can give up and try again with any new token, and one inside can always unlock |
| LockLiveness.LeaseRunsOut | certificate/store_redis.go:24-30 | without resending, a lease nobody extends ends at the expiry it had |
| LockLiveness.CrashTakesAll | certificate/store_redis.go:24-30 | a crash ends every section, record and refresher of the process, and nothing else |
| LockLiveness.CrashFreesLock | certificate/store_redis.go:24-30 | without resending, after a crash no refresh of the process's tokens is sent any more, and its lock is free one TTL later at the latest, unless an extension sent earlier is still served |
| RedisLock.Lock.Acquire | certificate/store_redis.go:256-278 | the retry loop ends with the first acquired attempt, records that token, and matches the protocol's Enter step |
| RedisLock.Lock.Release | certificate/store_redis.go:282-301 | takes the recorded token, stops its refresher, sends its release, and matches the protocol's Unlock step |
| Names.SortedCopyEqualIff | certificate/store_redis.go:218-222 | sorted copies are equal exactly for permutations |
| Names.LockKeyEqualIff | certificate/store_redis.go:150-163 | without `;` in names, lock keys are equal exactly for the same subject and permuted alt names |
| Names.CertificateKeyEqualIff | certificate/store_redis.go:207-209 | without `;` in names, hash fields are equal exactly for the same provider, subject and permuted alt names |
| Names.SeparatorInNameCollides | certificate/store_redis.go:207-209 | with `;` in a name, different certificates can share a field |
| Names.FieldDeterminesLock | certificate/store_redis.go:207-216 | for any certificate names, a shared field means the same supplier and the same lock, unless the suppliers' names clash in that way |
| Names.FieldsDetermineLocksIff | certificate/store_redis.go:207-216 | for two suppliers, a shared hash field always means a shared lock if and only if neither name continues the other after a `;` |
| Names.FreeNeverClash | certificate/store_redis.go:207-209 | supplier names without `;` never do that |
| Names.ClashingSuppliersCollide | certificate/store_redis.go:207-216 | with such supplier names, every certificate of one shares its field with one of the other under a different lock |
| Certificates.SortingDecidesIsFor | certificate/details.go:55-67 | comparing sorted copies decides equality of names up to permutation |
| Certificates.KeyMatchesIdentity | certificate/store_redis.go:207-209 | hash fields identify certificates exactly as provider and IsFor do |
| JsonStore.Store.GetCertificate | certificate/store.go:65-82 | the first certificate of the provider, else the last one of no provider |
| JsonStore.Store.RemoveCertificate | certificate/store.go:110-117 | the in-place splice removes the first match and keeps the order of the rest |
| JsonStore.Store.PruneCertificates | certificate/store.go:120-128 | filtering into the array being read keeps exactly the valid certificates, in order |
| JsonStore.Store.SaveCertificate | certificate/store.go:134-138 | remove, append and prune, whether or not the file can be written |
| JsonStore.SaveMembers | certificate/store.go:130-138 | after a save the list holds exactly the new certificate and those of other identities, as far as valid, one per provider and names |
| JsonStore.SavePutsLast | certificate/store.go:110-138 | over any list, a save takes out the first certificate of the same identity, puts the new one last, and keeps the order of the others that are valid |
| JsonStore.LookupPicks | certificate/store.go:65-82 | with duplicates, a lookup picks the first certificate of the provider, else the last one of no provider |
| JsonStore.LookupDependsOnMembers | certificate/store.go:57-82 | with one certificate per provider and names, a lookup does not depend on the order of the list |
| RedisStore.SaveCertificate | certificate/store_redis.go:104-135 | alone on the server, prune and HSET have the effect of Save, in any iteration order |
| RedisStore.SaveEntries | certificate/store_redis.go:96-135 | after a save the hash holds exactly the new entry and every other one that decodes to a certificate that has not expired |
| RedisStore.RunPruneScript | certificate/store_redis.go:235-241 | the script deletes exactly the fields that still hold the value that was read |
| RedisStore.GetCertificate | certificate/store_redis.go:71-94 | the result is the same for every order in which the hash may be ranged over |
| RedisStore.StoresAgree | certificate/store_redis.go:96-135 | after any saves at non-decreasing times, from empty, list and hash hold exactly the same unexpired certificates, and the list has no duplicates |
| RedisStore.StoresAgreeIff | certificate/store_redis.go:207-209 | while nothing expires, they agree if and only if hash fields tell the saved certificates apart |
| RedisStore.SeparatorFreeKeysTellApart | certificate/store_redis.go:207-209 | certificates without `;` in their names meet that condition |
| RedisStore.LookupsAgree | certificate/store_redis.go:63-94 | both stores find the same unexpired certificate of the requested provider; and the same one of no provider, as long as neither has any of the requested one |
| RedisStore.AlwaysSameIff | certificate/store_redis.go:104-135 | from empty, list and hash hold the same certificates, expired or not, after every save, if and only if none had expired when saved |
| RedisStore.SameAfterLastIff | certificate/store_redis.go:104-135 | from empty and under one clock, list and hash hold the same certificates, expired or not, if and only if the last save was of an unexpired one |
| RedisStore.SameLookups | certificate/store_redis.go:71-94 | stores with the same certificates answer every lookup alike, the fallback to no provider included |
| RedisStore.ExpiredSaveDiverges | certificate/store.go:45-54 | after a save of an expired certificate, with an unexpired one of no provider present, the list finds the latter and the hash the former |
| RedisStore.DivergingInput | certificate/store_redis.go:104-135 | there are such stores and such a save |
| SaveProtocol.NoLiveEntryIsPruned | certificate/store_redis.go:96-135 | in every interleaving of saves, a field changes only by being set, or by losing an entry that is undecodable or expired |
| SaveProtocol.SavedValuePersists | certificate/store_redis.go:100-135 | a saved certificate stays until it expires or its own field is set again |
| SaveProtocol.StaysKeyed | certificate/store_redis.go:133-135 | in every interleaving, every decodable entry stays under its own key |
| SaveProtocol.UninterruptedCallIsSave | certificate/store_redis.go:104-135 | whatever else is in progress, a call whose steps nothing interleaves with has the effect of the sequential save |
| Suppliers.UpdateRenewsInTime | certificate/supplier_lego.go:249-270 | a renewal time drawn from a window lies in it, and before expiry if the window does |
| CertManager.Manager.FindSupplier | certificate/manager.go:101-117 | the preferred supplier if it is configured, an error if it is not; without one, the first of the preference list that is configured, every earlier one being unknown |
| CertManager.Manager.GetCertificate | certificate/manager.go:49-79 | result, store contents and every store and supplier call are those of Get |
| CertManager.Manager.ObtainCertificate | certificate/manager.go:120-135 | result, store contents and calls are those of Obtain |
| CertManager.Manager.StapleCertificate | certificate/manager.go:138-148 | result, store contents and calls are those of StapleCert |
| CertManager.Manager.RefreshRenewalInfo | certificate/manager.go:151-163 | result, store contents and calls are those of RefreshAri |
| CertManager.Manager.GetExistingCertificate | certificate/manager.go:84-99 | result is that of GetExisting, which ManagerRules.ExistingIs characterises |
| ManagerSafety.LockBracketsSaves | certificate/manager.go:55-79 | on every path the lock is taken first and released last, and every save in between is for exactly the locked names |
| ManagerRules.ExistingIs | certificate/manager.go:84-99 | a stored certificate is returned exactly when it is the one looked up, unexpired and stapled if it must be; renewal is asked for exactly when there is none such, or it is due or in need of a staple, however old its renewal information |
| ManagerRules.StaleInfoIsRefreshed | certificate/manager.go:61-66 | stale renewal information alone does not ask for renewal, but makes GetCertificate fetch new |
| ManagerRules.RequestDoes | certificate/manager.go:49-148 | a request issues exactly when nothing is stored or it is due, staples exactly when it does not issue and a staple is needed, fails exactly when the supplier, the store or the key does, and returns what was issued, stapled or in hand |
| ManagerRules.NoSupplierFails | certificate/manager.go:49-53 | without a supplier a request fails and makes no call |
| ManagerRules.InHandIs | certificate/manager.go:58-66 | refreshing changes only the renewal information, and only if it was due and the ACME server answered |
| ManagerRules.RenewalInfoWaits | certificate/supplier_lego.go:234-274 | the ACME server is not asked about a certificate again before the time it gave, or before expiry if it does not offer renewal information, and after that it is |
| ManagerRules.AnyInstantCanBeDrawn | certificate/supplier_lego.go:261-268 | every instant of a window of a second or more can become the renewal time; of a shorter one its start does |
| ManagerRules.UnsupportedMeansByExpiry | certificate/supplier_lego.go:249-256 | without renewal information, renewal is due 30 days before expiry |
| ManagerSafety.GetLeavesAlone | certificate/manager.go:49-163 | over any list, a request returns only certificates for its names of its provider or of none, leaves every other unexpired certificate alone, and adds no duplicates |
| ManagerSafety.ReturnedIsStored | certificate/manager.go:49-163 | whatever a request returns is what the store gives for the same request afterwards, unless it expired meanwhile |
| ManagerSafety.ProviderIsolation | certificate/store.go:57-82 | from any list, over every run without requests for a provider, that provider's unexpired certificates stay exactly what they were |
| ManagerSafety.NeverReturnsExpired | certificate/manager.go:58-78 | with renewal windows before expiry, no expired certificate is ever returned from the store, and this keeps on holding |
| ManagerSafety.RenewInTimeAt | certificate/manager.go:58-78 | the same at every request of every run |
| ManagerSafety.RenewsInTimeIsExact | certificate/details.go:41-47 | a certificate never goes unrenewed past its expiry if and only if its renewal time, if any, is before its expiry |
| ManagerSafety.ReturnsExpiredIff | certificate/manager.go:58-78 | a request returns an expired certificate from the store if and only if its renewal time has not come although its expiry has, and nothing after that fails |
| ManagerSafety.ExpiredIsReturned | certificate/manager.go:58-78 | a request that returns an expired certificate |
| ManagerSafety.ExistingAgreesWithGet | certificate/manager.go:81-99 | an existing certificate not needing renewal is what GetCertificate returns at that instant, with no supplier call and no save; and conversely |
| ManagerSafety.SelfSignedStays | certificate/manager.go:58-71 | a stored self-signed certificate survives every request until it expires or is issued anew |
| ManagerSafety.IssuancesAreSpaced | certificate/supplier_selfsigned.go:67-69 | in every sequential run, two self-signed issuances for the same names are at least 23 days apart |
| ManagerSafety.IssuanceRate | certificate/supplier_selfsigned.go:24-58 | so the n-th issuance after the first is at least 23 n days later |
| ManagerStores.GetIsSaves | certificate/manager.go:49-163 | the store after a request is the store before it with the request's saves applied in order |
| ManagerStores.OnlyLookupMatters | certificate/manager.go:49-163 | result and calls of a request depend on the store only through the certificate looked up |
| ManagerStores.SameRequest | certificate/manager.go:49-79 | one request over stores with the same certificates has the same result and calls, and they hold the same ones afterwards if and only if its last save, if any, was of an unexpired certificate |
| ManagerStores.SameOnBothStores | certificate/manager.go:49-79 | from stores with the same certificates, as long as hash fields tell apart what is stored and saved and no earlier request ended with the save of an expired certificate, every request of a run returns the same certificate and makes the same calls over the hash as over the list |
| LockedSaves.OneFieldOneLock | certificate/store_redis.go:101-103 | two calls that save to the same hash field, for whatever names, take the same lock, unless their suppliers' names clash over a `;` |
| LockedSaves.WritersOfOneFieldExclude | certificate/store_redis.go:137-147 | under the same condition, two different calls that save to one field are never both inside live leases; in a run in which refreshing works, never both past Lock at all |
| SectionSaves.OnlyTheSectionWrites | certificate/store_redis.go:100-135 | in such runs, a transaction on the field of a certificate whose lock a section is past belongs to that section |
| SectionSaves.ReadAndSaveAreAtomic | certificate/store_redis.go:96-147 | in joint runs of locks and saves in which refreshing works and transactions take effect inside their sections, nobody else sets the field of a section's certificate while it is inside: what it read is what it replaces, unless that expired |
| SectionSaves.LateTransactionIsOverwritten | certificate/store_redis.go:104-135 | a run in which the lock works throughout, but a transaction that takes effect after its section unlocked is overwritten by a section that had read before it |
| ConfigLexer.CommentIgnoredIff | config/parser.go:92-97 | exactly which lines starting with `#` are ignored |
| ConfigLexer.ClassifyWithArgs | config/parser.go:20-23 | a keyword and clean arguments are read back as that keyword with those arguments |
| ConfigLexer.AtoiSigned | config/parser.go:121-125 | a status may have a sign |
| ConfigLexer.AtoiRejects | config/parser.go:121-125 | but nothing except digits after its first character |
| ConfigLexer.FieldsSpaced | config/parser.go:115-120 | two words are read as such however much white space is around and between them |
| ConfigLexer.ClassifyAnyCase | config/parser.go:20-23 | nor does the case of its first word |
| Text.LowerCharIs | config/parser.go:20-23 | each ASCII capital has its small letter, and nothing else changes |
| ConfigLexer.IndentationIgnored | config/parser.go:20-23 | white space around a line makes no difference |
| ConfigLexer.SpaceIs | config/parser.go:20-23 | white space is space, tab, line feed, vertical tab, form feed and carriage return |
| ConfigLexer.BlankIgnored | config/parser.go:92-97 | lines of white space are ignored |
| ConfigLexer.UnknownIsInvalid | config/parser.go:92-97 | every other first word is an error |
| ConfigParser.Parse | config/parser.go:15-113 | the loop over lines computes Meaning |
| ConfigMeaning.MeaningIs | config/parser.go:15-113 | one route for each `route` line, with exactly the domains, upstreams, subjects, headers, mappings, provider and redirect that the lines up to the next one give, in order, and the fallback they name; otherwise the fault of the first line that has one, judged by the lines before it |
| ConfigMeaning.AcceptedIff | config/parser.go:15-113 | a text is accepted if and only if no line has a fault and the last route has an upstream |
| ConfigMeaning.SegmentsCover | config/parser.go:25-41 | the lines of the routes are all lines from the first `route` line on, and only the first of each is a `route` line |
| ConfigMeaning.HeaderIff | config/parser.go:152-199 | exactly the header rules written as documented, in any case of the operation, are accepted, each as what it says |
| ConfigMeaning.OnErrorIff | config/parser.go:115-150 | exactly the mappings of an error status to a named upstream, with or without a path that parses, are accepted |
| ConfigParser.ParseOnError | config/parser.go:115-150 | accepted mappings have an error status and a named upstream |
| ConfigParser.AcceptedIsGood | config/parser.go:19-112 | every accepted configuration has a domain and an upstream per route, redirects only with two domains, error statuses only, and a fallback among its routes |
| ConfigParser.ConcatenationConcatenates | config/parser.go:19-112 | two accepted texts one after the other mean the routes of both in order, and are rejected exactly when both name a fallback |
| ConfigPrinter.HeaderReadsBack | config/parser.go:152-199 | every printable header rule is read back unchanged |
| ConfigPrinter.MappingReadsBack | config/parser.go:115-150 | every printable error mapping is read back unchanged |
| ConfigPrinter.MappingWithPathReadsBack | config/parser.go:115-150 | a mapping with a path is read back with the path and query that url.Parse gives for its text |
| ConfigPrinter.RoundTrip | config/parser.go:15-113 | parsing the printed text of any printable configuration gives back exactly that configuration |
| ConfigFormat.AcceptedIsPrintable | config/parser.go:15-113 | every accepted configuration without paths is printable, so printing and parsing again returns it |
| ConfigFormat.PrintableIff | config/parser.go:15-113 | the printable configurations are exactly the meanings of lists of lines in which no error mapping has a path |
| ConfigFormat.PrintableAsTextIff | config/parser.go:15-113 | the configurations that print to single lines are exactly the meanings of texts in which no error mapping has a path |
| Frames.Conn.NextFrame | config/source_network.go:135-169 | reads as ReadFrame does, and is left where it leaves off |
| Frames.FrameReadsBack | config/source_network.go:135-169 | a frame is read back as its payload, leaving the reader at the next frame |
| Frames.OnlyFramesAreRead | config/source_network.go:135-169 | conversely, a payload is read exactly from a stream that begins with its frame, of the right magic and version |
| Frames.MagicIs | config/source_network.go:15-16 | the magic bytes spell CENTAURI |
| Frames.TruncatedStreamReadsBack | config/source_network.go:135-169 | however a stream is cut off, exactly the whole frames before the cut are read, then there is an error |
| Frames.StreamReadsBack | config/source_network.go:24-26 | any payloads sent one after the other are read back as exactly those |
| Delivery.ConfigsArrive | config/source_network.go:135-185 | whatever configurations are sent and wherever the connection breaks, exactly those are installed that arrived whole and come before the first with an invalid domain, in order and unchanged |
| Delivery.ReadAndApplyConfig | config/source_network.go:135-185 | one configuration is read, parsed and installed; on any error, an invalid domain included, routes and fallback stay as they were |
| Delivery.LinesOfUnfinished | config/parser.go:16-20 | a last line without a newline counts |
| Delivery.LinesOfUnlinesCr | config/parser.go:16-20 | carriage returns before newlines make no difference |
| NetworkSource.Source.Run | config/source_network.go:76-133 | the loop makes the reads and reconnects of After, and ends when it does |
| NetworkSource.ReconnectProtocol | config/source_network.go:76-133 | at most one reconnect more than configs applied; a second failure in a row is the end; a read has a deadline exactly before the first config |
| NetworkSource.EndsIffTwoFailures | config/source_network.go:76-133 | while dialling and deadlines work and nobody stops it, the loop ends if and only if two reads in a row fail |
| NetworkSource.EndsIff | config/source_network.go:76-133 | for all rounds, the loop has ended if and only if one of them was a stop, a deadline that could not be set or cleared, a failed read with a failed dial, or a second failed read in a row |
| NetworkSource.EndsWithFirst | config/source_network.go:76-133 | it ends with the first such round, after one read for each earlier round and one in it if it got that far |
| NetworkSource.StopEnds | config/source_network.go:78-81 | told to stop, the loop ends without another read |
| ConfigSession.InstalledSoFar | config/source_network.go:76-185 | at every point of every run, what has been installed, followed by what the connection in use would still install, is all that the connections used so far install |
| ConfigSession.LoopCounts | config/source_network.go:76-133 | the loop's successful reads are the installed configurations, and its reconnects the connections used |
| ConfigSession.EndsWithEverything | config/source_network.go:76-133 | a loop that nobody stops, with dialling and deadlines working, ends having installed exactly the configurations of the connections it used, each read to its first error, in order |
| FileSource.ReloadIsNotLost | config/source_file.go:36-94 | after any Reload an update is pending, or a read has begun since and saw a file no older |
| FileSource.ReadsDoNotOverlap | config/source_file.go:63-94 | a read begins only after the one before has finished |
| FileSource.UpdateCanBegin | config/source_file.go:63-94 | a scheduled update can begin at once, or when the read in progress has finished |
| FileSource.WrittenIsSeen | config/source_file.go:63-94 | a read that begins after a write sees something newer than any read before the write did |
| FileSource.EveryReadIsAsked | config/source_file.go:36-94 | between the starts of two reads there was a reload |
| FileSource.StopIsFinal | config/source_file.go:63-68 | after a stop the file is never read again |
| FileSource.StopWaits | config/source_file.go:63-94 | a read in progress is finished before the stop signal is taken |
| FileSource.Queue.Reload | config/source_file.go:36-43 | schedules an update, or leaves the one already scheduled |
| FileSource.Queue.Take | config/source_file.go:66-70 | takes the scheduled update, if there is one |
| Domains.IsDomainName | proxy/domains.go:11-63 | the one-pass scan accepts exactly the label grammar |
| Domains.AcceptedFitsOnWire | proxy/domains.go:12-23 | every accepted name has a wire form of at most 255 octets |
| Domains.AcceptedReadsBack | proxy/domains.go:11-63 | every accepted name can be written to the wire and read back label by label (sections 3.1 and 4.1.4 of RFC 1035) |
| Domains.JoinedIsName | proxy/domains.go:11-63 | labels joined by dots are a name exactly when each is a valid one, there is more than digits and dots, and there are at most 253 characters |
| Domains.FinalDotIgnored | proxy/domains.go:11-23 | a dot at the end makes no difference |
| Domains.Examples | proxy/domains.go:11-63 | labels of up to 63 letters, digits, hyphens and underscores that neither begin nor end with a hyphen |
| Routing.RouteMap.Update | proxy/manager.go:179-198 | installs all routes, or none when a domain is invalid; the index then answers as a linear scan from the end |
| Routing.RouteMap.Get | proxy/manager.go:201-206 | the last route serving the name, whatever the case |
| Routing.Manager.SetRoutes | proxy/manager.go:43-61 | routes and fallback change together or not at all |
| Routing.Manager.RouteForDomain | proxy/manager.go:91-123 | the last route that serves the name in whatever case, or the fallback for a name that none serves, if its certificate is usable |
| Routing.SecondaryGoesToPrimary | proxy/redirector.go:55-70 | a request for a domain no later route claims is redirected to its route's first domain exactly when the route says so, its certificate is usable and the request is not for that domain already |
| Routing.UnservedGoesToFallback | proxy/redirector.go:55-70 | a request for a host no route serves is redirected to the fallback's first domain exactly when there is a fallback, it says so and its certificate is usable |
| Routing.PortIsDropped | proxy/redirector.go:72-79 | the port of a requested host is dropped, of names and of bracketed addresses |
| Routing.HostWithoutPortIsKept | proxy/redirector.go:72-79 | a host without a port is kept, a name or an unbracketed address |
| Routing.PositionIncreases | proxy/redirector.go:55-70 | the route that redirects again is further down the list |
| Routing.RedirectsTerminate | proxy/redirector.go:55-79 | a client following redirects is redirected at most as often as there are routes |
| Routing.ParsedRoutesTerminate | proxy/manager.go:43-61 | this holds of every configuration that parses and installs |
| Routing.LowerCasingTerminatesIff | proxy/redirector.go:55-79 | for clients that lower-case host names the bound holds if and only if no redirecting route serves its own primary and spells it with a capital |
| Routing.CapitalLoops | proxy/redirector.go:55-70 | a route whose primary is `A.b` loops |
| Wildcards.Normalise | certificate/wildcards.go:29-43 | the wildcard list holds exactly the non-empty entries, with a leading dot |
| Wildcards.DotIsOptional | certificate/wildcards.go:29-38 | a configured domain means the same with and without its leading dot |
| Wildcards.ApplyWildcard | certificate/wildcards.go:68-76 | the search has the effect of replacing the text before the first dot iff the rest is configured, so list order is irrelevant |
| Wildcards.ApplyWildcards | certificate/wildcards.go:58-64 | the same for each name of a list |
| Wildcards.RewriteIs | certificate/wildcards.go:17-22 | exactly the names with one label before a configured domain are rewritten, to that domain's wildcard |
| Wildcards.RewriteIdempotent | certificate/wildcards.go:66-76 | rewriting twice is rewriting once |
| Wildcards.RewriteCovers | certificate/wildcards.go:17-19 | the result covers the name it was made from, by the one-label rule of section 6.3 of RFC 9525 |

## Left out

- Redis client, TLS, X.509, OCSP and ACME libraries: their answers are parameters of the model.
- Fallback lock tokens built from process id and time (certificate/store_redis.go:335-336): tokens are assumed fresh.
- RedisLock.Lock.Acquire: models finitely many attempts of a loop that retries forever, because nothing promises that an attempt succeeds.
- JsonStore.Store.GetCertificate: returns a value where the source returns a pointer into the list; suppliers change a certificate through that pointer only on success, and it is then saved, so lookups see the same contents.
- JsonStore locks: the key keeps the order of alt names and the map is unsynchronised; only the Redis lock is modelled.
- CertManager.Manager.GetCertificate: runs over a JsonStore; `ManagerStores.SameOnBothStores` says when a RedisStore makes no difference.
- ManagerStores.SameOnBothStores: takes reads and saves of the hash to succeed; a failed save changes the JsonStore's list in memory but not the hash.
- ConfigPrinter.RoundTrip: error mappings without a path, because url.Parse is a parameter and has no printed inverse here; a single mapping with a path is covered by `ConfigPrinter.MappingWithPathReadsBack`.
- ConfigParser.Parse: error messages are reduced to their kind, white space and case are ASCII, and the scanner's line length limit is not modelled.
- Concurrent certificate passes over one route, whose certificate and status are separate atomics: whether a route is servable is a parameter at each request.
- Header rewriting, error page fetching, decorators, metrics, frontends, flags and main: plumbing, or rules of a single branch.
