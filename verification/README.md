# A verified model of the certificate authority

This project models five parts of the `certificates` repository in Dafny and proves what they are for.

**The ACME order protocol** (the server side of RFC 8555). Accounts, orders, authorizations, challenges
and certificates live in a store. A run is any sequence of requests, registrations and waits; a request
is one step. Every storage call may succeed, fail without effect, or fail after its effect, by an
arbitrary oracle; a failure ends the request and keeps the writes made before it. `AcmeServer` holds the
code in its own form: a database whose calls decide how they end, objects in memory that are changed before
they are saved, loops, early returns. Each of its methods is proved equal to a function of `AcmeProtocol`,
and the server as a whole is proved against the theorems about runs of that function: an inductive
invariant that names the proof behind every ready or valid order and behind every certificate, what the
signer can ever be asked to sign, exactly how many certificates an order has, ownership and deactivation,
which accounts the key index leads to, when an account can no longer order, forward-only statuses, idempotence
of refreshing, and what every kind of request leaves in the store and answers.

**The comparison of a CSR with an order** (`Csr`): lower-casing, sorting, removal of duplicates and
array filling decide the equality of two sets, for every order in which a map is walked.

**The admins** (`AdminCollection`, `AdminPaging`, `AdminAuthority`): four indexes over shared objects with
slices that share backing arrays, two counters, keyset pagination, a cache in front of a database that
may fail, and a cascade that reads a slice while every removal overwrites it.

**The name policy engine** (`PolicyDomain`, `PolicyMailbox`, `PolicyOptions`, `PolicyEngine`,
`PolicyNames`, `PolicyMonotone`, `PolicyCode`): a label splitter and a mailbox parser proved against
grammars, domain matching proved against a statement about letters, scans with early exits proved against a
decision on sets, for any matcher and then for those of the program, up to the verdict on a whole certificate.

**The timing of the TLS renewer** (`Renewer`): a bound on every run of attempts.

Where the code does not meet a property in general, the project says exactly when it does.

- An order has one certificate if it is valid and none if not, plus one for each finalization whose
  certificate was stored while the order was not saved; a run with two certificates is given.
- The key index leads to every account but those whose registration was saved by a call that failed and was
  then unindexed; a run with two accounts for one key is given.
- The common name handed to the signer is an identifier of the order unless the order has a permanent identifier;
  then any common name is handed on, and a run that does so is given for every request.
- The list of an account names a missing order if and only if some step saved the list with a new order by a call
  that failed and then deleted that order. From then on every new order of the account and every listing fails;
  before, without storage failures, listings and acceptable new orders succeed. A run into that state is given.
- `Collection.Update` keeps exact counters exact if and only if the type does not change. With exact counters `Update`
  and `Remove` leave a super admin; after a change of type `Remove` may take the last one, as a witness shows.
- A start of the authority succeeds if and only if its storage calls do and the records are loadable. A first start
  that fails half-way may leave a database from which the next start succeeds without any super admin.
- A failed `CreateAdmin` leaves cache and database equal if and only if it had no effect.
- An email constraint is read back as itself if and only if its local part needs no quotes.
- One more excluded constraint on a kind of names allows no new certificate if and only if the kind has constraints, or
  nothing is permitted explicitly, or it stops every readable name of the kind. One more excluded common name allows
  none if and only if common names are not verified or have constraints, or there is no constraint at all, or every
  common name that it leaves over is allowed as the names it spells.
- One more permitted constraint refuses no new certificate if and only if its kind has one, or there are constraints, it
  matches all that its kind lets through, and it closes no other kind that lets a name through. For common names that
  are verified, it must also be that one is permitted already, or none is excluded, or it matches all that the
  exclusions let through but those allowed as the names they spell. All four kinds of change do harm on concrete names.
- Six retries of the renewer come in time, and the seventh may not.

Characters stand for bytes. Time is in seconds in the ACME modules and in nanoseconds in `Renewer`.

## Model

| member | source | states |
|---|---|---|
| Csr.SansDecideSetEquality | acme/order.go:234-307 | for identifiers of known types and a CSR without email or URI names, `sans` succeeds if and only if the lower-cased DNS names of the CSR with its common name equal those of the order as sets, and the addresses in 16-byte form do too |
| Csr.AcceptedSansAreExact | acme/order.go:287-307 | on success the DNS names and addresses of the order are listed, each once, and nothing else is |
| Csr.AcceptedSansMatchIdentifiers | acme/order.go:234-307 | on success each listed name is that of an identifier of the order, and each identifier but permanent ones is listed |
| Csr.AcceptedCommonName | acme/order.go:326-352 | on success a non-empty common name is, up to case and address form, an identifier of the order |
| Csr.RefusedSans | acme/order.go:234-285 | a refused request has email or URI names, or the order an unknown type, or the names differ, or else the addresses, reported in this order |
| Text.LowerCharIs | acme/order.go:371 | each of the 26 capitals goes to its small letter and every other byte stays |
| Text.LessIs | acme/order.go:380 | the sort order of strings: the first differing byte decides, and a proper prefix comes first |
| Csr.NumberOfIdentifierType | acme/order.go:311-322 | the loop counts the identifiers of one type |
| Csr.Listing | acme/order.go:376-381 | walking a set in any order lists each of its elements once |
| Csr.UniqueSortedLowerNames | acme/order.go:368-381 | for every walk of the map, the result is the sorted list of the set of lower-cased names |
| Csr.UniqueSortedIPs | acme/order.go:383-402 | for every walk of the map, the result is the sorted list of the set of addresses in 16-byte form |
| Csr.CertificateRequest.Canonicalize | acme/order.go:326-355 | the request is changed in place to its canonical form, the common name included |
| Csr.CollectIdentifiers | acme/order.go:240-259 | the two filled arrays hold the values of the DNS and IP identifiers; an unknown type is an error |
| Csr.CompareSans | acme/order.go:263-307 | the two loops, with their length checks and running index, compute the specified comparison |
| Csr.ComputeSans | acme/order.go:234-307 | the method computes the specified result for every request and order |
| AcmeServer.AcmeChallenge.Validate | acme/challenge.go:74-91 | the method changes challenge and store as `ValidateChallenge` says: nothing unless pending, else by the finding |
| AcmeServer.AcmeChallenge.StoreError | acme/challenge.go:728-737 | unless the save is lost, a stored pending challenge has the problem and is invalid exactly if marked so; no other record changes and the invariant is kept |
| AcmeServer.AcmeAuthorization.UpdateStatus | acme/authorization.go:33-69 | record in memory, store and error are those of `RefreshAuthorization` |
| AcmeServer.AcmeOrder.CountStatuses | acme/order.go:88-104 | the loop that refreshes every authorization counts exactly the statuses reached |
| AcmeServer.AcmeOrder.UpdateStatus | acme/order.go:64-126 | record in memory, store and error are those of `RefreshOrder` |
| AcmeServer.AcmeOrder.FindPermanentIdentifier | acme/order.go:164-170 | the value of the first permanent identifier |
| AcmeServer.AcmeOrder.Finalize | acme/order.go:135-231 | record in memory, store, calls to the signer and error are those of `Finalize` |
| AcmeServer.AcmeOrder.Sign | acme/order.go:153-231 | the part after the status check makes at most one call to the signer, recorded whether or not it succeeds, and saves certificate, then order |
| AcmeServer.Server.ValidateNewOrder | acme/api/order.go:32-63 | a request is accepted if and only if it has identifiers and each is well-formed for its type |
| AcmeServer.Server.AddAuthorization | acme/api/order.go:241-281 | the challenges and then the authorization are stored as specified; a failure keeps what was stored before |
| AcmeServer.Server.AddChallenges | acme/api/order.go:260-276 | one pending challenge per enabled type, in order; a failure keeps those before |
| AcmeServer.Server.AddAuthorizations | acme/api/order.go:172-195 | one authorization per identifier, in order, with the order's owner and expiry |
| AcmeServer.Server.PlaceOrder | acme/api/order.go:94-218 | policy check, authorizations, the order record, and the refreshed list of the account, as specified |
| AcmeServer.Database.UpdateOrderList | acme/db/nosql/order.go:123-183 | refreshes the listed orders and saves the list of pending ones with the new one; deletes the new order when the list is not saved |
| AcmeServer.Server.RegisterKey | acme/api/account.go:71-157 | lookup of the key, validation, and creation, as `RegisterAccount` says |
| AcmeServer.Server.HandleAction | acme/api/handler.go:250-332 | the handlers load, check the owner, then act, as `Handle` says |
| AcmeServer.Server.Serve | acme/api/middleware.go:292-335 | one event changes the server as `Step` says; only valid accounts act; the invariant is kept, and records change forward only and for the acting account only |
| AcmeServer.Server.ServeAll | acme/order.go:64-231 | on a new server, any events and any ends of storage calls: the invariant holds, all names handed to the signer are proved, all certificates were signed, certificates and unindexed accounts are exactly as many as accounted for, and lists name a missing order exactly when one was torn off |
| AcmeSafety.RefreshAuthorizationSafe | acme/authorization.go:33-69 | however storage calls end, refreshing keeps the invariant, and an authorization becomes valid only through a valid challenge |
| AcmeSafety.DecideIsTotal | acme/order.go:105-118 | for statuses that authorizations can have, the "unexpected authz status" branch is not taken, and ready means all valid |
| AcmeSafety.RefreshOrderSafe | acme/order.go:64-126 | however storage calls end, refreshing an order keeps the invariant, and ready in memory means all stored authorizations are valid |
| AcmeSafety.FinalizeSafe | acme/order.go:135-231 | however storage calls end, finalizing keeps the invariant |
| AcmeSafety.UpdateOrderListSafe | acme/db/nosql/order.go:123-182 | however storage calls end, refreshing the list of an account keeps the invariant, the deletion of a new order included |
| AcmeSafety.CreateAccountLeaves | acme/db/nosql/account.go:82-118 | which of index entry and account the three calls leave, by how each ends |
| AcmeSafety.NewOrderSafe | acme/api/order.go:94-218 | however storage calls end, a new order keeps the invariant, its authorizations covering its identifiers one by one |
| AcmeSafety.HandleSafe | acme/api/order.go:284-385 | every handler keeps the invariant and moves records of its own account only, forward only |
| AcmeSafety.StepSafe | acme/api/middleware.go:292-335 | every step keeps the invariant, whatever the event and however storage calls end |
| AcmeSafety.RunSafe | acme/order.go:64-231 | in every reachable state: ready or valid orders, and orders with certificates, have only valid authorizations, each with a valid challenge carrying its token and value; a valid order's certificate is stored and is its own |
| AcmeIssuance.SignedNamesAreProved | acme/order.go:135-307 | in every run each name ever handed to the signer, whether or not it signed, is that of an identifier of the order whose authorization is valid through a valid challenge: http-01 or tls-alpn-01 for addresses and plain names, dns-01 for names, device-attest-01 for permanent identifiers; the call came before the order's expiry and carries the stored dates of the order in their order; with a permanent identifier exactly that one is handed on, and else every identifier is listed and a common name is one of them |
| AcmeIssuance.FirstPermanentIdentifierIs | acme/order.go:164-170 | the loop finds the first permanent identifier if it has a value, and nothing otherwise |
| AcmeInvariant.TypesAreAdmitted | acme/api/order.go:388-407 | exactly these challenge types are offered, each once: dns-01 for names, http-01 and tls-alpn-01 for addresses and plain names, device-attest-01 for permanent identifiers |
| AcmePlacing.ChallengesAreAdmitted | acme/api/order.go:388-407 | in every run a stored authorization has only challenges of the types admitted for its kind, with its token and value |
| AcmeRuns.UnprovedCommonName | acme/order.go:156-181 | for every request, a run that has its common name signed for an order of a permanent identifier, of which it is no identifier |
| AcmeIssuance.WildcardsAreProvedByDns | acme/api/order.go:388-407 | in every run each name starting with `*.` handed to the signer has a valid authorization of its order with a valid dns-01 challenge for the domain below it |
| AcmeCertificates.ChainIsStored | acme/order.go:216-231 | which of certificate and order are stored, by how the three calls end |
| AcmeCertificates.CertificatesAreCounted | acme/order.go:207-231 | in every run the number of an order's certificates is one if it is valid and else zero, plus the number of finalizations whose certificate was stored while the order was not saved |
| AcmeCertificates.OneCertificateWithoutFailures | acme/order.go:222-231 | without storage failures an order has a certificate if and only if it is valid, and then exactly the one it names |
| AcmeRuns.TwoCertificates | acme/order.go:216-231 | a run from the empty store, with one lost save, that ends with two certificates of one order |
| AcmeCertificates.CertificatesAreSigned | acme/order.go:207-223 | in every run each stored certificate is the chain that a call of the signer for its order returned |
| AcmeCertificates.EveryCertificateIsProved | acme/order.go:72-86 | in every run each stored certificate came from a call before its order's expiry, all of whose names are proved |
| AcmeAccounts.OthersAreUntouched | acme/api/order.go:305-315 | a step by one account changes and adds no order, authorization, challenge, certificate, order list or account of another |
| AcmeAccounts.InactiveAccountsDoNothing | acme/api/middleware.go:314-330 | an account that is not valid changes nothing and has nothing signed |
| AcmeAccounts.DeactivationIsFinal | acme/api/account.go:189-196 | over every run after a deactivation the account stays deactivated and none of its records changes or is added |
| AcmeRequests.DeactivationTakesEffect | acme/api/account.go:160-205 | in every run, once a deactivation was answered without error, the account is deactivated, its records stay as they are, and all its later requests fail |
| AcmeRequests.AccountChanges | acme/api/account.go:160-205 | which changes are malformed; an accepted one stores the deactivation or exactly the contacts given unless its write is lost; one that asks for nothing changes nothing; and when the answer is without error |
| AcmeRequests.RegistrationIs | acme/api/account.go:71-157 | without storage failures: in which order and why a registration is refused, and the account and index entry that it makes |
| AcmeAccounts.DeactivatedKeyIsSpent | acme/api/account.go:71-157 | once an account that its key leads to is deactivated, no later run adds an account with the key, and every registration of it is refused |
| AcmeAccounts.UnindexedAreOrphaned | acme/db/nosql/account.go:102-117 | in every run the accounts that their key does not lead to are exactly as many as registrations saved by a call that failed and then unindexed |
| AcmeAccounts.SharedKeyNeedsOrphan | acme/db/nosql/account.go:102-117 | two accounts share a key only after such a registration |
| AcmeAccounts.TwoAccountsOneKey | acme/db/nosql/account.go:102-117 | a run after which two accounts share a key |
| AcmeAccounts.StatusesGoForward | acme/order.go:67-121 | a step never takes a record away, and a status changes only upwards; valid and invalid are final |
| AcmeAccounts.FewStatusChanges | acme/challenge.go:74-78 | every run changes the status of an order at most twice, of an authorization and of a challenge at most once |
| AcmeLists.ListDangles | acme/db/nosql/order.go:123-183 | a list that names a missing order stays and the call fails; any other comes to name one if and only if the list with a new order is saved by a call that fails and the order is deleted |
| AcmeLists.DanglingIsTorn | acme/db/nosql/order.go:172-180 | in every run the list of an account names a missing order if and only if a step of the run did that |
| AcmeLists.NoMoreOrders | acme/db/nosql/order.go:146-150 | once it does, no later new order of the account and no listing of its orders succeeds, over every run |
| AcmeLists.ListingWorks | acme/db/nosql/order.go:123-183 | without storage failures the list can be refreshed if and only if it names no missing order |
| AcmeLists.OrdersWork | acme/api/order.go:94-218 | without storage failures a new order succeeds if and only if the request is well-formed and allowed, tokens can be made, and the list names no missing order |
| AcmeRuns.StuckAccount | acme/db/nosql/order.go:172-180 | a run from the empty store after which, although no call fails any more, every new order of the account fails |
| AcmeRefresh.RefreshOrderIs | acme/order.go:64-126 | without storage failures, refreshing gives the status that a closed formula reads off the expiry and the challenges, and settles every authorization |
| AcmeRequests.Passing | acme/api/middleware.go:292-335 | only a stored valid account gets to a handler; any other changes nothing and is refused |
| AcmeRequests.ChallengeAnswers | acme/challenge.go:74-145 | a pending challenge of the account becomes valid from now on if proved, invalid with the problem after a final failure, and stays pending with the problem after another, unless the save is lost; nothing else changes; and when the answer is without error |
| AcmeRequests.ForeignRequestsAreRefused | acme/api/order.go:305-315 | a request for a record of another account, or an order of another provisioner, changes nothing and is refused as unauthorized |
| AcmeRequests.UnknownRecordsAreRefused | acme/api/order.go:300-304 | a request for a record that is not stored changes nothing and fails |
| AcmeRequests.FetchedOrderIs | acme/api/order.go:284-325 | without storage failures a fetched order is stored with its status at the time |
| AcmeRequests.FetchedAuthorizationIs | acme/api/handler.go:250-279 | without storage failures a fetched authorization is stored with its status at the time, and nothing else changes |
| AcmeRequests.FineMeansIssued | acme/order.go:135-231 | however storage calls end, a finalization without error leaves the order valid with a stored certificate of its own |
| AcmeRequests.FinalizationIs | acme/order.go:135-231 | without storage failures: the answer by the status of the order at the time, the one call of the signer with its time, names and dates, and the stored order and certificate |
| AcmeRequests.ClockIs | acme/api/order.go:170 | the clock of a run moves by waiting only |
| AcmePlacing.RefusedOrders | acme/api/order.go:32-63 | per kind of identifier which requests are malformed; which are not allowed; neither changes anything |
| AcmePlacing.NewAuthorizationIs | acme/api/order.go:241-281 | without storage failures an authorization is pending, with exactly one pending challenge for each enabled and admitted type |
| AcmePlacing.PlacedOrderIs | acme/api/order.go:94-218 | without storage failures an acceptable request stores one order, pending for a day, with the dates asked for or the defaults, one such authorization per identifier, and its place at the end of the list |
| AcmePlacing.SavedListIs | acme/db/nosql/order.go:144-183 | without storage failures the saved list holds the listed orders still pending, in order, and the new one |
| AcmePlacing.ListedOrdersAre | acme/db/nosql/order.go:184-187 | a listing saves the orders still pending, in order |
| AcmeRefresh.RefreshIsIdempotent | acme/order.go:80-121 | at a fixed time, refreshing an order twice is the same as once |
| AcmeRefresh.AuthorizationFirstMakesNoDifference | acme/api/handler.go:250-279 | at a fixed time, refreshing any authorization first gives the same order status |
| AcmeRefresh.NoUnexpectedStatus | acme/order.go:116-118 | whatever the store holds and however storage calls end, the "unexpected authz status" branch is never taken |
| AdminCollection.Collection.constructor | authority/administrator/collection.go:38-46 | an empty collection has agreeing indexes and exact counters |
| AdminCollection.Collection.Store | authority/administrator/collection.go:82-120 | for any provisioner argument: which calls fail and why; on success all four indexes gain the admin; on failure nothing changes; indexes agree and counters stay exact |
| AdminCollection.Collection.Append | authority/administrator/collection.go:102-103 | appending keeps the elements, in the same backing array while there is room and else in a new one |
| AdminCollection.Collection.Search | authority/administrator/collection.go:144 | binary search splits the sorted list at the key |
| AdminCollection.Collection.Overwrite | authority/administrator/collection.go:150-159 | the loop writes the last element over the one with the id and nothing else |
| AdminCollection.Collection.Remove | authority/administrator/collection.go:123-178 | which calls fail and why, an unknown or renamed provisioner included; on success all four indexes lose the admin, its provisioner's slice in place; on failure nothing changes; indexes agree, counters stay exact, and with exact counters a super admin remains |
| AdminCollection.Collection.Update | authority/administrator/collection.go:181-195 | when a change of type is refused; indexes keep agreeing; exact counters stay exact if and only if the type does not change; with exact counters a super admin remains |
| AdminCollection.LoseSuperAdmins | authority/administrator/collection.go:123-195 | two super admins are stored, one is made plain and the other removed: no super admin is left, although removals guard the last one |
| AdminCollection.Collection.Find | authority/administrator/collection.go:211-231 | the page and the next cursor are those of the clamped limit |
| AdminCollection.GetAdmins | ca/adminClient.go:247-263 | on an unchanging collection the cursor loop ends and returns all admins in order |
| AdminCollection.InsertByIdProperties | authority/administrator/collection.go:116-117 | insertion keeps the list strictly sorted and adds exactly the admin |
| AdminCollection.ReplaceByLastProperties | authority/administrator/collection.go:150-159 | replacing by the last element removes exactly the admin |
| AdminCollection.AgreeAfterStore | authority/administrator/collection.go:82-120 | adding an admin to byID, bySubProv, byProv and the sorted list keeps them in agreement |
| AdminCollection.AgreeAfterRemove | authority/administrator/collection.go:123-178 | taking an admin out of byID, bySubProv, byProv and the sorted list keeps them in agreement |
| AdminCollection.CountedAfterStore | authority/administrator/collection.go:100-114 | counting a new super admin keeps both counters true |
| AdminCollection.CountedAfterRemove | authority/administrator/collection.go:173-176 | uncounting a super admin keeps both counters true |
| AdminPaging.NextIsEmptyAtTheEnd | authority/administrator/collection.go:226-231 | the next cursor is empty if and only if the page reaches the end |
| AdminPaging.TraversalIsComplete | authority/administrator/collection.go:211-231 | a traversal to the empty cursor returns ids in strictly increasing order and every id present throughout, even if others come and go between pages |
| AdminPaging.CallsOnUnchangingCollection | ca/adminClient.go:247-263 | a traversal of n unchanging admins ends with call max(1, ceil(n/limit)) and no other |
| AdminAuthority.LoadProvisioners | authority/authority.go:227-235 | loading provisioners succeeds if and only if ids and names are distinct, and then holds all of them |
| AdminAuthority.LoadAdmins | authority/authority.go:236-247 | loading admins succeeds if and only if every one has a provisioner and ids, and subjects within a provisioner, are distinct; then the collection holds exactly them, with exact counters |
| AdminAuthority.Authority.New | authority/authority.go:582-621 | a start succeeds if and only if the reads and first writes succeed, the first admin's id is new, and the records, or without the admin API the configuration, are loadable; what the database then holds; a success leaves agreeing indexes, exact counters, every admin with its provisioner, and with the admin API a cache equal to the database; from a database without provisioners there is a super admin |
| AdminAuthority.Authority.SetUp | authority/authority.go:596-616 | whether the first provisioner and its super admin are stored, and which of them a failure leaves behind |
| AdminAuthority.StartTwice | authority/authority.go:596-621 | after a first start whose super admin was not stored, the next start succeeds and no super admin exists |
| AdminAuthority.Authority.Reload | authority/authority.go:198-255 | from database or configuration: succeeds if and only if the reads succeed and the records are loadable; then cache and database are equal and counters exact; a failed reload leaves the old collections in place |
| AdminAuthority.Authority.StoreAdmin | authority/admins.go:35-58 | for any provisioner argument: from a cache equal to the database the repair is never needed, and they stay equal unless the write failed after its effect |
| AdminAuthority.Authority.UpdateAdmin | authority/admins.go:61-75 | from a cache equal to the database they stay equal unless the repair failed, which it does only when a read fails; a repair makes counters exact |
| AdminAuthority.Authority.RemoveAdmin | authority/admins.go:78-97 | the same for a removal, with what it does to the backing array of the slice |
| AdminAuthority.Authority.RemoveProvisioner | authority/provisioners.go:245-288 | with the admin API and exact counters it is refused if and only if the provisioner is unknown or no other super admin exists; when accepted, exactly the provisioner's admins are gone, each removed by one database call, and a super admin remains; records of other admins are never touched, whatever fails; without the admin API only the provisioner goes |
| AdminAuthority.Authority.RemoveAll | authority/provisioners.go:266-273 | the loop over the slice that changes under it removes every element that was there at the start, once |
| AdminAuthority.CascadeStep | authority/provisioners.go:268-269 | round i reads element i of the slice as it was at the start, although rounds before it overwrote the array |
| AdminAuthority.GuardMeans | authority/provisioners.go:257-263 | with exact counters the guard holds if and only if no super admin belongs to another provisioner |
| AdminAuthority.IndexedIsLoadable | authority/authority.go:236-247 | what an agreeing cache holds can be loaded again, so a repair fails only when a read does |
| PolicyDomain.ReverseLabelsAre | policy/validate.go:290-321 | labels are returned if and only if they are non-empty, without periods, over bytes 33 to 126, and spell the name with at most one leading period |
| PolicyDomain.LabelIs | policy/validate.go:306-318 | a label is not empty and has only visible bytes other than the period |
| PolicyDomain.HasEmptyLabelIs | policy/validate.go:504 | an empty label is two periods in a row |
| PolicyDomain.DomainToReverseLabels | policy/validate.go:290-321 | the two loops return these labels, or fail |
| PolicyDomain.MatchDomainConstraint | policy/validate.go:471-550 | the checks and the loop over labels compute `MatchDomain` |
| PolicyDomain.DomainMatches | policy/validate.go:471-550 | which names match letter by letter: without a leading period the same name up to case, with one exactly one more label in front; and exactly which pairs are an error |
| PolicyDomain.BlockedIs | policy/validate.go:478-501 | blocked are a space, names that start with a period, and names with an asterisk but for a leading `*.` where literal wildcards are allowed |
| PolicyDomain.MatchedWildcards | policy/validate.go:488-501 | a matched name has an asterisk only as a leading `*.`, and only where literal wildcards are allowed |
| PolicyDomain.FoldedLabels | policy/validate.go:543-547 | names are equal up to case if and only if their labels are, one by one |
| PolicyMailbox.ParseRFC2821Mailbox | policy/validate.go:334-468 | the parser's loops compute `Parse` |
| PolicyMailbox.ReadQuoted | policy/validate.go:341-400 | the loop over a quoted string, escapes included |
| PolicyMailbox.ReadAtoms | policy/validate.go:401-435 | the loop over atoms, periods and escapes |
| PolicyMailbox.QuotedBytes | policy/validate.go:341-400 | the bytes of quoted strings, escaped and plain |
| PolicyMailbox.AtomBytes | policy/validate.go:421-429 | the bytes of atoms are the visible ones without the specials of RFC 822 |
| PolicyMailbox.ParseIsGrammar | policy/validate.go:334-468 | a string is read as a mailbox if and only if the grammar derives it, quoted or in atoms |
| PolicyMailbox.QuotedRoundTrip | policy/validate.go:341-400 | any local part over bytes 1-9, 11, 12, 14-127 in quoted form, with any domain that splits, is read back |
| PolicyMailbox.PlainRoundTrip | policy/validate.go:401-468 | written plainly a mailbox is read back if and only if its local part is a dot-atom |
| PolicyOptions.NormalizedDnsIsReadable | policy/options.go:272-300 | for any ASCII conversion, a normalized DNS constraint never makes matching a readable name fail |
| PolicyOptions.AcceptedDns | policy/options.go:272-300 | a DNS constraint is accepted if and only if it is not empty, has no empty label and no leading period, an asterisk only as its leading label or alone, and an ASCII form that labels spell; and what it becomes |
| PolicyOptions.AcceptedEmail | policy/options.go:302-343 | an email constraint is accepted if and only if it is not empty, has no asterisk and at most one `@`, does not start with a period, is a mailbox or a domain, and its ASCII form is made of labels; and what it becomes |
| PolicyOptions.AcceptedUri | policy/options.go:345-386 | the same for a URI domain: no scheme, empty label, leading period, brackets, port or IP address, and an asterisk only in front |
| PolicyOptions.TrimSpaceIs | policy/options.go:272-273 | trimming takes all space off both ends and nothing else |
| PolicyOptions.SpacesAre | policy/options.go:273 | which six bytes count as space |
| PolicyOptions.ConfiguredDnsMeans | policy/options.go:289-300 | what an accepted ASCII constraint matches: `*.x` exactly one more label before `.x`, any other the same name up to case |
| PolicyOptions.EmailConstraintReparses | policy/options.go:302-343 | a normalized constraint with an `@` is read back as the normalized mailbox if and only if its local part is a dot-atom |
| PolicyOptions.NormalizedEmailIsReadable | policy/validate.go:577-589 | without quotes and backslashes a normalized email constraint is never reported unparseable, and with an `@` matches exactly the normalized mailbox |
| PolicyOptions.QuotedConstraintIsUnreadable | policy/options.go:319-333 | a quoted constraint that is accepted and that no mailbox can be matched with |
| PolicyEngine.CheckNameConstraints | policy/validate.go:226-286 | the scans with early exits compute `CheckName` for any deterministic matcher |
| PolicyEngine.CheckIsDecision | policy/validate.go:226-286 | when no comparison fails, a name passes if and only if no excluded constraint matches and a permitted one does or none is given, in any list order |
| PolicyEngine.CheckIs | policy/validate.go:226-286 | when comparisons may fail: an error is reported that comes before any match, excluded constraints first |
| PolicyEngine.RemoveDuplicates | policy/engine.go:171-219 | the loop with its seen-map keeps the first item of every key, in order |
| PolicyEngine.UniqueIsExact | policy/engine.go:171-219 | the result holds every key of the list and none twice |
| PolicyEngine.DuplicatesDoNotMatter | policy/engine.go:134-146 | removing duplicates changes neither whether a name passes nor the reason |
| PolicyNames.NamePolicyEngine.constructor | policy/engine.go:126-166 | the engine holds the policy without duplicates and true counts |
| PolicyNames.NamePolicyEngine.CheckAll | policy/validate.go:37-82 | one loop of validateNames finds the first refusal of its kind |
| PolicyNames.NamePolicyEngine.ValidateNames | policy/validate.go:24-181 | the five loops compute `Validate` |
| PolicyNames.AllowedMeans | policy/validate.go:24-181 | names are allowed if and only if there is no constraint or every single name is allowed |
| PolicyNames.RefusalIsFirst | policy/validate.go:24-181 | a refusal is that of the first refused name: DNS names first, then IP addresses, email addresses, URIs, principals |
| PolicyNames.CommonNameRefusalIs | policy/validate.go:210-221 | a refused common name is reported as one, for the reason that the name it spells is refused |
| PolicyNames.DuplicatesAreGone | policy/engine.go:171-219 | one IP range is left for each CIDR notation, and each constraint of another kind once |
| PolicyNames.DuplicatesChangeNothing | policy/engine.go:134-146 | for all names, the verdict with name, kind and reason is the same with and without duplicates |
| PolicyNames.DuplicatesChangeNoCommonName | policy/validate.go:184-221 | the same for the common name |
| PolicyNames.NamePolicyEngine.CheckCommonName | policy/validate.go:184-221 | the common name is decided on by its own constraints, and else as the names it spells, as `ValidateCommonName` says |
| PolicyNames.NamePolicyEngine.IsCertificateAllowed | policy/engine.go:235-246 | the names, and then the common name if it is verified, as `ValidateCertificate` says |
| PolicyMonotone.ExclusionsAreMonotone | policy/validate.go:37-48 | for all rules and policies, when one more excluded constraint of any kind allows no new certificate, names and common name, both directions |
| PolicyMonotone.PermissionsAreMonotone | policy/validate.go:257-283 | for all rules and policies, when one more permitted constraint of any kind refuses no new certificate, names and common name, both directions |
| PolicyCode.AnExclusionMayAllow | policy/validate.go:41-48 | by the program's own matcher: permitting an email address refuses the DNS name x, and excluding the name y then allows it |
| PolicyCode.APermissionMayRefuse | policy/validate.go:257-283 | by the program's own matcher: without constraints the DNS name x is allowed, and permitting the name y refuses it |
| PolicyCode.AnExcludedCommonNameMayAllow | policy/validate.go:195-205 | by the program's own matchers: excluding the DNS name x refuses the common name x, and excluding the common name y then allows it |
| PolicyCode.APermittedCommonNameMayRefuse | policy/validate.go:195-205 | by the program's own matchers: with the DNS name y permitted and the common name z excluded, the common name x is allowed, and permitting the common name y refuses it |
| PolicyCode.AsteriskIsSafe | policy/validate.go:630-636 | excluding the principal `*` is safe in every policy, permitting it in every policy that permits something |
| PolicyCode.DnsDecision | policy/validate.go:49-82 | a readable DNS name against normalized constraints is decided without error by their sets, with matches as stated letter by letter |
| PolicyCode.EmailDecision | policy/validate.go:101-138 | the same for a mailbox; a constraint with an `@` matches the mailbox it spells, up to the case of the domain, whatever that domain is |
| PolicyCode.UriDecision | policy/validate.go:592-627 | a URI whose host is empty, has an asterisk or a port that cannot be split off, stands in brackets or is an IP address cannot be matched with any constraint; a host that does not split passes only an empty one in front; any other is decided by the sets, letter by letter |
| PolicyCode.NamesDecision | policy/validate.go:24-181 | the verdict on all DNS names, IP addresses, email addresses, URIs and principals: allowed if and only if there is no constraint, or each is readable, of a kind that is open, hits no excluded constraint, and hits a permitted one if there is any |
| PolicyCode.RefusalIs | policy/validate.go:37-178 | a refused name is reported with its kind and the reason: not allowed, not readable as a domain or mailbox, or not matchable |
| PolicyCode.CertificateDecision | policy/engine.go:235-246 | the same for a whole certificate: its verified common name is also empty, or passes constraints of its own, or is allowed as the names it spells |
| Renewer.TLSRenewer.New | ca/renew.go:50-81 | fails if and only if the period is below a minute; defaults are a third and a twentieth of the period and make every random bound positive |
| Renewer.TLSRenewer.NextRenewDuration | ca/renew.go:186-194 | a delay is never negative, leaves the lead before the end and less than a jitter and a second more, and is zero only where less is left already |
| Renewer.TLSRenewer.Run | ca/renew.go:84-90 | the first attempt is not in the past, and lies in that window before the end of the certificate |
| Renewer.TLSRenewer.RenewCertificate | ca/renew.go:171-184 | an attempt changes certificate and timer as a step of a run does |
| Renewer.FirstAttempt | ca/renew.go:186-194 | a first attempt that is not cut off leaves between a third of the period and a third, a twentieth and a second |
| Renewer.TwoMinutes | examples/README.md:318-320 | for two minutes it comes after 74 to 80 seconds |
| Renewer.AttemptsAreEarly | ca/renew.go:171-194 | over every run of failures and renewals, the next attempt is at most one jitter per failure in a row later than the lead before the end |
| Renewer.SixRetriesInTime | ca/renew.go:171-184 | over every run, up to the sixth retry in a row an attempt is made before the certificate ends |
| Renewer.SeventhMayBeLate | ca/renew.go:171-184 | the seventh may come after it, so six is the best bound |

## Left out

- HTTP, JSON, JWS and nonces, TLS, CBOR, x509 parsing and signing, templates, key management: their outcomes are parameters of the steps.
- The network checks of the challenge validators: a validator's finding (proved, unproved and final or not, or aborted) is a parameter.
- Interleavings inside one handler and the locks: a request is one step, with one reading of the clock.
- External account binding, and certificates read back or revoked: they change none of the records modelled.
- Updates read the record before they write it; the model makes one call of the two, since a failed read ends them without effect as a lost write does. The reads of an authorization and its challenges are one call too.
- Random ids of ACME records and serial numbers are taken to be fresh; an admin's random id is a parameter and may collide.
- Lower-casing and case folding are those of ASCII; Unicode case and Unicode white space are not modelled.
- net.ParseIP and net.IP.String are parameters with laws (parsing yields no address or one of 16 bytes, printing depends on the 16-byte form, and parsing undoes printing).
- AdminCollection.Collection.Update: requires a known id, because the code dereferences the missing admin; the returned admin is not modelled.
- AdminAuthority.Authority.UpdateAdmin: requires a known id for the same reason.
- Reading, converting and initialising provisioners is one call that may fail; token ids and keys of provisioners are not modelled.
- StoreProvisioner, UpdateProvisioner and the linked CA: they would add members of the same kind.
- PolicyDomain.DomainMatches: requires a name that is neither empty nor a lone asterisk unless the constraint is empty, because the code indexes into it; the decisions require the same of the domains they compare.
- PolicyOptions.NormalizedEmailIsReadable: assumes that the ASCII conversion brings in no `@`, and excludes a lone `@`, which the code indexes past.
- ASCII conversion (IDNA) is an arbitrary function otherwise.
- PolicyCode.EmailDecision: takes constraints configured without quotes and backslashes, since others may be accepted and then be unreadable.
- PolicyCode.NamesDecision: assumes that conversion to ASCII of a mail domain that splits into labels yields one that does.
- Containment in an IP range, the host part of a URI, splitting a port off and recognising an IP address are parameters of the program's rules: they are foreign code; equal CIDR notation must mean equal containment.
- SSH certificates, the splitting of names into kinds, and the policy options that only fill lists.
- The renewer's lock, Stop, and the forced renewal of an expired certificate; attempts take no time.
- One-time tokens, revocation, SCEP, SSH, CLI, logging, monitoring, configuration and PKI file generation.
