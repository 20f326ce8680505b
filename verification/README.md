# Mycota: a Dafny model of its stateful packages

This project models the parts of the Mycota packages that hold state over time,
and proves what they promise. `dafny verify dfyconfig.toml` checks all of it.

| files | what they model |
|---|---|
| `CmsModel`, `CmsRegistry`, `CmsWrites`, `CmsIntegrity`, `CmsOutcomes` | content types and items, the registry's checks, the six generic writes as functions of the stored content, what every write of every run keeps, and what each write leaves, spelt out |
| `CmsCascade`, `CmsIndex`, `CmsService`, `CmsCache` | the read index, the cascading delete, the service as a class over a store with its read cache, and how stale what that cache serves can be |
| `CmsMemoryStore`, `CmsAddresses`, `CmsTable`, `CmsDynamoStore` | the in-memory store, single-table addresses, a table that pages and fails as it likes, and the table-backed store that refines the in-memory one |
| `CmsCalls`, `CmsOnTable`, `CmsRefusal` | the store calls of each write, whole service runs on the table, and the deletion that the table refuses |
| `OAuthStore`, `OAuthProtocol`, `OAuthSafety`, `OAuthLineage`, `OAuthSweep`, `OAuthService` | the authorization server as a state machine of unboundedly many requests interleaving at their store calls, its invariants, and the service's methods as runs of that machine |
| `OtpStore`, `OtpLimiter`, `OtpIdentifiers`, `OtpService`, `OtpSweep`, `OtpBudget` | one-time codes: the send limiter, single use in sequence, the attempt budget under interleaving, and the TTL sweep under interleaving |
| `Postgres`, `Migrations` | transactions over an async-local client, as a program tree with arbitrary faults, and resumable migrations |
| `Ssm` | parameters under path prefixes: paginated listing, loading, cloning, deleting |
| `Slug` | slugs in normal form and the least free suffix |
| `Prelude`, `Text` | `Option`, `Result`, two sequence helpers, trimming and case |

Code that changes fields or loops is a class or a method with a loop here, and
each such method is tied to a specification function about which the lemmas
speak; code made of expressions is functions.

## How the environment enters

- Clocks, random ids and secrets, generated codes and the current user are
  parameters. Secrets never repeat (`OAuthProtocol.Unused`), and a creation's random id is
  new (`CmsIntegrity.Fresh`).
- SHA-256 and HMAC are datatypes over their preimage, hence injective.
- An app's hooks (`fields`, `makeId`, `defaultStatus`, `onDelete`, `publish.cascade`) are
  function fields of `EntitySpec`. `CmsIntegrity.HooksSafe` is their contract: made ids are
  new; deletion effects remove only items of types without children, and rewrite only
  the app's own properties of items that stay. A hook that throws returns an error, which
  the write passes on. A property that `fields` returns as undefined clears the stored one
  (`CmsModel.Overlay`). On the table, `CmsOnTable.HooksPlain` also asks that hooks use none of
  the key properties and name removed items at the address they are stored at, and
  `CmsOnTable.HooksApart` that a deletion's effects remove distinct items outside the subtree
  it takes anyway.
- `CmsModel.Registry.Acyclic` numbers parent types; without it the cascade need not end.
- DynamoDB, SSM and Postgres are classes or functions that choose page sizes, page
  contents, unprocessed keys, listing positions and faults arbitrarily.

## Where the code and its documentation part

- An unsaved fixed id reads as an empty stub, a row without a status counts as published,
  and `publishedAt` moves only when something *becomes* published: so the first save
  of a fixed id with status `published` records no publication time. Over whole runs a published
  fixed id has one if and only if it was unpublished at some moment since it was first saved:
  `CmsIntegrity.FixedIdStampedIff`.
- The table-backed store is documented as a drop-in for the simple one. A deletion whose
  `onDelete` effect removes an item of the subtree, or one item twice, succeeds on the simple
  store, and the table refuses it: a batch must not repeat a key. `CmsRefusal.RefusedDeletion`
  is such a deletion; `CmsOnTable.DeletionServedIff` says exactly when a deletion goes through.
- The cache lifetime is documented as the window in which other instances see an edit.
  It is counted from a stamp made after the load returns, so the bound is the lifetime plus
  the load's latency. `CmsCache.HitWithinTtlIff` says exactly which cached read keeps the documented
  bound, and `CmsCache.TtlBoundIff` that all of them do if and only if loads take no time.
- Cleaning up pending codes by their `ttl` is documented as harmless. It is, however calls overlap, if
  and only if no call lasts longer than 30 minutes and half a second: `OtpSweep.UnobservableIff`. The bound is below
  the 50 minutes between a code's expiry and its sweep, because a request that stalls can put its
  record over a newer one, in a window that is nearly two hours old: `OtpSweep.StalledGuess`.
- `transaction` returns what its work returns once COMMIT succeeds. If the work caught the error of a
  failed query, Postgres answers that COMMIT by rolling back: the call returns and nothing
  stays (`Postgres.CaughtFailureUndoesAll`). `Postgres.TransactionsAreAtomic` has the exact condition.
- The send limit's comment says "rolling window"; the code's window is fixed from its first
  send. `OtpLimiter` follows the code: five per window, nine in any hour, and
  `OtpLimiter.NineIsReached` is a run that reaches nine.
- A slug is its own slug unless the cap is between 1 and 7 and the fallback `untitled` is
  cut short: `Slug.SlugifyIdempotentIff`.
- `applyMigrations` does not add the ids it applies to the set it skips, so an unapplied id listed
  twice fails on the primary key: `Migrations.RunSucceedsIff`.
- A put that moves a stored child to another parent leaves its old row in the table, and a
  removal that names an item at another parent's address misses it: `CmsAddresses.PutKeepsStepIff`,
  `CmsAddresses.RemoveKeepsStepIff`. The service's own writes do neither.

## Model

| member | source | states |
|---|---|---|
| CmsRegistry.Register | packages/cms/src/registry.ts:8-16 | registration succeeds exactly when names are distinct and every parent is registered; a repeated name is the error exactly when names repeat |
| CmsRegistry.RegisteredIsChecked | packages/cms/src/registry.ts:8-36 | registered types pass the lookup and parent checks every other module relies on |
| CmsIntegrity.AssembleFacts | packages/cms/src/content.service.ts:216-234 | a composed item has the given id, its parent's id as link, the decided status and stamp, and keeps its creation time |
| CmsIntegrity.AssembleKeepsFields | packages/cms/src/content.service.ts:224-233 | every other property is the spec's if it gives one, else what was stored; the writer and time are recorded |
| CmsIntegrity.CreatedStatus | packages/cms/src/content.service.ts:77-84 | new roots start as drafts, new children take their parent's status, a given status wins, and an item created published is stamped |
| CmsIntegrity.UpdatedStatus | packages/cms/src/content.service.ts:86-93 | updates keep the status unless one is given, and stamp the item exactly when it becomes published |
| CmsIntegrity.CreateKeeps | packages/cms/src/content.service.ts:77-84 | creating keeps every stored link naming something that exists, and leaves other items alone |
| CmsIntegrity.UpdateKeeps | packages/cms/src/content.service.ts:86-93 | updating keeps links sound and never changes an item's id, parent link or creation time |
| CmsIntegrity.UpdateFindsParent | packages/cms/src/content.service.ts:86-93 | updating a stored item, by id or scoped to its own parent, finds the item and its parent, and fails exactly when the spec's fields do in that one context, with their error |
| CmsIntegrity.LocatesIff | packages/cms/src/content.service.ts:194-206 | an item is found exactly when it is stored under the parent a scoped reference names, or is an unsaved fixed id, whose parent exists if one is named; the latter reads as a stub |
| CmsIntegrity.RestatusTouches | packages/cms/src/content.service.ts:155-158 | a status change touches the status, its stamp, and who changed the item when; nothing else |
| CmsIntegrity.SetStatusIsAllOrNothing | packages/cms/src/content.service.ts:145-163 | an error, before any write, exactly when some type or id is unknown, that of the first; else exactly the named items whose status differs change, and on a list without repeats their number is returned |
| CmsIntegrity.SetStatusTwice | packages/cms/src/content.service.ts:145-163 | repeating a successful status change returns 0 and leaves the store equal |
| CmsIntegrity.PublicationIsPublic | packages/cms/src/content.service.ts:169-185 | a successful publication makes public the item and everything its hook names, changes nothing else, and returns the item; the hook is asked for linked items only if the caller asked, and for children unless the caller declined them and asked for no linked items |
| CmsOutcomes.CreatesIff | packages/cms/src/content.service.ts:77-84 | exactly when a creation succeeds, and in which order its refusals come: fixed ids, no parent named, unknown parent, the spec's own error |
| CmsOutcomes.CreatedIs | packages/cms/src/content.service.ts:77-84 | a creation stores one item: under the id the type makes, else the random one; with exactly the fields its spec returned, the parent's id as link, and who created it when |
| CmsOutcomes.UpdatedIs | packages/cms/src/content.service.ts:86-93 | an update stores the fields its spec returned, and where the spec was silent what was stored, under the item's own id, link and creation time; it succeeds exactly when item and parent are there, a scoped reference fits, and the spec accepts |
| CmsOutcomes.PublishesIff | packages/cms/src/content.service.ts:169-185 | a publication succeeds exactly for a stored item of a type that publishes, whose hook names stored items only; a failed one changes nothing |
| CmsOutcomes.DeletionIs | packages/cms/src/content.service.ts:99-130 | a deletion leaves exactly what is neither under the item nor removed by an effect, each item as its last put among the effects has it, else as it was; it returns the parent as stored then |
| CmsOutcomes.RemovesIff | packages/cms/src/content.service.ts:99-104 | a deletion succeeds exactly for a stored item of a type without fixed ids, by id or under its own parent |
| CmsOutcomes.DraftDeletionIs | packages/cms/src/content.service.ts:133-142 | a draft deletion is that deletion, without the parent in return; what does not exist is not found, anything else is refused |
| CmsOutcomes.CountsItsPuts | packages/cms/src/content.service.ts:154-162 | the number a status change returns is the number of puts it makes, whatever the list repeats |
| CmsIntegrity.SurvivorsKeepParents | packages/cms/src/content.service.ts:99-121 | what a deletion leaves still has its parents |
| CmsIntegrity.RemoveTakesTheSubtree | packages/cms/src/content.service.ts:99-123 | deleting takes exactly the item, all that hangs off it, and what its effects name; the rest keeps ids, links and stamps |
| CmsIntegrity.RemoveReturnsParent | packages/cms/src/content.service.ts:125-129 | a deletion past its checks succeeds: the parent it returns is still there |
| CmsIntegrity.RemovesOnlyDrafts | packages/cms/src/content.service.ts:133-142 | a draft deletion succeeds exactly for stored drafts of deletable types, and otherwise changes nothing |
| CmsIntegrity.StepKeeps | packages/cms/src/content.service.ts:77-185 | every one of the six writes keeps the content sound and every surviving item's identity |
| CmsIntegrity.RunsStaySound | packages/cms/src/content.service.ts:77-251 | over every run from an empty store: no orphans, creation times never change, publication times change only when something becomes published, and published items without fixed ids have one |
| CmsIntegrity.FixedIdStampedIff | packages/cms/src/content.service.ts:204-251 | over every run, a published fixed id has a publication time if and only if it was unpublished at some moment since it was first saved |
| CmsIntegrity.FirstSaveOfFixedId | packages/cms/src/content.service.ts:204-204 | the first save of a fixed id records no publication time, whatever its status |
| CmsCascade.UnderIsAChain | packages/cms/src/content.service.ts:107-113 | the ancestors of an item form a chain |
| CmsCascade.CascadeIsSubtree | packages/cms/src/content.service.ts:106-114 | the removal list is exactly the stored items under its root, each once, each addressed as stored |
| CmsIndex.ScanFinds | packages/cms/src/content-index.ts:22-29 | in a collection that lists each item once, the last match is the stored item |
| CmsIndex.ContentIndex.ById | packages/cms/src/content-index.ts:22-29 | memoized or not, a lookup gives the last match of a linear scan |
| CmsIndex.WholeIs | packages/cms/src/content-index.ts:9-35 | an index over a snapshot shows the stored content, no more and no less |
| CmsService.ContentService.Index | packages/cms/src/content.service.ts:52-57 | with one writer, the cached index and a fresh load show the same content; a read is served from the cache exactly if it need not be fresh and the cache is younger than its lifetime, and loads and fills it otherwise |
| CmsService.ContentService.FindRef | packages/cms/src/content.service.ts:194-206 | scoped lookups: the parent first, then the item, which must belong to it |
| CmsService.ContentService.Save | packages/cms/src/content.service.ts:236-241 | the item is stored under its id and the cache agrees again |
| CmsService.ContentService.CascadeInto | packages/cms/src/content.service.ts:107-113 | pushes the item and its children's cascades, type by type |
| CmsService.ContentService.Create | packages/cms/src/content.service.ts:77-84 | the store, its calls in order and the result are those of the specified creation |
| CmsService.ContentService.Update | packages/cms/src/content.service.ts:86-93 | the store, its calls in order and the result are those of the specified update |
| CmsService.RemovalPlanned | packages/cms/src/content.service.ts:106-120 | the lists a deletion gathers take exactly what its specification dooms |
| CmsService.ContentService.Remove | packages/cms/src/content.service.ts:99-130 | the store, its calls in order and the result are those of the specified deletion |
| CmsService.ContentService.RemoveDraft | packages/cms/src/content.service.ts:133-142 | deletes drafts only, by the calls of that deletion |
| CmsService.ContentService.SetStatus | packages/cms/src/content.service.ts:145-163 | finds all before it writes any, then puts the items whose status differs, in order, and counts them |
| CmsService.ContentService.Publish | packages/cms/src/content.service.ts:169-185 | the store, its calls in order and the result are those of the specified publication |
| CmsService.ContentService.Apply | packages/cms/src/content.service.ts:77-185 | every write is exactly the specified step, made by exactly the store calls of `CmsCalls.Calls`, loads the store afresh before it changes anything, and leaves the store sound and the cache in agreement |
| CmsCache.HitsAreRecent | packages/cms/src/content.service.ts:52-57 | with other writers, and reads and loads overlapping, a cached read shows an instant less than lifetime plus one load's latency old |
| CmsCache.HitWithinTtlIff | packages/cms/src/content.service.ts:26-57 | a cached read meets the documented lifetime, whatever other instances write, if and only if its content was taken within it |
| CmsCache.TtlBoundIff | packages/cms/src/content.service.ts:26-26 | the documented lifetime bounds staleness in every run if and only if loads are instantaneous |
| CmsMemoryStore.InMemoryContentStore.LoadAll | packages/cms/src/store.ts:41-43 | the snapshot lists every stored item once, under its collection |
| CmsMemoryStore.InMemoryContentStore.Put | packages/cms/src/store.ts:45-47 | one item changes, no other |
| CmsMemoryStore.InMemoryContentStore.Remove | packages/cms/src/store.ts:49-51 | exactly the named items go |
| CmsAddresses.AddressesInjective | packages/cms/src/entity-def.ts:59-69 | two items share an address exactly when they are the same item under the same parent |
| CmsAddresses.AddressIs | packages/cms/src/entity-def.ts:59-61 | a root lies at its token and id, under its token; a child at its parent's token and id, under its own token and id |
| CmsAddresses.ChildrenShareAPartition | packages/cms/src/entity-def.ts:59-61 | a root and its children share a partition key and no sort key |
| CmsAddresses.OneOwner | packages/cms/src/entity-def.ts:62-62 | a sort key has at most one owner |
| CmsAddresses.StripRecovers | packages/cms/src/store.ts:56-59 | reading back a written row gives the item exactly when it uses none of the key properties |
| CmsAddresses.PutKeepsStepIff | packages/cms/src/store.ts:95-98 | a put keeps table and simple store in step if and only if it does not move a stored item |
| CmsAddresses.RemoveKeepsStepIff | packages/cms/src/store.ts:100-113 | a removal keeps them in step if and only if each stored item it names is named at its own address |
| CmsAddresses.RunsStayTogether | packages/cms/src/store.ts:95-113 | after any run of such calls the table represents the simple store's content |
| CmsDynamoStore.RowsToSnapshot | packages/cms/src/store.ts:62-69 | each collection gets the stripped rows its types own first, in scan order; unowned rows are ignored |
| CmsDynamoStore.ScanShows | packages/cms/src/store.ts:62-69 | a whole scan sorted this way shows the content the rows represent, each item once |
| CmsDynamoStore.DynamoContentStore.Scan | packages/cms/src/store.ts:84-92 | however the database pages, the scan loses and repeats no row |
| CmsDynamoStore.DynamoContentStore.LoadAll | packages/cms/src/store.ts:84-93 | whatever content the rows represent is what is read back |
| CmsDynamoStore.DynamoContentStore.Put | packages/cms/src/store.ts:95-98 | one row is written, at the item's address |
| CmsDynamoStore.DynamoContentStore.RemoveBatch | packages/cms/src/store.ts:103-111 | at most five calls, each within the batch; success means exactly the batch's rows are gone; without faults it succeeds if and only if no key repeats |
| CmsDynamoStore.DynamoContentStore.Remove | packages/cms/src/store.ts:100-113 | on return exactly the targets' rows are gone; on an error only target rows were touched, earlier batches are wholly deleted and later ones untouched; without faults it returns if and only if no batch repeats a key; at most five calls of at most 25 keys a batch |
| CmsDynamoStore.ExactListsNeverRepeat | packages/cms/src/store.ts:101-104 | a removal list that names stored items once each repeats no address in any batch |
| CmsDynamoStore.DeletionStaysInStep | packages/cms/src/content.service.ts:106-121 | deleting a cascade from the table leaves it representing the content without the subtree |
| CmsDynamoStore.StoresReadAlike | packages/cms/src/store.ts:29-114 | after any run both stores' snapshots give the same item for every type and id |
| CmsOnTable.CallsReach | packages/cms/src/content.service.ts:77-185 | the store calls of any write, in order, lead to the content the write specifies, and none moves an item or misses a row |
| CmsOnTable.DeletionNamesOnceIff | packages/cms/src/content.service.ts:106-121 | a deletion's removal list repeats no key if and only if its effects remove distinct items outside the subtree |
| CmsOnTable.DeletionServedIff | packages/cms/src/store.ts:100-113 | without faults a deletion goes through on the table if and only if no batch of its removals repeats a key; so it does when its effects remove distinct items outside the subtree, and for a single batch only then |
| CmsRefusal.RefusedDeletion | packages/cms/src/store.ts:100-113 | a deletion whose effect names a child of the item succeeds on the simple store and is refused by a table without faults |
| CmsOnTable.CallsNameOnce | packages/cms/src/content.service.ts:77-185 | under `HooksApart` no removal of any write repeats a key |
| CmsOnTable.TableRunsRepresent | packages/cms/src/store.ts:77-114 | over every run of the service on a fault-free table without owned rows to begin with, the rows represent the content the same run reaches on the simple store |
| CmsOnTable.TableServesEveryWrite | packages/cms/src/store.ts:77-114 | no write of such a run is refused |
| OAuthProtocol.ValidateAuthorize | packages/oauth/src/oauth.service.ts:117-131 | a request is accepted exactly if it asks its client for a code with an S256 challenge, for a registered redirect URI; an unknown client, then the redirect URI, then the rest is refused, each with its error |
| OAuthSafety.FreshKept | packages/oauth/src/oauth.service.ts:133-186 | every step keeps stored and in-flight secrets distinct and traceable |
| OAuthSafety.OneHolderKept | packages/oauth/src/oauth.service.ts:147-186 | every step keeps at most one live representative per issued code |
| OAuthLineage.SafeKept | packages/oauth/src/oauth.service.ts:113-196 | every step of any request, registration, clock tick or sweep keeps the whole invariant |
| OAuthLineage.AtMostOneHolderPerCode | packages/oauth/src/oauth.service.ts:147-186 | under every interleaving: pending code, plus requests holding it or a descendant, plus stored descendant refresh tokens, is at most one (section 4.1.2 and section 6 of RFC 6749) |
| OAuthLineage.OneAnswerPerSecret | packages/oauth/src/oauth.service.ts:152-175 | no two successful token requests were granted by the same code or refresh token |
| OAuthLineage.ChainsAreLinear | packages/oauth/src/oauth.service.ts:168-185 | every stored refresh token replaced one row of its own code, which is gone for good, and no two refresh tokens, stored or spent, replaced the same row |
| OAuthLineage.SpentForGood | packages/oauth/src/oauth.service.ts:156-165 | once a failed or abandoned exchange consumed a code, nothing ever represents it again |
| OAuthLineage.CodesTraceToRequests | packages/oauth/src/oauth.service.ts:117-145 | every code ever issued stands for one accepted authorization request that arrived: its client, redirect URI, challenge and user, and the server's scope |
| OAuthLineage.TokensTraceToConsent | packages/oauth/src/oauth.service.ts:117-186 | every stored token carries the client and user of one such request and the server's scope; the code between them was redeemed with a verifier whose hash is the request's challenge (section 4.6 of RFC 7636) |
| OAuthLineage.BearerChecksAreSound | packages/oauth/src/oauth.service.ts:189-195 | a bearer check passes exactly for an unexpired access token, and such a token traces to consent |
| OAuthSweep.SweepIsUnobservable | packages/oauth/src/oauth.store.ts:81-95 | sweeping expired rows at any time changes no request's outcome, under every interleaving |
| OAuthStore.InMemoryOAuthStore.TakeCode | packages/oauth/src/oauth.store.ts:118-122 | reads and deletes in one step |
| OAuthStore.InMemoryOAuthStore.TakeToken | packages/oauth/src/oauth.store.ts:129-133 | reads and deletes in one step |
| OAuthService.OAuthService.Register | packages/oauth/src/oauth.service.ts:79-111 | succeeds exactly for one to ten URIs, all allowed, and no auth method but `none`, a URI error coming first; a failure stores nothing; the name is trimmed, cut to 100 and never empty |
| OAuthService.OAuthService.Authorize | packages/oauth/src/oauth.service.ts:117-131 | the call is the protocol's authorization step |
| OAuthService.OAuthService.IssueCode | packages/oauth/src/oauth.service.ts:133-145 | one write: a code for the request's client, redirect URI, challenge and scope and the given user, living ten minutes unless configured; the call is the protocol's issuing steps made alone |
| OAuthService.OAuthService.Token | packages/oauth/src/oauth.service.ts:147-177 | the call is the protocol's token steps made alone, with the same writes in order and the same answer or error |
| OAuthService.OAuthService.IssueTokens | packages/oauth/src/oauth.service.ts:179-186 | the access token is put first and the refresh token second, nothing else is, both with the grant's client, user and scope, an hour and thirty days to live unless configured; the answer carries them |
| OAuthService.OAuthService.Authenticate | packages/oauth/src/oauth.service.ts:189-195 | returns the stored token exactly for an unexpired access token; the call is the protocol's bearer steps made alone |
| OAuthService.CodeExchange | packages/oauth/src/oauth.service.ts:152-166 | redeeming consumes the code whatever happens, and grants tokens for its user and scope exactly when it is unexpired and client, redirect URI and verifier match |
| OAuthService.RefreshExchange | packages/oauth/src/oauth.service.ts:168-174 | rotating consumes the token presented, and grants exactly for this client's unexpired refresh token |
| OAuthService.TokenIs | packages/oauth/src/oauth.service.ts:147-177 | a token request from beginning to end: which grant type leads to which exchange, exactly when it is answered, and with which error it is refused otherwise |
| OAuthService.UnknownClientIsRefused | packages/oauth/src/oauth.service.ts:148-151 | without a registered client a token request changes nothing and is refused as such |
| OAuthService.AloneIsARun | packages/oauth/src/oauth.service.ts:133-186 | a call made alone is a run of the protocol, so what holds of runs holds of calls |
| OAuthService.TokenCallIsARun | packages/oauth/src/oauth.service.ts:147-177 | a sequential token call from any reachable state reaches a reachable state |
| OAuthService.SplitRecovers | packages/oauth/src/oauth-bearer.ts:31-40 | splitting a user key at its first colon recovers provider and account id if and only if the provider is non-empty and has no colon, whatever the account id holds |
| OtpStore.KeyInjective | packages/auth/src/otp.service.ts:137-137 | store keys determine channel and identifier |
| OtpStore.MessageInjective | packages/auth/src/otp.ts:32-34 | the hashed message determines channel, identifier and code |
| OtpStore.InMemoryOtpStore.RecordAttempt | packages/auth/src/otp.store.ts:34-39 | an attempt is counted on a live record and refused on a missing one |
| OtpIdentifiers.EmailIs | packages/auth/src/otp.ts:17-21 | an address between whitespace has a canonical form exactly if it is an address of at most 254 characters: the text without capitals that differs from it in case only |
| OtpIdentifiers.TypedAlike | packages/auth/src/otp.ts:17-21 | addresses that differ in case and outer whitespace only are one identifier |
| OtpIdentifiers.PhoneIs | packages/auth/src/otp.ts:22-24 | a phone number's canonical form is a plus sign and its digits, after a 1 if there are ten and no plus sign leads; it exists exactly for 8 to 15 digits that do not begin with 0 and have no plus sign among them |
| OtpIdentifiers.NormalizeIdempotent | packages/auth/src/otp.ts:17-25 | a canonical identifier is its own canonical form |
| OtpLimiter.SentIff | packages/auth/src/otp.service.ts:136-157 | a request is refused exactly within a minute of the last send, or else in a running window that had its five sends, each with its error; otherwise this record is stored |
| OtpLimiter.TenSendsTakeAnHour | packages/auth/src/otp.service.ts:139-155 | ten accepted sends never fit in less than an hour |
| OtpLimiter.SendBounds | packages/auth/src/otp.service.ts:136-157 | between deletions, whatever the clock does: sends a minute apart, at most five per fixed window, at most nine in any hour |
| OtpLimiter.NineIsReached | packages/auth/src/otp.ts:6-11 | nine sends in an hour do happen |
| OtpLimiter.QuietHourReopens | packages/auth/src/otp.service.ts:139-147 | a request an hour after the last accepted send is sent and starts a new window |
| OtpLimiter.DeletionLiftsCooldown | packages/auth/src/otp.service.ts:170-174 | right after a deletion a second code goes out at the same instant, so the bounds hold only between deletions |
| OtpService.OtpService.Issue | packages/auth/src/otp.service.ts:136-160 | the store and outcome are those of the specified request |
| OtpService.OtpService.Check | packages/auth/src/otp.service.ts:162-176 | the store and outcome are those of the specified guess |
| OtpService.OtpService.Request | packages/auth/src/otp.service.ts:82-87 | refused when the channel is off or the identifier malformed, else issues for the canonical identifier |
| OtpService.OtpService.Confirm | packages/auth/src/otp.service.ts:90-94 | returns the canonical identifier exactly when its guess confirms |
| OtpService.ConfirmsExactlyTheLastCode | packages/auth/src/otp.service.ts:90-176 | in sequence, a confirmation succeeds if and only if the code is the last one sent to that channel and identifier, at most ten minutes old, unconfirmed, with fewer than five earlier in-time six-digit guesses |
| OtpService.CodesAreRateLimited | packages/auth/src/otp.service.ts:136-157 | the limiter's bounds hold for the service's operations on one identifier among all others |
| OtpSweep.SweepIsUnobservable | packages/auth/src/otp.store.ts:42-75 | on a clock that never runs back, with calls overlapping as they like but none longer than 30 minutes and half a second, sweeping expired rows at any moment changes the state and outcome of no call |
| OtpSweep.UnobservableIff | packages/auth/src/otp.store.ts:42-75 | the sweep goes unnoticed in every run if and only if calls are held to that limit |
| OtpSweep.StalledGuess | packages/auth/src/otp.service.ts:136-176 | with any longer limit there is a run in which a right, unexpired guess is refused because of the sweep |
| OtpBudget.AttemptBudget | packages/auth/src/otp.service.ts:162-176 | however guesses, requests and sweeps interleave, at most five comparisons pass the gate per record stored |
| OtpBudget.DeletedRecordGatesAll | packages/auth/src/otp.store.ts:77-94 | an attempt counted on a deleted record passes no gate and revives nothing |
| OtpBudget.OverlapConfirmsTwice | packages/auth/src/otp.service.ts:162-176 | two overlapping right guesses can both be confirmed, so single use is a sequential promise |
| OtpBudget.GuessAlone | packages/auth/src/otp.service.ts:162-176 | an uninterrupted guess is the sequential one |
| OtpBudget.RequestAlone | packages/auth/src/otp.service.ts:136-160 | an uninterrupted request is the sequential one |
| Postgres.PostgresDatabase.Query | packages/postgres/src/database.ts:20-24 | one logged call, on the current client, else on the pool; it changes only what that client sees, and a failed one nothing but that its transaction is aborted |
| Postgres.PostgresDatabase.Transaction | packages/postgres/src/database.ts:30-48 | calls, effect and outcome are those of the specified transaction, and the caller's transaction is current again |
| Postgres.TransactionsFlatten | packages/postgres/src/database.ts:31-31 | a transaction around any work is one transaction around the work with nested transactions dissolved |
| Postgres.CallsInOrder | packages/postgres/src/database.ts:32-47 | in every run of every program an observer sees BEGIN, queries on that client, COMMIT or ROLLBACK, one release, and no connection left open |
| Postgres.TransactionsCallOnce | packages/postgres/src/database.ts:32-47 | one BEGIN and one release per connection; COMMIT exactly when the work starts and returns; ROLLBACK exactly when the transaction does not return |
| Postgres.TransactionsAreAtomic | packages/postgres/src/database.ts:30-48 | it returns exactly when the work starts and returns and the COMMIT succeeds; the work's whole effect stays if and only if, besides, no query failed in it; otherwise nothing stays, and the error is the work's if it threw |
| Postgres.FirstFailureIsThrown | packages/postgres/src/database.ts:32-47 | what a transaction throws is the first failure of connecting, beginning, the work or committing, never that of the rollback |
| Postgres.AbortedIffFailed | packages/postgres/src/database.ts:20-24 | a transaction is aborted exactly when a query failed in it, whether or not the program caught the error |
| Postgres.CaughtFailureUndoesAll | packages/postgres/src/database.ts:30-48 | a transaction whose work catches a failed query returns, its COMMIT succeeds, and nothing stays |
| Migrations.ApplyMigrations | packages/postgres/src/migrate.ts:24-39 | the database and result are those of the specified run |
| Migrations.RunApplies | packages/postgres/src/migrate.ts:24-39 | however a run ends, exactly the first unapplied migrations took effect, once and in order; a success applied them all and says how many |
| Migrations.RunningAgainDoesNothing | packages/postgres/src/migrate.ts:24-39 | a run after a successful one changes nothing and returns 0 |
| Migrations.ResumingCompletes | packages/postgres/src/migrate.ts:24-39 | after any number of failed attempts, the one that succeeds reaches the uninterrupted run's database |
| Migrations.RunCalls | packages/postgres/src/migrate.ts:24-39 | a successful run makes the table, reads the ids, and then for each unapplied migration in turn sends its SQL and records it in one transaction, and makes no other call |
| Text.BlankIff | packages/postgres/src/migrate.ts:30-30 | an id is refused as missing exactly when it holds nothing but whitespace |
| Migrations.RunSucceedsIff | packages/postgres/src/migrate.ts:27-38 | without database faults a run succeeds if and only if no id is blank and no unapplied id is listed twice |
| Ssm.ListParametersUnderPath | packages/config/src/ssm-config.ts:48-69 | however the service pages, the listing loses and repeats nothing |
| Ssm.LeafMapIsLast | packages/config/src/ssm-config.ts:37-39 | of names that share a leaf the last listed wins |
| Ssm.LastNameIs | packages/config/src/ssm-config.ts:37-39 | that name is listed under the path, has the leaf, and no later one does |
| Ssm.PathIs | packages/config/src/ssm-config.ts:81-86 | a name is one of an environment's exactly if it is `/`, namespace, `/`, environment, `/` and a rest |
| Ssm.EnvironmentsApart | packages/config/src/ssm-config.ts:81-86 | environments without slashes in their names have a name in common only if they are the same |
| Ssm.LoadedIs | packages/config/src/ssm-config.ts:77-89 | a loaded leaf is the environment's last listed one, else the last shared one, else absent |
| Ssm.LoadSsmConfig | packages/config/src/ssm-config.ts:77-89 | the environment's values over the shared ones |
| Ssm.CloneSsmNamespace | packages/config/src/ssm-config.ts:128-149 | what is listed under the source is written by leaf name, in order, under the target |
| Ssm.CloneLoadsTheSame | packages/config/src/ssm-config.ts:123-149 | after cloning into an empty environment, of any name, loading it equals loading the source, even when leaves collide |
| Ssm.CloneIsIdempotent | packages/config/src/ssm-config.ts:126-126 | cloning again changes nothing, even into a target inside the source |
| Ssm.DeleteSsmNamespace | packages/config/src/ssm-config.ts:170-184 | exactly the names under the path go, in batches of at most ten that add up to the list |
| Ssm.CloneIsLocal | packages/config/src/ssm-config.ts:128-149 | cloning leaves what every environment but the target loads as it was, with shared values unless the target is the shared ones |
| Ssm.DeletionIsLocal | packages/config/src/ssm-config.ts:170-184 | deleting leaves what every other environment loads as it was, with shared values unless those were deleted |
| Ssm.DeletionLeavesShared | packages/config/src/ssm-config.ts:170-184 | a deleted environment loads the shared values alone |
| Ssm.CloneThenDeleteRestores | packages/config/src/ssm-config.ts:128-184 | deleting a clone restores the whole store, listing order included |
| Slug.SlugIsNormal | packages/cms/src/ids.ts:2-11 | a slug is letters and digits with single inner dashes, no longer than the cap or the fallback |
| Slug.WordsKept | packages/cms/src/ids.ts:3-9 | before it is capped, a slug has exactly the letters and digits of the input, in order, without capitals |
| Slug.SlugOfParts | packages/cms/src/ids.ts:8-9 | any other character but an apostrophe separates: the slug of the whole is the slugs of the parts with one dash between, or the one that is not empty |
| Slug.SlugOfWord | packages/cms/src/ids.ts:6-9 | letters and digits alone are their own slug, without capitals |
| Slug.CapIs | packages/cms/src/ids.ts:10-10 | a longer slug is cut at the cap, and loses the one dash the cut may leave at its end |
| Slug.ApostrophesVanish | packages/cms/src/ids.ts:7-7 | an apostrophe joins what it stands between |
| Slug.WholeIsEmptyIff | packages/cms/src/ids.ts:3-10 | the fallback is needed exactly when the input has no letter or digit; it is `untitled` |
| Slug.SlugifyIdempotentIff | packages/cms/src/ids.ts:2-11 | a slug of a slug is the same slug if and only if the cap is 0, at least 8, or the input has a letter or digit |
| Slug.DecimalIs | packages/cms/src/ids.ts:22-24 | the suffix writes its number in base ten, without leading zeros |
| Slug.UniqueSlug | packages/cms/src/ids.ts:19-26 | the base if free, else the base, a dash and the least free number from 2 on, at most one more than there are slugs taken |

## Left out

- CmsIntegrity.RunsStaySound: promises publication times only for types without fixed ids; `FixedIdStampedIff` has the exact condition for the others.
- CmsCache.HitsAreRecent: the bound includes the load's latency, because the lifetime alone is not one; a load is one instant of the store, which a scan of several pages is not.
- CmsOnTable.TableRunsRepresent: on a table without faults; failures part-way are left to `CmsDynamoStore`.
- OtpSweep.SweepIsUnobservable: for calls of at most 30 minutes and half a second, because of `StalledGuess`.
- OtpLimiter.SendBounds: holds between deletions and for requests that do not overlap, because a confirmed or exhausted code deletes its counters and a request reads before it writes.
- OtpService.ConfirmsExactlyTheLastCode: for calls that do not overlap, because two overlapping guesses can both be confirmed.
- CmsAddresses.RunsStayTogether: assumes distinct '#'-free key tokens and, with the snapshot lemmas, distinct collections; other layouts passed to a definition are not modelled.
- CmsMemoryStore.InMemoryContentStore.Put: assumes a registered type, which every caller has resolved; the registry's exception for others is not modelled.
- Versioned entities (`build`, `publishItem`) and the `present` hook: the app's own code decides them.
- The order of a snapshot's lists: hooks see the index as a map, so a hook that depends on list order is not covered.
- Overlapping content writes, and store failures part-way through one: the service reads, then writes, and promises nothing there.
- The seed of the in-memory store, and structured cloning: values are immutable here.
- `entityDef` defaults (upper-cased key, plural collection, link field name): the definition's fields are given.
- Backoff delays between batch attempts, and an answer that lists the table with no requests.
- The OAuth and OTP tables' own key prefixes (`CLIENT#`, `CODE#`, `TOKEN#`, `OTP#`): each store is modelled as its maps, with the sweep.
- `isAllowedRedirectUri` is a predicate parameter; the bearer header pattern and the answer's fixed fields are not modelled.
- `hashAnonymousEmail`, delivery of codes, stored plaintext codes of local stages, and constant-time comparison.
- Text beyond ASCII: Unicode normalisation and case folding of identifiers and slugs.
- A COMMIT that takes effect although its call fails: a failed call has no effect here but to abort its transaction.
- Migrations run inside a caller's transaction, and concurrent migrators.
- `pushSsmConfig`, regions and client settings; the listing's lag after a delete.
- Framework wiring, network adapters, infrastructure, payments and the other packages: no state of their own to reason about, or only single-branch claims.
