# Verification of the chat gateway

A Dafny model of the stateful and algorithmic core of a Go chat gateway, with proofs of what that core
is for. `dafny verify dfyconfig.toml` checks the project; the theorems are about the model, which follows the
cited Go code branch by branch.

The parts, hardest first:

| files | what they model |
|---|---|
| `Recency`, `ContainerList`, `Cache`, `AuthClient`, `Strconv` | the LRU token cache with expiry as a map of elements of a linked ring, its refinement to a recency sequence, properties of every trace of operations, token verification and the invalidation walk |
| `Grants`, `PageStore`, `InstagramIndex`, `PageFates`, `Deauthorization`, `PageBackup`, `PageRuns`, `Pages`, `PageSessions` | Facebook pages as objects with move-to-front lists of grants, indexed under two ids; installing a user's pages while the index is walked in an arbitrary order; withdrawing; saving and restoring; whole runs, of values and of the object |
| `Chats`, `ChatRuns`, `Bots`, `Services`, `BotRuns` | a bot's chat channels as values: two indexes, lookup, number changes, start, receive, recover, two-phase close, and whole runs of these; bots' gateways and channels as objects that refine them, with the registry of running bots; whole runs of a service with any number of bots, as values and as the objects that follow them |
| `Splitting`, `Selectors` | merging of field lists, the `*` and `+` selectors with their jumping index, lists of selections, scopes |
| `NormalizedLists`, `PlainText` | query values split and made unique in place, with overlapping moves; plain text cut out of UTF-8 bytes |
| `Keyboard`, `WebChat`, `Upload` | keyboard conversion; history, broadcasts and ping sweeps of a chat room; size-limited uploads |
| `Codecs` | three printer and parser pairs |
| `CacheLaws`, `AuthLaws`, `PageLaws`, `ChatLaws`, `ServiceLaws`, `FormatLaws` | what each operation does, in terms of keys, entries, ids and literal values alone |
| `Wrappers`, `Sequences` | optional values, 64-bit arithmetic, stock functions on sequences |

Stateful objects are classes whose methods are proved against functions of the old state; the theorems are about those
functions. Answers of remote services, provider calls, clock readings, map iteration order and the outcome of each write are
arbitrary: they are parameters or nondeterministic choices, so results hold for all of them. The `Laws` modules state what the functions
mean without the definitions the functions are made of, so that a method and its function cannot be wrong together.

## Assumptions

- Clock readings come with each call; only `Recency.ExactUntilFull` and `AuthClient.EntryDoesNotOutliveCreds` need them not to go backwards.
- Where a lemma names a set `ids`, page ids and Instagram ids never collide (`PageStore.Apart`), and a listing names no page twice
  (`DistinctIds`). Where it names an `owner`, access tokens are non-empty and each belongs to one user (`Grants.OwnedBy`).
- `CacheLaws` and `AuthLaws` take clock readings that, with the lifetime added, are positive 64-bit numbers (`CacheLaws.Sane`); other sums wrap
  around, as `Recency` has it.
- The chat service names the sessions it starts, and clocks do not read zero (`ChatRuns.Legal`).
- Letter case is any function of names that keeps the empty name, `*` and `+` apart from all others; attribute lists hold no selector.
- Methods are atomic steps. Connections of a room are distinct. A size limit is below the largest 64-bit integer.

## What the code does differently from what it promises

Each is stated by the member named, with the condition under which it happens or an input that shows it.

- Not every Instagram account is indexed after a listing: exactly when for a given map order (`InstagramIndex.IndexedWhenClear`), and for
  every order (`AlwaysIndexedWhenClear`). A page whose account is replaced by another is indexed by neither (`SwappedAccountIsLost`). An account
  that moves to a new page is always indexed (`MovedToNew`), to a page without an account depending on map order, to a page with another account
  never (`MovedToOld`, `MovedAccountDependsOnOrder`).
- A page deleted by its id stays reachable by its Instagram id (`InstagramIndex.DeletedPageStaysReachable`); so does a page whose last user
  withdraws, exactly when its account leads to it (`Deauthorization.GoesLeavesAccount`). Listings then pass it over: it keeps
  grants that should go and its key, so that a listing has its outcome for every reachable page exactly when each is indexed by its own id
  (`PageFates.FatedWhenCoherent`, `StrayKeepsGrant`). Restoring over a store can leave such a key behind (`PageBackup.RestoreKeeps`).
- A token that two users present leaves a page with two grants of one user (`Grants.AuthorizeKeepsUsersDistinct`, `SharedTokenDuplicatesUser`).
- `+` after a `*` that adds nothing is returned as a name and stands for nothing (`Selectors.PlusLeft`, `PlusIsLost`).
- Single names before the first list of names are not made unique (`Selectors.NormalizedIsDistinct`).
- Plain text has one character more than asked for when nothing was cut out (`PlainText.ScanLength`).
- A closed channel that is started again after its user's number changed makes the channel indexes disagree
  (`ChatRuns.RestartAfterNumberChange`; over all runs they agree exactly when each step finds its keys free: `ChatRuns.AgreeWhenGuarded`).
- Closing a linked channel without a running session sends a close request that names none: a channel that never started
  (`ChatRuns.NewChannelIsAsked`), or one whose session was lost, which asks twice for one session (`LostSessionIsAskedAgain`). Exactly when:
  `RequestsAreNamed`, `OneRequestPerSession`.
- A gateway registered under a new path leaves the old path behind while it has service or channels (`Bots.Gateway.Register`); updates cannot
  do this, since they refuse to change the path (bot/api.go:536).
- The last channel of an older revision does not dispose of a deleted bot: exactly when a channel disposes of its bot is in
  `Bots.Channel.Detach`, and a run of a service that leaves such a bot registered in `Services.OutlivedStays`.
- A contact whose id is no number is reported as having id zero (`Contact.ObjectErrors`); an id with `@` and no host, a name that looks
  like it has an id, and an account id with a colon are not read back (`Contact.ServiceRoundTrip`, `Interlocutor.NameIsDecoded`,
  `AccountList.RestoreUndoesBackup`).
- An upload ends early, without error, when a reader gives no bytes and no error; the chunk size asked for is not used (`Upload.UploadFile`).
- Links are told apart by their caption, not their address: a link is kept exactly when no earlier link has its caption
  (`Keyboard.LinksByCaption`), and of two links with one caption the second is lost (`SecondLinkIsLost`).

## Model

| member | source | states |
|---|---|---|
| Recency.RunKeepsShape | auth/cache.go:95-160 | in every reachable state no key occurs twice and the capacity is respected |
| Recency.Inclusion | auth/cache.go:72-208 | on one trace and clock a smaller cache always holds a subsequence of a larger one, with equal values and deadlines, and never has more free slots |
| Recency.LargerCacheAnswersToo | auth/cache.go:125-142 | enlarging the cache never turns a hit into a miss or changes its answer |
| Recency.HitIsLastAdd | auth/cache.go:125-142 | a hit returns the value last added with no later Remove or Purge, and not past its deadline |
| Recency.EntriesAreLastAdds | auth/cache.go:95-160 | every entry is the last add of its key |
| Recency.ExactUntilFull | auth/cache.go:95-142 | while the keys added fit, the cache answers exactly the live adds |
| Recency.RecencyOrder | auth/cache.go:95-142 | the list is ordered by last add or hit, most recent first |
| Recency.EvictsLeastRecentlyUsed | auth/cache.go:95-122 | a new key in a full cache evicts exactly the entry used longest ago |
| Recency.AddKeepsTheRest | auth/cache.go:95-122 | a present key, or a free slot, evicts nothing, and the added entry is there |
| CacheLaws.AddedIsAnswered | auth/cache.go:95-142 | after any trace a value just added for `secs` seconds is answered exactly until that time has passed, for ever when `secs` is not positive, and nothing after |
| CacheLaws.HitWasAdded | auth/cache.go:95-142 | in every trace a hit is the value of some add of its key, with no later add, remove or purge of the key, within its lifetime |
| CacheLaws.AddedIsHit | auth/cache.go:95-142 | while the keys fit and the clock does not go back every such add is a hit |
| CacheLaws.HitIsKept | auth/cache.go:114-159 | a hit moves its key to the front, and neither the next add nor the next eviction takes it out |
| CacheLaws.OldestGoes | auth/cache.go:155-159 | after any trace, removing the oldest takes exactly the last entry |
| Cache.Cache.constructor | auth/cache.go:44-70 | a new cache is empty, with 512 slots for sizes that are not positive |
| Cache.Cache.AddWithExpiresInSecs | auth/cache.go:95-122 | refines one step of the sequence; tells whether another entry was evicted |
| Cache.Cache.Get | auth/cache.go:125-142 | refines one step of the sequence: a live entry moves to the front, a stale one goes |
| Cache.Cache.Remove | auth/cache.go:145-152 | exactly the key's entry goes |
| Cache.Cache.RemoveOldest | auth/cache.go:155-159 | exactly the last of the recency order goes |
| Cache.Cache.Purge | auth/cache.go:72-83 | nothing is left |
| Cache.Cache.Keys | auth/cache.go:162-176 | the keys in reverse recency order |
| Cache.Cache.SameSize | auth/cache.go:179-183 | map and list are of one size |
| Cache.Cache.Replay | auth/cache.go:72-208 | from an empty cache any trace of operations leaves what the trace semantics says |
| AuthClient.SurvivorsInOrder | auth/client.go:343-374 | what an invalidation walk leaves is a subsequence of the recency order, of other owners |
| AuthClient.SurvivorsExactly | auth/client.go:343-374 | exactly the entries of other owners that were live when visited are left |
| AuthClient.WalkStep | auth/client.go:348-357 | visiting the oldest key not yet visited puts it in front of the remaining ones, or drops it |
| AuthClient.Client.RemoveOwned | auth/client.go:343-374 | the walk, which moves every visited entry to the front, leaves the survivors in their old order |
| AuthClient.Client.RemoveSession | auth/client.go:334-342 | exactly the entry of the named token goes |
| AuthClient.Client.InvalidateCache | auth/client.go:320-380 | what each class of notice leaves; unreadable ids and unknown classes leave everything |
| AuthClient.Client.VerifyToken | auth/client.go:179-247 | the verdict and the cache afterwards, with 64-bit arithmetic on the time left |
| AuthClient.VerifiedIsNotExpired | auth/client.go:179-247 | credentials are never verified past their own expiry, for any cache content and any answer |
| AuthClient.EntryDoesNotOutliveCreds | auth/client.go:222-240 | with a positive default lifetime an entry's deadline is past its credentials' expiry by no more than passes between the two clock readings |
| AuthLaws.DomainNotice | auth/client.go:320-380 | a domain's notice leaves an entry exactly when it is not credentials with this domain id, and its deadline has not passed when it is visited |
| AuthLaws.UserNotice | auth/client.go:320-380 | the same with the user id |
| AuthLaws.OtherNotices | auth/client.go:320-380 | a session's notice takes exactly the entry of its token, a customer's all, and unknown classes and unreadable ids nothing |
| AuthLaws.NoticeKeepsOrder | auth/client.go:343-374 | what any notice leaves keeps its order |
| AuthLaws.CachedIsVerified | auth/client.go:179-200 | credentials that are cached and not expired are the answer, whatever the service would say |
| AuthLaws.OthersAreAsked | auth/client.go:200-247 | else the service decides: no answer fails, and credentials are expired exactly with less than one whole second left |
| AuthLaws.CachedMovesToFront | auth/client.go:179-200 | a hit keeps all entries and puts the token's in front |
| AuthLaws.NothingStored | auth/client.go:200-247 | credentials without an expiry, expired ones and a failure are not cached; expired cached ones go |
| AuthLaws.StoredForItsTime | auth/client.go:222-240 | all others are answered from the cache for the whole seconds they have left, at most the default, and for ever with none; only the last entry of a full cache goes |
| Grants.AuthorizeKeepsUsersDistinct | bot/facebook/pages.go:76-103 | the users of a page stay distinct exactly when the grant replaced is this user's own or this user had none |
| Grants.SharedTokenDuplicatesUser | bot/facebook/pages.go:76-103 | two users presenting one token leave two grants of the second |
| Grants.AuthorizeKeepsSound | bot/facebook/pages.go:76-103 | with one user per token the grants stay sound, and the other users' keep their order |
| Grants.DeauthorizeKeepsSound | bot/facebook/pages.go:111-152 | withdrawing a user's grant leaves sound grants, none of that user |
| Grants.ReplayUnequal | bot/facebook/pages.go:470-520 | authorizing a saved list backwards rebuilds it exactly when its grants are pairwise unequal |
| Grants.ReplayAgain | bot/facebook/pages.go:470-520 | a second replay of a saved list changes nothing |
| PageStore.WalkProgress | bot/facebook/pages.go:183-243 | in any order of the walk each page's fate depends on that page alone |
| PageStore.SetPagesKeeps | bot/facebook/pages.go:169-270 | index keys stay their pages' ids and tokens in use their first grants', whatever ids collide |
| PageStore.SetPagesOutcome | bot/facebook/pages.go:169-270 | every listed page is installed with the new token first and active; other pages that are indexed by their own ids lose this user's grant and stay exactly when another is left |
| PageStore.SetPagesGrants | bot/facebook/pages.go:169-270 | the same in terms of grants: other users' grants keep their order; a page indexed by its own id goes exactly when nobody else had a grant of it |
| PageLaws.ListedPageIs | bot/facebook/pages.go:169-270 | every listed page, old or new, has the id, name, account and fields of the listing, its token in use and granted first; a new one has no other grant |
| PageLaws.ListedPageKeeps | bot/facebook/pages.go:195-216 | a listed page that was there keeps its other grants in order; only the first one of this user, or with this token, is replaced |
| PageLaws.UnlistedPageIs | bot/facebook/pages.go:217-241 | any other page keeps what it is but this user's grant, and its key exactly when a token is left |
| PageLaws.InstalledAgain | bot/facebook/pages.go:244-267 | an id installed again gets one more grant and nothing else |
| PageLaws.WithdrawnIs | bot/facebook/pages.go:111-152 | a withdrawal takes the user's first grant, or all; the token in use follows only when the first grant went |
| PageLaws.AuthorizedIs | bot/facebook/pages.go:76-103 | a grant comes first in place of the first with its token or of its user |
| InstagramIndex.HolderIs | bot/facebook/pages.go:183-243 | a walk leaves an Instagram key leading to a page exactly when no visit acted on it and it led there, or this page's visit was the last to act, and set it |
| InstagramIndex.IndexedWhenClear | bot/facebook/pages.go:169-270 | for each map order: all accounts are indexed after a listing exactly when no two pages end up with one, none is swapped, and a page that gets another's account is visited after it |
| InstagramIndex.AlwaysIndexedWhenClear | bot/facebook/pages.go:169-270 | they are indexed for every map order exactly when, moreover, no page that was there gets the account of another |
| InstagramIndex.MovedToNew | bot/facebook/pages.go:244-267 | a new page is indexed by the account it takes over, for every order |
| InstagramIndex.MovedToOld | bot/facebook/pages.go:195-216 | a page that was there is indexed by it exactly when it had no account and is visited after the page that had it |
| InstagramIndex.SwappedAccountIsLost | bot/facebook/pages.go:195-216 | a page changing its account is indexed by neither |
| InstagramIndex.MovedAccountDependsOnOrder | bot/facebook/pages.go:183-243 | the order of the walk decides whether an account that moved between pages is indexed |
| InstagramIndex.DeletedPageStaysReachable | bot/facebook/pages.go:342-353 | removing a page by its id leaves nothing behind exactly when no Instagram key leads to it |
| PageBackup.RestoreKeeps | bot/facebook/pages.go:438-521 | putting a record back keeps the keys right exactly when it replaces no indexed account |
| PageBackup.RestoreRebuilds | bot/facebook/pages.go:407-525 | replaying consistent records into an empty store, in any order and number, rebuilds their pages |
| PageFates.CoherentIsFated | bot/facebook/pages.go:169-270 | when pages are indexed by their own ids: every page any key leads to loses or renews this user's grant, is reachable exactly when listed or another grant is left, and no key leads elsewhere |
| PageFates.FatedWhenCoherent | bot/facebook/pages.go:183-243 | where no page's account leads to another page, an empty listing has this outcome for every user exactly when every indexed page is indexed by its own id |
| PageFates.TakenGoesToo | bot/facebook/pages.go:231-241 | a store shows what that hypothesis excludes: a page under the account of another, both without grants, goes with it |
| PageFates.StrayKeepsGrant | bot/facebook/pages.go:183-243 | a page left under its Instagram key keeps the grant of a user who lists nothing |
| PageBackup.BackupRestores | bot/facebook/pages.go:355-525 | after save and restore every authorized page is back with id, ordered grants, active token and Instagram index, and nothing else, for any order, when pages saved under one id or account are alike |
| PageLaws.SavedPageIs | bot/facebook/pages.go:355-525 | field by field: an authorized page that was saved is put back into an empty store with all but its account's picture |
| PageLaws.PutBackOnOld | bot/facebook/pages.go:438-521 | a record put back on a page that is there brings its account and its grants, not its name and fields |
| PageLaws.PutBackAsNew | bot/facebook/pages.go:438-521 | put at a new page it makes that page what was saved, but for the picture |
| PageBackup.CoherentIsRestorable | bot/facebook/pages.go:355-405 | pages indexed by their own ids and accounts are alike where they share one |
| PageBackup.DeletedIsRestorable | bot/facebook/client.go:344-382 | so they are after keys are removed, as a deauthorization does before it saves |
| PageRuns.RunIsProper | bot/facebook/pages.go:76-152 | after every run of listings, withdrawals, deletions and restores, whatever ids collide or accounts swap, the token in use is the first grant's and no user has two grants of a page, when tokens are their users' own |
| PageRuns.RunIsKeyed | bot/facebook/pages.go:165-525 | in every such run each key is all along its page's id or Instagram id exactly when no record put back replaced an indexed account |
| PageRuns.PutIsIndexed | bot/facebook/pages.go:438-521 | putting a record back leaves every account indexed exactly when no other page has its account |
| PageRuns.DeleteIsIndexed | bot/facebook/pages.go:342-353 | removing a key does exactly when it is no other page's account |
| PageRuns.RunIsIndexed | bot/facebook/pages.go:165-525 | in every run of listings, withdrawals, deletions and restores keys are right and every account is indexed all along exactly when no record put back replaced an indexed account and every event was clear |
| Pages.Page.Authorize | bot/facebook/pages.go:76-103 | the grant comes first in place of the first equal one, and is active |
| Pages.Page.Deauthorize | bot/facebook/pages.go:111-152 | the user's grant, or all, goes; the token in use follows the first grant; what was taken is returned |
| Pages.MessengerPages.Walk | bot/facebook/pages.go:183-243 | for every choice of the runtime the walk over the changing map meets each page id once and does what the walk on values does |
| Pages.MessengerPages.SetPages | bot/facebook/pages.go:169-270 | refines the operation on values, for every iteration order |
| Pages.MessengerPages.GetPages | bot/facebook/pages.go:273-325 | the requested pages, each where it is first named, or an error exactly when an id is not indexed; all pages by page id when none is named |
| Pages.NamedInOrder | bot/facebook/pages.go:299-321 | pages come in the order in which they are first named |
| Pages.NamedHas | bot/facebook/pages.go:299-321 | exactly the named pages are returned |
| Pages.MessengerPages.DelPage | bot/facebook/pages.go:342-353 | one index key goes, and its page is returned |
| Pages.MessengerPages.Deauthorize | bot/facebook/client.go:327-350 | a user withdraws from the page named or from all pages: refines the operation on values; an error exactly when the page is not indexed |
| Deauthorization.DeauthorizedIs | bot/facebook/client.go:344-350 | each page named loses the grant, all others stay, and exactly the ids of pages without a grant go |
| Deauthorization.GoesLeavesAccount | bot/facebook/client.go:344-350 | a page that loses its last grant is still reached exactly when its Instagram account leads to it |
| Deauthorization.DeauthorizedIsCoherent | bot/facebook/client.go:344-350 | every page is indexed by its own id afterwards exactly when no page that goes is indexed by its account |
| PageSessions.WithdrawalRuns | bot/facebook/client.go:344-350 | a withdrawal is a run of single events |
| PageSessions.Session | bot/facebook/pages.go:165-353 | over every run of listings, deletions and withdrawals on a new store the object is what the run of these events makes, with right keys and tokens in use |
| Pages.MessengerPages.Backup | bot/facebook/pages.go:355-405 | the records of the authorized pages, once per index key, in any order of the keys |
| Pages.MessengerPages.RestorePages | bot/facebook/pages.go:407-525 | refines the replay on values |
| Pages.Reload | bot/facebook/pages.go:355-525 | saving a store and restoring it into a new one brings every authorized page back and nothing else |
| Chats.LinkAgrees | bot/gateway.go:593-596 | linking keeps the two indexes in agreement exactly when both keys are free or name one channel |
| Chats.RenameAgrees | bot/gateway.go:690-726 | following a number change does exactly when the channel has the new chat id already, or was asked for by its own old one and the new one is free |
| Chats.MadeAgrees | bot/gateway.go:563-726 | making a channel, and following it to a new number, does exactly when all that it displaces has its client, and its client's channel one of its two chats |
| Chats.GetChannelAgrees | bot/gateway.go:502-781 | a lookup does exactly when what it renames or makes is safe |
| Chats.LookupLinks | bot/gateway.go:502-781 | a safe lookup returns a channel linked by both keys and changes no other |
| Chats.LookupAgain | bot/gateway.go:502-781 | looked up again by its chat, a channel is found as it is |
| Chats.StartAgrees | bot/channel.go:242-358 | starting a session does exactly when the channel's keys are free or name one channel, or nothing is started |
| Chats.RecvAgrees | bot/channel.go:380-488 | so does a message of the user, in every branch |
| Chats.SendAgrees | bot/gateway.go:876-985 | a message of the chat service does exactly when its lookup is safe, also when the channel is then unlinked |
| ChatLaws.FoundIs | bot/gateway.go:502-781 | the client's id goes before the chat's; what is found is the answer, and changes only when a WhatsApp user is given with another number: then its ids and the chat key follow |
| ChatLaws.NoneIsMade | bot/gateway.go:502-622 | exactly when a lookup that finds nothing is an error, and that it then changes nothing |
| ChatLaws.DisabledMakesNone | bot/gateway.go:602-622 | a client without a session gets no channel, and nothing changes, exactly when the bot is disabled |
| ChatLaws.MadeChannelIs | bot/gateway.go:541-726 | a session is recovered whatever the bot, and an enabled bot makes a channel: its chat id, account, session and keys, and that all other keys stay |
| ChatLaws.StartIs | bot/channel.go:242-358 | a session that starts is that of the channel, open, and linked by both keys; a refusal and an edit change nothing |
| ChatLaws.ExplainedStartIs | bot/channel.go:360-378 | a start is tried again with a text exactly when a file was refused by policy and there is a text; each outcome and error |
| ChatLaws.CloseTakesKeys | bot/channel.go:93-239 | a refused close request, and a close of what was closed before, take exactly both keys; an accepted first request takes none |
| ChatLaws.ClosedIsNowhere | bot/channel.go:93-239 | when the indexes agree neither leads to such a channel any more |
| ChatLaws.CloseAsksOnce | bot/channel.go:142-178 | one request is sent, for the running session if any, exactly when the channel is linked and was not closed; and which error |
| ChatLaws.AnnouncedIs | bot/gateway.go:943-957 | an announced close takes both keys at once, and sends nothing |
| ChatLaws.RecoverIs | bot/channel.go:440-466 | a session that is lost and not started again is gone, and its channel's keys exactly when the restart failed |
| ChatLaws.RestartIs | bot/channel.go:440-468 | a restart gives the channel the new session |
| ChatLaws.RecvOnNew | bot/channel.go:380-414 | a channel without session ignores `/close`, and any other message starts one |
| ChatLaws.RecvInSession | bot/channel.go:416-478 | in a session `/close` closes; delivered and refused messages change nothing, each with its error; one for a lost session recovers |
| ChatLaws.SentIs | bot/gateway.go:876-985 | a service message closes exactly when its type is `closed`, it has a text and no file, and a session runs |
| ChatRuns.AgreeWhenGuarded | bot/gateway.go:502-985 | in every run of lookups, messages, starts and closes, on any channels met, the indexes agree all along exactly when every step found the keys it takes free |
| ChatRuns.OrderlyRunsAgree | bot/gateway.go:502-985 | they agree all along when chats and clients go together one to one, numbers change to chats not in use, and no unlinked channel is started on keys in use |
| ChatRuns.NumberChangeIsOrderly | bot/gateway.go:690-726 | a run with a number change that is orderly |
| ChatRuns.RestartAfterNumberChange | bot/channel.go:439-469 | a run of lookups, closes and a message after which they disagree: a closed channel is started again after its user's number changed |
| ChatRuns.RunIsSound | bot/channel.go:93-488 | in every run close requests name sessions of their channel in rising order, none twice and none that is still open |
| ChatRuns.SoundIsOnce | bot/channel.go:93-239 | so requests that name a session never exceed the sessions that are not open |
| ChatRuns.RequestsAreNamed | bot/channel.go:156-173 | all requests of a run name a session exactly when no linked channel without a running one was closed; then requests never exceed sessions |
| ChatRuns.OneRequestPerSession | bot/channel.go:93-488 | in every run there is all along at most one request since a session began, and none before the first, exactly when no such close came before the first session or after another request; then requests never exceed sessions |
| ChatRuns.NewChannelIsAsked | bot/channel.go:156-173 | a run with a request and no session |
| ChatRuns.LostSessionIsAskedAgain | bot/channel.go:439-469 | a run with two requests for one session, which was lost between them |
| Bots.ChannelIndex.Link | bot/gateway.go:593-596 | both keys lead to the channel: refines the operation on values |
| Bots.ChannelIndex.Unlink | bot/channel.go:100-102 | both keys go: refines the operation on values |
| Bots.ChannelIndex.Rename | bot/gateway.go:704-726 | chat id, contact and index follow: refines the operation on values |
| Bots.Gateway.Lookup | bot/gateway.go:524-657 | the channel by client id, else by chat id, else one recovered or made from the service's answer, with the keys it stands for |
| Bots.Gateway.Follow | bot/gateway.go:681-726 | chat id and contact follow a new number only for WhatsApp |
| Bots.Gateway.GetChannel | bot/gateway.go:502-781 | refines the lookup on values: which channel is returned, its whole state, and both indexes; an error changes nothing |
| Bots.Gateway.Send | bot/gateway.go:876-985 | refines the operation on values: a closed message with a text unlinks the channel and sends no request |
| Bots.Gateway.Register | bot/gateway.go:186-260 | both maps and the flag of the earlier revision; the registry stays routed exactly when no path of an earlier revision is left behind |
| Bots.RegisterRoutes | bot/gateway.go:211-257 | the same on values, both for accepted and for refused registration |
| Bots.Gateway.Deregister | bot/gateway.go:298-320 | the path goes if it leads to this bot; a routed registry stays so |
| Bots.Gateway.Remove | bot/gateway.go:348-375 | only the running revision is removed, with its path |
| Bots.Service.GatewayOf | bot/service.go:341-580 | the bot by id or path if it runs, else set up from the store exactly when the answer fits, else an error that changes nothing; what a path is answered with serves it |
| Bots.Service.DisposeOf | bot/api.go:962-975 | of the deleted bots exactly those without a channel leave both maps; all of them are marked, no others |
| Bots.Channel.Detach | bot/channel.go:98-111 | unlinking the last channel of a deleted revision takes its path and, if it is the one running, its bot out of the registry; else the registry stays |
| Bots.Channel.Close | bot/channel.go:93-239 | refines the operation on values: the first close asks once, a failed or repeated one unlinks, an unlinked channel is left alone; which error |
| Bots.Channel.Announced | bot/gateway.go:943-957 | refines the operation on values: a close by the server unlinks without a request |
| Bots.Channel.Start | bot/channel.go:242-358 | refines the operation on values: a session is opened and linked, unless the message is an edit or the service refuses |
| Bots.Channel.StartOrExplain | bot/channel.go:360-378 | refines the operation on values: a file refused by policy is replaced by a text, once |
| Bots.Channel.Recover | bot/channel.go:442-469 | refines the operation on values: a lost session is started again, or the channel unlinked |
| Bots.Channel.Recv | bot/channel.go:380-488 | refines the operation on values in every branch: ids, closed time, requests, both indexes and the error |
| Services.OperatedIsSound | bot/gateway.go:502-985 | after any operation paths lead to running gateways that serve them |
| Services.RevisedIsSound | bot/gateway.go:186-260 | so they do after a revision of a bot, accepted or refused, under the path it has |
| Services.RemovedIsSound | bot/api.go:962-975 | and after bots are deleted |
| Services.LeavesEmpty | bot/gateway.go:186-375 | a bot leaves the registry only when its provider refuses a new revision, or when it is deleted and none of its channels is indexed |
| ServiceLaws.RunningIs | bot/service.go:341-420 | a bot runs under its id, or else under its path |
| ServiceLaws.SetUpIs | bot/service.go:420-580 | one that does not run is set up exactly when the store's bot has an id and a path and is the one asked for |
| ServiceLaws.RevisionIsRefused | bot/gateway.go:186-210 | a revision without id or path, or under another path, changes nothing |
| ServiceLaws.RevisionRuns | bot/gateway.go:186-260 | an accepted revision runs under its id and path with the channels of the one before; a refused one leaves neither running |
| ServiceLaws.RevisionLeavesOthers | bot/gateway.go:186-260 | no other bot and no other path changes |
| ServiceLaws.DeletionIs | bot/api.go:962-975 | a deleted bot leaves exactly when none of its channels is indexed, and is disabled and marked |
| ServiceLaws.LastCloseTakesBot | bot/channel.go:98-111 | a close that leaves no channel takes the bot and its path when the channel's revision is deleted and runs |
| ServiceLaws.LossLeavesRegistry | bot/channel.go:453-460 | a channel lost by a failed restart takes no bot along |
| ServiceLaws.RetirementIs | bot/gateway.go:298-375 | a deleted revision takes its bot exactly when it is the one that runs, its path also when that leads to the bot, and no other bot |
| Services.OutlivedStays | bot/channel.go:98-111 | every run that registers, looks up, upgrades, deletes and closes twice leaves a deleted bot without channels registered |
| BotRuns.TakeOp | bot/gateway.go:502-985 | any operation on any channel of a bot: its objects, and the registry, are what one step more of the bot's run makes of them; when it is not possible nothing changes |
| BotRuns.TakeOn | bot/gateway.go:502-985 | so they are within a service, whose other bots stay as they are |
| BotRuns.TakeEnter | bot/bot.go:142-185 | a revision under the path its bot has is the one running, or leaves the registry when its provider refuses it; it shares the channels of the one that ran, or begins with none; any other is refused and changes nothing |
| BotRuns.TakeLocate | bot/service.go:341-580 | a bot that is looked up is set up, in the same way, exactly when it does not run and the store's answer fits; else nothing changes |
| BotRuns.TakeDelete | bot/api.go:962-975 | exactly the deleted bots without an indexed channel leave the registry, and all of them are marked |
| BotRuns.Serve | bot/gateway.go:186-985 | over every run of a service the registry, the flags of its revisions and the operations its bots took are after each event what that event makes of those before; at the end the objects are these, so that all theorems on runs hold of them |
| Splitting.PieceFound | app/fields.go:81-90 | a piece before a separator is found whole |
| Selectors.MergeAssociative | app/fields.go:180-206 | merging is associative |
| Selectors.MergeKeys | app/fields.go:180-206 | a merge holds the names of both lists, up to case, and no others |
| Selectors.FreshApart | app/fields.go:180-206 | what a merge adds is new and distinct, and from the second list |
| Selectors.MergeFields | app/fields.go:180-206 | the loops compute the merge |
| Selectors.HasScope | app/fields.go:24-37 | membership; the empty key is in every scope that is not empty |
| Selectors.AddScope | app/fields.go:41-69 | a merge with names compared exactly |
| Selectors.ExpandCounts | app/fields.go:112-127 | replacing a selector leaves fewer selectors, so the scan ends although its index jumps back |
| Selectors.SelectFields | app/fields.go:98-133 | the loop with its reassigned index computes the selection |
| Selectors.SelectedHolds | app/fields.go:98-133 | any selector brings all attributes, a first `+` all operational names, explicit names survive, and lists without selectors are unchanged |
| Selectors.ScanNames | app/fields.go:98-133 | no name appears that was not given |
| Selectors.PlusLeft | app/fields.go:98-133 | after a first `*`, `+` is left as a name exactly when it is passed over, and then stands for nothing |
| Selectors.PlusHolds | app/fields.go:98-133 | a `+` that is not passed over brings all operational names |
| Selectors.PlusIsLost | app/fields.go:98-133 | the input `id,*,+` with the one attribute `id` |
| SelectorLaws.SeparatedBy | app/fields.go:78-90 | names are separated by commas and white space, and not cut elsewhere |
| SelectorLaws.SelectorsStand | app/fields.go:98-133 | `*` alone brings all attributes, `+` the operational names too, no selection all attributes; nothing else comes in |
| SelectorLaws.SelectorGivesPlace | app/fields.go:98-133 | in a list of different names a selector's names come in its place, operational ones first |
| Selectors.FieldsFunc | app/fields.go:142-177 | the in-place loop puts single names side by side and merges from the first list of names on |
| Selectors.ReadNormalizes | app/fields.go:142-177 | reading in turn equals one merge of two flattened parts |
| Selectors.NormalizedIsDistinct | app/fields.go:135-177 | the result repeats no name exactly when its leading single names do not |
| Selectors.NormalizedHolds | app/fields.go:135-177 | the result holds all names and no other |
| NormalizedLists.Unique | bot/facebook/provider.go:1809-1825 | in place, the first occurrences in order; the rest of the array is untouched |
| NormalizedLists.Fields | bot/facebook/provider.go:1771-1806 | the unique pieces of all values in order, though elements are cut out, replaced and moved over each other |
| NormalizedLists.Move | bot/facebook/provider.go:1795-1799 | an overlapping copy loses and reorders nothing |
| NormalizedLists.DedupeKeeps | bot/facebook/provider.go:1809-1825 | the same values, none twice |
| NormalizedLists.DedupeOrders | bot/facebook/provider.go:1809-1825 | values come in the order of first occurrence |
| NormalizedLists.DedupeTwice | bot/facebook/provider.go:1809-1825 | making unique is idempotent |
| PlainText.ScanTextPlain | bot/facebook/provider.go:360-425 | byte offsets, cuts and limit together give the trimmed clean text cut off at the limit |
| PlainText.ScanIsPlain | bot/facebook/provider.go:360-425 | the text left is plain, without white space at its ends, and in order |
| PlainText.ScanLength | bot/facebook/provider.go:360-425 | it has no more than `max` characters, except exactly when the first `max + 1` are all kept and the last of them is no white space |
| PlainText.CutoffAt | bot/facebook/provider.go:390-401 | the character beyond the limit is dropped only when something before it was cut out |
| PlainText.DecodeEncode | bot/facebook/provider.go:409-423 | encoded text is read back |
| TextLaws.CleanIs | bot/facebook/provider.go:388-404 | exactly the plain characters are kept, from the first on that is no white space |
| TextLaws.NotCutOff | bot/facebook/provider.go:388-404 | a text within the limit is not cut off |
| TextLaws.TrimIs | bot/facebook/provider.go:409-412 | white space goes at both ends and nowhere else |
| Keyboard.MarkupV2 | internal/keyboard/keyboard.go:13-171 | the loops give the result of the conversion; no rows in, nothing out |
| Keyboard.ResultIs | internal/keyboard/keyboard.go:140-170 | no rows when a clear button comes before a bad URL; the rows so far, with an error, when that comes first; else all rows kept |
| Keyboard.RowsAreUnique | internal/keyboard/keyboard.go:43-160 | flattening the output is flattening the images with later keys dropped |
| Keyboard.RowsFilled | internal/keyboard/keyboard.go:30-42 | no row is empty, and there are as many as rows that add a button |
| Keyboard.RowsInOrder | internal/keyboard/keyboard.go:140-165 | each row that adds something is there, in its place |
| Keyboard.KeptIfFirst | internal/keyboard/keyboard.go:55-64 | a button is kept, in its place behind those before it, exactly when no earlier one has its key; else it changes nothing |
| Keyboard.LinksByCaption | internal/keyboard/keyboard.go:99-132 | a link is kept exactly when no earlier link has its caption |
| Keyboard.SecondLinkIsLost | internal/keyboard/keyboard.go:99-132 | two links with one caption and two addresses, of which the first is left |
| Keyboard.UniqueAt | internal/keyboard/keyboard.go:55-64 | a new key's button is kept after those before it; a known key changes nothing |
| Keyboard.Converter.NextBtn | internal/keyboard/keyboard.go:47-138 | the button, unless its key is known; errors and removal |
| KeyboardLaws.OrdinaryButton | internal/keyboard/keyboard.go:130-141 | a button sends its code or else its caption, and shows its caption or else what it sends |
| KeyboardLaws.SharingButton | internal/keyboard/keyboard.go:73-98 | which request each sharing type makes, and what it shows |
| KeyboardLaws.LinkButton | internal/keyboard/keyboard.go:99-129 | a link's address, caption and key; an unreadable or relative address is an error |
| KeyboardLaws.ClearButton | internal/keyboard/keyboard.go:47-72 | exactly three types clear the keyboard |
| WebChat.Room.PushMessage | bot/webchat/webchat.go:57-70 | index and history agree; an edit takes its old place, service messages are not kept |
| WebChat.Room.PushAll | bot/webchat/webchat.go:57-70 | any pushes, one after another, leave what the history function says |
| WebChat.HistoryOrder | bot/webchat/webchat.go:57-70 | over any pushes the history has one message per id, in order of first appearance |
| WebChat.HistoryLatest | bot/webchat/webchat.go:57-70 | each message of the history is the last one pushed with its id |
| HistoryLaws.HistoryIs | bot/webchat/webchat.go:57-70 | a message is in the history exactly when it was the last one pushed with its id, and that is not zero |
| HistoryLaws.FirstPushedFirst | bot/webchat/webchat.go:57-70 | the earlier of two messages of the history has the id that was pushed first |
| WebChat.Room.SendFrame | bot/webchat/webchat.go:1548-1620 | one write; a failing connection is dropped |
| WebChat.Room.Broadcast | bot/webchat/webchat.go:1657-1670 | each connection is written to once although the list shrinks, and exactly the successful ones stay, in order |
| WebChat.Room.Respond | bot/webchat/webchat.go:1402-1431 | the asking connection first, then each other once; an error is told to nobody else and not kept |
| WebChat.Room.PingSweep | bot/webchat/webchat.go:1513-1538 | the same for pings; a room without connections is closed |
| WebChat.TriedInTurn | bot/webchat/webchat.go:1657-1670 | one write per connection, in reverse order |
| WebChat.MinusKeeps | bot/webchat/webchat.go:1548-1560 | exactly the connections that did not fail are left |
| Upload.LimitedReader.Read | bot/webchat/webchat.go:699-723 | successful reads never give more than the limit; the error for too large a body stays |
| Upload.UploadFile | bot/gateway.go:127-157 | chunks are a part of the body within its limit; each error only for a failure of its kind; without failures and stalls the whole body, exactly when it is within the limit, and else too large; no chunk has more than 4096 bytes |
| AccountList.BackupAccounts | bot/facebook/whatsapp.go:169-193 | the bytes written |
| AccountList.RestoreAccounts | bot/facebook/whatsapp.go:254-282 | the ids read |
| AccountList.RestoreGivesParts | bot/facebook/whatsapp.go:169-282 | a restored list holds the parts of all ids between colons |
| AccountList.RestoreUndoesBackup | bot/facebook/whatsapp.go:169-282 | all ids but empty ones come back exactly when none holds a colon |
| AccountList.RaiseLower | bot/facebook/whatsapp.go:179-277 | byte arithmetic modulo 256 is undone, and only a colon becomes the delimiter |
| CodecLaws.AccountsAreWritten | bot/facebook/whatsapp.go:169-193 | digits are written as bytes 0 to 9, and byte 10 separates ids |
| Contact.ServiceRoundTrip | internal/contact/contact.go:34-83 | when parsing gives back the printed id and host, both directions |
| Contact.ObjectRoundTrip | internal/contact/contact.go:15-96 | every 64-bit id but zero comes back, exactly with a valid host or none |
| Contact.ObjectErrors | internal/contact/contact.go:15-31 | no error exactly when the id denotes a non-zero 64-bit integer, which is then the id; an id that is no number is reported as zero, one out of range as no integer |
| CodecLaws.ContactForms | internal/contact/contact.go:42-83 | how id and host are joined, and which hosts are refused |
| Decimal.ParseIs | internal/contact/contact.go:21-21 | a string is parsed without error exactly when it denotes a 64-bit integer, and as that |
| Interlocutor.IdIsDecoded | bot/corezoid/corezoid.go:892-912 | every non-zero id comes back, with any name up to trimming |
| Interlocutor.NameIsDecoded | bot/corezoid/corezoid.go:892-912 | a name without id comes back exactly when it does not look like one with an id |
| CodecLaws.InterlocutorForms | bot/corezoid/corezoid.go:892-901 | how name and id are joined |
| Decimal.ParseFormat | internal/contact/contact.go:21-91 | every 64-bit integer is read back as printed |
| CodecLaws.NumbersAreDecimal | internal/contact/contact.go:91-91 | a number is printed digit by digit after its sign |

## Left out

- Selectors.SelectedHolds: says nothing of a second `*` that a scan may leave as a name; it brings no attribute that is not there.
- Keyboard.MarkupV2: takes the images of the rows as a ghost argument, fixed by its precondition.
- Bots.Gateway.GetChannel: display titles, logging and the persisted contact are not modelled.
- Bots.Service.GatewayOf: `url.Parse` of paths is not modelled; paths are taken as normalized.
- Pages.MessengerPages.SetPages: the list of changed pages it returns, which no caller reads, and the user objects that grants share.
- Upload.UploadFile: stream opening, the metadata message and the result's fields; only the chunk loop is modelled.
- WebChat.Room.Respond: the reuse of one encoding buffer by queued answers.
- The eviction callback, which is always nil, and the element's owner field of `container/list`.
- In-place edits that callers could see through shared slices (`SelectFields`, `FieldsFunc`, `Page.Authorize`) are modelled on sequences that the methods reassign; `Fields` and `Unique` are on arrays.
- Several registries sharing a database, and changes to a bot's path: `UpdateBot` refuses to change `uri`, a single check; in runs of `BotRuns` a revision, or a stored profile, with another path than the running one is refused.
- PageSessions.Session: its acts do not put records back; restoring into a new store is `Pages.Reload`, and restoring within a run is in `PageRuns`.
- `FieldsMask` groups by raw string prefix and has no section-level specification; `Substrings.Match` follows no one glob; `printable` does not always return what it filtered.
- True parallelism inside one method: mutexes, goroutines, websocket pumps.
- HTTP, OAuth, Graph API, provider clients, protobuf, JSON and base64: library and network code.
- Invalid UTF-8 in plain text: a rune of a malformed byte is wider than that byte.
- Viber's keyboard layout, permission checks, licence limits, paging defaults and display names would only add easy members.
