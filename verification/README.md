# Verification of the Softlogic Whiteboard backend

This project models the parts of the backend whose correctness is hardest to see from the code, and proves
what they promise for every input and every run:

- **The AI credit ledger** (`src/modules/ai/ai.service.ts`, `src/modules/ai/ai.pricing.ts`): a tree of credit
  accounts with four counters each, moved by top-ups, allocations, a reserve / commit / refund protocol around a
  model call, and two reconcilers. `Ledger` is the state machine: a database transaction, or a single write made
  outside one, is one atomic step, a step that throws changes nothing, and a run is any sequence of steps, so calls
  interleave freely. `LedgerTree`, `LedgerConservation`, `LedgerReservations` and `LedgerReplay` prove what steps
  and runs keep, and `LedgerFailures` gives a run from the empty ledger for each way out of it; `CreditBook` is the
  service as an object, its methods proved against the state machine and, row by row, against the tables; `ProxyCalls` is the control flow of any
  number of overlapping model requests; `Pricing` is the price arithmetic.
- **The export rasteriser and PDF writer** (`src/modules/export/export.service.ts`): `Raster`, `Lines` and
  `Preview` prove the exact pixels of fills, discs, all-octant lines, previews and whole documents, `PreviewPixels`
  what a reader of the image sees; `Pdf` is the writer, `PdfReader` an independent reader written from sections
  7.3.8, 7.5 and 7.7 of ISO 32000-1, and `PdfRoundTrip` proves that the second finds the document that the first
  writes.
- **Sessions, one-time codes and the image limit**: `Sessions` (calls that nothing interrupts), `SessionSteps`
  (their database statements, in any interleaving) and `SessionFinality` (what every continuation keeps); `Otp` and
  `FeatureAttempts`, over `SlidingWindow`.
- **Printers with their inverses, a worker pool and a cache**: `Csv` (with a reader from section 2 of RFC 4180),
  `Placeholders`, `WorkerPool`, `TranslationCache` and, its calls taken apart and interleaved, `TranslationSteps`.
- **Hardware activation keys**: `Licensing`.

`Common`, `Sums` and `Decimals` hold small shared definitions. A table of the database is a mutable map of
rows. Fields that code updates in place are class fields (`CreditBook.Book`, `Sessions.Store`, `Otp.Table`,
`FeatureAttempts.Table`, `Licensing.Registry`, `TranslationCache.Store`, `Raster.Canvas`); each method states its
whole new state through a function of the old one and in terms of the rows before and after, and the properties are
proved of those functions.
`dafny verify dfyconfig.toml` checks everything.

## Where the code does less than one might expect

Each point is proved; the members named say when the code does meet the property and when it does not.

- Looking a user account up rewrites its parent (`ai.service.ts:793-806`), so `allocate` and `setAllocation` on a
  funded user account that has another parent leave two counters wrong, although the transaction after the
  lookup would have handled the move (`LedgerTree.UserCallExact`, `LedgerFailures.LookupMovesFundedAccount`). A
  top-up below the root and an allocation to a funded child of another parent do the same
  (`LedgerTree.ExactStep`, `LedgerFailures.TopUpBelowTheRoot`, `LedgerFailures.AllocationToAnothersChild`).
- `reconcileUserAccountParents` works from rows read earlier; it keeps the counters exact only on rows that are
  still current, or stale in a harmless way (`LedgerTree.ExactStep`, `LedgerFailures.StaleRefiling`), and even from
  current rows it may overdraw the organization's account (`LedgerReservations.SolventStep`,
  `LedgerFailures.OverdrawingRefiling`).
- `setAllocation` on a child of another parent, and the reconciler, move a parent's balance without a ledger entry
  (`LedgerReplay.ReplayStep`, `LedgerFailures.UnrecordedRelease`, `LedgerFailures.UnrecordedRefiling`).
- Committing and failing a feature attempt read the row and write it later, so a late commit can revive a failed
  attempt. The limit of three holds exactly as long as none is revived into a full window
  (`FeatureAttempts.LimitHolds`, `FeatureAttempts.RacePassesLimit`).
- `refreshToken` and `touchOwnSession` run in no transaction. Two refreshes of one token that both get past their
  lookup both succeed, in every state (`SessionSteps.OverlapExchangesTwice`), and a heartbeat that still carries an
  exchanged token writes it back, to be exchanged again (`SessionSteps.WrittenBackIsExchangedAgain`,
  `Sessions.StaleHeartbeatRevives`). An exchange is final exactly when, at its write, no other row holds the token
  and no other call in flight carries it (`SessionFinality.ExchangeIsFinal`, for other calls that are still to start).
- A revoked session is opened again by a login, or by a heartbeat that carries no token or one that is on no row,
  when it names the session's client id (`Sessions.RevokedStaysRevoked`), and by any touch that is already past its
  lookups (`SessionSteps.LateTouchReopens`). It stays revoked exactly when no call in flight reaches its row and none
  is begun on its client id (`SessionFinality.RevokedRowExactly`, `SessionFinality.RevokedForGood`).
- A verification that found a key expired marks it EXPIRED outside any transaction. If the key is revoked in between,
  the mark overwrites DISABLED, and a renewal and a binding then make the key work again
  (`Licensing.RevocationIsPermanent`, `Licensing.LateMarkRevives`). A key disabled by the deletion of its
  organization keeps its bound pointer and is made available by a reset of that activation
  (`Licensing.DisabledStaysDisabled`).
- `bindHardwareActivation` marks an expired key EXPIRED and throws in the same transaction, so the mark is rolled
  back (`Licensing.Registry.BindHardwareActivation`).
- `restore` gives a source back exactly when no placeholder's token occurs where it was not put: not in the source
  before that placeholder, running into the token included, and not in the protected text after it
  (`Placeholders.RestoredExactlyWhenTokensStandAlone`). `__SLP0__{a}` and `__SLP0{a}` are lost; `__SLP5__{a}` and
  any source without a placeholder come back.

## Model

| member | source | states |
|---|---|---|
| Pricing.CeilDivBounds | src/modules/ai/ai.pricing.ts:80-81 | `ceilDiv` is the least number of denominators that covers the numerator |
| Pricing.CreditsSplit | src/modules/ai/ai.pricing.ts:86-116 | Splitting one usage in two never makes it cheaper and costs at most three credits more |
| Pricing.SplitBound | src/modules/ai/ai.pricing.ts:86-116 | For any n usages, the credits of the sum are at most the sum of the credits, which is at most 3(n-1) more |
| Pricing.RoundingBound | src/modules/ai/ai.pricing.ts:80-116 | A charge is at least the exact rational cost and exceeds it by less than three micro-dollars |
| Pricing.CreditsArePrices | src/modules/ai/ai.pricing.ts:80-116 | Credits are the sum of four least whole prices: per million input tokens, per million output and thinking tokens, per image, per thousand searches; a rate that is not positive costs nothing |
| Pricing.CreditsMonotone | src/modules/ai/ai.pricing.ts:100-116 | Credits are monotone in input, output plus thinking, images and searches together |
| Pricing.ExtractUsage | src/modules/ai/ai.pricing.ts:121-145 | The total covers the three token counts, and a missing output count is exactly what the reported total leaves over |
| Pricing.ActualWithinEstimate | src/modules/ai/ai.service.ts:1138-1162 | A response within its estimate never costs more than the reserved estimate, fallbacks to the estimate included |
| Pricing.BilledAsReported | src/modules/ai/ai.service.ts:1138-1162 | Read off the response: the prompt, thoughts and candidates, or the rest of the total, with images and search, are billed when they cost anything; otherwise the estimate is |
| LedgerTree.WellFormedStep | src/modules/ai/ai.service.ts:451-686 | Every step keeps parents existing, generated ids fresh and allocations non-negative, and removes no account |
| LedgerTree.ExactStep | src/modules/ai/ai.service.ts:451-686 | From a state where every child counter is the sum of its children's allocations, a step (of all eleven) keeps this if and only if it is accountable, a test on the rows it reads |
| LedgerTree.SetAllocationExact | src/modules/ai/ai.service.ts:560-686 | Re-parenting through `setAllocation` always keeps the counters exact |
| LedgerTree.AllocateExact | src/modules/ai/ai.service.ts:490-516 | `allocate` keeps the counters exact iff the target is unfunded or already filed under the source |
| LedgerTree.TopUpExact | src/modules/ai/ai.service.ts:451-466 | A top-up keeps the counters exact iff it is of a root account or of nothing |
| LedgerTree.EnsureUserExact | src/modules/ai/ai.service.ts:793-817 | A user-account lookup keeps the counters exact iff it does not move a funded account |
| LedgerTree.RefileExact | src/modules/ai/ai.service.ts:1341-1367 | One refiling keeps the counters exact iff the row it works from is current or harmlessly stale |
| LedgerTree.CurrentRowIsFresh | src/modules/ai/ai.service.ts:1321-1367 | A row read in the same step is always fit for refiling |
| LedgerTree.UserCallExact | src/modules/ai/ai.service.ts:560-563 | A whole `setAllocation` or `allocate` call on an existing user account, lookup first, ends exact iff the account was unfunded or already filed under the source |
| LedgerTree.ExactRuns | src/modules/ai/ai.service.ts:451-686 | A run is exact throughout if and only if each of its effective steps is accountable |
| LedgerTree.CounterCoversChild | src/modules/ai/ai.service.ts:142-143 | In an exact state a child's allocation is at most its parent's counter |
| LedgerTree.ReleaseNeverTruncates | src/modules/ai/ai.service.ts:142-143 | On accountable runs the saturating subtraction never saturates when a child leaves its parent |
| LedgerConservation.StepConserves | src/modules/ai/ai.service.ts:451-686 | The exact balance of one step: topped up minus held grows by the step's leak, which only a re-parenting can have |
| LedgerConservation.LeakWhenExact | src/modules/ai/ai.service.ts:608-621 | With exact counters, `setAllocation` loses credit only when the child had no parent |
| LedgerConservation.RunConserves | src/modules/ai/ai.service.ts:451-686 | Over every run, held plus leaked is exactly what was topped up |
| LedgerConservation.NoCreditFromNothing | src/modules/ai/ai.service.ts:451-686 | From the empty ledger no run of all operations holds more than was ever topped up, with equality iff nothing leaked |
| LedgerReservations.ReservedStep | src/modules/ai/ai.service.ts:895-1092 | Every step, accountable or not, keeps each reserved counter equal to the sum of that account's open reservations |
| LedgerReservations.SolventStep | src/modules/ai/ai.service.ts:895-1092 | With exact counters, a step keeps every limited account's available credit non-negative iff it is affordable: only a refiling can overdraw |
| LedgerReservations.SaneStep | src/modules/ai/ai.service.ts:895-1092 | From a state with exact counters, nothing overdrawn and reserved equal to open, a step ends in such a state iff it is rejected, or accountable and affordable |
| LedgerReservations.PrudentRunsAreSane | src/modules/ai/ai.service.ts:688-756 | A run from the empty ledger, under any interleaving, is in such a state at every point iff each of its effective steps is accountable and affordable |
| LedgerReservations.ChargeSplit | src/modules/ai/ai.service.ts:983-992 | Charged plus unbilled is the actual cost, and an unbilled rest means that the account is emptied |
| LedgerReservations.ChargedInFull | src/modules/ai/ai.service.ts:980-1000 | In such a state a request within its estimate commits, is charged in full with nothing unbilled, and never lowers the available credit below what the reservation left |
| LedgerReservations.ClosedOnce | src/modules/ai/ai.service.ts:709-755 | In every run of the ledger's machine, whose commits and refunds are of open requests by definition, a reservation is closed at most once, and exactly once when it is no longer open |
| ProxyCalls.StepSimulates | src/modules/ai/ai.service.ts:709-755 | Every step of any number of calls that follow the source's control flow, whose transactions ask for the account only, is a step of the ledger's machine, which never refuses it for a request that is not open |
| ProxyCalls.RunSimulates | src/modules/ai/ai.service.ts:688-756 | So every run of overlapping calls and other operations leaves a ledger that a run of that machine reaches |
| ProxyCalls.ClosedByControlFlow | src/modules/ai/ai.service.ts:714-755 | In every such run each reservation is committed or refunded at most once, and exactly once when its call is done, unless the refund itself threw |
| LedgerReplay.ReplayStep | src/modules/ai/ai.service.ts:942-1089 | Every step keeps used and reserved equal to the replay of the entries; balances stay gap-free chains ending at the available credit iff the step records every balance it moves |
| LedgerReplay.GapFreeChains | src/modules/ai/ai.service.ts:468-486 | In a replayable ledger each entry of an account starts from the balance that its previous entry left |
| LedgerReplay.ReplayRuns | src/modules/ai/ai.service.ts:451-686 | Every run from the empty ledger replays used and reserved; it replays the balances at every point iff each of its effective steps records what it moves |
| LedgerFailures.TopUpBelowTheRoot | src/modules/ai/ai.service.ts:451-466 | A run whose last step tops up an organization's account and leaves its parent's counter wrong |
| LedgerFailures.LookupMovesFundedAccount | src/modules/ai/ai.service.ts:793-806 | A run whose last step is a lookup that moves a funded account |
| LedgerFailures.AllocationToAnothersChild | src/modules/ai/ai.service.ts:490-516 | A run whose last step allocates to a funded child of another parent |
| LedgerFailures.StaleRefiling | src/modules/ai/ai.service.ts:1341-1367 | A run whose last step refiles from the row as it was before an allocation |
| LedgerFailures.OverdrawingRefiling | src/modules/ai/ai.service.ts:1341-1367 | A run whose last step refiles from the current row, keeps the counters exact and overdraws the organization |
| LedgerFailures.UnrecordedRefiling | src/modules/ai/ai.service.ts:1341-1367 | The same run no longer replays, because the refiling writes no entry |
| LedgerFailures.UnrecordedRelease | src/modules/ai/ai.service.ts:608-621 | A run whose last step re-parents through `setAllocation`, exact but no longer replaying |
| CreditBook.Book.EnsureMaster | src/modules/ai/ai.service.ts:766-776 | The root account is created with zero counters when it is missing, and no row changes otherwise |
| CreditBook.Book.EnsureOrganization | src/modules/ai/ai.service.ts:778-791 | Finds the organization's account or creates it with zero counters under the parent; no existing row changes |
| CreditBook.Book.EnsureUser | src/modules/ai/ai.service.ts:793-817 | Finds the user's account and moves it under the parent and organization, or creates it there with zero counters; no other row changes, and the whole is one ledger step |
| CreditBook.Book.TopUp | src/modules/ai/ai.service.ts:451-488 | Refused iff the account is missing; otherwise its allocation grows by the amount if that is positive, it becomes active, and one entry has the balances before and after |
| CreditBook.Book.Allocate | src/modules/ai/ai.service.ts:497-549 | Refused iff source and target are the same, one is missing, or a limited source has less available; otherwise exactly both rows, moved by the amount, and their two entries change |
| CreditBook.Book.SetAllocation | src/modules/ai/ai.service.ts:567-677 | Refused iff source and target are the same, one is missing, the target has spent more than the wanted amount, or a limited source cannot add what is missing; otherwise the target has the wanted allocation under the source, which paid the difference, the old parent got its own back, and the entries say so |
| CreditBook.Book.SetUserAllocation | src/modules/ai/ai.service.ts:560-686 | A whole call on a user, run alone: from exact counters it ends exact iff the lookup was accountable; when it succeeds the user has exactly the wanted allocation under the source |
| CreditBook.Book.Reserve | src/modules/ai/ai.service.ts:895-971 | Accepted iff the account exists, is not disabled, and is unlimited or has the estimate's credits available; then these, and nothing else, are added to its reserved counter under a new open request |
| CreditBook.Book.Commit | src/modules/ai/ai.service.ts:973-1059 | The bill of the response is charged, for a limited account up to what it has available with the reservation given back; the reserved counter falls by the reservation, the used counter grows by the charge, and the request is closed |
| CreditBook.Book.Refund | src/modules/ai/ai.service.ts:1061-1092 | The reserved counter falls by exactly the request's reservation, one entry is written, and the request is closed |
| CreditBook.Book.ProxyGenerate | src/modules/ai/ai.service.ts:688-756 | Run alone: served iff the model answered and the account could reserve; the charged and unbilled credits are the bill read off the response, which is charged up to what the account had available and moves the used counter only; otherwise every account is as it was; the state stays sane |
| CreditBook.Book.Refile | src/modules/ai/ai.service.ts:1341-1367 | One transaction of the parent reconciler, row by row: the user moves, the old parent's counter falls by the amount but not below zero, the new parent's rises by it, nothing else changes |
| CreditBook.Book.ReconcileParents | src/modules/ai/ai.service.ts:1321-1369 | The loop run alone files every listed user under the account of the user's organization, moves no other account, changes no allocation, use or reservation, and keeps exact counters exact |
| CreditBook.Book.ReconcileOverdrawn | src/modules/ai/ai.service.ts:1465-1514 | Every listed account that is overdrawn and has usage ends with available credit min(0, available + used), by a lower used counter alone; all other accounts are untouched |
| CreditBook.RefundUndoesReserve | src/modules/ai/ai.service.ts:746-747 | A refund right after its reservation restores every account |
| CreditBook.CommitAfterReserve | src/modules/ai/ai.service.ts:709-726 | A commit right after its reservation changes nothing but the used counter, by the charge |
| Raster.SetPixel | src/modules/export/export.service.ts:647-656 | Sets the four bytes of that pixel and no other byte; off the image it does nothing |
| Raster.FillRect | src/modules/export/export.service.ts:470-491 | Colors exactly the pixels of the rectangle that lie on the image |
| Raster.DrawCircle | src/modules/export/export.service.ts:543-558 | Colors exactly the pixels whose squared distance is at most the squared radius |
| Lines.PlotLine | src/modules/export/export.service.ts:507-541 | The `while (true)` loop terminates, having plotted one pixel for each of its max(dx,dy)+1 passes |
| Lines.DrawLine | src/modules/export/export.service.ts:507-541 | The loop colors exactly the rounded ideal line between the endpoints |
| Lines.IterateOnLine | src/modules/export/export.service.ts:521-540 | After k passes the error-accumulating loop, in any octant, is on the k-th pixel of the rounded line |
| Lines.ExitsAtTarget | src/modules/export/export.service.ts:525-529 | The exit test holds on pass max(dx,dy) and on no earlier one |
| Lines.LineEnds | src/modules/export/export.service.ts:516-529 | The line starts and ends exactly at its endpoints |
| Lines.LineInBox | src/modules/export/export.service.ts:507-541 | No pixel leaves the endpoints' bounding box |
| Lines.LineHalfPixel | src/modules/export/export.service.ts:531-539 | Each pixel is within half a pixel of the ideal line along the minor axis |
| Lines.LineConnectedAndDistinct | src/modules/export/export.service.ts:507-541 | Successive pixels touch and none is plotted twice, so there are exactly max(dx,dy)+1 |
| Preview.DrawRect | src/modules/export/export.service.ts:493-505 | Adds exactly the four edges of the rectangle, in order |
| Preview.NextShape | src/modules/export/export.service.ts:604-614 | Four calls of the generator place a shape as the specification does, and leave the generator four calls further |
| Preview.DrawPreview | src/modules/export/export.service.ts:590-645 | Draws exactly the shapes that the seed determines: bars, crossed lines and discs in turn, between three and eight |
| Preview.DrawCard | src/modules/export/export.service.ts:249-331 | Draws exactly the card's panel, accent bar, preview panel and preview, in order |
| Preview.BuildRaster | src/modules/export/export.service.ts:207-331 | Every byte of the finished image is the last stroke over its pixel, of the header and then the cards in order |
| Preview.PickRange | src/modules/export/export.service.ts:693-699 | A random pick is between 0 and n, and both ends are reached, because the generator can yield exactly 1 |
| Preview.NextSeedInjective | src/modules/export/export.service.ts:693-699 | The generator permutes its 2^32 states |
| Preview.CardInside | src/modules/export/export.service.ts:420-468 | For every slide count and resolution each card lies inside the image, below the header |
| Preview.CardsDisjoint | src/modules/export/export.service.ts:458-468 | Two cards never share a pixel |
| Preview.CardHoldsItsDrawing | src/modules/export/export.service.ts:590-645 | For every seed and element count, everything drawn for a slide lies in its card |
| Preview.EachCardShowsItsOwnSlide | src/modules/export/export.service.ts:249-331 | In the finished image a pixel of a card shows what drawing that slide alone leaves there, on any background |
| Preview.OutsideCardsOnlyHeader | src/modules/export/export.service.ts:216-331 | A pixel of no card is independent of the slides |
| PreviewPixels.CardsInGrid | src/modules/export/export.service.ts:420-468 | With two columns: cards 32 pixels apart in both directions, equally wide, 48 pixels from both sides of the image, the first row at 224 |
| PreviewPixels.ImageSize | src/modules/export/export.service.ts:420-456 | The width is that of the resolution, and the height ends 24 pixels below the last card, but not above 900 |
| PreviewPixels.PanelShows | src/modules/export/export.service.ts:470-541 | A filled rectangle with a frame drawn by four lines shows the edge color exactly on its frame, and the filling inside |
| PreviewPixels.CardShows | src/modules/export/export.service.ts:249-331 | A card's pixels that no preview can reach have exactly these colors: bar, frame, inner panel with frame, white |
| PreviewPixels.LastShapeShows | src/modules/export/export.service.ts:600-644 | The n-th shape of a preview, once drawn, shows wholly over the earlier ones: bars in the slide's color, dark crossed lines, blue discs, in turn |
| PreviewPixels.ImageShows | src/modules/export/export.service.ts:207-331 | In the finished image: band, line and paper outside the cards, and each card's colors in it, its slide's accent included |
| Pdf.PushObjects | src/modules/export/export.service.ts:726-759 | The running length gives each object's true offset in the bytes pushed so far |
| Pdf.BuildPdf | src/modules/export/export.service.ts:716-775 | The chunks concatenate to the file of five objects, table of true offsets and trailer, which `PdfRoundTrip.PdfReadsBack` reads as a document |
| PdfRoundTrip.FoundExactlyWhenAddressable | src/modules/export/export.service.ts:756-772 | A reader that follows `startxref` and the 20-byte entries lands on every object's announcement iff every offset has at most ten digits |
| PdfRoundTrip.EntryWidth | src/modules/export/export.service.ts:764-766 | An entry is 20 bytes long iff its offset has at most ten digits |
| PdfRoundTrip.PdfReadsBack | src/modules/export/export.service.ts:716-775 | When addressable, every object is found, and a reader that goes from the trailer through catalog and page tree finds one page: its box, the scale of its content stream and the image's own size are all (width, height), and the image data is the JPEG that went in, announced as one |
| PdfRoundTrip.ShortFilesAreAddressable | src/modules/export/export.service.ts:716-775 | Files of at most 10^10 bytes are addressable |
| PdfRoundTrip.AnyImageIsAddressable | src/modules/export/export.service.ts:738-759 | For every JPEG, of any size, the file is addressable, unless width and height have a billion digits |
| Decimals.ParsePadded | src/modules/export/export.service.ts:765-765 | Zero padding does not change the number that is read back |
| Sessions.TouchKeepsValid | src/modules/auth/auth.service.ts:857-923 | Merging and writing sessions keeps tokens distinct, client ids distinct per user, and revoked rows without token |
| Sessions.NextKeepsValid | src/modules/auth/auth.service.ts:700-923 | Every operation run alone does, too: login, refresh, heartbeat, list, revoke, logout, revoke all, revoke others |
| Sessions.TouchExactly | src/modules/auth/auth.service.ts:857-923 | Refused iff there is nothing to go by, the token is on someone else's row, or it is on a row and a revoked row has the client id; otherwise the row with the client id, else the one with the token, else a new one, is the user's, open until the given time and holds the newest token, another row with the old token is revoked, and all others are as before |
| Sessions.RefreshExactly | src/modules/auth/auth.service.ts:700-772 | Succeeds iff the token is on a row that has not expired, the user is active, the decoded user is the row's, and no revoked row of theirs has the client id; the rows after success and after refusal are given |
| Sessions.RevocationsExactly | src/modules/auth/auth.repository.ts:187-236 | Revoking one session, logging out, revoking all and revoking the others: exactly which rows lose their token and are revoked |
| Sessions.LoginThenRefresh | src/modules/auth/auth.service.ts:294-310 | The token a login hands out is exchanged by a refresh right after it iff the user is active and it has not expired |
| Sessions.RevokedStaysRevoked | src/modules/auth/auth.service.ts:887-899 | A revoked session stays revoked on a call iff that is not a login, or a heartbeat whose token is on no row, that names its client id |
| Sessions.RefreshRotates | src/modules/auth/auth.service.ts:700-772 | After a successful refresh the old token is on no row and the new one on exactly one, unrevoked |
| Sessions.SpentStep | src/modules/auth/auth.service.ts:857-923 | Of calls run alone, one keeps exchanged tokens off every row iff it is not a heartbeat that carries one |
| Sessions.HonestExactly | src/modules/auth/auth.service.ts:857-923 | A run of such calls keeps them off at every point iff none of its calls is such a heartbeat |
| Sessions.HeldTokensAreHonest | src/modules/auth/auth.service.ts:822-828 | A heartbeat that carries a held token, or none, is not such a step |
| Sessions.ExchangedOnce | src/modules/auth/auth.service.ts:700-772 | In such a run every token is exchanged at most once |
| Sessions.StaleHeartbeatRevives | src/modules/auth/auth.service.ts:822-828 | A four-step run in which a stale heartbeat lets one token be exchanged twice |
| Sessions.Store.TouchOwnSession | src/modules/auth/auth.service.ts:857-923 | The refusals of `Sessions.TouchExactly`, both ways, and the rows after the merge and the write, in terms of the rows before |
| Sessions.Store.RefreshToken | src/modules/auth/auth.service.ts:700-772 | Run alone: succeeds iff the conditions of `Sessions.RefreshExactly` hold of the rows before, and the rows after are given for success and refusal; an expired row with the token is revoked |
| Sessions.Store.RevokeOwnSession | src/modules/auth/auth.service.ts:830-855 | Succeeds iff the row is the user's, not revoked, and neither by token nor by client id the caller's own; then exactly that row is revoked and loses its token |
| SessionSteps.NextKeepsValid | src/modules/auth/auth.repository.ts:143-236 | Every single statement of every call keeps tokens distinct, client ids distinct per user, and revoked rows without token |
| SessionSteps.RunsAreValid | src/modules/auth/auth.repository.ts:143-236 | And so does every interleaving of the statements, from the empty table |
| SessionSteps.CleanStep | src/modules/auth/auth.service.ts:700-923 | A statement keeps exchanged tokens off the rows, and out of refreshes past their lookup, iff it neither writes an exchanged token nor completes an exchange while another refresh is past its lookup of the token or another row has it |
| SessionSteps.CleanExactly | src/modules/auth/auth.service.ts:700-923 | An interleaving from the empty table does at every point iff none of its statements is of that kind |
| SessionSteps.ExchangedOnce | src/modules/auth/auth.service.ts:700-772 | In such an interleaving no token is exchanged twice |
| SessionSteps.FreshAtLookup | src/modules/auth/auth.service.ts:707-714 | Where no row holds an exchanged token, no refresh's lookup finds one |
| SessionSteps.ExchangeRotates | src/modules/auth/auth.service.ts:741-755 | Such an exchange leaves the old token on no row and the new one on exactly one, unrevoked |
| SessionSteps.OverlapExchangesTwice | src/modules/auth/auth.service.ts:706-755 | In every state, two refreshes of a held, unexpired token that are both past their lookup both exchange it |
| SessionSteps.LateRefreshSucceeds | src/modules/auth/auth.service.ts:857-923 | A refresh past its lookup succeeds although its token is on no row any more |
| SessionSteps.WrittenBackIsExchangedAgain | src/modules/auth/auth.service.ts:700-772 | An exchanged token that is on an unexpired row again is exchanged again by one refresh alone |
| SessionSteps.TwoRefreshesOfOneLogin | src/modules/auth/auth.service.ts:700-772 | A run of one login and two overlapping refreshes, with no heartbeat, that exchanges the login's token twice |
| SessionSteps.LateTouchReopens | src/modules/auth/auth.service.ts:892-911 | Every revocation between a touch's lookups and a write that goes through is undone by the write; `SessionFinality.RevokedRowExactly` is the exact condition |
| SessionFinality.OverExactly | src/modules/auth/auth.service.ts:700-923 | In every state: a token is never exchanged in any continuation that does not bring it in anew iff no row holds it and no call in flight carries it, calls that do being still to start |
| SessionFinality.ExchangeIsFinal | src/modules/auth/auth.service.ts:741-755 | An exchange is final over every such continuation iff at its write no other row holds the token and no other call in flight carries it, calls that do being still to start |
| SessionFinality.RevokedRowExactly | src/modules/auth/auth.service.ts:892-911 | A statement leaves a revoked session revoked iff it is not a touch's write to that row that goes through |
| SessionFinality.RevokedForGood | src/modules/auth/auth.service.ts:830-923 | A revoked session stays revoked in every continuation that begins no call on its user and client id iff no call in flight reaches its row, those that do being able to write it now |
| SessionSteps.TouchAlone | src/modules/auth/auth.service.ts:857-923 | The statements of a touch, with nothing in between, are the one-step touch of `Sessions` |
| SessionSteps.RefreshAlone | src/modules/auth/auth.service.ts:700-772 | So are those of a refresh, refusals included |
| SessionSteps.RevokeAlone | src/modules/auth/auth.service.ts:830-855 | So are those of a revocation |
| SessionSteps.SingleStatements | src/modules/auth/auth.repository.ts:210-236 | Logging out, revoking all and revoking the others write the rows that `Sessions` says |
| Otp.Latest | src/modules/auth/auth.repository.ts:106-111 | Finds an unused code of the user that no other unused one is newer than, or none is unused |
| Otp.SendKeepsValid | src/modules/auth/auth.service.ts:178-211 | Sending keeps one unused code per user, three sends per closed hour, and the accounting of guesses |
| Otp.VerifyKeepsValid | src/modules/auth/auth.service.ts:246-311 | Verifying keeps them too |
| Otp.OneCodeThreeSends | src/modules/auth/auth.service.ts:187-211 | In every run: at most one unused code per user, at most three issued in any closed hour |
| Otp.OneOldTarget | src/modules/auth/auth.service.ts:246-273 | Of the codes guessed at in an hour, at most one was issued before it |
| Otp.TwelveGuessesAnHour | src/modules/auth/auth.service.ts:178-273 | In every run at most twelve wrong codes are compared for a user in any closed hour |
| Otp.VerifyExactly | src/modules/auth/auth.service.ts:231-317 | The user's unused code, if not past its expiry and below three attempts, is used up by a matching and completing verification, gets one attempt more by a wrong guess, and nothing else changes; otherwise nothing does |
| Otp.SentCodeIsAccepted | src/modules/auth/auth.service.ts:178-317 | From sending to login: after a send, whatever happens to other users, with no later send and at most two wrong guesses, a match within ten minutes is accepted and uses up that code |
| Otp.Table.SendOtp | src/modules/auth/auth.service.ts:178-211 | Refused iff three codes are as recent as an hour; otherwise the new code expires after ten minutes, is the only unused one, and no other user's codes change |
| Otp.Table.VerifyOtp | src/modules/auth/auth.service.ts:231-317 | Accepted iff the code matches, the verification completes, and the user's unused code is not past its expiry and has fewer than three attempts; the table after every outcome is given |
| FeatureAttempts.StepLimitExact | src/modules/ai/ai.service.ts:359-416 | A step keeps every closed 24-hour window at three live attempts per user iff it is not the late write of a commit that revives a failed attempt while some window around it is full |
| FeatureAttempts.LimitHolds | src/modules/ai/ai.service.ts:359-416 | A run keeps the limit at every point, for every user and window, iff none of its steps is such a write |
| FeatureAttempts.WithinLimitMeans | src/modules/ai/ai.service.ts:359-394 | The limit in the table's own terms: of every user, at most three reserved or committed attempts were created in any 86,400,000 milliseconds, both ends included |
| FeatureAttempts.UninterruptedNeverRevives | src/modules/ai/ai.service.ts:1391-1424 | A commit or failure whose write follows its read at once is never such a write |
| FeatureAttempts.RacePassesLimit | src/modules/ai/ai.service.ts:1391-1424 | An eight-step run with two overlapping calls that ends with four live attempts in one window |
| FeatureAttempts.Table.ReserveFeatureAttempt | src/modules/ai/ai.service.ts:359-394 | Refused iff three reserved or committed attempts of the user were created in the last 86,400,000 milliseconds; otherwise exactly one reserved row is added; the limit is kept |
| FeatureAttempts.UpdateAlone | src/modules/ai/ai.service.ts:1391-1424 | The read and the write of the state machine, with nothing in between, are the update of the table |
| FeatureAttempts.Table.UpdateOwnFeatureAttempt | src/modules/ai/ai.service.ts:1391-1424 | Run alone: only a reserved attempt of the user changes, and the limit is kept |
| SlidingWindow.AdmitKeepsBounded | src/modules/ai/ai.service.ts:362-381 | Counting since one window ago before admitting keeps every closed window of that width bounded |
| Csv.FieldReadsBack | src/modules/admin/admin-export.util.ts:35-41 | An escaped text is read back, quotes, commas and line breaks included |
| Csv.PlainExactly | src/modules/admin/admin-export.util.ts:35-41 | A text is printed as it is iff it holds no quote, comma or line break |
| Csv.CsvRoundTrip | src/modules/admin/admin-export.util.ts:49-55 | Reading an export by RFC 4180 gives back the header and every cell, for every table with a column: texts, numbers and dates as they are, truth values by name, missing values empty |
| Csv.PrintInjective | src/modules/admin/admin-export.util.ts:49-55 | Two tables that print alike have the same header, row count and cell texts |
| Placeholders.Protect | src/modules/i18n/placeholder-utils.ts:8-14 | The scan yields the specified text of numbered tokens and the list of matches |
| Placeholders.Restore | src/modules/i18n/placeholder-utils.ts:18-24 | The loop is the specified sequence of replacements |
| Placeholders.MatchExactly | src/modules/i18n/placeholder-utils.ts:1-1 | A placeholder is a brace, at least one letter, digit, underscore, dot or hyphen, and a brace |
| Placeholders.ProtectExactly | src/modules/i18n/placeholder-utils.ts:8-14 | The source is gaps with placeholders between them, no placeholder starts in a gap, and the protected text is the same gaps with the numbered tokens between them |
| Placeholders.ReplaceIsSubst | src/modules/i18n/placeholder-utils.ts:21-21 | On any text made of clean pieces and tokens, `replaceAll` of one token replaces exactly the tokens of that number, tokens such as 1 and 10 included |
| Placeholders.RestoreReplacesEachToken | src/modules/i18n/placeholder-utils.ts:18-24 | Whatever order and multiplicity the tokens come back in, each is replaced by its own placeholder and the rest is unchanged |
| Placeholders.RoundTrip | src/modules/i18n/placeholder-utils.ts:8-26 | Restoring a protected source gives the source, for every source without the token letters |
| Placeholders.RestoredExactlyWhenTokensStandAlone | src/modules/i18n/placeholder-utils.ts:8-26 | For every source: restoring the protected source gives it back iff each placeholder's token occurs, in the source before it and in the protected text after it, nowhere but at its own place |
| Placeholders.WithoutPlaceholders | src/modules/i18n/placeholder-utils.ts:8-26 | Every source without an opening brace comes back, whatever tokens it spells |
| Placeholders.SpelledTokenIsLost | src/modules/i18n/placeholder-utils.ts:8-26 | Every source is lost whose text before the first placeholder contains the first token, or ends so that the inserted token completes one |
| WorkerPool.StepKeeps | src/modules/i18n/i18n.provider.ts:39-47 | Each step of any worker keeps claims unique and results right, and decreases the measure |
| WorkerPool.InFlight | src/modules/i18n/i18n.provider.ts:35-47 | At every point of every interleaving no more items than the concurrency (or one), nor than there are, are in flight, on different items, and each claimed item is still with the one worker that claimed it or has its result |
| WorkerPool.InFlightReached | src/modules/i18n/i18n.provider.ts:35-47 | The bound is tight: some interleaving has that many items in flight at once |
| WorkerPool.EveryScheduleMaps | src/modules/i18n/i18n.provider.ts:30-50 | Every interleaving ends within 3n steps and one per worker, with each index claimed once and the mapped items in order |
| WorkerPool.MapWithConcurrency | src/modules/i18n/i18n.provider.ts:30-50 | With any choice of the next worker the loop terminates and returns the mapped items in order |
| TranslationCache.FindMany | src/modules/i18n/i18n.service.ts:131-146 | The lookup finds exactly the requested texts that have a row for these languages |
| TranslationCache.UpsertMany | src/modules/i18n/i18n.service.ts:57-75 | The writes that succeed leave the specified table |
| TranslationCache.StoredIsCoherent | src/modules/i18n/i18n.service.ts:57-75 | Any subset of the writes keeps the cache coherent with the provider |
| TranslationCache.AnswerIsUncached | src/modules/i18n/i18n.service.ts:187-203 | Over a coherent cache an answer is the provider's own; with the provider down it may also be the text itself, marked as fallback |
| TranslationCache.MissingHolds | src/modules/i18n/i18n.service.ts:147-147 | Exactly the texts whose hash was not found are sent to the provider |
| TranslationCache.RequestedComesFrom | src/modules/i18n/i18n.service.ts:115-115 | The requested texts are the call's texts that are not all white space, in order, trimmed |
| TranslationCache.NormalizeTrims | src/modules/i18n/i18n.service.ts:94-94 | Trimming removes exactly the white space at both ends |
| TranslationCache.TranslatePortalTexts | src/modules/i18n/i18n.service.ts:106-204 | With any failures of lookup, provider and writes: each answer is the identity, the cached row, the provider's translation (the text when that is empty) or the text as fallback, with its flags; available iff the provider was not needed or worked; only rows of texts that were missing are written, with the provider's translation |
| TranslationCache.CacheIsInvisible | src/modules/i18n/i18n.service.ts:106-204 | After any run of whole calls from a coherent cache, whatever failed in it, a call whose provider works answers, text by text, what the provider alone would |
| TranslationCache.StoredForGood | src/modules/i18n/i18n.service.ts:106-204 | What a call has stored, the provider is never asked for again: after any further calls, the same texts are answered from the cache with the provider's translation, even when the provider is down |
| TranslationSteps.StepIsSound | src/modules/i18n/i18n.service.ts:135-175 | Every single lookup, provider answer and cache write of any call keeps the table coherent, and what each call has seen of it |
| TranslationSteps.OverlapIsInvisible | src/modules/i18n/i18n.service.ts:106-204 | In every interleaving of the calls' steps from a coherent cache, the writes of a call in any order and even after its return, each call whose provider works answers what the provider alone would |
| TranslationSteps.CallAlone | src/modules/i18n/i18n.service.ts:106-204 | The steps of a call, with nothing in between, are the one-step call of `TranslationCache` |
| TranslationSteps.CallAloneWithoutProvider | src/modules/i18n/i18n.service.ts:106-204 | So are those of a call that needs no provider or whose provider fails, which write nothing |
| Licensing.NextKeepsCoherent | src/modules/licensing/licensing.service.ts:671-996 | Every step keeps one activation per device and key, and bound pointers at activations of their own key |
| Licensing.RunsAreCoherent | src/modules/licensing/licensing.service.ts:671-996 | And so does every run from the empty tables |
| Licensing.SweepClears | src/modules/licensing/licensing.service.ts:1353-1406 | A sweep expires and unbinds exactly the usable keys of an invalid subscription, or of an organization that owns one; every other key is as before |
| Licensing.SweepStops | src/modules/licensing/licensing.service.ts:1353-1406 | It disables exactly the active activations of such a key or organization |
| Licensing.SweepIsSwept | src/modules/licensing/licensing.service.ts:1353-1406 | The whole sweep: no subscription runs past its end, no key of an invalid subscription or of an owner of one is usable, no activation of them is active, and everything else is as before |
| Licensing.RevokeKills | src/modules/licensing/licensing.service.ts:936-952 | A revocation leaves the key disabled, unbound and active on no device |
| Licensing.DeadStaysDead | src/modules/licensing/licensing.service.ts:671-996 | Every step keeps it so when no earlier verification is still to mark the key |
| Licensing.RevocationIsPermanent | src/modules/licensing/licensing.service.ts:924-962 | After a revocation every run leaves the key dead, unbindable and never valid, if and only if no verification was about to mark it |
| Licensing.LateMarkRevives | src/modules/licensing/licensing.service.ts:834-840 | From every state with a lapsed key: a verification, a revocation before its mark, the mark, a renewal and a binding make any device verify as valid |
| Licensing.DisabledStaysDisabled | src/modules/licensing/licensing.service.ts:903-922 | A disabled key stays disabled on every step but two: such a mark, and freeing the keys of the activation it points to |
| Licensing.BoundDeviceVerifies | src/modules/licensing/licensing.service.ts:671-901 | A device that was just bound verifies as valid, with the same facts and clock |
| Licensing.AnswerIsVerdict | src/modules/licensing/licensing.service.ts:806-901 | What each of the ten verdicts means in the tables; valid iff the key exists, fits the claim, is neither disabled nor lapsed, an activation of the key and device is active, the organization is active, and the subscription, if found, is active or on trial |
| Licensing.ResetStops | src/modules/licensing/licensing.service.ts:903-922 | After a reset the activation's device holds no active activation of its key |
| Licensing.StoppedUntilBound | src/modules/licensing/licensing.service.ts:671-996 | A device without one never verifies as valid at any point of any run without a step that binds it |
| Licensing.DisableOrganizationKills | src/modules/admin/admin.service.ts:1590-1616 | Deleting an organization disables exactly its keys and activations, and no device verifies with one of them |
| Licensing.Registry.BindHardwareActivation | src/modules/licensing/licensing.service.ts:671-804 | Accepted iff the key is not disabled or lapsed, fits the claim, its organization and paid subscription are active, and the device is known or a place is left; the rows after that are given |
| Licensing.Registry.VerifyHardwareActivation | src/modules/licensing/licensing.service.ts:806-901 | Run alone: the verdict is that of `Licensing.AnswerIsVerdict`, read off the tables, and only a key that lapsed is written |
| Licensing.Registry.ResetHardwareActivation | src/modules/licensing/licensing.service.ts:903-922 | Run alone: the activation is reset and every key that points to it is freed |
| Licensing.Registry.RevokeHardwareActivationKey | src/modules/licensing/licensing.service.ts:924-962 | The key is disabled and unbound, exactly its active activations are disabled and counted, and nothing else changes |
| Licensing.Registry.CreateHardwareActivationKey | src/modules/licensing/licensing.service.ts:508-541 | Created iff the organization is active, the subscription is its own, paid for, and has a seat left; then exactly one available key is added, which ends with the given date or the subscription |
| Licensing.Registry.ReplaceHardwareActivationKey | src/modules/licensing/licensing.service.ts:964-996 | Replaced iff a new key may be created when the old one leaves its seat; then the old key is dead and one new key with its end date is added; without a seat nothing changes |
| Licensing.Registry.RenewSubscription | src/modules/licensing/licensing.service.ts:1142-1232 | The subscription is active until the new date, and exactly the keys of its organization that are not disabled end then; expired ones become available when that is in the future |
| Licensing.Registry.SweepSubscriptions | src/modules/licensing/licensing.service.ts:1261-1419 | The tables after an uninterrupted sweep, row by row, and the two counts of what was expired |

## Left out

- Roles, organization scopes, authentication middleware, HTTP, sockets, audit rows, emails and logging: requests arrive already permitted.
- Gemini and the Google translator: their answers are arbitrary values or failures; retries and HTML entity decoding are not modelled.
- Hashes, JWTs and encryption: hashes are injective, generated tokens and row ids are fresh, a code either matches or not.
- Anomalies of the database inside one transaction: a transaction is one atomic step. In `Licensing`, creating a key, replacing one and sweeping use several statements and are one step each, so two creations at once can pass the seat limit in the source; verifying and resetting are split.
- Integer width: counters are unbounded, while the source stores 64-bit integers and converts some to doubles.
- Deleting accounts, keys, sessions or users, and the minor-currency columns, texts and metadata of ledger entries, except the reserved amount a commit records.
- Errors after a commit has succeeded inside `proxyGeminiGenerate`: the handler would then refund a closed reservation, which the model's refund refuses.
- Two simultaneous first lookups of one account: an organization or user is looked up in one step with its creation.
- The audio and image token counting of `estimateReservationCredits`: an estimate is an arbitrary usage.
- Texts in the exported image (`drawText`): long labels can leave a card, so `Preview.EachCardShowsItsOwnSlide` is about everything but texts. The accent color is an arbitrary color and the seed an arbitrary 32-bit number.
- Rounding of the pseudo-random double before `Math.floor`: the generator's quotient is exact in `Preview.Pick`.
- Fractional coordinates: `Math.round` is the identity on the integers that the callers pass to `drawLine`.
- Preview.BuildRaster: requires an image of less than 2^31 bytes, because the source computes offsets with a 32-bit shift, which wraps from there on.
- PNG and JPEG encoding, the XLSX branch of the admin export, invalid dates and big integers in a CSV cell, which throw.
- Session columns for device, address and last use, and trimming of tokens and client ids, which arrive trimmed.
- One-time codes of other types and relaxed limits: `shouldRelaxAuthLimits` is false throughout `Otp`, and calls for codes run to completion in clock order.
- A refresh that fails after the rotation, when the user's context cannot be loaded any more: it counts as an exchange.
- A mapper that throws in `mapWithConcurrency`: the pool is about mappers that succeed.
- The language registry: a language is its id, and the provider is asked with that id. Coherence of rows written by an older provider is an assumption on the initial cache.
- Keys per seat and devices per key as global limits: re-binding a reset device and reviving expired keys on renewal check neither.
- Payments, reminders, seat counts and session revocation in `renewSubscription` and `sweepSubscriptions`; the choice of a subscription when a new key names none.
- Pricing.ExtractUsage: responses are read after `Number(...)`, so what JavaScript parses as a number is not modelled.
- Sessions.NextKeepsValid: a call is one step here, as when nothing interrupts it; `SessionSteps.NextKeepsValid` is about single statements.
- Sessions.SpentStep: of calls that nothing interrupts; `SessionSteps.CleanStep` is about single statements.
- Sessions.ExchangedOnce: of calls that nothing interrupts; `SessionSteps.ExchangedOnce` is about any interleaving.
- Sessions.Store.RefreshToken: a call that nothing interrupts; its statements among others are those of `SessionSteps`.
- TranslationCache.CacheIsInvisible: runs take whole calls; `TranslationSteps.OverlapIsInvisible` is about their single steps.
- Disabling a credit account (as deleting its organization does) and making one unlimited: no step of `Ledger` does either, so its runs meet neither; the theorems about single steps hold of such accounts, too.
- The several reads of `verifyHardwareActivation`, which are one step in `Licensing`; its write is another.
- A clock that the session calls share: each reads an arbitrary time.
