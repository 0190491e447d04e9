# A model of anafpy's protocols and codecs

anafpy is a client library for the Romanian tax authority (ANAF) and the National Bank
(BNR). Most of it moves bytes; this project models the parts that keep promises over many
calls, and the codecs that must not lose a digit, and proves those promises in Dafny.
`dafny verify dfyconfig.toml` checks everything.

What is modelled, one or two files each:

- **The filing gate** (`gate.dfy`). A human approves a preview; a token binds the operation,
  its context and the exact bytes, expires, and is redeemed once through a ledger that
  forgets expired entries. The ledger object and `run_submit` are methods. The whole server
  is a step system: any number of prepares, verifications and redemptions interleaved with
  a clock. Verification and redemption are two steps, because the code reads the clock twice
  (gate.py:265 and :149) and the portal variant awaits a network probe between them
  (mcp/declaratii/tools.py:811-836).
- **The chunked credential store** (`keyring.dfy`). A text split over numbered keyring
  entries, against the one-field store it must behave like.
- **The OAuth token lifecycle** (`provider.dfy`). Tasks share a lock and a store; each event
  is one await-free stretch of code; other processes log in and out at any time.
- **The SPV session** (`spv.dfy`). Compare-and-save on a shared store, and the redirect walk.
- **The convergent installer** (`installer.dfy`, `installer_proofs.dfy`,
  `installer_again.dfy`, `installer_feeds.dfy`, `installer_listing.dfy`). A pass over a disk
  map, a manifest and a feed, from any starting state, with crash points.
- **BNR rates** (`bnr.dfy`, `bnr_cache.dfy`, `bnr_convert.dfy`). The document cascade against
  the whole publication history, the two caches over time, and rounding over exact rationals.
- **The e-Factura listing** (`efactura.dfy`). Windows judged by another party's clock and a
  page walk with one self-correction.
- **e-Transport documents** (`etransport.dfy`, `etransport_translation.dfy`). The flat and
  wire documents field by field, builder and reader, numerals, and the UIT check code.
- **The payment-evidence number** (`nr_evid.dfy`) and **the DUK err file** (`duk_err.dfy`).

`wrappers.dfy`, `numerals.dfy`, `text.dfy` and `name_order.dfy` hold `Option`/`Result`,
decimal printing, white space and the order of names.

Code that works in place is a class or a loop (`TokenLedger`, `KeyringTokenStore`,
`TokenProvider`, `SpvSessionProvider`, `DukInstaller`, `BnrClient`, the redirect walk, the
page walk, the err-file loop), proved equal to a specification function of its inputs and
old state; the lemmas are about those functions and about runs of them.

## Findings

Some promises hold only under a condition. For each, the model proves when it holds and
gives an input where it does not:

- A token is single-use if and only if no spent token is redeemed at or after its expiry
  having been verified before it (`SingleUse`; a run that files twice:
  `LateReplayFilesTwice`). Redeeming before the expiry is enough (`TimelyRunsFileOnce`).
- The ledger is keyed by the token string. If several strings decode to one claims record
  (which the JWT library decides), an approval is filed once if and only if, besides, no
  second spelling of a spent one is redeemed (`ApprovalFiledOnce`, `TwoSpellingsFileTwice`).
- The digest separates its parts by NULs that the parts may hold too. A prepared filing is
  the only one its approval can upload if and only if neither its context's value (past the
  first byte) nor its bytes have a NUL (`PreparedIsUploadedExactly`, `UnpreparedUpload`;
  with a CIF: `DigestInputAmbiguousWithNul`). Well-formed XML has none; the PDFs of the declaration
  portal may.
- A keyring save with a negative chunk size writes nothing and erases the stored set
  (`LoadAfterSave`). A save the keyring interrupts can leave a set of two generations:
  exactly when the stale rest of the old set is not what was still to be written
  (`InterruptedSave`, `InterruptedCleanup`, `MixedSet`).
- A login made by another process vanishes, and a logout is undone, if and only if a token
  exchange was in flight and is granted (`ConcurrentLoginIsLost`, `LoginOverwritten`;
  `LogoutUndoneExactly`, `LogoutUndone`).
- A listed file whose name is another one's `.anafpy-part` name is lost when that one is
  stored after it; the run does not converge and the next one is not quiet
  (`InstallConverges`, `SecondRun`, `FirstInstallConverges`, `ClobberedInstall`).
- An explicit D406T install settles if and only if the viewer jar is in the archive or was in
  place already; the code insists on the validator jar only, and otherwise downloads the
  91 MB archive on every run (`SaftSettlesExactly`, `SaftAgainExactly`,
  `ViewerJarMissing`).
- A second bare install is quiet if and only if, besides, no target form ships the validator
  jar of another form of the feed (`SecondBareRun`, `FormBroughtIn`).
- When this year's archive is not served yet, a day only the previous year's archive could
  answer raises (`CascadeIsLatest`, `JanuaryRaises`). Whether BNR omits the archive in the
  first days of January cannot be told from the code.
- A list walk corrected after page 1 ends normally without the earlier pages of its final
  window (`CorrectedWalkTruncates`, `CorrectionSkipsPages`).
- `payment_evidence_number` raises for December 9999, which its docstring does not list
  (`PaymentAnswersExactly`).

## Model

| member | source | states |
|---|---|---|
| `Gate.DigestInputAmbiguousWithNul` | src/anafpy/mcp/gate.py:67-74 | two submissions a filing tool can build, for CIF 1 and for a CIF holding a NUL, share one digest and one approval |
| `Gate.DigestBindsExactly` | src/anafpy/mcp/gate.py:67-74 | the digest is that of one submission only if and only if kind, context and bytes are all free of NUL |
| `Gate.ApprovalBindsExactly` | src/anafpy/mcp/gate.py:67-135 | among the submissions a tool can build, an approval verifies for one only if and only if the context value past its first byte and the bytes are free of NUL; the kind is bound whatever it holds |
| `Gate.IssuedTokenVerifies` | src/anafpy/mcp/gate.py:77-135 | an issued token verifies exactly before its truncated expiry, for exactly the submissions with the same kind and the same context-and-bytes digest input |
| `Gate.VerdictExactly` | src/anafpy/mcp/gate.py:100-135 | each verdict has its exact cause, in the order of the checks: forged or malformed, expired, another kind, another digest, accepted |
| `Gate.TokenLifetime` | src/anafpy/mcp/gate.py:77-97 | an issued token is accepted exactly before the whole second its TTL ends in, and refused as expired from the end of the TTL on |
| `Gate.TokenLedger.Consume` | src/anafpy/mcp/gate.py:149-156 | succeeds exactly when no live entry holds the token; the new ledger is the live entries plus, on success, this one |
| `Gate.RunSubmit` | src/anafpy/mcp/gate.py:229-294 | what is verified is the resolved bytes under `cif=` and the CIF passed, or the configured one when none or an empty one is passed; an upload happens only for that submission, confirmed and verified, after the ledger took the token; every refusal before that leaves the approval unburnt, each answer has its exact cause, and a submit is one verification and one redemption of the step system |
| `Gate.RequireCifExactly` | src/anafpy/mcp/config.py:231-238 | the CIF passed wins over the configured one, an empty one counts as none, and only with neither is there no CIF |
| `Gate.LedgerInvStep` | src/anafpy/mcp/gate.py:138-156 | every step keeps: the ledger holds only spent tokens under their own expiry, and misses none that is still live |
| `Gate.RedeemAnswer` | src/anafpy/mcp/gate.py:149-156 | a redemption succeeds exactly for a token never uploaded before, or, with pruning, one replayed at or past its expiry |
| `Gate.SingleUse` | src/anafpy/mcp/gate.py:138-156 | in every run of interleaved prepares, submits and ticks, no token is in the upload log twice if and only if no spent token is replayed past its expiry |
| `Gate.PruningRefinesGrowOnly` | src/anafpy/mcp/gate.py:138-156 | a ledger that prunes gives the same answers over a whole run as one that never does, if and only if the run has no late replay |
| `Gate.LateReplayFilesTwice` | src/anafpy/mcp/gate.py:259-276 | a concrete honest run from a fresh server: one prepare, two submits verified, the clock at the expiry, and the one approval is in the upload log twice |
| `Gate.TimelyRunsFileOnce` | src/anafpy/mcp/gate.py:138-156 | if every redemption comes before the expiry of the token it redeems, no token files twice and pruning and growing ledgers answer alike |
| `Gate.ApprovalFiledOnce` | src/anafpy/mcp/gate.py:138-156 | in every run, no approval is filed twice, however its token is spelled, if and only if no spent token is replayed late and no second spelling of a spent one is redeemed |
| `Gate.TwoSpellingsFileTwice` | src/anafpy/mcp/gate.py:149-156 | a run in which two strings of one claims record file one approval twice, well before its expiry |
| `Gate.ApprovalInvStep` | src/anafpy/mcp/gate.py:77-135 | every step keeps, whatever is submitted: what is verified or uploaded was prepared under the same kind and digest input, less than its TTL before verification |
| `Gate.EverythingUploadedWasPrepared` | src/anafpy/mcp/gate.py:229-283 | in every run, of any mix of kinds, each upload a tool of its kind can build has an earlier prepare of the same kind, context and bytes, less than its TTL before verification, if what was prepared binds, whatever was submitted; and also if no NUL is in any kind or context |
| `Gate.EverythingUploadedWasBacked` | src/anafpy/mcp/gate.py:229-283 | in every run without any such condition, each upload has an earlier prepare of the same kind with the same digest input, less than its TTL before verification |
| `Gate.PreparedIsUploadedExactly` | src/anafpy/mcp/gate.py:67-135 | all runs that prepare only one filing upload only that filing, if and only if its context value past the first byte and its bytes are free of NUL |
| `Gate.UnpreparedUpload` | src/anafpy/mcp/gate.py:229-283 | the failing run: one filing is prepared, and another that its token cannot tell from it is submitted and uploaded |
| `Gate.FreshServer` | src/anafpy/mcp/gate.py:138-156 | the three run theorems hold of every run of a server that starts empty |
| `KeyringStore.EntryInjective` | src/anafpy/auth/store.py:119-120 | chunk numbers and entry names correspond one to one |
| `KeyringStore.EntryNames` | src/anafpy/auth/store.py:119-120 | the first entry is called as the user, each further one by the user, "#" and its number without leading zeros |
| `KeyringStore.KeyringTokenStore.Load` | src/anafpy/auth/store.py:122-152 | returns the chunks up to the first gap joined, or nothing without a first entry; the reading loop ends on any keyring |
| `KeyringStore.KeyringTokenStore.Save` | src/anafpy/auth/store.py:154-174 | the new keyring is the chunks written over the old entries with the stale ones after them deleted |
| `KeyringStore.KeyringTokenStore.Clear` | src/anafpy/auth/store.py:176-194 | the new keyring is the old one without its contiguous entries |
| `KeyringStore.KeyringTokenStore.DropFrom` | src/anafpy/auth/store.py:165-169 | deletes entries from the given number until one is missing, ending on any finite keyring |
| `KeyringStore.SlicesFit` | src/anafpy/auth/store.py:154-161 | no stored entry is longer than the chunk size, and all but the last fill it |
| `KeyringStore.ChunksExactly` | src/anafpy/auth/store.py:154-161 | without a chunk size (or with zero) the text is one entry; with a positive one the pieces fit and join to the text |
| `KeyringStore.SavedChunks` | src/anafpy/auth/store.py:154-174 | whatever gaps and orphans were there before, exactly the new chunks are readable after a save |
| `KeyringStore.LoadAfterSave` | src/anafpy/auth/store.py:122-174 | load after save is the saved text for every chunk size and prior keyring, if and only if the size is not negative |
| `KeyringStore.LoadAfterClear` | src/anafpy/auth/store.py:176-194 | load after clear is none |
| `KeyringStore.NothingLeftBehind` | src/anafpy/auth/store.py:154-194 | of a store without orphans, a clear leaves no entry at all, and a save exactly one entry a chunk |
| `KeyringStore.OthersUntouched` | src/anafpy/auth/store.py:119-194 | no operation touches an entry outside the store's family of names |
| `KeyringStore.RingRefinesCell` | src/anafpy/auth/store.py:36-49 | for every sequence of loads, saves and clears, from any keyring, the loads answer as the in-memory store's would |
| `KeyringStore.InterruptedSave` | src/anafpy/auth/store.py:158-169 | stopped after k chunks were written, a load finds those and then the old set from chunk k on; it is the new set exactly when that rest is what was still to be written (with all written: when nothing was stale), and the old set exactly when the chunks written were its own |
| `KeyringStore.InterruptedCleanup` | src/anafpy/auth/store.py:164-169 | stopped inside the deleting loop, a load finds the new set exactly when something was deleted or nothing was stale |
| `KeyringStore.MixedSet` | src/anafpy/auth/store.py:158-169 | a concrete keyring where saving "xyz" over "abcdef" in chunks of two, stopped before deleting, reads back as "xyzef" |
| `OAuthTokens.TokenProvider.AccessToken` | src/anafpy/auth/provider.py:56-74 | up to its await: raises without a set, answers an unexpired token, or posts the loaded refresh token and keeps the lock |
| `OAuthTokens.TokenProvider.ForceRefresh` | src/anafpy/auth/provider.py:76-86 | up to its await: answers the stored token when the stale one was already replaced, else refreshes |
| `OAuthTokens.TokenProvider.FinishRefresh` | src/anafpy/auth/provider.py:88-98 | a granted set is saved whatever the store holds by then; a refusal leaves the store |
| `OAuthTokens.FirstRequestServed` | src/anafpy/auth/provider.py:69-74 | in every run, a first request with the lock free posts the stored refresh token if and only if the stored set is within five minutes of its expiry and can still be refreshed, is given the stored access token if and only if more is left, and fails if and only if there is no set or it is dead |
| `OAuthTokens.RejectedRequestServed` | src/anafpy/auth/provider.py:76-98 | in every run, a request answered 401 posts the stored refresh token if and only if the stored access token is the rejected one and can still be refreshed, is given the stored one if and only if that is another, and fails otherwise |
| `OAuthTokens.ExchangeEnds` | src/anafpy/auth/provider.py:88-98 | a granted set is stored and its access token carried by the request that asked for it; a refusal fails that request; either frees the lock |
| `OAuthTokens.AnswersHandled` | src/anafpy/auth/provider.py:123-132 | a 401 to a first request rejects the token it carried; any other answer, and any answer to a retry, ends the request |
| `OAuthTokens.RequestsMoveOn` | src/anafpy/auth/provider.py:123-132 | whatever happens, a request only moves on: it is sent at most twice and refreshed at most once per sending |
| `OAuthTokens.InvNext` | src/anafpy/auth/provider.py:56-98 | every event keeps: one lock holder, the stored set never rotated away, every post won, lost or in flight, none won twice |
| `OAuthTokens.SpentTokensStaySpent` | src/anafpy/auth/provider.py:56-98 | in every run, a refresh token is never posted after it was exchanged, is exchanged at most once, and posted at most once more than refused |
| `OAuthTokens.OneRotationPerWave` | src/anafpy/auth/provider.py:76-86 | however many requests got a 401 on one access token, once any retries it carries another token, and no set with the rejected one was exchanged twice or posted more than once beyond refusals, whatever other processes did; if none interfered, exactly one set had it and was exchanged exactly once |
| `OAuthTokens.WaveIsServed` | src/anafpy/auth/provider.py:76-98 | any number of requests answered 401 on the stored, refreshable token are served by one exchange: all retry with the new token, and one post and one grant are all the calls made |
| `OAuthTokens.LaterRejectionsAreFree` | src/anafpy/auth/provider.py:76-86 | in every run, a task rejected on a token that was already rotated away is given the stored token without a post |
| `OAuthTokens.EveryTokenHandedOut` | src/anafpy/auth/provider.py:69-98 | in every run, a token handed out was just granted, or is the stored one of a set never rotated away, with more than the leeway left for a first request and not the rejected one for another |
| `OAuthTokens.EveryExchangeNeeded` | src/anafpy/auth/provider.py:69-98 | in every run, an exchange is of the stored set, and only when its token has no more than the leeway left or is the one just rejected |
| `OAuthTokens.OneExchangeAtATime` | src/anafpy/auth/provider.py:56-67 | no two tasks are ever in an exchange at once |
| `OAuthTokens.ConcurrentLoginIsLost` | src/anafpy/auth/provider.py:88-98 | over every run without a further foreign login or logout, another process's login vanishes without being exchanged if and only if an exchange was in flight when it was saved and that exchange is granted |
| `OAuthTokens.LoginOverwritten` | src/anafpy/auth/provider.py:88-98 | the concrete run from a fresh provider in which such a login is overwritten and never used |
| `OAuthTokens.LogoutUndoneExactly` | src/anafpy/auth/provider.py:88-98 | over every run without a further foreign login or logout, another process's logout is undone if and only if an exchange was in flight when it was made and that exchange is granted |
| `OAuthTokens.LogoutUndone` | src/anafpy/auth/provider.py:88-98 | the concrete run from a fresh provider in which it is |
| `SpvSession.SpvSessionProvider.CurrentCookies` | src/anafpy/spv/auth.py:75-86 | the stored cookies, or the not-authenticated error |
| `SpvSession.SpvSessionProvider.Rotated` | src/anafpy/spv/auth.py:88-104 | saves the rotated set with the old establishment time if the store still holds the set the request saw, else changes nothing |
| `SpvSession.SpvSessionProvider.Login` | src/anafpy/spv/auth.py:106-125 | without a bootstrapper or when the handshake fails it raises and keeps the store; otherwise the new session replaces whatever is stored |
| `SpvSession.Walk` | src/anafpy/spv/auth.py:155-204 | at most nine requests, each to a followed redirect with the jar folded so far; it returns normally if and only if a non-redirect comes among the first eight answers after followed redirects; each fault has its exact cause |
| `SpvSession.RefusalExactly` | src/anafpy/spv/auth.py:155-204 | which redirects are refused: another host, or a login page of the SPV host; the page that only revalidates the session is followed |
| `SpvSession.JarExactly` | src/anafpy/spv/auth.py:155-204 | after any answers the jar has, of each cookie, what the last answer to set it gave, unless a later one expired it, and otherwise what it had at first |
| `SpvSession.RotationKeepsGeneration` | src/anafpy/spv/auth.py:88-104 | a rotation never changes which login is stored, and one that began under an older login changes nothing |
| `SpvSession.EventsExactly` | src/anafpy/spv/auth.py:75-125 | a request carries the stored cookies, a login replaces the stored session, a logout drops it |
| `SpvSession.LineageNeverGoesBack` | src/anafpy/spv/auth.py:75-125 | over every interleaving of requests, rotations, logins and logouts, the stored login's generation never decreases and only a login moves it |
| `SpvSession.OnlyFirstRotationKept` | src/anafpy/spv/auth.py:88-104 | of two rotations from one seen set, the later is dropped whatever happens in between, if the server does not issue that set again |
| `SpvSession.KeptExactly` | src/anafpy/spv/auth.py:75-104 | over every interleaving between its start and its end, a request whose cookies changed has them kept, under the stored establishment time, if and only if no login, logout or other kept rotation came in between |
| `Installer.DukInstaller.WriteFile` | src/anafpy/declaratii/install.py:481-486 | writing goes through the temporary name, which is gone afterwards |
| `Installer.DukInstaller.FetchIntoDist` | src/anafpy/declaratii/install.py:453-469 | a download is stored, recorded with its hash and reported, or raises and changes nothing |
| `Installer.DukInstaller.ConvergeItems` | src/anafpy/declaratii/install.py:326-335 | the file loop fetches exactly the listed files that are not current (all, when the core version moved) and stops at the first error |
| `Installer.DukInstaller.InstallSaftForm` | src/anafpy/declaratii/install.py:402-451 | the SAF-T form: current, or the wanted members of the archive stored under their first occurrence |
| `Installer.DukInstaller.InstallOneForm` | src/anafpy/declaratii/install.py:357-400 | one form, with its notes, errors and versions |
| `Installer.DukInstaller.PickTargets` | src/anafpy/declaratii/install.py:350-355 | a bare run targets exactly the preinstall forms, the manifest's and those scanned in `lib/`, each once, sorted |
| `Installer.DukInstaller.Sorted` | src/anafpy/declaratii/install.py:336-336 | the sorted sequence of a set of names, by code points |
| `Installer.DukInstaller.InstallDist` | src/anafpy/declaratii/install.py:294-346 | a whole run; the manifest is saved only when it goes through |
| `InstallerConvergence.BasenameIsLastPart` | src/anafpy/declaratii/install.py:521-529 | the name taken from a URL path is its last component that is neither empty nor a dot |
| `InstallerConvergence.NameStaysInside` | src/anafpy/declaratii/install.py:521-529 | a destination is one plain component of its own directory, and a URL is refused exactly when it ends in none or in two dots |
| `InstallerConvergence.ExtractedAreWanted` | src/anafpy/declaratii/install.py:424-430 | the archive yields every wanted name it holds, once, with the bytes of its first member of that name |
| `InstallerConvergence.CurrentAfterExactly` | src/anafpy/declaratii/install.py:471-486 | after any sequence of stores a file is current exactly when it was or was stored, and no later store took its name as a temporary without storing it again |
| `InstallerConvergence.InstallLogged` | src/anafpy/declaratii/install.py:294-486 | any run, completed or raised, changes the disk only by storing, under its own paths and in the order its report lists, what the allowed host or the archive offers under that very name |
| `InstallerConvergence.ConvergeReaches` | src/anafpy/declaratii/install.py:326-335 | after a completed pass every listed file was current at its start or has been stored since |
| `InstallerConvergence.InstallFormDone` | src/anafpy/declaratii/install.py:357-451 | after a form's turn went through, its version is recorded and each of its files was current or has been stored |
| `InstallerConvergence.FormSettledExactly` | src/anafpy/declaratii/install.py:357-451 | such a form is settled exactly when none of its files was clobbered and a named D406T has its viewer jar |
| `InstallerConvergence.SaftSettlesExactly` | src/anafpy/declaratii/install.py:402-451 | a completed D406T install is settled if and only if the viewer jar was current or is in the archive |
| `InstallerConvergence.SaftAgainExactly` | src/anafpy/declaratii/install.py:414-419 | asking again downloads nothing if and only if both jars are current |
| `InstallerConvergence.InstallConverges` | src/anafpy/declaratii/install.py:294-346 | from any disk, manifest and feed, a completed run leaves every core, config and target-form file matching its recorded hash at the feed's versions, if and only if none was clobbered by another file's temporary name and a named D406T has its viewer jar current or stored |
| `InstallerConvergence.InstallConvergesApart` | src/anafpy/declaratii/install.py:294-346 | in particular every completed run converges when no listed file is called like another's temporary and a named D406T has its viewer jar in the archive |
| `InstallerAgain.QuietExactly` | src/anafpy/declaratii/install.py:322-346 | for any dist and whatever the network would answer, a run goes through and downloads nothing if and only if the dist is settled for it |
| `InstallerAgain.SettledRunIsQuiet` | src/anafpy/declaratii/install.py:322-346 | such a run installs nothing either and changes neither disk nor manifest |
| `InstallerAgain.SecondRun` | src/anafpy/declaratii/install.py:294-346 | after any completed run, the same run again has no updated files if and only if none of its files was clobbered and a named D406T has its viewer jar |
| `InstallerAgain.SecondRunApart` | src/anafpy/declaratii/install.py:294-346 | in particular when no listed file is called like another's temporary and the archive holds the viewer jar |
| `InstallerAgain.SecondBareRun` | src/anafpy/declaratii/install.py:294-355 | a second bare run, with targets computed afresh from the manifest and the `lib/` scan, is quiet if and only if the first one's files held and no target form shipped the validator jar of a further form of the feed |
| `InstallerAgain.OutsideUntouched` | src/anafpy/declaratii/install.py:294-486 | no run changes a file outside its paths and their temporaries |
| `InstallerAgain.CrashLeavesWholeFiles` | src/anafpy/declaratii/install.py:481-486 | a crash anywhere leaves every file as it was or whole; none is torn and none disappears, temporary names aside |
| `InstallerAgain.CrashRecovery` | src/anafpy/declaratii/install.py:322-346 | after a crash at any step with the manifest unsaved, a run that completes converges, and the same run after it is quiet, if and only if its own files held; files outside the two runs' paths never change |
| `InstallerAgain.BareCrashRecovery` | src/anafpy/declaratii/install.py:322-355 | the same for bare runs, the next one with targets of its own |
| `InstallerAgain.OutdatedIsReplaced` | src/anafpy/declaratii/install.py:326-340 | after a completed run over an older core, exactly those core and config files that were not clobbered are there, as the network offers them under their names; likewise the files of every target form whose recorded version is not the feed's |
| `InstallerFeeds.FullPassExactly` | src/anafpy/declaratii/install.py:332-335 | a full pass leaves all its files current exactly when each one named like a later file's temporary is listed again after that |
| `InstallerFeeds.FirstInstallConverges` | src/anafpy/declaratii/install.py:294-346 | whether a completed first install converges can be told from the order of the feed's listing alone, in both directions |
| `InstallerFeeds.ClobberedInstall` | src/anafpy/declaratii/install.py:200-247 | a feed the parser lets through, with two config files, one called like the other's temporary: from any disk its first install completes without converging, and the next run is not quiet |
| `InstallerFeeds.ViewerJarMissing` | src/anafpy/declaratii/install.py:402-451 | with an archive that holds the validator jar only, a first D406T install completes from any disk without settling, and the same run downloads the archive again |
| `InstallerFeeds.FormBroughtIn` | src/anafpy/declaratii/install.py:350-355 | with a feed in which D100's validator jar is called D999's, the bare install of an empty disk completes and the next one is not quiet |
| `InstallerListing.FormItemsExactly` | src/anafpy/declaratii/install.py:386-391 | a form's files are its validator, its viewer and its history as the feed gives them, no other, all in `lib` |
| `InstallerListing.BaseItemsExactly` | src/anafpy/declaratii/install.py:327-331 | the core pass lists the feed's root jars, library jars and config files, in that order, each in its own directory, and nothing else |
| `InstallerListing.ListedFilesInPlace` | src/anafpy/declaratii/install.py:294-346 | after a completed run from any dist, each root jar, library jar and config file of the feed, and the validator, viewer and history of each target form, is on the disk under its own name with the recorded hash if and only if it was not clobbered; the form's version and the core version are the feed's; likewise the jars of a named D406T |
| `InstallerListing.OnlyListedStored` | src/anafpy/declaratii/install.py:294-486 | any run, completed or raised, stores only what the feed lists for its targets, each URL's bytes under that URL's name, or the three wanted members of the archive for a named D406T |
| `InstallerListing.BadUrlStoresNothing` | src/anafpy/declaratii/install.py:386-391 | a form of which any URL ends in no usable name raises before any of its files is fetched |
| `InstallerListing.WantedAreExtracted` | src/anafpy/declaratii/install.py:405-430 | each of the three wanted names is extracted exactly when a member of the archive is called so, in whatever directory |
| `InstallerListing.ManifestTells` | src/anafpy/declaratii/install.py:453-469 | of each path stored in a run, completed or raised, the manifest tells source, hash and size of what was stored there last; of any other what it told before |
| `InstallerListing.FormReported` | src/anafpy/declaratii/install.py:357-451 | a form's turn is reported as current when it stored nothing, as installed at the feed's version when it did, and as a note when a bare run cannot install it |
| `InstallerListing.TargetsNoted` | src/anafpy/declaratii/install.py:336-400 | the notes of a bare run are exactly the targets it could not install, in order; a named run has none |
| `InstallerListing.TargetsReported` | src/anafpy/declaratii/install.py:336-400 | every other target of a completed run is listed as installed or current |
| `InstallerListing.DefaultTargetsExactly` | src/anafpy/declaratii/install.py:350-355 | a bare run's targets are the twelve preinstalled forms, the manifest's, and each non-empty name whose validator jar is directly in `lib/` |
| `BnrRates.LatestIsLatest` | src/anafpy/bnr/client.py:216-219 | the chosen set is not after the day, none on or before the day is later, and it is the first of its date; none is chosen only if all are after |
| `BnrRates.CurrentAnswers` | src/anafpy/bnr/client.py:270-282 | for today or later, today's file alone gives the history's answer |
| `BnrRates.TenDaysAnswers` | src/anafpy/bnr/client.py:270-282 | the ten-day file gives the history's answer if it reaches back to the day, and no answer otherwise |
| `BnrRates.ArchiveAnswers` | src/anafpy/bnr/client.py:270-282 | a year archive answers a past day exactly when the history's answer is of that year |
| `BnrRates.SourcesExactly` | src/anafpy/bnr/client.py:270-282 | which documents are asked: today's file from today on, the ten-day file up to its reach back, the archive of the day's year, and of the year before from 2006 on; smallest first |
| `BnrRates.CascadeIsLatest` | src/anafpy/bnr/client.py:270-322 | for any reach constant, an answer is always the latest publication on or before the day in the whole history, and there is one if and only if some document of the cascade reaches it |
| `BnrRates.RaisesExactly` | src/anafpy/bnr/client.py:297-322 | why a lookup raises: exactly for a day before 2005; exactly when no document asked holds anything; or for a document that cannot be read when all before it hold nothing |
| `BnrRates.JanuaryRaises` | src/anafpy/bnr/client.py:270-322 | the failing world, with the real reach: nothing published yet this year, its archive not served, and the answer in the previous year's never asked for |
| `BnrCache.BnrClient.Document` | src/anafpy/bnr/client.py:253-268 | serves from the cache its path's mutability calls for, fetching on a miss or an expired entry, and caches no failure |
| `BnrCache.BnrClient.Sources` | src/anafpy/bnr/client.py:270-282 | the documents to try, smallest first |
| `BnrCache.BnrClient.Rates` | src/anafpy/bnr/client.py:297-322 | the cascade read through the caches, each read at its own instant |
| `BnrCache.AnswerFromGenuineDocuments` | src/anafpy/bnr/client.py:253-322 | every answer is the cascade's over documents each as it stood at some moment of the last 900 seconds, or a final archive |
| `BnrCache.CachesServeGenuine` | src/anafpy/bnr/client.py:204-268 | over every run with an advancing clock and evictions anywhere, the never-expiring cache holds only archives fetched after their year ended, and everything served was genuine |
| `BnrCache.NeverStale` | src/anafpy/bnr/client.py:204-213 | if closed years are final, whatever is served was served by BNR less than 900 seconds ago, or is a closed archive that is never served otherwise again |
| `BnrCache.CachedReadsAreFree` | src/anafpy/bnr/client.py:253-268 | whatever BNR then serves, a document fetched less than 900 seconds ago is answered from the cache, and an archive fetched after its year ended is for ever |
| `BnrCache.FailuresAreNotCached` | src/anafpy/bnr/client.py:253-268 | a failed fetch leaves both caches as they were |
| `BnrCache.CachedPastDay` | src/anafpy/bnr/client.py:253-322 | over a growing history and whatever moments the documents are of, an answer for a day past for 900 seconds is exactly the latest publication on or before it, then and ever after, and there is one if and only if a document that was read reaches it |
| `BnrCache.CachedToday` | src/anafpy/bnr/client.py:253-322 | an answer for a day not yet over is the latest publication as the history stood less than 900 seconds before |
| `BnrConversion.RoundingExactly` | src/anafpy/bnr/models.py:102-104 | the rounded amount is n cents exactly when n is nearest, a tie going away from zero |
| `BnrConversion.ConvertIsNearest` | src/anafpy/bnr/models.py:80-105 | a conversion keeps the amount and the currency asked, carries the set's own rate for it, and is the nearest cent (ties away from zero) to amount times that quotation over its multiplier, or to the amount itself for the base currency; there is none exactly for a currency that is neither |
| `BnrConversion.ConvertIsOdd` | src/anafpy/bnr/models.py:80-105 | converting the negated amount negates the result |
| `BnrConversion.ConvertIsMonotone` | src/anafpy/bnr/models.py:80-105 | a larger amount never converts to less at a quotation that is not negative, nor to more at one that is not positive |
| `BnrConversion.ExactIsLinear` | src/anafpy/bnr/models.py:48-56 | before rounding, conversion is additive, odd, and the amount times the lei for one unit, which times the multiplier are the quotation |
| `BnrConversion.LinesAgainstTotal` | src/anafpy/bnr/models.py:80-105 | n lines converted one by one differ from the conversion of their total by at most (n + 1) / 2 cents |
| `EFacturaList.ResolvedMeetsTheRules` | src/anafpy/efactura/client.py:129-171 | what is resolved satisfies ANAF's rules on the local clock, and a range is refused only if it does not |
| `EFacturaList.ResolvedExactly` | src/anafpy/efactura/client.py:129-171 | what a request resolves to (days back, five minutes inside the start and one inside the end; or the very range), and the exact cause of each of the six refusals |
| `EFacturaList.DaysWindowAccepted` | src/anafpy/efactura/client.py:98-126 | a days window is accepted by ANAF's clock if and only if the drift is between -60 s and 5 min plus the unused days |
| `EFacturaList.RetryAccepted` | src/anafpy/efactura/client.py:174-194 | rebuilt on ANAF's clock, a days window is accepted for five minutes whatever the original drift |
| `EFacturaList.RebuiltExactly` | src/anafpy/efactura/client.py:174-194 | a rebuilt days window is the one computed afresh at ANAF's moment; a range keeps its start and ends a minute before that moment |
| `EFacturaList.RangeOnlyShrinks` | src/anafpy/efactura/client.py:174-194 | an explicit range keeps its start, only loses from its end, is never emptied, and moves exactly when ANAF's clock falls inside it |
| `EFacturaList.RebuildIsIdempotent` | src/anafpy/efactura/client.py:174-194 | rebuilding twice at one moment changes nothing more |
| `EFacturaList.ShrunkRangeAccepted` | src/anafpy/efactura/client.py:174-194 | a range that only ANAF's clock put in the future is accepted after the rebuild |
| `EFacturaList.IterMessages` | src/anafpy/efactura/client.py:485-528 | the page loop sends, yields, corrects and ends as the recursive walk, and terminates by a lexicographic measure |
| `EFacturaList.WalkBounds` | src/anafpy/efactura/client.py:485-528 | every walk yields exactly the messages of the answers it read, in order, with at most one correction and a bounded number of requests |
| `EFacturaList.RequestsBounded` | src/anafpy/efactura/client.py:485-528 | a whole walk makes at most 10,001 requests |
| `EFacturaList.EndsAtFirstTerminal` | src/anafpy/efactura/client.py:485-564 | without a correction, the walk stops at the first empty or last-declared page, having asked for every page up to it |
| `EFacturaList.NoPageSkipped` | src/anafpy/efactura/client.py:485-564 | in every run, corrected or not, each request is the page after a full page or the same page on ANAF's clock; a normal end comes only from a terminal answer and each failure only from its own kind of answer |
| `EFacturaList.NeverTruncatesSilently` | src/anafpy/efactura/client.py:485-564 | a normal end without a correction yielded exactly pages 1 to k, k being the first terminal page |
| `EFacturaList.CorrectedWalkTruncates` | src/anafpy/efactura/client.py:485-564 | a normal end with a correction asked, of the window it ends on, for exactly the pages from the corrected one to the terminal one, so that window is listed whole if and only if the correction came on page 1 |
| `EFacturaList.CorrectionSkipsPages` | src/anafpy/efactura/client.py:502-512 | the concrete walk, corrected on page 2, that ends normally without page 1 of its final window |
| `ETransportModels.ParseNum` | src/anafpy/etransport/models.py:903-913 | parsing a printed amount gives it back, for every amount |
| `ETransportModels.ParsedExactly` | src/anafpy/etransport/models.py:903-913 | a numeral is read as exactly the number its digits denote, in hundredths, and it is read if and only if only zeros follow its second decimal |
| `ETransportModels.OnlyNumeralsParse` | src/anafpy/etransport/models.py:903-913 | only digits with at most one point in them are read |
| `ETransportModels.NumShape` | src/anafpy/etransport/models.py:1077-1079 | an amount is written with exactly two decimals and no superfluous zero, and its digits denote it |
| `ETransportModels.CanonNumeralKeepsValue` | src/anafpy/etransport/models.py:1077-1079 | reprinting a numeral keeps the number its digits denote, and settles at once |
| `ETransportModels.CleanCodeIdempotent` | src/anafpy/etransport/models.py:471-475 | cleaning twice is cleaning once, and leaves no separator or lower-case letter |
| `ETransportModels.CleanCodeConcat` | src/anafpy/etransport/models.py:471-475 | cleaning works character by character |
| `ETransportModels.CleanCharacter` | src/anafpy/etransport/models.py:471-475 | white space, dots and dashes go, letters are upper-cased, anything else stays |
| `ETransportModels.CleanCodeKeepsClean` | src/anafpy/etransport/models.py:471-509 | a code already in the plate alphabet is not changed |
| `ETransportModels.PlatesAreClean` | src/anafpy/etransport/models.py:471-504 | of 2 to 20 characters, the plates are exactly the codes of ASCII letters and digits that cleaning leaves as they are |
| `ETransportModels.UitCheckIsSumMod100` | src/anafpy/etransport/models.py:478-499 | the sliced check equals the zero-padded sum modulo 100, because the sum is at least 672 |
| `ETransportModels.OneMistypedCharacter` | src/anafpy/etransport/models.py:478-499 | no single-character change of a valid UIT is a valid UIT |
| `ETransportModels.UitsDifferTwice` | src/anafpy/etransport/models.py:478-499 | two distinct valid UITs differ in at least two positions |
| `ETransportModels.AlphabetExactly` | src/anafpy/etransport/models.py:491-499 | a UIT is of digits and capital letters other than B, G, I, O, S and Z |
| `ETransportModels.DeclarantExactly` | src/anafpy/etransport/models.py:671-679 | a declarant code is a number of two to ten digits, or of thirteen, without a leading zero |
| `ETransportModels.LocationExactly` | src/anafpy/etransport/models.py:566-591 | a route point is exactly one of a border point, a customs office and a valid address |
| `ETransportModels.GoodExactly` | src/anafpy/etransport/models.py:594-641 | the bounds of a goods line, field by field; its net weight is at most its gross weight |
| `ETransportModels.DocumentExactly` | src/anafpy/etransport/models.py:644-660 | a transport document of the kind "other" needs a note |
| `ETransportTranslation.BuildETransport` | src/anafpy/etransport/models.py:919-977 | the builder that assigns one field of a fresh root gives the specified wire document or error |
| `ETransportTranslation.BuildSucceedsExactly` | src/anafpy/etransport/models.py:929-943 | a build goes through exactly when one place gives the declarant code or both give the same, and that code is the one filed |
| `ETransportTranslation.ReadBuildGood` | src/anafpy/etransport/models.py:887-900 | a goods line survives being built and read |
| `ETransportTranslation.ReadGoodExactly` | src/anafpy/etransport/models.py:887-913 | the four numbers read from a goods line are the ones its numerals denote |
| `ETransportTranslation.ReadFails` | src/anafpy/etransport/models.py:777-816 | a document is refused for having no operation exactly when it has none of the four, and what is read meets the flat models' rules |
| `ETransportTranslation.InstantExactly` | src/anafpy/etransport/models.py:806 | the instant of a vehicle change is read to the microsecond, in its own zone |
| `ETransportTranslation.ReadBuildDeclaration` | src/anafpy/etransport/models.py:825-862 | a whole declaration does, for any list lengths |
| `ETransportTranslation.ReadAfterBuild` | src/anafpy/etransport/models.py:777-977 | reading a built document gives the flat document back for all four kinds, with the declarant filled in and the instant cut to the second or defaulted; it is refused exactly when the code argument is no declarant code |
| `ETransportTranslation.BuildAfterRead` | src/anafpy/etransport/models.py:777-977 | rebuilding a document that was read changes only its spelling |
| `ETransportTranslation.RebuildKeepsNumbers` | src/anafpy/etransport/models.py:777-977 | every number of a rebuilt declaration denotes what the one that was read does |
| `ETransportTranslation.ReadCanonical` | src/anafpy/etransport/models.py:777-977 | the canonical spelling reads as the same flat document |
| `ETransportTranslation.CanonIdempotent` | src/anafpy/etransport/models.py:777-977 | the canonical spelling is stable |
| `ETransportTranslation.BuiltIsCanonical` | src/anafpy/etransport/models.py:919-1079 | what the builder writes is canonical already |
| `EvidenceNumber.BodySumBounded` | src/anafpy/declaratii/nr_evid.py:50-62 | the digit sum of the first 21 digits is at most 96, so the modulo never wraps |
| `EvidenceNumber.ComposedIsValid` | src/anafpy/declaratii/nr_evid.py:50-62 | every composed number has 23 digits with the fixed ones in place and a check equal to the plain digit sum |
| `EvidenceNumber.SingleDigitChangeDetected` | src/anafpy/declaratii/nr_evid.py:50-62 | changing any one digit of a valid number invalidates it |
| `EvidenceNumber.DecodeCompose` | src/anafpy/declaratii/nr_evid.py:50-62 | decoding recovers prefix, code, period, due date and flag, years up to their century |
| `EvidenceNumber.ComposeInjective` | src/anafpy/declaratii/nr_evid.py:50-62 | equal numbers come from equal fields |
| `EvidenceNumber.PaymentAnswersExactly` | src/anafpy/declaratii/nr_evid.py:65-128 | D300 answers exactly for a known settlement, a real month and a four-digit year other than December 9999, and its number decodes to the request and the 25th of the next month |
| `EvidenceNumber.SettlementsExactly` | src/anafpy/declaratii/nr_evid.py:47 | the four settlements and their codes; no other is known |
| `EvidenceNumber.RefusedExactly` | src/anafpy/declaratii/nr_evid.py:73-128 | the exact cause of each refusal |
| `EvidenceNumber.SpecialVatAnswersExactly` | src/anafpy/declaratii/nr_evid.py:210-245 | the same for D301 and its new-transport flag |
| `EvidenceNumber.MonthlyVatEqualsSpecialVat` | src/anafpy/declaratii/nr_evid.py:91-245 | the monthly D300 and the D301 without new transport agree for every period, errors included, and with it they differ |
| `EvidenceNumber.ObligationAndProfitTaxDecode` | src/anafpy/declaratii/nr_evid.py:131-207 | D100/D710 and D101 answer for the same requests, never with the same number, and decode to the request |
| `DukErrFile.ParseErrFile` | src/anafpy/declaratii/duk.py:125-160 | the line loop returns the findings of the declarative segmentation, and is ok exactly for a bare "ok" or when there are findings and none is an error |
| `DukErrFile.OpensExactly` | src/anafpy/declaratii/duk.py:75 | a line opens a finding exactly by its first two characters: E: and F: an error, W: and A: a warning |
| `DukErrFile.SectionsSnoc` | src/anafpy/declaratii/duk.py:151-157 | one more line opens a section, extends the last one or is dropped, and changes no other section |
| `DukErrFile.FindingsMatchOpenings` | src/anafpy/declaratii/duk.py:151-158 | findings match the prefixed lines one for one, in order and severity |
| `DukErrFile.FindingMessage` | src/anafpy/declaratii/duk.py:145-158 | a message is its opening line without the prefix and the non-blank lines up to the next opening, each stripped, on lines of their own |
| `DukErrFile.SectionsPartitionLines` | src/anafpy/declaratii/duk.py:151-158 | put end to end, the findings' parts are every non-blank line from the first prefix on, each in exactly one finding |
| `DukErrFile.SplitAtBreak` | src/anafpy/declaratii/duk.py:151 | the text is cut into lines at each boundary character, a carriage return and line feed together being one |
| `DukErrFile.BreaksExactly` | src/anafpy/declaratii/duk.py:151 | the ten line boundary characters, all of them white space |
| `DukErrFile.JoinSnoc` | src/anafpy/declaratii/duk.py:147 | the parts of a message are joined by line feeds |
| `DukErrFile.BlankExactly` | src/anafpy/declaratii/duk.py:156 | the lines dropped as blank are those of white space only |
| `Text.StripExactly` | src/anafpy/declaratii/duk.py:147-157 | stripping takes white space off both ends, all of it and nothing else |

## Left out

Weaker than the source, or under a hypothesis:

- Gate.DigestInputInjective: for NUL-free kinds and contexts only; `DigestBindsExactly` and `ApprovalBindsExactly` are the exact statements.
- Gate.EverythingUploadedWasPrepared: a token is its claims record under a key, SHA-256 is injective and HS256 unforgeable; JWT parsing is not modelled.
- Gate.SingleUse: about token strings; `ApprovalFiledOnce` is about approvals. Whether two strings can decode to one claims record is not part of this model.
- KeyringStore.RingRefinesCell: saved texts are not empty (a token set's JSON never is) and the chunk size is not negative; parsing the text back into a token set and `KeyringError` are not modelled, beyond `InterruptedSave`.
- OAuthTokens.OneRotationPerWave: "exactly once" is for runs in which no other process logged in or out; the endpoint hands out fresh secrets, and a rotation the server made but whose answer was lost counts as refused.
- SpvSession.Walk: the save-if-changed call that ends a request is the `Rotate` event of the step system; left out are cookie domains, paths and expiry dates, and the joining of relative locations (a response says which cookies it sets and drops).
- SpvSession.OnlyFirstRotationKept: the load, comparison and save of the store are one step, which the lock guarantees within a process only; nobody else is handed the same cookie set again.
- InstallerConvergence.InstallConvergesApart: for listings without another file's temporary name and archives with the viewer jar; `InstallConverges` is the exact statement.
- InstallerAgain.SecondRunApart: likewise; `SecondRun` is the exact statement.
- InstallerFeeds.FirstInstallConverges: for feeds that state a core version and runs that do not name D406T.
- InstallerConvergence.NameStaysInside: of POSIX separators; on Windows a feed name may hold a backslash.
- KeyringStore.SlicesFit: says nothing for a negative size, which writes no chunk.
- BnrRates.CascadeIsLatest: BNR's documents relate to its history as the code's comments say (today's file is the newest set, the ten-day file a suffix, archives complete through yesterday).
- BnrCache.CachesServeGenuine: a fetch is one instant, a timer that fires late is not modelled, and LRU eviction may drop any entry at any time.
- BnrCache.CachedPastDay: says nothing about a day that ended less than 900 seconds before the call.
- BnrConversion.ConvertIsMonotone: arithmetic is exact, below the decimal context's 28 digits.
- EFacturaList.NeverTruncatesSilently: about walks without a clock correction; `CorrectedWalkTruncates` says exactly what the others list.
- ETransportModels.ParseNum: amounts are whole hundredths. Signs, exponents, underscores and surrounding white space, which `Decimal` accepts, are refused by the model's parser.
- ETransportModels.CleanCodeIdempotent: upper-casing is that of ASCII letters.
- ETransportTranslation.ReadAfterBuild: enum members are their ANAF codes, so coercion from names, retired codes other than country AN, and non-ASCII digits in a declarant code are not modelled.
- EvidenceNumber.ObligationAndProfitTaxDecode: codes are ASCII digits, where `str.isdigit` admits others.
- DukErrFile.ParseErrFile: the rule id extracted from each message is not modelled.

Not modelled at all:

- HTTP, TLS, subprocesses, the browser handshake, curl and native signing calls.
- Reading submission files (`XmlInput.resolve`) and the wording of tool answers.
- XML, JSON, pydantic, xsdata and regular-expression parsing: the update feed, rate documents, list bodies and wire XML arrive parsed; `xs:any` hooks and serialisation are absent.
- Normalising form names and currencies (strip and upper-case), query strings in file URLs, and file-system errors in the installer.
- The CIF and filter parameters of the listing, and the second granularity of the moment ANAF quotes.
- Invoice authoring, the JSON file store, polling, request pacing, UIT validity dates, the SPV report matrix, PDF cards, the command line and packaging: each is a thin wrapper or settled by one short argument.
