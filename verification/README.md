# Vouch, modelled and proved in Dafny

Vouch is a command-line client and a background agent that hold a user's login. This project models the parts of it
whose correctness is hardest to see, and proves what they keep over whole runs:

- the agent's single session slot, its bounded credential cache and its SSH certificate (`AgentState.dfy`,
  `Crowding.dfy`), and what it answers, in clock readings (`Serving.dfy`);
- the agent's request handlers and the logins, logouts and restores that race on the slot (`Server.dfy`), and what
  clients are told, in their requests' own fields (`Answers.dfy`);
- the monitor that warns before a session expires (`ExpiryMonitor.dfy`);
- length-prefixed framing over a chunked byte transport (`Wire.dfy`, `Transport.dfy`);
- symlink-following, crash-safe file replacement (`LinkChain.dfy`, `AtomicWrite.dfy`);
- the migration of legacy files by several processes at once (`Migration.dfy`);
- configuration save, load and legacy migration (`Config.dfy`), and the login kept in it (`SavedLogin.dfy`);
- the step-up challenge parser (`Challenge.dfy`), server-URL comparisons (`ServerUrl.dfy`), shell quoting
  (`ShellQuote.dfy`) and the specification section splitter (`Sections.dfy`).

`dafny verify dfyconfig.toml` checks the whole project.

## How to read it

State that the program changes in place is a class whose methods change it; each lock-held method of the agent is
one atomic step. The `Agent` class records the steps it takes as ghost state, and `Valid()` says that record is a run,
so every theorem about runs holds of every sequence of calls. `Server.System` interleaves requests, audit writes,
logins and multi-step restores in any order, and `InterleavingIsAgentRun` carries the run theorems over to it.
Crash points, failing system calls, write sizes and the order a hash map yields its entries are nondeterministic. A disk
or tree made `reliable` is one on which no call fails, and a channel's `room` says when it closes, so that success is
promised where nothing stands in its way.

The clock is an input to each step and does not run backwards; one step reads it once. `ssh_cert_issued_to`,
`check_url_security`, URL parsing and the regular expressions of the section splitter are parameters.

## Where the code falls short of a natural claim

Each of these keeps the code as it is, shows the failing input, and states exactly when the claim holds.

- Eviction can be observed. The cache answers as an unbounded one throughout a run if and only if no accepted insert found
  128 unexpired keys besides its own (`TransparentIffNeverCrowded`); `CrowdedRun` is a run that does.
- A restore can offer a login's token for another URL of the same host, when a second login to that URL gets no
  further than registering its client (`AbandonedLoginMixesPair`). The pair is the login's own if and only if the last URL
  saved on that entry since, if any, is the login's (`RestoreOffersLoginPairIff`).
- A chain of 40 links is refused although it ends; only 39 are followed (`FortyLinksAreRefused`).
- A write through a link such as `f -> x/../f`, with `x` missing, replaces the link: the chain seems to end, then creating `x`
  makes that end the link again (`LinkThroughMissingDirectoryIsLost`, a completed write). Every link is kept if and only if the target
  does not land on one once its directories exist (`LinksKeptIff`).
- Two migrations across devices can lose a file's bytes for good when a write fails (`OverlappingCopiesLoseBytes`); every
  interleaving of a list is safe at every point if and only if each move in it is a rename or of an empty file
  (`SafeForAllProcessesIffRename`). If no call fails, overlapping copies mend each other and the file arrives
  (`UnfailingCopiesArrive`). The comment in the source claims safety because each move is a rename.
- A search for a challenge parameter can invent one (`SearchInventsParameter`) or miss one (`SearchMissesParameter`) when an
  earlier value ends in a delimiter, the name and an equals sign. `SearchReturns` says what is returned on every printed
  header, and `SearchReturnsLookupIff` exactly when that is right.
- Writer and reader disagree on empty and over-long messages; the round trip holds if and only if the payload has 1 to 1,048,576
  bytes (`OnlySendableRoundTrips`).

Other places where the code and its own text differ, and the code is followed: the eviction comment says "oldest" where
the code takes the least expiry; `parse_www_authenticate` accepts a header that merely contains the error text
anywhere; without a table of contents the splitter still skips line 0, because the table's end is then 0.

## Model

| member | source | states |
|---|---|---|
| `AgentState.Utf8LenBounds` | crates/vouch-agent/src/state.rs:479-485 | the key limit counts bytes, which equal characters exactly for ASCII keys |
| `AgentState.Utf8LenIsSum` | crates/vouch-agent/src/state.rs:479-485 | each character counts one to four bytes by its code point |
| `AgentState.CacheIsBoundedSubMap` | crates/vouch-agent/src/state.rs:474-516 | in every reachable state the cache has at most 128 entries and is a sub-map of the ideal unbounded one, all else in the slot equal |
| `AgentState.InsertEvictsAtMostOne` | crates/vouch-agent/src/state.rs:494-514 | an insert stores its credential and loses at most one entry, exactly one and only for a new key among 128: one whose expiry has come, or if there is none one of least expiry; every other entry is kept |
| `AgentState.CrowdedInsertDiverges` | crates/vouch-agent/src/state.rs:502-511 | an insert over 128 unexpired other keys loses a credential the ideal map still serves |
| `AgentState.UncrowdedInsertAgrees` | crates/vouch-agent/src/state.rs:496-514 | with fewer, whatever is evicted could not have been served |
| `AgentState.TransparentIffNeverCrowded` | crates/vouch-agent/src/state.rs:474-537 | over any run every lookup at every point agrees with the ideal map if and only if no insert was crowded |
| `Crowding.CrowdedRun` | crates/vouch-agent/src/state.rs:494-514 | a run of a login and 129 accepted inserts is crowded at the last and not transparent |
| `AgentState.UncrowdedRunRepliesAsIdeal` | crates/vouch-agent/src/state.rs:362-537 | in an uncrowded run every reply to every operation is the unbounded agent's |
| `AgentState.CachedEntryOrigin` | crates/vouch-agent/src/state.rs:242-264 | every entry in the cache was put there under the slot still held and is the last cached for its key |
| `AgentState.ServedCredentialIsOwned` | crates/vouch-agent/src/state.rs:518-529 | a served credential was cached since the slot was installed, by the last insert of its key, under the same session, and the clock is before its expiry and the session's |
| `AgentState.SshOrigin` | crates/vouch-agent/src/state.rs:405-424 | a certificate held was stored under this slot and names its user and server |
| `AgentState.ServedCertificateIsOwned` | crates/vouch-agent/src/state.rs:434-450 | a served certificate was accepted under the very session held, the clock is before the session's expiry and not after the certificate's |
| `AgentState.LiveSessionStays` | crates/vouch-agent/src/state.rs:362-394 | a stored session stays until it expires or a replacing store or a clear comes; conditional stores never displace it |
| `AgentState.FindExpired` | crates/vouch-agent/src/state.rs:498-501 | finds an expired entry in whatever order, or says there is none |
| `AgentState.SoonestToExpire` | crates/vouch-agent/src/state.rs:502-507 | finds an entry of least expiry, or the cache is empty |
| `AgentState.Agent.StoreSession` | crates/vouch-agent/src/state.rs:362-365 | installs a fresh slot, with no credential of the old one, as one step of the run |
| `AgentState.Agent.StoreSessionIfNoLiveSession` | crates/vouch-agent/src/state.rs:373-384 | stores exactly when no live session is held, else changes nothing |
| `AgentState.Agent.ClearSession` | crates/vouch-agent/src/state.rs:391-394 | drops session and credentials in one step |
| `AgentState.Agent.StoreSshCredentials` | crates/vouch-agent/src/state.rs:405-424 | stores only under a live session the certificate names; refusals change nothing |
| `AgentState.Agent.ClearSshCredentials` | crates/vouch-agent/src/state.rs:427-432 | drops the certificate, keeps the rest |
| `AgentState.Agent.CacheCredential` | crates/vouch-agent/src/state.rs:474-516 | both refusals exactly, and on acceptance a bounded insert into this slot's cache alone |
| `AgentState.Agent.GetCachedCredential` | crates/vouch-agent/src/state.rs:520-529 | what is served was last cached under this slot, and in an uncrowded run is the ideal map's answer |
| `AgentState.Agent.ClearCredentialCache` | crates/vouch-agent/src/state.rs:532-537 | empties the cache, keeps the session and certificate |
| `AgentState.Agent.GetValidSshCredentials` | crates/vouch-agent/src/state.rs:438-450 | serves only a certificate stored under the live session |
| `AgentState.Agent.SessionInfo` | crates/vouch-agent/src/state.rs:345-351 | the live session with its own server URL |
| `AgentState.Agent.GetToken` | crates/vouch-agent/src/state.rs:546-552 | the live session's token, slot unchanged |
| `AgentState.Agent.HasSshCredentials` | crates/vouch-agent/src/state.rs:453-456 | whether a certificate is held, expired or not, slot unchanged |
| `Serving.RepliesInPlainTerms` | crates/vouch-agent/src/state.rs:345-552 | over any run the reply to every operation, from the clock and the slot's expiry |
| `Serving.CachedAnswerIs` | crates/vouch-agent/src/state.rs:520-529 | in a run never crowded a lookup answers the last credential stored for the key under this slot exactly while the clock is before its expiry and the session's |
| `Serving.NothingCachedIsMiss` | crates/vouch-agent/src/state.rs:520-529 | in any run a key not stored since the slot came or the cache was cleared is a miss |
| `Serving.CrowdedInPlainTerms` | crates/vouch-agent/src/state.rs:494-496 | an insert is crowded exactly when 128 other keys are before their expiry |
| `Serving.SshAnswerIs` | crates/vouch-agent/src/state.rs:438-450 | the last certificate accepted under this slot is served exactly while the clock is before the session's expiry and not after the certificate's |
| `Serving.NoSshIsServed` | crates/vouch-agent/src/state.rs:427-450 | with none accepted since the slot came or it was cleared, none is served |
| `Serving.SessionAnswerIs` | crates/vouch-agent/src/state.rs:345-384 | a stored session answers for its token, user, expiry and server until it expires or is replaced or cleared, and turns conditional stores away |
| `Server.AgentServer.HandleStoreSession` | crates/vouch-agent/src/server.rs:295-377 | the judged request performs its one step, or an insecure replace clears and is refused; an event is logged exactly for a store |
| `Server.AgentServer.HandleClearSession` | crates/vouch-agent/src/server.rs:380-385 | clears and logs |
| `Server.AgentServer.HandleStoreSsh` | crates/vouch-agent/src/server.rs:399-438 | load failure and both refusals answer with their codes and log nothing; acceptance logs once |
| `Server.AgentServer.HandleCacheCredential` | crates/vouch-agent/src/server.rs:454-484 | refusals answer with their codes and log nothing; acceptance logs once |
| `Server.AgentServer.HandleClearSsh` | crates/vouch-agent/src/server.rs:441-445 | one clearing step, no event |
| `Server.AgentServer.HandleClearCache` | crates/vouch-agent/src/server.rs:501-506 | one clearing step and its event |
| `Server.AgentServer.HandleGetCached` | crates/vouch-agent/src/server.rs:487-498 | the credential or a cache miss, slot unchanged |
| `Server.AgentServer.HandleGetSession` | crates/vouch-agent/src/server.rs:278-283 | the session's user, times, server and seconds left, or not-authenticated, slot unchanged |
| `Server.AgentServer.HandleGetToken` | crates/vouch-agent/src/server.rs:388-396 | the token or not-authenticated, slot unchanged |
| `Server.AgentServer.HandleHasSsh` | crates/vouch-agent/src/server.rs:448-451 | whether a certificate is held, slot unchanged |
| `Server.AgentServer.HandleRequest` | crates/vouch-agent/src/server.rs:199-262 | every request, parsed or not, is at most one step of the run and at most one audit event, and answers with its code |
| `Server.RequestIsServeThenWrite` | crates/vouch-agent/src/server.rs:228-262 | a handled request is a serving step and then the audit write it owes, in the interleaved system |
| `Server.InterleavingIsAgentRun` | crates/vouch-agent/src/server.rs:148-233 | any interleaving of clients drives the agent through a run |
| `Server.RestoreKeepsLiveSession` | crates/vouch-cli/src/session.rs:252-259 | a restore's store that meets a live session changes neither slot nor log |
| `Server.LoginSurvives` | crates/vouch-cli/src/session.rs:203-260 | in every interleaving a login's session stays until it expires, a logout, or a replacing store accepted or refused as insecure |
| `Answers.ResponsesInPlainTerms` | crates/vouch-agent/src/server.rs:199-506 | in every interleaving each request gets the response, code and fields included, that its own fields, the clock and the slot call for |
| `Answers.LoginAnswers` | crates/vouch-agent/src/server.rs:295-396 | after an accepted store, token and session requests are answered with that request's own token, user, expiry and server until its expiry, a logout or a replacing store |
| `Answers.RestoreAnswers` | crates/vouch-cli/src/session.rs:252-259 | so they are after a restore that meets no live session, with what the restore loaded and checked |
| `Answers.RestoreWasChecked` | crates/vouch-cli/src/session.rs:237-251 | a restore carries the user the server named and an expiry in whole seconds, the validity it gave counted from the check |
| `Answers.LogoutAnswersNothing` | crates/vouch-agent/src/server.rs:295-385 | after a logout, or a replacing store refused as insecure, no token, session, credential or certificate is answered until something is stored |
| `Answers.CachedCredentialAnswers` | crates/vouch-agent/src/server.rs:454-498 | while a session answers, a cached credential is answered with the request's own data and expiry exactly until that expiry, unless overwritten, cleared or crowded out |
| `Answers.ClearedCacheMisses` | crates/vouch-agent/src/server.rs:487-506 | after the cache is cleared a key is a miss until it is cached again, whatever logins and restores come between |
| `Answers.SshRequestsTakeEffect` | crates/vouch-agent/src/server.rs:399-451 | while a session answers, an accepted certificate is the one held, and after a clear none is, until the next store, load or clear |
| `SavedLogin.EntryUrl` | crates/vouch-cli/src/config.rs:546-552 | an entry holds the URL that the last edit naming its host set, or else the one it began with |
| `SavedLogin.EntryToken` | crates/vouch-cli/src/config.rs:585-596 | a token in the file is that of the login that last touched its entry, or was there from the start, with no logout since |
| `SavedLogin.OnlyUrlSavesFollow` | crates/vouch-cli/src/commands/login.rs:583-584 | from then on only saves without a token set the entry's URL |
| `SavedLogin.PairStandsIff` | crates/vouch-cli/src/config.rs:546-552 | the entry pairs that token with the URL it came with if and only if no later save on the entry left another URL |
| `Server.FileIsBuilt` | crates/vouch-cli/src/session.rs:326-329 | whatever loads and saves interleave, the file is what the edits along its own line of loads make of the file the run began with |
| `Server.RestoreOffersLoginPairIff` | crates/vouch-cli/src/session.rs:86-103 | from any configuration file and in every interleaving a restore offers one login's token or one there from the start, and with the URL it came with if and only if that URL stands |
| `Server.RestoreOffersSavedPairIff` | crates/vouch-cli/src/session.rs:86-103 | when no token comes with two URLs, the offered pair is one that belongs together if and only if the URL stands |
| `Server.AbandonedLoginMixesPair` | crates/vouch-cli/src/commands/login.rs:583-595 | a run in which a restore offers a token and URL that no login saved together |
| `Server.AuditMatchesAccepted` | crates/vouch-agent/src/server.rs:369-374 | written plus pending events match accepted acts one for one, for every event; none for a refusal |
| `Server.ServerUrlIsVouchedFor` | crates/vouch-agent/src/server.rs:306-353 | the slot's URL, if any, was installed by an event when it was secure or the opt-in was on |
| `ExpiryMonitor.Monitor.ThresholdsToFire` | crates/vouch-agent/src/expiry_monitor.rs:79-112 | fires the crossed thresholds not yet fired for this expiry and remembers them |
| `ExpiryMonitor.FiresEachThresholdOnce` | crates/vouch-agent/src/expiry_monitor.rs:38-69 | over any run all that fired for one expiry is its warnings for the least time seen, then its expiry |
| `ExpiryMonitor.FiredIsDecreasing` | crates/vouch-agent/src/expiry_monitor.rs:79-112 | that is a strictly decreasing part of 1800, 300, 0; with time left, a threshold has fired exactly when it is at or above the time left |
| `ExpiryMonitor.FiredInPlainTimes` | crates/vouch-agent/src/expiry_monitor.rs:38-112 | in nanoseconds: from the first tick on an expiry, 0 has fired exactly when under a second is left, and before that 1800 and 300 exactly when under 1801 and 301 seconds are |
| `ExpiryMonitor.NewExpiryRearms` | crates/vouch-agent/src/expiry_monitor.rs:85-88 | a tick on another expiry fires what a new monitor would |
| `Transport.TestTransport.WriteAll` | crates/vouch-agent/src/transport.rs:76-81 | the bytes join the end of what is sent unless the channel has closed, and then nothing is sent; nothing else moves |
| `Transport.TestTransport.ReadExact` | crates/vouch-agent/src/transport.rs:88-133 | succeeds exactly when enough bytes are sent, delivers the next ones in order, and always sent is delivered plus pending |
| `Transport.TestTransport.TakeBuffered` | crates/vouch-agent/src/transport.rs:92-115 | one pass of the loop hands over a non-empty prefix of what is pending |
| `Wire.BigEndianRoundTrip` | crates/vouch-agent/src/wire.rs:36-36 | the length prefix decodes to the length |
| `Wire.BigEndianInverse` | crates/vouch-agent/src/wire.rs:79-93 | any four bytes are the encoding of what they decode to |
| `Wire.BigEndianBytes` | crates/vouch-agent/src/wire.rs:36-36 | the most significant byte comes first |
| `Wire.DecodeInPlainTerms` | crates/vouch-agent/src/wire.rs:24-51 | what is read from any four bytes and the rest, from the number the four spell and the limit of 1,048,576 |
| `Wire.DecodeFrame` | crates/vouch-agent/src/wire.rs:24-51 | a frame followed by anything reads as its payload and leaves the rest |
| `Wire.DecodeCutFrame` | crates/vouch-agent/src/wire.rs:24-51 | a frame cut short reads as a clean end inside the prefix and as an error after it |
| `Wire.FramesRoundTrip` | crates/vouch-agent/src/wire.rs:24-76 | reading concatenated frames gives the list and then a clean end |
| `Wire.CutStreamYieldsPrefix` | crates/vouch-agent/src/wire.rs:24-76 | reading any prefix of the stream gives exactly the messages whose frames are whole, then an end or an error |
| `Wire.OnlySendableRoundTrips` | crates/vouch-agent/src/wire.rs:36-48 | a written message is read back if and only if it has 1 to 1,048,576 bytes; an empty one and a longer one are each refused as such |
| `Wire.WriteMessage` | crates/vouch-agent/src/wire.rs:69-76 | the peer's pending bytes grow by the frame exactly when it can be encoded and the channel takes both writes, by nothing when the payload is too large, and by a cut frame when the channel closes |
| `Wire.ReadMessage` | crates/vouch-agent/src/wire.rs:24-51 | over any chunking the outcome and the bytes left are those of decoding the byte stream |
| `Wire.ReadMessages` | crates/vouch-agent/src/server.rs:154-173 | the read loop yields exactly the messages of the byte stream |
| `Wire.ReadU32` | crates/vouch-agent/src/wire.rs:79-93 | fails exactly on underflow, else steps four bytes past the number's encoding |
| `Wire.EncodeBytes` | crates/vouch-agent/src/wire.rs:115-122 | length prefix and bytes, refused at 4 GiB |
| `Wire.FieldReadsBack` | crates/vouch-agent/src/wire.rs:100-122 | an encoded field anywhere in a buffer reads back as its length and bytes |
| `LinkChain.WriteTarget` | crates/vouch-common/src/fs.rs:120-135 | succeeds if and only if the unbounded chain ends after at most 39 links, and returns that end |
| `LinkChain.FollowNamesNextKey` | crates/vouch-common/src/fs.rs:127-132 | following a link by path strings leads where the link's directory entry says, whatever the string |
| `LinkChain.PathNames` | crates/vouch-common/src/fs.rs:127-132 | a path starts at the root or the working directory as it says and goes on one directory at a time |
| `LinkChain.CycleNeverEnds` | crates/vouch-common/src/fs.rs:120-135 | a link met twice is met for ever |
| `LinkChain.ChainEndsOrCycles` | crates/vouch-common/src/fs.rs:120-135 | a chain never ends if and only if it meets a link twice, else it ends within as many hops as there are links |
| `LinkChain.SmallFilesystemFailsOnlyOnCycles` | crates/vouch-common/src/fs.rs:120-135 | with at most 39 links the loop fails if and only if the chain is cyclic |
| `LinkChain.LongChainIsRefused` | crates/vouch-common/src/fs.rs:120-135 | every chain that ends after 40 links or more is refused |
| `LinkChain.LadderEnds` | crates/vouch-common/src/fs.rs:120-135 | for every n there is a well-formed filesystem with a chain that ends after n links |
| `LinkChain.FortyLinksAreRefused` | crates/vouch-common/src/fs.rs:110-111 | the filesystem of 40 links, each to the next, is refused |
| `AtomicWrite.EnsureDirs` | crates/vouch-common/src/fs.rs:44-46 | only directories are added at every step, and success leaves all of them |
| `AtomicWrite.MadeDirsCanBeWalked` | crates/vouch-common/src/fs.rs:44-46 | once made, the directories can be walked to their end, and every entry added is a directory |
| `AtomicWrite.CopyOwnerAndMode` | crates/vouch-common/src/fs.rs:56-84 | by default the temporary file takes the old mode, its owner is the old one or the writer, and the old one if no call fails; until the mode is copied it is the owner's alone in every state |
| `AtomicWrite.FillAndSync` | crates/vouch-common/src/fs.rs:89-98 | in pieces of any size the whole content is written and synced, mode and owner kept |
| `AtomicWrite.AtomicWriteImpl` | crates/vouch-common/src/fs.rs:38-108 | every state passed through leaves all old entries and files alone until the last, which swaps in the complete synced file; the new file is the owner's alone in every state until it takes the old mode, and always when secure; it succeeds exactly when no call fails, the chain ends and the target can be replaced |
| `AtomicWrite.AtomicWrite` | crates/vouch-common/src/fs.rs:137-155 | success shows the new content with its mode and owner, octal 600 when secure; failure leaves every old entry and every old file's bytes, and every crash shows one of the two; if no call fails the owner is kept and success is exactly a target that can be replaced |
| `AtomicWrite.FinalModeInOctal` | crates/vouch-common/src/fs.rs:48-53 | a written file's mode is octal 600 when secure or new, else that of the file replaced |
| `AtomicWrite.NewFileIsPrivate` | crates/vouch-common/src/fs.rs:48-84 | in every state the new file gives group and others nothing: always when secure, else until the old mode is copied |
| `AtomicWrite.CrashShowsOldOrNew` | crates/vouch-common/src/fs.rs:94-105 | after a crash at any point the target reads as its complete old state or the complete new content |
| `AtomicWrite.CrashKeepsOtherNames` | crates/vouch-common/src/fs.rs:32-34 | every other name, hard links included, keeps its file and its bytes |
| `AtomicWrite.CrashKeepsChain` | crates/vouch-common/src/fs.rs:36-39 | through a crash the path's links are kept and lead to the same target, when the entry replaced is not a link |
| `AtomicWrite.LinksKeptIff` | crates/vouch-common/src/fs.rs:116-119 | a write keeps every link if and only if its target does not land on a link |
| `AtomicWrite.WriteSucceeds` | crates/vouch-common/src/fs.rs:38-108 | wherever a target can be replaced, some run of the calls is a successful write of any content |
| `AtomicWrite.LinkThroughMissingDirectoryIsLost` | crates/vouch-common/src/fs.rs:39-46 | a write of any content through a link that leads through a missing directory back to itself, after which a file stands in the link's place |
| `Migration.RenamesNeverLoseOrDuplicate` | crates/vouch-common/src/paths.rs:294-335 | for any number of interleaved processes an existing destination keeps its bytes, other bytes are at exactly one of source and destination, and one process reports each move |
| `Migration.UnfailingRenamesArrive` | crates/vouch-common/src/paths.rs:294-335 | if no call fails, a rename that any one process has passed has happened, and exactly one process reports it |
| `Migration.EveryStepAdvances` | crates/vouch-common/src/paths.rs:294-335 | a process with jobs left comes further at every call that makes progress |
| `Migration.SourceRemovedOnlyAfterWholeCopy` | crates/vouch-common/src/paths.rs:304-310 | across devices one process removes a source only when the destination holds every byte |
| `Migration.OverlappingCopiesLoseBytes` | crates/vouch-common/src/paths.rs:304-310 | in any list with a non-empty file to copy across devices two processes can both finish with it and leave its bytes at neither place |
| `Migration.UnfailingCopiesArrive` | crates/vouch-common/src/paths.rs:304-310 | if no call fails, any number of processes that have all passed a job copied across devices leave the destination whole and the source gone, and exactly one reports the move |
| `Migration.OneProcessRemoves` | crates/vouch-common/src/paths.rs:304-310 | while a source copied across devices is there no process has reported its move, and once it is gone exactly one has |
| `Migration.EmptyFileIsKept` | crates/vouch-common/src/paths.rs:304-310 | an empty file is at its source or its destination in every interleaving |
| `Migration.OtherFilesStay` | crates/vouch-common/src/paths.rs:319-323 | a job without a source, or with a destination, is left as it was in every interleaving |
| `Migration.SafeForAllProcessesIffRename` | crates/vouch-common/src/paths.rs:347-350 | every interleaving of any number of processes keeps every file of the list at source or destination if and only if each move is a rename or of an empty file |
| `Migration.MoveFile` | crates/vouch-common/src/paths.rs:294-311 | success moves the whole content, any failure leaves the source, other files untouched; if no call fails it succeeds exactly when there is a source |
| `Migration.MigrateLayout` | crates/vouch-common/src/paths.rs:316-335 | existing destinations kept, nothing lost, and the result says whether some file arrived; if no call fails every file to move arrives |
| `Sections.IsSuccessor` | scripts/audit-normative.py:188-212 | the loop accepts exactly a first child or a later sibling of the section or an ancestor, skipping at most two |
| `Sections.SiblingSkipsAtMostTwo` | scripts/audit-normative.py:188-212 | a later sibling's number is one, two or three more, and a first child's is 1 |
| `Sections.FollowerComesLater` | scripts/audit-normative.py:188-212 | an accepted number comes later in section order |
| `Sections.ChainedNumbersIncrease` | scripts/audit-normative.py:315-321 | accepted numbers start at 1 and strictly increase |
| `Sections.ChainedNumbersNeverRepeat` | scripts/audit-normative.py:315-321 | no number is accepted twice |
| `Sections.ChainedNumbersHaveParents` | scripts/audit-normative.py:188-212 | every ancestor of an accepted number was accepted before it |
| `Sections.SectionsAreInOrder` | scripts/audit-normative.py:294-325 | all of that for the sections of any document without a table of contents |
| `Sections.TranscriptAccountsForEveryLine` | scripts/audit-normative.py:300-324 | in either mode every unskipped line lands once, in order, as heading or body |
| `Sections.LineOpensIff` | scripts/audit-normative.py:300-324 | a line opens a section exactly when its heading is listed, or without a table of contents follows the current section and has no keyword; then its number is the current one |
| `Sections.KeptLines` | scripts/audit-normative.py:300-302 | the lines read are just those past the table's end that do not look like it, in order |
| `Sections.ParseSections` | scripts/audit-normative.py:294-325 | the sections laid end to end are that reading of the unskipped lines |
| `Challenge.FindFrom` | crates/vouch-cli/src/http.rs:407-410 | the first match at or after a position |
| `Challenge.ExtractParam` | crates/vouch-cli/src/http.rs:403-426 | the search terminates with the quoted text after the first whole name, or nothing |
| `Challenge.HitInName` | crates/vouch-cli/src/http.rs:411-420 | a name that merely ends with the one sought is never a hit |
| `Challenge.FirstHitStandsFirst` | crates/vouch-cli/src/http.rs:403-420 | on every printed challenge the search stops at the first parameter of that name or an earlier value that spoils it, or nowhere |
| `Challenge.SearchReturns` | crates/vouch-cli/src/http.rs:403-426 | what the search returns on every printed challenge: the named value, or after a spoiling value the text before the next quote |
| `Challenge.SearchReturnsLookupIff` | crates/vouch-cli/src/http.rs:403-426 | that is the challenge's own parameter, or its absence, if and only if no value harms the search |
| `Challenge.SearchInventsParameter` | crates/vouch-cli/src/http.rs:403-426 | a header without the parameter for which one is returned |
| `Challenge.SearchMissesParameter` | crates/vouch-cli/src/http.rs:403-426 | a header with the parameter for which other text is returned |
| `Challenge.NoEqualsHarmless` | crates/vouch-cli/src/http.rs:401-402 | values without an equals sign never harm a search |
| `Challenge.SpoilsIff` | crates/vouch-cli/src/http.rs:411-415 | a value spoils a search exactly when it ends in a delimiter, the name and an equals sign |
| `Challenge.ParseWwwAuthenticate` | crates/vouch-cli/src/http.rs:384-435 | a challenge exactly for a header that begins `Bearer ` or `DPoP ` and contains `insufficient_user_authentication`; on every printed header acr_values and max_age are what the search returns, right exactly when no value harms it |
| `Challenge.AgeReadsBack` | crates/vouch-cli/src/http.rs:428-429 | a printed number, with or without a plus, is read as itself exactly when it fits in 64 bits |
| `Challenge.OnlyDigitsAreRead` | crates/vouch-cli/src/http.rs:428-429 | anything but digits after an optional plus is no number |
| `Challenge.DigitsReadBack` | crates/vouch-cli/src/http.rs:428-429 | the printed digits of a number are read as that number |
| `Config.LoadOfSave` | crates/vouch-cli/src/config.rs:817-949 | loading a saved configuration gives it back with an empty AWS or Docker section absent |
| `Config.LoadedEntry` | crates/vouch-cli/src/config.rs:817-824 | each entry of a file is loaded field by field; a missing URL is empty |
| `Config.SavedEntry` | crates/vouch-cli/src/config.rs:902-949 | each entry is saved field by field, and no flat field is |
| `Config.SavedSections` | crates/vouch-cli/src/config.rs:902-949 | an empty AWS or Docker section and the legacy sessions are not saved, everything else is |
| `Config.LegacyEntry` | crates/vouch-cli/src/config.rs:828-844 | a file of the first format becomes one entry under its URL's host, each flat field in its place |
| `Config.LegacyIgnored` | crates/vouch-cli/src/config.rs:828-831 | flat fields beside entries, or without a usable URL, are not loaded |
| `Config.LoadedSections` | crates/vouch-cli/src/config.rs:846-880 | organizations win over legacy sessions, and the other sections pass through |
| `Config.SaveIsStable` | crates/vouch-cli/src/config.rs:902-949 | saving again writes the same file |
| `Config.MigrationHappensOnce` | crates/vouch-cli/src/config.rs:817-882 | after one load and save of any file, legacy or not, nothing changes further |
| `Config.LoadConfig` | crates/vouch-cli/src/config.rs:817-896 | the conversion loop computes the load function |
| `Config.MigrateSessions` | crates/vouch-cli/src/config.rs:853-866 | the loop with its seen-set yields the migrated roles |
| `Config.MigratedRoles` | crates/vouch-cli/src/config.rs:846-866 | those are exactly the distinct non-empty legacy roles, in order of first appearance |
| `Config.AppendUpdatesOneRole` | crates/vouch-cli/src/config.rs:653-674 | appending changes what is stored for one role, by the merge rule, and nothing else |
| `Config.AppendStores` | crates/vouch-cli/src/config.rs:653-674 | what is stored afterwards, field by field: the incoming application and region, and its tenant or else the stored one of the same application |
| `Config.AppendKeepsRoles` | crates/vouch-cli/src/config.rs:653-674 | roles keep their places; a new one goes last |
| `Config.SetTenantKeepsRoles` | crates/vouch-cli/src/config.rs:680-697 | recording a tenant changes only an organization of that application |
| `Config.RolesStayDistinct` | crates/vouch-cli/src/config.rs:653-697 | any sequence of appends and recordings keeps roles distinct |
| `Config.TenantSurvives` | crates/vouch-cli/src/config.rs:660-669 | a tenant survives any sequence of re-stores of its application without one |
| `Config.Store.AppendAwsOrg` | crates/vouch-cli/src/config.rs:653-674 | the in-place update is the append function |
| `Config.Store.SetAccountAccessTenant` | crates/vouch-cli/src/config.rs:680-697 | sets the first match and reports whether there was one |
| `Config.Store.SetServerUrl` | crates/vouch-cli/src/config.rs:546-552 | the host's entry takes the URL and keeps the rest; a URL without a host changes nothing |
| `Config.UrlAlone` | crates/vouch-cli/src/config.rs:546-552 | setting a URL changes that entry's URL and which entry is current, and nothing else |
| `Config.TokenAlone` | crates/vouch-cli/src/config.rs:585-596 | setting or clearing a token changes the current entry's token and nothing else |
| `Config.Store.SetToken` | crates/vouch-cli/src/config.rs:585-589 | only the current entry's token changes |
| `Config.Store.ClearToken` | crates/vouch-cli/src/config.rs:592-596 | only the current entry's token is dropped |
| `Config.Store.ForgetLogin` | crates/vouch-cli/src/commands/logout.rs:18-39 | the server's entry loses its token, and the result says whether there was one |
| `Config.Store.StoreLogin` | crates/vouch-cli/src/session.rs:325-329 | the current server ends with the login's URL and token, other servers unchanged |
| `ServerUrl.AcceptsIffLabelSuffix` | crates/vouch-cli/src/server_url.rs:111-130 | accepted if and only if the ID is not empty and its labels end the host's, ignoring ASCII case (section 5.1.3 of WebAuthn Level 2) |
| `ServerUrl.LowerIgnoresCase` | crates/vouch-cli/src/server_url.rs:121-122 | two names are alike exactly when each letter is the same but for ASCII case |
| `ServerUrl.AcceptanceIsTransitive` | crates/vouch-cli/src/server_url.rs:111-130 | an ID accepted by an accepted ID is accepted |
| `ServerUrl.ContainsIffSegmentPrefix` | crates/vouch-cli/src/server_url.rs:135-151 | contained if and only if scheme, host and effective port agree and the base's segments begin the path's |
| `ServerUrl.UsualPortMayBeLeftOut` | crates/vouch-cli/src/server_url.rs:135-143 | leaving out a port is the same as writing the scheme's usual one, and no other |
| `ServerUrl.WrittenPortsMustAgree` | crates/vouch-cli/src/server_url.rs:135-143 | URLs that write different ports are never on one server |
| `ServerUrl.ContainsIsTransitive` | crates/vouch-cli/src/server_url.rs:135-151 | containment passes through a contained URL, trailing slashes and all |
| `ServerUrl.NamesIffTrailingSlashes` | crates/vouch-cli/src/server_url.rs:96-98 | a stored URL names the server if and only if it is its URL and some slashes |
| `ShellQuote.QuotedReadsBack` | crates/vouch-cli/src/utils.rs:36-46 | a shell reads the quoted form before a blank or the end as one argument, the original, and an empty value as an empty argument rather than none |
| `ShellQuote.CommandLineReadsBack` | crates/vouch-cli/src/utils.rs:36-46 | a line of quoted values is read as just that list of arguments |
| `ShellQuote.QuotingIsInjective` | crates/vouch-cli/src/utils.rs:44-46 | different values have different quoted forms |

## Left out

- Transport.TestTransport.ReadExact: a read on an open but empty channel waits; here a channel's queue is everything that will arrive before it closes.
- AtomicWrite.AtomicWriteImpl: a temporary name equal to the target's own is refused rather than chosen again, and a rename over a directory fails.
- AtomicWrite.EnsureDirs: a link to a missing directory is not followed again once that directory is made, so a path that first makes the directory and then passes through the link fails here and succeeds in the source.
- Wire.ReadMessages: the idle timeout and the shutdown branch are not modelled; either ends the loop between messages or in place of one.
- Server.FileIsBuilt: the lock that orders some of the saves is ignored, so more interleavings are covered than can happen.
- Migration.RenamesNeverLoseOrDuplicate: permission bits and the private-directory preparation are not modelled beyond that it may fail.
- Server.AuditMatchesAccepted: the log is what the agent means to write; a failing write is only reported at debug level by the source.
- AgentState.Agent.CacheCredential: one step reads the clock once, where the source reads it again for each entry it looks at.
- The accept loop, connection limit, drain timeout and shutdown grace read: operating-system scheduling, and a cancelled read may drop part of a frame.
- Sockets, peer checks, daemonizing, signals and desktop notifications: operating-system effects.
- Reading the session and then the token from the agent as two calls (`try_agent_session`): not atomic, so nothing is claimed of the pair.
- JSON, base64, URL and timestamp parsing, cryptography, HTTP and DNS: library code.
- `resolve_base`, `migrate_cache_files` and the directory accessors: path joins and one more list of files to move.
- `read_toc` and the regular expressions of the section splitter: a line comes with their verdicts.
- The AAGUID and AWS endpoint tables, exit codes, translation, styling and command dispatch: finite tables and user interface.
