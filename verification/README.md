# Modoboa: a verified model of its algorithmic core

Modoboa administers mail: domains, mailboxes, aliases, limits, and a webmail. Most of it is
plumbing around a database. This project models the parts where an algorithm or a protocol has
to be right, and proves what those parts promise, for every input and every run.
`dafny verify dfyconfig.toml` checks all of it.

- **Mailbox names** (`Base64Units`, `Utf7`, `ImapUtf7`, `ImapUtf7Sections`, `ImapUtf7RoundTrip`).
  The IMAP modified UTF-7 codec of section 5.1.3 of RFC 3501: the encoder with its pending run,
  the decoder as a state machine over bytes, and under both the 16-bit to 6-bit repacking of
  Python's utf-7 codec.
- **Daily sending limits** (`Policyd`, `PolicydRuns`, `PolicydExact`, `PolicydCounters`,
  `PolicydRemovals`). Requests are coroutines that share a Redis hash. Each `await` is one atomic step of a transition system
  with any number of coroutines, cancellation at any step, limit edits and resets.
- **Ownership and resource pools** (`Ownership`, `OwnershipRuns`, `Pools`, `PoolRuns`,
  `PoolTotals`, `PoolExamples`). The access table, the deletion of a user, and the limits that are measured by counting owned objects.
- **Alias tables** (`AliasTables`, `AliasDeletion`, `AliasRuns`). Mailboxes, aliases and recipients,
  kept together by signal handlers with database cascades.
- **Printers and parsers** (`Quoting`, `Percent`, `Rfc6266`, `Rfc6266Space`,
  `Rfc6266Examples`, `Strings`, `Dkim`,
  `DkimTags`, `RspamdMaps`). Sieve and Content-Disposition quoting, DKIM records cut into DNS
  strings, the rspamd map files.
- **Reconciliation, aggregation, pages** (`Contacts`, `Dmarc`, `Paginator`).

Code that works step by step is a class or a method with loops, proved equal to a function; the
lemmas are about that function. Exceptions are `None`, `false` or a result datatype. A Python
`str` is a sequence of code points in the codec and a Dafny `string` (scalar values) elsewhere.

## What the proofs found

- A mailbox name with a TAB, LF or CR at the edge of a section does not come back
  (`ImapUtf7RoundTrip.RoundTrip`, exact condition); the docstring of the codec promises it for
  all characters.
- A counter may be overshot by as many messages as there are concurrent requests, less one; the
  bound is attained (`PolicydExact.OvershootAttained`), and a limit can be exceeded exactly when it
  is not zero and two requests may run at a time (`PolicydExact.OvershootPossible`).
- Removing a limit can leave a counter on the unlimited key exactly when a decrement of it is
  pending (`PolicydRemovals.PendingDecides`, with a run in `PolicydRemovals.PendingRemovalFails`).
- A save from a stale instance shifts the live counter by the difference, and a removal from one
  that was loaded without a limit leaves the counter (`PolicydCounters.StaleSave`, exact
  conditions; `PolicydCounters.SecondSaveOfNewInstance`,
  `PolicydCounters.StaleRemovalLeavesCounter`).
- An unlimited reseller stays unlimited through an allocation exactly when a finite child keeps its
  value; it becomes limited when a child is shrunk, made unlimited, or saved again as unlimited,
  and is refused every other change (`Pools.UnlimitedOwner`, `Pools.UnlimitedOwnerExamples`). It
  also becomes limited when an account with a nonempty pool is deleted
  (`Pools.UnlimitedResellerIsCapped`).
- An account is overdrawn when its pool is set below what it owns (`PoolRuns.ResizeOverdraws`,
  example `PoolExamples.PoolBelowUsage`), or when it inherits objects it has no room for
  (`PoolRuns.DeletionOverdraws`, example `PoolExamples.InheritanceWithoutRoom`). With finite pools, in
  runs without these two nobody is (`PoolRuns.NobodyIsOverdrawn`); the reseller that owns the
  deleted account always has room (`PoolRuns.ResellerTakesOver`).
- With aliases as recipients of aliases, deleting a mailbox or a domain alias can leave an empty
  alias: the exact conditions are `AliasDeletion.EmptyAliasExactly` and
  `AliasRuns.ValidDeleteDomainAlias`, reachable examples `AliasRuns.AliasRecipientLeavesEmptyAlias`
  and `AliasRuns.DomainAliasLeavesEmptyAlias`. All other promises survive
  (`AliasRuns.PromisesOfEveryRun`), and without such recipients this one does too
  (`AliasRuns.WithoutAliasRecipients`).
- An ASCII filename with a control character that is not white space is sent between quotes,
  where RFC 2616 does not allow it, and an empty filename as an empty token
  (`Rfc6266.GrammarIsKept`).
- A TXT record whose first string is one space is put together with a stray quote
  (`Dkim.ReassemblyIsExact`); such a record is never one of the types that are looked for
  (`Dkim.ChunksDoNotMatter`).
- A selector or key path with a line break makes every run rewrite its map file
  (`RspamdMaps.SecondRun`, `RspamdMaps.LineBreakRewrites`). The domain API refuses such a selector
  (modoboa/admin/api/v1/serializers.py:114-123); the serializer of relay domains takes the field
  without that check (modoboa/relaydomains/api/v1/serializers.py:34-49).

## Model

| member | source | states |
|---|---|---|
| `Base64Units.UnpackPack` | modoboa/lib/imap_utf7.py:61-63 | Cutting any list of 16-bit units into 6-bit digits and reading the digits gives the units back: the base64 run of UTF-7 loses nothing. |
| `Base64Units.PackIsBigEndian` | modoboa/lib/imap_utf7.py:36-40 | The digits of a run, read as one number in base 64, are the 16-bit units read as one number in base 65536 followed by zero padding bits: an independent definition of the packing. |
| `Base64Units.PackLength` | modoboa/lib/imap_utf7.py:36-40 | A run of n units takes exactly the digits that 16n bits need (and the corresponding count after held-back bits). |
| `Base64Units.Misaligned` | modoboa/lib/imap_utf7.py:91-93 | One stray digit in front of a run makes the strict decoder fail, for every run and every digit. |
| `Utf7.AlphabetIs` | modoboa/lib/imap_utf7.py:36-40 | Every base64 digit is written as the character at its place in the literal 64-character alphabet, and read back from it. |
| `Utf7.OnlyTheAlphabet` | modoboa/lib/imap_utf7.py:36-40 | An octet is read as base64 if and only if it is one of those 64 characters. |
| `Utf7.SurrogatesAre` | modoboa/lib/imap_utf7.py:36-40 | Below U+10000 a character is its own unit; from there on it is a high and a low surrogate, and its distance from U+10000 is the high one's ten bits followed by the low one's. |
| `Utf7.DecodeEncode` | modoboa/lib/imap_utf7.py:62 | Python's utf-7 codec is lossless: for every text of scalar values, decoding its encoded form gives the text, whatever mixes of direct characters, "+", and base64 runs it holds. |
| `Utf7.DecodeEncodedRun` | modoboa/lib/imap_utf7.py:93 | A base64 run, with or without its closing "-", decodes to its characters and leaves the rest to be decoded on its own. |
| `ImapUtf7.Lists.DoB64` | modoboa/lib/imap_utf7.py:66-69 | Writes the pending run as one section when there is one, and empties it. |
| `ImapUtf7.Lists.Take` | modoboa/lib/imap_utf7.py:75-83 | One round of the encoder's loop keeps "output so far, plus the encoding of pending run and unread text" unchanged, in each of the three branches. |
| `ImapUtf7.Encoder` | modoboa/lib/imap_utf7.py:72-85 | The loop with its pending buffer returns exactly the encoding by maximal runs (one section for each maximal run of characters outside printing US-ASCII, "&-" for "&"), and the length of the input. |
| `ImapUtf7.Reader.Take` | modoboa/lib/imap_utf7.py:99-111 | One round of the decoder's loop keeps "text so far, plus the decoding of open section and unread bytes" unchanged, or fails exactly when that decoding fails. |
| `ImapUtf7.Decoder` | modoboa/lib/imap_utf7.py:96-115 | The byte-at-a-time state machine computes the decoding by sections for every byte string, open last section included; None is UnicodeDecodeError. |
| `ImapUtf7Sections.SnipEncode` | modoboa/lib/imap_utf7.py:63 | What `[1:-1]` takes away: dropping the last octet of the UTF-7 form of a run of shifted characters and closing with "-" is the UTF-7 form of a text that differs at most in its last character. |
| `ImapUtf7Sections.SurvivorOfBase64` | modoboa/lib/imap_utf7.py:61-63 | A section that does not start with TAB, LF or CR decodes to its run, up to a TAB, LF or CR that ends it. |
| `ImapUtf7Sections.SurvivorOfSpace` | modoboa/lib/imap_utf7.py:61-63 | A section that starts with TAB, LF or CR decodes to "&" or is refused, never to itself. |
| `ImapUtf7RoundTrip.DecodeEncodeThen` | modoboa/lib/imap_utf7.py:43-45 | Every encoded name ends in the ASCII state: decoding it followed by anything is its own decoding followed by that of the rest. |
| `ImapUtf7RoundTrip.DecodeEncode` | modoboa/lib/imap_utf7.py:61-115 | The exact result of decoding the encoded form of any name of scalar values. |
| `ImapUtf7RoundTrip.RoundTrip` | modoboa/lib/imap_utf7.py:61-115 | A name comes back exactly when no section of it starts or ends with TAB, LF or CR (if and only if). |
| `ImapUtf7RoundTrip.RoundTripWithoutControls` | modoboa/lib/imap_utf7.py:36-45 | Every name of scalar values without TAB, LF and CR comes back: astral characters, other controls, "&", ",", "/" and "-" included. |
| `ImapUtf7RoundTrip.TabIsLost` | modoboa/lib/imap_utf7.py:61-63 | A counterexample to the documented promise: the names of one TAB, one LF and one CR are all encoded like "&", and come back as "&". |
| `ImapUtf7RoundTrip.ConcatenatedNames` | modoboa/lib/imap_utf7.py:43-45 | Decoding enc(a) + enc(b) gives a + b. |
| `ImapUtf7RoundTrip.EncodeInjective` | modoboa/lib/imap_utf7.py:27-29 | Two names that survive never share an encoded form. |
| `ImapUtf7RoundTrip.EncodePrinting` | modoboa/lib/imap_utf7.py:31-40 | Without TAB, LF and CR the encoded name uses octets 0x20-0x7e only. |
| `ImapUtf7RoundTrip.EncodeSize` | modoboa/lib/imap_utf7.py:72-85 | The encoded name is at most 5 times as long as the UTF-16 form, for every name. |
| `ImapUtf7RoundTrip.Rfc3501Example` | modoboa/lib/imap_utf7.py:47-48 | The section "&U,BTFw-" of the documented example. |
| `ImapUtf7RoundTrip.PrintingStandsForItself` | modoboa/lib/imap_utf7.py:31-34 | A printing US-ASCII character stands for itself wherever it is in a name, and "&" is written "&-": what is before and after it is encoded on its own. |
| `ImapUtf7RoundTrip.AccentExample` | modoboa/lib/imap_utf7.py:36-40 | "í" (U+00ED) is written "&AO0-", and "&AO0-" is read as "í". |
| `ImapUtf7RoundTrip.PlainOctet` | modoboa/lib/imap_utf7.py:108-109 | Outside a section every octet but "&" is read as itself, for every byte string. |
| `ImapUtf7RoundTrip.OpenSection` | modoboa/lib/imap_utf7.py:110-111 | A last section without its "-" is read as if it had one, for every byte string; "&" alone is read as "+". |
| `Policyd.SplitMailbox` | modoboa/lib/email_utils.py:283-291 | Without "@" the whole address and no domain; otherwise local part, "@", and a domain without "@". |
| `PolicydRuns.DistinctKeys` | modoboa/lib/email_utils.py:283-291 | The domain key never equals the account key, so a request touches two different counters. |
| `PolicydRuns.RequestAccounting` | modoboa/policyd/core.py:153-180 | In every run, whatever is edited, reset or cancelled meanwhile: a refused or failing request has decremented nothing, an accepted one each key it found present, a cancelled one a prefix of them, and no key twice. |
| `PolicydRuns.MarginRun` | modoboa/policyd/core.py:162-177 | The concurrency invariant: counter minus promised decrements never falls below 1 - m while at most m requests run. |
| `PolicydRuns.TookRun` | modoboa/policyd/core.py:145-147 | Conservation: while the key itself is neither edited nor reset, whatever happens to others, its counter plus the decrements made on it stays constant. |
| `PolicydRuns.OvershootBound` | modoboa/policyd/core.py:153-180 | In every interleaving of at most m concurrent requests with cancellation at any await, other limits being edited and reset meanwhile, a counter that starts at c >= 0 never drops below 1 - m, and at most c + m - 1 messages are accepted, none when c is 0. |
| `PolicydRuns.SerialLimit` | modoboa/policyd/core.py:153-180 | One request at a time enforces the limit exactly. |
| `PolicydExact.OvershootAttained` | modoboa/policyd/core.py:162-177 | The bound is exact: for every limit >= 1 and every m >= 1 some run reaches 1 - m and accepts limit + m - 1 messages. |
| `PolicydExact.OvershootPossible` | modoboa/policyd/core.py:162-177 | A limit can be exceeded if and only if it is not zero and two requests may run at a time. |
| `PolicydRuns.QuietRun` | modoboa/policyd/core.py:162-177 | A key with no pending decrement and no positive counter keeps both in every run that spares it: only a check of a positive counter can start a debt. |
| `PolicydCounters.CounterAccounting` | modoboa/policyd/handlers.py:12-27 | In every run of requests, cancellations, resets, and limit creations, changes and removals from freshly loaded instances, each counter equals its limit minus the decrements since its last reset or removal, and exists exactly when the key is limited or something was spent on it. |
| `PolicydRemovals.CountersFollowLimits` | modoboa/policyd/handlers.py:12-27 | From an empty database, in every run of fresh saves whose removals happen with no decrement pending on the key: a counter exists if and only if the key is limited, and equals the limit minus the decrements since. |
| `PolicydRemovals.UnlimitedHasNoCounter` | modoboa/policyd/handlers.py:18-22 | The invariant behind it, from any state: in such runs an unlimited key has neither a counter nor a pending decrement. |
| `PolicydRemovals.PendingDecides` | modoboa/policyd/handlers.py:18-22 | After a limit is removed some continuation leaves a counter on the unlimited key if and only if some request owed a decrement of it at the removal. |
| `PolicydRemovals.PendingRemovalFails` | modoboa/policyd/core.py:168-177 | Such a run: an account passes its check, its limit is removed, and its decrement leaves a counter of -1. |
| `PolicydCounters.StaleSave` | modoboa/policyd/handlers.py:14-27 | A save from a stale instance, of a new limit or of none, keeps the counter right if and only if: for a new limit the stale limit equals the stored one (NULL as zero), with a counter there when nothing changes; for a removal the stale instance had a limit, or nothing is stored, or a zero limit is overdrawn. |
| `PolicydCounters.StaleRemovalLeavesCounter` | modoboa/policyd/handlers.py:14-16 | A removal from an instance loaded before the limit of 100 was set leaves a counter of 100 on an unlimited key. |
| `PolicydCounters.SecondSaveOfNewInstance` | modoboa/policyd/handlers.py:14-27 | An instance that was just created, saved twice with a limit of 5, leaves a counter of 10. |
| `PolicydCounters.SpentIsTaken` | modoboa/policyd/core.py:145-147 | While the key itself is neither edited nor reset, what is recorded as spent on it is exactly what the requests took from it. |
| `PolicydCounters.CheckLimit` | modoboa/policyd/core.py:162-167 | The check on one key: refuses on a counter at or below zero, decrements later only a counter that is present. |
| `PolicydCounters.ApplyPolicies` | modoboa/policyd/core.py:153-180 | The code of a request on the shared hash, uninterrupted: refused without effect when either counter is spent, otherwise one off each counter that exists. |
| `PolicydCounters.SetMessageLimit` | modoboa/policyd/handlers.py:12-27 | The handler changes the hash exactly as the transition system's save does. |
| `PolicydCounters.ResetCounters` | modoboa/policyd/core.py:263-270 | Every listed key holds the limit of its last row, and every other key keeps its presence and its value. |
| `PolicydCounters.ResetIsRun` | modoboa/policyd/core.py:263-270 | For rows that list limits of a state, the loop leaves the hash that the reset events of the transition system leave. |
| `PolicydCounters.NightlyReset` | modoboa/policyd/core.py:263-270 | After a reset of all limits every limited key has its whole limit and no other counter changed. |
| `PolicydCounters.ServedExactly` | modoboa/policyd/core.py:153-180 | A request is accepted if and only if both counters that exist are positive; it fails without a domain; accepted, it takes one from each of the two counters that exist and from no other, else nothing. |
| `PolicydCounters.SoloIsServed` | modoboa/policyd/core.py:153-180 | The coroutine of the transition system, run alone, gives the result and the hash of the code: the two models of a request agree. |
| `Ownership.AccessTable.Grant` | modoboa/lib/permissions.py:59-86 | Sets or creates the row; a new owner also brings a non-owner row for every other superuser. |
| `Ownership.AccessTable.Ungrant` | modoboa/lib/permissions.py:103-126 | Removes one row and, when no owner is left, makes the first superuser the owner; fails when two owners or no superuser are found. |
| `Ownership.AccessTable.MoveObjects` | modoboa/core/handlers.py:106-110 | The loop over the owned entries: grant to the heir, then ungrant, one object after the other; fails exactly when one of the steps does. |
| `Ownership.GrantedRow` | modoboa/lib/permissions.py:75-86 | A grant changes ownership for one user and one object only, and adds rows on that object only. |
| `Ownership.GrantedOwners` | modoboa/lib/permissions.py:75-86 | The owners of the object become old owners plus or minus the grantee; no other object changes owner. |
| `Ownership.UngrantedOwners` | modoboa/lib/permissions.py:116-126 | The owner after an ungrant: unchanged, or the first superuser when the owner was removed. |
| `Ownership.UngrantedRow` | modoboa/lib/permissions.py:116-126 | Every row after an ungrant: the one row is gone and all others are kept while somebody else owns the object; otherwise the first superuser owns it, and if its row is new every other superuser has one. |
| `Ownership.MovedOwners` | modoboa/core/handlers.py:106-110 | After the loop each listed object belongs to the heir alone and every other object to its old owners. |
| `Ownership.MovedRow` | modoboa/core/handlers.py:106-110 | Every row after the loop: on objects that do not move all rows are kept; on one that does the user's row is gone, the others are kept, the only new ones are those of the heir and, when that is new, of the superusers, and the heir alone owns it. |
| `OwnershipRuns.UpdatePermissions` | modoboa/core/handlers.py:88-112 | The handler's outcome and table, deletion of the row included, are those of the transition. |
| `OwnershipRuns.DeletionTransfers` | modoboa/core/handlers.py:102-112 | Deleting a user succeeds once an heir is known; the heir becomes the single owner of each object the user owned, and every other object keeps its owner. |
| `OwnershipRuns.DeletionCleans` | modoboa/core/handlers.py:111-112 | No access row of the deleted user and none on its account remains. |
| `OwnershipRuns.DeletionRows` | modoboa/core/handlers.py:105-112 | Every row after the deletion of a user: its own rows and those on its account are gone, rows on the objects it owned are handed over, and every other row is kept with its value. |
| `OwnershipRuns.DeletionLeaves` | modoboa/core/handlers.py:88-112 | The account goes from the users and the objects; the superusers keep their order. |
| `OwnershipRuns.HeirExactly` | modoboa/core/handlers.py:91-105 | The deletion is refused if and only if the requester is the account itself, or no superuser without a row on the account, or there is none and the account owns itself; otherwise the owner inherits, or the requester when the account owns itself. |
| `OwnershipRuns.RemovedRows` | modoboa/lib/permissions.py:127-128 | Removing an object takes every row on it and no other row. |
| `OwnershipRuns.NonOwnerGrant` | modoboa/lib/permissions.py:79-80 | A non-owner grant keeps the single owner if and only if the grantee is not the owner. |
| `OwnershipRuns.OwnerGrant` | modoboa/lib/permissions.py:65-73 | An owner grant on an object in use keeps the single owner if and only if the grantee owns it already. |
| `OwnershipRuns.ValidStep` | modoboa/lib/permissions.py:59-86 | Each event keeps the invariant: one owner per object, an existing account; rows only on live users and objects. |
| `OwnershipRuns.OneOwnerAlways` | modoboa/lib/permissions.py:141-154 | In every state of every run of creations, non-owner grants, ungrants, removals and user deletions each object has exactly one owner. |
| `OwnershipRuns.InstalledIsValid` | modoboa/core/models.py:467-475 | The invariant holds in the freshly installed database. |
| `Pools.AllocateResourcesFromUser` | modoboa/limits/lib.py:36-56 | The new maxima of both pools, or the error and no change, with the caller's store of the child's value. |
| `Pools.AllocateConserves` | modoboa/limits/lib.py:48-56 | An allocation keeps the sum of the two maxima if and only if the child's pool was finite. |
| `Pools.AllocateCovers` | modoboa/limits/lib.py:52-56 | An allocation that changes the child's value leaves the owner's usage within its own maximum. |
| `Pools.LimitedOwner` | modoboa/limits/lib.py:44-56 | When a limited owner is served: never for an unlimited value; for any other exactly when the child has it already or the owner, the child's finite pool counted as returned, can give it and still cover what it owns; and what the owner has left. |
| `Pools.LimitedOwnerExamples` | modoboa/limits/lib.py:44-56 | With 10 free, 10 are given and 11 are refused; a child keeps what it has even when the owner is over its pool. |
| `Pools.UnlimitedOwner` | modoboa/limits/lib.py:44-56 | For every child value and request, unlimited ones included: when an unlimited owner is served at all, and that it stays unlimited if and only if a finite child keeps its value; the finite maximum it has otherwise. |
| `Pools.UnlimitedOwnerExamples` | modoboa/limits/lib.py:44-56 | Giving a child an unlimited pool, or saving an unlimited child again, caps the unlimited owner; lowering a child does too, raising one is refused. |
| `Pools.MovePoolResource` | modoboa/limits/utils.py:16-28 | For every limit the owner's maximum grows by the child's when that is not negative and stays otherwise; other limits stay. |
| `Pools.PoolConservation` | modoboa/limits/utils.py:16-28 | With finite pools no run of creations, resizes and deletions creates or loses capacity, and pools stay finite. |
| `Pools.UsageAddsUp` | modoboa/limits/models.py:82-88 | On a deletion the heir's usage becomes the sum of both usages: the owned sets are disjoint because each object has one owner. |
| `Pools.PoolAfterDeletion` | modoboa/limits/handlers.py:74-80 | The reseller fits its new pool if and only if both usages together fit it, or the sum reads as unlimited. |
| `Pools.ResellerStaysWithin` | modoboa/limits/handlers.py:74-80 | Both within finite pools before the deletion, the reseller is within its pool after it: ownership and capacity, moved by two modules, fit together. |
| `Pools.UnlimitedResellerIsCapped` | modoboa/limits/utils.py:24-28 | An unlimited reseller stays unlimited if and only if the deleted account brings nothing: with 5 it ends with a limit of 4. |
| `Pools.CreationGuard` | modoboa/limits/handlers.py:14-37 | The guard refuses exactly the creations that would leave the creator over its pool; a creation counts for one, in its own kind only. A maximum of -1 refuses nothing, and the four limits count domains, domain aliases, mailboxes and aliases. |
| `PoolRuns.NobodyIsOverdrawn` | modoboa/limits/handlers.py:14-80 | One world of access rows and finite pools: in every state of every run of guarded creations, new accounts, allocations that cover what a limited account owns, grants, ungrants, removals and deletions whose heir has room, no account but a superuser owns more than its pool allows. |
| `PoolRuns.SoundStep` | modoboa/limits/handlers.py:14-80 | Each of these events keeps that invariant, for every account and every limit. |
| `PoolRuns.InstalledIsSound` | modoboa/limits/handlers.py:40-58 | The invariant holds in the freshly installed database. |
| `PoolRuns.ResellerTakesOver` | modoboa/limits/handlers.py:74-80 | The reseller that owns the account of a limited user always has room for a deletion: ownership and pool move together. |
| `PoolRuns.RefusedExactly` | modoboa/limits/handlers.py:14-37 | A creation is refused if and only if the creator is no superuser and has no room for one more object of that kind. |
| `PoolRuns.ResizedExactly` | modoboa/limits/lib.py:44-56 | A value saved for another account: a superuser is always served and pays nothing; a limited payer is served exactly when the value is the present one or it can give the difference, which it pays; no other maximum changes. |
| `PoolRuns.ResizeOverdraws` | modoboa/limits/lib.py:44-56 | A resource saved for a limited account, whoever pays, leaves it within its pool if and only if the value covers what the account owns: only the pool of the payer is checked, and a value below the usage is always served. |
| `PoolExamples.PoolBelowUsage` | modoboa/admin/api/v2/serializers.py:773-781 | Such a run from the installed database: a reseller with room for two domains creates one, and the superuser sets its maximum to 0. |
| `PoolRuns.DeletionOverdraws` | modoboa/limits/handlers.py:74-80 | A deletion leaves a limited heir within its pool if and only if both usages fit the maximum it has then: its own, plus that of the account when the heir is the reseller that owns it. |
| `PoolExamples.InheritanceWithoutRoom` | modoboa/limits/handlers.py:74-80 | Such a run from the installed database: the mailbox of a deleted account goes to an account that is no reseller and has room for none. |
| `PoolTotals.AllocationConserves` | modoboa/limits/lib.py:48-56 | In the world of accounts: a value paid by a limited account keeps the sum of all maxima of every limit, if and only if it is not paying itself for a different maximum. |
| `PoolTotals.DeletionCapacity` | modoboa/limits/utils.py:16-28 | A deletion keeps the sum of all maxima when the reseller that owns the account takes the pool over, and loses the pool of the account otherwise. |
| `PoolTotals.CapacityIsConserved` | modoboa/limits/handlers.py:40-80 | Through every run in which limited accounts create, allocate and delete, and no superuser does, the sum of all maxima of every limit stays what it was. |
| `AliasTables.Database.GetOrCreateAlias` | modoboa/admin/handlers.py:65-70 | The search for an internal alias at the address: an existing one, with nothing changed, or a new one exactly when there is none. |
| `AliasTables.Database.CreateMailbox` | modoboa/admin/handlers.py:64-74 | In consistent tables with no mailbox at the address, the search finds nothing and the mailbox gets its own new alias; in any tables it ends with a self alias row and nothing else of the recipients changed. |
| `AliasTables.Database.RenameMailbox` | modoboa/admin/handlers.py:75-94 | The lookup included: in consistent tables it never raises; when it succeeds the row it finds is the only one, and that row, its alias and the rows of the mailbox in non-internal aliases get the new address, nothing else changes; the same address changes nothing. |
| `AliasTables.Database.DeleteMailbox` | modoboa/admin/handlers.py:98-142 | The pre-delete loop, the deletion and the post-delete handler, with cascades, for the rows in the order of the query. |
| `AliasTables.SelfAliasIsNew` | modoboa/admin/handlers.py:65-70 | A new mailbox never meets an internal alias at its address. |
| `AliasTables.RenameFindsSelfAlias` | modoboa/admin/handlers.py:78-84 | The lookup of a rename finds exactly one row. |
| `AliasTables.RenamedFields` | modoboa/admin/handlers.py:75-94 | A rename field by field: the mailbox, its self alias and, in consistent tables, each of its recipient rows get the new address; no row changes what it belongs or points to; rows of other mailboxes or of none, other aliases and other mailboxes stay. |
| `AliasTables.DomainAliasDeletedFields` | modoboa/admin/handlers.py:55-58 | Deleting a domain alias takes exactly the aliases at its address, their rows and the rows that point to them. |
| `AliasDeletion.RowsDroppedIs` | modoboa/admin/handlers.py:111-115 | The loop in closed form for any order of the rows, aliases as recipients of aliases included: of the other rows exactly those that point to a deleted alias are gone, and no alias that the mailbox alone received is left empty. |
| `AliasDeletion.DeletionIs` | modoboa/admin/handlers.py:98-142 | When the deletion is safe the result does not depend on the order: an alias survives if and only if it is at another address and has a recipient other than the mailbox, and the rows between what survives are kept. |
| `AliasDeletion.EmptyAliasExactly` | modoboa/admin/handlers.py:98-142 | Some order of the loop leaves an alias without recipient if and only if some alias that does not go with the mailbox has nothing but rows of the mailbox and rows that point to aliases that go. |
| `AliasDeletion.CascadeExactly` | modoboa/admin/handlers.py:56-58 | A deletion of aliases leaves another alias empty if and only if all its rows point to the deleted ones. |
| `AliasRuns.SafeWithoutAliasRecipients` | modoboa/admin/models/alias.py:311-333 | Without aliases as recipients of aliases every deletion of a mailbox is safe. |
| `AliasRuns.CascadeWithoutAliasRecipients` | modoboa/admin/handlers.py:56-58 | So is every deletion of aliases. |
| `AliasRuns.ValidCreateMailbox` | modoboa/admin/handlers.py:64-74 | A new mailbox keeps every promise of the tables. |
| `AliasRuns.ValidRename` | modoboa/admin/handlers.py:75-94 | A rename keeps every promise of the tables. |
| `AliasRuns.ValidDeleted` | modoboa/admin/handlers.py:98-142 | Any deletion of a mailbox, in any order of its loop, keeps every promise but that on empty aliases; a safe one keeps that too. |
| `AliasRuns.ValidCreateDomainAlias` | modoboa/admin/handlers.py:43-52 | A new domain alias, its internal alias and its recipient keep every promise of the tables. |
| `AliasRuns.ValidDeleteDomainAlias` | modoboa/admin/handlers.py:56-58 | Deleting a domain alias keeps every promise but that on empty aliases, and leaves none empty if and only if no other alias has only rows that point to the aliases that go with it. |
| `AliasRuns.DomainAliasLeavesEmptyAlias` | modoboa/admin/handlers.py:56-58 | With an alias whose only recipient is the internal alias of a domain alias, deleting the domain alias leaves it empty. |
| `AliasRuns.AttachedIsReached` | modoboa/admin/models/alias.py:217-232 | Two creations reach that state. |
| `AliasRuns.ValidCreateAlias` | modoboa/admin/models/alias.py:184-233 | A new alias to a mailbox, another alias or an address elsewhere keeps every promise of the tables. |
| `AliasRuns.ValidAddRecipient` | modoboa/admin/models/alias.py:184-233 | One more recipient of any of the three kinds keeps every promise of the tables. |
| `AliasRuns.AddedFields` | modoboa/admin/models/alias.py:184-233 | The new row belongs to the alias, points to the mailbox or alias it stands for or to nothing, and carries its address; nothing else changes. |
| `AliasRuns.CreatedFields` | modoboa/admin/models/alias.py:184-233 | A new alias is external, sits at its address and has one row; nothing else changes. |
| `AliasRuns.ValidStep` | modoboa/admin/handlers.py:42-142 | Every event keeps the tables consistent, and every event but an unsafe deletion leaves no alias empty. |
| `AliasRuns.TablesStayConsistent` | modoboa/admin/handlers.py:42-142 | In every state of every run, aliases as recipients of aliases included, whose deletions are safe: each mailbox has an internal self alias at its current address with a row back to it, all its rows carry that address, no alias is empty, no row refers to a deleted mailbox or alias. |
| `AliasRuns.PromisesOfEveryRun` | modoboa/admin/handlers.py:42-142 | In every state of every run, deletions unrestricted and in any order: each mailbox has an internal self alias at its current address with a row back to it, all its rows carry that address, and no row refers to a deleted mailbox or alias. |
| `AliasRuns.WithoutAliasRecipients` | modoboa/admin/handlers.py:42-142 | In every run that adds no alias as a recipient, deletions unrestricted, all the promises hold: each deletion of a live mailbox or domain alias is safe when it comes. |
| `AliasRuns.ChainIsReached` | modoboa/admin/models/alias.py:217-232 | Three creations reach the state of the next row: a mailbox, an alias of it, and an alias of that alias. |
| `AliasRuns.AliasRecipientLeavesEmptyAlias` | modoboa/admin/handlers.py:111-115 | In that state deleting the mailbox leaves the second alias without recipient. |
| `Quoting.TwoPassesAreOne` | modoboa/autoreply/models.py:12-20 | The two replacements over the whole text equal one map over its characters, for every text. |
| `Quoting.EscapeRoundTrip` | modoboa/autoreply/models.py:12-20 | A scanner for quoted strings (section 2.4.2 of RFC 5228) started on the escaped text stops exactly at the closing quote, yields the text and leaves what follows: no text breaks out of its string. |
| `Quoting.EscapingIsNeeded` | modoboa/autoreply/models.py:15-18 | Put between quotes unescaped, a text reads back if and only if escaping would not change it. |
| `Percent.Utf8RoundTrip` | modoboa/sievefilters/rfc6266.py:16-17 | Strict UTF-8 decoding (shortest forms only, no surrogates) gives back every encoded text. |
| `Percent.PercentRoundTrip` | modoboa/sievefilters/rfc6266.py:103-106 | Percent-decoding, then UTF-8 decoding, gives back every percent-encoded text. |
| `Percent.Utf8Is` | modoboa/sievefilters/rfc6266.py:16-17 | Each character is one to four octets by its value: the first says how many and holds the highest bits, the others six bits each, highest first. |
| `Percent.QuoteByteIs` | modoboa/sievefilters/rfc6266.py:11-17 | An octet is kept if and only if it is a letter, a figure or one of the twelve marks; any other is "%" and its two capital hexadecimal digits. |
| `Percent.EncodedChars` | modoboa/sievefilters/rfc6266.py:11-17 | Percent-encoded text holds only attr-chars and "%" (section 3.2.1 of RFC 5987). |
| `Rfc6266.ReadsBack` | modoboa/sievefilters/rfc6266.py:57-108 | The exact reading of every header by a strict and by a lenient quote-aware reader: the disposition and one or two parameters, in the token, quoted and percent-encoded cases. |
| `Rfc6266.RoundTrip` | modoboa/sievefilters/rfc6266.py:57-108 | For every filename and disposition: the printer raises if and only if the disposition is not a token, and otherwise each parameter it emits is "filename" or "filename*" and decodes to exactly the filename. |
| `Rfc6266.SentExactly` | modoboa/sievefilters/rfc6266.py:84-106 | Which parameters a header has: the plain one for tokens and for US-ASCII with tidy white space, the extended one when the plain one is missing or the text had to be escaped. |
| `Rfc6266.TokenCharsAre` | modoboa/sievefilters/rfc6266.py:9-26 | The token characters are US-ASCII without controls and without the nineteen characters of the literal list of separators. |
| `Rfc6266Examples.TokenExample` | modoboa/sievefilters/rfc6266.py:84-86 | "a.txt" is sent as it is, letter by letter. |
| `Rfc6266Examples.QuotedExample` | modoboa/sievefilters/rfc6266.py:87-106 | A text with a space and a quote is sent between quotes with a backslash, and again as "a%20%22b". |
| `Rfc6266Examples.AccentExample` | modoboa/sievefilters/rfc6266.py:94-106 | "é" is sent as "filename*=utf-8''%C3%A9" alone. |
| `Rfc6266.GrammarIsKept` | modoboa/sievefilters/rfc6266.py:84-93 | The header follows the grammar if and only if the filename is not empty and is not sent between quotes with a control character in it. |
| `Rfc6266.ControlIsSentQuoted` | modoboa/sievefilters/rfc6266.py:87-93 | U+0001 as a filename is such a case; a line feed is not. |
| `Rfc6266Space.SafeIsTidy` | modoboa/sievefilters/rfc6266.py:45-50 | What the test by splitting and joining accepts: the empty text, or words separated by single spaces with none at either end. |
| `Strings.SpacesAre` | modoboa/sievefilters/rfc6266.py:49-50 | The white space at which texts are split, character by character. |
| `Rfc6266Space.HeaderIsLwsSafe` | modoboa/sievefilters/rfc6266.py:45-50 | A recipient that collapses linear white space (section 2.2 of RFC 2616) changes no header. |
| `Rfc6266Space.HeaderIsAscii` | modoboa/sievefilters/rfc6266.py:107-108 | The header is US-ASCII, so the final `encode("iso-8859-1")` never raises. |
| `Dkim.ReassemblyIsExact` | modoboa/dnstools/lib.py:17-19 | For strings of any octets but quotes, backslashes and octets that are not printing US-ASCII printed escaped as the resolver does: the record, after the replacement and the strip, is the concatenation of its strings as printed if and only if the first string is not a single space (or all that follows the leading single spaces is one or more empty strings): the exact condition. |
| `Dkim.PlainReassembly` | modoboa/dnstools/lib.py:17-19 | When all octets are printed as themselves, what is read is the text itself. |
| `Dkim.PrintedOctetIs` | modoboa/dnstools/lib.py:17-19 | How each octet arrives: as itself, behind a backslash, or as a backslash and its value in three decimal digits. |
| `Dkim.SpaceFirstIsLost` | modoboa/dnstools/lib.py:19 | A record of a space and "a" is read with a stray quote. |
| `Dkim.ChunksDoNotMatter` | modoboa/dnstools/lib.py:17-21 | However a record is cut, empty and single-space strings included, it is taken for a record of the type exactly when its text is one, and then is read as its text, escapes included. |
| `Dkim.GetRecordTypeValue` | modoboa/dnstools/lib.py:13-22 | The first record of the type, put together; None exactly when there is no answer or no such record. |
| `DkimTags.ReadTag` | modoboa/dnstools/lib.py:196-204 | One round of the loop: error on a nonblank tag without "=", the key replaced by a "p" tag, kept by any other. |
| `DkimTags.CheckDkimSyntax` | modoboa/dnstools/lib.py:190-207 | The loop returns the closed verdict: not DKIM, the first invalid tag, no key, or the last "p" value. |
| `DkimTags.RefusedIff` | modoboa/dnstools/lib.py:196-201 | A record is refused for its tags if and only if some nonblank tag has no "=". |
| `DkimTags.VerdictExactly` | modoboa/dnstools/lib.py:190-207 | Not a DKIM record if and only if it does not start with "v=DKIM1"; no key if and only if all tags are valid and none is a key; otherwise the first tag without "=", or a key. |
| `DkimTags.TagIs` | modoboa/dnstools/lib.py:196-203 | A tag is valid if and only if it is blank or has a "=", and the key if and only if a "p" between spaces is before the first "=". |
| `DkimTags.QuotedKey` | modoboa/dnstools/lib.py:203-204 | A key in quoted parts with spaces between them is the parts without quotes and spaces. |
| `DkimTags.KeyIsExact` | modoboa/dnstools/lib.py:202-207 | One "p" tag anywhere among valid tags gives its value without spaces, whatever their order and the blanks around its name. |
| `DkimTags.ChunkedKeyIsExact` | modoboa/dnstools/lib.py:13-22 | From the zone to the key: for every way of cutting the record into strings, it is found and gives exactly the published key (section 3.6.2.2 of RFC 6376). |
| `Contacts.FinalEntries` | modoboa/contacts/serializers.py:149-168 | Kept entries plus created entries are the requested (address, type) pairs, duplicates on either side counted. |
| `Contacts.RowsAreSplit` | modoboa/contacts/serializers.py:149-167 | Every stored row is kept under its own key and address or deleted, none both. |
| `Contacts.KeptAddresses` | modoboa/contacts/serializers.py:149-164 | For each address min(stored, requested) rows are kept. |
| `Contacts.FewestChanges` | modoboa/contacts/serializers.py:149-168 | The plan of the loop answers the request, and no plan that answers it, keeping rows under their own key and address, deletes or creates fewer rows. |
| `Contacts.EmailTable.Match` | modoboa/contacts/serializers.py:150-164 | One round of the loop keeps the two lists parallel, and the plan equal to what was done followed by the plan for the rest. |
| `Contacts.FinalIsRequested` | modoboa/contacts/serializers.py:141-168 | The contact's rows afterwards hold exactly the requested pairs. |
| `Contacts.EmailTable.Save` | modoboa/contacts/serializers.py:155-164 | A row changes only in its type and keeps its key; the rows of other contacts stay. |
| `Contacts.EmailTable.UpdateEmails` | modoboa/contacts/serializers.py:141-168 | The loop over two parallel lists, the deletion and the bulk creation leave exactly the planned rows, the requested pairs, and every other contact's rows. |
| `RspamdMaps.MapsUpdater.LoadFiles` | modoboa/rspamd/jobs.py:20-42 | Not configured, a line without exactly two words, or both maps as the files hold them, a missing file being empty. |
| `RspamdMaps.MapsUpdater.ManageDomain` | modoboa/rspamd/jobs.py:44-81 | What one domain does to both maps and both flags. |
| `RspamdMaps.MapsUpdater.Update` | modoboa/rspamd/jobs.py:83-98 | The whole run: the maps after all domains, each file rewritten exactly when its map was modified, the disk untouched when loading fails. |
| `RspamdMaps.WriteTable` | modoboa/rspamd/jobs.py:90-98 | The text written is a listing of every entry of the map. |
| `RspamdMaps.FileRoundTrip` | modoboa/rspamd/jobs.py:90-98 | A written file reads back as its map if and only if all names and values are single words. |
| `RspamdMaps.LineEnds` | modoboa/rspamd/jobs.py:29-39 | Reading in text mode ends a line at "\n", "\r\n" or "\r", and changes nothing else. |
| `RspamdMaps.LoadExactly` | modoboa/rspamd/jobs.py:28-42 | A file is read line by line: two words are an entry, a line with any other number of words fails; a missing file is an empty map. |
| `RspamdMaps.WrittenExample` | modoboa/rspamd/jobs.py:92-98 | The one line of a map with one entry. |
| `RspamdMaps.ProcessedDomain` | modoboa/rspamd/jobs.py:44-81 | Every processed domain is in the map, with its own value, if and only if DKIM is enabled for it. |
| `RspamdMaps.OthersUntouched` | modoboa/rspamd/jobs.py:44-81 | Other domains keep their entry or their absence. |
| `RspamdMaps.SecondRun` | modoboa/rspamd/jobs.py:57-81 | Processing the same domains again modifies a map if and only if some enabled domain has a line break in its value. |
| `RspamdMaps.LineBreakRewrites` | modoboa/rspamd/jobs.py:57-66 | A selector of two lines is stored as one word and makes the second run modify the map again. |
| `RspamdMaps.FilesFollowMaps` | modoboa/rspamd/jobs.py:83-98 | After a run both files read back as the maps in memory, rewritten or not. |
| `RspamdMaps.SecondRunWritesNothing` | modoboa/rspamd/jobs.py:83-98 | For single-word fields, a second identical run loads the same maps, changes nothing and writes nothing. |
| `Dmarc.Bucket.InsertRecord` | modoboa/dmarc/lib.py:277-292 | The nested dictionaries after one record. |
| `Dmarc.Stats.Fill` | modoboa/dmarc/lib.py:343-354 | The loop fills the four buckets as the closed form says. |
| `Dmarc.KindsAre` | modoboa/dmarc/lib.py:343-354 | The four buckets: both checks pass, exactly one, or none; then forwarded if and only if the reason is "local_policy" and the comment starts with "arc=pass". |
| `Dmarc.ForwardedExample` | modoboa/dmarc/lib.py:343-352 | One forwarded record of three messages, under "Not resolved" or under the name of its source. |
| `Dmarc.CellIsPromised` | modoboa/dmarc/lib.py:277-292 | Each (bucket, name, address) cell, present or not, holds the sums over exactly its records; it is present if and only if there is one. |
| `Dmarc.OrderDoesNotMatter` | modoboa/dmarc/lib.py:343-354 | Any order of the same records gives the same nested dictionaries: the same names, sources and counts. |
| `Dmarc.CellsAreConsistent` | modoboa/dmarc/lib.py:343-354 | In every cell SPF and DKIM each account for the total; aligned cells have no failure, trusted cells one success per message, forwarded and failed cells no success. |
| `Dmarc.EveryRecordOnce` | modoboa/dmarc/lib.py:343-354 | Over the four buckets the totals of a source add up to the counts of its records. |
| `Paginator.GetPage` | modoboa/lib/paginator.py:85-95 | A page with the computed range, or none, exactly as the arithmetic says. |
| `Paginator.Page.HasNext` | modoboa/lib/paginator.py:44-49 | The cached answer is the answer. |
| `Paginator.RangeIs` | modoboa/lib/paginator.py:79-95 | A page exists if and only if its first item does, and then covers `size` items or up to the end. |
| `Paginator.PagesPartition` | modoboa/lib/paginator.py:79-95 | Turning the pages shows every item exactly once, in order, for every total and every page size >= 1. |
| `Paginator.NeighboursExist` | modoboa/lib/paginator.py:30-49 | `has_previous` and `has_next` hold if and only if the neighbouring page exists. |

## Left out

- Sockets, SMTP, IMAP, LDAP and DNS clients, subprocesses, SQL and Redis drivers, templates and
  the web frontend: only tables, maps and atomic steps are modelled.
- Codec: lone surrogates, the `StreamReader` and `StreamWriter` wrappers, and which exception a
  malformed byte string raises.
- Policy daemon: notifications and alarms, the parsing of the request, wall-clock time, mailbox
  and domain renames, and a Redis command that still takes effect after its coroutine was
  cancelled. `reset_counters` reads all limits before it writes them; in the transition system
  a reset of one key is one step with the limit of that moment.
- Ownership: the role setter (modoboa/core/models.py:298-299), which deletes a user's ownership
  rows wholesale, and `can_access` for objects other than accounts. An operation that raises is
  a transition without effect.
- Deleting an account does not delete its mailbox here; the alias tables are modelled apart from
  the ownership table.
- Limits: the "sum" quota type, limits with extra filters, domain limits, the switch that turns
  limits off, creation of several objects at once, and demotion of an account without deletion.
- Pools.PoolConservation: covers finite pools only, because with unlimited ones the sum is not
  kept; the exact deviations are UnlimitedOwner, UnlimitedResellerIsCapped and AllocateConserves.
- PoolRuns.NobodyIsOverdrawn: a value below what a limited account owns, and a deletion whose heir
  has no room for the objects, are not events of the runs, because they overdraw a pool; the exact
  conditions are lemmas. Pools are finite there.
- AliasRuns.TablesStayConsistent: a deletion that can leave an alias empty is not an event of its
  runs, because that promise then fails; PromisesOfEveryRun states the others for all runs.
- Alias tables: renaming a domain, quota rows, mailbox directories, the enabled flag, address
  extensions in recipients, rewriting or removing the recipients of an alias, and a second save
  of an instance whose `old_full_address` is out of date.
- Content-Disposition: `filename_compat`, which no caller passes, and the equal printer of the
  webmail (modoboa/webmail/lib/rfc6266.py). The reader knows the charset name in lower or upper
  case only.
- DKIM: strings that contain quotes; the SPF and DMARC checks of the same file are independent
  loops of the same kind.
- Contacts: `update_phone_numbers` is the same procedure over numbers and is not repeated; the
  other fields of a contact are not modelled.
- rspamd: the order of the lines in a written file, and names that Python's `str.split` would cut
  differently in another Unicode version.
- RspamdMaps.FilesFollowMaps: requires two different paths; with one path for both files the
  second write replaces the first.
- DMARC: selecting the records of a period, resolving names (a given map here), and the parsing of
  reports.
- Paginator.PagesPartition: page sizes below 1 are left out; `num_pages`, `last_page` and
  `Page.items` are not modelled, they take no part in `getpage`.
- Log parsing, cryptography, password hashing, the parameter registry and CSV export.
