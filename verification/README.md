# Verification of the Ascension archive

A Dafny model of the hard parts of the Ascension archive: the login key agreement, the encrypted transport and
its bridge, the aura, pool and spellbook engines of the world server, the table repair and sanitising tools, and
the packet rewriters. Each module models one component and proves what that component is for.

- `KeyAgreement` — the scalar multiplication of the login proof. The loop with deferred swaps is proved equal to a plain
  ladder. Key agreement is then proved over any commutative group on which the ladder's formulas and inversion by
  Fermat are valid; these are hypotheses of that one chain. The low-order results, on which the fixed-key login
  variants rest, assume nothing.
- `Arc4`, `Framing`, `Transport` — the running stream cipher, the two header formats, and the readers that put
  packets together from whatever pieces a socket delivers, including the world server's switch from plaintext to
  encrypted headers. A socket is a byte sequence; how it is cut into chunks is arbitrary.
- `Creations`, `Relay` — character creation across the bridge and the client-to-core pump.
- `Bootstrap`, `Bridge` — what pays for one world entry, computed from what its sender reads; and one bridged session
  as a state machine over its threads, two locks and timers. A packet is written in arbitrary pieces and the socket
  can die between any two.
- `Pools`, `Auras` — health, power, target dummies and periodic effects of one world entry. Time is in integer
  milliseconds; rolled amounts are inputs.
- `Ordering`, `Spellbook`, `Advancement`, `WorldEntry`, `SpellCache`, `Session` — what a character's learned
  entries grant, the watermark of what its client was told, the block deferred to the end of the loading screen,
  and builds. `Session` has the packet loop's handlers in place; the two law modules speak of whole runs.
- `Dbc`, `FixDbc`, `RepairFile`, `Sanitize`, `Restoring`, `SanitizeFile` — client tables as rows, the checker, the
  repair and the sanitiser, first as functions on rows and then as the tools run, on a file's bytes in place.
- `PackedGuid`, `UpdateMask`, `CharEnum`, `RealmList` — packet parsers and printers.

Objects that the source updates in place are classes here (`Rc4`, `ClientReader`, `Pump`, `Units`, `AuraTable`,
`Keeper`, `World`, `Sanitizer`); every method is proved against a specification function, and the laws are about
those functions. Bit masks are written arithmetically. Python exceptions that the source catches or that end a
handler appear as `None` or as an error value.

`Bytes` and `Ordering` hold the shared definitions. `dafny verify dfyconfig.toml` checks everything.

Where the code and its own words disagree, the code is modelled:

- `sanitize-for-core.py` says every change can be put back; a clash of ids or a drop rule loses data
  (`Restoring.JournalRestoresExactly`, `Restoring.DropForgets`).
- The deferred-activation comment says the flush re-diffs from scratch; it does not take away spells the client
  already had (`SpellCache.DeferredActivation`), nor unbind their buttons (`SpellCache.DeferredButtons`).
- The notes on the pools count on an update after a level change; `.level` sends none, nor does `.class`, which can
  change the power type. The client's bars then go wrong (`Pools.BarsRightExactly`).
- The world server's reader tries plaintext first and can mistake an encrypted header for a plaintext one
  (`Transport.LatchReadsSwitch`).
- The world server's notes say known entries wait for the block; uploads and commands do not
  (`WorldEntry.EarlyExactly`), and in the budget-only mode an activation is acknowledged without them
  (`WorldEntry.AcksFollowStateExactly`).
- A rebuilt realm list is not always its own rebuild (`RealmList.RebuiltTwiceExactly`).

## Model

| member | source | states |
|---|---|---|
| KeyAgreement.X25519 | tools/ascension_x25519_m2.py:82-110 | the 255-step loop with deferred conditional swaps returns what the plain ladder of section 5 of RFC 7748 defines, and fails with an index error on short arguments |
| KeyAgreement.LadderInvariant | tools/ascension_x25519_m2.py:82-106 | over any commutative group on which the step formulas are valid, after each bit the two points are n and n+1 times the base, n being the scalar's prefix |
| KeyAgreement.ScalarMultiplication | tools/ascension_x25519_m2.py:62-110 | the key bytes encode the u-coordinate of clamp(scalar) times the base |
| KeyAgreement.DecodeOfEncode | tools/ascension_x25519_m2.py:62-66 | an encoded field element decodes to itself, so a public key is read as the coordinate it came from |
| KeyAgreement.Agreement | tools/ascension_x25519_m2.py:82-115 | both parties' scalars on the other's public key give one key, that of the product of the clamped scalars (section 6.1 of RFC 7748) |
| KeyAgreement.LowOrderCollapses | tools/ascension_x25519_m2.py:82-110 | u congruent to 0, 1 or -1 gives zero for every scalar that is a multiple of 8; no group law is assumed |
| KeyAgreement.FixedKey | server/shim3799.py:252-264 | whatever 32-byte private key the client holds, a server key decoding to such a u makes the shared key 32 zero bytes |
| KeyAgreement.LowOrderVariants | server/shim3799.py:232-270 | the zero key and the little-endian one fix the key at zero, and so do their reversals on the wire |
| Arc4.CryptConcat | server/world_server.py:958-974 | enciphering a then b with the running state is enciphering their concatenation: chunking is invisible |
| Arc4.CryptTwice | server/world_server.py:958-974 | equal states undo each other |
| Arc4.AdvanceKeepsValid | server/world_server.py:958-974 | the state stays a permutation of the 256 bytes for any number of steps, so every index is in range |
| Arc4.Rc4.constructor | server/world_server.py:959-965 | the key schedule leaves the state the specification's fold gives, already a permutation |
| Arc4.Rc4.Apply | server/world_server.py:967-974 | the in-place loop returns Crypt of its input and leaves the state advanced by its length |
| Framing.FrameS2CExact | server/ascension_bridge.py:643-714 | a server frame is read back to its packet, leaving the rest and an equal cipher state, exactly when the opcode fits 16 bits and the body the 23-bit size with its limit |
| Framing.FrameC2SReads | server/ascension_bridge.py:656-680 | a client frame with a body of at most 65531 bytes is read back to its packet, its six header bytes accounting for the cipher's advance |
| Framing.StreamRoundTrip | server/ascension_bridge.py:643-714 | for every list of packets that fit, framing with one running cipher and reading with an equal one gives the list back, in either direction, with both states equal at the end and any tail unread |
| Framing.FrameAllConcat | server/ascension_bridge.py:643-662 | framing two lists in turn with one cipher is framing their concatenation |
| Framing.CutServerFrame | server/ascension_bridge.py:683-714 | a plaintext server frame cut anywhere is no packet |
| Transport.RecvExact | server/ascension_bridge.py:630-640 | for every way the socket cuts the stream, exactly n bytes or a hang-up |
| Transport.ReadFromClient | server/ascension_bridge.py:665-680 | the chunked reader delivers what ReadC2S reads from the whole stream and leaves socket and cipher where it does |
| Transport.ReadFromServer | server/ascension_bridge.py:683-714 | the same for server frames, whose first byte is deciphered alone to learn the header's length |
| Transport.ReadAllFromServer | server/ascension_bridge.py:1045-1061 | the pump's loop takes exactly the packets of the whole stream, however it was cut, and ends as it ends |
| Transport.FramedStreamIsRead | server/ascension_bridge.py:643-714 | that stream, framed by a server with an equal cipher, holds the server's packets and then a hang-up |
| Transport.LatchReadsSwitch | server/world_server.py:4880-4926 | a client that starts with plausible plaintext headers and switches to encrypted ones is read without loss, the latch ending where it switched and the decrypter six keystream bytes further per encrypted packet, if and only if the first encrypted header passes for one deciphered and not before; the later packets may be any that have a frame |
| Transport.MutedIsMistaken | server/world_server.py:4880-4915 | the witness: a cipher state under which every ordinary packet passes undeciphered; its table is a permutation and its indices are chosen, and it is not shown to come from a key schedule |
| Transport.ClientReader.Recv | server/world_server.py:4850-4877 | n bytes from the held-back bytes and any chunks and timeouts, nothing lost or reordered; when nothing is returned nothing is consumed |
| Transport.ClientReader.TakeHeader | server/world_server.py:4880-4915 | one header through the latch: plaintext, deciphered, or given up, with the cipher advanced only when used |
| Transport.ClientReader.ReadOne | server/world_server.py:4880-4926 | one packet, as TakeOne defines on the remaining stream |
| Transport.ClientReader.ServeAll | server/world_server.py:4880-4926 | the whole session loop takes exactly the packets Serve defines, until the stream ends or the client falls silent |
| Creations.CarrierFitsRace | server/ascension_bridge.py:357-365 | the substituted class is one the race can take, whenever the race has any |
| Creations.FixBodyChangesOnlyClass | server/ascension_bridge.py:1394-1454 | a forwarded request differs from the client's in its class byte alone; a second substitution changes nothing |
| Creations.TableIsAcknowledged | server/ascension_bridge.py:1076-1087 | over every run with at most one request outstanding and a result byte in every reply, the class table is what the core's success replies to the player's own requests make it |
| Creations.AcknowledgedExactly | server/ascension_bridge.py:1066-1087 | with replies that lack their result byte too, the table is that one throughout if and only if no success, answering a request that stages no class, finds a class left staged that is news to the table |
| Creations.ChangeHasCause | server/coa_mode.py:523-532 | a name's entry is new or changed only through a success reply that answers a creation of that very name and class |
| Creations.DisorderLosesAndLeaks | server/ascension_bridge.py:1076-1087 | with two requests outstanding, or an empty reply, the table does go wrong: a witness for each |
| Creations.Session.FixCharCreate | server/ascension_bridge.py:1394-1454 | the in-place handler forwards FixBody and stages the class as Step says |
| Creations.Session.CreateReply | server/ascension_bridge.py:1076-1087 | the reply handler commits or discards the staged class as Step says |
| Relay.CoreDecrypts | server/ascension_bridge.py:982-1042 | what the core decrypts is the client's packets below 0x521, in order, changed only in creation bodies; if the connection dies, exactly the first n |
| Relay.ForwardedFits | server/ascension_bridge.py:656-680 | no forwarded packet, rewritten or not, overflows the client-frame size field |
| Relay.SixBytesEach | server/ascension_bridge.py:656-662 | the outgoing keystream advances six bytes a packet |
| Relay.Pump.ClientToCore | server/ascension_bridge.py:982-1042 | the pump loop, over chunked reads and partial writes, leaves on the core's socket whole frames of those packets and at most one cut frame |
| Bootstrap.ScriptInOrder | server/ascension_bridge.py:1221-1349 | whatever mode, class, look, essence table and entries are read, what is sent is 0x725, then the class update if the look is known, the essence rows, and 0x726; 0x725 alone exactly when there is no class to serve |
| Bootstrap.OwnBudgetOnly | server/ascension_bridge.py:1305-1349 | every essence row sent is of the character's own class, and every row of that class is sent |
| Bootstrap.ClassUpdateSays | server/coa_mode.py:474-495 | the class update is read back as one dword holding race, stored class, gender and the carrier's power, each in its byte |
| Bootstrap.ScriptFits | server/ascension_bridge.py:1221-1349 | every packet of a script fits a frame when the entries came from uploads |
| Bridge.LocksKept | server/ascension_bridge.py:877-885 | a thread is inside a critical section exactly while it holds that lock, over every step |
| Bridge.ArmedIsTimedKept | server/ascension_bridge.py:1205-1240 | what every step under `ca_lock` keeps, from which armed and timer agree whenever the lock is free |
| Bridge.PaidKept | server/ascension_bridge.py:1205-1240 | bootstraps taken, plus the one still owed, never exceed the world entries that armed them |
| Bridge.WireKept | server/ascension_bridge.py:877-885 | the client's bytes are the frames of the packets sent, plus the holder's unfinished one, or one cut frame on a dead socket |
| Bridge.OrderKept | server/ascension_bridge.py:1221-1349 | of each bootstrap the client has got a prefix of the script its sender computes from what it reads, and the sender has the rest still to send |
| Bridge.EverySession | server/ascension_bridge.py:861-885 | at any moment of any interleaving of pumps, hello timer, bootstrap timers and close: whole frames only; with `ca_lock` free, armed exactly when timed; bootstraps at most world entries; each a prefix of its script, so in the order 0x725, class update, 0x722 rows, 0x726, with no budget but the character's own class's |
| Pools.StepBounded | server/world_server.py:2921-3019 | no operation makes a stored pool negative or a dummy exceed its maximum |
| Pools.ReportsConserve | server/world_server.py:3484-3679 | a logged heal or hit is the change in health plus the logged overflow, there is overflow only at the pool's end, the health sent next is the one left, and nothing else moves |
| Pools.CastChargesOrRefuses | server/world_server.py:5342-5363 | a cast is charged exactly its cost, or refused with nothing a reader could see changed; the bars are sent exactly when something was charged |
| Pools.RunBoundedAndReplayed | server/world_server.py:2933-3019 | after any sequence of operations every pool read lies in its range, and the log's amounts alone, like the health values alone, give every dummy's health |
| Pools.BarsRightExactly | server/world_server.py:2919-3003 | from a world entry on, the client's health, maximum health, power type, power and maximum power are right throughout a run if and only if no level or class command in it moves the level, clamped, or the power type |
| Pools.RightUndisturbed | server/world_server.py:2919-3003 | from any screen that is right, pools of other power types on it included: right throughout if and only if no command moves the level, clamped, or goes to a power type whose pool on the screen is not the character's |
| Pools.StepTyped | server/world_server.py:4445-4452 | the power type the client draws is the character's after every operation |
| Pools.EntryRight | server/world_server.py:3990-4020 | a world entry leaves the bars right and one pool on the screen, whatever was there before |
| Pools.PushMends | server/world_server.py:2982-3003 | whatever the bars showed, every operation that sends them makes both numbers of both bars right |
| Pools.LevelClampIsSilent | server/world_server.py:4157-4183 | the witness for levels down: 80 to 1 and back sends nothing, and a character read in between is left with level-1 pools under full bars |
| Pools.LevelRaiseIsSilent | server/world_server.py:4157-4183 | the witness for levels up: 1 to 80 sends nothing, and the client shows 240 of 240 where the character has 240 of 14460 |
| Pools.ClassChangeIsSilent | server/world_server.py:4431-4461 | the witness for classes: to another power type the client draws a pool it was never sent, and after the way back a full one where the character is left with 100 |
| Pools.Units.UnitState | server/world_server.py:2933-2948 | the remembered pools, full on first use and cut to maxima that a level change lowered |
| Pools.Units.Harm | server/world_server.py:3513-3531 | periodic damage to a dummy or else the player, as the Hit step |
| Pools.Units.Mend | server/world_server.py:3494-3511 | healing, as the Heal step |
| Pools.Units.PayForCast | server/world_server.py:5342-5357 | charge or refusal, as the Cast step |
| Pools.Units.RegenTick | server/world_server.py:3006-3019 | one regeneration, as the Regen step |
| Pools.Units.RestDummies | server/world_server.py:3160-3168 | the loop over dummies restores exactly those left alone for the reset time |
| Pools.Units.LevelCommand | server/world_server.py:4157-4183 | the clamp of `.level`, as the SetLevel step, with nothing sent about the pools |
| Pools.Units.ClassCommand | server/world_server.py:4431-4452 | the power type of `.class`, as the SetClass step, with nothing sent about the pools |
| Pools.Units.EnterWorld | server/world_server.py:3990-4020 | the pools of the player object, as the Enter step |
| Pools.Units.HealthCommand | server/world_server.py:4236-4251 | `.health`, clamped and sent, as the SetHealth step |
| Pools.Units.PowerCommand | server/world_server.py:4236-4251 | `.power`, clamped and sent, as the SetPower step |
| Pools.Units.SpawnDummy | server/world_server.py:3118-3138 | a dummy at full health, as the Spawn step |
| Pools.Units.ClearDummies | server/world_server.py:3141-3149 | every dummy gone, as the Despawn step |
| Auras.PollingIsIrrelevant | server/world_server.py:3546-3585 | after any polls up to time t a tick has fired floor((min(t, end) - start) / period) times, however they were spaced |
| Auras.WholeDuration | server/world_server.py:3546-3585 | a timed schedule polled at or after its end has fired floor(duration / period) times |
| Auras.UncancelledAuraFires | server/world_server.py:3409-3423 | in the table too: an aura neither recast nor cancelled fires that often and is gone after a poll at or past its end, whatever else is cast, cancelled or expires between the polls; a late poll that removes it loses no tick |
| Auras.TableFiresSchedule | server/world_server.py:3546-3585 | over any session that spares an aura, its ticks fire as its bare schedule would, and it is in the table exactly until a poll at or past its end |
| Auras.ApplyKeepsTable | server/world_server.py:3369-3465 | an application keeps slots below 56, one aura per target, spell and caster, and stacks between 1 and the limit; a new one takes the lowest free slot |
| Auras.RefusedWhenFull | server/world_server.py:3369-3385 | an application is refused exactly when all 56 slots are held by other auras |
| Auras.AuraTable.Apply | server/world_server.py:3387-3465 | the in-place application: fallback target, slot, stacks, schedule, and the packet that keeps the client's frame equal |
| Auras.AuraTable.SpellEffects | server/world_server.py:3588-3681 | the loop over a spell's effects: damage at a dummy or the caster and otherwise dropped, heals at a dummy or else the caster, in column order, and one aura application |
| Auras.AuraTable.Remove | server/world_server.py:3467-3481 | removal and its packet; the client's frame stays equal |
| Auras.AuraTable.CancelSpell | server/world_server.py:5396-5410 | a cancel removes exactly the player's auras of that spell |
| Auras.AuraTable.ClearAll | server/world_server.py:4277-4286 | the clear command empties the table and the client's frame |
| Auras.AuraTable.CatchUp | server/world_server.py:3568-3580 | the catch-up loop ends, fires each due tick once in time order, and applies each to the units |
| Auras.AuraTable.Poll | server/world_server.py:3546-3585 | one poll: every due tick fires exactly as often as its schedule says, expired auras go, early polls do nothing, and the units are what those operations make them |
| Spellbook.KnownSpellsExact | server/world_server.py:2608-2635 | the resolved list has no spell twice and is exactly what the rows grant at their clamped ranks |
| Spellbook.ByIdSorts | server/world_server.py:2351-2362 | readers see a sorted rearrangement of the stored rows |
| Spellbook.SyncExact | server/world_server.py:2872-2906 | after a synchronisation the client knows every granted spell, and knows exactly those if and only if it held no other spell the watermark had lost; in particular whenever the watermark was its true set |
| Spellbook.SyncTwice | server/world_server.py:2872-2906 | a second synchronisation sends and changes nothing |
| Spellbook.SyncBars | server/world_server.py:2889-2904 | exactly the buttons of removed spells are unbound, every other slot stays, and only an empty layout is seeded |
| Spellbook.SyncButtonsKnown | server/world_server.py:2889-2904 | buttons that named known spells name granted spells afterwards |
| Spellbook.AutofillLaysOut | server/world_server.py:2766-2784 | the seeded layout fills slots 0, 1, 2, ... without a gap with castable granted spells, at most 144 |
| Spellbook.Keeper.Resolve | server/world_server.py:2608-2635 | the resolving loop computes that list |
| Spellbook.Keeper.Layout | server/world_server.py:2766-2784 | the layout loop computes the seeded layout |
| Spellbook.Keeper.SendSpellbook | server/world_server.py:2861-2869 | the world-entry bulk path |
| Spellbook.Keeper.SyncSpellbook | server/world_server.py:2872-2906 | the packets, the unbinding and the new watermark are those of Sync |
| Spellbook.Keeper.SendKnownEntries | server/world_server.py:3779-3794 | 0x726 with the sorted rows, then the synchronisation |
| Advancement.BestIsBest | server/world_server.py:5153-5160 | an upload keeps one row per id, each of the highest rank uploaded for it, and loses no id |
| Advancement.ClassChangePrunes | server/world_server.py:4418-4461 | after a class change exactly the entries the class can learn are left, or all with `keep` or without an index |
| Advancement.SeenStep | server/world_server.py:4800-5254 | what one step adds to the wire: a block, a known-entry packet, an acknowledgement, or none |
| WorldEntry.OneBlockPerEntry | server/world_server.py:4800-4834 | at most one block per world entry, in every mode and run, and once nothing is pending exactly one |
| WorldEntry.EarlyExactly | server/world_server.py:5142-5254 | known entries reach the client before their container exactly in the runs where an upload, command or class change arrives while the block is owed; activations never cause it |
| WorldEntry.AcksFollowStateExactly | server/world_server.py:4816-4830 | every ACTIVATE_BUILD_OK follows a 0x726 carrying the rows stored at that moment, in every mode except the budget-only one, whose block acknowledges without sending the rows |
| WorldEntry.BudgetAcksBlindly | server/world_server.py:4810-4830 | the run that shows the exception |
| WorldEntry.AcksBounded | server/world_server.py:5178-5254 | acknowledgements sent and owed never exceed the activations of stored builds |
| WorldEntry.BlockShape | server/world_server.py:4800-4830 | in full mode every 0x725 is followed by all essence rows in order and then by the stored rows |
| SpellCache.StepSyncs | server/world_server.py:5142-5254 | every in-world step but a deferred activation leaves watermark and client alone or synchronises them |
| SpellCache.EntryAgrees | server/world_server.py:3779-3794 | from a world entry on, whatever came before and until an activation is deferred, the client's spells are exactly those the stored rows grant |
| SpellCache.ClientNeverLacks | server/world_server.py:5190-5221 | over every run, deferrals included, the client knows every granted spell once no activation is waiting |
| SpellCache.ClientExactly | server/world_server.py:2872-2906 | over every run the client's spells are the granted ones and the stale set, which deferred activations add to, synchronisations shrink and logins empty: exactly the granted if and only if that set is empty |
| SpellCache.DeferredActivation | server/world_server.py:5190-5221 | a deferred activation and its block leave the old spells and the new: exactly the new if and only if the build took nothing away |
| SpellCache.NoDeadButtons | server/world_server.py:2889-2904 | as long as no activation is deferred, over learn, unlearn, class and build steps and logins no button is left on a spell the client lost |
| SpellCache.DeferredButtons | server/world_server.py:5190-5221 | after a deferred activation and its block, and after the next login, the buttons name granted spells if and only if the old ones all named spells of the new build: the block unbinds nothing |
| SpellCache.DeferralKillsAButton | server/world_server.py:2889-2904 | the witness: a build replacing spell 10 by 20, deferred, leaves a button on 10 that the client no longer has after a relog |
| SpellCache.LoginLive | server/world_server.py:2861-2869 | a login leaves no dead button if and only if every button names a granted spell |
| SpellCache.DeadExactlyAtLogin | server/world_server.py:2861-2906 | over every run, deferrals included, no button ever goes dead if and only if none does at a login |
| Session.World.Enter | server/world_server.py:4983-5032 | the login handler is the Login step |
| Session.World.Leave | server/world_server.py:5031-5054 | the logout handler is the Logout step |
| Session.World.FlushCa | server/world_server.py:4800-4834 | the block is the Flush step, mode by mode |
| Session.World.OnPing | server/world_server.py:5063-5086 | the ten-second fallback |
| Session.World.ActiveMover | server/world_server.py:5447-5449 | the owed block is paid when the client claims its player object |
| Session.World.BuildActivate | server/world_server.py:5178-5254 | both paths of an activation, with their order of packets |
| Session.World.KnownUpload | server/world_server.py:5142-5176 | the upload loop stores the best rows and shows them |
| Session.World.ClassCommand | server/world_server.py:4418-4461 | the class command is the ChangeClass step |
| Dbc.WrittenOfRead | tools/check-dbc-fmt.py:64-79 | cutting a table into rows and writing it back gives the file |
| Dbc.ReadOfWritten | tools/check-dbc-fmt.py:64-79 | and writing rows and reading them gives the rows |
| Dbc.Offsets | tools/check-dbc-fmt.py:56-61 | every column's offset and the laid-out size |
| Dbc.CheckFile | tools/check-dbc-fmt.py:64-93 | the checker's nested loops compute Check, including where its reads run past the data |
| Dbc.CheckIsExact | tools/check-dbc-fmt.py:64-93 | the checker has no error for a complete table of the right shape exactly when every string offset is inside the block |
| FixDbc.RepairHeals | tools/fix-dbc.py:78-157 | after a repair every string is inside the block, no index is 0xFFFFFFFF, and every taxi node's index is its place on its path |
| FixDbc.RepairPassesCheck | tools/fix-dbc.py:78-157 | the independent checker reports no error for the repaired file |
| FixDbc.RepairedPaths | tools/fix-dbc.py:109-127 | each path is numbered exactly 0, ..., n-1, and two nodes of one path keep their order |
| FixDbc.RepairKeepsTheRest | tools/fix-dbc.py:90-155 | the survivors are exactly the rows with a usable id, in order; the redirected cells are exactly their strings outside the block, and end at its final NUL; every byte outside these and the index column, the string block and the rest of the header do not change |
| FixDbc.RepairTwice | tools/fix-dbc.py:78-157 | a second repair does nothing and reports nothing |
| FixDbc.HealthyUntouched | tools/fix-dbc.py:78-157 | a healthy table is left as it is |
| FixDbc.RepairFailsExactly | tools/fix-dbc.py:137-142 | the repair gives up exactly when a surviving string is outside a block that has no final NUL |
| RepairFile.Repair | tools/fix-dbc.py:78-157 | the whole tool on the file's bytes, in place and rebuilt, writes what the specification says and reports the same repairs |
| RepairFile.RenumberPaths | tools/fix-dbc.py:109-124 | grouping, sorting and packing path by path, in any order, is the renumbering, and the reported paths are those with gaps |
| RepairFile.Rebuild | tools/fix-dbc.py:98-107 | the survivors copied row by row, with the new count in the header |
| RepairFile.FixStrings | tools/fix-dbc.py:129-151 | the bad cells collected first, the NUL checked, then each redirected |
| Sanitize.ScanExact | tools/sanitize-for-core.py:73-82 | the scan finds exactly the slots at or above the limit |
| Sanitize.RuleSilences | tools/sanitize-for-core.py:85-98 | after a rule its own scan is empty, unless it is a zero rule whose limit is 0 and there was something to find |
| Sanitize.RunSilences | tools/sanitize-for-core.py:124-152 | after all rules of a file no rule finds anything |
| Sanitize.SecondRunIsIdle | tools/sanitize-for-core.py:124-152 | a second run changes neither the file nor any journal |
| Sanitize.ZeroRulesCommute | tools/sanitize-for-core.py:46-52 | any two zero rules commute |
| Sanitize.ApartRulesScanAlike | tools/sanitize-for-core.py:46-52 | with separate fields, what the second rule records does not depend on the first |
| Sanitize.DropRule | tools/sanitize-for-core.py:91-98 | a drop keeps exactly the rows without hits, in order |
| Restoring.JournalRestoresExactly | tools/sanitize-for-core.py:146-151 | writing a zero rule's entries back restores the table if and only if no two rows with one id differ in a silenced slot |
| Restoring.JournalsRestore | tools/sanitize-for-core.py:124-152 | with distinct ids the journal that a run of any zero rules returns restores the original, put back rule by rule, the last first |
| Restoring.SecondRunRestores | tools/sanitize-for-core.py:124-152 | and so does the journal after a second run |
| Restoring.DropForgets | tools/sanitize-for-core.py:91-98 | of a dropped row nothing but the recorded values is left: files that differ there come out the same |
| SanitizeFile.ScanFile | tools/sanitize-for-core.py:73-82 | the nested scan loops |
| SanitizeFile.ZeroSlots | tools/sanitize-for-core.py:87-90 | the in-place zeroing |
| SanitizeFile.DropHits | tools/sanitize-for-core.py:91-98 | the rebuilt file of a drop rule |
| SanitizeFile.Sanitizer.SanitizeTable | tools/sanitize-for-core.py:124-156 | all rules over one file's bytes, with the journal updated in place, are the run of the specification |
| PackedGuid.TargetRoundTrip | server/world_server.py:3172-3196 | for every guid of 64 bits, a mask naming an object followed by the packed guid parses back to both, whatever follows; wider guids lose their high part |
| PackedGuid.CutTargetsNameNothing | server/world_server.py:3188-3195 | a block cut short anywhere names nothing, never part of a guid |
| PackedGuid.PackedApart | server/world_server.py:1571-1580 | two guids' packed forms differ, and neither starts the other |
| PackedGuid.PackGuid | server/world_server.py:1571-1580 | the packing loop |
| PackedGuid.ParseSpellTargets | server/world_server.py:3172-3196 | the parsing loop |
| UpdateMask.BlockRoundTrip | server/world_server.py:1589-1605 | reading mask bits in ascending order gives the field map back, whatever follows the block |
| UpdateMask.MaskIsFields | server/world_server.py:1598-1600 | the set bits are the field indices, as many as fields |
| UpdateMask.BlockSize | server/world_server.py:1601-1605 | the block is its word count, the mask, and one value a field |
| UpdateMask.BlocksApart | server/world_server.py:1589-1605 | no two field maps or sizes share a block, nor is one's the start of another's |
| UpdateMask.WordCount | server/world_server.py:1595-1597 | the fewest words that cover the highest field and the object's size |
| UpdateMask.BuildValuesBlock | server/world_server.py:1589-1605 | the mask filled in any order and the sorted values make that block; no field, or too many words, fails |
| CharEnum.ParseRoundTrip | server/coa_mode.py:381-471 | reading and printing character lists are inverse, in both directions |
| CharEnum.RewriteOfPrinted | server/coa_mode.py:381-471 | the rewrite of a printed list is the print of the projected list, and the list itself if some class fits no byte |
| CharEnum.RewriteOfCharList | server/world_server.py:1615-1637 | the bridge's rewrite of the world server's list is the list of the same characters with their own classes |
| CharEnum.OnlyClassesChange | server/coa_mode.py:381-471 | on any packet the length stays, and a changed byte is a record's class byte, and becomes the class the table has for that name |
| CharEnum.RewriteTwice | server/coa_mode.py:381-471 | rewriting again changes nothing |
| CharEnum.RewriteCharEnum | server/coa_mode.py:417-471 | the offset walk, with its change list, roster and looks; on any parse failure body untouched and maps empty |
| RealmList.RebuiltReadsBack | server/shim3799.py:166-188 | for a well-formed list the rebuilt one parses to the same realms in order: lock 0, offline bit clear and no other flag touched, exactly the non-empty addresses replaced, all else kept, outer size exact; too long a list becomes the fallback |
| RealmList.RebuiltTwiceExactly | server/shim3799.py:148-188 | rebuilding again changes nothing exactly when the capture has its header and its last realm's version bytes, or the fallback was used |
| RealmList.MinimalValid | server/shim3799.py:213-222 | the fallback list is well-formed and is its own rebuild |
| RealmList.RebuildLocalRealmList | server/shim3799.py:148-188 | the cursor loop, every short read ending in the fallback |

## Left out

- WorldEntry.EarlyExactly: excludes the mode that sends no block, where there is no container to wait for.
- SpellCache.NoDeadButtons: false once an activation is deferred, which SpellCache.DeferredButtons settles; supposes a client that binds only spells it knows, since `.bars` commands can bind anything.
- SpellCache.DeadExactlyAtLogin: supposes such a client too.
- Restoring.JournalsRestore: supposes that no rule that finds nothing has a note of an earlier run; such a note would put back what that run silenced.
- RealmList.RebuiltTwiceExactly: supposes a world address of less than 256 bytes without NUL.
- FixDbc.RepairHeals: excludes a table whose declared layout is wider than its records, where the tool reads and overwrites bytes of the next row or of the strings without noticing, and one whose string block runs past the file, where it fails only if some string is bad.
- RepairFile.Repair: excludes the same tables.
- HMAC-SHA1 key derivation, SHA-1, SHA-256 and zlib: library code. The cipher is keyed with an arbitrary key.
- Elliptic-curve associativity and the primality of 2^255 - 19: hypotheses of the agreement theorem.
- The bytes of SMSG_AURA_UPDATE and of the combat-log packets: the auras and pools report values, not their encodings.
- Bootstrap.ScriptFits: supposes at most as many entries as one upload can hold; a state file edited by hand can hold more.
- Despawning a dummy that still holds an aura: its ticks then fall to the player, as in the source; no claim is made about whose health they should move.
- World-entry reset of the aura table: the source does not clear it, and the aura results are about one world entry.
- The order in which dictionaries are iterated: path groups, mask fields and expired auras are taken in arbitrary order, and the results hold for each.
- An acknowledgement owed at logout, which the source does not clear: it is kept in the model, and the laws about acknowledgements hold with it.
- The inflated bytes of one handler share a variable name with the header decrypter in the source; the two are kept apart here.
- Bag items, build records, account data, quests and every other packet builder of the world server: straight-line packing.
- Parsing and rebuilding the authentication-session packet, and the bodies of the world server's known-entry and essence packets: fixed layouts, carried here as values.
- Dry runs, backups and console reports of the table tools, and reading limits from C++ headers: plumbing around the modelled functions.
- Trainer-list and spell-modifier rewriting in the bridge, and the core-to-client pump's other translations: independent of the results here.
- Floating-point positions: twelve opaque bytes of a character record.
- JSON stores, file locking, the database and logging: stores are maps, and writing them is immediate.
