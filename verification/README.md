# OAC: a Dafny model of the daemon's protocols, stores and formats

OAC is a per-device messaging daemon. This project models the parts of it whose correctness is
hardest to see from the code, and proves what each part promises, over all inputs, all runs or all
interleavings.

- **Barriers.** A connection's closure barrier (`connection.dfy`) and an adapter's shutdown barrier
  (`adapter_boundary.dfy`) are transition systems whose steps are the lock-protected sections.
  Invariants hold in every interleaving of any number of operations. What an operation reports is
  true in every interleaving, and what nothing holds up gets on (`connection_reports.dfy`,
  `adapter_reports.dfy`).
- **Issued pairings.** The bounded table of pairing windows (`pairing_windows.dfy`) is a class proved
  against functions on its value. It is shown to refine an unbounded ledger (`pairing_ledger.dfy`),
  and the promises to its callers are proved of every run (`pairing_runs.dfy`).
- **Stores.** Replacing a file (`atomic_file.dfy`), the trust store with its cached floor
  (`trust_store.dfy`), the sealed agreement file and the floored store on top of both
  (`agreement_store.dfy`). `seq_floor.dfy` follows the agreement count through failures, stops,
  restarts and the return of older files.
- **Formats.** Calendar days (`calendar.dfy`), timestamps (`timestamp.dfy`), octets and session ids
  (`octets.dfy`), base64url (`base64url.dfy`), the sealed state (`at_rest.dfy`), tokens, plain integers
  and versions (`ids.dfy`). JSON text is read and written with explicit stacks (`json_text.dfy`,
  `json.dfy`, `json_writer.dfy`), and the reader takes exactly the texts of the grammar
  (`json_grammar.dfy`, `json_soundness.dfy`). The canonical form, its writer and the signing input
  (`canonical.dfy`, `canonical_writer.dfy`, `canonical_form.dfy`), envelopes and what a receiver
  accepts (`envelope.dfy`, `envelope_receipt.dfy`), the trust file and what is taken for one
  (`trust_format.dfy`, `trust_reading.dfy`).
- **Daemon.** Pairing tasks, their count, slot and retry flag (`pairing_tasks.dfy`), bounded line
  framing (`framing.dfy`) and the rotating log (`log_file.dfy`).

Where the source changes state in place, the model is a class or a method with loops whose contract
ties the new state to a function of the old one. What the daemon does not decide is a parameter or a
nondeterministic choice: the clock, random octets, failures of the file system, how reads are cut,
which task runs next. The cryptographic library, the reader of timestamps inside the file formats and
the canonical spelling of numbers are function-valued parameters with a stated law, and where this
project models the real function, a lemma shows that it obeys the law (`Timestamp.ParseKeepsText`,
`TrustFormat.Base64IsLawful`, `TrustStore.FormatIsLawful`, `AgreementStore.SealedFileIsLawful`).

Four promises hold only under a condition, and the model states which:

- An accepted sealed state is written back as it was read exactly when the recorded highest sequence
  number covers every key. The decoder does not test this, only the daemon's start does, while a comment
  beside the writer's check says that a reader rejects such a key (`AtRest.EncodeOfDecode`,
  `AtRest.UncoveredIsRead`).
- A trust file whose floor is above the largest sequence number is written and then refused
  (`TrustFormat.DecodeOfEncode`, `TrustStore.ReadableExactly`). At the largest sequence number a save
  of a lower count lowers the floor, so a load can fall behind a count that was saved; the runs in which
  none does are exactly those whose saves there are of a count at least every saved one
  (`SeqFloor.LegalExactly`, `SeqFloor.FallsBehindAtTheMaximum`). No sequence number repeats in any run
  (`SeqFloor.SequenceNumbersNeverRepeat`).
- An append that succeeds is certain to leave the log within its bound exactly when, before the call, the
  file and the line fit in the bound or the tracked size and the line go past the hard cap
  (`LogFiles.BoundExactly`). Two kinds of failure bring about the contrary. A truncating open that fails
  lets go of the file, and the next line goes to it as it is (`LogFiles.GrowsPastTheCap`). A line write
  that fails leaves octets that the tracked size does not count, so no rotation comes due
  (`LogFiles.GrowsUncounted`). Either way the file can grow past every size.
- A sealed envelope that the receiver's limits and clock admit is received as it was sealed exactly when
  both parts of its version are at most 9999; a larger 16-bit part shows a text that the receiver calls
  malformed (`Envelopes.ReceiveOfSeal`, `Ids.VersionRoundTrip`).

## Model

| member | source | states |
|---|---|---|
| Connection.Closure.BeginClosing | core/src/connection.rs:40-45 | closure begins once and keeps its first instant; the pending count is not touched |
| Connection.Closure.BeginOperation | core/src/connection.rs:63-70 | an operation is admitted and counted exactly when closure has not begun |
| Connection.Closure.DropPending | core/src/connection.rs:72-79 | a dropped operation leaves the count |
| Connection.StepKeepsCounted | core/src/connection.rs:56-79 | every step keeps both counts equal to the operations that hold a place in them |
| Connection.ClosedStaysSilent | core/src/connection.rs:36-78 | once closed, no step sends a chunk, hands out an octet or raises the count |
| Connection.EveryInterleaving | core/src/connection.rs:136-166 | in every interleaving of reads, transfers and closes the counts are exact, closes waited, transfers and reads are exact |
| Connection.NothingMovesAfterClosure | core/src/connection.rs:36-78 | after closure has begun no chunk is sent and no octet delivered, ever |
| Connection.NothingPendingAfterClose | core/src/connection.rs:56-62 | once any close has returned, the count is zero and no operation is live, then and later |
| Connection.ReadsHandOutTheFront | core/src/connection.rs:136-166 | all reads together hand out a prefix of what arrived, each what it returned; nothing only at the end, at closure or for an empty buffer |
| Connection.LiveOperationSettles | core/src/connection.rs:244-277 | after closure each run of a live operation, a stalled one included, brings it nearer to settled |
| Connection.OthersLeaveIt | core/src/connection.rs:244-277 | no step but its own moves an operation, whatever the peer or another operation does |
| Connection.SettlesByTurns | core/src/connection.rs:244-277 | in every schedule after closure an operation is settled or nearer to it by each turn it had |
| Connection.CloseIsNotHeldUp | core/src/connection.rs:56-62 | in every schedule, once each operation live at closure has had four turns nothing is pending, and a waiting close returns at its next turn |
| ConnectionReports.TransferReportsExactly | core/src/connection.rs:244-277 | in every interleaving a transfer reports completion of the whole buffer, or closure that has begun, or failure of a relay that has ended, and the relay holds exactly the part it reports |
| ConnectionReports.EmptyReads | core/src/connection.rs:136-166 | a read that asked for something returns nothing only at closure, or when the peer has ended and all that arrived was handed out |
| ConnectionReports.SendsExactly | core/src/connection.rs:244-277 | a chunk is sent exactly at a turn of a transfer on an open connection with its relay, neither paused nor past its pause: the next 8192 octets or what is left |
| ConnectionReports.TakesExactly | core/src/connection.rs:136-166 | octets are handed out exactly at a turn of a read on an open connection that holds some: the first ones, as many as asked for |
| ConnectionReports.ClosureBegins | core/src/connection.rs:40-45 | closure begins at the first close and keeps that instant |
| ConnectionReports.ClosedAtStays | core/src/connection.rs:40-48 | the instant of closure never changes in an interleaving |
| ConnectionReports.TransferCompletes | core/src/connection.rs:244-277 | a transfer that nothing holds up completes with the whole buffer in as many turns as it has chunks and four more |
| ConnectionReports.TransferPauses | core/src/connection.rs:199-277 | a transfer that is to pause stops at the first whole chunk at or past its pause, and stays there |
| ConnectionReports.ReadGetsOn | core/src/connection.rs:136-166 | on an open connection a read gets the first piece that waits, in a number of turns bounded by the chunks in the channel |
| AdapterBoundary.StopCancels | core/src/local_call.rs:145-178 | a call neither committed nor final is cancelled once the adapter stopped |
| AdapterBoundary.CancellationIsSticky | core/src/local_call.rs:145-178 | the first terminal outcome is the answer for good |
| AdapterBoundary.EarliestTransitionWins | core/src/local_call.rs:145-178 | the outcome is the transition that came first among stop, closure and deadline |
| AdapterBoundary.StoppedStartsNothing | core/src/adapter_boundary.rs:53-86 | after the stop no body starts, not even for a callback descheduled between its check and the read lock |
| AdapterBoundary.EveryInterleaving | core/src/adapter_boundary.rs:53-86 | the lock, the calls and the drained barrier stay consistent in every interleaving |
| AdapterBoundary.NoCallbackAfterShutdown | core/src/adapter_boundary.rs:167-171 | when a shutdown has returned no callback body runs, then or ever after |
| AdapterBoundary.WriteLockExcludesCallbacks | core/src/adapter_boundary.rs:53-86 | while a shutdown holds the write lock no callback is inside the barrier |
| AdapterBoundary.PendingAlwaysExact | core/src/local_call.rs:73-92 | the admission count is the number of admitted calls not dropped, and at most 64 |
| AdapterReports.RanWasRunning | core/src/adapter_boundary.rs:53-86 | in every interleaving a callback that ends as run was running earlier |
| AdapterReports.CheckDecides | core/src/adapter_boundary.rs:53-86 | a callback goes on from either check exactly when nothing has cancelled it: to the lock, or to its body |
| AdapterReports.StartsAtTheCheck | core/src/adapter_boundary.rs:53-86 | a body starts at the check under the lock and nowhere else, and only when nothing has cancelled it |
| AdapterReports.InvokeAdmits | core/src/local_call.rs:73-92 | a call is admitted exactly when fewer than 64 are, and otherwise has timed out from the start |
| AdapterReports.CallbackRuns | core/src/adapter_boundary.rs:53-86 | a callback that nothing cancels, with no writer at the lock, runs its body after four steps |
| AdapterReports.RefusalExplained | core/src/local_call.rs:145-178 | in every schedule a refusal comes from one of the callback's own checks, for a stop, a closure, a deadline or 64 pending calls that held then |
| AdapterReports.StopIsFirst | core/src/local_call.rs:54-61 | the adapter stops at the first stop and keeps that instant |
| AdapterReports.ShutdownReturns | core/src/adapter_boundary.rs:167-171 | a shutdown returns as soon as no callback is inside the barrier and no other shutdown holds the lock |
| PairingWindows.PairingTable.constructor | core/src/issued_pairing.rs:100-107 | a table is empty and its window is cut to 60 seconds |
| PairingWindows.PairingTable.IssueValue | core/src/issued_pairing.rs:123-156 | the method with its eviction loop is the function `Issue` on the table's value |
| PairingWindows.PairingTable.RevealValue | core/src/issued_pairing.rs:165-201 | the search and the branches are the function `Reveal` |
| PairingWindows.PairingTable.PairedOn | core/src/issued_pairing.rs:205-209 | a paired reveal starts the attachment's count again and changes nothing else |
| PairingWindows.PairingTable.ForgetAttachment | core/src/issued_pairing.rs:212-218 | forgetting drops the attachment and exactly its values |
| PairingWindows.FreshValueInjective | core/src/issued_pairing.rs:228-236 | distinct random octets give distinct values |
| PairingLedger.IssueKeepsInv | core/src/issued_pairing.rs:123-156 | issuing keeps the two maps mutually inverse, only the newest record live, and the table a refinement of the ledger; both give one answer |
| PairingLedger.RevealAnswers | core/src/issued_pairing.rs:165-201 | table and ledger answer a reveal alike, but for a dropped value that the table calls unknown |
| PairingLedger.RevealKeepsInv | core/src/issued_pairing.rs:165-201 | revealing keeps every invariant of the table and the refinement |
| PairingLedger.ForgetKeepsLinked | core/src/issued_pairing.rs:212-218 | forgetting keeps the table and the ledger linked |
| PairingLedger.EveryRunKeepsInv | core/src/issued_pairing.rs:97-218 | every run keeps the maps mutually inverse, one live record per attachment, and the refinement |
| PairingRuns.BoundedHistoryChangesNoPairing | core/src/issued_pairing.rs:43-201 | in every run the bounded table gives the unbounded ledger's answers to every issue and reveal, but for dropped ended or used values |
| PairingRuns.FreshAtMostOnce | core/src/issued_pairing.rs:165-201 | no value is fresh twice in a run |
| PairingRuns.FreshOnlyInItsWindow | core/src/issued_pairing.rs:113-201 | a fresh reveal is of a window opened on that very attachment less than 60 seconds before |
| PairingRuns.CountIsExact | core/src/issued_pairing.rs:123-156 | the quota counter is the number of windows opened since the count was last started |
| PairingRuns.AtMostThreeWindows | core/src/issued_pairing.rs:123-156 | at most three windows open on an attachment between two calls that start its count again |
| PairingRuns.OneLiveWindow | core/src/issued_pairing.rs:113-121 | only the newest record of an attachment can be live |
| Calendar.CivilOfDays | core/src/ids.rs:178-215 | every valid date comes back from its day number |
| Calendar.DaysOfCivil | core/src/ids.rs:178-215 | the date of every integer day number is valid, and its day number is that number |
| Calendar.DayNumberOfNext | core/src/ids.rs:178-186 | the next calendar day has the next number, and 1970-01-01 has number 0 |
| Calendar.DaysKeepOrder | core/src/ids.rs:178-186 | day numbers are in the order of the dates |
| Calendar.YearsSpan | core/src/ids.rs:187-198 | the day numbers of a span of years are one interval |
| Timestamp.ParseOfWrite | core/src/ids.rs:221-303 | the text written for valid fields, with a fraction of up to nine digits or none, parses back to their instant |
| Timestamp.FromUnixNanosExact | core/src/ids.rs:288-303 | succeeds exactly for instants of years 0000 to 9999, and its text parses to the same stamp |
| Timestamp.FromUnixMillisAgrees | core/src/ids.rs:268-287 | the millisecond constructor names the instant the nanosecond one names |
| Timestamp.ParseExactly | core/src/ids.rs:221-266 | a text is accepted exactly when it spells valid fields in the one form, with or without a fraction, and its instant is the one they name |
| Timestamp.ParseKeepsOrder | core/src/ids.rs:221-266 | texts parse in strictly the order of the date, time and fraction they spell, both ways |
| Timestamp.InstantNamesFields | core/src/ids.rs:221-266 | one instant has one set of fields |
| Timestamp.WrittenAgain | core/src/ids.rs:221-303 | an accepted text is written again as it was exactly when it had nine fraction digits |
| Timestamp.ParseKeepsText | core/src/ids.rs:221-266 | parsing keeps the spelling and takes short ASCII texts only |
| Octets.FromBeOfToBe | core/src/at_rest.rs:353-372 | big-endian octets of a number read back as that number |
| Octets.ToBeOfFromBe | core/src/at_rest.rs:386-390 | octets are the big-endian octets of the number they read as |
| Octets.SymbolsAreTheAlphabet | core/src/ids.rs:72-78 | the symbols are exactly the characters of the alphabet, each at its value |
| Octets.OctetsOfId | core/src/ids.rs:92-100 | sixteen octets have a valid session id that stands for exactly those octets |
| Octets.IdOfOctets | core/src/ids.rs:75-100 | every valid session id is the id of the octets it stands for |
| Base64Url.EncodeText | core/src/base64url.rs:13-25 | the chunk loop writes the specified encoding |
| Base64Url.DecodeText | cli/src/device_pairing.rs:184-206 | the variable-length loop is the function `Decode` |
| Base64Url.DecodeArray | core/src/base64url.rs:40-64 | the fixed-size loop never writes outside its array and is the function `DecodeExact` |
| Base64Url.DecodeOfEncode | core/src/base64url.rs:13-64 | both decoders undo the encoder on every octet string |
| Base64Url.EncodeOfDecode | cli/src/device_pairing.rs:158-206 | every accepted text is the encoding of what it decodes to |
| Base64Url.DecodersAgree | cli/src/device_pairing.rs:184-206 | a text is accepted as n octets by both decoders or by neither |
| AtRest.EncodedLen | core/src/at_rest.rs:334-351 | the length check refuses exactly what the writer refuses, and its number is exact and within a file |
| AtRest.EncodeBuffer | core/src/at_rest.rs:353-372 | the filled buffer is the specified layout, of exactly the reserved length |
| AtRest.Reader.Take | core/src/at_rest.rs:377-384 | the cursor gives the next octets and never passes the end |
| AtRest.Reader.TakeKeys | core/src/at_rest.rs:409-430 | the loop over keys reads the specified run of keys |
| AtRest.DecodeBuffer | core/src/at_rest.rs:393-435 | the reader is the function `DecodeState` |
| AtRest.DecodeOfEncode | core/src/at_rest.rs:334-435 | a state is written exactly when it has at most 1024 keys, all covered, and is then read back |
| AtRest.EncodeOfDecode | core/src/at_rest.rs:334-435 | an accepted plaintext is written again as it was exactly when the highest number covers every key, else refused as corrupt |
| AtRest.UncoveredIsRead | core/src/at_rest.rs:393-435 | a plaintext the reader accepts and the writer would not write |
| AtRest.OpensExactly | core/src/at_rest.rs:283-319 | a file opens to a state exactly when it is this device's frame around a plaintext that opens and decodes to it |
| AtRest.OpenOfSeal | core/src/at_rest.rs:218-281 | a sealed file is within its bounds and opens to the state that was sealed |
| AtRest.OpensForOneDevice | core/src/at_rest.rs:283-319 | a file one device opens is refused by every other as not its own |
| AtRest.ChangedFront | core/src/at_rest.rs:283-300 | a file that opens, with any one octet of its front changed, is refused as malformed, unsupported or not this device's, by the part that octet is in |
| AtRest.WrongLength | core/src/at_rest.rs:289-294 | a file cut below its smallest size is malformed, and one past its largest is refused for that |
| AtomicFile.TempNamesExactly | cli/src/agreement_file.rs:378-383 | the test holds of exactly the temporary names of one file |
| AtomicFile.HexDigitExactly | cli/src/agreement_file.rs:378-383 | the digits of a temporary name are hexadecimal, in either case |
| AtomicFile.TempNamesApart | cli/src/agreement_file.rs:378-383 | a temporary name belongs to one file |
| AtomicFile.StoreNamesAreKept | cli/src/trust_store.rs:647-652 | no store's own file has a name that any store takes for a temporary one |
| AtomicFile.RandomNamesMatch | cli/src/trust_store.rs:637-645 | every generated name is one of the store's temporary names |
| AtomicFile.Store.Sweep | cli/src/trust_store.rs:404-419 | the sweep removes none but the store's own temporary files, and all of those unless a listing or a removal fails |
| AtomicFile.Store.CreateTemp | cli/src/trust_store.rs:421-432 | a taken name is skipped and its file never touched; it gives up only when a creation failed or every name it tried was taken |
| AtomicFile.Store.Stage | cli/src/trust_store.rs:592-611 | the new bytes are whole and synced in one temporary file, or that file is gone again |
| AtomicFile.Store.Save | cli/src/agreement_file.rs:261-309 | an error leaves the target's bytes, success leaves the new ones, every state passed through has one or the other whole, and nothing else changes but own temporary files; it fails only when a step failed or no name was free, and leaves no temporary file unless a removal failed |
| AtomicFile.OtherStoresUntouched | cli/src/agreement_file.rs:194-211 | a save changes no other store's file or temporary files, in no state |
| AtomicFile.PowerLoss | cli/src/trust_store.rs:577-632 | a power loss after any step leaves what could be found before, or the new bytes whole |
| AtomicFile.DurableOnceSynced | cli/src/trust_store.rs:618-632 | once the directory is synced a power loss cannot take the new bytes back |
| TrustFormat.PeerRead | cli/src/trust_store.rs:949-957 | a grant's peer side reads back from what was encoded |
| TrustFormat.LocalRead | cli/src/trust_store.rs:959-978 | a local side of each kind reads back |
| TrustFormat.GrantRead | cli/src/trust_store.rs:980-996 | a grant of either direction reads back |
| TrustFormat.RecordRead | cli/src/trust_store.rs:998-1035 | a paired record reads back, with or without confirmed values |
| TrustFormat.StatementRead | cli/src/trust_store.rs:1037-1052 | a held statement reads back |
| TrustFormat.FloorRead | cli/src/trust_store.rs:1080-1095 | a floor reads back exactly when it is in range |
| TrustFormat.DecodeOfEncode | cli/src/trust_store.rs:811-1114 | every proper file is encoded, and its text decodes to the file with its lists in order exactly when the floor is in range |
| TrustFormat.NormalTwice | cli/src/trust_store.rs:825-870 | a file whose lists are in order is written as it is |
| TrustFormat.EncodeForgetsOrder | cli/src/trust_store.rs:825-870 | files of distinct key ids that differ only in the order of the sorted lists have one text |
| TrustFormat.DecodedIsProper | cli/src/trust_store.rs:1063-1114 | whatever is decoded can be encoded again, and its floor is in range |
| TrustFormat.Base64IsLawful | core/src/base64url.rs:13-64 | base64url is a key text as the format needs it |
| TrustReading.PeerExactly | cli/src/trust_store.rs:949-957 | an object is a peer side exactly when it has a key id, a session id or none, and no other member |
| TrustReading.LocalExactly | cli/src/trust_store.rs:959-978 | an object is a local side exactly when its kind has just the members of that kind |
| TrustReading.GrantExactly | cli/src/trust_store.rs:980-996 | an object is a grant exactly when its direction says which of its two sides is the peer's |
| TrustReading.RecordExactly | cli/src/trust_store.rs:998-1035 | an object is a paired record exactly when its members, and no others, say it, the key id being that of the public key |
| TrustReading.StatementExactly | cli/src/trust_store.rs:1037-1052 | an object is a held statement exactly when its four members say it |
| TrustReading.FloorExactly | cli/src/trust_store.rs:1080-1095 | a floor member is missing, or an object of a key id and a count in range in its one spelling |
| TrustReading.DecodeExactly | cli/src/trust_store.rs:1054-1114 | a text is taken for a trust file exactly when it is a version 1 object whose members, and no others, say the file, list by list |
| TrustReading.NormalInOrder | cli/src/trust_store.rs:825-870 | what is written has its records and statements in the order of their key ids, its relay sessions in order and each once, and all else as it was |
| TrustReading.BuiltInOrder | cli/src/trust_store.rs:713-724 | the members of every object written are in the order of their names |
| TrustStore.FormatIsLawful | cli/src/trust_store.rs:557-585 | the trust file format is a codec as the store needs it |
| TrustStore.FloorRises | cli/src/trust_store.rs:508-522 | for one key the recorded floor is the larger count, except from the largest sequence number |
| TrustStore.ReadableExactly | cli/src/trust_store.rs:577-585 | a written file can be read back exactly when its floor is in range |
| TrustStore.FileTrustStore.ReadFile | cli/src/trust_store.rs:557-574 | what is read is what the file holds; an unreadable file is an error, and a readable one only when a step failed |
| TrustStore.FileTrustStore.WriteFile | cli/src/trust_store.rs:577-632 | an error leaves what the file held, success leaves what was written, whole in every state between; it fails only when hindered or when the file has no text within 1 MiB |
| TrustStore.FileTrustStore.KnownFloor | cli/src/trust_store.rs:549-554 | the known floor is the one the file holds; it is unknown only when the read failed or the file cannot be read |
| TrustStore.FileTrustStore.Load | cli/src/trust_store.rs:444-462 | a load gives the file's snapshot and makes the cache agree with it; it fails only when a step failed or the file cannot be read |
| TrustStore.FileTrustStore.Save | cli/src/trust_store.rs:464-476 | a snapshot save carries the held floor through and changes it never, a stop after any step leaves the old file or the new one, and every failure has its cause |
| TrustStore.FileTrustStore.NoteDeviceKey | cli/src/trust_store.rs:478-484 | notes the device key, and tells of another key that the file recorded at the last load |
| TrustStore.FileTrustStore.AgreementSeqFloor | cli/src/trust_store.rs:486-496 | the floor of one key id; another key's floor is not given |
| TrustStore.FileTrustStore.RecordAgreementSeqFloor | cli/src/trust_store.rs:498-544 | recording raises the floor as promised, keeps the snapshot but for the order of its lists, and keeps the device key unless one was noted; a floor already there writes nothing; a stop after any step leaves the old floor or the raised one; a count above the largest leaves the file unreadable |
| AgreementStore.SealedFileIsLawful | core/src/at_rest.rs:218-319 | the sealed file is a sealing as the store needs it |
| AgreementStore.AgreementFileStore.Load | cli/src/agreement_file.rs:232-259 | a load gives what the file holds, a missing file being a first start; it is corrupt exactly when it does not open, and failed exactly when a step did |
| AgreementStore.AgreementFileStore.Save | cli/src/agreement_file.rs:261-309 | an error leaves the old state, success the new one, and a stop after any step one or the other; it fails only when hindered or when the state cannot be sealed |
| AgreementStore.FlooredAgreementStore.Load | cli/src/seq_floor.rs:105-134 | the load is `Merge` of the file and the floor of this key, whenever both can be read |
| AgreementStore.FlooredAgreementStore.RecordFloor | cli/src/seq_floor.rs:136-146 | the floor becomes the raised one or stays, through every state between, and the agreement file is untouched |
| AgreementStore.FlooredAgreementStore.Save | cli/src/seq_floor.rs:136-146 | a stop after any step of the two-file save leaves both files as they were, the floor raised, or the floor raised and the new state; success means the last |
| AgreementStore.FlooredAgreementStore.EnsureFloor | cli/src/seq_floor.rs:87-94 | afterwards a readable floor is at least the given count, one that was is left alone, and the agreement file is untouched |
| AgreementStore.SavedIsSave | cli/src/seq_floor.rs:136-146 | the file states of the two stores are the ones the runs of `SeqFloor` pass through |
| SeqFloor.KeysOnlyFromAboveTheFloor | cli/src/seq_floor.rs:105-134 | keys are given only from a file at or above the floor |
| SeqFloor.LoadedCount | cli/src/seq_floor.rs:105-134 | a loaded count is the larger of the two |
| SeqFloor.RaiseIsRaised | cli/src/trust_store.rs:508-522 | the count of the run is what the trust store records for the key |
| SeqFloor.RaiseKeepsExactly | cli/src/trust_store.rs:508-522 | recording keeps the floor at least every saved count exactly when the floor is below the largest sequence number or the count is at least every saved one |
| SeqFloor.LoadsCoverExactly | cli/src/seq_floor.rs:105-134 | whatever agreement file is found, loads give at least every saved count exactly when the floor does |
| SeqFloor.StepKeepsExactly | core/src/sealing.rs:1135-1240 | a step keeps loads from falling behind exactly when the floor is below the largest sequence number or the count it saves is at least every saved one; else even the file just written falls behind |
| SeqFloor.LegalExactly | cli/src/seq_floor.rs:87-146 | of all runs the daemon can make, those in which no load ever falls behind are exactly those whose every save meets that condition |
| SeqFloor.EveryRun | cli/src/seq_floor.rs:87-146 | in every run of starts, replacements, erasures, failures between the files, stops and returned files, the floor covers every saved and issued count |
| SeqFloor.LoadsNeverFallBehind | cli/src/seq_floor.rs:105-146 | every successful load gives at least every count saved since the count last restarted |
| SeqFloor.SequenceNumbersNeverRepeat | core/src/sealing.rs:1135-1240 | in every run the daemon can make issued sequence numbers strictly increase, so none repeats |
| SeqFloor.RestartOnlyWhenExhausted | core/src/sealing.rs:1200-1214 | with a floor, the count restarts only when the largest sequence number is reached |
| SeqFloor.EnsuredFloor | cli/src/seq_floor.rs:87-94 | after a start ensured its floor, losing the agreement file loses no count |
| SeqFloor.ReadsBackExactly | core/src/sealing.rs:1107-1133 | a saved state reads back exactly when the floor is not above its count or is at the largest sequence number |
| SeqFloor.ReplaceIssues | core/src/sealing.rs:1224-1234 | a replacement that reads back issues the next number and holds it |
| SeqFloor.ExhaustedReplacesNothing | core/src/sealing.rs:1151-1157 | at the largest sequence number nothing is replaced |
| SeqFloor.StartIssues | core/src/sealing.rs:1135-1149 | a first start issues number 0, one without keys the number after the count it loads |
| SeqFloor.StartHolds | core/src/sealing.rs:1135-1149 | a start holds the keys it finds exactly when their count is known and covers each |
| SeqFloor.RestartIssues | core/src/sealing.rs:1200-1214 | a restart issues number 0, whatever was counted before |
| SeqFloor.IssuedWithinMax | core/src/sealing.rs:1151-1157 | in every run no issued number is above the largest sequence number |
| SeqFloor.FallsBehindAtTheMaximum | cli/src/trust_store.rs:508-522 | a run at the largest sequence number after which a load falls behind a saved count |
| PairingTasks.DevicePairing.Begin | cli/src/device_pairing.rs:915-922 | the locked section is the step `Begun` of the interleavings |
| PairingTasks.DevicePairing.DropActive | cli/src/device_pairing.rs:818-830 | dropping a place is the step `Dropped` of the interleavings, and tells when none is left |
| PairingTasks.DevicePairing.TakeSlot | cli/src/device_pairing.rs:924-929 | the compare-and-exchange is the step `SlotTaken` of the interleavings |
| PairingTasks.DevicePairing.DropSlot | cli/src/device_pairing.rs:835-839 | dropping the slot is the step `SlotFreed` of the interleavings |
| PairingTasks.DevicePairing.BeginClose | cli/src/device_pairing.rs:934-938 | the first section of a close is the step `Closed` of the interleavings |
| PairingTasks.DevicePairing.ClearRetrying | cli/src/device_pairing.rs:1205-1207 | clearing the flag is the step `FlagCleared` of the interleavings |
| PairingTasks.DevicePairing.SwapRetrying | cli/src/device_pairing.rs:1166-1169 | the swap is the step `FlagTaken` of the interleavings |
| PairingTasks.EveryInterleaving | cli/src/device_pairing.rs:915-1214 | the count, the slot and the flag are exact, what is unsaved is watched, and closes waited, in every interleaving |
| PairingTasks.RunningTasksCounted | cli/src/device_pairing.rs:964-969 | the count of running tasks is exact |
| PairingTasks.NothingRunsAfterClose | cli/src/device_pairing.rs:934-952 | after a close returned no pairing, unpair or retry task runs or begins, ever |
| PairingTasks.OneSlotOneOwner | cli/src/device_pairing.rs:833-929 | at most one task holds the pairing slot and at most one owns the retry flag |
| PairingTasks.UnsavedIsWatched | cli/src/device_pairing.rs:1166-1214 | until the daemon closes, an unsaved removal has an owner of the flag or a task that will take it |
| PairingTasks.TaskEnds | cli/src/device_pairing.rs:1166-1214 | once the daemon closes and has signalled the stop, every running task ends within seven turns of its own, whatever fails |
| PairingTasks.CloseReturns | cli/src/device_pairing.rs:934-952 | a close that waits returns at its next turn once no task runs |
| Framing.LinesUnique | cli/src/control.rs:189-221 | a stream is lines and a tail in one way only |
| Framing.ReadRequest | cli/src/control.rs:189-221 | the request read is a function of the bytes sent, whatever the cuts, and no byte is lost |
| Framing.LineReader.Read | cli/src/device_pairing.rs:447-472 | each line read is the next line of the bytes still to come, and the rest is kept |
| Framing.ReadConnection | cli/src/control.rs:332-371 | request and lines of a connection are a function of the bytes sent |
| Framing.FramedLines | cli/src/device_pairing.rs:434-472 | the lines read are the stream's own up to the first over its bound; every byte is in them or unread |
| Framing.ConnectionReadsTheLines | cli/src/control.rs:189-221 | the first line is refused exactly over 1024 bytes, and the others follow in order, each once |
| Common.FewestOctets | cli/src/logfile.rs:258-276 | the octets counted for a character are the fewest that UTF-8 has room for it in |
| LogFiles.Render | cli/src/logfile.rs:258-276 | the loop renders the specified line |
| LogFiles.RenderedIsOneLine | cli/src/logfile.rs:258-276 | one line with one newline at its end, the longest prefix of the text within 4096 octets |
| LogFiles.AppendKeepsBound | cli/src/logfile.rs:178-203 | a call that succeeds on a held file leaves it within its bound but for what failed writes left; on a lost file it adds the line to the file as it is; a failed call adds no more than its own texts |
| LogFiles.EveryRunExplained | cli/src/logfile.rs:178-254 | after every call of every run, whatever fails, the file is within its bound and the excess that failed calls and the calls straight after them explain; while every call succeeds it is within the bound of its newest line |
| LogFiles.BoundExactly | cli/src/logfile.rs:178-211 | a call that succeeds is certain to leave the file within its bound exactly when file and line fit in it or the tracked size and the line go past the hard cap; so it is of a log that holds its file and tracks all of it |
| LogFiles.GrowsUncounted | cli/src/logfile.rs:205-211 | while line writes fail the held file grows past every size with no rotation due, and a call without failure then succeeds on it |
| LogFiles.GrowsPastTheCap | cli/src/logfile.rs:216-234 | while renames and truncating opens fail, every second call succeeds and adds its line, so the file grows past every size |
| LogFiles.LogFile.WriteLine | cli/src/logfile.rs:205-211 | a write adds the line and its size; one that fails leaves a part of it |
| LogFiles.LogFile.Restart | cli/src/logfile.rs:216-234 | the current file begins again with the marker, and the previous file is untouched; a failure leaves it closed as it was or begun with a part of the marker |
| LogFiles.LogFile.Rotate | cli/src/logfile.rs:240-254 | a rotation makes the current file the previous one; a failed rename changes nothing |
| LogFiles.LogFile.Append | cli/src/logfile.rs:178-203 | size and success are `AfterAppend`, the file ends with the line, a failed call adds at most one part of its texts, and the previous file changes only by a rotation |
| LogFiles.LogFile.AppendAll | cli/src/logfile.rs:178-203 | any run of appends is a run of `AfterAppend`, and every line whose call succeeded is written once, in order |
| JsonText.IjsonExactly | core/src/json.rs:106-116 | a string is allowed exactly when it has none of the 66 noncharacters of Unicode |
| JsonText.StringRoundTrip | core/src/json.rs:347-406 | a quoted string reads back, whatever follows it |
| JsonText.NumberRoundTrip | core/src/json.rs:299-329 | a number reads back as spelled before anything that may follow a value |
| JsonText.ParsedNumber | core/src/json.rs:299-329 | what is read as a number is exactly one |
| JsonGrammar.NumberExactly | core/src/json.rs:299-329 | the numbers read are exactly those of section 6 of RFC 8259 |
| JsonGrammar.SpelledIsRead | core/src/json.rs:122-264 | every text that spells a tree by the grammar, with any space and any escapes, is read as it, or refused for the first noncharacter or repeated name in it |
| JsonSoundness.ReadIsSpelled | core/src/json.rs:122-264 | whatever is read is spelled by the whole text |
| JsonSoundness.ParseExactly | core/src/json.rs:122-264 | a text is read as a tree exactly when it spells the tree by the grammar of RFC 8259 and the tree is one RFC 7493 allows |
| JsonSoundness.EscapeIsShortest | core/src/json.rs:747-763 | a character is written as the shortest of its spellings, in lower case |
| JsonSoundness.CompactIsShortest | core/src/json.rs:708-722 | the compact text of a tree is the shortest that is read as it |
| Json.ParseOfPrint | core/src/json.rs:122-264 | the text of every well-formed tree, of any depth, reads back as that tree |
| Json.ParsedIsWellFormed | core/src/json.rs:122-264 | whatever is read is well formed: names distinct, strings without noncharacters, numbers in the grammar |
| Json.ParseText | core/src/json.rs:173-264 | the loops with their explicit stack are the function `Parse` |
| JsonWriter.Events.Next | core/src/json.rs:528-568 | the iterator gives the events of the depth-first walk, one at a time |
| JsonWriter.ToCompact | core/src/json.rs:574-722 | the writer with its stack of levels writes what the recursive printer does |
| Canonical.Utf16Injective | core/src/json.rs:540-545 | texts with the same UTF-16 code units are the same |
| Canonical.CanonicalDecides | core/src/canonical.rs:111-115 | two values have one canonical text exactly when they are equal but for member order and number spelling |
| CanonicalForm.UnitsAreUtf16 | core/src/json.rs:540-545 | a character's code units are itself or its surrogate pair |
| CanonicalForm.OneCanonicalTree | core/src/canonical.rs:86-115 | a value respelled with the members of every object in strictly rising UTF-16 order is one tree, or none exactly when a number has no canonical spelling |
| CanonicalForm.CanonicalExactly | core/src/canonical.rs:111-115 | the canonical text is the compact text of that one tree |
| CanonicalForm.SignedMembers | core/src/canonical.rs:126-134 | every member but `security` is signed as it is, `security` without its signature, and a `security` that is no object is refused |
| CanonicalForm.InputBegins | core/src/canonical.rs:135-149 | a signing input is the name of its domain, a zero octet and the canonical text of what is signed |
| Canonical.SigningInputDecides | core/src/canonical.rs:126-149 | two signing inputs are equal exactly when the domains are and the signed parts are the same value |
| Canonical.SignatureLeftOut | core/src/canonical.rs:126-134 | the signature is no part of what is signed |
| CanonicalWriter.SortedEvents.Next | core/src/json.rs:528-568 | the sorted walk gives the events of the canonical tree one at a time, numbers as they were spelled |
| CanonicalWriter.ToCanonical | core/src/canonical.rs:86-115 | the writer over the sorted walk writes the canonical text, the one `CanonicalForm.CanonicalExactly` describes, or nothing exactly when a number is beyond the range |
| Ids.PlainIntegers | core/src/json.rs:418-427 | the plain integers within bounds are exactly the decimal spellings of the numbers within them |
| Ids.TokenExactly | core/src/ids.rs:48-52 | a token is one to 128 letters, digits, points, underscores, colons and hyphens |
| Ids.KeyIdExactly | core/src/ids.rs:115-124 | a key id is the lower-case hexadecimal text of 32 octets |
| Ids.VersionRoundTrip | core/src/ids.rs:134-159 | a version's text is read back exactly when both parts are at most 9999 |
| Ids.VersionText | core/src/ids.rs:134-152 | every accepted version text is the one its version shows |
| Envelopes.WireMembers | core/src/envelope.rs:791-821 | the built object has each required member with its value |
| Envelopes.WireClean | core/src/envelope.rs:791-835 | the built object is well-formed JSON without null |
| Envelopes.StructureRead | core/src/envelope.rs:579-688 | the members of a sealed draft pass every check and give the draft back |
| Envelopes.CollectParts | core/src/envelope.rs:622-651 | the loop over parts is the function `ReadParts`, with its early exits |
| Envelopes.ReceiveOfSeal | core/src/envelope.rs:533-883 | what becomes of every sealed draft at every receiver, in the order of the checks: too large, a version part over 9999, a major version or part type it does not have, out of time, or received identical |
| EnvelopeReceipt.ContainsNull | core/src/json.rs:700-703 | the walk finds a `null` exactly when the tree holds one |
| EnvelopeReceipt.StructureExactly | core/src/envelope.rs:579-688 | members make an envelope exactly when each says what the envelope says and no `null` is anywhere |
| EnvelopeReceipt.StructureRefuses | core/src/envelope.rs:579-688 | members are refused only under a requirement that they break |
| EnvelopeReceipt.ReceiveExactly | core/src/envelope.rs:533-688 | a text is accepted exactly when it is within the size, says the envelope, has a version and part types the receiver has, and its time is not over |
| EnvelopeReceipt.ReceiveRefuses | core/src/envelope.rs:533-577 | every refusal is for something that holds of the text, the limits or the clock |
| Envelopes.SealedSigningInput | core/src/envelope.rs:837-883 | the signing input of the sealed envelope is the draft's |
| Envelopes.SigningInputFixesContent | core/src/envelope.rs:465-475 | received envelopes have one signing input exactly when all their members but the signature are the same value |

## Left out

- HPKE, Ed25519, SHA-256 and random sources are parameters with a stated law; their own correctness is not modelled.
- File modes, access lists, links and peer authentication: reduced to checks that may refuse.
- UTF-8 decoding and encoding: JSON text is a sequence of Unicode scalar values, its size is counted in octets, and the trust store takes any invertible encoding of text.
- IEEE 754 doubles: the canonical spelling of a number is a parameter that gives a JSON number or none.
- Error texts and offsets: error kinds are kept, their messages are not.
- Task panics, timeouts and deadlines: a pairing task ends, a read is cut or a sleep elapses by choice, and nothing is claimed about when.
- The commit and reveal messages of device pairing, blobs and their canonical check, and the replies of the control socket.
- Sealing of frames, admission of peers' agreement statements and the authorization engine.
- Session announcements, delivery states, receipts, presence, the relay and its transport.
- Command-line verbs, status, diagnostics, start-up and handover.
