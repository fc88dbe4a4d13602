# MOSS in Dafny

MOSS is a server for an online game. This project models the parts of it in which a byte, a
message or a point can get lost: formats that must be read back as they were written, messages
that may leave the server in slices of any size, and state machines that run for a long time
against clients, timers and a backend that answer whenever they like. It proves what those parts
keep.

| files | what they model |
|---|---|
| `Wire`, `PlKeys` | integers, strings and object keys as bytes; writing into a caller's buffer |
| `SdlModel`, `SdlRoundTrip`, `SdlExact`, `SdlArrival` | the binary state format: what bytes stand for a state, that reading inverts writing, exactly when, and what of a state arrives |
| `Formats` | keys, states, headers and nodes byte by byte |
| `SdlWriter`, `SdlParser`, `SdlMessage` | the writer, the length calculator and the parser as the server runs them, and whole messages with optional compression |
| `SdlExpand`, `SdlMerge`, `SdlHolds` | the slot normaliser, the timestamped merge of states, and what a slot holds after an update |
| `Writers`, `QueueLine`, `MessageQueue` | messages that can be written from any offset by two interfaces; what a queue of them promises over a run; and the queue |
| `FastDownload`, `Manifest`, `ManifestSending` | file downloads chunk by chunk, with and without one self-rewriting message |
| `Heek`, `HeekSafety`, `HeekRounds`, `HeekList`, `HeekChoices`, `HeekGame` | the Heek table game: its rules, what they keep, who is found again in its list of players, who has chosen what and wins, and the objects that implement it |
| `BlueSpiral`, `ClothHits`, `Locks`, `LockAnswers` | the cloth game with its random order, and object locks with timers that are never cancelled; what hits do and what players are answered |
| `AuthRules`, `AuthSafety`, `AuthRuns`, `AuthServer` | login, player selection and age requests against an asynchronous backend: what is kept, and who gets on |
| `VaultNodes`, `VaultCheck`, `VaultSending` | vault nodes: a bit field, a length kept up to date and a codec; the bounds check of messages; and writing from any position |

A specification function (`Enc...`, `Take...`, `Step`, `...Step`, `Held`, `Run...`) says what the code should
do on values. The methods and classes follow the source's loops, fields and moving offsets, and are
proved equal to those functions; the lemmas then prove what the functions promise. Some of them say so
without these functions, in bits, bytes and fields or for a whole run, so that a mistake made in a
function and in the method that follows it would show.

Where the code and its evident intent part, the code is modelled, an input shows the difference, and
a condition says exactly when it meets the intent:

- `PlKey::read_in` asks for 17 bytes of a key with a load mask, one more than such a key may have (`PlKeys.KeyRoundTrip`).
- `write_msg` keeps a negative result in an unsigned number, so most buffers that are too small are not reported (`SdlMessage.WriteMsg`).
- The struct half of `expand` moves on even when an entry does not match its slot (`SdlExpand.StructsExact`, `SdlExpand.StructsExactGap`); the variable half normalises exactly the index-ordered inputs and leaves empty slots in all others (`SdlExpand.ExpandVars`).
- `update_from` makes a copy of a vault entry for an empty slot but does not store it (`SdlMerge.VaultForwardsExactly`); a state can have such slots (`SdlMerge.LateEntryIsLost`), and one that is received with them ends in a null pointer (`SdlMerge.SdlState.VaultUpdate`, `SdlMerge.LoadAge`).
- `Variable::operator=` keeps the array of a variable that has gone back to its default and may copy beyond it (`SdlMerge.CopyInside`); variables of declared length are safe (`SdlMerge.FixedIsInside`), one of open length is not (`SdlMerge.OpenLengthOverruns`).
- `BackendMessage::fill_buffer` may write nothing although there is room (`Writers.BackendStalls`), and reports a resumed header-only message as done too early (`Writers.FillBackend`), which is exactly when the queue loses bytes (`MessageQueue.Queue.Run`); `AuthServerMessage::fill_buffer` may report completion a call late (`Writers.FillAuth`).
- `FileTransaction::iovecs_written_bytes` needs a byte too many after an empty record (`Manifest.Transaction.IovecsWrittenBytes`). A manifest's message by itself is never finished once a write ends one byte before its end; its padding comes after the start of whatever is queued behind it, and up to two bytes of that are then sent twice (`ManifestSending.FileServerMessage.IovecsWrittenBytes`, `ManifestSending.PaddingHeldBack`, `ManifestSending.RepeatsExactly`). A record that is too long stops a manifest for good (`ManifestSending.Transfer`).
- `check_len_by_bitfields` counts in 32 bits and accepts buffers in which a length makes it start again (`VaultCheck.ChecksExactly`). `check_useable` for vault messages passes a base four bytes past the one the node is read from (`VaultCheck.CheckedFourBytesOn`, `VaultCheck.NothingIsChecked`), and a node with fields foreign to its type announces more bytes than it sends (`VaultSending.LengthIsRight`).
- `VaultNode::fill_buffer` copies the full length of a string or blob from a resume point inside it, and both of its writers count a resume point inside a number in words (`VaultSending.FillingIsRight`, `VaultSending.PiecesAreRight`, `VaultSending.ResumedInsideAName`).
- A request to delete a player displaces a pending login or age request (`AuthSafety.DeleteDropsLogin`, `AuthSafety.DeleteStrandsAge`); a failed check of a player blocks creating one (`AuthSafety.FailedCheckBlocksCreation`); a change of password is passed on before any login, for the unset account (`AuthSafety.PasswordForWhom`).
- `HeekGameMgr::player_left` erases the head of the list of Sitters, whoever leaves (`HeekList.AllListedExactly`); a player so forgotten can change the score and pays again in the same game (`HeekList.SitsAgain`, `HeekList.PaysTwice`).
- Winning the cloth game leaves its timer running, which can end the next game (`BlueSpiral.TimerOfWonGameEndsTheNext`); when exactly that can happen is decided at the start (`BlueSpiral.EndedByAnotherExactly`).

## Model

| member | source | states |
|---|---|---|
| `PlKeys.NameRoundTrip` | UruString.cc:47-180 | every name of at most 4095 bytes without a final NUL is read back from its bit-flipped form, and what follows is left over |
| `PlKeys.KeyRoundTrip` | PlKey.cc:37-148 | a written key is read back in the fields its flags announce, whatever follows; except, exactly, a minimal key with a load mask at the end of a buffer |
| `PlKeys.KeyLenExact` | PlKey.cc:89-104 | the announced length of a key is its written length |
| `Formats.KeyBytes` | PlKey.cc:106-148 | the 25 bytes of a key with clone numbers and a mask (`Formats.PlainKeyBytes` those of one without) |
| `Formats.NameBytes` | UruString.cc:47-180 | length, mark and flipped letters of a name |
| `Formats.PlainNames` | UruString.cc:47-180 | names that are not flipped, with and without a terminator |
| `SdlRoundTrip.StateRoundTrip` | SDL.cc:1121-1718 | parsing what was written consumes exactly those bytes and returns the entries that are sent, recursively through nested structs; which those are says `SdlArrival.SendableArrives` |
| `SdlExact.ReadBackExactly` | SDL.cc:1121-1718 | for every state that fits its description: it is read back as it was sent exactly if counts and slot numbers fit their one byte and entries without slot numbers are in place, at every level |
| `SdlRoundTrip.OrderedRoundTrip` | SDL.cc:1121-1718 | the same for every state whose slots are in index order at every level and at most 255 are declared |
| `SdlArrival.SendableArrives` | SDL.cc:1441-1718 | an entry arrives exactly if bit 3 of its flags is clear or bit 2 set, at every level, in its place, with index, flags, count and items, and with its time exactly if bit 2 is set |
| `SdlArrival.OrderedArrives` | SDL.cc:1441-1718 | the same for every state in index order |
| `Formats.TimedDefaultBytes` | SDL.cc:1455-1475 | a variable put back to its default by a timed update is sent: the 18 bytes of such a state |
| `Formats.PlainDefaultBytes` | SDL.cc:1455-1475 | a default without a time is not: five bytes |
| `Formats.NestedBytes` | SDL.cc:1441-1718 | the bytes of a state with an index, a count of its own and a nested state |
| `Formats.ValueSizes` | SDL.cc:1192-1329 | how many bytes a value of each type has |
| `Formats.HintBytes` | SDL.cc:1131-1175 | a variable looks at one bit for a hint, a struct at the whole byte |
| `SdlRoundTrip.OrderedIsSendable` | SDL.cc:1441-1475 | index order is enough for the form without indices, which is chosen by counting alone |
| `SdlRoundTrip.IncreasingCount` | SDL.cc:1441-1475 | increasing slot numbers below a limit that are as many as the limit leave no gap |
| `SdlRoundTrip.SubRoundTrip` | SDL.cc:1331-1412 | one nested struct with all its child states comes back, and nothing after it is touched |
| `SdlRoundTrip.VarsRoundTrip` | SDL.cc:1131-1330 | all variables of a level come back in order, with indices on the wire or without |
| `SdlWriter.RecursiveWrite` | SDL.cc:1441-1718 | writes exactly the encoding if it fits, fails exactly if it does not, and touches nothing outside the window either way |
| `SdlWriter.WriteVars` | SDL.cc:1461-1649 | the variable loop writes the live entries and nothing else, or fails exactly for lack of room |
| `SdlWriter.WriteSubs` | SDL.cc:1650-1715 | the same for structs and everything nested in them |
| `SdlWriter.RecursiveLen` | SDL.cc:1732-1848 | the independent length calculator gives the length of the encoding for every state |
| `SdlParser.RecursiveParse` | SDL.cc:1121-1415 | the offset-driven parser with its length checks computes the specified reading of any buffer, errors included |
| `SdlParser.ParseElems` | SDL.cc:1192-1329 | checking the size of a whole array of values beforehand is as good as checking each value |
| `SdlMessage.MessageRoundTrip` | SDL.cc:981-1088 | reading a written message gives the same key and state, uses exactly the bytes written, compressed or not, within the announced length and equal to it when uncompressed |
| `SdlMessage.BodyRoundTrip` | SDL.cc:1098-1119 | a body finds its own description again by name and version |
| `SdlMessage.DoMessageCompression` | SDL.cc:928-955 | compresses a framed body in place exactly when it is long enough and gets shorter, and marks failures |
| `SdlMessage.WriteMsg` | SDL.cc:1054-1088 | writes the whole message into any buffer that holds it uncompressed; says exactly which smaller buffers are reported and which are not |
| `SdlMessage.WriteOut` | SDL.cc:1417-1439 | the body is written in full or refused exactly for lack of room |
| `Formats.FrameOf` | SDL.cc:928-955 | a body is compressed exactly if it may be, has more than 254 bytes and gets shorter; the eleven header bytes for every body |
| `Formats.Finds` | SDL.cc:81-97 | a description is found by name, in capitals or small letters: the first of the version, or without one the first of the newest |
| `SdlExpand.ExpandVars` | SDL.cc:1858-1901 | every slot gets its own entry or a default if and only if the entries were in index order, and otherwise some slot stays empty |
| `SdlExpand.EmptySlotIsReached` | SDL.cc:1858-1901 | entries 1 and 0 of three, in that order, become entry 0, an empty slot and a default |
| `SdlExpand.ExpandStructs` | SDL.cc:1902-1935 | which entry, leftover or default ends in each slot, for any input |
| `SdlExpand.StructsExact` | SDL.cc:1902-1935 | for any input the result is normal exactly if every entry meets its slot, stays in it, or is overwritten and no different from what its slot gets |
| `SdlExpand.StructsExactGap` | SDL.cc:1902-1935 | without null entries and with one entry for a slot: exactly if every entry stays or moves up by the number of missing slots (`SdlExpand.StructsGoWrong` shows an input) |
| `SdlMerge.SdlState.UpdateFrom` | SDL.cc:2080-2227 | both states after an update, expansion included: what the master took over, entry by entry, what is left in the other, the arrays behind the values, and whether a null entry was met or a copy ended outside its array |
| `SdlMerge.SdlState.VaultUpdate` | GameServer.cc:822-858 | an update from the vault, expanded first: it comes to a null entry exactly if there were too few entries and not in order, and ends there unless a copy before ended outside its array |
| `SdlMerge.SdlState.AgeLoad` | GameServer.cc:822-848 | the vault's state takes over the saved one, and ends in a null entry exactly if that has one |
| `SdlMerge.LoadAge` | GameState.cc:143-146 | a saved state has one exactly if it was read with too few entries and not in order |
| `SdlMerge.WrongOrderMeetsNull` | SDL.cc:2114-2117 | entries 1 and 0 of three, in that order, from the vault end in a null entry, unless the copy of the one before it ended outside its array |
| `SdlMerge.CopyInside` | SDL.cc:2523-2560 | assigning a variable stays inside its array exactly if nothing is copied, the array is given up or missing, or it is large enough |
| `SdlHolds.RoomAfter` | SDL.cc:2523-2540 | which array a variable has after an assignment: a new one, none, or the one it had |
| `SdlHolds.RoomOfOne` | SDL.cc:2165-2191 | which one it has after an entry from a client or a player's vault |
| `SdlMerge.FixedIsInside` | SDL.cc:2523-2560 | if all variables are of declared length, every update leaves them so and no copy ends outside |
| `SdlMerge.OpenLengthOverruns` | SDL.cc:2523-2560 | one value, a default, then two values: the two are copied into the array of one |
| `SdlMerge.SdlState.Expand` | SDL.cc:1858-1935 | expansion in place of both halves of a state |
| `SdlMerge.ClientUpdatesLastWriteWins` | SDL.cc:2114-2192 | over any series of client updates every slot holds the last dirty write to it, marked with its time |
| `SdlMerge.VaultForwardsExactly` | SDL.cc:2114-2192 | replaying what a vault update leaves for forwarding gives the new master exactly if no dirty entry is for an empty slot |
| `SdlMerge.EmptySlotIsLost` | SDL.cc:2178-2191 | an entry for an empty slot is forwarded but not kept |
| `SdlMerge.LateEntryIsLost` | SDL.cc:2080-2191 | a master whose two entries came in the wrong order loses one, and an entry for its slot from the vault, expanded as all are, is left for forwarding without being kept |
| `SdlMerge.GlobalKeepsNewer` | SDL.cc:2114-2140 | a global update with only older or untimed entries never replaces a timestamped value |
| `SdlMerge.GlobalHolds` | SDL.cc:2114-2191 | which entry a slot holds after any global update: its own if none is accepted, else the last one not earlier than the current time after the first accepted, or that first |
| `SdlHolds.GlobalOneHolds` | SDL.cc:2119-2191 | one entry from the global vault, in fields: it is taken with the current time unless the slot is empty or has a time and it an earlier one or none |
| `SdlHolds.PlayerHolds` | SDL.cc:2133-2191 | what a slot holds after any update from a player's vault: nothing new comes if all entries for it equal its value in index, flags but for the time, count and every item; else it holds the last entry marked as changed, with the current time |
| `SdlHolds.PlayerForwards` | SDL.cc:2133-2191 | what is forwarded of it: exactly the entries marked as changed that differ from the last for their slot, or are for an empty one |
| `SdlMerge.AgeLoadLatestWins` | SDL.cc:2114-2192 | on age load the latest time wins in every slot, and the value is one of those offered |
| `SdlHolds.AgeHolds` | SDL.cc:2147-2177 | a slot that has a time holds the value with the latest time after an age is loaded, of several the last, and its own exactly if all that came were earlier |
| `SdlHolds.AgeOneHolds` | SDL.cc:2119-2177 | one saved entry, in fields, also for empty slots and slots without a time |
| `SdlHolds.ClientOne` | SDL.cc:2119-2177 | one entry from a client, in fields |
| `Writers.FillPieces` | GameMessage.cc:966-1067 | any list of pieces is written from any offset, exactly the slice that fits, done exactly with the last byte |
| `Writers.FillType` | BackendMessage.cc:58-238 | the field macros write exactly the slice that fits; a single byte as last field is written without reporting completion |
| `Writers.FillBackend` | BackendMessage.cc:534-558 | the slice written from any offset; completion is reported too early exactly for a resumed, cut-off header with nothing behind it |
| `Writers.BackendStalls` | BackendMessage.cc:546 | with room and bytes left nothing is written exactly if the offset is past the header and equals the room |
| `Writers.BackendShort` | BackendMessage.cc:534-558 | how much is written, for every size of buffer and position: less than there is room for exactly when resumed inside the header with 16 bytes of room, or behind it with as much as is out |
| `Writers.FillAuth` | AuthMessage.cc:253-277 | type bytes and body from any offset; completion is missed exactly when a message without a body ends where the buffer does |
| `Writers.FillAgeReply` | AuthMessage.cc:648-670 | top and body from any offset; completion is missed exactly when a reply without a body ends where the buffer does |
| `Writers.FillJoinReply` | GameMessage.cc:165-196 | ten bytes from any offset, also from the middle of the type |
| `Formats.MessageBytes` | GameMessage.cc:165-196 | the bytes of a join reply, and of an auth server's message |
| `Writers.FillNonce` | NetworkMessage.cc:120-134 | the response from any offset |
| `Writers.FillPlain` | GameMessage.cc:226-241 | shared and ping messages from any offset |
| `Writers.Fill` | AuthMessage.cc:607-617 | the one contract of all writers, header-only backend messages included; a passed-through vault message is the backend message without its 16-byte header |
| `Writers.Vecs` | BackendMessage.cc:500-520 | pieces handed out from any offset are a prefix of what is left, all of it if there are fewer than allowed, and no more than the message has |
| `Writers.VecsOfAuth` | AuthMessage.cc:218-242 | the same when the type bytes are pieces of their own |
| `Writers.WrittenBytes` | BackendMessage.cc:522-532 | whether a message is finished and how many bytes belong to the next, for every message that is as long as it says |
| `MessageQueue.Queue.Enqueue` | MessageQueue.cc:43-58 | the new message comes after everything waiting, or with priority before it; the stream is broken exactly if that is before a message that has been started |
| `MessageQueue.Queue.ClearQueue` | MessageQueue.cc:60-82 | everything goes but a message that has been started, and nothing already sent is affected |
| `MessageQueue.Queue.FillBuffer` | MessageQueue.cc:145-180 | the line loses from its front what is written; something is written unless the first writer is stuck, and all there is room for if all writers use theirs; the stream stays whole exactly unless the header of a message without data, begun already, is cut off again |
| `MessageQueue.Queue.FillIovecs` | MessageQueue.cc:90-112 | pieces never skip a byte of what is waiting |
| `MessageQueue.Queue.IovecsWrittenBytes` | MessageQueue.cc:114-143 | taking n bytes this way leaves the same bytes waiting as writing n through a buffer |
| `MessageQueue.Queue.Run` | MessageQueue.cc:43-180 | over any run of operations (until something is put before a started message) the bytes given out and the messages waiting are those the line says for these operations; without clears, what is out and waiting grows by exactly the messages added, in order |
| `QueueLine.RunsInOrder` | MessageQueue.cc:43-180 | over any run of adding and writing in slices of any size, the bytes out and those waiting are those there were and then all messages added, whole and in order |
| `QueueLine.RunsWhole` | MessageQueue.cc:43-180 | over any run, clears included, what is given out is the finished messages, whole, and the start of the next |
| `QueueLine.KeptAfter` | MessageQueue.cc:60-82 | the messages kept: writing changes none, adding adds its own, a clear drops exactly those at the end that have not been started |
| `QueueLine.KeptInOrder` | MessageQueue.cc:43-82 | whatever is thrown out, those kept are in the order in which they came |
| `QueueLine.NothingCut` | BackendMessage.cc:534-558 | without messages that are only a header, none is ever cut off |
| `FastDownload.StreamIsFile` | AuthMessage.cc:312-366 | a client that believes the lengths in the headers gets exactly the file |
| `FastDownload.StreamLength` | AuthMessage.cc:358-366 | one 22-byte header for every started 32768 bytes, and one for an empty file |
| `Formats.DownloadHeader` | AuthMessage.cc:312-336 | the 22 bytes before the last chunk of a file (`Formats.FirstDownloadHeader` those before the first) |
| `FastDownload.FileMessage.NextChunk` | AuthMessage.cc:350-356 | rewriting the header in place moves on to the next chunk with the queue's offset intact |
| `FastDownload.FileMessage.FillBuffer` | AuthMessage.cc:479-558 | as much of the download as fits, over as many chunks as that takes; nothing is left over inside a chunk |
| `FastDownload.FileMessage.FillIovecs` | AuthMessage.cc:368-422 | pieces of the current chunk only, padded so that nothing else is written after it |
| `FastDownload.FileMessage.IovecsWrittenBytes` | AuthMessage.cc:424-477 | after any partial write the message goes on where it stopped, and no bytes are left over at the end of a chunk |
| `FastDownload.Transaction.ChunkAcked` | FileTransaction.cc:164-248 | the next chunk follows the last and is as long as it may be |
| `FastDownload.Download` | AuthMessage.cc:312-558 | any run of buffers and partial writes sends a prefix of the stream as long as the queue's offset; every write with room sends something, buffers alone send all they have room for; it is done exactly when that is the whole stream, which is the file (of an empty file, completion may be known later) |
| `Manifest.FittingIsGreedy` | FileTransaction.cc:215-224 | a chunk takes whole records up to 32768 bytes of data and could not take one more |
| `Manifest.ScanStopsBetweenRecords` | FileTransaction.cc:215-230 | on a well-formed file the scan of raw bytes finds exactly those records |
| `Manifest.Transaction.ChunkAcked` | FileTransaction.cc:164-248 | chunks follow each other at record boundaries; the file gets shorter unless its next record is too long for any chunk |
| `Manifest.Transaction.FillIovecs` | FileTransaction.cc:279-310 | the records' data without the lengths, from any resume point |
| `Manifest.Transaction.IovecsWrittenBytes` | FileTransaction.cc:336-374 | exactly when a chunk counts as written, empty records included |
| `ManifestSending.FileServerMessage.FillIovecs` | FileMessage.cc:149-174 | header, data and padding from any position; the padding is held back as long as the header is not out |
| `ManifestSending.FileServerMessage.IovecsWrittenBytes` | FileMessage.cc:176-210 | finished exactly if the two bytes of padding go out in one write, or, once they have not, when any two bytes do |
| `ManifestSending.PaddingHeldBack` | FileMessage.cc:153-161 | pieces queued behind such a message come before its padding |
| `ManifestSending.SendBoth` | FileMessage.cc:149-210 | one write of such a message and the one behind it: what goes out, and how many bytes of the second will be sent again because they were counted as padding or not at all |
| `ManifestSending.RepeatsExactly` | FileMessage.cc:149-210 | none are, however much is written, exactly if the write begins between the end of the header and that of the data |
| `ManifestSending.AnnouncedExactly` | FileMessage.cc:112-136 | the announced length is the message's exactly if its data is an even number of bytes |
| `ManifestSending.ChunkIsFull` | FileTransaction.cc:215-224 | a message's data is whole records of at most 32768 bytes together, and one more would not fit |
| `Formats.ManifestHeader` | FileMessage.cc:112-136 | the 28 bytes before a manifest's data |
| `ManifestSending.StreamIsRecords` | FileMessage.cc:112-136 | a client that believes the headers gets the data of the records, of even length, in order |
| `ManifestSending.Transfer` | FileServer.cc:204-230 | any run of partial writes and acknowledgements sends the messages in order; every write with room sends something unless the last byte of a message is lost; it is done exactly when no records are left, which never happens if one is too long, and with enough writes always does if none is and no last byte is lost |
| `HeekSafety.GoodSit` | GameState.cc:2129-2181 | sitting down keeps every invariant of the table |
| `HeekSafety.SitWealth` | GameState.cc:2141-2166 | what sitting down adds to the points: all that is claimed by who is not in the list, the difference for who is and has not paid into the current game, and nothing otherwise |
| `HeekSafety.GoodCountdown` | GameState.cc:2224-2252 | a new game or round starts with no choices and all points where they were |
| `HeekSafety.GoodRegister` | GameState.cc:2253-2310 | a choice moves at most one point into the pot, and the choices are counted |
| `HeekSafety.GoodDepart` | GameState.cc:2770-2839 | getting up keeps the counters right in every state; only the last to go empties the pot |
| `HeekSafety.GoodLeave` | GameState.cc:2376-2409 | leaving the table never changes the points there are |
| `HeekSafety.GoodForget` | GameState.cc:2438-2447 | the Sitter that is freed is neither seated nor listed any more, although the head of the list is erased whoever it is |
| `HeekRounds.TotalsAreDuels` | GameState.cc:2553-2580 | a choice's total is its wins less its losses in single duels with everyone at the table |
| `HeekRounds.RoundIsZeroSum` | GameState.cc:2553-2580 | the totals of a round add up to zero |
| `HeekRounds.BestIsBest` | GameState.cc:2553-2580 | the best total is the highest of those who chose |
| `HeekRounds.WinnersAgree` | GameState.cc:2583-2606 | with five seats all winners of a round made the same choice (with six they need not: `HeekRounds.SixCouldDisagree`) |
| `HeekRounds.CreditAllMeans` | GameState.cc:2582-2624 | who is credited, who comes into the running, and that the winners are counted |
| `HeekRounds.DropBehindMeans` | GameState.cc:2625-2662 | exactly those behind the most rounds won drop out; there are always enough left, so the error branch is never taken |
| `HeekRounds.CandidatesMean` | GameState.cc:2625-2662 | those left in the running are counted, level, have paid, and have won three rounds with one choice |
| `HeekRounds.RoundOutcome` | GameState.cc:2504-2715 | a round either pays the whole pot to exactly one seated player or moves no points; it is played out exactly if at least two have chosen |
| `HeekRounds.GoodShowWinner` | GameState.cc:2717-2748 | showing the winner clears the running |
| `HeekRounds.GoodTimers` | GameState.cc:2841-2881 | timers and animations, in whatever state they come, keep every invariant and all points |
| `HeekRounds.GoodStep` | GameState.cc:2124-2881 | every step keeps all invariants, and adds to the points exactly what players bring and the last takes |
| `HeekRounds.GoodRun` | GameState.cc:2124-2881 | the same over every run |
| `HeekList.ListAfter` | GameState.cc:2129-2453 | what any step does to the list: whenever somebody leaves the age it loses its head, a new Sitter comes at its end, and nothing else changes it |
| `HeekList.DistinctRun` | GameState.cc:2141-2166 | in any run the Sitters listed belong to different players |
| `HeekList.SitsAgain` | GameState.cc:2141-2166 | a player of the current game takes up the same Sitter, with its score and bringing nothing, whatever is claimed, exactly if that Sitter is still listed |
| `HeekList.BringsExactly` | GameState.cc:2141-2166 | a player can bring no points exactly if a Sitter of the player's that is in the current game is listed |
| `HeekList.ListedExactly` | GameState.cc:2438-2447 | the Sitter at position p is still listed after a run exactly if at most p players, whoever they were, have left the age |
| `HeekList.AllListedExactly` | GameState.cc:2438-2447 | after a run all Sitters in use are listed exactly if everyone who left the age was the head of the list |
| `HeekList.PaidBringNothing` | GameState.cc:2141-2166 | in such runs, and in those in which nobody leaves, nobody who has paid brings points |
| `HeekList.PaysTwice` | GameState.cc:2438-2447 | a run after which a player who has paid sits down with any score and pays again in the same game |
| `HeekChoices.ChoiceTaken` | GameState.cc:2253-2310 | a choice of a seated player is recorded as sent, and paid for if it is the first in the game; others keep theirs, or have none if a countdown just began; the countdown stops exactly if all have chosen |
| `HeekChoices.ChoiceIgnored` | GameState.cc:2215-2260 | any other choice is not recorded, though it may begin a countdown |
| `HeekChoices.ChoicesOfRun` | GameState.cc:2124-2881 | in any run everyone at the table holds the last choice that was sent and counted since sitting down and since the countdown began |
| `HeekChoices.RoundExactly` | GameState.cc:2504-2715 | what a round comes to for everyone: credited are those who do best in duels; those with a third win, or after a draw those who drew, who have won most stay in the running; the pot is paid exactly if that is one player |
| `HeekChoices.CountdownEnds` | GameState.cc:2841-2851 | a countdown that runs out is followed by a round exactly if two have chosen |
| `HeekChoices.TimersSettle` | GameState.cc:2841-2881 | four timeouts bring every table to where players may choose, between games exactly if the round was won or nobody was playing |
| `HeekChoices.AnimationsAsTimers` | GameState.cc:2318-2374 | the end of the animation that is waited for does what the timer would, if the owner says so |
| `HeekChoices.WinnerShown` | GameState.cc:2717-2748 | when the winner has been shown nobody is in the running and nothing else has changed |
| `HeekChoices.SitsDown` | GameState.cc:2129-2181 | score, rounds won and choice of who sits down |
| `HeekChoices.GetsUp` | GameState.cc:2376-2409 | the last player to get up takes the pot along and ends the game; nobody else does |
| `HeekChoices.LeavesAge` | GameState.cc:2419-2453 | leaving the age from the table is the same, but nobody takes the pot |
| `HeekChoices.NothingElse` | GameState.cc:2129-2453 | requests for a taken seat, and getting up or leaving the age by who is not seated, change nothing else |
| `HeekChoices.AGameIsWon` | GameState.cc:2124-2881 | a run from the empty table in which rock beats scissors three times and the winner is paid |
| `HeekGame.Game.Handle` | GameState.cc:2124-2881 | the objects do what the rules say for every message and timer |
| `HeekGame.Game.HandleRound` | GameState.cc:2504-2715 | counting, crediting, dropping and paying in loops over the seats is the specified round |
| `HeekGame.Game.CreditWinners` | GameState.cc:2583-2624 | the crediting loop in place |
| `HeekGame.Game.DropOthers` | GameState.cc:2636-2662 | the sudden-death loop in place |
| `HeekGame.Game.PlayGame` | GameState.cc:2129-2181 | a known Sitter is taken up again, a new one is listed |
| `HeekGame.Game.HandleDeparture` | GameState.cc:2770-2839 | clearing choice, flag and seat in place |
| `HeekGame.Game.PlayerLeft` | GameState.cc:2419-2453 | leaving the age: departure, then the head of the list is forgotten |
| `HeekGame.PlayAll` | GameState.cc:2124-2881 | from an empty table, over any run, the game is as the rules say and every point is accounted for |
| `BlueSpiral.RanksPermute` | GameState.cc:2014-2031 | counting greater values gives a permutation for any values, equal ones included |
| `BlueSpiral.RanksOrder` | GameState.cc:2014-2031 | ranks are ordered as the values are, greatest first, ties by position |
| `BlueSpiral.Game.NewOrder` | GameState.cc:2022-2031 | the nested loops compute those ranks |
| `BlueSpiral.Game.HitCloth` | GameState.cc:1938-1994 | a hit is accepted exactly if it is next in the order, a wrong one ends the game and its timer, the seventh wins it and leaves the timer |
| `BlueSpiral.Game.StartGame` | GameState.cc:1904-1935 | a start begins with a new order; the new timer is the only one exactly if a running game had no timer but the known one, or an idle one had none |
| `BlueSpiral.Game.HandleTimeout` | GameState.cc:2062-2090 | a timer ends the game exactly if it is the last kind, whichever game set it; its successor belongs to the same game |
| `ClothHits.HitMeans` | GameState.cc:1938-1994 | a hit in fields: ignored when no game is on; the right one counts and leaves all timers, and the seventh ends the game; a wrong one ends it and cancels exactly the timer it knows about |
| `ClothHits.StartMeans` | GameState.cc:1904-2041 | a start in fields: the order ranks the random values, greatest first, and exactly the timer of a game that was on is cancelled |
| `ClothHits.FireMeans` | GameState.cc:2062-2090 | a timer in fields: the first kind sets the second, and that ends whatever game is on |
| `ClothHits.LeftMeans` | GameState.cc:2003-2009 | an empty age ends the game and nothing else |
| `ClothHits.HitInOrder` | GameState.cc:1938-1958 | after any run and a start, hits in the order of the ranks are all accepted, and the game is on until the seventh |
| `ClothHits.HitOutOfOrder` | GameState.cc:1978-1984 | a hit out of order at any point ends it, and later hits do nothing |
| `BlueSpiral.Game.Run` | GameState.cc:1898-2090 | any run of starts, hits, timers and departures leaves the game as the rules say for exactly these |
| `BlueSpiral.HitsOfRun` | GameState.cc:1938-1958 | in any run accepted hits are a prefix of the order, and seven of them are every cloth once |
| `BlueSpiral.FaultOfRun` | GameState.cc:1904-2090 | whenever another game's timer ends a game, its own start, the last before, left other timers |
| `BlueSpiral.EndedByAnotherExactly` | GameState.cc:1904-2090 | from a start on, another game's timer can end the game exactly if other timers were left at the start |
| `BlueSpiral.FaultAtStart` | GameState.cc:1904-2090 | in any run the last start before such an end left other timers |
| `BlueSpiral.WonIsNeverClean` | GameState.cc:1958-1978 | a game that is won, or left by everyone, always leaves a timer to the next |
| `BlueSpiral.LostStartsClean` | GameState.cc:1978-1984 | a wrong hit leaves none but those that were there from other games |
| `BlueSpiral.TimerOfWonGameEndsTheNext` | GameState.cc:1958-1978 | a game is won, a second is started, and a timer set for the first ends it |
| `Locks.GrantsAreSeparated` | GameState.cc:195-266 | two grants of a key are separated by the first holder's release or the expiry of that grant (a player numbered zero would be granted a lock that stays free: `Locks.ZeroIsNotSeparated`) |
| `Locks.HeldUntilEnded` | GameState.cc:195-266 | a granted lock is held until then |
| `Locks.StaleTimersAreHarmless` | GameState.cc:261-266 | a timer of another grant changes nothing |
| `Locks.LockTable.TryLock` | GameState.cc:195-234 | granted exactly if nobody holds the key or it is a footstep |
| `Locks.LockTable.ClearLock` | GameState.cc:236-259 | released exactly by the holder; a lock nobody holds answers to player zero if it was ever granted |
| `Locks.LockTable.Expire` | GameState.cc:261-266 | a late timer frees the lock exactly if its grant still stands |
| `Locks.LockTable.Run` | GameState.cc:195-266 | answers and timers over any run of requests, with timers going off at any time, are those the rules give for exactly these |
| `Locks.GrantedExactly` | GameState.cc:195-266 | over any run a lock is given exactly if each earlier grant of it has been ended in between, by its holder or by the timer set for that grant |
| `LockAnswers.FootstepsAreFree` | GameState.cc:196-200 | whatever stands around the word, a key so named is locked and unlocked by anyone at any time, without effect |
| `LockAnswers.ExemptExactly` | GameState.cc:196-200 | a key is exempt exactly if the eight letters of Footstep stand in its name in a row, before any zero byte |
| `LockAnswers.NoFootstep` | GameState.cc:196-200 | a name without a capital F is not exempt, say |
| `LockAnswers.SecondIsRefused` | GameState.cc:195-234 | two ask for a lock: the first gets it, and the second exactly if the name is exempt |
| `LockAnswers.ReleasedExactly` | GameState.cc:236-259 | over any run a release is answered with yes exactly if the lock was given to that player and neither released nor expired since |
| `LockAnswers.ZeroIsToldSo` | GameState.cc:236-259 | and to player zero exactly if it was given once and nobody holds it |
| `LockAnswers.TimerWaits` | GameState.cc:222-230 | every grant sets a timer of its own, which is there until it goes off |
| `LockAnswers.RunsOutOnce` | GameState.cc:195-266 | a lock runs out with its timer, and not with that of a grant given up before |
| `AuthSafety.OnlyConfirmedPlayersPlay` | AuthServer.cc:234-1117 | in any run, whoever is logged in has an account the backend accepted, whoever plays is a nonzero player it confirmed for that account, and vault and age requests are made for nobody else |
| `AuthSafety.SafeRun` | AuthServer.cc:234-1117 | every interleaving of client messages with delayed, stale and superseded replies keeps that, and an account once settled stays |
| `AuthSafety.AccountFixed` | AuthServer.cc:891-967 | after the first accepted login neither account nor download directory changes |
| `AuthSafety.AgeRepliesAreCurrent` | AuthServer.cc:1097-1124 | the client hears about an age only in answer to its latest request or one numbered zero |
| `AuthSafety.DeleteDropsLogin` | AuthServer.cc:785-803 | a delete request makes a pending login's success be dropped, unless that was numbered zero |
| `AuthSafety.DeleteStrandsAge` | AuthServer.cc:785-803 | and a pending age request's answer, unless that was numbered zero |
| `AuthSafety.StrandedRun` | AuthServer.cc:1097-1124 | then, in any run, the player waits until an age is asked for again |
| `AuthSafety.PasswordForWhom` | AuthServer.cc:372-405 | in any run a password query names an accepted account exactly if someone is logged in, and account zero otherwise |
| `AuthSafety.PasswordBeforeLogin` | AuthServer.cc:372-405 | such a query can be made right after the key exchange |
| `AuthSafety.FailedCheckBlocksCreation` | AuthServer.cc:969-1002 | after a failed check a player (of a printable name) can be created exactly if the finished request was numbered zero |
| `AuthRuns.PhaseAfter` | AuthServer.cc:234-1124 | the next state, given for every state: what lets a session go on |
| `AuthRuns.IdentityAfter` | AuthServer.cc:891-967 | account and directory come with the login, the player is the one chosen last |
| `AuthRuns.RequestAfter` | AuthServer.cc:234-1124 | which request is on record, and whether a download occupies the session |
| `AuthRuns.PlayingExactly` | AuthServer.cc:969-1002 | in any run somebody plays exactly if the player chosen at the time was confirmed and has not been dropped since |
| `AuthRuns.ConfirmedIsLetIn` | AuthServer.cc:969-1002 | in any run a confirmed player is let in, told so, and an age request is then passed on |
| `AuthRuns.SentAwayExactly` | AuthServer.cc:234-842 | which messages get a client sent away, in which state |
| `AuthRuns.AskedExactly` | AuthServer.cc:234-842 | when exactly each query is made of the backend, and with what |
| `AuthRuns.PassedExactly` | AuthServer.cc:844-1128 | when exactly each answer is passed on to the client |
| `AuthRuns.SafeExactly` | AuthServer.cc:458-482 | which file names are accepted, character by character |
| `AuthRuns.AWholeSession` | AuthServer.cc:234-1124 | a run from the first handshake into an age, with all queries and replies |
| `AuthServer.AuthServer.MessageRead` | AuthServer.cc:234-842 | every client message has the specified effect, queries and replies |
| `AuthServer.AuthServer.BackendMessage` | AuthServer.cc:844-1128 | so has every backend message |
| `AuthServer.AuthServer.RequestFile` | AuthServer.cc:431-500 | a download starts only after login, one at a time, under a checked name |
| `AuthServer.AuthServer.CheckName` | AuthServer.cc:458-482 | the scan with the suffix in place accepts exactly the safe names and replaces their separators |
| `AuthServer.SafeNames` | AuthServer.cc:458-482 | an accepted name has no two dots in a row even with its suffix, and a manifest's no separator |
| `AuthServer.AuthServer.SetPlayer` | AuthServer.cc:719-774 | choosing, changing and dropping a player |
| `AuthServer.AuthServer.KiAnswered` | AuthServer.cc:969-1002 | only the reply about the current player counts |
| `AuthServer.Serve` | AuthServer.cc:234-1128 | a whole session refines the state machine and is safe |
| `VaultNodes.NodeRoundTrip` | VaultNode.cc:258-301 | a sent node is read back whole exactly if all its fields belong to its type, and always holds all fields it announces |
| `VaultNodes.FieldsOfTypes` | VaultNode.cc:38-178 | which types of node have a field, field by field |
| `VaultNodes.KindsOfFields` | VaultNode.cc:182-215 | which fields are data and which identifiers |
| `VaultNodes.BitOf` | VaultNode.cc:217-251 | the i-th field is announced by the bit of weight 2^i |
| `Formats.FieldIsRead` | VaultNode.cc:258-301 | a field is read exactly if all of it is there: four bytes, sixteen, or as many as its first four say |
| `Formats.FolderBytes` | VaultNode.cc:738-852 | the bytes of a folder that has a field foreign to folders |
| `VaultSending.LengthIsRight` | VaultNode.cc:738-852 | the header's length is the number of bytes sent exactly in that case, and never less |
| `VaultCheck.CheckLenByBitfields` | VaultNode.cc:217-251 | the loop with its 32-bit offset: what it accepts, rejects, or reads outside the buffer |
| `VaultCheck.ChecksExactly` | VaultNode.cc:217-251 | for a given bit field it is right about every buffer exactly if there is no string or blob among the fields |
| `VaultCheck.ScanRight` | VaultNode.cc:217-251 | with any fields it is right if no offset reaches 2^32 |
| `VaultCheck.SentIsAccepted` | VaultNode.cc:217-251 | what the server sends of a node is always accepted |
| `VaultCheck.CheckUseable` | AuthMessage.cc:931-945 | the check of a message that carries a node, with its base four bytes past the node's |
| `VaultCheck.CheckedFourBytesOn` | AuthMessage.cc:935-945 | for given bit fields the check is right about every message exactly if the second asks for the same stretches of bytes as the first does after its first four, and has no string or blob |
| `VaultCheck.NothingIsChecked` | AuthMessage.cc:935-945 | with an empty second bit field every message of 16 bytes is accepted, and all of them rightly only if the first announces at most one number |
| `VaultCheck.AcceptedThoughTooShort` | AuthMessage.cc:935-945 | a message that announces an identifier and has four bytes of it is accepted |
| `VaultNodes.Node.Parse` | VaultNode.cc:258-301 | reads inside a checked buffer only, and gets the length right |
| `VaultNodes.Node.SetNumber` | VaultNode.cc:520-538 | the length stays eight plus the sizes of the set fields |
| `VaultNodes.Node.SetId` | VaultNode.cc:540-559 | the same |
| `VaultNodes.Node.SetData` | VaultNode.cc:561-597 | the same, also when data is replaced by data of another length |
| `VaultSending.FillNode` | VaultNode.cc:738-852 | the buffer holds what the writer's own pointers find, for whatever lies in memory behind the fields |
| `VaultSending.FillingIsRight` | VaultNode.cc:738-852 | bytes, number and completion are right for all memory exactly if the resume point is not inside a number (or there is no room), and if inside data the room ends within it and before the node does |
| `VaultSending.ResumedInsideAName` | VaultNode.cc:827-842 | a name resumed two bytes in: with room for the rest it is written whole but not called done, with more room two bytes too many are written |
| `VaultSending.NodeVecs` | VaultNode.cc:665-726 | the same for pieces |
| `VaultSending.PiecesAreRight` | VaultNode.cc:665-726 | pieces are right for all memory exactly if the resume point is not inside a number |
| `VaultSending.NumberIsMissed` | VaultNode.cc:684-726 | what is taken for the rest of a number: bytes none, four or eight behind it |
| `VaultSending.NodeWrittenBytes` | VaultNode.cc:728-736 | right about completion exactly for nodes that send all they have |
| `VaultSending.Copy` | VaultNode.cc:258-852 | written in one go and parsed again, a node is the same |

## Left out

- `VaultSending.FillNode`: the memory behind a field is a parameter; words are little-endian, and at least 16 bytes more than the field's own length can be read.
- `SdlMerge.SdlState.UpdateFrom`: vault updates that carry structs are excluded (the copy made then is of a single child only), received states have the master's own version, and object keys of states are not copied. After a copy outside its array the values are followed as if nothing else had been hit.
- `SdlMessage.MessageRoundTrip`: a length field below two is an error here; the source's unsigned subtraction wraps.
- `Manifest.Transaction.FillIovecs`: requires a file of whole records; the source only logs a record that ends beyond the file.
- `ManifestSending.Transfer`: messages queued behind a manifest are in `ManifestSending.SendBoth` only; its buffer writer and files whose mapping failed are left out.
- `HeekGame.Game.Handle`: messages sent to players, the avatar names, the owner and the clean-up of the owner's display (`m_cleanup`) are not modelled; whether a message comes from the owner is part of the event. A seat below five and a player who is not seated already are assumed when one sits down, as the code does.
- `AuthServer.AuthServer.MessageRead`: message parsing, account names' format, passwords, keys and logging are not modelled; the pellet score cache and the visitor flag are left out.
- `MessageQueue.Queue.Enqueue`: `reset_head` (used when a connection is torn down) and the locking variant of the queue are left out.
- `Writers.FillBackend`: backend messages whose first field is a single byte are excluded; none of the server's has one.
- `Writers.WrittenBytes`: an age reply with a body of other than 28 bytes is excluded, here and from the queue; its length is a constant in the source.
- `Writers.Vecs`: the pieces of a marker-added message (GameMessage.cc:864-964) are not modelled; its buffer writer is.
- `PlKeys.NameRoundTrip`: wide strings, iconv conversions and the caching of representations are not modelled; names are byte strings.
- Values that are Creatable objects: they are not transmitted, and both writer and parser refuse them.
- zlib: compression is an arbitrary function that may fail, with an inverse given the size.
- Integer widths: counts, scores, win counters, sequence numbers and queue positions are unbounded integers; lengths and counts on the wire have their width. Offsets and products of them are unbounded too, except in `VaultCheck.Scan`.
- Floats and times are the words they are sent as, so that NaN and the two zeros compare as words do.
- The parsers take the rest of the buffer where the source passes a pointer and a length.
- Saving and loading state files (SDL.cc:1937-2075), text descriptions, the fallback buffer for files that cannot be mapped, sockets, encryption, threads, logging, marker games and the gatekeeper are left out.
- Timers are events that may come at any moment and in any order; no clock is modelled. In the cloth game the object's destructor and the build without timers are left out.
