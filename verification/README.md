# A verified model of the MBSE BBS stores and protocols

MBSE BBS keeps its messages in JAM message bases, moves files over the binkp protocol, notices
changes and duplicates with checksums, expands its templates with the DIESEL macro language, and
keeps one database of files per area. This project models those parts in Dafny and proves what the
rest of the system relies on.

How the project is laid out:

- **The JAM message base** (`lib/jammsg.c`, `lib/jam.h`). `JamFormat` has the records on disk and
  `JamText` what becomes of a message's lines; `JamModel`, `JamOps`, `JamPack` and `JamRuns` describe
  a base as a list of stored messages, each operation as a function on that list, and what each of
  them keeps; `JamLastRead` is the file of users' pointers, and `JamPointers` what a user finds in it after packing. `JamBase.MessageBase` is the code itself:
  four files, a cursor in the index and the buffers `jamHdr`, `jamHdrInfo` and `Msg`, changed in place,
  each method proved to do to the files what the function does to the list (`JamFiles` holds the facts
  its loops need). `JamRoundTrip` stores a message, reads it back and marks it read. A byte is a `char`.
- **Subject threading and the line list** (`lib/msg.c`, `lib/msgtext.c`). `MsgThreads`, `MsgChains` and
  `MsgLink` are `Msg_Link`; `AreaRuns` is what every run of all operations on an area keeps; `MsgText`
  is the doubly linked list with its moving cursor.
- **binkp** (`mbcico/binkp.c`, `mbcico/bopenfile.c`). `BinkpFrame` is the frame codec. `BinkpResume` is
  one file on its way between a sender and a receiver joined by two FIFO channels, over a disk that
  survives disconnects; `BinkpProgress` says when the file gets there. `BinkpSession` and `BinkpTransfer` are the two state machines of
  `file_transfer` with its list of files and its queue of answers; `BinkpStuck` and `BinkpOutcome` are
  about sessions that cannot succeed or cannot receive any more, `BinkpSuccess` about sessions that do.
- **Checksums** (`lib/crc.c`). `Crc32`, `Crc16Ccitt` and `Crc16Xmodem` relate the tables to the
  bit-serial registers of appendix C of RFC 1662 (for `crc16xmodem`, of polynomial 0x1021 shifted to the
  left). `NodeRecord` is the use `lib/dbnode.c` makes of the 32-bit one.
- **DIESEL** (`lib/diesel.c`). `Diesel` is the evaluator as functions, whose termination is part of
  their definition; `DieselLiteral`, `DieselCalls`, `DieselVars` and `DieselTemplate` prove what quoting, calls, variables
  and whole templates guarantee;
  `DieselRun` is the evaluator as it runs, with its scans, its depth counter and its chain of variables.
- **Two stores** (`lib/dbfdb.c`, `lib/dbdupe.c`). `FilesDb` and `FileArea` are the files database,
  `DupeDb` is the window of known message identifiers.

Functions from outside appear as parameters: zlib, the C library's `sscanf` and the DIESEL functions
that are not modelled, the outcome of a lock, the clock, and, for a binkp session, the outcomes of
polls, sends and file operations.

## What the proofs found

Where the code does not do what its comments or its users expect, the model follows the code and a
lemma says exactly when the expectation holds.

- A stored line comes back only if it is *faithful* (`JamText.FaithfulExactly`). A `SEEN-BY:` line
  without the space behind the colon is stored nowhere, `^AAREA:` comes back without its control
  character, and `^AVia` without the space behind it loses a character (lib/jammsg.c:221-278,
  `JamText.UnfaithfulLines`).
- `JAM_Highest` answers 0 when no message is active, so numbering restarts at 1 while deleted messages
  are still indexed. `JAM_Pack` then matches a pointer with the old message of that number and sends
  it to 0 (`AreaRuns.RestartLosesPointer`); `JamPack.PointerExact` gives the result for every base.
- `JAM_AddMsg` and `JAM_WriteHeader` store the deleted flag of the buffer but do not count it: the
  active count stays right exactly when the flag is not set (`JamRuns.AddSound`, `JamRuns.WriteSound`).
- `Msg_Lowest` answers the first indexed number even when that message is deleted. `Msg_Link` then
  links with one entry too many and never looks at its last one. `MsgChains.LinkExactly` says when the
  threads come out right all the same, and `AreaRuns.DeletedFirstBreaksThread` is a run after which
  they do not.
- A user's record is found by number or by CRC. When the record of his number was left by someone who
  is gone, a user finds that one before packing and his own, if he has one, afterwards
  (`JamPointers.StaleRecordDropped`, `JamPointers.UserAfterPack`).
- A quoted DIESEL text longer than the length limit is cut and marked, yet evaluated with status 0
  (`DieselLiteral.LiteralExactly`).
- GETVAR and SETVAR save the head of the chain before they evaluate their arguments. An argument that
  runs CLEAR frees that chain, and they go on with freed memory (`DieselVars.GetOfClearDangles`);
  `DieselVars.GetVarGets` and `DieselVars.SetVarSets` say exactly when. The model marks such a state
  and claims nothing of what comes after it.
- A file that is empty, or whose partial file is whole already, is answered M_GOT and never moved to
  the inbound directory (`BinkpResume.DeliveredExactly`).
- In binkp/1.0 the receiver takes no M_FILE behind M_EOB. A sender that has come to the end of its list
  before it acts on the M_GET for a partial file can then not send the rest in that session, which for
  a file that fits into one block is the usual course (`BinkpProgress.SentTooSoon`);
  `BinkpProgress.FinishExactly` says when a file can still be finished.
- The comment about the adaptive block size speaks of 4096 bytes on the line (mbcico/binkp.c:1910-1915);
  what it computes aims at 2048 (`BinkpFrame.AdaptedFits`).
- A compressed block that does not uncompress leaves its frame unprocessed for good
  (`BinkpOutcome.BadBlockExample`). `BinkpOutcome.DeafExactly` says when the receiver gets no further
  turn, and `BinkpOutcome.StuckExactly` when the session can still succeed.
- An M_GET for a file that is not the current one makes the transmitter leave the current one in the
  state Sending (`BinkpOutcome.AskedAgainExample`); `BinkpStuck.LeavesExactly` says which answers do
  that, and `BinkpStuck.Unanswered` that only an answer about the file ends its wait.
- An M_GET for the current file from its end sets `cursend` to NULL and then looks into it. The model
  records it and claims nothing of the program after that; only such an M_GET can bring it about
  (`BinkpSession.CrashNamed`).
- SortFDB orders names by `strcasecmp`, the alphabetical insert point by `strcmp`
  (`FilesDb.InsertSortedCase`).
- Five bytes of difference can escape the checksum test of `UpdateNode`; four in a row cannot
  (`Crc32.FiveBytesCollide`, `Crc32.WindowDetected`).

## Model

| member | source | states |
|---|---|---|
| JamFormat.InfoRoundTrip | lib/jam.h:49-59 | the 1024-byte information block read back is the one written |
| JamFormat.HdrRoundTrip | lib/jam.h:98-121 | the 76-byte header read back is the one written, every field |
| JamFormat.SubAt | lib/jammsg.c:1103-1188 | at each boundary of a subfield block the walk finds exactly the next subfield that AddSubfield wrote |
| JamFormat.InfoLayout | lib/jam.h:49-59 | each field of the information block stands at its offset, least significant byte first, and the signature is JAM and a NUL |
| JamFormat.HdrLayout | lib/jam.h:98-121 | each of the nineteen words of the message header stands at its offset |
| JamFormat.SubLayout | lib/jam.h:150-166 | a subfield is its type, its length, and its data |
| JamText.BodyScan | lib/jammsg.c:1370-1426 | scanning the stored text gives the body lines in order, cut only at a carriage return inside a line, and leaves no unfinished line |
| JamText.ControlShown | lib/jammsg.c:221-278 | what each control line is after storing and reading, and in which section it is shown |
| JamText.StoredThenRead | lib/jammsg.c:221-278 | reading what was stored gives the kludges in order, the body in order, the routing lines in order, each as storing left it |
| JamText.FaithfulExactly | lib/jammsg.c:1234-1451 | all three sections come back complete and unchanged if and only if every line is faithful |
| JamText.WholeExactly | lib/jammsg.c:1234-1451 | the whole text shown is the lines as written, section behind section, if and only if every line is faithful: what one section loses no other makes up for |
| JamText.UnfaithfulLines | lib/jammsg.c:221-263 | three lines that do not come back, and what does |
| JamModel.ReadBack | lib/jammsg.c:1017-1023 | following an index entry gives the header, the subfields behind it and the text of that message |
| JamModel.WriteBack | lib/jammsg.c:337-341 | writing a header over that of one message changes no other header, subfield, text or offset |
| JamOps.FlagsBack | lib/jammsg.c:82-119 | no one of the 29 stored flags is lost or confused with another in the attribute word |
| JamOps.FlagValuesLow | lib/jam.h:64-78 | each of these flags has, in the attribute word, the value the format gives it, and no other has |
| JamOps.FlagValuesMiddle | lib/jam.h:79-86 | the same for the next ones |
| JamOps.FlagValuesHigh | lib/jam.h:87-92 | the same for the last ones |
| JamOps.LoadsByType | lib/jammsg.c:1103-1188 | after any subfields each field of the buffer holds what the last subfield of its own type held, cut to its length, and what it held before when there is none |
| JamOps.MsgidAddressIs | lib/jammsg.c:1195-1201 | the address taken from a MSGID line is what stands before its first '@' or space |
| JamOps.SenderAddress | lib/jammsg.c:1103-1201 | the sender address read is that of the OADDRESS subfield, or else of the MSGID line; msgid and replyid come from the subfields of their own types |
| JamOps.StoredThenLoaded | lib/jammsg.c:167-298 | the header of a message just stored loads with the same names, subject, dates, links and flags |
| JamOps.StoredThenShown | lib/jammsg.c:1212-1456 | its text reads back section by section, each line as storing left it, and is the text written if and only if every line is faithful |
| JamOps.FindLive | lib/jammsg.c:1041-1057 | one linear search: the first live message of a number, or none |
| JamPack.LiveOnlyPositions | lib/jammsg.c:695-783 | the kept messages are the live ones, each once, in index order |
| JamPack.PackKeeps | lib/jammsg.c:675-785 | packing keeps exactly the live messages in order, with the same subfields, text and header but for the number and the text offset; numbered from 1, texts and headers tile their files |
| JamPack.RemapExact | lib/jammsg.c:695-763 | rewriting the pointers message by message sends each to the count of live messages numbered at most it, and none is remapped twice |
| JamPack.PointerExact | lib/jammsg.c:806-869 | every pointer of every base the code leaves, 0 and out of range ones included: the count of live messages up to it, or 0 when it names a message from before a restart; it is the count exactly when it does not, or the count is 0 |
| JamPack.PointerAtPositions | lib/jammsg.c:695-825 | when header numbers equal index positions, packing sends a pointer to the number of live messages up to it, monotonically and never above the active count |
| JamPack.RetainedPointers | lib/jammsg.c:806-869 | every record of the new lastread file, copies for GoldED included, carries the packed pointers of its original |
| JamPointers.PackedPlaces | lib/jammsg.c:806-869 | the new lastread file record by record: each record not GoldED's is there exactly once, in its old order, if and only if there is no user file or its number holds its CRC there; each of GoldED's is there once for every user record, all in their old order |
| JamPointers.UserAfterPack | lib/jammsg.c:806-869 | every user of the user file finds afterwards the packed pointers of the first record that is his own, and none exactly when he had none of his own |
| JamPointers.UserKeepsPointers | lib/jammsg.c:806-869 | so he keeps the pointers he had, packed, when the record found for him before was his own, and has none when he had none |
| JamPointers.NoUserFile | lib/jammsg.c:806-869 | without a user file everyone keeps his pointers, packed |
| JamPointers.StaleRecordDropped | lib/jammsg.c:847-862 | a record of the user's number with the CRC of someone who is gone is what he found before, and is dropped |
| JamRuns.AddSound | lib/jammsg.c:167-298 | adding keeps the tiling always, and the whole invariant if and only if the buffer is not marked deleted |
| JamRuns.DeleteSound | lib/jammsg.c:329-352 | deleting keeps the invariant |
| JamRuns.WriteSound | lib/jammsg.c:1493-1541 | rewriting a header keeps the invariant if and only if no message is found or the buffer is not marked deleted |
| JamRuns.WriteShown | lib/jammsg.c:1524-1541 | a header written is read with exactly the flags, links and date of the buffer, flags cleared in it included, and with names, subject, addresses and other dates as before; every other message is as it was |
| JamRuns.DeleteShown | lib/jammsg.c:329-352 | a deleted message is read as before but for its deleted flag; every other message is as it was, and one active less is counted |
| JamRuns.PackSound | lib/jammsg.c:646-927 | packing keeps the invariant and starts the numbering afresh |
| AreaRuns.RunSound | lib/jammsg.c:167-352 | every run of open, add, delete, write-header, pack, linking by subject and marking as read from a new area ends sound, restarts of the numbering included |
| AreaRuns.LinkSound | lib/msg.c:398-461 | linking keeps the invariant |
| AreaRuns.RunPointers | lib/jammsg.c:806-869 | packing after any run: each pointer in the new lastread file counts the live messages up to a pointer that was there, or is 0 when that was a number from before the last restart |
| JamRuns.SoundMeans | lib/jammsg.c:419-436 | in a sound area headers with subfields tile the header file from 1024, texts tile the text file, the active count is the number of live messages, and live numbers increase along the index |
| JamLastRead.MarkedFound | lib/jammsg.c:381-411 | what a reader marks is found again under the same user, and the high pointer never falls but to the highest message of the area |
| JamLastRead.MarkedOthers | lib/jammsg.c:381-411 | another user, with another number and CRC, keeps his pointers, GoldED's records included |
| AreaRuns.RestartLosesPointer | lib/jammsg.c:419-436 | a reachable base whose numbering restarted, where packing sends the pointer of a live message to 0 |
| JamBase.MessageBase.constructor | lib/jammsg.c:596-609 | a new area: an information block and three empty files |
| JamBase.MessageBase.Open | lib/jammsg.c:585-638 | opening reads the information block back and changes nothing |
| JamBase.MessageBase.ReadIndexed | lib/jammsg.c:1017-1022 | reading at the cursor gives the header of that message and moves on by one record |
| JamBase.MessageBase.Highest | lib/jammsg.c:419-436 | the number of the last indexed message, or 0 when none is active |
| JamBase.MessageBase.Lowest | lib/jammsg.c:473-490 | the number of the first indexed message, or 0 when none is active |
| JamBase.MessageBase.ScanAbove | lib/jammsg.c:548-558 | the scan from the start finds the least live number above the argument |
| JamBase.MessageBase.SearchOn | lib/jammsg.c:525-540 | the scan from the cursor answers only what the whole scan would, or that it has not seen the argument |
| JamBase.MessageBase.Next | lib/jammsg.c:510-568 | from any cursor: the least live number above the argument, or false with the argument unchanged when there is none |
| JamBase.MessageBase.SearchDown | lib/jammsg.c:941-985 | the same for a downward scan from a position |
| JamBase.MessageBase.Previous | lib/jammsg.c:931-995 | from any cursor: the greatest live number below the argument, or false with it unchanged |
| JamBase.MessageBase.ScanFor | lib/jammsg.c:1048-1056 | the fall-back scan equals the linear search and leaves the cursor just past the record |
| JamBase.MessageBase.Locate | lib/jammsg.c:1011-1057 | the three stages together equal one linear search, whatever the buffer claims and wherever the cursor is |
| JamBase.MessageBase.ReadHeader | lib/jammsg.c:999-1205 | the buffer holds exactly the found header and its subfields, and the cursor stands just past the record |
| JamBase.MessageBase.LoadSubfields | lib/jammsg.c:1103-1188 | the walk over the subfields loads each of them, and no other |
| JamBase.MessageBase.FillFromAddress | lib/jammsg.c:1195-1201 | a missing sender address is taken from the MSGID line |
| JamBase.MessageBase.ShowSubfields | lib/jammsg.c:1234-1368 | the lines before and after the body, in order |
| JamBase.MessageBase.ShowText | lib/jammsg.c:1370-1426 | the body lines, wherever the 2049-byte read boundaries fall |
| JamBase.MessageBase.Read | lib/jammsg.c:1212-1456 | the whole message: header in the buffer, lines in the list |
| JamBase.MessageBase.AddSubfield | lib/jammsg.c:64-77 | one subfield appended to the header file, and its size |
| JamBase.MessageBase.StoreControl | lib/jammsg.c:221-263 | a control line becomes the subfield its tag asks for, or none |
| JamBase.MessageBase.StoreLine | lib/jammsg.c:216-278 | a line goes to the subfields or to the text |
| JamBase.MessageBase.AddMsg | lib/jammsg.c:167-298 | the files afterwards hold the old messages and the composed one behind them, counted and numbered |
| JamBase.MessageBase.Delete | lib/jammsg.c:329-352 | the live message of that number is marked deleted and one active less is counted; nothing else changes |
| JamBase.MessageBase.WriteHeader | lib/jammsg.c:1493-1541 | the flags, links and dates of the buffer go into the header of that live message, as JamRuns.WriteShown says, and nowhere else |
| JamBase.MessageBase.UpdateInfo | lib/jammsg.c:342-346 | the counters change and are written back |
| JamBase.MessageBase.RewritePointers | lib/jammsg.c:735-761 | all pointers equal to an old number, and no other, get the new one |
| JamBase.MessageBase.PackMessages | lib/jammsg.c:676-785 | one pass gives the new header, text and index files and the rewritten pointers |
| JamBase.MessageBase.KeepMessage | lib/jammsg.c:714-783 | a message that stays gets the next number and goes behind those kept so far |
| JamBase.MessageBase.GetLastRead | lib/jammsg.c:381-411 | the first record of the user, and its pointers, or none |
| JamBase.MessageBase.SetLastRead | lib/jammsg.c:1460-1466 | the record the search stopped at is written over, or one is added behind the last |
| JamBase.MessageBase.NewLastRead | lib/jammsg.c:502-506 | a record is added |
| JamBase.MessageBase.PackPointers | lib/jammsg.c:806-869 | the lastread file afterwards: limited pointers, records of users that are gone dropped, as JamPointers.PackedPlaces says |
| JamBase.MessageBase.Pack | lib/jammsg.c:646-927 | the files afterwards hold the packed base with its count and pointers |
| JamRoundTrip.StoreAndRead | lib/jammsg.c:167-298 | a message stored and then read returns with its names, subject, dates, links, all flags, and its lines section by section, each as storing left it; all lines come back if and only if every one is faithful |
| JamRoundTrip.MarkRead | mbsebbs/mail.c:1379-1405 | with the area locked, a user who has read a message has his pointers changed or added when that is asked for or the area is netmail, and nothing changes otherwise |
| MsgThreads.EntriesInOrder | lib/msg.c:400-419 | the table holds the numbers in increasing order, and one place more than there are active messages is enough |
| MsgThreads.EntriesHave | lib/msg.c:402-419 | every live message from the first number on is in the table |
| MsgThreads.NextEntry | lib/msg.c:419 | the next live message is the next entry |
| MsgThreads.RewriteLinks | lib/msg.c:452-457 | writing a header back with new links changes the links, and drops what the buffer does not carry |
| MsgThreads.LinkedSame | lib/msg.c:429-461 | linking changes no number, subject or text and deletes nothing |
| MsgThreads.LinkKeepsFlags | lib/msg.c:452-457 | linking changes no flag of a message |
| MsgThreads.CaseDoesNotMatter | lib/msg.c:406-413 | subjects that differ in letter case only have one key |
| MsgThreads.ReplySameKey | lib/msg.c:406-412 | a subject that does not begin with "RE:" in any case has the key of the same with "Re:" in any case and a space before it, and, when it does not begin with a space itself, without the space too |
| MsgThreads.KeyOfCapitals | lib/msg.c:406-413 | of a subject in capitals without "RE:" the key is the CRC of its bytes |
| MsgChains.BeforeIs | lib/msg.c:434-445 | the backward search gives the last entry of the subject before the message, or 0 |
| MsgChains.AfterIs | lib/msg.c:434-445 | the forward search gives the first entry of the subject after it, or 0 |
| MsgChains.LinkedAt | lib/msg.c:398-461 | when the first indexed number is that of a live message, each message links to its predecessor and successor in its subject, 0 at the ends |
| MsgChains.LinksInverse | lib/msg.c:452-457 | in a threaded area the two links are inverse to each other |
| MsgChains.LinkExactly | lib/msg.c:398-461 | linking threads every subject if and only if the first indexed number is that of a live message, or no live message has the key of an empty subject and none shares the last one's |
| MsgChains.LinkTwice | lib/msg.c:452-457 | a second run changes nothing, and returns 0 when the first number is that of a live message |
| AreaRuns.LinkAfterRun | lib/msg.c:398-461 | the same after any run on an area, linked before or not, where the condition is that message 1 is there |
| AreaRuns.ReplyIsLinked | lib/msg.c:398-461 | a message added and then a reply with "Re: " before its subject are linked to each other |
| AreaRuns.DeletedFirstBreaksThread | lib/msg.c:402-445 | a run of three additions and one deletion after which linking does not thread the two messages left |
| MsgLink.SubjectKey | lib/msg.c:406-413 | the key: the CRC of the subject in upper case without "RE:" and one space, about which MsgThreads.ReplySameKey says what it depends on |
| MsgLink.FindLinks | lib/msg.c:434-445 | the inner loop over the table finds both links |
| MsgLink.Collect | lib/msg.c:400-419 | the first pass fills the table with one entry per message it comes to |
| MsgLink.Store | lib/msg.c:452-457 | the header is rewritten exactly when a link differs |
| MsgLink.LinkAll | lib/msg.c:427-461 | the second pass leaves every message linked and counts those that changed |
| MsgLink.LinkArea | lib/msg.c:380-489 | the files afterwards, the count returned, -1 without a lock; the area stays sound |
| MsgText.TextList.Add3 | lib/msgtext.c:80-108 | the line goes behind the last one wherever the cursor was, and the cursor to it |
| MsgText.TextList.Insert3 | lib/msgtext.c:170-194 | the line goes behind the one under the cursor |
| MsgText.TextList.Remove | lib/msgtext.c:245-264 | the line is gone; the cursor is on the next one, or else on the one before |
| MsgText.TextList.Replace3 | lib/msgtext.c:303-327 | the line under the cursor is replaced, or nothing happens to an empty list |
| MsgText.TextList.First | lib/msgtext.c:121-132 | the cursor goes to the first line and gives it |
| MsgText.TextList.Last | lib/msgtext.c:198-209 | the cursor goes to the last line and gives it |
| MsgText.TextList.Next | lib/msgtext.c:213-225 | the cursor goes on and gives the line, or stays at the end and gives none |
| MsgText.TextList.Previous | lib/msgtext.c:229-241 | the same backwards |
| MsgText.TextList.Clear | lib/msgtext.c:112-117 | it terminates with an empty list |
| MsgText.TextList.AllLines | lib/jammsg.c:216-278 | walking from the first line as long as there is a next one visits every line once, in order |
| MsgText.Perform | lib/msgtext.c:80-327 | every run of operations keeps a well-formed doubly linked list that is the sequence with its cursor; the count of elements is the number of lines modulo 65536 |
| MsgText.LinkedIn | lib/msgtext.c:180-186 | the four pointer changes of an insertion keep the list well formed |
| MsgText.LinkedOut | lib/msgtext.c:250-253 | the two pointer changes of a removal keep the list well formed |
| MsgText.LinkedOver | lib/msgtext.c:312-319 | the pointer changes of a replacement keep the list well formed |
| MsgText.AddsInOrder | lib/msgtext.c:80-108 | adding with the cursor moved about in between keeps the lines in the order they came |
| MsgText.WalkThere | lib/msgtext.c:121-241 | after any run the first line and k steps on come to line k, the last one and k steps back to the line k before it, and past either end the cursor stays |
| MsgText.RemoveShows | lib/msgtext.c:245-264 | removing shows the line a step on would have shown, or a step back when there is none, and keeps the others in order |
| MsgText.ReplaceIsInsertRemove | lib/msgtext.c:303-327 | replacing a line is inserting behind it, going back and removing |
| MsgText.InsertsInOrder | lib/msgtext.c:170-194 | inserting line after line puts them in order behind the line that was under the cursor |
| MsgText.InsertThenRemove | lib/msgtext.c:245-264 | removing what was just inserted gives the lines back, and where the cursor then is |
| BinkpFrame.DecodeConcat | mbcico/binkp.c:2382-2467 | where the stream of bytes is cut does not matter |
| BinkpFrame.DecodeWire | mbcico/binkp.c:2382-2467 | the bytes of a frame give back that frame, and no earlier |
| BinkpFrame.DecodeAll | mbcico/binkp.c:1875-1958 | any sequence of frames is recovered in order, under the 15-bit and the PLZ 14-bit length mask |
| BinkpFrame.WireLayout | mbcico/binkp.c:1862-1973 | the bytes of a frame: command bit, PLZ bit, length with its high byte first, then the block, compressed exactly when it may be and that makes it shorter |
| BinkpFrame.AdaptedFits | mbcico/binkp.c:1910-1920 | a block of the adapted size, packed as well as the last one, takes at most 2048 bytes on the line, unless it has the least size, and 512 bytes more would exceed that, unless it has the greatest |
| BinkpFrame.FrameSender.SendFrame | mbcico/binkp.c:1862-1973 | the frame's bytes are sent, or nothing and false exactly when the block is too long for PLZ mode; the block size changes with data only |
| BinkpFrame.FrameSender.Adapt | mbcico/binkp.c:1916-1920 | the adaptive block size, within its limits, about which BinkpFrame.AdaptedFits says what it is for |
| BinkpFrame.FrameSender.SendData | mbcico/binkp.c:1720-1735 | a block the sender reads is never refused |
| BinkpFrame.FrameReceiver.PutByte | mbcico/binkp.c:2382-2440 | one byte continues or ends the frame as the decoder says |
| BinkpFrame.FrameReceiver.PollFrame | mbcico/binkp.c:2374-2472 | polling gives the next frame of what has arrived, or leaves the start of one |
| BinkpFrame.FrameReceiver.Drain | mbcico/binkp.c:2374-2472 | polling until nothing is left gives exactly the decoded frames |
| BinkpFrame.Transfer | mbcico/binkp.c:1862-1973 | bytes of frames cut into chunks anywhere are received as those frames, in order, with the same kind and payload |
| BinkpFrame.WireAppend | mbcico/binkp.c:1862-1973 | a frame sent behind others puts its bytes behind theirs |
| BinkpFrame.EndToEnd | mbcico/binkp.c:1862-1973 | blocks sent one by one and the line cut anywhere: the receiver gets exactly the blocks that were not refused, in order, with their kind and contents |
| BinkpResume.ReceiveGood | mbcico/binkp.c:1156-1448 | a frame that follows the protocol keeps the partial file a prefix of the sender's, and is answered M_GOT only with the whole file |
| BinkpResume.Consumed | mbcico/binkp.c:1156-1448 | taking the first frame under way leaves the outcome of all of them as it was |
| BinkpResume.TransmitInv | mbcico/binkp.c:1514-1774 | every step of the transmitter keeps the invariant, also when data follows an M_GET resync |
| BinkpResume.ProcessInv | mbcico/binkp.c:2595-2603 | so does acting on a queued answer |
| BinkpResume.StepInv | mbcico/binkp.c:1156-1774 | every step of either side, an arrival, a new batch and a disconnect keep it |
| BinkpResume.RunInv | mbcico/binkp.c:1156-1774 | so does every run |
| BinkpResume.ResumeSafe | mbcico/bopenfile.c:50-125 | after any number of disconnects and restarts the file on the receiver's disk is a prefix of the sender's, a delivered file is the file, and an M_GOT is under way only when the receiver has it whole |
| BinkpResume.GotMeansWhole | mbcico/binkp.c:1410-1446 | M_GOT is sent only at a moment the receiver has the whole file |
| BinkpResume.DeliveredExactly | mbcico/binkp.c:1250-1263 | over all runs M_GOT means that the file was delivered if and only if the file is not empty and the partial file found at the start is not the whole of it |
| BinkpResume.EmptyFileKept | mbcico/binkp.c:1250-1263 | an empty file is answered M_GOT and stays undelivered |
| BinkpProgress.NeverSkipped | mbcico/binkp.c:1274-1282 | over every run no M_SKIP is under way or queued and the file is never given up |
| BinkpProgress.FinishExactly | mbcico/binkp.c:1075-1494 | from every reachable state, after any disconnects, some continuation without another one ends with the file answered M_GOT and whole at the receiver, delivered if it was not empty or whole at the start, if and only if the file is not doomed: in binkp/1.1 always |
| BinkpProgress.ReconnectFinishes | mbcico/binkp.c:1075-1494 | after a disconnect, whatever came before, such a continuation exists |
| BinkpProgress.SentTooSoon | mbcico/binkp.c:1453-1480 | in binkp/1.0 a file that is there in part, and is sent in one block before the answer comes, cannot be finished in that session |
| BinkpProgress.ResumesAt | mbcico/binkp.c:1216-1289 | a receiver with a proper non-empty beginning of the file answers exactly the M_GET for its length, takes the M_FILE that follows from there on, and appends to that beginning what comes |
| BinkpProgress.TakenAtOnce | mbcico/binkp.c:1216-1289 | with nothing there the file is taken at once, without an answer, unless it is empty |
| BinkpResume.BinkpReceiver.ReceiveFrame | mbcico/binkp.c:1075-1494 | the receiver's variables change as the step system says, frame by frame |
| BinkpResume.BinkpReceiver.AcceptFile | mbcico/binkp.c:1156-1293 | M_FILE: confirm, ask for an offset, refuse, or receive, as BinkpProgress.ResumesAt, TakenAtOnce and FinishExactly say what comes of it |
| BinkpResume.BinkpReceiver.BOpenFile | mbcico/bopenfile.c:50-125 | the size that is there, and a file open to append |
| BinkpResume.BinkpReceiver.WriteData | mbcico/binkp.c:1335-1448 | data is appended; the last block delivers the file and answers M_GOT |
| BinkpSession.NonePending | mbcico/binkp.c:2697-2710 | no file is pending if and only if every listed one is Got or Skipped |
| BinkpSession.ProcessProgress | mbcico/binkp.c:2503-2690 | acting on the queue changes states of listed files and the transmitter's turn, nothing else |
| BinkpSession.ReceiverInv | mbcico/binkp.c:1075-1494 | every turn of the receiver keeps the invariant |
| BinkpSession.TransmitterInv | mbcico/binkp.c:1502-1850 | every turn of the transmitter keeps it |
| BinkpSession.StepInv | mbcico/binkp.c:990-1056 | every turn of the loop keeps it |
| BinkpSession.RunInv | mbcico/binkp.c:980-1066 | so does every course of events |
| BinkpSession.TransferComplete | mbcico/binkp.c:980-1066 | if file_transfer returns 0, in binkp/1.0 or 1.1, every entry ever listed has left the list, in every batch; it was Got because an M_GOT or an M_GET from its end on named it or it was gone from disk, or Skipped because an M_SKIP named it or it could not be opened |
| BinkpSession.HeardPolled | mbcico/binkp.c:2374-2472 | an answer is among those heard only if some poll gave a frame with it |
| BinkpSession.StepKnown | mbcico/binkp.c:990-1056 | every turn keeps the explanation of every state, listed or released |
| BinkpSession.CrashNamed | mbcico/binkp.c:2543-2578 | the NULL pointer is followed only when the remote asked for a file from its end |
| BinkpStuck.BadBlockDooms | mbcico/binkp.c:2428-2440 | once a compressed block did not uncompress, a file that is sent, or left in the middle, and not answered keeps file_transfer from ever returning 0, whatever the remote sends |
| BinkpStuck.RunTidy | mbcico/binkp.c:980-1066 | in every run receiver and transmitter are done together, and between turns no frame is left and the end of the list means that nothing is new on it |
| BinkpStuck.Unanswered | mbcico/binkp.c:2503-2690 | a file that is sent, or Sending while the transmitter is elsewhere, lets file_transfer return 0 only after an answer about that very file |
| BinkpStuck.LeavesExactly | mbcico/binkp.c:2595-2662 | an answer makes the transmitter leave the current file unsettled if and only if it is about another entry, and asks for that one again or settles one that was itself left |
| BinkpStuck.AnswerEnds | mbcico/binkp.c:2619-2669 | an M_GOT or M_SKIP about the first entry of its name ends the wait |
| BinkpOutcome.StuckExactly | mbcico/binkp.c:2428-2440 | after a block that did not uncompress some course of events makes file_transfer return 0 if and only if the remote is done (1.0: the receiver is past its M_EOB, 1.1: the M_EOB is in) and the queue answers every file that needs it, in 1.1 with fewer than three messages by the end of the batch |
| BinkpOutcome.DeafExactly | mbcico/binkp.c:990-1066 | over every run, no course of events gives the receiver another turn if and only if a block did not uncompress, or the session is over, or the transmitter's turn under way ends it |
| BinkpOutcome.StuckDeaf | mbcico/binkp.c:2382-2386 | after such a block what a poll brings makes no difference |
| BinkpOutcome.BadBlockExample | mbcico/binkp.c:2428-2440 | one file sent and then such a block: the file is IsSent, and the session neither receives nor returns 0 any more |
| BinkpOutcome.AskedAgainExample | mbcico/binkp.c:2595-2603 | an M_GET for the first of two files while the second is being sent leaves the second Sending, and file_transfer does not return 0 until an answer about it comes |
| BinkpSuccess.SessionSucceeds | mbcico/binkp.c:980-1066 | any list of different files, each sent and answered M_GOT or M_SKIP as the remote likes, and M_EOB from both sides: file_transfer returns 0, in binkp/1.0 and 1.1, and the list released says Got or Skipped as the remote did |
| BinkpSuccess.FileTaken | mbcico/binkp.c:1075-1448 | a file that comes in, in any number of blocks, is taken, and nothing but the count of messages changes by it |
| BinkpSuccess.AnswerTaken | mbcico/binkp.c:1107-1116 | an answer that comes in is put on the queue, in every state of the receiver before it is done, and nothing else changes but the count of messages |
| BinkpTransfer.FileTransfer.CountPending | mbcico/binkp.c:2697-2710 | the number of files without a final answer |
| BinkpTransfer.FileTransfer.ProcessAnswer | mbcico/binkp.c:2520-2680 | the named file is found and changed as M_GET, M_GOT or M_SKIP ask, and it is recorded when cursend is looked into after it was set to NULL |
| BinkpTransfer.FileTransfer.SearchFor | mbcico/binkp.c:2537-2538 | the search for the file an answer names |
| BinkpTransfer.FileTransfer.ProcessQueue | mbcico/binkp.c:2503-2690 | all queued answers are acted on in order and the queue is empty |
| BinkpTransfer.FileTransfer.RunReceiver | mbcico/binkp.c:1075-1494 | a turn of the receiver is the modelled one |
| BinkpTransfer.FileTransfer.EnsureList | mbcico/binkp.c:1518-1545 | a list is made when there is none; after twenty batches one without files |
| BinkpTransfer.FileTransfer.FillList | mbcico/binkp.c:2803-2826 | the files go on the list one by one, those that are gone as Got |
| BinkpTransfer.FileTransfer.SearchNew | mbcico/binkp.c:1556-1557 | the search for the first unsent file |
| BinkpTransfer.FileTransfer.NextFile | mbcico/binkp.c:1556-1645 | the next unsent file is announced, or M_EOB is sent |
| BinkpTransfer.FileTransfer.WaitLastAck | mbcico/binkp.c:1779-1839 | waiting for the last answers, and the end of a batch or of the session |
| BinkpTransfer.FileTransfer.RunTransmitter | mbcico/binkp.c:1502-1850 | a turn of the transmitter is the modelled one |
| BinkpTransfer.FileTransfer.Poll | mbcico/binkp.c:2374-2472 | nothing is read while a frame is not processed; otherwise a frame, an error, nothing, or a block that stays unprocessed for good |
| BinkpTransfer.FileTransfer.Transfer | mbcico/binkp.c:980-1066 | over any course of events, a result of 0 means that every file ever listed was answered before its list was released, by the remote's word or by a look at the disk |
| Crc32.TableIsSteps | lib/crc.c:73-106 | every entry of the table is eight shift/xor steps on its index |
| Crc32.TableStepIsSteps | lib/crc.c:237-247 | for every register and byte, signed ones included, a table step is eight shift/xor steps with 0xedb88320 |
| Crc32.RegisterConcat | lib/mbfile.c:186-193 | a buffer processed in any split gives what it gives whole |
| Crc32.UpdCrc32 | lib/crc.c:237-247 | the loop computes the bit-serial register |
| Crc32.Crc32Ccitt | lib/crc.c:184-192 | the same from 0xffffffff |
| Crc32.FileCrc | lib/mbfile.c:176-198 | reading in blocks gives the checksum of the whole file, complemented |
| Crc32.RegisterInjective | lib/crc.c:237-247 | a common tail cannot hide a difference in the register |
| Crc32.FourBytes | lib/crc.c:237-247 | four bytes enter the register as one word |
| Crc32.FourBytesInjective | lib/crc.c:237-247 | different groups of four bytes give different registers |
| Crc32.WindowDetected | lib/crc.c:237-247 | buffers that differ only inside four consecutive bytes have equal checksums if and only if they are equal, from every start value |
| Crc32.FiveBytesCollide | lib/crc.c:237-247 | two buffers of five bytes with one checksum from every start value, so four is the most that can be promised |
| NodeRecord.NodeCache.Load | lib/dbnode.c:109-119 | the record and the checksum of what is stored |
| NodeRecord.NodeCache.UpdateNode | lib/dbnode.c:131-153 | the record goes back to its place exactly when the checksums differ, nothing else in the file changes, and an edit inside four consecutive bytes is never lost |
| Crc16Ccitt.TableIsSteps | lib/crc.c:146-180 | every entry of the table is eight steps on its index, polynomial 0x8408 |
| Crc16Ccitt.TableStepIsSteps | lib/crc.c:196-205 | a table step is eight shift/xor steps |
| Crc16Ccitt.Crc16Ccitt | lib/crc.c:196-205 | the loop computes the bit-serial register from 0xffff |
| Crc16Ccitt.WindowDetected | lib/crc.c:196-205 | buffers that differ only inside two consecutive bytes have equal checksums if and only if they are equal, from every start value |
| Crc16Ccitt.ThreeBytesCollide | lib/crc.c:196-205 | two buffers of three bytes with one checksum from every start value, so two is the most that can be promised |
| Crc16Xmodem.TableIsSteps | lib/crc.c:110-143 | every entry of the table is eight steps to the left on its index, polynomial 0x1021 |
| Crc16Xmodem.TableStepIsSteps | lib/crc.c:271-278 | a table step is eight shift/xor steps |
| Crc16Xmodem.Crc16Xmodem | lib/crc.c:271-278 | the loop computes the register from 0 |
| Crc16Xmodem.WindowDetected | lib/crc.c:271-278 | buffers that differ only inside two consecutive bytes have equal checksums if and only if they are equal, from every start value |
| Crc16Xmodem.ThreeBytesCollide | lib/crc.c:271-278 | two buffers of three bytes with one checksum from every start value, so two is the most that can be promised |
| Diesel.ArgsCounted | lib/diesel.c:1505-1582 | a scan that succeeds has written exactly as many terminated strings as it returns, at most MAXARGS, shorter than what it read |
| Diesel.MacroArgs | lib/diesel.c:1486-1583 | so arguments are strictly shorter than the string evaluated, which with the depth of EVAL is why evaluation ends |
| Diesel.Args | lib/diesel.c:1601-1604 | splitting the buffer gives that many strings, none with a NUL |
| DieselLiteral.CopyQuoted | lib/diesel.c:1419-1474 | copying a quoted text writes the text and goes on behind it, as long as it fits |
| DieselLiteral.ScanQuoted | lib/diesel.c:1505-1582 | so does scanning it as an argument |
| DieselLiteral.LiteralExactly | lib/diesel.c:1719-1763 | any text without NUL, quoted once, evaluates to itself with status 0; past the limit it is cut and marked |
| DieselLiteral.LiteralArguments | lib/diesel.c:1486-1583 | a macro with quoted arguments hands over exactly those texts when they fit in number and length, and fails when they do not |
| DieselLiteral.EqualExactly | lib/diesel.c:934-944 | EQ of two doubly quoted texts gives 1 when they are equal and 0 when not, and an error exactly when the macro is too long for the buffer |
| DieselLiteral.EvalRescans | lib/diesel.c:948-965 | EVAL of a doubly quoted text is the text evaluated one level deeper, when the result fits; at level MAXDEPTH it is an error |
| DieselCalls.IfExactly | lib/diesel.c:1053-1071 | @(IF,c,a,b) of doubly quoted texts gives a when c is a number other than 0, b when it is 0, a diagnostic when it is none, and an error exactly when the macro is too long for the buffer |
| DieselCalls.IfWithoutElse | lib/diesel.c:1053-1071 | without b it gives nothing for 0 |
| DieselCalls.IfChooses | lib/diesel.c:1053-1071 | for arbitrary arguments output and variables are those of the branch that the condition chooses, and of no other |
| DieselCalls.UnknownMacro | lib/diesel.c:1650-1655 | a name that is not in the table is shown in capitals with question marks, and the column is returned |
| DieselCalls.FailedMacro | lib/diesel.c:1630-1643 | a function that fails is shown with its name, and the column is returned |
| DieselVars.EvalGrows | lib/diesel.c:1719-1763 | without a CLEAR no evaluation removes or renames a variable, or puts one before an older one of the same name; in either case a chain that has what was set since the last CLEAR still does; as long as no freed variable was looked at |
| DieselVars.RunLatest | lib/diesel.c:1719-1763 | after any run of evaluations, CLEAR included, a variable has the value set last since the last CLEAR, or there is none |
| DieselVars.ClearsAll | lib/mbdiesel.c:84-94 | evaluating @(CLEAR) gives the empty string with status 0 and leaves no variable |
| DieselVars.GetOfClearDangles | lib/diesel.c:1029-1044 | a GETVAR whose argument is @(CLEAR) goes on to look at freed memory whenever there was a variable |
| DieselVars.NoMacro | lib/diesel.c:1419-1474 | an argument without a macro changes no variable, so it never leaves a pointer dangling |
| DieselVars.StoredIs | lib/diesel.c:1171-1209 | storing sets that variable and no other |
| DieselVars.SetVarSets | lib/diesel.c:1171-1209 | SETVAR follows a dangling pointer if and only if there were variables and its arguments cleared them; otherwise it succeeds, its variable has the new value whatever its arguments did to the chain, and no other changes |
| DieselVars.GetVarGets | lib/diesel.c:1029-1044 | GETVAR follows a dangling pointer if and only if there were variables and its argument cleared them; otherwise it succeeds if and only if the variable was there before its argument was evaluated, and gives its value of now |
| DieselVars.SetThenGet | lib/diesel.c:1171-1209 | any text set as a variable and got back is the same text |
| DieselTemplate.TemplateExpands | lib/diesel.c:1719-1763 | a template, texts and variables in any number and order, evaluates to the texts and the values of the variables in that order, and changes no variable |
| DieselRun.CopyMode | lib/diesel.c:1419-1474 | the loop of copymode |
| DieselRun.ScanMacro | lib/diesel.c:1486-1583 | the loop of macromode |
| DieselRun.SplitArgs | lib/diesel.c:1601-1604 | the loop that finds the arguments |
| DieselRun.Interpreter.FindVar | lib/diesel.c:1037-1042 | the walk along the chain as it was at the call |
| DieselRun.Interpreter.Diesel | lib/diesel.c:1719-1763 | the loop of diesel gives the modelled value, restores the depth and leaves the modelled variables |
| DieselRun.Interpreter.Value | lib/diesel.c:1592-1655 | the name is evaluated, looked up and its function called, as macrovalue does |
| DieselRun.Interpreter.FEqual | lib/diesel.c:934-944 | both arguments are evaluated in order and compared, as EQ does |
| DieselRun.Interpreter.FEval | lib/diesel.c:948-965 | the argument is evaluated and re-scanned one level deeper, and the depth counter restored, as EVAL does |
| DieselRun.Interpreter.FIf | lib/diesel.c:1053-1071 | the condition is evaluated and then exactly one of the branches, as IF does, whose choice DieselCalls.IfExactly and IfChooses state |
| DieselRun.Interpreter.FClear | lib/diesel.c:1006-1024 | CLEAR does |
| DieselRun.Interpreter.FGetVar | lib/diesel.c:1029-1044 | GETVAR does, with the chain it keeps from before its argument, freed or not |
| DieselRun.Interpreter.FSetVar | lib/diesel.c:1171-1209 | SETVAR does, in place or with a new variable in front, with the chain it keeps from before its arguments, freed or not |
| FilesDb.InsertExactly | lib/dbfdb.c:250-365 | the new record is in exactly once, every other record once, in its old order and unchanged but for a magic name taken over |
| FilesDb.InsertOthers | lib/dbfdb.c:304-347 | the other records afterwards: those with another long name, each once and in order, every field as it was but a magic name that the new record takes over |
| FilesDb.InsertUnique | lib/dbfdb.c:304-347 | no two records share a long name, nor a non-empty magic name, afterwards |
| FilesDb.LessExactly | lib/dbfdb.c:276-290 | the order of long names: behind what two have in common, the one that ends first, or the one with the lesser character, comes first |
| FilesDb.InsertSorted | lib/dbfdb.c:277-328 | alphabetical insertion keeps a sorted area sorted |
| FilesDb.PackOrder | lib/dbfdb.c:400-405 | the packed records are those that are neither deleted nor double and have a name, each once, in their old order |
| FilesDb.PackKeeps | lib/dbfdb.c:400-405 | packing keeps exactly those records, their order and their uniqueness |
| FilesDb.PermutedUnique | lib/dbfdb.c:498-555 | sorting keeps the records unique |
| FilesDb.RunUnique | lib/dbfdb.c:250-555 | over every run of insert, pack and sort from an empty area no two records share a long name or a non-empty magic name |
| FilesDb.RunSorted | lib/dbfdb.c:250-415 | an area that only alphabetical inserts and packs have worked on is sorted |
| FilesDb.InsertSortedCase | lib/dbfdb.c:277-328 | an area in the order of SortFDB stays in it at an alphabetical insertion if and only if strcasecmp agrees with strcmp about the records at the insert point |
| FilesDb.CapitalBreaksOrder | lib/dbfdb.c:277-290 | "a" inserted into an area of "B" leaves it unsorted for strcasecmp |
| FilesDb.RunSortedLower | lib/dbfdb.c:250-555 | with names without capitals every run of alphabetical inserts, packs and sorts leaves the area sorted in both orders |
| FileArea.Area.SearchPoint | lib/dbfdb.c:276-290 | the loop that searches the insert point |
| FileArea.Area.CopyRecords | lib/dbfdb.c:304-321 | the copy loop drops a replaced record and clears a magic name taken over |
| FileArea.Area.InsertFDB | lib/dbfdb.c:250-365 | the data file afterwards |
| FileArea.Area.PackFDB | lib/dbfdb.c:372-415 | the data file afterwards, and the number of records dropped |
| FileArea.Area.SortFDB | lib/dbfdb.c:498-555 | the same records in an order strcasecmp finds sorted; the number written, 0 when there is nothing to sort |
| FileArea.Relink | lib/dbfdb.c:472-480 | the loop that walks the list it is relinking leaves the list in the order of the vector |
| FileArea.SortFdbs | lib/dbfdb.c:455-484 | the list afterwards has the same entries, each once, sorted |
| DupeDb.RunWindow | lib/dbdupe.c:73-178 | over any run with one maximum the table is a suffix of the whole history, at least the last max of it, and has room for one more |
| DupeDb.DupeReported | lib/dbdupe.c:123-127 | an identifier among the last max is reported as a dupe, one outside the history never is |
| DupeDb.ClosedOnDisk | lib/dbdupe.c:145-178 | after any run closing leaves on disk the newest part of the history, no more than max of it if any was added, and the database as it was if not |
| DupeDb.Dupes.LoadDdb | lib/dbdupe.c:80-121 | the database read into a table with room to spare |
| DupeDb.Dupes.CheckDupe | lib/dbdupe.c:73-141 | the answer and the table afterwards; the append stays within the array |
| DupeDb.Dupes.CloseDdb | lib/dbdupe.c:145-178 | a changed table is written back, the newest max identifiers of it |

## Left out

- JamBase.MessageBase.Read: asks for lines shorter than the width, so the word wrapping of JAM_Read is not modelled.
- JamBase.MessageBase.AddMsg: asks that the files stay within C ints and that every line fits the buffers it is read back to; overlong lines are not modelled.
- JamBase.MessageBase.Next: asks that live numbers increase along the index and that the active count is not 0 exactly when a message is live, which every run keeps (JamRuns.SoundMeans); bases written by other programs are not covered. The same goes for Previous, ReadHeader, Delete and WriteHeader.
- JamRoundTrip.StoreAndRead: says nothing of the FLAGS and TZUTC subfields, which JAM_AddMsg never writes, nor of the msgid and replyid buffers.
- BinkpResume.ResumeSafe: one uncompressed file that does not change, without CRC mode and low disk, and without an M_GET for the current file with an offset equal to its size; several partly received files are not modelled.
- BinkpProgress.FinishExactly: says that there is such a course of events, not that every fair one is of that kind.
- BinkpSuccess.SessionSucceeds: the remote answers each file when it is sent, and sends no files in between; BinkpSuccess.FileTaken says what one does.
- BinkpSession.TransferComplete: the contents of files are abstracted to the outcomes of the file operations; a run in which the NULL pointer was followed (`crashed`) goes on in the model as if it had not been.
- BinkpTransfer.FileTransfer.ProcessAnswer: the stream of the file being sent is not modelled, so neither is that an answer about a file left in the state Sending closes a stream that is not its own.
- BinkpFrame.Transfer: asks that zlib gives back what it packed.
- JamPointers.UserAfterPack: asks for at most 2^32 users, as many as a record can number.
- DieselTemplate.TemplateExpands: asks that two texts do not follow each other, that the variables exist, and that each call and the whole output fit the limits; each piece is quoted.
- DieselVars.SetThenGet: asks that the macro fits the scanner's buffer; beyond it SETVAR fails as DieselLiteral.LiteralArguments says.
- DieselRun.Interpreter.FGetVar: when it follows a freed pointer the C program's behaviour is not defined; the model then gives an error and marks the variables. The same goes for FSetVar.
- DieselRun.Interpreter.Value: for a name that does not evaluate the C code copies an unset buffer that is then discarded; the model uses an empty one.
- The recovery branch of JAM_Pack for a corrupt signature, and JAM_ReadHeader's check of corrupt subfields.
- The ReplyAddr and ReplyTo fields of the message buffer.
- Which user records still exist is a list of checksums given to Pack.
- Of the session only file transfer: no handshake, passwords, M_NUL parsing, GZ and BZ2 streams, timers other than their outcome.
- The DIESEL functions on reals, bits, substrings and time; they appear only as a step function that has arguments evaluated and then gives a result, each argument at most once.
- No bound on the length of DIESEL's whole output, whose limit is checked part by part.
- Msg_Link's progress output, and the Msg_ wrappers that only check the lock.
- The variants of the list functions that do not copy the line (Add1, Insert1, Replace1), and Msg.Size.
- Locks, logging, and failures of memory and of file operations.
