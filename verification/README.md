# A verified model of the transactional monitor

The monitor connects client programs to servers through a router. This project models, in Dafny,
the parts of it whose behaviour spans several steps, and proves what they promise.

- **DES and two-key triple DES** (`DesTables`, `DesSpec`, `DesStandard`, `DesBoxes`, `DesTheorems`,
  `HexText`, `DesText`, `DesCode`). `DesSpec` is FIPS 46-3 as functions over bits; `DesStandard` and
  `DesBoxes` fix what its tables and rounds are, in the terms of the standard. `DesCode` is the C code:
  integer arrays permuted in place and a key register that is rotated inside `f` and never reset. The
  code is proved to compute the function, and the function to have the round trips, the
  complementation property and the independence of blocks.
- **Stored buffers and chunked replies** (`IdAllocator`, `BufferServer`, `BufferTheorems`,
  `ChunkedReply`, `ChunkedTheorems`, `ChunkedTransfer`). A reply longer than the client's window is
  stored and pulled by offset. The three state machines (client, router, buffer server) are proved to
  reassemble it while other parties use the same store.
- **Timers** (`Timers`, `TimerServer`, `TimerTheorems`) and **transactions** (`Transactions`,
  `TransactionEvents`, `TransactionTimes`). Two tables of deadlines with a drain loop, proved over whole
  runs of their servers, from a request to what comes of it.
- **Registry and routing** (`Strings`, `ServiceTable`, `ServerTable`, `ServerTheorems`, `Routing`,
  `Registry`, `RegistryTheorems`). Slot tables with holes, the join that finds the queues of a service, the choice of the
  least loaded queue, the delivery of events, and the text form of the server table.
- **Headers and messages** (`Header`, `HeaderTheorems`, `Message`). Numbers and texts printed into a
  record of 228 characters and parsed out of it, the wire form, and the preparation of an answer.

Each server message is one atomic step. The clock is a parameter, read once for each message and once
for each drain loop. What another process answers (the `.set_timer` call made while a buffer is
stored, whether a request to the buffer server is answered, the length of a queue, whether a process
could be forked, the contents of a file) is a parameter as well.

Each object of the program that updates its fields is a class here. Its methods are proved equal to
functions from state to state, and the theorems over runs are about those functions. No proof relies on
automatic induction: it is switched off wherever Dafny would use it.

## Where the code falls short of its purpose

Each of these is proved as an exact condition or for every input of its kind; where an exact condition
is given, a lemma beside it shows a concrete input that fails:

- Only upper-case hexadecimal text survives encryption and decryption
  (`DesText.DecryptInvertsEncrypt`, `DesText.LowerCaseIsLost`); "aa" is read as "CA" is
  (`HexText.LowerCaseMisread`). `Des3Encrypt` and `Des3Decrypt` answer
  0 even when a length is refused and nothing is written.
- If the window divides the length of a reply, the last request is answered `GME_UNDEFINED` after all
  data has arrived, and the buffer stays stored (`ChunkedTheorems.ReplyIsReassembled`,
  `ChunkedTheorems.EvenWindowLeavesBuffer`). The header documents a window of 0 as "no limit"; the code
  leaves a stored copy behind (`ChunkedTheorems.ZeroWindowLeavesBuffer`).
- A service or server name of more than 32 characters is stored cut and never found again
  (`ServiceTable.AddCountsWhenItFits`, `ServiceTable.RemovableWhenItFits`,
  `ServiceTable.LongNameTwice`, `ServerTheorems.FoundWhenItFits`, `ServerTheorems.LongNameIsLost`).
- If the earliest deadline is more than 21474836 seconds away, the wait of the transaction server
  overflows when it is turned into hundredths; a negative wait has no end (`TransactionTimes.PauseIsExact`,
  `TransactionTimes.PauseOverflows`). With no timeout longer than that it never happens
  (`TransactionTimes.ShortTimeoutsPauseExactly`).
- A queue that does not answer is kept as the choice if it is the first one looked at
  (`Routing.LeastLoadedWhenFirstAnswers`, `Routing.SilentFirstQueue`).
- A number too wide for its field is printed over the next field, and a time stamp of 2 to the 32 or
  more fits its ten digits but is cut to 32 bits when it is read; a negative queue number is printed in
  ten digits (`HeaderTheorems.NumberFits`, `HeaderTheorems.WideNumber`, `HeaderTheorems.TimeStampWraps`,
  `HeaderTheorems.NegativeQueue`). A text with a space is cut (`HeaderTheorems.TextFits`,
  `HeaderTheorems.TextWithSpace`). The count of answers wraps from 99999 to 10000 (`Message.AnswerCounts`,
  `Message.LargestCountWraps`).

## Model

| member | source | states |
|---|---|---|
| DesStandard.InitialPermutation | system/tools/gm_des/desmat.h:1-8 | IP takes the columns of the block, the even ones first, each from its last bit up |
| DesStandard.Expansion | system/tools/gm_des/desmat.h:43-49 | E takes groups of four bits with their neighbours on both sides |
| DesStandard.PermutedChoice1C | system/tools/gm_des/desmat.h:28-34 | which key bits PC1 puts into C |
| DesStandard.PermutedChoice1D | system/tools/gm_des/desmat.h:28-34 | and which into D |
| DesStandard.PermutationP | system/tools/gm_des/desmat.h:50-53 | where P puts the four output bits of each box |
| DesStandard.PermutedChoice2 | system/tools/gm_des/desmat.h:36-41 | where each bit of C and D goes in a subkey, or that it is dropped |
| DesStandard.RotationOfRound | system/tools/gm_des/desmat.h:129 | one place in rounds 1, 2, 9 and 16, two in all others |
| DesStandard.SubkeyFollows | system/tools/gm_des/sec.c:336-352 | a subkey is chosen from the registers of the round before, rotated on |
| DesStandard.LastSubkey | system/tools/gm_des/sec.c:336-352 | the last subkey is chosen from the registers of the start |
| DesStandard.LeftByOne | system/tools/gm_des/sec.c:299-312 | one place to the left, in both halves |
| DesStandard.RoundHalves | system/tools/gm_des/sec.c:139-153 | the right half moves to the left, and the cipher function of it is added to the left half |
| DesStandard.RoundsForward | system/tools/gm_des/sec.c:139-153 | enciphering does the rounds with the first subkey first |
| DesStandard.RoundsBackward | system/tools/gm_des/sec.c:207-221 | deciphering does them with the last subkey first |
| DesStandard.EndOfRounds | system/tools/gm_des/sec.c:154-155 | both exchange the halves after all rounds and undo the initial permutation |
| DesStandard.CipherFOfZeros | system/tools/gm_des/sec.c:336-377 | the cipher function of zeros under a subkey of zeros is D8D8DBBC |
| DesBoxes.BoxRow | system/tools/gm_des/desmat.h:55-127 | every row of every box in hexadecimal digits, all sixteen of which occur in it |
| DesBoxes.RowIsPermutation | system/tools/gm_des/desmat.h:55-127 | every row of a box holds every number from 0 to 15 |
| DesBoxes.SubstituteIsBoxOutput | system/tools/gm_des/sec.c:353-368 | four output bits are, in binary, the entry of their box at the row of the outer two and the column of the inner four of its six bits |
| DesTheorems.InitialAndFinalAreInverse | system/tools/gm_des/desmat.h:1-17 | the initial and the final permutation undo each other, in both orders |
| DesTheorems.RoundUndoesRound | system/tools/gm_des/sec.c:139-153 | a Feistel round with the same subkey, on swapped halves, undoes itself whatever the cipher function is |
| DesTheorems.ReversedRoundsUndoRounds | system/tools/gm_des/sec.c:139-153 | any list of rounds is undone by the reversed list |
| DesTheorems.ReversedKeysDecipher | system/tools/gm_des/sec.c:186-233 | for any list of round keys, the cipher with the reversed list restores every block |
| DesTheorems.DecipherAfterEncipher | system/tools/gm_des/sec.c:117-233 | on blocks of bits, deciphering and enciphering are each other's inverse for every key |
| DesTheorems.CipherFComplement | system/tools/gm_des/sec.c:336-377 | the cipher function gives the same value when half block and subkey are both complemented |
| DesTheorems.RoundsComplement | system/tools/gm_des/sec.c:139-153 | complementing the block and all subkeys complements the result of any number of rounds |
| DesTheorems.SubkeysComplement | system/tools/gm_des/sec.c:336-377 | the complemented key has the complemented subkeys |
| DesTheorems.CryptComplement | system/tools/gm_des/sec.c:117-165 | complementing a block and all its subkeys complements the result |
| DesTheorems.ParityIsIgnored | system/tools/gm_des/desmat.h:28-34 | keys that differ only in bits 8, 16, ..., 64 have the same subkeys |
| DesTheorems.RotationsAdd | system/tools/gm_des/sec.c:299-312 | rotating both key halves by s and then t places is rotating them by s + t |
| DesTheorems.FullTurn | system/tools/gm_des/sec.c:299-327 | 28 places bring the key register back |
| DesTheorems.SixteenRoundsTurnOnce | system/tools/gm_des/desmat.h:129 | the rotations of the sixteen rounds add up to 28 |
| HexText.DigitsInOrder | system/tools/gm_des/sec.c:276-284 | the digits are 0 to 9 and A to F in this order |
| HexText.PairIsTwoNibbles | system/tools/gm_des/sec.c:255-268 | two characters stand for the bits of sixteen times the first plus the second, most significant first, whatever they are |
| HexText.LowerCaseMisread | system/tools/gm_des/sec.c:255-268 | "aa" is read as "CA" is |
| HexText.BitsRoundTrip | system/tools/gm_des/sec.c:255-285 | bits written as hexadecimal text are read back unchanged |
| HexText.TextRoundTrip | system/tools/gm_des/sec.c:255-285 | a text read as bits is written back unchanged if and only if it is upper-case hexadecimal |
| HexText.BitsTextIsHex | system/tools/gm_des/sec.c:270-285 | bits are always written as upper-case hexadecimal |
| DesText.EachBlockAppend | system/tools/gm_des/sec.c:139-163 | blocks do not influence each other |
| DesText.OneBlock | system/tools/gm_des/sec.c:117-233 | the text of one block is the text of its bits, enciphered or deciphered under the bits of the key |
| DesText.EncryptConcatenation | system/tools/gm_des/sec.c:117-233 | the result for a concatenation is the concatenation of the results, for any number of blocks |
| DesText.DecryptInvertsEncrypt | system/tools/gm_des/sec.c:117-233 | for every key and any number of blocks, decryption restores a text, and encryption restores it after decryption, if and only if the text is upper-case hexadecimal |
| DesText.LowerCaseIsLost | system/tools/gm_des/sec.c:255-285 | a text that no key brings back |
| DesText.ResultsAreHex | system/tools/gm_des/sec.c:154-163 | what is written is always upper-case hexadecimal |
| DesText.Decrypt3InvertsEncrypt3 | system/tools/gm_des/sec.c:167-252 | triple DES with two keys is inverted, in both orders, exactly on hexadecimal texts |
| DesText.TripleComesOff | system/tools/gm_des/sec.c:167-252 | the passes of triple encryption come off with the first key, the second and the first again, in this order |
| DesText.TripleWithEqualKeysIsSingle | system/tools/gm_des/sec.c:167-184 | with equal keys triple DES is single DES |
| DesText.TextComplementation | system/tools/gm_des/sec.c:117-233 | complementing every bit of key and text complements every bit of the result, for any number of blocks |
| DesText.TextParityIsIgnored | system/tools/gm_des/sec.c:117-233 | the parity bits of the key never influence a result |
| DesCode.Transpone | system/tools/gm_des/sec.c:287-297 | the permutation in place takes each bit from where the table says and leaves the rest of the array alone |
| DesCode.Rotizq | system/tools/gm_des/sec.c:299-312 | the first 56 elements become both halves rotated left by one; the others stay |
| DesCode.Rotder | system/tools/gm_des/sec.c:314-327 | rotating right by one is rotating left by 27; the others stay |
| DesCode.SBoxes | system/tools/gm_des/sec.c:336-377 | the loop over the eight boxes is the substitution of FIPS 46-3, and the four slots from 4k on, read in binary, are the entry of box k |
| DesCode.F | system/tools/gm_des/sec.c:336-377 | `f` computes the cipher function with the subkey of the rotated register, and leaves the register rotated left before use or right after use |
| DesCode.EncryptRound | system/tools/gm_des/sec.c:139-153 | one loop body is one round, and turns the register on |
| DesCode.DecryptRound | system/tools/gm_des/sec.c:207-221 | one loop body is one round on swapped halves, and turns the register back |
| DesCode.EncryptRounds | system/tools/gm_des/sec.c:139-153 | sixteen rounds use the subkeys 1 to 16 and bring the register back to its start |
| DesCode.DecryptRounds | system/tools/gm_des/sec.c:207-221 | sixteen rounds use the subkeys 16 to 1 and bring the register back to its start |
| DesCode.EncipherBits | system/tools/gm_des/sec.c:139-158 | the bits of one block become those of FIPS 46-3 enciphering, and the register is ready for the next block |
| DesCode.DecipherBits | system/tools/gm_des/sec.c:207-226 | the same for deciphering |
| DesCode.MaskedBit | system/tools/gm_des/desmat.h:131 | masking a value and testing for zero gives the bit of that place in two's complement |
| DesCode.Asc2Bin | system/tools/gm_des/sec.c:255-268 | eight elements become the bits of two characters; the others stay |
| DesCode.ExpoOfTwo | system/tools/gm_des/sec.c:329-334 | the recursive power is the power of two |
| DesCode.Bin2Asc | system/tools/gm_des/sec.c:270-285 | two characters become the hexadecimal digits of eight bits; the others stay |
| DesCode.DesEncrypt | system/tools/gm_des/sec.c:117-165 | the array code writes the encryption function of the text; on a bad length it answers -1 and writes nothing |
| DesCode.DesDecrypt | system/tools/gm_des/sec.c:186-233 | the same for decryption |
| DesCode.Des3Encrypt | system/tools/gm_des/sec.c:167-184 | the three passes write two-key triple encryption; on a bad length nothing is written and the answer is still 0 |
| DesCode.Des3Decrypt | system/tools/gm_des/sec.c:235-252 | the same for triple decryption |
| IdAllocator.GetNewId | system/servers/gm_sbuffer/gmsbuffer.cc:286-322 | the nested search loops return the first free candidate after the last id |
| IdAllocator.NextIdSpec | system/servers/gm_sbuffer/gmsbuffer.cc:286-322 | a new id is unused and between 1 and 8192; 0 is returned exactly when ids are in use and all but the last one handed out (8192 after a failure) are |
| IdAllocator.NextIdIsFirst | system/servers/gm_sbuffer/gmsbuffer.cc:286-322 | the id found is the first unused one after the last id handed out, round past 8192, and 1 if no ids are in use |
| IdAllocator.RoomMeansSuccess | system/servers/gm_timer/wtimer.cc:293-329 | with fewer than 8191 ids in use a search succeeds |
| BufferServer.ProcessKeepsGood | system/servers/gm_sbuffer/gmsbuffer.cc:71-284 | every request keeps ids distinct and between 1 and 8192 and stored data non-empty |
| BufferTheorems.ProcessRefinesBook | system/servers/gm_sbuffer/gmsbuffer.cc:71-394 | every request acts on the vector as on a map from id to transaction and bytes with its order of creation: bind a fresh id, append, slice with the true total, unbind, unbind the oldest of a transaction; when each request fails, and that the bindings then stay, is stated exactly |
| BufferTheorems.EveryRunRefinesBook | system/servers/gm_sbuffer/gmsbuffer.cc:71-394 | over every run of a new server the replies and the state are those of the map, and ids stay distinct and in range |
| BufferTheorems.ViewSize | system/servers/gm_sbuffer/gmsbuffer.cc:71-365 | the map has as many bindings as the vector has elements |
| BufferTheorems.NoRoom | system/servers/gm_sbuffer/gmsbuffer.cc:286-322 | no id is found exactly when something is stored and every id but the skipped one is bound, and then at least 8191 buffers are stored |
| BufferTheorems.StoredWhenRoom | system/servers/gm_sbuffer/gmsbuffer.cc:94-155 | data is stored whenever its timer was set and fewer than 8191 buffers are stored |
| BufferTheorems.SparedBufferStays | system/servers/gm_sbuffer/gmsbuffer.cc:324-394 | a request for another id or transaction leaves a buffer, its bytes and its transaction alone |
| BufferServer.Server.NewBuffer | system/servers/gm_sbuffer/gmsbuffer.cc:94-155 | whole new state and reply of `.new_buffer`, with its three ways to fail |
| BufferServer.Server.AddBuffer | system/servers/gm_sbuffer/gmsbuffer.cc:156-197 | whole new state and reply of `.add_buffer` |
| BufferServer.Server.DelBuffer | system/servers/gm_sbuffer/gmsbuffer.cc:324-365 | whole new state and reply of `.del_buffer`; an emptied list resets the last id |
| BufferServer.Server.GetBuffer | system/servers/gm_sbuffer/gmsbuffer.cc:205-274 | reply of `.get_buffer`, which changes nothing |
| BufferServer.Server.DeleteTrans | system/servers/gm_sbuffer/gmsbuffer.cc:367-394 | only the first buffer of a transaction is deleted |
| BufferServer.Server.Serve | system/servers/gm_sbuffer/gm_sbuffer.cc:95-129 | messages and ends of transactions change the state and are answered as the function `Process` says, short, unknown and ignored messages included |
| ChunkedTheorems.ForeignStepsKeepBuffer | system/servers/gm_sbuffer/gmsbuffer.cc:71-365 | any number of steps of other parties leave our buffer alone and keep the store good |
| ChunkedTheorems.NextAnswer | system/router/gmt.cc:340-407 | a request at an offset gets the next full piece, the last piece with a deletion sent off, or `GME_UNDEFINED` at the end of the data |
| ChunkedTheorems.PullStep | system/client/gmc.cc:496-606 | one request after steps of others moves the transfer on by one piece or finishes it |
| ChunkedTheorems.PullAllDelivers | system/client/gmc.cc:496-606 | the requests from any point of a transfer deliver the rest, for any interleaving, and announce the length of the whole |
| ChunkedTheorems.RoundsAreQuotient | system/router/gmt.cc:371-398 | the number of requests is the quotient of length and window plus one |
| ChunkedTheorems.ReplyIsReassembled | system/router/gmt.cc:281-408 | under any interleaving of others, what the client receives concatenates to exactly the reply; all codes but the last are `GME_MORE_DATA`; the last is `GME_OK` with a deletion sent off if the window does not divide the length, `GME_UNDEFINED` without one if it does; every reply with a piece announces the length of the whole reply, and any other 0; the next request starts at 0, or still at the end of the data if the window divides the length |
| ChunkedTheorems.DeletionArrives | system/router/gmt.cc:375-393 | whatever others do before the deletion is served, it finds the buffer and removes it; the buffer stays exactly when no deletion was due or it found no queue or no process |
| ChunkedTheorems.UnansweredPullKeepsPlace | system/router/gmt.cc:400-404 | a continuation that the buffer server does not answer gives the client its code (16 without a queue, 12 broken, 11 timed out) and no data, and the next one goes on from the same place |
| ChunkedTheorems.RepeatedPullsDeliver | system/router/gmt.cc:340-407 | from any point of a transfer, whichever requests go unanswered and are repeated, with anything foreign in between, the rest is delivered and every code is the one of its request |
| ChunkedTheorems.ReplySurvivesRepeats | system/router/gmt.cc:281-408 | under any such schedule the client receives exactly the reply and every reply its code: 99 for a piece, the reason for a failure, and the same end as if every request had been answered |
| ChunkedTheorems.ReplyArrivesWhenRoom | system/router/gmt.cc:281-408 | a long reply arrives whole whenever the request to store it is answered, its timer was set and fewer than 8191 buffers are stored |
| ChunkedTheorems.EvenWindowLeavesBuffer | system/router/gmt.cc:371-404 | an input whose last code is `GME_UNDEFINED` and whose buffer stays |
| ChunkedTheorems.ShortReplyArrivesWhole | system/router/gmt.cc:285-292 | a reply within the window arrives whole with the server's code, no total is announced and nothing is stored |
| ChunkedTheorems.UnstoredReplyIsLost | system/router/gmt.cc:329-335 | a long reply is lost exactly when it is not stored or the answer to that is missing; the client gets the code of that failure, a total of 0 and no data, and the store is as the request, if it arrived, left it |
| ChunkedTheorems.ZeroWindowLeavesBuffer | system/router/gmt.cc:292-328 | with a window of 0 the whole reply is sent under `GME_MORE_DATA`, nothing more is asked for and a copy stays stored |
| ChunkedTransfer.Client.constructor | system/client/gmc.cc:362-402 | a connection starts at offset 0 without a buffer id |
| ChunkedTransfer.Client.Send | system/client/gmc.cc:409-433 | the request carries the buffer id of the last reply, the offset and the window |
| ChunkedTransfer.Client.Recv | system/client/gmc.cc:558-606 | new offset and buffer id, code and data, for every reply |
| ChunkedTransfer.HandleFirst | system/router/gmt.cc:281-339 | store and answer after a first request, whether the request to store is answered, lost or unanswered |
| ChunkedTransfer.HandleNext | system/router/gmt.cc:340-407 | answer to a continuation and whether a deletion is sent off; the store is only read |
| ChunkedTransfer.Fetch | samples/info/cliente/classapp.cc:112-121 | the receive loop over the three objects ends with exactly the reply, with the right last code, the right totals and the right leftover, for any schedule of others during the transfer and before the deletion, which may be lost |
| Timers.RepeaterClosedForm | system/servers/gm_timer/wtimer.cc:47-69 | a repeater with deadline e and period r fires (t - e) / r + 1 times up to t, and its next deadline is in (t, t + r] |
| Timers.AcknowledgeStep | system/servers/gm_timer/gmtimer.cc:151-210 | one turn of the drain loop takes exactly the first of the remaining firings off |
| Timers.NothingOverdueIsLeft | system/servers/gm_timer/gmtimer.cc:151-210 | after a drain no timer is overdue |
| Timers.EachTimerFires | system/servers/gm_timer/gmtimer.cc:151-210 | each one-shot that is overdue fires once and is gone; each repeater fires (t - e) / r + 1 times and stays with a deadline in (t, t + r] |
| Timers.RepeaterTwice | system/servers/gm_timer/wtimer.cc:47-69 | acknowledging up to t and then up to u is acknowledging up to u |
| Timers.DrainTwice | system/servers/gm_timer/gmtimer.cc:151-210 | draining at t and again at u leaves the same table and fires the same timers as draining at u alone |
| TimerServer.HandleKeepsGood | system/servers/gm_timer/gmtimer.cc:48-149 | every request keeps ids distinct and between 1 and 8192 |
| TimerServer.DrainKeepsGood | system/servers/gm_timer/gmtimer.cc:151-210 | so does every drain |
| TimerServer.LeastIsLeast | system/servers/gm_timer/wtimer.cc:261-291 | the remaining time that `Rest` works with is the least of all timers |
| TimerServer.RestAfterDrain | system/servers/gm_timer/wtimer.cc:261-291 | after a drain the wait is -1 exactly when the table is empty, otherwise positive, passes no deadline, and ends at the earliest one unless capped |
| TimerServer.DrainTurn | system/servers/gm_timer/gmtimer.cc:163-208 | in the loop `Get` finds the id that `Check` gave, the work left shrinks, and what has fired and what is to fire stay the same in all |
| TimerServer.Server.Set | system/servers/gm_timer/wtimer.cc:150-194 | whole new state and id of a delayed, possibly repeating timer |
| TimerServer.Server.At | system/servers/gm_timer/wtimer.cc:110-148 | whole new state and id of a timer for a moment |
| TimerServer.Server.Ok | system/servers/gm_timer/wtimer.cc:47-69 | a repeater advances by one period, any other timer goes; -1 and no change for an unknown id |
| TimerServer.Server.DelId | system/servers/gm_timer/wtimer.cc:72-91 | the timer of that id goes, or nothing |
| TimerServer.Server.DelTrans | system/servers/gm_timer/wtimer.cc:94-108 | the first timer of the transaction goes, or nothing |
| TimerServer.Server.Check | system/servers/gm_timer/wtimer.cc:196-213 | the first overdue timer in order, 0 if none |
| TimerServer.Server.Get | system/servers/gm_timer/wtimer.cc:215-258 | service, kind and data of the timer, or failure |
| TimerServer.Server.Rest | system/servers/gm_timer/wtimer.cc:261-291 | the running minimum with its early exit is the least remaining time, in hundredths, capped |
| TimerServer.Server.Message | system/servers/gm_timer/gmtimer.cc:48-149 | whole new state and reply; a delay and a moment together, or neither, are refused |
| TimerServer.Server.Fire | system/servers/gm_timer/gmtimer.cc:165-207 | the loop body sends the message of its timer by its kind and acknowledges it |
| TimerServer.Server.Drain | system/servers/gm_timer/gmtimer.cc:151-210 | the loop ends, leaves the drained table, and sends exactly the messages of all firings in order |
| TimerServer.Server.TimeOut | system/servers/gm_timer/gmtimer.cc:151-210 | the drain and then the wait for the new table |
| TimerServer.Server.Loop | system/servers/gm_timer/gm_timer.cc:82-102 | one turn: request, drain, what is sent and the next wait |
| TimerServer.Server.Serve | system/servers/gm_timer/gm_timer.cc:82-102 | the endless loop computes the state of the run and sends the messages of all firings of all its turns, in order |
| TimerTheorems.SetIsAnswered | system/servers/gm_timer/gmtimer.cc:59-117 | when a request to set a timer fails, and what its success does to the table and to the last id |
| TimerTheorems.KillIsExact | system/servers/gm_timer/gmtimer.cc:118-134 | killing takes exactly the timer of that id out, and fails exactly when there is none |
| TimerTheorems.EndIsExact | system/servers/gm_timer/gmtimer.cc:135-142 | the end of a transaction takes exactly its first timer out |
| TimerTheorems.SetFiresOnce | system/servers/gm_timer/gm_timer.cc:82-102 | from the request: a timer that does not repeat fires exactly once, at the first wake at or after the delay or the moment of its request, sends the service, kind and data of the request, and is gone |
| TimerTheorems.SetRepeats | system/servers/gm_timer/gm_timer.cc:82-102 | from the request: a timer set at t to repeat every d seconds has fired (u - t) / d times at a wake at u, each time with what the request said |
| TimerTheorems.SentInParts | system/servers/gm_timer/gm_timer.cc:82-102 | everything that a run sends is sent for one id or for the others |
| TimerTheorems.EveryRunIsGood | system/servers/gm_timer/gm_timer.cc:82-102 | in every state of every run ids are distinct and in range and nothing is overdue at the last wake |
| TimerTheorems.RepeaterOverRun | system/servers/gm_timer/gm_timer.cc:82-102 | over any run a repeater that nobody kills fires once for each of its deadlines, however the server wakes |
| TimerTheorems.OneShotOverRun | system/servers/gm_timer/gm_timer.cc:82-102 | over any run a timer that does not repeat and that nobody kills stays without firing until the first wake at or after its deadline, fires exactly once there, and goes |
| TimerTheorems.PromptRunsFireOnTime | system/servers/gm_timer/gm_timer.cc:82-102 | if no wake comes later than the wait asked for, every timer fires once, at the second of its deadline, unless it was set in that turn for a moment already past |
| TransactionEvents.EveryRunAlternates | system/servers/gm_transac/gm_transac.cc:102-173 | in every run the events about a non-zero id strictly alternate between a begin and one outcome, and the id is in the table exactly when its last event is a begin |
| TransactionEvents.RequestedOutcome | system/servers/gm_transac/gm_transac.cc:125-160 | a turn that brings the commit of a live id posts exactly a commit about it, one that brings its abort exactly an abort; neither posts anything if it is not live, and it is not live afterwards |
| TransactionEvents.CommitsAreThoseRequested | system/servers/gm_transac/gm_transac.cc:102-173 | over every run, an outcome is a commit if and only if the turn that posted it brought a request to commit that id |
| TransactionEvents.EveryRunAnswersInTurn | system/servers/gm_transac/transac.cc:28-42 | begin number n asks for the id (n + 1) mod 9999 + 1 and is refused exactly when that id is live; the first 9999 begins are never refused |
| TransactionEvents.NoEarlyReuse | system/servers/gm_transac/transac.cc:28-42 | an id is given out again at the earliest 9999 begins later |
| TransactionEvents.DrainAborts | system/servers/gm_transac/gm_transac.cc:163-168 | a drain aborts exactly the overdue transactions, each once |
| TransactionTimes.TurnLeaves | system/servers/gm_transac/gm_transac.cc:102-173 | a turn that does not end a live transaction on request posts nothing about it before its deadline and exactly one abort from then on |
| TransactionTimes.LivesUntilDeadline | system/servers/gm_transac/gm_transac.cc:102-173 | over any run a transaction that nobody ends is live exactly until the first wake at or after its deadline |
| TransactionTimes.BegunTimesOut | system/servers/gm_transac/gm_transac.cc:102-173 | from the request: a transaction begun at t with timeout d that nobody ends is live, with only its begin posted, until the first wake at or after t + d, which posts exactly one abort |
| TransactionTimes.TimeoutsAreOnTime | system/servers/gm_transac/gm_transac.cc:163-171 | after a drain the wait is -1 exactly when no deadline is left; otherwise it is positive and ends at a moment when some transaction is due and none was due before |
| TransactionTimes.PromptRunsAbortOnTime | system/servers/gm_transac/gm_transac.cc:101-173 | if no wake comes later than the earliest deadline of the turn before, every transaction that times out is aborted at the second of its deadline |
| TransactionTimes.PauseIsExact | system/servers/gm_transac/gm_transac.cc:170-171 | the wait in hundredths is exact if and only if it is not more than 21474836 seconds |
| TransactionTimes.PauseOverflows | system/servers/gm_transac/gm_transac.cc:101-173 | a first begin after which the argument of the next wait is negative |
| TransactionTimes.ShortTimeoutsPauseExactly | system/servers/gm_transac/gm_transac.cc:101-173 | in every run whose timeouts are at most 21474836 seconds and whose clock does not go back, every deadline reached fits the `int` and every pause is exactly the time to the earliest deadline |
| TransactionTimes.ShortRunsAbortOnTime | system/servers/gm_transac/gm_transac.cc:101-173 | in such a run, if no wake comes later than the pause handed to `Wait` ends, every transaction that times out is aborted at the second of its deadline |
| TransactionTimes.WaitIsUnique | system/servers/gm_transac/wtimer.cc:160-177 | the description of the wait fixes it |
| Transactions.Server.Exist | system/servers/gm_transac/wtimer.cc:59-76 | whether the id is in the table |
| Transactions.Server.Add | system/servers/gm_transac/wtimer.cc:33-57 | refused if the id is live, else appended with its deadline |
| Transactions.Server.New | system/servers/gm_transac/transac.cc:28-42 | the counter moves on, wrapping at 9999; the answer is the id, or 0 if it is live |
| Transactions.Server.Del | system/servers/gm_transac/wtimer.cc:100-120 | the entry of the id goes, or -1 |
| Transactions.Server.Check | system/servers/gm_transac/wtimer.cc:122-158 | the first overdue entry goes and its id is returned |
| Transactions.Server.NextTo | system/servers/gm_transac/wtimer.cc:160-177 | the loop returns the least remaining time, not below 0, or -1, if all of them fit an `int` |
| Transactions.Server.Drain | system/servers/gm_transac/gm_transac.cc:163-168 | posts an abort for every overdue entry, in order, and leaves the others |
| Transactions.Server.Take | system/servers/gm_transac/gm_transac.cc:108-160 | begin is always posted, commit and abort only if the transaction was live |
| Transactions.Server.Loop | system/servers/gm_transac/gm_transac.cc:104-173 | one turn: request, drain and the next wait in hundredths, with the overflow of its `int` |
| Transactions.Server.Serve | system/servers/gm_transac/gm_transac.cc:101-173 | the endless loop computes the state and the events of the run |
| Strings.SplitJoin | system/shared/gmstring.cc:82-105 | splitting undoes joining when no field holds the separator |
| Strings.JoinSplit | system/shared/gmstring.cc:82-105 | joining undoes splitting, for every text |
| Strings.Split | system/shared/gmstring.cc:82-105 | the loop cuts the text into those fields |
| Strings.AtoiOfShow | system/shared/gmontdb.cc:441 | the parser reads back every integer that was printed, up to what is not a digit |
| Strings.PaddedLength | system/shared/gmstring.cc:70-80 | a number is printed in exactly w digits if and only if it is less than ten to the w |
| Strings.PaddedReadBack | system/shared/gmstring.cc:44-68 | a zero-padded number is read back |
| ServiceTable.AddedStep | system/shared/gmontdb.cc:795-869 | adding adds one copy of the key, or fails exactly when the key is absent and all slots are in use; keys stay distinct |
| ServiceTable.RemovedStep | system/shared/gmontdb.cc:884-928 | removing takes one copy, or fails exactly when there is none |
| ServiceTable.LiveKeys | system/shared/gmontdb.cc:795-869 | the number of different keys is at most the number of slots, and equal exactly when no slot is free |
| ServiceTable.TableRefinesBag | system/shared/gmontdb.cc:795-928 | over any sequence of operations, results and contents are those of a multiset with room for as many keys as there are slots |
| ServiceTable.CountIsNet | system/shared/gmontdb.cc:795-928 | from an empty table, a key's count is successful additions minus successful removals, and it has a slot exactly while that is positive |
| ServiceTable.AddCountsWhenItFits | system/shared/gmontdb.cc:846-850 | a successful addition adds a copy of its key if and only if the names fit |
| ServiceTable.RemovableWhenItFits | system/shared/gmontdb.cc:884-928 | what was added can be removed if and only if the names fit |
| ServiceTable.LongNameTwice | system/shared/gmontdb.cc:846-850 | an input for which two live slots get the same key |
| ServerTheorems.LineParsesBack | system/shared/gmontdb.cc:432-441 | a saved line is parsed to the fields of its row |
| ServerTheorems.SavedReadsBack | system/shared/gmontdb.cc:634-667 | the lines of the saved file are the lines of the rows in use |
| ServerTable.LoadedGood | system/shared/gmontdb.cc:412-466 | loading any file whose records, as far as they are read, have names that fit keeps names distinct and fields clean and within their width; comments may hold anything |
| ServerTable.RegisteredGood | system/shared/gmontdb.cc:289-361 | registering and leaving keep the table good and change no server's description, mode or path |
| ServerTheorems.LineHasFields | system/shared/gmontdb.cc:634-667 | a row is saved as name, description, mode and path between bars |
| ServerTheorems.RecordIsEntered | system/shared/gmontdb.cc:412-466 | a file of one line of that form is loaded as the server of that name with that description, mode and path |
| ServerTheorems.LoadEndsAtBadLine | system/shared/gmontdb.cc:428-465 | loading ends with 0 exactly when every line is empty, a comment or has four fields; else with -1 at the first that is not, and exactly the lines before it are entered |
| ServerTheorems.ReloadChangesNothing | system/shared/gmontdb.cc:86-93 | reloading the saved file over the live table leaves every row as it was, with queues, queue ids and processes |
| ServerTheorems.LoadAfterSave | system/shared/gmontdb.cc:412-466 | loading the saved file into an empty table of the same size gives every name the same answer |
| ServerTheorems.FoundWhenItFits | system/shared/gmontdb.cc:715-779 | a loaded record is found under its name if and only if the name is not empty and not too long |
| ServerTheorems.LongNameIsLost | system/shared/gmontdb.cc:715-779 | a record that is loaded and cannot be found |
| Routing.JoinIsExact | system/shared/gmontdb.cc:210-274 | the list of queues has one entry for every matching service slot, server row and positive instance queue, in that order, and no other |
| Routing.EachInstanceOnce | system/shared/gmontdb.cc:210-274 | with distinct service keys no instance is listed twice |
| Routing.EachQueueProbedOnce | system/router/gmt.cc:689-704 | from any starting point every queue is looked at exactly once |
| Routing.ProbesRotate | system/router/gmt.cc:689-704 | step a of the search looks at queue (start + a) mod n |
| Routing.FirstLeast | system/router/gmt.cc:689-704 | if the first queue answers, the choice is the first in order among those with the least load |
| Routing.StuckOnFirst | system/router/gmt.cc:690-704 | if the first queue does not answer it is chosen |
| Routing.LeastLoadedWhenFirstAnswers | system/router/gmt.cc:673-714 | the choice is least loaded if and only if the first queue answers or none does |
| Routing.SelectQueue | system/router/gmt.cc:673-714 | the rotating loop makes that choice and those probes; -1 without a queue, no probe with one |
| Routing.SilentFirstQueue | system/router/gmt.cc:689-704 | an input for which a queue that does not answer is chosen over an empty one |
| Routing.DeliveredAt | system/router/gmt.cc:617-646 | whatever processes could be made, an event goes to exactly the queues of those, in order |
| Routing.DeliveredToAll | system/router/gmt.cc:617-646 | an event goes to every queue listed if and only if all processes could be made |
| Routing.SendEvent | system/router/gmt.cc:600-650 | sent to the queues whose process could be made, in order; not found exactly when there is no queue |
| RegistryTheorems.RunKeepsGood | system/shared/gmontdb.cc:289-466 | every reachable registry state has distinct keys and names, in tables of unchanged size |
| RegistryTheorems.RegisteredStores | system/shared/gmontdb.cc:289-361 | registering succeeds exactly for a known server and an index in range, puts exactly these three numbers there, and changes the numbers of no other instance |
| RegistryTheorems.InstanceOfRun | system/shared/gmontdb.cc:289-466 | over any run an instance has the numbers of its last successful registration, and zeros if it has left since or there was none |
| RegistryTheorems.EveryEventReachesEachInstanceOnce | system/shared/gmontdb.cc:210-274 | in every reachable state an instance is among the queues of a service if and only if its last registration, not followed by its leaving, gave it a queue and its server has subscribed to the service more often than it has cancelled; it is there once, with that queue |
| RegistryTheorems.SubscribedHasSlot | system/shared/gmontdb.cc:795-928 | over any run of the registry a key has a slot exactly while its successful subscriptions outnumber its successful cancellations |
| RegistryTheorems.EveryTableSurvivesSaving | system/shared/gmontdb.cc:412-466 | in every reachable state the server table can be saved and reloaded without change, and loaded elsewhere with the same answers |
| Registry.CGMTdb.constructor | system/shared/gmontdb.cc:72-81 | the memory is created with both tables empty |
| Registry.CGMTdb.Server | system/shared/gmontdb.cc:122-158 | the search loop returns the row of that name |
| Registry.CGMTdb.AddSrv | system/shared/gmontdb.cc:289-324 | whole new table; the three numbers of one instance change |
| Registry.CGMTdb.RemoveSrv | system/shared/gmontdb.cc:326-361 | the same with zeros |
| Registry.CGMTdb.AddServer | system/shared/gmontdb.cc:715-779 | the record of that name is replaced, keeping its instances, or the first free row is filled, or it fails |
| Registry.CGMTdb.AddSvc | system/shared/gmontdb.cc:795-869 | whole new table: one subscription more, or the first free slot, or failure |
| Registry.CGMTdb.RemoveSvc | system/shared/gmontdb.cc:884-928 | whole new table: one subscription less, the slot freed at zero |
| Registry.CGMTdb.Cola | system/shared/gmontdb.cc:210-274 | the three nested loops compute the join |
| Registry.CGMTdb.LoadSrv | system/shared/gmontdb.cc:412-466 | the table after the file, with comments, full table and bad lines as in the source |
| Registry.CGMTdb.SaveSrv | system/shared/gmontdb.cc:634-667 | the text written for the rows in use |
| Registry.CGMTdb.Reload | system/shared/gmontdb.cc:86-93 | only the owner of the memory reloads |
| Registry.CGMTdb.Event | system/router/gmt.cc:600-650 | an event goes to exactly the queues of its service whose process could be made, so to all of them if and only if all could, and is not found exactly when there is none |
| Registry.SelectQueueFor | system/router/gmt.cc:673-714 | the queue for a request is one of the queues of its service, and the least loaded one if and only if the first one looked at answers or none does |
| Header.Disjoint | system/shared/gmheader.h:102-128 | fields do not overlap and lie within 228 characters |
| Header.SetterSetsOneField | system/shared/gmheader.cc:275-640 | after a setter in range its getter returns the value and every other getter what it returned before |
| HeaderTheorems.NumberFits | system/shared/gmheader.cc:446-640 | a number is read back if and only if it is not negative and fits its field and the type that its getter converts to |
| HeaderTheorems.LongRead | system/shared/gmheader.cc:525-569 | every process id and time stamp of ten digits is read back modulo 2 to the 32 |
| HeaderTheorems.NegativeQueue | system/shared/gmheader.cc:457-466 | a negative queue number is not read back |
| HeaderTheorems.TimeStampWraps | system/shared/gmheader.cc:561-569 | a time stamp that fits its field and is read back as 0 |
| HeaderTheorems.WideNumber | system/shared/gmheader.cc:446-460 | a transaction number that is read back changed and spills into the next field |
| HeaderTheorems.TextFits | system/shared/gmheader.cc:295-444 | a text is read back if and only if it has no space or, in the two fields that are not cut, fills its field |
| HeaderTheorems.TextWithSpace | system/shared/gmheader.cc:295-319 | a user name that is read back cut |
| HeaderTheorems.GettersReturnLastSet | system/shared/gmheader.cc:275-640 | after any run of setters in range every getter returns the last value set |
| HeaderTheorems.NewHeaderReads | system/shared/gmheader.cc:37-63 | what every getter returns on a new header |
| HeaderTheorems.AcceptedAfterSetters | system/shared/gmheader.cc:80-172 | after any run of setters in range on a new header `SetHeader` accepts if and only if the type set last is known |
| Message.AnswerOpsExist | system/shared/gmessage.cc:120-145 | whatever a request holds, preparing its answer never writes beyond the record |
| Message.AnswerHolds | system/shared/gmessage.cc:120-145 | every field of an answer to an accepted request: the type that answers its type (R, O, L, P for C, M, G, N), copied, counted up, cleared or kept |
| Message.AnswerAccepted | system/shared/gmheader.cc:642-657 | an answer is accepted if and only if it answers a request and not an answer |
| Message.AnswerCounts | system/shared/gmessage.cc:133 | the count grows by one if and only if it is less than 99999 |
| Message.LargestCountWraps | system/shared/gmessage.cc:133 | an accepted request whose answer has a count of 10000 after 99999 |
| Message.SpilledDigit | system/shared/gmessage.cc:133-134 | the sixth digit of the count is overwritten by the next setter |
| Message.FieldsFillRecord | system/shared/gmheader.h:102-128 | the fields lie side by side in the declared order and fill the record |
| Message.RecordInParts | system/shared/gmheader.h:102-128 | a record put together of parts of these widths is read part by part, each by the getter of its field |
| Message.AcceptedInParts | system/shared/gmheader.cc:180-273 | such a record is accepted if and only if the version is 000, the type is one of eight letters, and the thirteen checked numbers have only digits |
| Message.CGMHeader.constructor | system/shared/gmheader.cc:37-63 | every field has its filling character and the version its digits |
| Message.CGMHeader.Memprint | system/shared/gmstring.cc:70-80 | the characters are written over the record and nothing else changes |
| Message.CGMHeader.Set | system/shared/gmheader.cc:280-640 | whole new record of a setter; a text that is too long is refused without change |
| Message.CGMHeader.Get | system/shared/gmheader.cc:275-635 | the value parsed from the slice of the field |
| Message.CGMHeader.SetHeader | system/shared/gmheader.cc:180-273 | the record is taken over even when refused; accepted if and only if version, type and checked numbers are right |
| Message.CGMessage.constructor | system/shared/gmessage.cc:38-42 | a new header and no data |
| Message.CGMessage.GetMsg | system/shared/gmessage.cc:49-59 | header followed by data, neither changed |
| Message.CGMessage.SetMsg | system/shared/gmessage.cc:66-80 | header and data of what was received; refused without change if shorter than a header, and not refused for a wrong header |
| Message.CGMessage.SetData | system/shared/gmessage.cc:88-102 | new data, checksum and length; empty data refused without change |
| Message.CGMessage.SetResponse | system/shared/gmessage.cc:120-145 | the header becomes the answer to the request |
| Message.Transfer | system/shared/gmessage.cc:49-80 | a message sent and taken over has the same data and the same value in every field |
| Message.DataSetsLength | system/shared/gmessage.cc:88-102 | the length read back is the real one if and only if it has at most ten digits, and then only it and the checksum change |

## Left out

- Sockets, TLS, message queues, semaphores, processes, signals, logging and scripts.
- Integer widths: `int` and `long` are unbounded here, except where a value is printed or parsed and in the wait of the transaction server; running out of memory is not modelled either.
- Clock: a drain loop reads one time, although the source reads the clock again in every call.
- `atoi` is taken to keep the low 32 bits of a number that is too large, as the GNU library does; the C standard leaves that case undefined.
- Registry.CGMTdb.AddSrv: asks for an instance other than 255, which the test of the source lets through although the arrays end at 254.
- Registry.CGMTdb.RemoveSrv: asks for the same.
- ServerTable.RegisteredGood: asks for the same.
- Registry.CGMTdb.constructor: stops when the memory has been created; loading the table files is a separate call.
- Message.CGMHeader.Set: asks that a number is not so wide that it is printed beyond the whole record.
- Message.CGMessage.SetResponse: asks that request and answer are different objects, as they are in the router.
- The setters and getters of the header are one method each with the field as a parameter, not twenty-four copies.
- NUL characters inside C strings; the descriptions of services, which nothing in the model reads.
- The identity of the client (user, client, key, group), which the timer and buffer servers keep without looking at it.
- Requests to the timer server that are shorter than their structure or name an unknown service; it answers them with an error without touching its table.
- The timer that deletes a stored buffer: only whether it could be set is modelled.
- The store-and-forward queue, the configuration server, the tables of parameters and of functions in files, and the listing functions of the registry.
- `DES_GenPin` and `DES_GenOffset`, and the use of a transaction id by the participating servers.
- The form of `Recv` that fills a `CGMBuffer`, and errors of the connection between two requests.
- The logging and the time warnings around a query.
