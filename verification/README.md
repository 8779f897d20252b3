# A verified model of the protocols and parsers in alp

The project models, in Dafny, the parts of the repository that hold real algorithms or protocols and
proves what they promise, for all inputs, all runs and all interleavings.

| files | what they model |
|---|---|
| `Crc.dfy` | the CRC of the XMODEM receiver, against bit-serial division and polynomial remainders |
| `Line.dfy` | the terminal as the receiver sees it: bytes and polling intervals, the character timeout, flushing |
| `Xmodem.dfy` | the XMODEM-1k/CRC receiver as functions from state to state |
| `XmodemReceiver.dfy` | the same receiver as a class whose methods and loops update fields and buffer in place, each proved equal to its function |
| `XmodemTrace.dfy`, `XmodemSafety.dfy`, `XmodemRuns.dfy` | what holds over whole runs: conservation, block numbers, acknowledgements, bounded work |
| `XmodemChunks.dfy` | independence of how reads are cut |
| `XmodemFrame.dfy`, `XmodemHeader.dfy`, `XmodemDamage.dfy` | one frame, the search for its header, silence, and which damage is noticed |
| `XmodemNoise.dfy`, `XmodemFile.dfy`, `XmodemLines.dfy`, `XmodemOverrun.dfy` | stray, broken and short frames and silences between blocks; what a reader gets from a line that carries a file; late and repeated starts; a block handed over twice |
| `Island.dfy`, `Serial.dfy` | the serial worker thread and its client as interleaved steps, and what holds in every run |
| `SerialRequests.dfy` | the fate of every request, over all runs: which are answered, how soon, and which are lost |
| `SerialBuffers.dfy`, `SerialLoopback.dfy` | when the copy loops stay inside the buffers of the device, and what a read then returns, over all runs |
| `SerialTimely.dfy` | runs without expired reads: alternation, complete loopback, exactly when the copy loops leave the buffers |
| `SerialSpill.dfy`, `SerialLost.dfy` | runs in which a copy goes astray, a buffer is overrun, a request is lost |
| `Broadcast.dfy`, `BroadcastRounds.dfy` | N condition-variable workers and a broadcaster: safety, and what a broadcast brings about |
| `CommandLine.dfy` | line input into a wrapping buffer and the in-place tokenizer |
| `CommandTable.dfy` | the table of registered commands and dispatch |
| `CommandRepeat.dfy` | lines typed one after the other: an argument that comes back |
| `NumberParser.dfy` | the number parser `astrtol` |
| `Util.dfy` | an option type and a counting function shared by the others |

Conventions. The receiver's input line is a finite list of events, after which it is silent for ever; an
event is a byte that has arrived or a polling interval of 8 microseconds in which none has, so the
character timeout and the effect of a flush are those of the source's own loops. Its state carries a
trace of what it does (attempts, transmitted bytes, accepted blocks, bytes handed over), on which the
run properties are stated. A read belongs to a run as long as none before it has failed: after an error
other than end of file the source leaves a length of -1 behind and must not be called again.
Threads move one shared access at a time (the worker's copy one byte at a time), in any order; a blocked thread does nothing when it is given a turn,
and a timed wait may expire at any moment, which also covers a clock that cannot be read.
Pointers into buffers are indices. Unsigned arithmetic, signed overflow and over-wide shifts are written out.

Some properties one might expect turn out to be false of the code, and the model keeps the code as it is:

* When the 200th attempt of the receiver's retry loop sees a duplicate of the previous block, the loop ends with
  status 0 and the duplicate is handed over as new data (`XmodemOverrun.OverrunHappens`). Conservation holds
  exactly for the runs in which no loop ends so (`XmodemRuns.Conservation`, `XmodemRuns.RunOverrun`), and a file
  is received exactly if there are fewer than 200 pieces of noise in each place (`XmodemFile.FileReceived`).
* Not all damage of one byte or two adjacent bytes behind the header byte is noticed: it is not exactly if it hits
  the block number and its complement with the same pattern (`XmodemDamage.DamageUnnoticed`), and then a block can be
  taken for another (`XmodemDamage.TakenForAnother`).
* A write to the serial device may never return, and a read may wait in vain. A command is lost exactly if the worker
  is about to clear the command slot when it is stored, and, for a read, no answer is left over or in the making
  (`SerialRequests.RequestFate`, `SerialRequests.RequestAnswerable`, `SerialRequests.WriteReturns`); every other one has
  its answer within a bounded number of the worker's steps. That moment exists only after a read has expired
  (`SerialTimely.TimelyRequests`), and then it does exist, for a write (`SerialLost.ExpiredReadCanLoseAWrite`) and for a
  read (`SerialLost.LeftoverTokenCanLoseARead`).
* The copy loops of the serial device may leave its buffers: no length of a write is checked, and a read as the first
  call on a fresh device uses a length that has never been set. They stay inside in all runs in which no write is
  longer than 0x2000 bytes and either that length fits or the first call is not a read (`SerialBuffers.CopiesInBounds`);
  without expired reads those are exactly the runs in which they do (`SerialTimely.StraysExactly`). For every longer
  write and for every fresh device whose length does not fit there is a run that goes astray
  (`SerialSpill.LongWriteCanStray`, `SerialSpill.FirstReadCanStray`). A length of 0x80000000 or more fits: the worker
  takes it as an int, which is negative, and copies nothing.
* A read of the serial device ignores the length of the buffer it is given. In the runs just described it never overruns
  the buffer if the last write is no longer than it, with or without expired reads (`SerialLoopback.Loopback`);
  otherwise it can, from every state in which the client is idle (`SerialSpill.ReadOverrunsItsBuffer`), and if no read has expired it always does
  (`SerialTimely.TimelyLoopback`).
* A hexadecimal number with something behind it is not read as the number it denotes, unless it is 0 and there are at
  most 8 characters in all (`NumberParser.HexTail`, `NumberParser.HexTailParsed`).
* The line reader stores its terminating NUL inside the buffer unless the length of the line is a nonzero
  multiple of 4096 and the line does not end in a carriage return (`CommandLine.CommData.GetCommand`); 4096 letters
  are such a line (`CommandLine.OverflowingLine`).
* A command that is to be called by a group and has none can be registered, and some lines of two words then follow a
  null pointer; they never do exactly if there is no such command in the table (`CommandTable.NeverCrashes`).
* What a one-word command line means can depend on an argument left by an earlier line
  (`CommandTable.OneWordIndependent` says exactly when it does not): after "g w", the line "g" alone runs the same
  command again (`CommandRepeat.SecondWordComesBack`, `CommandRepeat.TypedAgain`).

## Model

| member | source | states |
|---|---|---|
| Crc.Crc16 | demo-dh/drivers/xyzmodem.c:84-103 | the loop over a buffer computes the checksum of its first `len` bytes |
| Crc.ByteIsEightBits | demo-dh/drivers/xyzmodem.c:94-100 | one shift-and-xor step is eight steps of bit-serial division by x^16+x^12+x^5+1 |
| Crc.ChecksumIsDivision | demo-dh/drivers/xyzmodem.c:84-103 | for buffers of every length the checksum is that of bit-serial division starting from 0 |
| Crc.DivideIsRemainder | demo-dh/drivers/xyzmodem.c:84-103 | bit-serial division leaves a remainder: message times x^16 equals quotient times G plus the register |
| Crc.RemainderUnique | demo-dh/drivers/xyzmodem.c:84-103 | a message has only one remainder of degree below 16 |
| Crc.ChecksumIsTheRemainder | demo-dh/drivers/xyzmodem.c:84-103 | a value is the checksum if and only if it is the remainder of the message polynomial times x^16 modulo G |
| Crc.ChecksumLinear | demo-dh/drivers/xyzmodem.c:84-103 | the checksum of the xor of equally long messages is the xor of their checksums |
| Crc.ResidueZero | demo-dh/drivers/xyzmodem.c:217-222 | two more bytes bring the checksum to 0 if and only if they are the checksum, high byte first |
| Crc.AppendChecksum | demo-dh/drivers/xyzmodem.c:84-103 | a message followed by its checksum has checksum 0 |
| Crc.WideMultiple | demo-dh/drivers/xyzmodem.c:84-103 | no nonzero polynomial confined to 16 consecutive places is divisible by G |
| Crc.BurstDetected | demo-dh/drivers/xyzmodem.c:217-222 | any error burst of at most 16 bits, in the data or in the checksum bytes, makes the test fail |
| Crc.TwoByteErrorDetected | demo-dh/drivers/xyzmodem.c:217-222 | so does any change of one byte or of two adjacent bytes |
| Line.Getc | demo-dh/drivers/xyzmodem.c:55-67 | waiting for a byte never lengthens the line, and taking one shortens it |
| Line.GetcInTime | demo-dh/drivers/xyzmodem.c:37-67 | a byte is received if and only if it comes within 250000 polling intervals, and is not lost otherwise |
| Line.GetcBytes | demo-dh/drivers/xyzmodem.c:55-67 | a reply hands over the next byte of the line; an expired wait loses none |
| Line.FlushBytes | demo-dh/drivers/xyzmodem.c:69-74 | flushing only takes bytes from the front of the line |
| Line.FlushExact | demo-dh/drivers/xyzmodem.c:69-74 | flushing takes exactly the bytes before the first pause and nothing behind it |
| Line.DeliversLater | demo-dh/drivers/xyzmodem.c:166-172 | the delay after an expired wait loses none of the bytes that a line delivers |
| XmodemReceiver.Receiver.StreamOpen | demo-dh/drivers/xyzmodem.c:229-253 | refused with -1, nothing changed and nothing sent, exactly if no terminal has been given; otherwise sets the expected block to 1, clears the flags and sends the poll character |
| XmodemReceiver.Receiver.GetcTimeout | demo-dh/drivers/xyzmodem.c:55-67 | the polling loop returns what `Line.Getc` says and leaves that line |
| XmodemReceiver.Receiver.FlushLine | demo-dh/drivers/xyzmodem.c:69-74 | the flushing loop leaves what `Line.Flush` says |
| XmodemReceiver.Receiver.FindHeader | demo-dh/drivers/xyzmodem.c:123-173 | the search loop agrees with the recursive header search, including CAN counting, EOT and timeout |
| XmodemReceiver.Receiver.FillPacket | demo-dh/drivers/xyzmodem.c:188-199 | the data loop stores the bytes in the packet buffer up to the first silence |
| XmodemReceiver.Receiver.ReadBody | demo-dh/drivers/xyzmodem.c:175-225 | everything after a header byte changes the whole state as `Xmodem.ReadBlock` says |
| XmodemReceiver.Receiver.GetHdrBlock | demo-dh/drivers/xyzmodem.c:115-226 | a header attempt, with its deferred acknowledgement, is `Xmodem.GetHdr` on the whole state |
| XmodemReceiver.Receiver.RemovePads | demo-dh/drivers/xyzmodem.c:278-289 | the padding loop shortens the block to its stripped length |
| XmodemReceiver.Receiver.TryBlock | demo-dh/drivers/xyzmodem.c:270-313 | one pass of the retry loop is `Xmodem.Attempt` |
| XmodemReceiver.Receiver.RetryLoop | demo-dh/drivers/xyzmodem.c:267-314 | the retry loop of 200 attempts is `Xmodem.Fetch` |
| XmodemReceiver.Receiver.NextBlock | demo-dh/drivers/xyzmodem.c:265-321 | a fetch that fails leaves length -1 and returns its status |
| XmodemReceiver.Receiver.StreamRead | demo-dh/drivers/xyzmodem.c:255-337 | terminates; puts exactly the bytes of `Xmodem.Read` into the caller's buffer and nothing beyond, with that state, count and error |
| Xmodem.Read | demo-dh/drivers/xyzmodem.c:255-337 | terminates on every line; a read that does not fail leaves a readable state; the line never grows |
| Xmodem.Fetch | demo-dh/drivers/xyzmodem.c:263-321 | a fetch that succeeds takes at least 133 events off the line and leaves at most 1024 bytes at offset 0 |
| XmodemSafety.AttemptKeeps | demo-dh/drivers/xyzmodem.c:268-314 | one attempt keeps the run invariant, hands over nothing, and holds in full a block it accepts |
| XmodemSafety.ReadKeeps | demo-dh/drivers/xyzmodem.c:255-337 | a read, however it ends, keeps the run invariant and returns what the trace says was handed over |
| XmodemRuns.Conservation | demo-dh/drivers/xyzmodem.c:255-337 | over every run, bytes returned plus bytes pending are the padding-free contents of the accepted blocks if no retry loop ends on a duplicate, and more than that otherwise |
| XmodemRuns.RunOverrun | demo-dh/drivers/xyzmodem.c:268-296 | a duplicate is handed over as data if and only if all 200 attempts of some fetch ask for another and the last saw a duplicate |
| XmodemRuns.AcceptedBlocks | demo-dh/drivers/xyzmodem.c:175-276 | accepted blocks are whole, disjoint pieces of the input in order, with correct complement and checksum, numbered 1, 2, 3, ... modulo 256 |
| XmodemRuns.Acknowledgements | demo-dh/drivers/xyzmodem.c:127-160 | ACKs sent are accepted blocks less a pending one, plus duplicates, plus two at end of file |
| XmodemRuns.DeferredAcknowledgement | demo-dh/drivers/xyzmodem.c:127-131 | whenever anything is transmitted the caller has already got every byte received so far |
| XmodemRuns.EveryAttemptAnswered | demo-dh/drivers/xyzmodem.c:267-314 | while no read has failed, polls sent plus accepted blocks plus duplicates plus one at end of file are the header attempts plus one |
| XmodemRuns.FetchTries | demo-dh/drivers/xyzmodem.c:267-314 | a block fetch makes at most as many header attempts as it has retries |
| XmodemRuns.ReadTries | demo-dh/drivers/xyzmodem.c:255-337 | attempts of a read are bounded by 200 per 133 events consumed, plus 200 if it ends in an error |
| XmodemChunks.ChunkIndependence | demo-dh/drivers/xyzmodem.c:263-335 | reading a and then b bytes equals reading a+b in data, final state and everything transmitted; a failing first read is the same either way |
| XmodemChunks.AnyCutting | demo-dh/drivers/xyzmodem.c:255-337 | any sequence of reads equals one read of the total size |
| XmodemFrame.FrameVerdict | demo-dh/drivers/xyzmodem.c:175-225 | a frame delivered in time with a good complement is loaded as sent and judged by its checksum alone |
| XmodemNoise.NoiseAttempt | demo-dh/drivers/xyzmodem.c:115-313 | an attempt that meets a stray, broken or short frame, or a silence, ends with its status and tries again; it sends an acknowledgement that is owing and then, for a repeated block, an ACK and otherwise a poll; a broken frame takes the bytes up to the next pause with it, a short one only its own |
| XmodemNoise.FetchThrough | demo-dh/drivers/xyzmodem.c:263-314 | fewer pieces of such noise than attempts do not keep the expected block from being accepted, stripped, and everything before it consumed |
| XmodemNoise.TooMuchNoise | demo-dh/drivers/xyzmodem.c:263-321 | as many pieces of noise as attempts prevent acceptance; the fetch then ends with the status of the last, and succeeds wrongly exactly if that repeats the previous block |
| XmodemFile.ReadFile | demo-dh/drivers/xyzmodem.c:255-337 | on a line that carries a file with at most 199 pieces of noise in each place, a read returns exactly the next bytes of its contents, and end of file exactly beyond them |
| XmodemFile.FileReceived | demo-dh/drivers/xyzmodem.c:263-335 | for files with any amounts of noise: a read of more than the whole file returns exactly its contents and reports its end, if and only if every place has fewer than 200 pieces of noise |
| XmodemFile.EndMeansAll | demo-dh/drivers/xyzmodem.c:263-335 | a read that reports end of file has returned at least the whole contents, and more than that if some place has 200 pieces of noise or more |
| XmodemFile.NoiseTransparent | demo-dh/drivers/xyzmodem.c:263-314 | two lines with the same blocks and whatever tolerable noise read the same |
| XmodemFile.ContentsUnpadded | demo-dh/drivers/xyzmodem.c:278-289 | the contents are the framed data when no block ends in three pad bytes |
| XmodemFile.StrippedShorter | demo-dh/drivers/xyzmodem.c:278-289 | pad removal is the identity exactly on blocks that do not end in three pad bytes |
| XmodemFile.StrippedPadded | demo-dh/drivers/xyzmodem.c:278-289 | data that does not end in a pad byte, followed by n of them, is stripped to the data if n is at least 3 and stays whole otherwise |
| XmodemFile.PaddedFile | demo-dh/drivers/xyzmodem.c:255-337 | a text not ending in a pad byte, sent in blocks with three or more pad bytes at its end, is read back as the text |
| XmodemLines.CarriesFrames | demo-dh/drivers/xyzmodem.c:175-225 | a line that delivers in time all the bytes of a file with stray frames in between carries that file |
| XmodemLines.LateStart | demo-dh/drivers/xyzmodem.c:166-172 | a file whose sender starts after any silence is received if and only if the attempts that expire before and the stray frames before its first block are fewer than 200 |
| XmodemLines.ExpiredLimit | demo-dh/drivers/xyzmodem.c:37-42 | the longest silence that leaves an attempt is 56218750 polling intervals |
| XmodemLines.AgainAfterBroken | demo-dh/drivers/xyzmodem.c:211-216 | a file sent again after a broken frame, the bytes that follow it at once, and a pause of any length is received under the same condition, the broken frame counting as one attempt |
| XmodemLines.AgainAfterShort | demo-dh/drivers/xyzmodem.c:176-210 | so is a file sent again after a frame cut short anywhere and the wait for its next byte |
| XmodemDamage.DamageUnnoticed | demo-dh/drivers/xyzmodem.c:211-222 | damage of one byte or two adjacent bytes behind the header byte leaves a frame sound if and only if it hits the number and its complement with the same pattern; the data is then whole, under another number |
| XmodemDamage.DamageVerdict | demo-dh/drivers/xyzmodem.c:211-222 | different patterns in number and complement are a broken frame; damage to data or checksum only is a checksum error and counts as noise |
| XmodemDamage.TakenForAnother | demo-dh/drivers/xyzmodem.c:270-276 | a frame so renumbered is accepted as the block expected next |
| XmodemOverrun.OverrunDelivers | demo-dh/drivers/xyzmodem.c:268-296 | block 1 followed by 200 copies of itself is handed over twice |
| XmodemOverrun.OverrunHappens | demo-dh/drivers/xyzmodem.c:268-296 | a concrete line on which that happens |
| XmodemHeader.HeaderSearch | demo-dh/drivers/xyzmodem.c:132-165 | after any junk, a header byte starts a block, the third CAN (adjacent or not) cancels, and EOT counts only with nothing before it |
| XmodemHeader.BrokenNumberFlushes | demo-dh/drivers/xyzmodem.c:211-216 | a number that disagrees with its complement rejects the frame and discards what can be read at once |
| XmodemHeader.CancelRead | demo-dh/drivers/xyzmodem.c:144-153 | three CANs end any read with nothing pending at once; only an acknowledgement that is owing is transmitted, and nothing further is consumed |
| XmodemHeader.SilentRead | demo-dh/drivers/xyzmodem.c:166-172 | on a silent line any read with nothing pending sends the acknowledgement that may be owing, polls exactly 200 times and fails with a timeout |
| Island.FindShip | demo-dh/common/island.c:12-26 | searching the table takes a ticket from its origin to its destination and from anywhere else to the null island |
| Serial.RunKeeps | demo-dh/drivers/serial_thread.c:30-192 | the invariants on islands, buffers, tokens and stopping hold in every interleaving, for writes of any length and any contents of a fresh device |
| Serial.TokenConservation | demo-dh/drivers/serial_thread.c:46-110 | `rx_ready` is RD commands executed less successful reads; executed never exceed issued; leftover tokens never exceed expired reads plus the one in progress |
| Serial.NeverNull | demo-dh/drivers/serial_thread.c:157-186 | `land` never becomes the null island, so the reset branch is unreachable |
| Serial.WorkRemaining | demo-dh/drivers/serial_thread.c:88-192 | once stopping, the worker is never blocked and each of its steps brings it nearer its exit |
| Serial.Shutdown | demo-dh/drivers/serial_thread.c:162-192 | from every reachable stopping state the worker leaves its loop within 17 of its own steps more than the length of its longest copy, in every interleaving |
| Serial.GoneAfterExit | demo-dh/drivers/serial_thread.c:363-384 | a destroyed device is freed only after its worker has left its loop |
| Serial.DestroyReturns | demo-dh/drivers/serial_thread.c:363-384 | from every reachable stopping state a destroy has returned once the worker has had that many turns and the client one after them |
| Serial.DestroyCanReturn | demo-dh/drivers/serial_thread.c:363-384 | from every reachable state in which the client is idle a destroy can return |
| Serial.StoppedTakesNothing | demo-dh/drivers/serial_thread.c:88-110 | once told to stop the worker takes no command, unless it has already passed its test |
| SerialRequests.RunKeepsRequests | demo-dh/drivers/serial_thread.c:30-192 | in every run there is at most one sign of an unanswered write, only while the client is writing; once a write is answered the worker has nothing in hand; a command in the slot has a token or the worker is attending to it |
| SerialRequests.RequestFate | demo-dh/drivers/serial_thread.c:88-110 | for every stored command of a read or a write: if the worker is about to clear the slot and no answer is left over or in the making, none comes while the call lasts; otherwise client and worker are never both blocked and the answer is there within 21 of the worker's steps more than the length of its longest copy, unless a read expires |
| SerialRequests.RequestAnswerable | demo-dh/drivers/serial_thread.c:88-110 | from the store of a command its answer can still come within the call if and only if that condition holds |
| SerialRequests.WriteReturns | demo-dh/drivers/serial_thread.c:310-328 | from the store of its command a write can return if and only if the worker is not about to clear the slot |
| SerialRequests.Drain | demo-dh/drivers/serial_thread.c:76-108 | left to itself the worker of a device that is not stopping takes all its tokens and comes to rest at its wait |
| SerialBuffers.CopiesInBounds | demo-dh/drivers/serial_thread.c:131-329 | in every run in which no write is longer than 0x2000 bytes and either the length of the fresh device fits or the first call is not a read, no copy loop leaves the buffers of the device |
| SerialBuffers.LongWriteStrays | demo-dh/drivers/serial_thread.c:310-323 | in every run, a write longer than 0x2000 bytes has left its buffer by the time its copy is done |
| SerialBuffers.FitsExactly | demo-dh/drivers/serial_thread.c:131-146 | a length fits if it is at most 0x2000, or at least 0x80000000: then it is negative as an int and nothing is copied |
| SerialLoopback.Loopback | demo-dh/drivers/serial_thread.c:131-308 | in every such run, with expired reads or without, a completed read returns 0 or the length of the last write and leaves in the caller's buffer as many bytes of the last write as it returns and as fit; it never overruns a buffer that the last write fits |
| SerialTimely.RequestsAlternate | demo-dh/drivers/serial_thread.c:287-329 | without expired reads the client waits exactly when one request is in flight; idle means all semaphores 0, slot empty, worker idle; client and worker are never both blocked |
| SerialTimely.TimelyRequests | demo-dh/drivers/serial_thread.c:88-110 | without expired reads no command is stored while the worker is about to clear the slot, and a waiting client has its answer within 21 of the worker's steps more than the length of its longest copy |
| SerialTimely.TimelyLoopback | demo-dh/drivers/serial_thread.c:131-308 | without expired reads a completed read returns the length of the last write; it stays inside the caller's buffer, and delivers the whole write, exactly if the write is no longer than the buffer |
| SerialTimely.StraysExactly | demo-dh/drivers/serial_thread.c:131-329 | without expired reads and between calls, the copy loops have left the buffers if and only if some write was longer than 0x2000 bytes or the first call was a read and the length of the fresh device did not fit |
| SerialSpill.ReadOverrunsItsBuffer | demo-dh/drivers/serial_thread.c:287-308 | from every state of such a run in which the client is idle, with expired reads before or without, a read into a buffer of any size can return the whole last write; all bytes that do not fit are stored past its end |
| SerialSpill.WriteCanReturn | demo-dh/drivers/serial_thread.c:310-328 | from every reachable state in which the client is idle a write of any data can return |
| SerialSpill.LongWriteCanStray | demo-dh/drivers/serial_thread.c:310-323 | from every reachable state in which the client is idle, for every longer write there is a run in which it leaves the buffer |
| SerialSpill.FirstReadCanStray | demo-dh/drivers/serial_thread.c:131-155 | for every fresh device whose length does not fit there is a run that begins with a read, without writes and expired reads, in which the worker leaves the buffers |
| SerialLost.ExpiredReadCanLoseAWrite | demo-dh/drivers/serial_thread.c:99-110 | there is a run with one expired read after which a write waits for ever, whatever follows |
| SerialLost.LeftoverTokenCanLoseARead | demo-dh/drivers/serial_thread.c:88-110 | there is a run with one expired read after which a later read gets no answer as long as it waits |
| Broadcast.NobodyOversleeps | thread/thread.c:73-139 | while the flag is set no worker is asleep, except while the broadcaster holds the mutex between setting it and broadcasting |
| Broadcast.MutualExclusion | thread/thread.c:73-139 | no two parties are between lock and unlock at once |
| Broadcast.RoundsBounded | thread/thread.c:73-139 | in every run N workers finish or have begun at most N rounds per broadcast plus one per spurious wakeup |
| Broadcast.TwoWorkers | thread/thread.c:119-139 | with the two workers of the program, rounds never exceed twice the broadcasts plus spurious wakeups |
| BroadcastRounds.WokenCompletes | thread/thread.c:73-92 | an awakened worker that gets its turns while the mutex is free clears the flag and completes a round |
| BroadcastRounds.EverybodyCompletes | thread/thread.c:119-139 | from every state in which the broadcaster is about to broadcast, all sleepers and all awakened workers can complete a round without another broadcast |
| BroadcastRounds.BoundAttained | thread/thread.c:73-139 | for every number of workers, broadcasts and spurious wakeups there is a run with exactly as many rounds as the bound allows |
| CommandLine.CommData.GetCommand | demo-dh/common/comm_cmd.c:64-89 | the buffer holds the characters stored since it last wrapped, less one trailing carriage return, NUL-terminated, and behind a short line it is unchanged; it overflows exactly for lengths that are nonzero multiples of 4096 without a trailing carriage return |
| CommandLine.WindowExactly | demo-dh/common/comm_cmd.c:80-82 | a line that does not fit leaves what remains when as many whole buffers as possible, but not the whole line, are taken off its front |
| CommandLine.OverflowingLine | demo-dh/common/comm_cmd.c:71-84 | a concrete line of 4096 letters on which the NUL would be stored past the buffer |
| CommandLine.CommData.ParseCommand | demo-dh/common/comm_cmd.c:91-127 | pointers are the token starts, at most 2048, and later pointers are unchanged; tokens unchanged, each followed by a NUL; nothing else written |
| CommandLine.SpansExact | demo-dh/common/comm_cmd.c:99-121 | on NUL-free lines the tokens are exactly the maximal runs of non-blanks, from left to right |
| CommandLine.SpansStopAtNul | demo-dh/common/comm_cmd.c:99-106 | a NUL between tokens ends the line |
| CommandLine.PointersAreWords | demo-dh/common/comm_cmd.c:99-121 | each pointer, read as a C string after the in-place NULs, is the corresponding word |
| CommandLine.WordsOfRender | demo-dh/common/comm_cmd.c:99-121 | any token list rendered with any blanks is read back unchanged |
| CommandLine.TypeAndParse | demo-dh/common/comm_main.c:91-96 | tokens typed in at most 4096 characters, with the line ended by a newline or by a carriage return and a newline, come back through reading and parsing; a later pointer left by an earlier line still denotes what it did if the line does not reach it |
| CommandTable.Table.RegisterCommand | demo-dh/common/comm_cmd.c:234-258 | the table and the code after registering are those of the slot model |
| CommandTable.Table.UnregisterCommand | demo-dh/common/comm_cmd.c:260-279 | the table and the code after unregistering are those of the slot model |
| CommandTable.Table.MatchCommand | demo-dh/common/comm_cmd.c:205-222 | the scan returns the lowest slot that holds the command, or -1 |
| CommandTable.Match | demo-dh/common/comm_cmd.c:205-222 | lowest index that holds the command; -1 exactly if none does |
| CommandTable.LowestSlot | demo-dh/common/comm_cmd.c:234-279 | registering fills the lowest free slot, unregistering clears the lowest slot with the command, and nothing else changes |
| CommandTable.TableIsBag | demo-dh/common/comm_cmd.c:187-279 | for every history the table refines a bag of at most 100 commands, code by code |
| CommandTable.OccupiedCount | demo-dh/common/comm_cmd.c:234-279 | occupied slots are successful registrations less successful unregistrations |
| CommandTable.RegisterThenUnregister | demo-dh/common/comm_cmd.c:234-279 | unregistering undoes registering a command that was not in the table |
| CommandTable.Dispatch | demo-dh/common/comm_cmd.c:143-178 | the command run is the lowest slot that matches on group and name, with no slot before it that matches or follows a null pointer |
| CommandTable.TwoWords | demo-dh/common/comm_cmd.c:143-178 | if all commands in the table are complete, a line of two words runs the lowest command whose name is the first word and that needs no group, or whose group and name are the two words, and nothing exactly if there is none |
| CommandTable.OneWord | demo-dh/common/comm_cmd.c:154-175 | a line of one word runs the lowest command of that name that needs no group, whatever an earlier line has left, if no command before it looks at the second word |
| CommandTable.CheckExactly | demo-dh/common/comm_cmd.c:187-203 | a command can be registered exactly if it has an id of at least 0 and a name, and which code is returned otherwise |
| CommandTable.NeverCrashes | demo-dh/common/comm_cmd.c:154-166 | two words never make the scan follow a null pointer if and only if no command in the table is to be called by a group that it has not got |
| CommandTable.Table.Exec | demo-dh/common/comm_cmd.c:129-180 | -1 without arguments; otherwise at most one command runs, as `Dispatch` says |
| CommandTable.OneWordIndependent | demo-dh/common/comm_cmd.c:154-166 | the meaning of a one-word line does not depend on a stale second argument exactly if no slot that looks at it precedes the first deciding slot |
| CommandRepeat.SecondWordComesBack | demo-dh/common/comm_main.c:91-96 | after a line of two words, a one-word line that ends before the second word began is executed as if that second word had been typed again |
| CommandRepeat.TypedAgain | demo-dh/common/comm_cmd.c:129-180 | with one command "w" of group "g", typing "g w" and then "g" runs it again; "g" typed first meets a null pointer |
| NumberParser.ParsePositional | demo-lib/main.c:24-47 | right-to-left accumulation yields the left-to-right value of the longest digit suffix, and overflows exactly beyond 9 decimal or 10 octal digits |
| NumberParser.DigitsAtTheEnd | demo-lib/main.c:24-47 | decimal or octal digits behind anything else: only the digits at the end count, and more than 9 or 10 of them overflow |
| NumberParser.ParseShiftOr | demo-lib/main.c:48-66 | shift-or accumulation yields the value of the longest digit prefix times 16 per character after it, and is undefined exactly for more than 8 characters beginning with a digit |
| NumberParser.OrDisjoint | demo-lib/main.c:62-63 | or-ing numbers without a common one bit adds them |
| NumberParser.PosFits | demo-lib/main.c:24-46 | `pos` fits a signed int exactly up to 9 decimal or 10 octal digits |
| NumberParser.DigitsExactly | demo-lib/main.c:28-60 | the digits of a base and their values |
| NumberParser.Astrtol | demo-lib/main.c:6-69 | base detection, prefix skipping and the loops together compute `Parse` |
| NumberParser.ReadsNumbers | demo-lib/main.c:6-69 | strings of up to 8 hexadecimal, 10 octal or 9 decimal digits are read as ordinary left-to-right evaluation, with the base given or, by its prefix, with base 0 |
| NumberParser.ReadsBack | demo-lib/main.c:6-69 | every number below 10^9, 2^30 or 2^32, written in decimal, octal or hexadecimal, is read back as itself |
| NumberParser.HexTail | demo-lib/main.c:48-66 | hexadecimal digits followed by anything are read as the number they denote if and only if there are none, or there are at most 8 characters and nothing follows or the number is 0 |
| NumberParser.HexTailParsed | demo-lib/main.c:6-69 | the same of `astrtol` with base 16, and with prefix 0x or 0X and base 16 or 0 |

## Left out

- XmodemReceiver.Receiver.StreamOpen: sets the read offset to 0, which the source leaves as it is; nothing reads it before a block has been received. The error code stored beside -1 is not returned.
- Xmodem error texts, `xyzModem_stream_terminate` and the terminal's function pointers: fixed output and hardware access.
- Serial.RunKeeps: what lies behind a buffer is not modelled; an access outside the buffers of the device, and a store past the buffer of a reader, is counted, and the run goes on as if it had changed nothing. In the source such a run has no defined meaning.
- Serial device configuration, open, close and the actual transfer on the wire: assignments only, or still to be written in the source.
- Failures and interruptions of untimed semaphore waits, and memory ordering: every wait succeeds and steps are sequentially consistent.
- The semaphore half of thread/thread.c and the thread demos c4 and c4-2: counter conservation, of which the serial device is the harder case.
- CommandLine.CommData.GetCommand: end of input, at which the source loops for ever, is excluded by requiring a newline; the store past the buffer is reported and not carried out.
- CommandLine.PointersAreWords: lines with NUL characters are covered by `ParseCommand`, whose spans follow the code, but not by the word-level statements.
- CommandTable.Table.Exec: the contents of handlers and the copy of the arguments into `cdata` are not modelled; the text of a stale `argv[1]` is a parameter, which `CommandRepeat.ExecLine` takes from the line buffer.
- Changes to a command structure while it is registered: its fields are constants here.
- The shutdown in demo-dh/common/comm_main.c, which registers `exit` where it should unregister it: no claim is made about the table afterwards.
- USB, socket, file, shared-memory, process, signal and calculator examples: wrappers of system calls and libraries.
- Tracing, screen output and real delays.
