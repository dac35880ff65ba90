# Grid OS, modelled and proved

Grid OS is a small x86_64 kernel in C. This project models its self-contained algorithmic
parts in Dafny and proves what they are for. Each part comes as a specification on values
with its theorems and, where the kernel works by changing things step by step, as a class or
loop that is proved equal to the specification. What the specifications themselves compute is
pinned in modules of laws, which say it in numbers, literals and quantifiers instead of the
specifications' own parts.

- **GridBASIC** (`Numbers`, `NumberLoops`, `BasicEval`, `BasicExpr`, `BasicMachine`,
  `BasicProgram`, `BasicLines`, `BasicLoops`, `BasicInterpreter`, `Sqrt`, and the laws in
  `NumberLaws`, `OperatorLaws`, `LoopLaws`, `GrammarLaws`,
  `StatementLaws`): fixed-point numbers as text, the recursive-descent evaluator against the
  grammar, and the token-cursor machine with its frame stack against the big-step meaning of
  structured programs.
- **Memory and programs** (`PageTables`, `PageProofs`, `PoolProofs`, `Elf`, `Programs`,
  `PageWords`, `UserMemory`, `ProgramTable`, `MapLaws`, `ElfLaws`, `ProgramLaws`): four-level
  page tables over owner-tagged pools as maps, the loader, isolation over every run of the
  program table, and exactly when mapping and loading succeed. A page is a page number of 48-bit
  addresses; a table entry is a record of frame and flags, and `PageWords` shows that the walk
  over 64-bit words is the walk over records.
- **GridFS** (`Gfs`, `GfsProofs`, `GfsHost`, `GridFs`, `Crc32`, `CrcWords`, `Vault`,
  `VaultBursts`, `GfsLaws`, `DiskLaws`, `VaultLaws`): the file system as a
  finite map, across reboots and across a stop after any sector write; the host tool; the
  checksum that seals the superblock and the vault. Every read and write of a sector stays on
  the disk, as does every read of an image by the loader: Dafny checks each index.
- **Network** (`Checksum`, `Tcp`, `TcpConnection`, `Http`, `HttpReceiver`, `WireFormat`,
  `TcpLaws`, `HeaderLaws`, `RequestLaws`): checksums, a stream
  over a network that loses, repeats and reorders, and keep-alive framing.
- **Scheduler, preprocessor, editor, line drawing** (`Sched`, `Scheduler`, `Preprocessor`,
  `PreprocessorRun`, `PreprocessorText`, `EditorText`, `EditorBuffer`, `Line`, `SchedLaws`,
  `DirectiveLaws`, `EditorLaws`).

Where something is not as one would expect, the model follows the code and says exactly when
it is: merging or deleting at a line end can lose text (`EditorText.MergeText`,
`EditorText.DeleteAtEnd`); paths over 55 bytes are written and not found
(`GfsProofs.ReadableIffFits`); the last four bytes of the vault are not sealed
(`Vault.LastBytesUncovered`), and five changes across the end of its checksum field go
unnoticed in every vault (`VaultBursts.ChangedRecordExactly`); the least 64-bit number prints as
a lone sign (`Numbers.PrintParse`) and an exponent above 12 counts as 12
(`NumberLaws.ExponentReads`); segments off a page boundary are shifted
(`Elf.UnalignedShifted`); an expected sequence number of 0 accepts anything
(`Tcp.AcceptedIff`) and a second SYN-ACK repeats data (`Tcp.SecondSynAckRepeats`); a
tower of more than 16 #IFs prints its text only when all but the innermost hold
(`PreprocessorText.TowerExact`); a block
glyph loses its colour (`Line.EntryReads`).

Integers are unbounded in Dafny; the widths that matter are written out (64-bit wrap-around
and 128-bit intermediates in BASIC arithmetic, 32-bit sums, sequence numbers and ticks). The
disk is an array of sectors, the network a list of segments, user code a list of stores.

## Model

| member | source | states |
|---|---|---|
| Numbers.PrintParse | kernel/basic.c:845-917 | reading back the text `num_to_string` shows gives the number, for every 64-bit number but the least, which shows as a lone sign and reads as 0; the reader goes through wrap-around and truncation as in C |
| Numbers.LiteralRoundTrip | kernel/basic.c:368-415 | `parse_number` on the printed text of a non-negative number yields the number and stops exactly behind it |
| Numbers.UnsignedRoundTrip | kernel/basic.c:901-917 | whole digits, a point and six fraction digits read back as the value they spell |
| Numbers.TrimZerosValue | kernel/basic.c:863-874 | leaving out trailing zeros of a fraction does not change the value it is read as |
| NumberLoops.NumToString | kernel/basic.c:845-874 | the printer, writing digits into small buffers and then out backwards, leaves exactly the text of the number, cut to the caller's buffer, for every 64-bit number |
| NumberLoops.TextFits | kernel/basic.c:1491-1500 | every 64-bit number's text fits the 32 characters PRINT converts it in, so it is never cut |
| NumberLoops.ParseStrToNum | kernel/basic.c:901-917 | the reader's loops compute the specified value of any text, well-formed or not |
| NumberLoops.ParseNumber | kernel/basic.c:368-415 | the literal scanner computes the specified value and end for any source text, exponents included |
| BasicExpr.Adequate | kernel/basic.c:1284-1489 | for every expression over literals, plain numeric names (no string, no function, no GRID name), signs, ^, * / MOD DIV, + -, comparisons, NOT, AND, OR, printed with the parentheses the grammar needs: if its nesting fits and its value exists, the evaluator yields that value, stops exactly behind it and keeps the variables; otherwise it reports an error; what the values are is said by `OperatorLaws`, which token is which operator by `GrammarLaws` |
| BasicExpr.Climb | kernel/basic.c:1404-1489 | left-associative levels: operands and operators of one level fold into the tree they were printed from |
| BasicExpr.AdequatePow | kernel/basic.c:1389-1402 | ^ is right-associative and binds its base tighter than signs |
| BasicExpr.AdequateParen | kernel/basic.c:1284-1306 | a parenthesis costs one level of the depth guard and gives it back |
| BasicExpr.GetVarHolds | kernel/basic.c:552-578 | reading a name that has no variable yet creates it with value 0 and leaves every other variable |
| BasicLines.SimpleRuns | kernel/basic.c:1505-1568 | a PRINT of numbers or an assignment to a scalar run by the cursor has the effect of its meaning, output columns included, and stops behind it; a fault in the meaning is an error in the machine |
| BasicLines.IfRuns | kernel/basic.c:2078-2126 | an IF line over assignments and PRINT, with any number of ELSEIF arms, runs the first arm whose condition holds, or the ELSE part, and leaves the cursor at the end of the line |
| BasicLoops.ScanBlock | kernel/basic.c:2539-2546 | the WEND-skipping scan started inside a block counts nested WHILE and WEND and leaves the block at the depth it entered with |
| BasicLoops.ForRuns | kernel/basic.c:2492-2530 | FOR ... NEXT: the machine runs the post-test loop, its frame removed at the end; how often the body runs is `LoopLaws.ForCounts` |
| BasicLoops.WhileRuns | kernel/basic.c:2531-2564 | WHILE ... WEND: the machine runs the pre-test loop, skipping over the body when the condition fails |
| BasicLoops.RepeatRuns | kernel/basic.c:2565-2577 | REPEAT ... UNTIL: the machine runs the post-test loop |
| BasicLoops.BlockRuns | kernel/basic.c:2483-2658 | every well-formed block, started anywhere in a program, simulates its big-step meaning with the frame stack back where it was |
| BasicLoops.ProgramRuns | kernel/basic.c:2648-2658 | for every well-formed program nested at most 64 loops deep: if the structured meaning ends in store s, the token-cursor machine reaches the end with s, the same output and no frames left; faults and endless runs correspond too |
| BasicLoops.HaltsWithMeaning | kernel/basic.c:2648-2658 | conversely, the machine halts only in the state the meaning gives |
| BasicInterpreter.Interpreter.EvalOr | kernel/basic.c:1481-1489 | the evaluator's loop on the global cursor computes what the specified evaluator yields; the other levels below likewise |
| BasicInterpreter.Interpreter.EvalCmp | kernel/basic.c:1437-1468 | comparisons: one after another, left to right, each giving 1 or 0 |
| BasicInterpreter.Interpreter.EvalMul | kernel/basic.c:1404-1414 | * / MOD DIV on 64-bit fixed point with C's truncation and 128-bit intermediates |
| BasicInterpreter.Interpreter.EvalPow | kernel/basic.c:1389-1398 | the ^ loop |
| BasicInterpreter.Interpreter.EvalPrimary | kernel/basic.c:1284-1387 | literals, plain names, signs and parentheses under the depth guard, which is restored on every path |
| BasicInterpreter.Interpreter.ExecPrint | kernel/basic.c:1505-1528 | PRINT writes what the specified loop writes |
| BasicInterpreter.Interpreter.ExecAssign | kernel/basic.c:1531-1567 | assignment to a scalar |
| BasicInterpreter.Interpreter.ExecIfChain | kernel/basic.c:2092-2126 | the IF chain leaves cursor, variables and output as specified |
| BasicInterpreter.Interpreter.ExecForStatement | kernel/basic.c:2492-2512 | FOR pushes its frame as specified, or fails where the code does |
| BasicInterpreter.Interpreter.ExecNextStatement | kernel/basic.c:2513-2530 | NEXT steps the variable and jumps back or pops; when it goes on is pinned by `LoopLaws.ForCounts` |
| BasicInterpreter.Interpreter.ExecWhileStatement | kernel/basic.c:2531-2550 | WHILE enters or skips |
| BasicInterpreter.Interpreter.ExecWendStatement | kernel/basic.c:2551-2564 | WEND re-tests the condition |
| BasicInterpreter.Interpreter.ExecUntilStatement | kernel/basic.c:2571-2577 | UNTIL pops or jumps back |
| BasicInterpreter.Interpreter.Exec | kernel/basic.c:2483-2646 | one statement on the interpreter's fields is one step of the machine |
| BasicInterpreter.Interpreter.RunLoop | kernel/basic.c:2648-2658 | the run loop, for any number of rounds, is the machine run for as many |
| BasicInterpreter.Interpreter.RunToEnd | kernel/basic.c:2648-2658 | the run loop to its own end, on every run that has one, ends in the state the machine ends in |
| BasicInterpreter.RunProgram | kernel/basic.c:2648-2658 | the interpreter object, loaded with a well-formed program whose meaning ends, stops by itself with the store and the output of that meaning and no loop frame left; where the meaning faults, it stops with an error |
| Sqrt.SqrtLocal | kernel/basic.c:2662-2681 | for every positive 64-bit x the loop leaves by convergence within 61 of its 80 rounds with the integer square root of x * 10^6 or one more |
| Sqrt.GapHalves | kernel/basic.c:2673-2679 | each round keeps the estimate at or above the root and at least halves the gap |
| Sqrt.ExitClose | kernel/basic.c:2676-2677 | whenever the exit test holds the new estimate is the root or one above |
| Sqrt.CloseExits | kernel/basic.c:2676-2677 | within one of the root the exit test holds |
| PageProofs.MapPtWalk | kernel/memory.c:271-303 | a successful mapping changes the walk at exactly its page, to the frame and flags given; the walk of every other page, in this and every other tree, is unchanged, and a failed one changes no walk; when it succeeds is `MapLaws.MapPtStatus` |
| PageProofs.MapPtForest | kernel/memory.c:271-303 | mapping keeps the page tables an unshared forest, one owner tag to a tree |
| PageProofs.RouteUnique | kernel/memory.c:271-303 | in a forest a table is reached from one root by one sequence of indices only |
| PageProofs.WalkShape | kernel/memory.c:271-303 | what a third-level entry can be, and what the walk then yields |
| PageWords.WordReads | kernel/memory.c:56-58 | address and every flag are read back from the 64-bit word of an entry by shift and mask |
| PageWords.WordWalkIs | kernel/memory.c:271-303 | a processor that follows 64-bit words at physical addresses, from any placement of the pools, finds for every page the address and rights the walk over records finds |
| PageWords.SetEntryStores | kernel/memory.c:56-58 | setting an entry is one store of one word, and keeps every word readable |
| PageWords.WordsGuarded | kernel/memory.c:248-407 | after building an address space and any sequence of mapping calls, the words in memory give no user page that is writable and executable, and the first 4 MB to the supervisor alone |
| PoolProofs.UserAccess | kernel/memory.c:248-407 | no user-accessible page is both writable and executable, and each is a data page tagged with the tree's owner |
| PoolProofs.Isolation | kernel/memory.c:206-226 | trees of different owners never map the same page for the user |
| PoolProofs.KernelKept | kernel/memory.c:259-262 | a mapping into the first 4 MB is refused and the supervisor map stays |
| PoolProofs.CreateView | kernel/memory.c:248-265 | a new address space consists of the supervisor's 4 MB alone and disturbs no other |
| PoolProofs.MapPagesView | kernel/memory.c:337-379 | the mapping loop: on success each page of the run shows its content and rights, every other page and tree what it showed; on failure other trees are untouched |
| PoolProofs.ReleaseView | kernel/memory.c:232-246 | releasing an owner keeps the forest and everybody else's view |
| UserMemory.EntryWordDecodes | kernel/memory.c:56-58 | address and flags are read back from the stored word by the masks the walk uses |
| UserMemory.Manager.AllocUserPt | kernel/memory.c:206-215 | takes the first free table page, zeroed and tagged |
| UserMemory.Manager.AllocUserData | kernel/memory.c:217-226 | takes the first free data page, zeroed and tagged |
| UserMemory.Manager.ReleaseUser | kernel/memory.c:232-246 | gives back exactly the pages of one owner |
| UserMemory.Manager.CreateUserTables | kernel/memory.c:248-265 | builds the tables in place as specified, all three taken before any is looked at |
| UserMemory.Manager.MapPtFlags | kernel/memory.c:271-303 | the in-place mapping does to the pools what the specified mapping does, with the same status, which `MapLaws.MapPtStatus` determines |
| UserMemory.Manager.MapUserRx | kernel/memory.c:305-335 | the RX loop is the segment loop for a segment whose memory is its bytes |
| UserMemory.Manager.MapUserSegment | kernel/memory.c:337-379 | the segment loop in place |
| UserMemory.Manager.MapUserRw | kernel/memory.c:381-407 | the RW loop in place; asked for unzeroed pages it takes one and fails |
| Elf.LoadView | kernel/elf.c:80-133 | loading changes no other program's memory and keeps the 4 MB; on success every page shows the last segment covering it, or what was there; which segments an image holds is `ElfLaws.SegmentsRead`, when it loads `ElfLaws.ImageLoads` |
| Elf.ReadBack | kernel/elf.c:106-128 | at k bytes behind the start of its first page a segment that no later one overlaps shows its byte k, zeros behind its file bytes |
| Elf.ReadBackAligned | kernel/elf.c:106-128 | page-aligned segments read back byte for byte at p_vaddr + k, zero up to p_memsz |
| Elf.UnalignedShifted | kernel/memory.c:337-379 | a segment that is not page-aligned is shifted: its first address shows a byte further on |
| Elf.CallsGuarded | kernel/memory.c:248-407 | after any sequence of the three mapping calls, successful or not: W^X everywhere, and the first 4 MB present and supervisor-only |
| UserMemory.Manager.LoadImage | kernel/elf.c:80-133 | the loader in place, flat and ELF images, every failure included |
| UserMemory.Manager.LoadAll | kernel/elf.c:106-128 | the loop over the program headers, whose fields `ElfLaws.HeaderReads` pins |
| Programs.StepInv | kernel/program.c:83-98 | every step (spawn, load, run with any user stores and outcome, background start, release) keeps the slot invariant, and no live program but the one run or released is disturbed |
| Programs.LoadImageInv | kernel/program.c:333-375 | a loaded program sees exactly its image's segments and its stack over empty memory |
| Programs.SpawnInv | kernel/program.c:237-274 | a spawn, failed mappings with leftover tags included, disturbs nobody |
| Programs.StoresSame | kernel/program.c:292-331 | stores made by a running program are seen by no program of another owner |
| Programs.LiveProgramsIsolated | kernel/program.c:237-389 | after any run two live programs share no user-reachable page |
| Programs.LiveProgramsGuarded | kernel/program.c:237-389 | after any run W^X and the supervisor's 4 MB hold in every live program |
| Programs.UntouchedKeepsMemory | kernel/program.c:83-98 | a live program that is neither run nor released keeps its memory bit by bit through any number of other programs' steps |
| ProgramTable.Table.FindFree | kernel/program.c:83-98 | the slot search in place, reclaiming a finished program when none is free |
| ProgramTable.Table.ReleaseProgram | kernel/program.c:625-642 | release in place |
| ProgramTable.Table.LoadInto | kernel/program.c:357-375 | loading into a slot in place |
| ProgramTable.Table.SpawnRaw | kernel/program.c:237-274 | spawning in place |
| ProgramTable.Table.SpawnImage | kernel/program.c:465-485 | spawning an ELF image in place |
| ProgramTable.Table.EnterProgram | kernel/program.c:292-331 | a stretch of user execution and its end, in place |
| ProgramTable.Table.RunById | kernel/program.c:377-389 | running by id in place |
| ProgramTable.Table.StartBackground | kernel/program.c:453-463 | a refused background start forgets the slot without releasing its pages |
| Crc32.UpdateBijection | kernel/gfs.c:89-99 | for each byte the update is a bijection on the register |
| Crc32.BurstBits | kernel/gfs.c:89-99 | bit streams that differ only inside 32 consecutive bits leave different registers |
| Crc32.BurstDetected | kernel/gfs.c:101-110 | regions of equal length that differ only inside four consecutive bytes have different checksums |
| Crc32.SealedResidue | kernel/gfs.c:101-123 | a region with its checksum stored behind it leads the register to one fixed value, whatever the region |
| Crc32.DifferenceSpreads | kernel/gfs.c:101-110 | two regions that differ in four bytes leave registers that differ by those bits, so many rounds on as bits were still to come |
| CrcWords.TurnBits | kernel/gfs.c:89-99 | the round on a 32-bit machine word is the round on its bits |
| CrcWords.JumpIs | kernel/gfs.c:89-99 | any number of rounds is one product modulo the generator |
| Crc32.ChecksumIsRemainder | kernel/gfs.c:101-110 | the checksum is the complemented remainder of the reflected message by the generator polynomial, and the only one (IEEE 802.3 section 3.2.9) |
| Crc32.RemainderUnique | kernel/gfs.c:89-99 | there is one remainder of 32 bits |
| Crc32.UpdateLoop | kernel/gfs.c:89-99 | the eight rounds on the running register |
| Crc32.ChecksumLoop | kernel/storage.c:83-92 | the loop over the bytes |
| Vault.SealValid | kernel/storage.c:94-97 | recomputing the checksum makes the record valid and changes only that field |
| VaultBursts.ChangedRecordExactly | kernel/storage.c:83-108 | a valid record changed inside any four consecutive covered bytes is still accepted if and only if the bits turned over are one of five listed patterns, all of them across the end of the checksum field |
| VaultBursts.Neighbour | kernel/storage.c:83-108 | every valid record has a valid one that differs from it in bytes 9 to 12 alone |
| VaultBursts.FieldAndData | kernel/storage.c:83-108 | a change of the field and the four bytes behind it is accepted exactly when the field changes by what the data bits have become 8096 rounds later |
| Vault.LastBytesUncovered | kernel/storage.c:83-92 | the last four bytes are not covered: any value there is as valid |
| Vault.WriteThenLoad | kernel/storage.c:230-281 | a written vault is read back whole; read as a two-sector vault it loses only its uncovered bytes |
| Vault.MigratedValid | kernel/storage.c:283-290 | a migrated record is valid under the new version with its contents kept |
| Vault.Storage.RecomputeChecksum | kernel/storage.c:94-97 | sealing in place |
| Vault.Storage.IsValid | kernel/storage.c:99-108 | the validity test on a copy |
| Vault.SyncThenLoad | kernel/storage.c:197-320 | a valid vault written to disk is loaded again, whatever the disk and the vault held before |
| Vault.LoadStable | kernel/storage.c:292-320 | a load that succeeds leaves a valid vault of the current version, and loading again changes neither vault nor disk: migration happens once |
| Vault.Storage.LoadSectors | kernel/storage.c:230-253 | reading the sectors into the record |
| Vault.Storage.Write | kernel/storage.c:197-281 | writing the signature sector and the three sectors of the record, and no other |
| Vault.Storage.MigrateVault | kernel/storage.c:283-290 | migration in place |
| Vault.Storage.LoadFromDisk | kernel/storage.c:292-320 | loading in place: the signature's version decides what is read and whether it is migrated |
| GfsProofs.FormatEmpty | kernel/gfs.c:226-270 | format, and format followed by mount, give the empty map although the zeroing pass overwrites part of the inode table |
| GfsProofs.RemountSame | kernel/gfs.c:272-321 | mounting again gives the same map |
| GfsProofs.WriteBinds | kernel/gfs.c:378-428 | a successful write binds its path to the bytes and no other path to anything else; table on disk and in memory agree again |
| GfsProofs.DeleteUnbinds | kernel/gfs.c:430-447 | a delete removes its path and nothing else |
| GfsProofs.CreateAtomic | kernel/gfs.c:378-428 | a create stopped after any prefix of its sector writes and remounted is the old map up to the inode's sector and the new map from it on |
| GfsProofs.DeleteAtomic | kernel/gfs.c:430-447 | the same for a delete |
| GfsProofs.StepRefines | kernel/gfs.c:333-447 | each operation answers as on a finite map and refines it again |
| GfsProofs.RunRefines | kernel/gfs.c:191-447 | over any run of writes, reads, deletes and reboots every answer, successes and refusals included, is that of a finite map |
| GfsProofs.FormatRefines | kernel/gfs.c:226-447 | starting from a formatted disk the map is empty at first |
| GfsProofs.RoomIff | kernel/gfs.c:200-207 | a free inode is found exactly while fewer than 1279 files exist |
| GfsProofs.DataApart | kernel/gfs.c:142-144 | data at or behind the region of inode 1 holds no part of the table |
| GfsProofs.FilesApart | kernel/gfs.c:142-144 | writing one file leaves the data of the others |
| GfsProofs.ReadableIffFits | kernel/gfs.c:378-402 | a file just written can be read back exactly when its path has at most 55 bytes |
| GfsProofs.ChangedSuperRejected | kernel/gfs.c:112-123 | a superblock changed within any four consecutive bytes of its first 28, checksum included, is rejected |
| GfsProofs.SuperSealed | kernel/gfs.c:125-140 | a built superblock is valid |
| GridFs.Kernel.LoadInodes | kernel/gfs.c:146-165 | the table in memory becomes the one on disk |
| GridFs.Kernel.StoreInodes | kernel/gfs.c:167-189 | writes the 160 table sectors in order |
| GridFs.Kernel.FindPath | kernel/gfs.c:191-198 | first inode with the path |
| GridFs.Kernel.FindUnused | kernel/gfs.c:200-207 | first free inode but 0 |
| GridFs.Kernel.FormatDisk | kernel/gfs.c:226-270 | formatting in place, with exactly the listed writes |
| GridFs.Kernel.Initialise | kernel/gfs.c:272-321 | mounting in place; nothing is written to a disk with a valid superblock, and one without is formatted with exactly the listed writes |
| GridFs.Kernel.ReadFile | kernel/gfs.c:333-376 | reading in place, with no writes but those of mounting |
| GridFs.Kernel.WriteFile | kernel/gfs.c:378-428 | writing in place: on a mounted disk the sectors written are exactly the listed ones in order, and none when it is refused |
| GridFs.Kernel.DeleteFile | kernel/gfs.c:430-447 | deleting in place, with the same exactness |
| GfsHost.InstallReadBack | tools/gfs_common.py:98-114 | an image the host tool installed a file on mounts, the path holds the payload and every other path what it held |
| GfsHost.PutInodeReads | tools/gfs_common.py:78-90 | replacing 64 bytes of a table sector replaces one inode |
| Checksum.NoOverflow | kernel/tcp.c:33-62 | up to 65535 bytes the 32-bit sum is the true sum, seeded or not (RFC 1071 section 1) |
| Checksum.SeededIsConcatenation | kernel/tcp.c:50-62 | the pseudo-header seeded sum is the sum of the concatenation (RFC 9293 section 3.1) |
| Checksum.StoredIpChecksum | kernel/net.c:213-225 | a header with its checksum stored folds to 0xFFFF |
| Checksum.StoredTcpChecksum | kernel/tcp.c:50-89 | a segment with its checksum stored folds to 0xFFFF with its pseudo-header |
| Checksum.FinalizeLoop | kernel/tcp.c:44-48 | the folding loop ends and complements |
| Checksum.SumLoop | kernel/tcp.c:33-42 | the summing loop |
| Checksum.IpHeaderReads | kernel/net.c:540-576 | the header built says length, protocol and addresses |
| Checksum.IpHeaderSound | kernel/net.c:571-573 | and folds to 0xFFFF with its checksum in place |
| Checksum.FoldKeeps | kernel/tcp.c:44-48 | folding keeps the sum modulo 0xFFFF and makes a zero of a zero only |
| Tcp.SegmentReads | kernel/tcp.c:64-90 | a segment sent is parsed back field by field |
| Tcp.SegmentBytes | kernel/tcp.c:64-90 | a segment sent folds to 0xFFFF with its pseudo-header |
| Tcp.StreamSafe | kernel/tcp.c:184-302 | over any run of a network that loses, repeats and reorders, the bytes drained are a prefix of the bytes given to `tcp_send`: one SYN-ACK, no FIN, whole drains, sequence numbers clear of 0 |
| Tcp.DeliverInv | kernel/tcp.c:275-293 | any data segment ever sent, arriving at any time, keeps the received bytes a prefix |
| Tcp.AcceptedIff | kernel/tcp.c:276-293 | a data segment is taken exactly when its number is expected or the expected number is 0 |
| Tcp.SecondSynAckRepeats | kernel/tcp.c:267-273 | a second SYN-ACK makes the receiver take a segment again |
| TcpConnection.Connection.HandlePacket | kernel/tcp.c:240-302 | `tcp_input` on the connection's fields and buffer, and the bytes of its answers; what they acknowledge is `TcpLaws.DataAnswered` and `FinAnswered` |
| TcpConnection.Connection.SendSegment | kernel/tcp.c:64-90 | the bytes of a segment |
| TcpConnection.Connection.SendRound | kernel/tcp.c:191-197 | one round of `tcp_send` |
| Http.RequestServes | kernel/http.c:233-324 | one request returns exactly its body and leaves the surplus bytes at the front of the buffer |
| Http.KeepAlive | kernel/http.c:233-324 | over any stream of Content-Length responses cut into arrivals in any way that fits the buffer, several in one arrival included, the i-th request returns the i-th body (RFC 9112 section 6.3) |
| Http.NextPoll | kernel/http.c:233-303 | the loop's state after each poll is that of the bytes received so far |
| Http.LengthReads | kernel/http.c:51-86 | a header whose first usable length line says n is read as n, for every 64-bit n |
| HttpReceiver.ParseContentLength | kernel/http.c:51-86 | the scan and its digit loop |
| HttpReceiver.HeaderHasClose | kernel/http.c:24-49 | the scan for a close request |
| HttpReceiver.Receiver.Compact | kernel/http.c:287-293 | the surplus is moved to the front |
| HttpReceiver.Receiver.CopyOut | kernel/http.c:267-285 | the body copy, by length or until the caller's buffer is full |
| HttpReceiver.Receiver.Receive | kernel/http.c:233-324 | the receive part of a request in place |
| Sched.RunWithinN | kernel/sched.c:265-302 | a job that stays active and runnable is run within N service calls, whatever else is launched, killed or detached |
| Sched.ServiceTurns | kernel/sched.c:265-302 | each service call runs the job or brings it strictly nearer to the cursor |
| Sched.StepInv | kernel/sched.c:34-143 | job count is the number of active slots, active ids are distinct, preemption is armed exactly while there are jobs |
| Sched.KillAllInv | kernel/sched.c:63-74 | killing all keeps that |
| Sched.SlicePreempted | kernel/sched.c:134-143 | the job a service call picks is taken off the processor exactly when some tick of its slice comes 25 or more ticks after its start |
| Sched.QuantumExact | kernel/sched.c:242-258 | though ticks wrap, preemption is due exactly when 25 ticks of the slice have gone by |
| Scheduler.Jobs.LaunchJob | kernel/sched.c:34-57 | launch in place |
| Scheduler.Jobs.RemoveJob | kernel/sched.c:76-132 | kill and detach in place |
| Scheduler.Jobs.RemoveAll | kernel/sched.c:63-74 | kill all in place |
| Scheduler.Jobs.RunNext | kernel/sched.c:260-302 | service in place, with the running slot marked during the program's slice and any ticks and preemption questions that come in it |
| Scheduler.Jobs.Tick | kernel/sched.c:242-258 | the timer in place |
| Scheduler.Jobs.TakePreempt | kernel/sched.c:134-143 | the preemption question in place |
| Preprocessor.StreamsBlock | kernel/basic_pp.c:106-182 | over a block nested no deeper than the stack has room the streaming machine emits the block's text when active, nothing when not, and leaves its #IF state as it was |
| Preprocessor.RunIsMeaning | kernel/basic_pp.c:184-223 | a source of well-nested lines, at most 16 deep, expands to the block's text, cut to the buffer |
| Preprocessor.StepInclude | kernel/basic_pp.c:148-179 | an included file adds to the output and cannot touch the #IF state |
| PreprocessorText.SourceBack | kernel/basic_pp.c:106-223 | every list of directives and lines that stand on one line each, written out as a source, is read back as itself |
| PreprocessorText.WrittenBlock | kernel/basic_pp.c:184-223 | a block written out and preprocessed gives its text, if nested at most 16 deep |
| PreprocessorText.TowerExact | kernel/basic_pp.c:122-145 | conditionals one inside the other, a line behind each #ENDIF, at any height: the output is the block's text if and only if there are at most 16 or every condition but the innermost holds |
| PreprocessorText.SeventeenDiffer | kernel/basic_pp.c:122-145 | seventeen nested `#IF 0` print what they should not |
| Preprocessor.SeventeenthBreaks | kernel/basic_pp.c:122-145 | one conditional deeper and the stack is left one entry short |
| PreprocessorRun.Expander.PpRun | kernel/basic_pp.c:184-223 | the run in place writes only its output and the buffers of deeper levels, and ends however files include each other |
| PreprocessorRun.Expander.HandleLine | kernel/basic_pp.c:106-182 | one line in place |
| PreprocessorRun.Expander.IncludeFile | kernel/basic_pp.c:148-179 | an inclusion through the level's own buffers |
| PreprocessorRun.TrimLine | kernel/basic_pp.c:18-37 | trimming in place |
| PreprocessorRun.Append | kernel/basic_pp.c:74-86 | output up to the end of the buffer |
| EditorText.InsertText | kernel/basic_ide.c:84-91 | inserting puts one character at the cursor's offset in the joined text when the line has room, else nothing changes |
| EditorText.SplitText | kernel/basic_ide.c:93-107 | splitting puts a newline there when there is room for a line |
| EditorText.DeleteText | kernel/basic_ide.c:150 | deleting removes the character at the offset |
| EditorText.MergeText | kernel/basic_ide.c:109-131 | merging up removes exactly the newline if and only if both lines fit one buffer |
| EditorText.DeleteAtEnd | kernel/basic_ide.c:133-149 | deleting at the end of a line removes exactly the newline if and only if the next line fits or is empty |
| EditorText.PressPlaced | kernel/basic_ide.c:1409-1468 | after every key the cursor is in the text and on the screen |
| EditorText.PressText | kernel/basic_ide.c:1409-1468 | what every key does to the joined text, and when it does nothing |
| EditorText.TabText | kernel/basic_ide.c:1455-1459 | a tab puts in four spaces when they fit |
| EditorBuffer.Ide.InsertCharAt | kernel/basic_ide.c:84-91 | the shifting loop |
| EditorBuffer.Ide.SplitLine | kernel/basic_ide.c:93-107 | the split in place |
| EditorBuffer.Ide.MergeUp | kernel/basic_ide.c:109-131 | the merge in place, partial joins included |
| EditorBuffer.Ide.DeleteChar | kernel/basic_ide.c:133-151 | the deletion in place |
| EditorBuffer.Ide.HandleKey | kernel/basic_ide.c:1409-1468 | the key handler |
| Line.LineRuns | kernel/graphics.c:26-53 | after k rounds the pen is within half a cell of the ideal line, between the ends, and at the end exactly when k is the longer distance |
| Line.NoOverflow | kernel/graphics.c:43 | the values kept in 32 bits fit while both distances are at most 715827882 |
| Line.DrawnAt | kernel/graphics.c:11-20 | a cell changes exactly when the pen stood on it, and then shows its old glyph or a block |
| Line.EntryReads | kernel/graphics.c:7-9 | a plotted glyph reads back; its colour is kept exactly for glyphs below 128 |
| Line.Screen.GridLine | kernel/graphics.c:26-53 | the loop ends for all endpoints, having plotted max(dx, dy) + 1 points |
| Line.Screen.PlotRaw | kernel/graphics.c:11-20 | plotting with clipping in place |
| LoopLaws.ForCounts | kernel/basic.c:2492-2530 | a literal FOR loop from a to b by d other than 0, over a body that leaves its variable alone and no value running over, runs its body exactly 1 + max(0, floor((b - a) / d)) times, the count an arithmetic expression |
| LoopLaws.RoundValue | kernel/basic.c:2513-2524 | on round i the variable stands at a + i * d |
| LoopLaws.ForEnds | kernel/basic.c:2513-2530 | when the loop is over the variable has just passed b |
| LoopLaws.ForZero | kernel/basic.c:2513-2530 | with step 0 the body runs once when a is past b and for ever when it is not |
| LoopLaws.ForStatement | kernel/basic.c:2492-2530 | the whole statement with its bounds as numbers; without STEP it counts by ones |
| LoopLaws.OneTwoThree | kernel/basic.c:2492-2530 | FOR I = 1 TO 3: PRINT I: NEXT I prints 1, 2 and 3 |
| LoopLaws.FirstTrueArm | kernel/basic.c:2078-2126 | an IF line runs the first arm whose condition is not zero, or the ELSE part when all are |
| LoopLaws.LoopTests | kernel/basic.c:2531-2577 | WHILE looks before its body, REPEAT behind it, and only zero is false |
| LoopLaws.PrintColumns | kernel/basic.c:1505-1528 | a comma goes to the next column divisible by 14, a semicolon nowhere, and a value at the end ends the line |
| LoopLaws.PrintEndings | kernel/basic.c:1505-1528 | a separator at the end keeps the line open |
| OperatorLaws.SumLaw | kernel/basic.c:1416-1435 | + and - on literals give the integer sum and difference when these fit 64 bits |
| OperatorLaws.ProductLaw | kernel/basic.c:1404-1414 | a * b is the quotient of the integer product by a million, cut towards zero |
| OperatorLaws.QuotientLaw | kernel/basic.c:1404-1414 | a / b is a times a million by b, cut towards zero, and 0 for b zero |
| OperatorLaws.RemainderLaw | kernel/basic.c:1404-1414 | MOD and DIV: a is q * b + m with m smaller than b and of the sign of a; the division that overflows is a fault |
| OperatorLaws.TruthLaw | kernel/basic.c:1437-1485 | each comparison, AND, OR and NOT is one exactly when its relation holds, and zero otherwise |
| OperatorLaws.PowerLaw | kernel/basic.c:2683-2696 | b ^ n is n multiplications, each cut off; a negative n gives the cut-off reciprocal; the fraction of n is dropped |
| OperatorLaws.PowerOne | kernel/basic.c:2683-2696 | b ^ 1 is b |
| NumberLaws.ExponentReads | kernel/basic.c:399-412 | a mantissa, E, a sign or none and digits read as the mantissa times or by that power of ten, cut off; an exponent above 12 counts as 12 |
| NumberLaws.ExponentApplies | kernel/basic.c:399-412 | the value of a mantissa under an exponent as an integer product or quotient while it fits |
| NumberLaws.ScaleLaw | kernel/basic.c:845-874 | 1000000, 1 and -2500000 parts print as 1, 0.000001 and -2.5 |
| MapLaws.MapPtStatus | kernel/memory.c:271-303 | in any forest a mapping is answered 0 if and only if the walk reaches a third-level table, its entry is not a 2 MB one, and either it is present or a table is free; -2 exactly at a 2 MB entry |
| MapLaws.MapPtGrounded | kernel/memory.c:271-303 | in an address space the kernel built: behind the 4 MB and within the first GB a page is mapped exactly when its leaf table exists or a table is free, and takes a table only in the second case |
| MapLaws.NewSpaceMaps | kernel/memory.c:248-303 | in a new address space every page of the first GB behind the 4 MB can be mapped while a table is free, and no other |
| MapLaws.CreateIff | kernel/memory.c:248-265 | an address space is built if and only if three tables are free |
| MapLaws.MapPagesIff | kernel/memory.c:337-379 | the mapping loop succeeds if and only if every page lies behind the 4 MB in the first GB and enough data pages and leaf tables are free, and takes exactly those |
| MapLaws.SegmentIff | kernel/memory.c:337-379 | the same for a segment, which must not be writable and executable nor smaller than its bytes |
| MapLaws.PageCountLeast | kernel/memory.c:355-377 | the pages counted for a size are the fewest that hold it |
| MapLaws.UnzeroedFails | kernel/memory.c:381-407 | a request for unzeroed pages takes one page, if there is one, zeroed and mapped nowhere, and fails |
| MapLaws.ReleaseFrees | kernel/memory.c:232-246 | after a release no page is tagged with the owner and all other tags are as they were |
| ElfLaws.FileHeaderReads | kernel/elf.c:20-36 | a file header written field by field in the order of the structure is recognised, with its entry, table and count read back |
| ElfLaws.HeaderReads | kernel/elf.c:38-47 | a program header written the same way is read back as its segment: place, bytes, size, writable from flag 2 and executable from flag 1; other kinds are skipped |
| ElfLaws.SegmentsRead | kernel/elf.c:80-133 | the segments seen in a written image are the segments written, in order |
| ElfLaws.ImageLoads | kernel/elf.c:80-133 | a written image whose segments have a place loads whenever enough data pages and tables are free, and the entry is e_entry |
| ElfLaws.ImageReadsBack | kernel/elf.c:106-128 | and then its aligned segments read back from file to memory, byte for byte |
| ElfLaws.CutImageFails | kernel/elf.c:106-120 | an image cut short never loads when its last part has bytes |
| ProgramLaws.SlotChosen | kernel/program.c:83-98 | a new program gets the first unused slot, else that of the first ended program with its pages freed, else none |
| ProgramLaws.Released | kernel/program.c:625-642 | releasing frees slot and pages of a used program 1 to 4 and does nothing else |
| ProgramLaws.StoreReads | kernel/program.c:292-331 | a store of user code changes its own byte of memory and no other |
| ProgramLaws.LastStoreWins | kernel/program.c:292-331 | after any stores each byte holds the last value written to it |
| ProgramLaws.RefusedStoreEnds | kernel/program.c:292-331 | a store to a page that is not writable ends the stretch without effect |
| ProgramLaws.RunIs | kernel/program.c:377-389 | a program is entered exactly when it is in use and has not ended; what its slot says afterwards for each outcome, and that an ended program owns no page |
| ProgramLaws.ProgramLoads | kernel/program.c:333-375 | a well-formed image for which there is a slot and room is loaded: the slot, its entry, its segments and stack in memory |
| ProgramLaws.StackIs | kernel/program.c:346-348 | 16 KB of zeros from 0x700000, writable and not executable |
| ProgramLaws.RawLoads | kernel/program.c:237-262 | a raw program is mapped at 0x400000 and entered at its offset whenever there is room |
| ProgramLaws.RawReads | kernel/program.c:237-262 | its memory reads as its code, executable and not writable |
| ProgramLaws.SpawnElfIs | kernel/program.c:465-485 | a spawned program is running, has exited, or after a fault is gone with its pages |
| ProgramLaws.SpawnRawIs | kernel/program.c:237-274 | the same for a raw one; a failed mapping leaves its pages tagged |
| GfsLaws.LittleEndian | kernel/gfs.c:29-42 | numbers on disk have their lowest byte first |
| GfsLaws.InodeFields | kernel/gfs.c:38-42 | an inode on disk: magic, size, path |
| GfsLaws.DiskLayout | kernel/gfs.c:142-165 | eight inodes a sector from sector 65 on, and the data of inode i from sector 128 + 128 * i on |
| GfsLaws.SuperLayout | kernel/gfs.c:125-140 | the superblock: name, version 3, 1280 inodes, data from sector 128, 128 sectors a file |
| GfsLaws.ReadIff | kernel/gfs.c:333-376 | a read gives the bytes exactly when the file is there and the buffer holds them |
| GfsLaws.FoundExactly | kernel/gfs.c:191-198 | a path is found exactly when an inode holds a file of that name |
| GfsLaws.WriteIff | kernel/gfs.c:378-428 | a write succeeds exactly when the bytes are not none and fit a slot, and the path is there or fewer than 1279 files are |
| GfsLaws.InstallIff | tools/gfs_common.py:98-114 | the host tool installs exactly under the same condition, for an absolute path, empty payloads too |
| VaultLaws.ValidIs | kernel/storage.c:99-108 | valid is: magic number, version, and in the third word the checksum of the first 1024 bytes with that word zero |
| VaultLaws.LoadsIff | kernel/storage.c:292-320 | a disk loads exactly when it is signed for a version and holds a valid record of that version |
| VaultLaws.OldVaultLoads | kernel/storage.c:283-320 | a disk with a valid vault of the old version loads, with its contents kept under the new version and written back |
| VaultLaws.UnsignedRefused | kernel/storage.c:292-320 | any other disk leaves vault and disk as they were |
| VaultLaws.WrittenIs | kernel/storage.c:197-281 | the sectors written byte by byte, and nothing elsewhere |
| WireFormat.SegmentFields | kernel/tcp.c:64-90 | the bytes of a segment, most significant first, as RFC 9293 section 3.1 places them |
| WireFormat.PseudoFields | kernel/tcp.c:50-62 | the twelve bytes summed in front: addresses, zero, protocol 6, length |
| WireFormat.FlagBits | kernel/tcp.c:64-90 | which bit of the flags byte is which |
| WireFormat.IpFieldsStand | kernel/net.c:540-576 | the IP header field by field (RFC 791 section 3.1) |
| TcpLaws.DataAnswered | kernel/tcp.c:275-293 | data in order is taken as far as there is room and acknowledged by the number behind the last byte taken |
| TcpLaws.DataIgnored | kernel/tcp.c:275-293 | other data changes nothing and is not answered |
| TcpLaws.FinAnswered | kernel/tcp.c:294-301 | a FIN is answered by an acknowledgement of one more than the last byte and then by a FIN of the own |
| TcpLaws.SynAckAnswered | kernel/tcp.c:267-273 | a SYN-ACK is acknowledged by one more than its number |
| TcpLaws.ResetCloses | kernel/tcp.c:261-265 | a reset closes with an error and is not answered |
| TcpLaws.DeliverAcks | kernel/tcp.c:275-293 | in a run every answer to a delivered segment acknowledges exactly what has been received by then |
| TcpLaws.RunAcks | kernel/tcp.c:184-302 | over any run acknowledgements never exceed what was sent, the newest is the number behind the bytes received, and no FIN is on the network |
| TcpLaws.EmitSends | kernel/tcp.c:184-205 | the stream goes out a thousand bytes at a time, each piece under the number of its first byte |
| TcpLaws.MakeCarries | kernel/tcp.c:64-90 | a segment carries up to 1480 bytes of what it is given |
| HeaderLaws.LengthIs | kernel/http.c:51-86 | the number behind the first "Content-Length:", in any case of letters and after any blanks, is the length, for every 64-bit number |
| HeaderLaws.NoLength | kernel/http.c:51-86 | without such a line there is none |
| HeaderLaws.CloseIff | kernel/http.c:24-49 | a header asks to close exactly when "Connection: close" stands somewhere in it, the name in any case, the word in small letters |
| HeaderLaws.EmptyLineEnds | kernel/http.c:240-266 | a header ends with its first empty line |
| HeaderLaws.CopyIs | kernel/http.c:267-285 | how much of the buffer becomes body, for any length and any capacity |
| RequestLaws.OneArrival | kernel/http.c:233-324 | the reply to any response that arrives whole, for every header, capacity and end of the connection: body, what stays buffered, whether the connection is kept |
| RequestLaws.UntilClose | kernel/http.c:233-324 | without a length the body is all that comes until the other end closes, however it is cut |
| RequestLaws.NoHeader | kernel/http.c:258-264 | a header over 4096 bytes or cut off by the end of the connection gives no answer |
| RequestLaws.FitsIn | kernel/http.c:233-303 | arrivals of up to m bytes fit the buffer for headers of up to 4097 - m |
| SchedLaws.LaunchLaw | kernel/sched.c:34-57 | a launch is answered 0 exactly for a positive id that is queued already or finds an idle slot, and then the program is queued |
| SchedLaws.RemoveLaw | kernel/sched.c:76-132 | killing and detaching are answered 0 exactly for a queued program, which then is not, all others as they were |
| SchedLaws.KillAllLaw | kernel/sched.c:63-74 | afterwards every slot is inactive, nothing counts and nothing is armed |
| SchedLaws.ServiceLaw | kernel/sched.c:260-302 | a service call runs a queued job that can run, its clock started and the cursor behind it, or there is none and none stays queued |
| SchedLaws.TickInSlice | kernel/sched.c:242-258 | one tick in the slice of the job picked uses its quantum up exactly 25 or more ticks after the call, round the 32-bit clock |
| SchedLaws.AskedOnce | kernel/sched.c:134-143 | the preemption question is answered yes once |
| DirectiveLaws.ConditionIs | kernel/basic_pp.c:58-72 | a condition that starts with a digit is true unless it is 0; any other is one of four words |
| DirectiveLaws.LineCut | kernel/basic_pp.c:184-223 | a line is cut behind 255 characters |
| DirectiveLaws.PathCut | kernel/basic_pp.c:148-161 | a path ends at its quote or at 63 characters |
| DirectiveLaws.IncludePrints | kernel/basic_pp.c:162-179 | what a file contributes on each level, and when nothing |
| DirectiveLaws.SelfIncluded | kernel/basic_pp.c:162-179 | a file that includes itself stops: one printing for each level left of four |
| DirectiveLaws.FivePrinted | kernel/basic_pp.c:162-179 | a source that prints a line and includes itself prints it five times |
| EditorLaws.TypeLimit | kernel/basic_ide.c:84-91 | a character goes in exactly while the line has at most 198 |
| EditorLaws.SplitLimit | kernel/basic_ide.c:93-107 | a line is split exactly while there are fewer than 2048 |
| EditorLaws.MergeLoses | kernel/basic_ide.c:109-131 | what a merge leaves in each case: both lines, their first 198 characters, or nothing changed |
| EditorLaws.DeleteLoses | kernel/basic_ide.c:133-149 | deleting at the end of a line brings the next up or loses it whole |
| EditorLaws.TabLimit | kernel/basic_ide.c:1455-1459 | a tab puts in as many of its four spaces as fit |
| EditorLaws.CursorMoved | kernel/basic_ide.c:1419-1429 | where the cursor stands after each key that moves it |
| EditorLaws.CursorEdited | kernel/basic_ide.c:1433-1468 | and after each that changes the text |
| EditorLaws.ScrollsLeast | kernel/basic_ide.c:162-168 | after each key the window has scrolled no further than it must to show the cursor on 21 rows |
| Line.PlotLaw | kernel/graphics.c:11-20 | a point changes cell 80 * y + x of a screen of 80 by 25 and no other, and how |
| DiskLaws.FormatIs | kernel/gfs.c:226-270 | formatting: the superblock at sector 64, empty inodes, zeros in sectors 128 to 163967 with the table's second half among them, nothing elsewhere |
| DiskLaws.MountIs | kernel/gfs.c:272-331 | a mounted file system is left alone; an unmounted one gets the table on its disk without a write, or is formatted by 164001 writes |
| DiskLaws.FileSectorIs | kernel/gfs.c:378-428 | a file's sectors hold its bytes and zeros behind them |
| DiskLaws.SuperPadding | kernel/gfs.c:226-246 | the superblock is zero behind its 28 bytes |
| DiskLaws.WriteInode | kernel/gfs.c:378-428 | a write changes one inode, that of the path or the first free one: size, magic and path |
| DiskLaws.WriteSectors | kernel/gfs.c:378-428 | on disk a write changes the file's sectors and the table and nothing else |
| DiskLaws.DeleteIs | kernel/gfs.c:430-447 | a delete succeeds exactly when the path is there, empties its inode, and changes no sector but the table's |
| DiskLaws.RefusedIff | kernel/gfs.c:378-428 | a write is refused exactly for no bytes, too many, or no inode |
| PageWords.WordBits | kernel/memory.c:56-58 | the bits of an entry: present 0, writable 1, user 2, large 7, not executable 63, the address in 12 to 51 |
| GrammarLaws.OperatorTexts | kernel/basic.c:1404-1485 | which token is which operator |
| GrammarLaws.BindsTighter | kernel/basic.c:1389-1489 | what binds tighter, as token sequences without parentheses |
| GrammarLaws.Associates | kernel/basic.c:1389-1435 | differences and quotients associate to the left, powers to the right |
| GrammarLaws.Parenthesized | kernel/basic.c:1299-1306 | parentheses override precedence and association |
| GrammarLaws.Differences | kernel/basic.c:1416-1435 | a - b, a - b - c and a - (b - c), as tokens, evaluate to these numbers when they fit 64 bits |
| GrammarLaws.DepthLimit | kernel/basic.c:1284-1293 | 31 signs before a number pass the depth guard and no more |
| GrammarLaws.NameFound | kernel/basic.c:552-578 | a name is found, or added with value 0 and 23 characters at most while there are fewer than 128 |
| GrammarLaws.PrintsOneTwoThree | kernel/basic.c:2483-2658 | the tokens of FOR I = 1 TO 3, PRINT I, NEXT I, run by the machine, print 1, 2, 3 and leave 4 in I |
| NumberLaws.DecimalsRead | kernel/basic.c:901-917 | a number with a point: six digits behind it count, more are passed over, reading ends where the digits do, and a sign may stand in front |
| GrammarLaws.NameRead | kernel/basic.c:1308-1387 | a name is read to its value, unless a parenthesis follows, it is no variable's, or it is new and the table full |
| GrammarLaws.NarrowHolds | kernel/basic.c:2683-2696 | 32 and 128 bits hold the one number of their range that differs by a multiple of their size |
| GrammarLaws.CursorMoves | kernel/basic.c:835 | the cursor never passes the last token |
| MapLaws.TableTaken | kernel/memory.c:206-215 | a table page is taken exactly when one is free: the first, tagged with its owner or -1, its 512 entries empty |
| MapLaws.DataTaken | kernel/memory.c:217-226 | the same for a data page and its content |
| MapLaws.EntryIs | kernel/memory.c:292-303 | the leaf entry written and the entry of a table newly taken, field by field |
| ElfLaws.FlatLoads | kernel/elf.c:80-95 | four bytes or more that do not begin with 0x7F load at 0x400000 exactly when there is room, are entered there, and read back executable and not writable |
| ElfLaws.TurnedDown | kernel/elf.c:49-104 | anything else without the header of a 64-bit x86 program is refused, and nothing is touched |
| StatementLaws.PrintsNumber | kernel/basic.c:1505-1528 | PRINT or ? with a number shows it and ends the line |
| StatementLaws.PrintsBlank | kernel/basic.c:1505-1528 | either alone ends the line, and a semicolon behind it keeps it open |
| StatementLaws.AssignsNumber | kernel/basic.c:1531-1567 | an assignment with or without LET, by = or :=, sets its variable and no other |
| StatementLaws.CommentOrStop | kernel/basic.c:2483-2646 | REM reaches to the end of its line and STOP stops |
| StatementLaws.LoopErrors | kernel/basic.c:2513-2577 | NEXT, WEND and UNTIL outside their loop are errors, and so is a 65th loop |
| StatementLaws.ForEntered | kernel/basic.c:2492-2512 | FOR x = a TO b sets x and pushes the frame with limit b, a step of one and the token behind, while there are fewer than 64 |
| StatementLaws.FormErrors | kernel/basic.c:2483-2646 | a statement that breaks off where its form asks for a token is an error |
| StatementLaws.Separators | kernel/basic.c:2648-2658 | ends of lines and colons are stepped over, and the end of the program stops the machine |

## Left out

- BASIC statements other than assignment, PRINT, IF lines and the three loops: GOTO, GOSUB, ON, SELECT, EXIT, CONTINUE, SUB and FUNCTION, DATA, INPUT, error handling and the GRID statements are not part of the machine; it stops with an error where one would stand.
- BASIC strings, arrays, constants, DEF FN, the builtin functions (PI among them) and names with a dot: the evaluator covers numbers and plain scalar names, and ends in an error at any other name (`BasicEval.PlainName`).
- BasicLines.SimpleRuns: array elements, strings and constants are outside it.
- BasicLines.IfRuns: the bodies of an IF line are assignments and PRINT statements.
- BasicInterpreter.Interpreter.EvalPrimary: functions, array elements and strings end in an error.
- BasicInterpreter.Interpreter.ExecAssign: array elements and constants are outside it.
- BasicInterpreter.Interpreter.ExecIfChain: a line number after THEN, and statements other than assignment and PRINT, end in an error.
- BasicInterpreter.Interpreter.Exec: statements outside the fragment end in an error.
- Tokenizing BASIC source: programs are token sequences; literals are covered by `LiteralRoundTrip`.
- BasicLoops.ProgramRuns: an IF line holds assignments and PRINT statements; an IF inside an IF body, and jumps out of one, are outside it. Values printed one after another need a separator between them.
- BasicInterpreter.Interpreter.RunLoop: runs a given number of rounds, since a BASIC program need not end; `RunToEnd` has no such bound on runs that end. The interrupt key is left out.
- Overflow of signed 64-bit arithmetic, which C leaves open, is modelled as wrap-around; the one division that faults in hardware is modelled as an error.
- A bound on C recursion for chains of NOT and ^ : only parentheses, signs and calls are depth-guarded.
- Hardware effects: control registers, TLB flushes, the vector of saved registers, and copying of names and identity discs in the program table.
- Kernel page tables and 1 GB pages: the walk covers 4 KB leaves and 2 MB entries.
- PageWords.WordWalkIs: shifts and masks of an address are divisions and remainders; a 2 MB bit in an upper table, which the kernel never sets, leads nowhere; where the tables lie is arbitrary but for the supervisor's 4 MB mappings, whose addresses are not those of a table.
- UserMemory.Manager.MapPtFlags: is stated for tables that satisfy the forest invariant, which every operation keeps; on other memory the code would follow arbitrary pointers.
- Leak freedom of the page pools: a spawn whose mapping fails, and a background start the scheduler refuses, keep their tags. Isolation is proved with those steps included.
- Where a program image comes from (a GridFS path or a built-in table): `LoadNamed` starts from the image found.
- Disk errors and the retries around them: sector reads and writes succeed. Overwriting a file in place is not crash-atomic and not claimed to be.
- GridFs.Kernel.Initialise: the default files written after a blank disk is formatted are not part of it.
- GridFS listing, and the reload of host names after /etc/hosts is written.
- GfsProofs.RunRefines: paths of at most 55 bytes; `ReadableIffFits` says what happens to longer ones. An inode path without a terminator, which the file system never writes, counts as its 56 bytes.
- GridFs.Kernel.WriteFile: the disk is as large as the layout needs.
- Vault.Storage.LoadFromDisk: the disk is present and its sectors read and write; the log line of a migration is left out.
- The vault's key and value entries and the ISO records: the record is its bytes.
- The ISO genome seal.
- TCP connection setup and teardown beyond one segment each, the connection table, timers: `tcp_connect`, `tcp_close` and `tcp_recv` wait loops are not modelled.
- TcpConnection.Connection.HandlePacket: one connection, which the packet is already known to belong to; the lookup in the table of connections is left out.
- TcpConnection.Connection.SendRound: one round of `tcp_send`; the polls between rounds are the arrivals of the `Tcp` runs.
- Building the HTTP request text and connecting: `Receive` is the receive loop on an open connection, one arrival a poll.
- Ethernet, ARP, ICMP, UDP and the virtio rings.
- Scheduler.Jobs.RunNext: what the chosen program does is not modelled; it leaves the job table alone, and only timer ticks and preemption questions happen during its slice.
- Loading and saving in the editor, its shell and its drawing.
- Circles, and 32-bit overflow of endpoints further apart than `Line.NoOverflow` allows.
- Preprocessor.RunIsMeaning: sources with several #ELSE in one #IF, or with unbalanced directives, are covered by the machine but have no block to compare with.
- AI, Bitcoin, IRC and HTTPS bridges, the shell, the workbench and the generators.
