# A model of the teaching OS and its fish program

The repository holds a small x86 operating system (`student-distrib/`) with three
text terminals, six process slots, a round-robin scheduler and a read-only file
system, and a user program (`fish/`) that blinks characters on the screen. This
Dafny project models the parts of both that have state, loops and arithmetic, and
proves what they promise. `dafny verify dfyconfig.toml` checks all of it.

Each piece of code that changes variables in place is a class or a method over
arrays, proved against a function on values; the theorems are about those
functions and about whole runs of them.

| file | what it models |
|---|---|
| `Helpers.dfy` | optional values, remainders of successive numbers |
| `Bytes.dfy`, `Memory.dfy` | bytes, C strings, `memset`, `memcpy`, `memmove`, `strncmp`, `strncpy`, `strlen` |
| `Numbers.dfy` | `itoa`, `strrev`, the `%x`, `%#x` and `%d` conversions of `printf` |
| `Console.dfy` | one private console (`putc` as a function) and the unbounded 80-column layout of a text |
| `Screens.dfy` | three terminals that share one visible page: `putc`, `delete`, `clear`, `terminal_switch` in place |
| `FileSystem.dfy` | the file system image, `read_data`, directory lookups, `dir_read`, `file_read`, cat's loop, `isExe` |
| `Commands.dfy` | `parse` and `getargs` |
| `Processes.dfy`, `Jobs.dfy` | pid table, process control blocks, parent chains, descriptor tables, and the invariant over them |
| `System.dfy` | the whole kernel state as a value, with one function a step |
| `Local.dfy`, `Refinement.dfy` | the invariant through every step; the kernel seen as three private machines |
| `Runs.dfy`, `Theorems.dfy` | whole runs: scheduling, fresh descriptors, screens, contexts, calls and returns, the video page |
| `Isolation.dfy` | the memory of programs: loading, reads into it, and that no process writes another's |
| `Listing.dfy` | the directory cursor that all processes share, over runs with listings on several terminals |
| `Reading.dfy` | a process's own reads and its argument over interleaved runs |
| `Calls.dfy` | what open, close, read, getargs, execute and a store answer and leave, and reads from open on |
| `Noninterference.dfy` | a terminal's machine as a function of what the terminal sees |
| `Boot.dfy` | from power-on to three shells, and two runs from there on which the kernel fails |
| `Kernel.dfy` | the kernel's variables as a class; every call proved equal to the step of `System.dfy` |
| `Keyboard.dfy` | scan codes, the line editor, `terminal_read` |
| `ScanCodes.dfy` | what a scan code means, told by the codes before it |
| `Desk.dfy` | the keyboard handler joined to the screens and to the interrupt mask of the scheduler |
| `Blink.dfy`, `BlinkList.dfy` | the blink list as values with its timing; the same list linked through an array of 2000 nodes |

## Reading the model

A process control block lies at an address fixed by its pid, so a pointer to one
is a pid. A step of the kernel is atomic, and a saved context is an opaque pair of
register values. Besides the calls of the kernel there is a step for the stores of
the running program itself; they, `read` and `getargs` go through the user page
entry into one array of six 4 MB frames. A run (`Runs.Run`) is any sequence of
steps in which `find_pid` never fails for `execute` and programs pass buffers in
their own page; `Runs.NoSlotIff` says exactly when `find_pid` does fail, and
`Runs.BootedCanRun` that it never does after boot when no program is called
"exit". Initial states are those of `Boot.PowerOnIsGood` and, after three ticks,
`Boot.BootSequence`; the theorems about runs hold from every state that satisfies
the invariant `Local.Good`.

`Refinement.MachineOf` is the private machine of one terminal: its console, its
stack of running programs (`Jobs.Job`), and the registers it will continue with.
`Refinement.EventsFor` names what a kernel step means to one terminal.

Where the code and its comments disagree, the model follows the code:

- `init_pcb` frees descriptors 2 to 6 only, so descriptor 7 keeps what the block
  held before (student-distrib/system_call.c:500-503). `halt` closes it for every
  process with a parent, but closes nothing for a root shell
  (student-distrib/system_call.c:22-26). `Runs.ProcessesStartFresh` and
  `Theorems.RootHaltCleanIff` say what follows, and `Boot.BootedHaltLeaks` is a run
  from power-on that leaks.
- `read_data` does not cut a read at the end of the file
  (student-distrib/file_sys.c:104-130), so cat prints up to the next multiple of
  1024 bytes (`FileSystem.Cat`). It also stops at block index 1022, where one byte
  more is still delivered; `FileSystem.InsideReadsCompleteIffFits` gives the exact
  condition for complete reads.
- SYNC always draws the off character (fish/blink.S:281-282): the conditional move
  is never taken after that test. `Blink.SyncDrawsRightIff` is the exact condition
  under which that is the right one, `Blink.SyncDrawsWrong` a run on which it is
  not, and `Blink.SyncedShows` says that the cell is right from the first
  change-over on.
- A key typed between Enter and the copy of `terminal_read` overwrites the line
  (student-distrib/keyboard.c:240-250, 284-298). `Keyboard.TypedLineIsRead` gives
  the exact condition on these keys, `Keyboard.TypeAheadReplacesLine` and
  `Keyboard.TypeAheadLosesBreak` three and four scan codes that break it.
- The handler edits the visible terminal's line and prints the echo on the scheduled
  terminal's screen; only the scheduler brings the keyboard's interrupt mask up to
  date (student-distrib/keyboard.c:340-342, student-distrib/pit.c:69-75).
  `Desk.EchoMeetsLineIff` is the exact condition under which the two terminals are the
  same, and `Desk.StaleEcho` a run of three scan codes in which they are not.
- `delete` lowers screen_x without a test, and its caller tests only the length of the
  line (student-distrib/lib.c:54-57, student-distrib/keyboard.c:173-176).
  `Console.DeleteIff` gives the exact conditions for the cursor and for the store,
  `Desk.DeletesInOrder` the runs in which it is always in order, and
  `Desk.ClearThenDelete` and `Desk.BreakThenDelete` two short runs in which it is not.
- directory_index is one variable for all processes (student-distrib/file_sys.c:3), so
  listings on two terminals take entries from each other: `Listing.ListingIsOwnIff`
  and `Listing.SecondListingSkips`.
- Location 0 counts as a free slot (fish/fish.c:164): `BlinkList.AddKeepsShapeIff`
  and `BlinkList.AddAfterZeroLoops`.
- Ctrl+L never resets the line being typed: the condition compares the address of
  an array with 0 (student-distrib/keyboard.c:196-198).
- `execute` skips its limit check on a terminal without a process and for the name
  "exit" (student-distrib/system_call.c:78): `Runs.NoSlotIff`, and
  `Boot.BootedTickFindsNoPid` for a run from power-on in which a shell gets no pid.

## Model

| member | source | states |
|---|---|---|
| Screens.PutcIsPrivate | student-distrib/lib.c:225-319 | both branches of putc are one private console step on the scheduled terminal, whichever is visible; the two other screens stay, and the hardware cursor stays on the visible one |
| Screens.SwitchKeepsScreens | student-distrib/keyboard.c:337-377 | a switch changes no logical screen of any terminal, also when it goes to the visible one, and moves the cursor to the new screen's |
| Screens.SwapMoves | student-distrib/keyboard.c:370-377 | after the three page copies each page a terminal now uses holds what the page it used before held |
| Screens.ClearIsPrivate | student-distrib/lib.c:15-36 | clear and clear_set blank the visible screen only |
| Screens.EraseIsPrivate | student-distrib/lib.c:54-65 | a delete that finds a character erases it on the visible terminal's screen, leaves the others, and keeps the hardware cursor right |
| Screens.Terminals.DeleteCharacter | student-distrib/lib.c:54-65 | delete in place, on 32-bit words: the cell before the cursor is erased; the state stays valid if and only if screen_x was positive |
| Console.DeleteIff | student-distrib/lib.c:54-65 | delete keeps the cursor on the screen if and only if screen_x is positive; its store stays in the page if and only if the cursor is not at the top left, and then hits the cell before the cursor |
| Layout.ScreenShowsLayout | student-distrib/lib.c:225-275 | for every text and every page printed over, the grid is the last 25 rows of the unbounded 80-column layout, and the cursor is behind the text |
| Layout.ClearedScreenShowsRows | student-distrib/lib.c:225-275 | on a cleared screen row r is row Top + r of the layout, padded with spaces |
| Layout.ClearedAttributes | student-distrib/lib.c:241-266 | from a cleared screen on, every cell keeps the default attribute |
| Layout.BreakAfterFullRow | student-distrib/lib.c:229-238 | a line break right after an exactly full row adds no blank row |
| Layout.PutShows | student-distrib/lib.c:225-275 | one putc keeps a screen that shows a text showing that text and one byte more |
| Console.LineEnd | student-distrib/lib.c:229-234 | the newline loop ends in the row in which the text ends, a full row counting as that row |
| Screens.Terminals.PutC | student-distrib/lib.c:225-319 | putc in place is the console step on the scheduled terminal's page; every store is inside that page and no subtraction goes below 0 |
| Screens.Terminals.NewLine | student-distrib/lib.c:229-238 | the newline loop ends and leaves column 0 of the next row, for this terminal only |
| Screens.Terminals.Scroll | student-distrib/lib.c:254-266 | the in-place scroll loops move every row up from the original row below and blank the last |
| Screens.Terminals.ClearScreen | student-distrib/lib.c:15-36 | the clearing loop and the cursor reset act on the visible page only |
| Screens.Terminals.TerminalSwitch | student-distrib/keyboard.c:337-377 | the in-place page copies are the switch of the value model |
| Memory.MemSet | student-distrib/lib.c:395-429 | the byte, double word and byte loops together fill exactly the range with the low byte, for every address and count |
| Memory.MemCpy | student-distrib/lib.c:478-515 | the three loops copy exactly the source bytes and touch nothing else, for ranges that do not overlap |
| Memory.MemMove | student-distrib/lib.c:524-542 | the old source bytes are at the destination for every overlap, and nothing else changes |
| Memory.StrNCmp | student-distrib/lib.c:555-569 | 0 exactly when the C strings agree in the first n bytes; otherwise the signed difference at the first differing byte |
| Memory.StrNCpy | student-distrib/lib.c:592-603 | the string cut to n bytes and padded with NULs to n; bytes behind stay |
| Memory.StrLen | student-distrib/lib.c:382-387 | the distance to the first NUL |
| Numbers.TextDenotes | student-distrib/lib.c:327-357 | the text of a number is a numeral of the radix without a leading zero that denotes the number, within the digits of the radix |
| Numbers.Itoa | student-distrib/lib.c:327-357 | itoa leaves that text and a NUL, writes nothing else, and needs at most 33 bytes |
| Numbers.EmitDigits | student-distrib/lib.c:345-350 | the digit loop writes the digits lowest first and ends |
| Numbers.StrRev | student-distrib/lib.c:363-376 | the in-place exchange loop reverses exactly the n bytes |
| Numbers.PaddedHexDenotes | student-distrib/lib.c:124-134 | eight hexadecimal digits that denote the value, for every 32-bit value |
| Numbers.FormatHexPadded | student-distrib/lib.c:124-134 | the padding code of %#x prints exactly those eight digits |
| Numbers.FormatHex | student-distrib/lib.c:119-123 | %x prints the text of the value |
| Numbers.SignedTextDenotes | student-distrib/lib.c:150-163 | the signed text denotes the value, with a minus sign exactly for negative values |
| Numbers.FormatSigned | student-distrib/lib.c:150-163 | %d prints the signed text, the least 32-bit value included |
| FileSystem.ReadData | student-distrib/file_sys.c:92-131 | for every inode number, offset and length: -1 exactly for a bad inode or buffer, otherwise the exact count of bytes read across blocks, stored at the buffer and nowhere else |
| FileSystem.ReadCountIs | student-distrib/file_sys.c:92-131 | any read, also across the end of the file, delivers nothing from the end on and otherwise all that is asked for, up to one byte behind the first 1022 blocks or behind as many as there are data blocks, each byte from its block |
| FileSystem.InsideReadIsSlice | student-distrib/file_sys.c:92-131 | a read inside a file is exactly that slice of its flat contents, across any number of blocks |
| FileSystem.InsideReadsCompleteIffFits | student-distrib/file_sys.c:113-119 | all reads inside a file are complete if and only if the file is at most 1022 blocks long and no longer than all data blocks together |
| FileSystem.ReadsConcatenate | student-distrib/system_call.c:164-166 | any sequence of reads inside the file delivers, together, the stretch of the file they cover and leaves the position behind it |
| FileSystem.ReadAdvances | student-distrib/system_call.c:164-166 | a read that delivers something began inside the file and moves the position forward; at the end every read delivers 0 and leaves it |
| FileSystem.FileRead | student-distrib/file_sys.c:181-184 | file_read with the position update of read |
| FileSystem.Cat | syscalls/ece391cat.c:21-28 | cat's loop ends; a file that fits is printed up to the next multiple of 1024 bytes, the contents first, and of any other file exactly the blocks that are accepted |
| FileSystem.ReadDentryByName | student-distrib/file_sys.c:30-54 | the directory for ".", otherwise the first of the 62 entries with exactly that name, names of 32 bytes included |
| FileSystem.LookupOfIndexed | student-distrib/file_sys.c:30-81 | with distinct names, looking up by its name the entry found by an index gives that entry |
| FileSystem.ListingCycles | student-distrib/file_sys.c:234-255 | call number k of dir_read stores "." and the names in order as C strings and returns their lengths, then stores nothing and returns 0, cyclically for ever |
| FileSystem.Directory.DirRead | student-distrib/file_sys.c:234-255 | one call stores the name the cursor stands for at the buffer and nowhere else, returns the length of the C string that then stands there, and advances the cursor; at the end it stores nothing, returns 0 and wraps |
| FileSystem.IsExe | student-distrib/system_call.c:446-459 | the name exists and the file starts with the four magic bytes |
| FileSystem.ExecutableIff | student-distrib/system_call.c:446-459 | a name can be executed if and only if it is in the directory with an inode that exists and the file is not empty and begins with 0x7F, "ELF"; for files of four bytes or more these are its own first bytes |
| Commands.ParseFindsParts | student-distrib/system_call.c:404-437 | a name and an argument written with spaces before and between them are found again, if and only if they keep the two length limits; a line of spaces is accepted with an empty name |
| Commands.LineIsItsParts | student-distrib/system_call.c:404-437 | conversely every line is a name and an argument with spaces, and those of an accepted line are the two delivered, so nothing of it is lost |
| Commands.Parse | student-distrib/system_call.c:404-437 | parse accepts exactly those lines, leaves the name and its terminator, and the argument as a C string |
| Commands.GetArgs | student-distrib/system_call.c:289-304 | succeeds if and only if 0 < length < n; an argument that is not empty is stored, cut or padded with NULs to n bytes, and nothing else |
| Processes.FindPid | student-distrib/system_call.c:513-521 | the lowest vacant pid, or -1 exactly when none is vacant |
| Chains.PushKeeps | student-distrib/system_call.c:468-488 | entering a process at a vacant pid pushes it on one parent chain and keeps the whole table invariant |
| Chains.PopKeeps | student-distrib/system_call.c:20-48 | vacating the current pid pops it off its chain and keeps the whole table invariant |
| Chains.OccupiedOnce | student-distrib/system_call.c:468-488 | an occupied pid stands exactly once in exactly one chain, a vacant one in none |
| Jobs.CurrentHeads | student-distrib/system_call.c:22-31 | the current process heads the chain of its terminal; it is a root exactly when it stands alone there |
| Jobs.LaunchFailsIffFull | student-distrib/system_call.c:513-521 | find_pid fails for a launch exactly when process_counter is 5 |
| Jobs.LaunchJobs | student-distrib/system_call.c:468-504 | a launch pushes one job with the argument, the descriptors of init_pcb and the caller's registers, and leaves the jobs below |
| Jobs.ReturnJobs | student-distrib/system_call.c:28-48 | a halt with a parent pops one job and leaves those below; the parent's block holds the registers to continue with |
| Jobs.FreshIff | student-distrib/system_call.c:490-503 | init_pcb gives fresh descriptors exactly when slot 7 was free before |
| Local.RestartFindsPid | student-distrib/system_call.c:20-26 | find_pid cannot fail when halt restarts a root shell |
| Local.RootHaltKeeps | student-distrib/system_call.c:17-26 | halt of a root shell leaves exactly one new root shell on that terminal and keeps the invariant |
| Local.ChildHaltKeeps | student-distrib/system_call.c:28-56 | halt of a child returns to its parent with the registers the parent saved, and keeps the invariant |
| Local.ExecuteKeeps | student-distrib/system_call.c:68-137 | execute refuses and changes no process, or starts one program on the scheduled terminal, or finds no pid, the last exactly when the table is full and the limit check did not apply |
| Local.TickKeeps | student-distrib/pit.c:42-111 | a tick advances to the next terminal, resumes it if and only if it has a process, and otherwise starts its first shell |
| Refinement.ScreenStepIsLocal | student-distrib/lib.c:225-319 | putc, Ctrl+L and the switch are private console steps of the terminals |
| Refinement.ExecuteIsLocal | student-distrib/system_call.c:68-137 | execute is a push, the limit message or nothing on the scheduled terminal's private machine and nothing on the others |
| Refinement.HaltIsLocal | student-distrib/system_call.c:17-58 | halt is a pop, followed for a root shell by the push of a new shell, on the scheduled terminal only |
| Refinement.TickIsLocal | student-distrib/pit.c:42-111 | a tick suspends one terminal with its registers, dispatches the next, and leaves the third |
| Refinement.FdStepIsLocal | student-distrib/system_call.c:148-167 | open, close, read, getargs and the program's own stores change at most one open file of the current program, and no console, stack or register of any terminal; the bytes they store are the subject of Isolation |
| Runs.StepIsLocal | student-distrib/system_call.c:17-137 | every step of the kernel is, for every terminal, the step of its private machine that EventsFor names |
| Runs.RunIsLocal | student-distrib/pit.c:42-111 | over every run and interleaving each terminal's console, stack of programs and saved registers are those of its private machine |
| Runs.StepKeepsGood | student-distrib/system_call.c:17-137 | every step that finds a pid keeps the kernel invariant |
| Runs.NoSlotIff | student-distrib/system_call.c:78-95 | exactly when find_pid fails in a step: a full table and either a program named "exit" or a terminal without a process |
| Runs.BootedCanRun | student-distrib/system_call.c:68-104 | after boot, without a program named "exit", find_pid never fails, and no terminal is ever again without a process |
| Boot.PowerOnIsGood | student-distrib/system_call.c:3-7 | the state at power-on satisfies the invariant, with empty chains |
| Boot.BootSequence | student-distrib/pit.c:47-82 | from power-on three ticks give each terminal one root shell, with fresh descriptors, and leave the vacant blocks clean |
| Boot.BootedHaltLeaks | student-distrib/system_call.c:22-26 | from power-on: three ticks, six opens and a halt; the shell that replaces the halted one takes its pid and starts with descriptor 7 open |
| Boot.BootedTickFindsNoPid | student-distrib/system_call.c:78-95 | from power-on: a tick, five times "shell" and a tick; find_pid fails for the shell of the second terminal |
| Runs.SchedOfRun | student-distrib/pit.c:66-67 | after a run with k ticks the terminal k places further is scheduled, whatever else happened |
| Runs.ThreeTicks | student-distrib/pit.c:66-67 | behind any three consecutive ticks of a run, with any steps between, each terminal is scheduled exactly once |
| Runs.ProcessesStartFresh | student-distrib/system_call.c:42-46 | if no root shell halts with descriptor 7 open, every process of a run starts with descriptors 2 to 7 free although init_pcb never clears slot 7 |
| Runs.StepKeepsClean | student-distrib/system_call.c:500-503 | every step other than such a halt keeps slot 7 of the vacant pids free |
| Noninterference.StepIsPrivate | student-distrib/system_call.c:17-137 | a step changes a terminal's machine as that machine, knowing only itself and the image, reacts to what it sees; the device's delivery and, at its directory reads, the shared cursor count as seen |
| Noninterference.RunIsPrivate | student-distrib/pit.c:42-111 | over every run without a leak, in which the table is not full when the terminal executes, its machine is a function of its own steps, the hand-overs to it and Ctrl+L while it is visible; what devices deliver to it, and the shared cursor at its directory reads, are inputs |
| Noninterference.SameInputsSameMachine | student-distrib/pit.c:42-111 | two runs in which a terminal starts the same and sees the same, the cursor at its directory reads included, leave it the same screen, programs, files and registers, whatever else the others do |
| Listing.StepCursor | student-distrib/file_sys.c:234-255 | a step moves directory_index if and only if it reads a directory through an open descriptor, whichever process does |
| Listing.CursorCounts | student-distrib/file_sys.c:234-255 | in every state of every run the cursor is the first one moved on once for every directory read of the run, whichever terminals made them |
| Listing.ListingIsOwnIff | student-distrib/file_sys.c:234-255 | a terminal that reads on finds the next entry of its own listing if and only if the other terminals have meanwhile read the directory a multiple of n + 1 times, n entries being in use |
| Listing.NextEntry | student-distrib/file_sys.c:234-255 | what the next directory read stores and returns after k of them: the name of entry number k mod (n + 1) as a C string and its length, or nothing and 0 |
| Listing.SecondListingSkips | student-distrib/file_sys.c:234-255 | from power-on: a listing begun on terminal 2 makes the first directory read of terminal 0 store, in its own memory, the name of the first file in place of "." |
| Reading.StepAt | student-distrib/system_call.c:148-167 | a step leaves a job of any terminal as it is, unless that job itself runs and opens, closes or reads a file, and then it changes one open file |
| Reading.ReadsAsAlone | student-distrib/system_call.c:148-167 | over every interleaved run in which a process keeps a file open, its own reads put in its frame exactly the bytes, and leave the position, that they would if the process were alone |
| Reading.InterleavedReadsConcatenate | student-distrib/system_call.c:160-166 | so its successive reads inside a file that fits deliver consecutive slices to its frame, together the stretch of the file from the first position to the last |
| Reading.ArgumentStays | student-distrib/system_call.c:468-488 | as long as it lives a process keeps its argument, whatever runs above it or elsewhere |
| Reading.GetArgsDelivers | student-distrib/system_call.c:289-304 | getargs stores in the process's frame the argument of the command line that started it, padded, and fails exactly when there is none or it does not fit, over every run since |
| Calls.OpenGives | student-distrib/system_call.c:205-256 | open answers -1 and changes nothing exactly for an empty or unknown name, an unknown type or no free descriptor; otherwise the lowest free descriptor is open, at position 0, on the inode of the entry of type 2, on the directory for type 1, on the RTC for type 0, and nothing else has changed |
| Calls.OpenedFileIsRead | student-distrib/system_call.c:205-256 | from open on, over every interleaved run in which the process keeps the descriptor, its reads inside the file put the contents of the file that was named in its frame, from the first byte on |
| Calls.CloseGives | student-distrib/system_call.c:265-280 | close answers 0 and frees the descriptor exactly for one from 2 to 7 that is open, otherwise -1 without any change |
| Calls.CloseUndoesOpen | student-distrib/system_call.c:205-280 | closing what open has opened leaves the program's files as they were |
| Calls.ReadGives | student-distrib/system_call.c:148-167 | read answers -1 and changes nothing exactly for a bad size, descriptor or buffer or a descriptor that is not open; otherwise what the file, the directory or the device delivers is in the frame and nothing else of it has changed, its value is returned, and the position has moved by that value as an unsigned word |
| Calls.StoreGives | student-distrib/system_call.c:97-98 | a store of the program to its page leaves exactly these bytes there and changes no other byte of its frame |
| Calls.GetArgsRefused | student-distrib/system_call.c:289-304 | getargs answers -1 and changes nothing for a size that is not positive, a null buffer or a program without an argument |
| Calls.ExecuteGives | student-distrib/system_call.c:68-104 | execute answers -1 for what is no command, prints the limit message on its own terminal and answers -1 with six processes and a name other than "exit", answers -1 for what cannot be executed, and otherwise starts the program above the caller or, with six processes, finds no pid |
| Theorems.RunKeepsTable | student-distrib/system_call.c:468-488 | in every state of every run pid[], process_counter, the three chains and the parent pids agree |
| Theorems.ScreenIsPrivate | student-distrib/lib.c:225-319 | for every interleaving the screen of a terminal is that of a private console fed only its own text, and from the top left shows that text's layout |
| Theorems.ScreenAfterBlank | student-distrib/keyboard.c:192-200 | after the last Ctrl+L on a terminal its screen shows the layout of the text printed on it since |
| Isolation.PageEntryMaps | student-distrib/system_call.c:97-97 | as the processor reads it (section 4.3 of the Intel SDM, volume 3A) the user page entry is present, writable, user, 4 MB large and names the frame of the pid |
| Theorems.VideoEntryMaps | student-distrib/pit.c:85-90 | read likewise, the user video entry names the page that backs the scheduled terminal's screen |
| Theorems.RunAway | student-distrib/pit.c:55-63 | while a terminal is not scheduled no step changes its programs or its saved registers |
| Theorems.TickResumesAsPreempted | student-distrib/pit.c:55-109 | a terminal is resumed with exactly the registers saved at its last preemption, whatever the others did meanwhile |
| Theorems.ExecuteCalls | student-distrib/system_call.c:114-126 | execute puts a program with its argument above the caller's stack and remembers the caller's registers |
| Theorems.HaltReturnsToCaller | student-distrib/system_call.c:33-56 | when that program halts, over whatever ran above it since, its caller continues with the registers of its execute |
| Isolation.StartWrites | student-distrib/system_call.c:94-112 | a start writes the image bytes into the frame of the vacant pid it found and into no other frame |
| Isolation.ExecuteLoadsFile | student-distrib/system_call.c:107-109 | the program image in memory is byte-equal to its file, and the entry point is read from it |
| Isolation.StepFrames | student-distrib/system_call.c:94-112 | a step writes the frame of no process but the one it starts and the one that runs, reads, getargs and programs' own stores included |
| Isolation.MemoryIsPrivate | student-distrib/system_call.c:94-112 | over every run in which none of the bottom d processes of a terminal runs, these processes stay and their frames keep every byte |
| Isolation.AwayIsAsleep | student-distrib/pit.c:84-99 | so a terminal that is not scheduled keeps the memory of all its processes |
| Isolation.DeeperIsAsleep | student-distrib/system_call.c:114-126 | so a caller finds its memory as it left it, whatever ran above it |
| Isolation.ReadDelivers | student-distrib/system_call.c:148-167 | a read inside a file returns n, puts exactly that slice of the file at the buffer's place in the caller's frame, changes no other byte of it, and moves the position by n |
| Isolation.RegionsDisjoint | student-distrib/system_call.c:97-112 | frames of different pids do not overlap; a kernel stack ends below the block of the pid before |
| Isolation.StackTopsSlot | student-distrib/system_call.c:101-112 | the initial esp0 of a pid is the last double word of the 8 KB slot whose lower end is its process control block, and lies in no other pid's slot |
| Isolation.StackIsOwn | student-distrib/system_call.c:112-112 | between steps esp0 is the last double word of the slot of the process that runs, and lies in no other pid's slot |
| Isolation.PageIsOwn | student-distrib/system_call.c:97-97 | between steps the user page entry names the frame of the process that runs and of no other pid |
| Isolation.MappedIsCurrent | student-distrib/pit.c:92-99 | between steps the user page entry and esp0 are those of the process that heads the scheduled terminal's chain |
| Theorems.StepKeepsVideo | student-distrib/pit.c:84-90 | after every tick and every switch the user video page backs the scheduled terminal's screen; the other steps keep it so |
| Theorems.StartKeepsVideo | student-distrib/pit.c:77-90 | a step that starts a program leaves the user video entry as it was, also a tick, because the scheduler does not come back |
| Theorems.RunKeepsVideo | student-distrib/keyboard.c:342-347 | once right after boot, the user video page is right in every state of every run |
| Theorems.StepKeepsCursor | student-distrib/lib.c:268-275 | every step of the kernel, from power-on on, keeps the hardware cursor on that of the visible terminal |
| Theorems.RootHaltCleanIff | student-distrib/system_call.c:22-26 | when a root shell halts the new shell starts fresh and the vacant blocks stay clean if and only if descriptor 7 was not open |
| Theorems.HaltPassesOn | student-distrib/system_call.c:22-26 | if every lower pid is taken, the shell that replaces a root shell has as descriptor 7 exactly what the halted one had |
| Theorems.SixOpensThenHaltLeaks | student-distrib/system_call.c:500-503 | from any state in which a root shell has nothing open: after six opens its halt leaks descriptor 7 |
| Kernel.Kernel.constructor | student-distrib/system_call.c:3-8 | power-on leaves the initial state of the value model |
| Kernel.Kernel.Execute | student-distrib/system_call.c:68-137 | parse, limit check, both lookups and the start, in place, are ExecuteLine |
| Kernel.Kernel.LimitReached | student-distrib/system_call.c:78-81 | the limit check applies exactly with a process on the terminal, the counter at 5 and a name other than "exit" |
| Kernel.Kernel.Enter | student-distrib/system_call.c:92-122 | counter, pid, page, block, stack and the caller's saved registers, in place, are Launch |
| Kernel.Kernel.InitBlock | student-distrib/system_call.c:468-504 | init_pcb's branches and loop write exactly one block, the pid table entry and the terminal's process |
| Kernel.Kernel.LoadProgram | student-distrib/system_call.c:106-109 | the image is stored through the page entry just set, and the four entry bytes are read |
| Kernel.Kernel.FindVacant | student-distrib/system_call.c:513-521 | the search loop finds the lowest vacant pid |
| Kernel.Kernel.Halt | student-distrib/system_call.c:17-58 | halt in place is HaltNow, with the registers it resumes |
| Kernel.Kernel.CloseInUse | student-distrib/system_call.c:40-46 | the loop of halt closes exactly descriptors 2 to 7 that are in use, in one block |
| Kernel.Kernel.Tick | student-distrib/pit.c:42-111 | scheduler in place is BootTick or TickNow, with the registers it resumes |
| Kernel.Kernel.TerminalSwitch | student-distrib/keyboard.c:337-351 | the switch and the user video page entry |
| Kernel.Kernel.Open | student-distrib/system_call.c:205-256 | open in place is OpenNow, which Calls.OpenGives describes: lookup, lowest free descriptor, entry by file type |
| Kernel.Kernel.Close | student-distrib/system_call.c:265-280 | close in place is CloseNow, which Calls.CloseGives describes: it refuses 0, 1, bad and free descriptors |
| Kernel.Kernel.Read | student-distrib/system_call.c:148-167 | read in place is ReadNow: refusals in order, then the bytes of the file, the directory or the device stored in the caller's frame, the position moved, and after a directory the cursor |
| Kernel.Kernel.Deliver | student-distrib/file_sys.c:181-184 | what file_read and dir_read store in user memory and return, with the shared cursor moved by the latter; what the terminal and RTC devices deliver is given |
| Kernel.Kernel.UserStore | student-distrib/system_call.c:97-98 | a store of the running program goes to the frame its page entry names |
| Kernel.Kernel.ClearScreen | student-distrib/keyboard.c:192-195 | Ctrl+L in place clears the visible terminal's screen |
| Kernel.Kernel.ProgramArgument | student-distrib/system_call.c:289-304 | getargs in place is GetArgsNow: the argument, cut or padded to n bytes, in the caller's frame, and success exactly when it fits |
| Keyboard.LinesAreEdited | student-distrib/keyboard.c:126-258 | for every sequence of scan codes and switches, each terminal's line is what a pure line editor makes of the keys that reached it |
| Keyboard.PressEdits | student-distrib/keyboard.c:172-256 | a key edits the visible terminal's line as the pure editor does and no other buffer |
| Keyboard.EnterCompletes | student-distrib/keyboard.c:238-246 | Enter leaves the line and a line break at the start of the buffer and unlocks the read |
| Keyboard.ReadWaitsForEnter | student-distrib/keyboard.c:279-284 | a read that locked a terminal waits exactly until Enter reaches that terminal |
| Keyboard.BuffersAreTyped | student-distrib/keyboard.c:126-258 | for every sequence of scan codes and switches the 128 bytes of a terminal depend only on the keys that reached it |
| Keyboard.TypedLineIsRead | student-distrib/keyboard.c:238-250 | after keys, Enter and further keys on a terminal a read delivers the completed line, cut to n - 1 bytes and with a line break, if and only if the last byte the further keys store in each deciding place is the one that stands there; keys of the other terminals do not matter |
| Keyboard.QuietReadDelivers | student-distrib/keyboard.c:279-300 | with only keys that store nothing behind Enter the read delivers the line |
| Keyboard.TypeAheadReplacesLine | student-distrib/keyboard.c:247-250 | a, Enter, b: the read delivers b |
| Keyboard.TypeAheadLosesBreak | student-distrib/keyboard.c:287-297 | a, Enter, b, b: no line break is left, and a read of n bytes stays inside the buffer only for n up to 129 |
| Keyboard.LinesHaveNoBreak | student-distrib/keyboard.c:238-246 | a line being typed never holds a line break |
| Keyboard.Handler.KeyboardHandler | student-distrib/keyboard.c:126-258 | the handler in place is Handle, which ScanCodes describes; every store is inside the 128 bytes of the visible terminal's buffer |
| Keyboard.Handler.TypeSpaces | student-distrib/keyboard.c:181-191 | the tab loop stores as many of four spaces as fit |
| ScanCodes.ModifiersFollow | student-distrib/keyboard.c:132-170 | after any scan codes Shift, Ctrl and Alt are held exactly if the last of their codes was a press, and Caps Lock is on exactly after an odd number of presses, repeats of a held key not counted |
| ScanCodes.CodeTypes | student-distrib/keyboard.c:218-256 | after any scan codes a code that is no command types the character of the plain table without Shift and Caps Lock or with both, and of the table of the one in force otherwise; the line, the buffer, the flag and the echo are given, and the other terminals keep theirs |
| ScanCodes.CommandsAct | student-distrib/keyboard.c:192-217 | with Ctrl held, as the codes before say, L clears the screen and C halts; with Alt held F1, F2 and F3 show terminals 0, 1 and 2; none of them is typed |
| ScanCodes.BackspaceDeletes | student-distrib/keyboard.c:172-179 | Backspace takes the last character of the line away, if there is one, and has it erased |
| ScanCodes.TabTypes | student-distrib/keyboard.c:181-191 | Tab types and echoes four spaces, or as many as the line has room for |
| Keyboard.Handler.BeginRead | student-distrib/keyboard.c:280-280 | a read locks its own terminal, and leaves the other terminals' flags and every line |
| Keyboard.Handler.TerminalRead | student-distrib/keyboard.c:279-300 | terminal_read with the scan codes that arrive: refused exactly for a null buffer or a negative size, still waiting exactly when no Enter has reached its terminal, and otherwise the copy from the buffer that the run left |
| Keyboard.Handler.FinishRead | student-distrib/keyboard.c:285-299 | the copy loop delivers the bytes up to the first line break or n - 1 bytes and a line break and stores nothing behind them; its loads leave the 128 bytes if and only if these hold no line break and n is more than 129 |
| Desk.EchoIsPrinted | student-distrib/keyboard.c:238-255 | the echo of a key is printed on the scheduled terminal's screen, while the key edits the visible terminal's line |
| Desk.EffectActs | student-distrib/keyboard.c:172-256 | what each effect leaves on the visible terminal's screen when it is scheduled: the echo printed, the character erased, the screen cleared, a line break printed, or nothing |
| Desk.EchoMeetsLineIff | student-distrib/pit.c:69-75 | over every run: when the handler runs, the terminal that gets the echo is the one whose line is edited if and only if the terminal visible now is the one that was visible at the last tick |
| Desk.Station.Scanned | student-distrib/keyboard.c:126-258 | the handler with its effects in place, on handler and screens together, is the step of the desk, and stops exactly before a delete that wraps |
| Desk.Station.Ticked | student-distrib/pit.c:66-75 | the in-place advance of the scheduler and its setting of the mask |
| Desk.DeskGoesRound | student-distrib/pit.c:66-67 | after a run with k ticks the terminal k places further is scheduled, whatever was typed, shown or written in between |
| Desk.StaleEcho | student-distrib/keyboard.c:207-210 | Alt+F2 and a before the next tick: the a is in the line of terminal 1 and on the screen of terminal 0 |
| Desk.DeskIsPrivate | student-distrib/keyboard.c:126-258 | for every interleaving of keys, switches, ticks and output in which no key comes between a switch and the next tick, screen and buffer of each terminal are those of a terminal by itself, fed its own keys and its own programs' output |
| Desk.DeletesInOrder | student-distrib/keyboard.c:173-178 | if besides neither output nor a key takes the cursor to the start of a row while a line is being typed, no delete of the run wraps |
| Desk.LineOnScreen | student-distrib/keyboard.c:172-256 | if besides the programs of a terminal write nothing while a line is being typed on it, the cells before its cursor show that line in every state of the run, across scrolls, deletes, tabs and switches |
| Desk.ClearThenDelete | student-distrib/keyboard.c:192-200 | a, Ctrl+L, Backspace: the store of delete lies before the video page |
| Desk.BreakThenDelete | student-distrib/lib.c:54-57 | a, a line break written by the program, Backspace: the last cell of the row above is erased and screen_x wraps |
| Blink.BlinksOnTime | fish/blink.S:49-91 | k ticks after it was added a blink is on if and only if k mod (on + off) < on, and its cell shows the matching character, for every list of others, whatever is done to them, and all 16-bit lengths, of which 0 and those above 32768 last one tick |
| Blink.SyncDrawsRightIff | fish/blink.S:277-286 | the redraw of SYNC shows the character of the target's new status if and only if that is off or its two characters are the same |
| Blink.SyncDrawsWrong | fish/blink.S:277-286 | from the empty list, two ADDs and a SYNC: the target is on and its cell shows its off character |
| Blink.SyncedShows | fish/blink.S:64-90 | after SYNC the cell shows the off character until the first change-over and from then on, at every tick, the character of the status |
| Blink.SyncedBlinksOnTime | fish/blink.S:49-91 | k ticks after SYNC to a blink m ticks old the target is on if and only if (m + k) mod (on + off) < on, and its cell is right once the other's countdown has run out; lengths and countdown as above |
| Blink.SyncedStayInStep | fish/blink.S:240-274 | after SYNC two blinks have the same lengths, countdown and status at every later tick, until one is re-timed, removed or hidden |
| Blink.RemoveUndoesAdd | fish/blink.S:187-223 | REMOVE takes away the blink most recently added at the location |
| Blink.StepByLocation | fish/blink.S:49-300 | the blinks at a location are a stack of their own: ADD pushes one that is on with its on time to go, REMOVE pops, SYNC gives the newest the timing of the newest elsewhere, a tick ticks them all |
| Blink.SucceedsIff | fish/blink.S:105-300 | ADD succeeds exactly for a location below 2000 and a list below 2000 blinks, REMOVE exactly with a blink at the location, SYNC exactly with one at each; a command that fails changes nothing |
| Blink.StepDrawsOnly | fish/blink.S:105-300 | ADD draws the on character and SYNC the off character in one cell, REMOVE nothing; every other byte of video memory stays |
| Blink.TickDrawsLast | fish/blink.S:49-91 | a tick leaves in each cell what the last blink of the walk there that changes over draws, and changes no other byte |
| Blink.LookupStep | fish/blink.S:49-286 | events elsewhere leave the first blink at a location, except that a tick counts it down |
| BlinkList.AddKeepsShapeIff | fish/fish.c:160-170 | ADD keeps the linked list well formed if and only if the location is not 0 |
| BlinkList.AddAfterZeroLoops | fish/fish.c:160-170 | after an ADD at location 0 the next ADD links a slot to itself, and a walk never ends |
| BlinkList.SlotsAreCounted | fish/fish.c:160-170 | free slots and list length add up to 2000, and malloc fails exactly when the list has 2000 nodes |
| BlinkList.FirstFree | fish/fish.c:160-170 | the lowest slot with location 0, or none exactly when every slot is taken |
| BlinkList.RemoveShape | fish/blink.S:206-222 | relinking and zeroing a node leaves a well-formed list without exactly that slot |
| BlinkList.Blinker.Malloc | fish/fish.c:160-170 | the scan finds that slot |
| BlinkList.Blinker.IoctlAdd | fish/blink.S:105-184 | ADD succeeds if and only if the location is below 2000 and some slot of the array has location 0; on the array it is AddNode, and for locations other than 0 the ADD of the list |
| BlinkList.Blinker.FindHelper | fish/blink.S:351-379 | the walk ends at the first node with that location, the most recently added, or at no node |
| BlinkList.Blinker.IoctlFind | fish/blink.S:302-349 | FIND delivers that blink, and one exactly if some slot of the array holds the location |
| BlinkList.Blinker.IoctlRemove | fish/blink.S:187-237 | REMOVE succeeds if and only if some slot of the array holds the location; it is the REMOVE of the list and keeps it well formed |
| BlinkList.Blinker.Unlink | fish/blink.S:206-222 | the walk for the link before ends, and the link is led past the node |
| BlinkList.Blinker.IoctlSync | fish/blink.S:240-300 | SYNC succeeds if and only if both locations are held by slots of the array; it is the SYNC of the list |
| BlinkList.Blinker.RtcTasklet | fish/blink.S:49-99 | the tick walk over the links ends and ticks every blink once |
| BlinkList.Blinker.Serve | fish/blink.S:101-103 | any run of commands, nothing added at location 0, keeps the links well formed and does what the list machine does |

## Left out

- vidmap, rtc, write, set_handler, sigreturn and exit statuses: constant writes or stubs. vidmap always maps real video memory and then indexes the page table by an address (student-distrib/system_call.c:321-330).
- Desk.DeskIsPrivate: the runs of `Desk.dfy` hold keys, switches, ticks and output, those of `System.dfy` the processes; delete occurs in the former only, and a run goes no further behind a delete that wraps. The first tick, which leaves the mask as it is, is not among the ticks of `Desk.dfy`.
- Ports, the PIC, the RTC and the PIT, the masks of the other interrupts, interrupt nesting and `iret`: a step is atomic, and registers are opaque values given to a step.
- Boot, multiboot, descriptor tables and paging setup, except the user page entry, the user video entry and esp0.
- What the kernel does after find_pid fails in execute: the source goes on with pid -1. The model stops with the reply NoSlot, and Runs.NoSlotIff says when that happens.
- Addresses of blocks and stacks: a block pointer is a pid. The argument of a process is kept as a value, where the source keeps a pointer into the stack of execute.
- Null pointers passed by programs to execute and open.
- Buffers outside the page of the program that passes them: the source does not check them. A read, getargs or store that would use one ends the model with the reply Fault.
- Uninitialised stack bytes: the buffers of isExe and of the entry point start as zeros in the model.
- Commands.Parse: the name buffer has one byte more than the 32 of execute, because a name of 32 bytes puts its terminator behind them.
- Memory.MemCpy: ranges that overlap with the destination above the source are excluded, as the C contract does; addresses do not wrap at 4 GB.
- Memory.StrNCpy: the source looks at one byte behind the n-th before it tests the count; the model tests the count first.
- FileSystem.ReadData: the message printed at a bad data block is not put on the screen; block numbers are assumed to name blocks of the image.
- Kernel.Kernel.Read: what the terminal or the RTC delivers, value and bytes, is a parameter; terminal_read is modelled in its own module, not joined to the descriptor table.
- Kernel.Kernel.Open: the calls of the open and close functions of a descriptor, which only return 0 here, are not modelled.
- Keyboard.Handler.KeyboardHandler: what the handler puts on the screen is returned as an effect, which `Desk.Station.CarryOut` carries out; the three scan code tables are parameters; the three buffers lie in one array.
- Theorems.ScreenIsPrivate: a trace with Ctrl+L is the subject of Theorems.ScreenAfterBlank; user writes through the video mapping are not modelled.
- System.Bootable: every executable fits its 4 MB page behind offset 0x48000, and there is one named "shell"; what a longer one would do is not modelled.
- Keyboard.Handler.TerminalRead: what the source loads behind the 128 bytes of a buffer without a line break, in a read of more than 129 bytes, is not modelled; the read ends with the result Outside there.
- BlinkList.Blinker.IoctlAdd: the copy of the user's structure is a parameter and its fields are not limited to 16 bits, except where the arithmetic wraps.
- printf's scan of the format string and puts, which pass characters and converted numbers on to putc; strcpy, which copies up to a terminator; memset_word and memset_dword, which store n equal words.
- add_frames and the main loop of fish, the other user programs, the emulation layer and the tests: clients of the parts above.
