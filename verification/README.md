# Verified model of the zenux services

This project models the parts of the zenux measurement services in which several clients, devices or storage layers
meet, and proves what they keep. Each class of the program that updates its fields is a class here, with its loops;
each of its methods is proved against a specification function on values, and the laws are proved about those
functions, over all inputs or all runs.

**The DSP program loader** (`zdsp1d`). Clients declare variables and command lists. The server packs all variables into
one workspace with three unchecked pointers, compiles the lists into 64-bit instructions with 16-bit operands, links
them into two programs and routes interrupt words back to the clients.
`DspVarOffsetCalc`, `DspApi`, `DspVarResolver` and `DspCmdCompiler` hold texts, tables, resolver and compiler,
`OperandNames` and `CompiledWords` what a text names and what a line compiles to, word by word; `VarAllocator` and
`MemoryIsolation` the allocation; `ZdspClientImage`, `ProgramLinker`, `LinkedMeaning`, `LinkedBases`, `NumberNames`,
`CapturedBase`, `StaleResolver` and `SmallPrograms` the linking and what a linked program means on a machine with two
base registers; `LinkErrors` what a failed linking leaves and reports; `ListVerdicts`, `GlobalSizeCheck` and
`SystemNames` which variable lists are accepted and what they do to each other and to the system's names;
`DspCmdExtraChecks` and `LinkedBlockCommands` the checked stores; `ClientRegistry`, `RegistryRoster` and
`InterruptDispatch` the registry and the dispatch; `DspVarDeviceNodeInOut` the access to the DSP by name; `ZdspClient`,
`ZDspClientContainer` and `ZDspServer` the objects; `ServerRuns` runs of the server.

**The calibration storage** (`i2ceeprom`, `zenux-service-common`). `EepromI2c` and `EepromI2c24LCxxx` model a chip whose
page writes wrap and the driver that splits at pages over a bus that may fail at any time; `AdjustmentImage` and
`AdjustmentStorage` the image with size and checksum and its cache file; `ClampCodec`, `ClampLayout`, `ClampImage` and
`Clamp` the serialised clamp data.

**Hot plugging** (`zenux-service-common`). `HotplugRuns` and `HotPluggableControllerContainer` model the controllers and
their bootloader timers, `ClampRegistry`, `ClampAgreement`, `ClampRuns` and `ClampInterface` the clamps. Events may come
in any order and devices may answer anything.

**The error calculator units** (`sec1000d`). `SecConf`, `SecCommands` and `SecChannel` model the configuration
register, `SecAllocation` and `SecMainAndChannelInterface` the allocation of channels, `SecInterrupts`,
`Sec1000dServer` and `NotificationValue` the interrupt bits and their edges. `BitWords` has machine words as sets of
bit numbers.

## What the model fixes

- Devices are oracles: the answer to the n-th bus, disk or interrupt access is an arbitrary function of n. The checksum,
  the type names of clamps and the names of the sense interface are arbitrary functions.
- A failed EEPROM transfer stores nothing. A read past the end of a stream gives zero or an empty string and leaves the
  stream at its end, and skipping stops at the end; a stream that has run past its end takes no further writes.
- `long` and `unsigned long` have 32 bits, as the interrupt handler needs them to. Allocation pointers wrap at 32 bits.
- Commands come as a code and operand texts, with the bit pattern of a float given where the text reads as one.
- Linked programs run in sequence; skips and chains are not followed.
- The compiler is the one of production, whose support has no extra checks. The results about checked stores are about
  commands that pass the checks of `dspcmdextrachecks.cpp`, wherever those are asked for.
- A resolver is given by the client variables it knows: those of the list it was last actualized with, as they were
  placed then.

## Where the code departs from what it promises

Each of these is proved, with the exact condition or with an input that shows it.

- A global variable gets its address before the pointer moves, so only globals of one word are isolated.
- An offset is cut to 16 bits before its sign is looked at, so operands from 32768 words on may be accepted with another
  meaning, and a checked COPYMEM may store in front of its target.
- The size check for globals compares with the globals of the last linking only: neither two lists between linkings nor
  two entries of one list are compared with each other.
- A declared variable of any segment hides the system variable of its name, and until it is placed the name stands for
  address 0. Interrupt package and acknowledge go through the first client's resolver, so a first client with a variable
  of its own called CTRLACK or CTRLCMDPAR keeps the chip from seeing its acknowledge or the server from seeing the
  package.
- A client's variable called like its start address makes the server's base command set another base.
- After a rejected variable list a client is compiled with the variables of an older linking.
- Emptying a command list keeps its old instructions but not their base.
- The super client is handed the last word of a package, not its own.
- The EEPROM address and count are 16 bits wide, so on a 65536-byte chip writes continue at address 0, and a reset or the
  reading of an image of the full size fails; all smaller chips are sound.
- Importing clamp data counts records, so two records for one range hide a missing one.
- A clamp is registered under its configured name and removed under the name the sense interface gives its channel by
  then.
- A released channel keeps its client's authorization, the record of a client survives its release, and a second granted
  request overwrites it; "one past the last channel" is accepted as synchronisation source.

## Model

| member | source | states |
|---|---|---|
| DspVarOffsetCalc.DecimalReadsBack | zdsp1d/lib/dspvaroffsetcalc.cpp:25-40 | A number printed by the server, with or without a plus sign, is parsed back as that number. |
| DspVarOffsetCalc.VarOffsetReadsBack | zdsp1d/lib/dspvaroffsetcalc.cpp:6-23 | For every name without blanks, "name" parses as offset 0 and "name+k" as offset k. |
| DspVarOffsetCalc.DecimalReadsBackIff | zdsp1d/lib/dspvaroffsetcalc.cpp:25-40 | A printed number is read back if and only if it is below 2^31; a larger one is an error, not another number. |
| DspVarOffsetCalc.PrefixedHexReadsBack | zdsp1d/lib/dspvaroffsetcalc.cpp:25-40 | An offset printed in hexadecimal with a 0x prefix is read as that number. |
| DspVarOffsetCalc.LetteredHexReadsBack | zdsp1d/lib/dspvaroffsetcalc.cpp:25-40 | An offset that is no decimal number because of a letter from A to F is read as hexadecimal. |
| DspVarOffsetCalc.NegativeIsNoOffset | zdsp1d/lib/dspvaroffsetcalc.cpp:25-40 | A negative number is an error as an offset. |
| OperandNames.FindsFirstName | zdsp1d/lib/dspvarresolver.cpp:26-40 | A text finds the variable of its first name, wherever it has blanks, small letters or leading plus signs. |
| OperandNames.NamedIsNeverNumber | zdsp1d/lib/dspvarresolver.cpp:42-70 | A text whose first name is a known variable is a word of that variable, with the same offset and address, or an error; it is never read as a number. |
| OperandNames.SmallLettersAreAnError | zdsp1d/lib/dspvarresolver.cpp:42-70 | A variable's name not wholly in capitals is an error, even where it reads as a hexadecimal number. |
| OperandNames.ProgramAreas | zdsp1d/lib/dspapi.cpp:239-260 | On both chips the names of the user workspace and of the four command list areas stand for consecutive areas of the configured lengths. |
| DspApi.StreamReadsBack | zdsp1d/lib/zdspserver.cpp:723-742 | Decoding the little-endian byte stream gives back every instruction, for every program. |
| DspApi.StreamBytes | zdsp1d/lib/zdspserver.cpp:723-742 | Every byte of the stream, by its position: eight bytes an instruction, the first word before the second, low bytes first. |
| DspApi.LayoutOf | zdsp1d/lib/dspapi.cpp:287-358 | Both chip layouts are sound: user region below the aligned region below its end, workspace under 32768 words, both DSP sections within reach of one base. |
| DspVarResolver.InitDspInternalMemsection | zdsp1d/lib/dspapi.cpp:274-285 | The loop lays a section out as its specification says: running offset, address from the section start, shifted offset. |
| DspVarResolver.DspBaseReachesBothSections | zdsp1d/lib/dspapi.cpp:239-260 | On both chips the workspace base plus the offset is the address of every variable of both DSP sections, and every such offset is below 32768. |
| DspVarResolver.SectionPlaces | zdsp1d/lib/dspapi.cpp:274-285 | Every variable of a section lies behind the ones before it, with offset and address from the same running sum, inside the section. |
| DspVarResolver.AcceptedOperandShape | zdsp1d/lib/dspvarresolver.cpp:26-57 | The upper-case rule: an operand that names a variable is accepted only as the name itself in upper case, alone or with a plus sign and an offset that reads as a number. |
| DspVarResolver.SystemVariables | zdsp1d/lib/dspapi.cpp:239-260 | Every variable a resolver knows before a client declares any is DSP internal and is filed under its own name. |
| NumberNames.NumberIsFreeIff | zdsp1d/lib/zdspserver.cpp:714-721 | A base address printed into a command is read as that number exactly when no variable the resolver knows of the client has the number as its name; no system variable has. |
| DspCmdCompiler.CompileOneCmdLine | zdsp1d/lib/dspcmdcompiler.cpp:9-127 | The compiler of one line agrees with its specification in all six instruction classes, including wrong parameter counts and unknown keywords. |
| DspCmdCompiler.CompileCmds | zdsp1d/lib/dspcmdcompiler.cpp:129-148 | The command loop agrees with its specification: instructions in order up to the first failing command, which is reported. |
| DspCmdCompiler.CompileAllContent | zdsp1d/lib/dspcmdcompiler.cpp:129-148 | One instruction per command and none per comment, each compiled from its own command; on failure the list ends with the all-zero instruction of the failing command. |
| DspCmdCompiler.CompiledDecodes | zdsp1d/lib/dspcmdcompiler.cpp:9-127 | Decoding a compiled instruction by the class of its code gives the code and exactly the operand values of the text, except that the client id takes the place of one operand in the commands that carry it. |
| CompiledWords.UnknownKeywordFails | zdsp1d/lib/dspcmdcompiler.cpp:125-127 | A line whose keyword is in no table does not compile and gives the all-zero instruction. |
| CompiledWords.PlainWords | zdsp1d/lib/dspcmdcompiler.cpp:26-34 | Without operands: the code in the upper half of the first word, and an error if there is any operand. |
| CompiledWords.OneHalfWords | zdsp1d/lib/dspcmdcompiler.cpp:35-46 | One 16-bit operand is the second word; an operand with bit 15 set or a second operand is an error. |
| CompiledWords.TwoHalvesWords | zdsp1d/lib/dspcmdcompiler.cpp:47-63 | Two 16-bit operands share the second word, the first above the second, with the client id in place of the first where the command carries it; exactly when this compiles. |
| CompiledWords.ThreeHalvesWords | zdsp1d/lib/dspcmdcompiler.cpp:64-80 | Of three 16-bit operands the first stands below the code, with the client id in place of the second where the command carries it; exactly when this compiles. |
| CompiledWords.AddressWords | zdsp1d/lib/dspcmdcompiler.cpp:81-92 | A single 32-bit operand is the whole offset, an error exactly when it is negative. |
| CompiledWords.MixedWords | zdsp1d/lib/dspcmdcompiler.cpp:93-120 | The 32-bit operand of the mixed class, in the order of its readings: a decimal integer, a hexadecimal one, a float, an offset, or an error. |
| CompiledWords.MixedNumber | zdsp1d/lib/dspcmdcompiler.cpp:93-120 | A printed number compiles to itself, a negative one to its two's complement, whatever float the text also reads as. |
| DspCmdCompiler.ShortIsLossless | zdsp1d/lib/dspcmdcompiler.cpp:31-63 | The conversion to short before the sign is looked at: an offset is accepted exactly when bit 15 of it is clear, and an accepted operand is the offset exactly when the offset is below 32768. |
| DspCmdCompiler.ShortDropsHighBits | zdsp1d/lib/dspcmdcompiler.cpp:31-63 | The failing input: 65536 words past a variable compiles as the variable itself. |
| VarAllocator.AccountingIsExact | zdsp1d/lib/zdspclient.cpp:126-164 | For any lists of any clients the local and aligned pointers move by the sum of the declared sizes, and the global pointer and the reported global size by each name counted once. |
| VarAllocator.SumInAnyOrder | zdsp1d/lib/zdspclient.cpp:126-164 | The total of the globals does not depend on the order in which they are summed. |
| MemoryIsolation.IsolationExact | zdsp1d/lib/zdspclient.cpp:126-164 | Memory isolation on both chips for any clients that agree about global sizes: all variables lie in their regions and share no word but those of a common global if and only if the totals fit and no global has more than one word. |
| MemoryIsolation.SharedGlobalsCoincide | zdsp1d/lib/zdspclient.cpp:146-161 | All declarations of a global name get one address, in every run, fitting or not. |
| MemoryIsolation.TwoWordGlobalIsNotIsolated | zdsp1d/lib/zdspclient.cpp:149-156 | The failing input: a global of two words, however much room there is, takes the first aligned word, because it gets its address before the pointer moves. |
| ZDspServers.ReportedTotalsDecideIsolation | zdsp1d/lib/zdspserver.cpp:617-649 | After a successful linking the variables are isolated exactly when the totals the server reports fit what it reports as available and no global has more than one word. |
| ZdspClients.ZdspClient.SetVarList | zdsp1d/lib/zdspclient.cpp:46-87 | Entries are taken over up to the first rejected one; the result is true exactly when all are accepted, and only then does the resolver know the new list. |
| ListVerdicts.GlobalTakenIff | zdsp1d/lib/zdspclient.cpp:55-63 | A list of one global is taken over if and only if the last linking did not know the name or knew it with that size. |
| ListVerdicts.InternalTakenIff | zdsp1d/lib/zdspclient.cpp:64-81 | A list of one DSP internal variable is taken over if and only if the resolver finds a variable for the name with that size and type. |
| ListVerdicts.OthersTakenIff | zdsp1d/lib/zdspclient.cpp:46-87 | A local or aligned variable is always taken over, an entry that does not parse never. |
| ListVerdicts.ListTakenEntryByEntry | zdsp1d/lib/zdspclient.cpp:46-87 | A list is judged entry by entry, each as it would be alone; from the first one that is not taken over on, none is, and the resolver stays as it was. |
| ListVerdicts.LinkedGlobalsAreTaken | zdsp1d/lib/zdspclient.cpp:55-63 | What is shared can be shared: after a linking of agreeing clients any client may list any of their globals with their sizes. |
| ListVerdicts.SystemVariableIsTaken | zdsp1d/lib/zdspclient.cpp:64-81 | A client that has declared nothing may list any variable of the system as it is. |
| ZdspClients.ZdspClient.CalcVarAddressesAndSizes | zdsp1d/lib/zdspclient.cpp:126-164 | The loop over the variables moves the three pointers and the shared global table exactly as the allocation specification does. |
| ZdspClients.ZdspClient.CompileCmdLists | zdsp1d/lib/zdspclient.cpp:166-183 | Both lists are compiled; a list with an empty definition keeps what it compiled to before, and a failing cyclic list leaves the interrupt list alone. |
| ZdspClients.ZdspClient.GetMemSize | zdsp1d/lib/zdspclient.cpp:215-225 | The reported size is the sum of the sizes declared in the segment. |
| ZdspClients.ZdspClient.SendInterruptNotification | zdsp1d/lib/zdspclient.cpp:105-119 | One notification with the lower half of the word is sent to the client's own connection. |
| GlobalSizeCheck.AcceptedListAgreesIff | zdsp1d/lib/zdspclient.cpp:46-87 | What the global size check is worth: next to any variables whose known globals have the table's size, an accepted list leaves all globals in agreement if and only if they agreed before, the list agrees with itself, and the sizes match on shared names that the last linking did not know. |
| GlobalSizeCheck.LinkedTableIsComplete | zdsp1d/lib/zdspclient.cpp:146-161 | After a linking of agreeing clients the table holds every global of every client with its size. |
| GlobalSizeCheck.ChangeAfterLinkingAgreesIff | zdsp1d/lib/zdspclient.cpp:46-87 | When everything is linked, a changed list that is accepted keeps the clients in agreement if and only if it agrees with itself. |
| GlobalSizeCheck.SizeCheckMissesUnlinkedGlobals | zdsp1d/lib/zdspclient.cpp:46-87 | A failing input: with nothing linked between, two clients declare one global with two sizes and both are accepted. |
| GlobalSizeCheck.SizeCheckMissesRepeatedGlobal | zdsp1d/lib/zdspclient.cpp:46-87 | Another failing input: one accepted list declares a new global twice with two sizes, whatever is linked. |
| SystemNames.LastNamedWins | zdsp1d/lib/dspvarresolver.cpp:15-24 | Of all variables of one name, system or client, of any segment, a resolver knows the last one. |
| SystemNames.SystemNameKeptIff | zdsp1d/lib/dspvarresolver.cpp:42-70 | A text that names a system variable keeps its address for a client if and only if no variable the resolver knows of the client bears that name or the last one that does has that very address; the same holds for its offset. |
| SystemNames.DeclaredNameResolvesToZero | zdsp1d/lib/zdspclient.cpp:46-87 | An entry of an accepted list, anywhere in it and of any segment, that no later entry replaces takes its name over: until it is placed the name resolves to offset 0 and address 0. |
| SystemNames.LocalIsAlwaysAccepted | zdsp1d/lib/zdspclient.cpp:46-87 | The failing input: a local variable is accepted under every name, that of a system variable for one. |
| SystemNames.InternalIsNeverPlaced | zdsp1d/lib/zdspclient.cpp:126-164 | A declared DSP internal variable never gets an address, so its name stays at 0. |
| SystemNames.ChannelConstant | zdsp1d/lib/dspapi.cpp:239-260 | On both chips the symbolic constant CHi resolves to i. |
| SystemNames.DeclaredChannelConstant | zdsp1d/lib/zdspclient.cpp:46-87 | A client that declares such a constant itself reads 0 for every one of them, so only CH0 keeps its value. |
| ZDspServers.ZDspServer.CompileCmdListsForAllClientsToCompileLists | zdsp1d/lib/zdspserver.cpp:744-802 | The linking loop over the client objects delivers what the linking specification says for clients, globals, both programs and the error, also after a compile error half way. |
| LinkErrors.LinksIffAllCompile | zdsp1d/lib/zdspserver.cpp:744-802 | Linking succeeds if and only if every command of every client compiles with the resolver the client has once its variables are placed. |
| LinkErrors.FirstFailureIsReported | zdsp1d/lib/zdspserver.cpp:766-802 | The first command that does not compile, clients in order and cyclic before interrupt definitions, is the one reported; the programs hold what was linked before it, the clients behind it are as they were, and its own list ends at it. |
| LinkErrors.FailedLinkReports | zdsp1d/lib/zdspserver.cpp:766-802 | Every failed linking has such a first command and reports it. |
| LinkedMeaning.LinkedEnds | zdsp1d/lib/zdspserver.cpp:789-800 | A complete cyclic program ends with the interrupt post, unless there is no client, and both programs end with the invalid command. |
| ZDspServers.ZDspServer.CompileCmdListsForAllClientsToBinaryStream | zdsp1d/lib/zdspserver.cpp:723-742 | The two byte streams are the encodings of the two linked programs, complete or cut short by a compile error. |
| ZDspServers.ZDspServer.StreamList | zdsp1d/lib/zdspserver.cpp:737-740 | The loop writes the little-endian encoding of the list. |
| ZDspServers.ZDspServer.GetProgMemCyclicOccupied | zdsp1d/lib/zdspserver.cpp:661-664 | The stream size divided by eight is the number of instructions. |
| ZDspServers.ZDspServer.GetVarMemOccupied | zdsp1d/lib/zdspserver.cpp:639-649 | The reported occupation is the sum over all clients, or for globals the size counted by the last linking. |
| ProgramLinker.NumberCmdDecodes | zdsp1d/lib/zdspserver.cpp:714-721 | A base command compiled from a printed address carries exactly that address unless the client has a variable named like the number. |
| ProgramLinker.PlainBody | zdsp1d/lib/dspcmdcompiler.cpp:129-148 | A definition without base commands compiles to instructions that leave both base registers alone. |
| LinkedMeaning.BodiesInPlace | zdsp1d/lib/zdspserver.cpp:766-788 | In both linked programs every client's instructions stand right behind everything linked before and, if the definition is not empty, behind a prologue with the client's own start address. |
| LinkedMeaning.RunsUnderOwnBase | zdsp1d/lib/zdspserver.cpp:766-788 | At every command of a client with a definition the user base register holds that client's start, whatever ran before. |
| CapturedBase.BaseInForce | zdsp1d/lib/zdspserver.cpp:714-721 | Without any condition on names: at every command of a client with a definition the base is the one its prologue sets, its start or the offset that a variable called like the start had before the linking, or else the base of what ran before. |
| CapturedBase.PrologueSetsOwnStartIff | zdsp1d/lib/zdspserver.cpp:714-721 | Whatever the register held, the prologue puts the client's own start there if and only if no variable the resolver knows is called like the start or the last one that is had that very offset. |
| CapturedBase.NumberedVariableMovesBase | zdsp1d/lib/zdspserver.cpp:766-788 | The failing input, for both programs and on both chips: a client with a variable called like its start address gets the base 0, and its command works on the word at address 0. |
| LinkedMeaning.OperandDenotesAddress | zdsp1d/lib/dspvarresolver.cpp:42-70 | The real 15-bit bound: base plus an accepted operand is the address the server uses for the text if and only if the word lies less than 32768 words above the base. |
| LinkedMeaning.LinkedOperandDenotesAddress | zdsp1d/lib/zdspserver.cpp:744-802 | Translation preserves meaning: when a linked program reaches a command, base register plus operand is the address of the operand's text, exactly for the words within reach. |
| LinkedMeaning.FittingWordsWithinReach | zdsp1d/lib/zdspclient.cpp:126-164 | With clients that fit, every word of every variable of a client lies within reach of its base, on both chips. |
| LinkedMeaning.FittingOperandsDenoteAddresses | zdsp1d/lib/zdspserver.cpp:744-802 | With clients that fit, base plus operand is the address for every word of every variable a command names. |
| LinkedBases.OwnBaseExactly | zdsp1d/lib/zdspserver.cpp:769-787 | Left-over instructions of an emptied definition run under the client's own base if and only if an earlier client has a definition and no local words were declared since. |
| LinkedBases.LeftOverRunsUnderForeignBase | zdsp1d/lib/zdspclient.cpp:166-183 | How it fails: behind a client with a definition and local words, left-over instructions run under that other client's base. |
| LinkedBases.LinkedDspOperandIsAddress | zdsp1d/lib/zdspserver.cpp:744-802 | At every command of a linked program, cyclic or interrupt, that works with the DSP's own base, DSP base plus operand is the address of every word of every variable of the two DSP sections. |
| LinkedBases.DspBaseAt | zdsp1d/lib/zdspserver.cpp:759-761 | The base set by the first instruction of the cyclic program, and the base the interrupt program is entered with, are in force at every command of every client. |
| SmallPrograms.HypothesesAreMet | zdsp1d/lib/zdspserver.cpp:744-802 | A one-client program meets all hypotheses of the results about linked programs together, for both programs and on both chips. |
| SmallPrograms.EmptiedDefinitionRunsUnderForeignBase | zdsp1d/lib/zdspclient.cpp:166-183 | The failing input, for both programs and on both chips: two clients are linked, the second empties its definition, both are linked again, and its instruction is still in the program and runs under the first client's base. |
| StaleResolver.StaleOperandMoves | zdsp1d/lib/zdspclient.cpp:46-87 | A client linked with a kept resolver: its operands denote the addresses of the placement they come from, moved by as much as its start has moved since. |
| StaleResolver.RejectedKeepsPlaced | zdsp1d/lib/zdspclient.cpp:46-87 | After a linking, a rejected list leaves the client with the resolver of exactly that linking. |
| StaleResolver.RejectedListGoesStale | zdsp1d/lib/zdspserver.cpp:744-802 | Clients that fit are linked, one of them sends a list that is rejected, and it is linked again among whatever clients there are then: each operand that names a word denotes the address of the first linking moved by as much as the client's start has moved, so it is the address the server uses if and only if the start has not moved. |
| SmallPrograms.RejectedListWorksOnForeignWord | zdsp1d/lib/zdspclient.cpp:46-87 | The failing input, for both programs and on both chips: of two linked clients the second has a list rejected and the first disconnects; linked again, the command of the second works on the word in front of the one the server uses for the same text. |
| DspCmdExtraChecks.CheckedClearNStaysInside | zdsp1d/lib/sanity-checks/dspcmdextrachecks.cpp:25-44 | A compiled CLEARN that names a variable and passes its check stores only into that variable. |
| DspCmdExtraChecks.ClearNPassesIff | zdsp1d/lib/sanity-checks/dspcmdextrachecks.cpp:25-44 | A CLEARN of a known variable passes exactly when the count is at most its size and the text has no offset. |
| DspCmdExtraChecks.CopyMemPassesIff | zdsp1d/lib/sanity-checks/dspcmdextrachecks.cpp:46-61 | A COPYMEM to a word within reach passes exactly when it ends inside the variable. |
| DspCmdExtraChecks.CheckedCopyMemStaysInside | zdsp1d/lib/sanity-checks/dspcmdextrachecks.cpp:46-61 | A compiled COPYMEM that passes its check stores only into the variable it names if and only if offset plus word, cut to 16 bits, is not below the variable's offset. |
| DspCmdExtraChecks.WrappedCopyMemEscapes | zdsp1d/lib/sanity-checks/dspcmdextrachecks.cpp:46-61 | The failing input: a COPYMEM to 65530 words past a variable passes its check and stores in front of the variable. |
| DspCmdExtraChecks.StoreInsideTouchesNoOther | zdsp1d/lib/sanity-checks/dspcmdextrachecks.cpp:25-61 | With isolated memory a store inside one variable touches no other client's variable except the same global. |
| LinkedBlockCommands.LinkedBlockTouchesNoOther | zdsp1d/lib/sanity-checks/dspcmdextrachecks.cpp:25-61 | With clients that fit, a checked CLEARN, or a checked COPYMEM whose target has not wrapped, that a linked program reaches stores only into the variable it names and into no other variable of any client. |
| ClientRegistry.RunsAgree | zdsp1d/lib/zdspclientcontainer.cpp:25-114 | After any sequence of operations the list and both indexes hold the same clients under distinct non-zero ids, empty means counter 0, and the super client is registered. |
| RegistryRoster.RunIsRoster | zdsp1d/lib/zdspclientcontainer.cpp:25-114 | Over every run the registry holds exactly what a plain list does to which names are appended with their peer under the next free id and from which they are struck: the same clients in the same order, the same super client, the same counter. |
| RegistryRoster.RegisteredGoesWithPeer | zdsp1d/lib/zdspclientcontainer.cpp:25-41 | A registration appends one client with its name and its peer, or nobody; deleting the peer then leaves no client of that name. |
| RegistryRoster.MakeSuperIs | zdsp1d/lib/zdspclientcontainer.cpp:43-52 | A registered client that asks becomes the super client exactly when there is none. |
| ClientRegistry.DelPeerRemovesItsClients | zdsp1d/lib/zdspclientcontainer.cpp:82-92 | Deleting a peer removes exactly its clients. |
| ClientRegistry.RefusedOnlyAfterLap | zdsp1d/lib/zdspclientcontainer.cpp:25-41 | A new client is refused only when its id is in use, which needs at least 65535 ids drawn since the registry was last empty. |
| ZDspClientContainers.ZDspClientContainer.AddClient | zdsp1d/lib/zdspclientcontainer.cpp:25-41 | Adding enters the new client in the list and both indexes and counts it, or changes nothing but the counter of ids. |
| ZDspClientContainers.ZDspClientContainer.DelClient | zdsp1d/lib/zdspclientcontainer.cpp:94-104 | Deleting takes the client out of the list, both indexes and the super client role; with the last client the counter is reset and the globals of the last linking go. |
| ZDspClientContainers.ZDspClientContainer.DelClients | zdsp1d/lib/zdspclientcontainer.cpp:82-92 | The two loops delete the peer's clients one after the other; if that leaves none, the globals go. |
| ZDspClientContainers.ZDspClientContainer.DelAllClients | zdsp1d/lib/zdspclientcontainer.cpp:106-114 | Everything is empty afterwards, the counter is 0 and the globals are gone. |
| ZdspClients.GlobalVariableTable.Destroyed | zdsp1d/lib/zdspclient.cpp:24-29 | The globals are cleared exactly when the last client is destroyed. |
| ZDspClientContainers.ZDspClientContainer.MakeSuperClient | zdsp1d/lib/zdspclientcontainer.cpp:43-52 | The first client that asks becomes the super client, later ones are refused. |
| ZDspClientContainers.ZDspClientContainer.CalcDspInterruptId | zdsp1d/lib/zdspclientcontainer.cpp:162-167 | The next id is never 0. |
| ZDspClientContainers.ZDspClientContainer.HandleDspInterrupt | zdsp1d/lib/zdspclientcontainer.cpp:116-160 | The package is read and the acknowledge written through the first client's resolver, or the system's when there is no client: the notifications are those of the dispatch specification for what that resolver finds, and on every path there is one write, to the address it gives, or none exactly when that is 0xFFFFFFFF. |
| ZDspClientContainers.ZDspClientContainer.NotifyClients | zdsp1d/lib/zdspclientcontainer.cpp:125-150 | Every read stays in the buffer, for every count a package may carry, and the two loops send exactly what the dispatch specification says. |
| DspVarDeviceNodes.ReadInterruptBuffer | zdsp1d/lib/dspvardevicenodeinout.cpp:13-35 | The words read are those at the address the resolver gives, or none when it knows no such name or the device fails. |
| DspVarDeviceNodes.WriteAcknowledge | zdsp1d/lib/dspvardevicenodeinout.cpp:100-140 | One word is written to the address the resolver gives, as integer or float by the type it gives, and none when there is no address. |
| DspVarDeviceNodes.AcknowledgeWrittenIff | zdsp1d/lib/dspvardevicenodeinout.cpp:132-137 | Through the resolver of any client an acknowledge is one write if the word it has under CTRLACK is not at 0xFFFFFFFF, which reads as an unknown name, and none otherwise. |
| ServerRuns.RunAcknowledgesOnce | zdsp1d/lib/zdspclientcontainer.cpp:116-160 | Over every run of registrations, removals, lists, accepted or rejected, definitions and linkings, complete or cut short, of clients that fit: an acknowledge through any client's resolver is exactly one write. |
| DspVarDeviceNodes.AcknowledgeReachesChipIff | zdsp1d/lib/zdspclientcontainer.cpp:154-158 | Through any resolver the chip sees its acknowledge if and only if the resolver still gives the chip's address for CTRLACK, and not as a float. |
| DspVarDeviceNodes.ClientAcknowledgesChipIff | zdsp1d/lib/zdspclientcontainer.cpp:154 | A first client's resolver does so if and only if no variable it knows of the client is called CTRLACK or the last one that is has the chip's address and is no float. |
| DspVarDeviceNodes.ReadsChipBufferIff | zdsp1d/lib/zdspclientcontainer.cpp:119-123 | The package read is the chip's, whatever the memory holds, if and only if the resolver still gives the address of the chip's buffer. |
| DspVarDeviceNodes.ClientReadsChipBufferIff | zdsp1d/lib/zdspclientcontainer.cpp:119-123 | A first client's resolver does so if and only if no variable it knows of the client is called CTRLCMDPAR or the last one that is lies where the chip's buffer is. |
| DspVarDeviceNodes.LocalBufferIsRead | zdsp1d/lib/zdspclientcontainer.cpp:119-123 | The failing input: a first client with a local variable CTRLCMDPAR, after which the package is read from address 0. |
| DspVarDeviceNodes.LocalAcknowledgeGoesAstray | zdsp1d/lib/zdspclientcontainer.cpp:154 | The failing input: a first client with a local variable CTRLACK, whose acknowledge goes to address 0 and never reaches the chip. |
| InterruptDispatch.DispatchReachesClients | zdsp1d/lib/zdspclientcontainer.cpp:130-150 | Every client but the super client gets exactly one notification per entry with its id, in buffer order; the super client gets at most one, before all others. |
| InterruptDispatch.OnlyRegisteredAreTold | zdsp1d/lib/zdspclientcontainer.cpp:130-150 | Nobody but registered clients is told. |
| InterruptDispatch.NobodyIsToldOutOfRange | zdsp1d/lib/zdspclientcontainer.cpp:125-129 | A package with a negative count or with more words than it has room for tells nobody. |
| InterruptDispatch.SuperClientGetsTheLastWord | zdsp1d/lib/zdspclientcontainer.cpp:133-137 | The super client is told the parameter of the last word of the package, so it learns its own parameter exactly when the two are equal. |
| InterruptDispatch.SuperClientMisled | zdsp1d/lib/zdspclientcontainer.cpp:133-137 | The failing input: the super client triggers with 1, another client after it with 2, and the super client is told 2. |
| InterruptDispatch.TriggerWordNamesClient | zdsp1d/lib/dspcmdcompiler.cpp:47-63 | The word a client's DSPINTTRIGGER compiles to carries that client's id above the parameter. |
| InterruptDispatch.TriggerReachesItsClient | zdsp1d/lib/zdspclientcontainer.cpp:116-160 | Compile-to-dispatch round trip: posted alone, that word makes the server notify the compiling client with the parameter, and nobody else. |
| EepromI2c.WritePagesIsFlat | i2ceeprom/lib/eepromi2c24lcxxx.cpp:17-63 | The page-split write on a chip that wraps inside its pages is the flat write of the part that fits, whenever the 16-bit address does not wrap. |
| EepromI2c.FlatIffCounterHolds | i2ceeprom/lib/eepromi2c24lcxxx.cpp:17-63 | The split write of a given length is the flat write of what fits, for every content of chip and data, if and only if the 16-bit address does not wrap. |
| EepromI2c.WritePagesRolls | i2ceeprom/lib/eepromi2c24lcxxx.cpp:17-63 | On a chip of 65536 bytes the split write is exactly the write whose address continues at 0. |
| EepromI2c.WrapsToAddress0 | i2ceeprom/lib/eepromi2c24lcxxx.cpp:17-63 | The failing input: on such a chip every write over the last address replaces the byte at address 0. |
| EepromI2c.ReadsWhatWasWritten | i2ceeprom/lib/eepromi2c24lcxxx.cpp:87-116 | Reading a written range gives the written bytes. |
| EepromDriver.EepromI2c24LCxxx.WriteChunk | i2ceeprom/lib/eepromi2c24lcxxx.cpp:17-63 | The retry loop stores the chunk completely or not at all, and succeeds on a chip that takes it within a hundred attempts. |
| EepromDriver.EepromI2c24LCxxx.WriteData | i2ceeprom/lib/eepromi2c24lcxxx.cpp:17-63 | Whatever transfers fail, the result is the length of the prefix stored, every other byte is unchanged, and an early stop lies on a page border; with a patient chip all that fits is stored. On a chip of 65536 bytes the prefix is stored with the address continuing at 0. |
| EepromDriver.EepromI2c24LCxxx.Reset | i2ceeprom/lib/eepromi2c24lcxxx.cpp:65-78 | Fills the chip with 0xFF; on a chip of 65536 bytes the 16-bit count is 0 and nothing is written. |
| EepromDriver.EepromI2c24LCxxx.ReadData | i2ceeprom/lib/eepromi2c24lcxxx.cpp:87-116 | The result is the prefix of the range read before the first failing transfer; without one it is the whole range, also past the last address, where the chip continues at 0. |
| EepromDriver.WriteThenRead | i2ceeprom/lib/eepromi2c24lcxxx.cpp:17-116 | Writing in range and reading back on a bus without a failing transfer gives back the data, and the chip holds it. |
| AdjustmentImage.SealedIsImage | zenux-service-common/lib/adjustment/adjustmenteepromreadwrite.cpp:199-221 | Setting size and checksum makes a valid image with the payload untouched. |
| AdjustmentImage.ResealedImage | zenux-service-common/lib/adjustment/adjustmenteepromreadwrite.cpp:175-205 | Sealing again what a chip read validated gives the chip image byte for byte. |
| AdjustmentImage.ImageInBytes | zenux-service-common/lib/adjustment/adjustmenteepromreadwrite.cpp:124-138 | An image is exactly a buffer with its size in bytes 0 to 3 and, in bytes 4 and 5, the checksum of itself with zeros there, high bytes first. |
| AdjustmentStorage.ReadableInBytes | zenux-service-common/lib/adjustment/adjustmenteepromreadwrite.cpp:124-138 | A chip can be read back if and only if it starts with such an image of fewer than 65536 bytes. |
| AdjustmentStorage.FromChipInBytes | zenux-service-common/lib/adjustment/adjustmenteepromreadwrite.cpp:124-138 | What is read from such a chip is the image with a zero checksum field. |
| AdjustmentStorage.WriteLeavesBytes | zenux-service-common/lib/adjustment/adjustmenteepromreadwrite.cpp:168-173 | A complete write leaves exactly such an image with the payload written, and the rest of the chip as it was. |
| AdjustmentStorage.CacheFileIsChipImage | zenux-service-common/lib/adjustment/adjustmenteepromreadwrite.cpp:175-197 | The cache file written after a valid chip read equals the chip image byte for byte if and only if the stored size covers the 6-byte header. |
| AdjustmentStorage.CachedReadAgrees | zenux-service-common/lib/adjustment/adjustmenteepromreadwrite.cpp:140-166 | A cached read gives the same bytes behind the header as a chip read, provided the checksum tells file and image apart if they differ. |
| AdjustmentStorage.OwnCacheFileIsAccepted | zenux-service-common/lib/adjustment/adjustmenteepromreadwrite.cpp:140-166 | The cache file a chip read leaves passes its check against the same chip. |
| AdjustmentStorage.WriteLeavesImage | zenux-service-common/lib/adjustment/adjustmenteepromreadwrite.cpp:168-173 | A complete write leaves the chip adjusted with the written payload. |
| AdjustmentStorage.AdjustmentEepromReadWrite.ReadDataCached | zenux-service-common/lib/adjustment/adjustmenteepromreadwrite.cpp:31-57 | Valid data is kept; else it comes from a fitting cache file or from the chip, a fitting file is preferred, a chip read renews the file, failure changes nothing; on a chip that starts with a sealed image, byte by byte, a read without a failing transfer succeeds, and without a cache file gives the bytes with a zero checksum field. |
| AdjustmentStorage.AdjustmentEepromReadWrite.WriteRawDataToCache | zenux-service-common/lib/adjustment/adjustmenteepromreadwrite.cpp:175-197 | Only the named file changes; afterwards it is missing, as it was, or a prefix of the sealed data, and complete if the disk is fine. |
| AdjustmentStorage.AdjustmentEepromReadWrite.WriteData | zenux-service-common/lib/adjustment/adjustmenteepromreadwrite.cpp:59-67 | True means that the chip starts with the sealed image, byte by byte, and is otherwise as it was; whatever fails, the chip holds a prefix of it and the next read goes to the chip. |
| AdjustmentStorage.AdjustmentEepromReadWrite.ResetData | zenux-service-common/lib/adjustment/adjustmenteepromreadwrite.cpp:69-73 | Success on every chip below 65536 bytes, failure without any change on the 65536-byte chip. |
| ClampCodec.RangesReadBack | zenux-service-common/lib/scpi-interfaces/clamp.cpp:119-181 | The records of any ranges, written one behind the other, are read back exactly. |
| ClampCodec.ItemReadsBack | zenux-service-common/lib/adjustment/rangeitem/adjdataitem.cpp:110-133 | Status, coefficients and nodes are read back exactly, whatever follows. |
| ClampLayout.RangeLayout | zenux-service-common/lib/adjustment/rangeitem/adjdataitem.cpp:110-133 | Where a record has its bytes: the name with its length in front, and three items of 97 bytes with status, four coefficients and four nodes each, gain before phase before offset. |
| ClampLayout.CutStringIsEmpty | zenux-service-common/lib/scpi-interfaces/clamp.cpp:148-181 | A string that is cut off anywhere reads as an empty one and ends the stream. |
| ClampLayout.ItemOfAnyStream | zenux-service-common/lib/adjustment/rangeitem/adjdataitem.cpp:110-133 | Reading an item from any stream takes each number from its place, or zero where the stream does not reach so far, and leaves what is behind the item. |
| ClampLayout.StringOfAnyStream | zenux-service-common/lib/scpi-interfaces/clamp.cpp:148-181 | Reading a string from any stream: what every length, too long or odd, gives and leaves. |
| ClampImage.HeaderReadsBack | zenux-service-common/lib/scpi-interfaces/clamp.cpp:119-181 | Type, flags, version, serial number and date are read back exactly; the type name is skipped. |
| ClampLayout.PayloadLayout | zenux-service-common/lib/scpi-interfaces/clamp.cpp:119-146 | Where a clamp's data has its parts: type, flags, type name, version, serial number, date, the records of the primary ranges and then of the secondary ones. |
| ClampImage.ApplyEffect | zenux-service-common/lib/scpi-interfaces/clamp.cpp:168-178 | For any records and ranges: the first range of a name holds the last record of that name, a later range of the same name is never written. |
| ClampImage.RestoresIffDistinct | zenux-service-common/lib/scpi-interfaces/clamp.cpp:878-901 | Reading back restores every clamp with the same ranges if and only if the range names are distinct over both lists. |
| ClampImage.PrimaryIsPreferred | zenux-service-common/lib/scpi-interfaces/clamp.cpp:878-901 | Of a primary and a secondary range of one name the primary one is read into, and the secondary one stays as it was. |
| ClampImage.RepeatedRecordHidesMissingOne | zenux-service-common/lib/scpi-interfaces/clamp.cpp:167-179 | The failing input: two records for one range are counted twice, and success is reported although the other range got none. |
| ClampImage.SuccessCoversAllRanges | zenux-service-common/lib/scpi-interfaces/clamp.cpp:167-179 | When no two records find the same range, success means that every range has a record, whatever the names. |
| ClampImage.SuccessCoversIff | zenux-service-common/lib/scpi-interfaces/clamp.cpp:167-179 | When reading reports success and the ranges have distinct names, every range has a record if and only if no two records find the same range. |
| ClampImage.DecodedIsStored | zenux-service-common/lib/scpi-interfaces/clamp.cpp:148-181 | Decoding what a clamp stored, in a clamp with ranges of the same names, restores the header and finds every range, and with distinct names restores the data of all. |
| Clamps.Clamp.ExportClampAdjData | zenux-service-common/lib/scpi-interfaces/clamp.cpp:119-146 | True means that the chip holds this clamp's data; with a patient chip it is true exactly when the data fits. |
| Clamps.Clamp.GetRange | zenux-service-common/lib/scpi-interfaces/clamp.cpp:878-901 | The first range of the name, searched in the primary list before the secondary one. |
| Clamps.Clamp.ReadRecords | zenux-service-common/lib/scpi-interfaces/clamp.cpp:167-178 | The loop applies every record of the stream in order and counts those that found a range. |
| Clamps.Clamp.ImportClampAdjData | zenux-service-common/lib/scpi-interfaces/clamp.cpp:148-181 | Full-stack round trip: with a chip that holds a clamp's data and no failing transfer, a clamp with ranges of the same distinct names returns true and gets type, flags, version, serial, date and all range data back. |
| Clamps.ExportThenImport | zenux-service-common/lib/scpi-interfaces/clamp.cpp:119-181 | One clamp exports, another one with ranges of the same names on the same chip imports: after a successful export and with no failing transfer everything is restored. |
| HotplugRuns.RunIsSafe | zenux-service-common/lib/micro-controller-io/hotpluggablecontrollercontainer.cpp:10-106 | Over every run of plug masks, timer expiries and device answers: the three sets are disjoint, every known channel is plugged in the last mask, every pending channel has a running timer, and the signals are exactly the one-channel changes of the controllers. |
| HotplugRuns.ActualizeKeeps | zenux-service-common/lib/micro-controller-io/hotpluggablecontrollercontainer.cpp:10-41 | One mask keeps all of this, and a channel with a plug bit is known afterwards only if its last setting is plugged. |
| HotplugRuns.PluggedIsKept | zenux-service-common/lib/micro-controller-io/hotpluggablecontrollercontainer.cpp:20-24 | A channel all of whose settings stay plugged keeps its entry. |
| HotplugRuns.RepeatedMaskIsIdle | zenux-service-common/lib/micro-controller-io/hotpluggablecontrollercontainer.cpp:10-41 | A mask that plugs exactly the known channels changes nothing. |
| HotplugRuns.PluggedIsProbed | zenux-service-common/lib/micro-controller-io/hotpluggablecontrollercontainer.cpp:51-106 | Where a newly plugged channel ends for every combination of device answers, with no other channel touched. |
| HotplugRuns.ExpiredIsProbed | zenux-service-common/lib/micro-controller-io/hotpluggablecontrollercontainer.cpp:73-106 | Where a pending channel ends when its timer expires, for every combination of device answers. |
| HotplugRuns.VersionOnlyIsProbedAgain | zenux-service-common/lib/micro-controller-io/hotpluggablecontrollercontainer.cpp:85-104 | A channel that reports a version but no EMOB sub type ends in none of the sets, so that the next mask probes it again. |
| HotPluggableControllers.I2cCtlBootloaderStopper.StopBootloader | zenux-service-common/lib/micro-controller-io/i2cctlbootloaderstopper.cpp:14-32 | One bus access decides between a running timer and an immediate signal; a second call does nothing. |
| HotPluggableControllers.HotPluggableControllerContainer.OnBootloaderStopAssumed | zenux-service-common/lib/micro-controller-io/hotpluggablecontrollercontainer.cpp:73-106 | The slot on the maps agrees with the state machine, also for a channel that is not pending. |
| HotPluggableControllers.HotPluggableControllerContainer.StartAddingController | zenux-service-common/lib/micro-controller-io/hotpluggablecontrollercontainer.cpp:51-63 | Inserting before starting the stopper agrees with the state machine, also when the stopper signals before it returns. |
| HotPluggableControllers.HotPluggableControllerContainer.StartActualizeEmobControllers | zenux-service-common/lib/micro-controller-io/hotpluggablecontrollercontainer.cpp:10-41 | The loop over the settings agrees with the state machine. |
| HotPluggableControllers.HotPluggableControllerContainer.TimerExpired | zenux-service-common/lib/micro-controller-io/i2cctlbootloaderstopper.cpp:34-39 | The expiry of a live stopper's timer agrees with the state machine. |
| ClampAgreement.ActualizedAgreesIff | zenux-service-common/lib/scpi-interfaces/clampinterface.cpp:80-120 | One mask, with any names: status word, hash, secondary set and announced list agree afterwards and no bit lies outside the mask if and only if every clamp that leaves is called by the name it was registered under, by its own channel or by another one that leaves too. |
| ClampAgreement.ActualizedExactly | zenux-service-common/lib/scpi-interfaces/clampinterface.cpp:97-120 | In that case the status word is exactly the bits that stay plugged and those of the channels that are plugged now with a memory and a name. |
| ClampAgreement.ActualizedSecondaries | zenux-service-common/lib/scpi-interfaces/clampinterface.cpp:31-53 | In that case a clamp that stays keeps its secondary channel, and a new one has the secondary channel its memory asks for. |
| ClampAgreement.RepeatedMaskIsIdle | zenux-service-common/lib/scpi-interfaces/clampinterface.cpp:97-120 | In that case repeating the event changes nothing. |
| ClampRuns.RunAgreesIff | zenux-service-common/lib/scpi-interfaces/clampinterface.cpp:31-120 | Over every run of masks, memories and names: the registry agrees with itself and with the last mask after every event if and only if every clamp that left was called by the name it was registered under. |
| ClampRuns.SameNamesAgreeIff | zenux-service-common/lib/scpi-interfaces/clampinterface.cpp:31-120 | While the names do not change: all runs keep the registry in agreement if and only if the sense interface calls every watched channel by its registered name or not at all. |
| ClampRuns.RenamedClampStays | zenux-service-common/lib/scpi-interfaces/clampinterface.cpp:80-95 | The failing input: a channel is renamed, or loses its name, after its clamp was registered, and unplugging the clamp leaves its status bit and its entry. |
| ClampRuns.DistinctSecondaries | zenux-service-common/lib/scpi-interfaces/clampinterface.cpp:35-43 | Distinct control channels below 256 with distinct names have distinct secondary channels, although the number is cut to 8 bits. |
| ClampRuns.SenseIsOwnNumber | zenux-service-common/lib/scpi-interfaces/clampinterface.cpp:97-107 | The name a channel is called by is the one the sense interface gives its own control channel. |
| ClampRuns.SecondaryIsHalfBefore | zenux-service-common/lib/scpi-interfaces/clampinterface.cpp:35-43 | The secondary channel of a clamp is the one whose control channel lies half the number of settings before its own. |
| ClampInterfaces.ClampInterface.AddClamp | zenux-service-common/lib/scpi-interfaces/clampinterface.cpp:31-53 | Status bit, hash, secondary set and announced list change together. |
| ClampInterfaces.ClampInterface.HandleClampDisconnected | zenux-service-common/lib/scpi-interfaces/clampinterface.cpp:80-95 | They are taken back together, or nothing changes when the name is not registered. |
| ClampInterfaces.ClampInterface.ActualizeClampStatus | zenux-service-common/lib/scpi-interfaces/clampinterface.cpp:97-120 | The loop over the channels agrees with the specification that takes the changed bits once before the loop. |
| SecConf.SyncInField | sec1000d/lib/scpi-interfaces/secchannel.cpp:214-241 | A synchronisation source stays inside its register field exactly when it is below 256. |
| SecConf.MuxInField | sec1000d/lib/scpi-interfaces/secchannel.cpp:243-266 | A signed 8-bit multiplexer setting stays inside its register field exactly when it is from 0 to 31. |
| SecConf.ConfIsLastOfEachKind | sec1000d/lib/scpi-interfaces/secchannel.cpp:214-293 | After any run of writes in range the register is made of the last value of each kind since it was last written as a whole. |
| SecConf.SyncLeavesNoTraceIff | sec1000d/lib/scpi-interfaces/secchannel.cpp:214-241 | A synchronisation source is overwritten without trace by every later one exactly when it is below 256. |
| SecConf.MuxLeavesNoTraceIff | sec1000d/lib/scpi-interfaces/secchannel.cpp:243-266 | A multiplexer setting is overwritten without trace by every later one exactly when it is from 0 to 31. |
| SecChannels.ConfOverRun | sec1000d/lib/scpi-interfaces/secchannel.cpp:123-293 | Over every run of occupying, releasing and commanding by any clients, accepted or not, CONF depends only on its initial value and the last accepted command of each kind. |
| SecChannels.OrderDoesNotMatter | sec1000d/lib/scpi-interfaces/secchannel.cpp:214-293 | Two runs with the same last accepted values end with the same CONF, whatever their order and length. |
| SecCommands.MuxSelects | sec1000d/lib/scpi-interfaces/secchannel.cpp:243-266 | An accepted input puts the bits of its own setting, and no others, into the multiplexer field and leaves the rest; an input that is not configured changes nothing. |
| SecCommands.SyncSelects | sec1000d/lib/scpi-interfaces/secchannel.cpp:214-241 | An accepted index, counted from 1, is in the synchronisation field bit by bit, and the rest is left; every other index changes nothing. |
| SecCommands.CmdIdSelects | sec1000d/lib/scpi-interfaces/secchannel.cpp:268-293 | An accepted configuration has its bits and no others outside the two fields, which are left. |
| SecCommands.OtherRequests | sec1000d/lib/scpi-interfaces/secchannel.cpp:195-211 | A whole register is written as it is; commands of anybody else and those that do not parse change nothing. |
| SecChannels.ReleasedClientStillWrites | sec1000d/lib/scpi-interfaces/secchannel.cpp:137-148 | The failing input: a client that has released its channel may still configure it, whatever commands follow, until an occupation finds the channel free. |
| SecChannels.RefusedIffNotLastOccupant | sec1000d/lib/scpi-interfaces/secchannel.cpp:128-148 | Over every run a well-formed command is refused for lack of authorization if and only if it is not from the client whose occupation last found the channel free. |
| SecChannels.AcceptedSyncNamesChannelIff | sec1000d/lib/scpi-interfaces/secchannel.cpp:225-233 | An accepted synchronisation source names an existing channel if and only if its index is below the channel count; the count itself is always accepted. |
| SecChannels.SecChannel.SetClient | sec1000d/lib/scpi-interfaces/secchannel.cpp:128-135 | Occupying records the client only when the channel was free. |
| SecChannels.SecChannel.Free | sec1000d/lib/scpi-interfaces/secchannel.cpp:137-148 | Releasing an occupied channel stops it and keeps the client id; releasing a free one does nothing. |
| SecChannels.SecChannel.SetSync | sec1000d/lib/scpi-interfaces/secchannel.cpp:214-241 | Answer and register agree with the specification on every path. |
| SecChannels.SecChannel.SetMux | sec1000d/lib/scpi-interfaces/secchannel.cpp:243-266 | Answer and register agree with the specification on every path. |
| SecChannels.SecChannel.SetCmdId | sec1000d/lib/scpi-interfaces/secchannel.cpp:268-293 | Answer and register agree with the specification on every path. |
| SecChannels.SecChannel.WriteConf | sec1000d/lib/scpi-interfaces/secchannel.cpp:195-211 | Writing CONF as a whole register agrees with the specification on every path. |
| SecChannels.SecChannel.ResetInterrupt | sec1000d/lib/scpi-interfaces/secchannel.cpp:368-377 | The notifier loses the given bits, the interrupt register keeps only the others of its lower four. |
| SecAllocation.GrantIsAllOrNothing | sec1000d/lib/scpi-interfaces/secmainandchannelinterface.cpp:119-163 | SET n grants exactly the n lowest free channels to the client, or changes nothing and answers busy or nak; when each happens is exact. |
| SecAllocation.FirstFreeIsLowest | sec1000d/lib/scpi-interfaces/secmainandchannelinterface.cpp:132-143 | The search loop's selection is ascending, free, at most n long, and leaves out a free channel only above a full selection. |
| SecAllocation.FreeReleasesRecord | sec1000d/lib/scpi-interfaces/secmainandchannelinterface.cpp:176-189 | A release frees exactly the occupied channels of the client's record, whoever holds them. |
| SecAllocation.FreeReleasesOwnIff | sec1000d/lib/scpi-interfaces/secmainandchannelinterface.cpp:166-189 | With exact records a release frees exactly the client's own channels if and only if no channel of its record has gone to another client. |
| SecAllocation.DisconnectReleasesOwnIff | sec1000d/lib/scpi-interfaces/secmainandchannelinterface.cpp:91-97 | With exact records a disconnect frees exactly the channels that the peer's clients hold if and only if no channel of their records has gone to a client outside the peer. |
| SecAllocation.GrantKeepsExactIff | sec1000d/lib/scpi-interfaces/secmainandchannelinterface.cpp:144-153 | With exact records a granted request leaves them exact if and only if its client held no channel. |
| SecAllocation.DisconnectSucceeds | sec1000d/lib/scpi-interfaces/secmainandchannelinterface.cpp:91-97 | In every run a disconnect succeeds: no client of a peer lacks a record, so none is passed over. |
| SecAllocation.ClientsAreGrantedVia | sec1000d/lib/scpi-interfaces/secmainandchannelinterface.cpp:144-153 | Over every run the clients of a peer are exactly those that were granted channels by a request of that peer, each once. |
| SecAllocation.FreeClientsReleasesOwn | sec1000d/lib/scpi-interfaces/secmainandchannelinterface.cpp:91-97 | A disconnect whose records hold no channel of a client outside the peer releases exactly the channels of the peer's clients and leaves the records exact. |
| SecAllocation.CleanRunIsExact | sec1000d/lib/scpi-interfaces/secmainandchannelinterface.cpp:91-189 | Over every run in which no client is granted channels while holding some, no release replays a record with another client's channel, and no disconnect records with a channel of a client outside the peer, every holder's record is exactly what it holds. |
| SecAllocation.HarmlessRunIffClean | sec1000d/lib/scpi-interfaces/secmainandchannelinterface.cpp:91-189 | Over every run: all grants keep the records exact, all releases free exactly the client's own channels and all disconnects exactly those of the peer's clients, if and only if the run is of that kind. |
| SecAllocation.OneRecordPerChannel | sec1000d/lib/scpi-interfaces/secmainandchannelinterface.cpp:91-189 | In such runs every occupied channel is in the record of exactly one client that holds channels, its holder. |
| SecAllocation.StaleRecordFreesForeignChannel | sec1000d/lib/scpi-interfaces/secmainandchannelinterface.cpp:176-189 | The failing input: a client releases its channel, another client gets it, the first connection ends, and the other client's channel is freed. |
| SecAllocation.MovedInsidePeerIsClean | sec1000d/lib/scpi-interfaces/secmainandchannelinterface.cpp:91-97 | A channel that went from one client of a peer to another one does no harm when the peer disconnects. |
| SecAllocation.SecondRequestLeaksFirst | sec1000d/lib/scpi-interfaces/secmainandchannelinterface.cpp:144-153 | The failing input: a client that asks twice can release only what it was granted last. |
| SecMainAndChannelInterfaces.SecMainAndChannelInterface.SelectFree | sec1000d/lib/scpi-interfaces/secmainandchannelinterface.cpp:132-143 | The search loop with its counter selects the lowest free channels. |
| SecMainAndChannelInterfaces.SecMainAndChannelInterface.ScpiSetChannels | sec1000d/lib/scpi-interfaces/secmainandchannelinterface.cpp:119-163 | Channels, record, peer list and reply agree with the specification on every path. |
| SecMainAndChannelInterfaces.SecMainAndChannelInterface.FreeChannelsFromAClient | sec1000d/lib/scpi-interfaces/secmainandchannelinterface.cpp:176-189 | The nested loops release the channels of the record. |
| SecMainAndChannelInterfaces.SecMainAndChannelInterface.FreeChannelsForThisPeer | sec1000d/lib/scpi-interfaces/secmainandchannelinterface.cpp:91-97 | The loop releases client after client and stops at the first without a record. |
| SecMainAndChannelInterfaces.SecMainAndChannelInterface.ScpiFreeChannels | sec1000d/lib/scpi-interfaces/secmainandchannelinterface.cpp:166-174 | Acknowledged exactly when the client has a record. |
| SecInterrupts.EveryIndexIsRead | sec1000d/lib/sec1000d.cpp:201-215 | For any number of channels the read is made of whole words, covers every index used and is no word too long. |
| SecInterrupts.UnpackInvertsPack | sec1000d/lib/sec1000d.cpp:231-238 | For any number of channels each channel sees its own four bits. |
| SecInterrupts.UnpackedBits | sec1000d/lib/sec1000d.cpp:231-238 | Bit k of a channel is bit k of its byte, or bit k + 4 for an odd channel. |
| Sec1000dServers.Sec1000dServer.SECIntHandler | sec1000d/lib/sec1000d.cpp:217-240 | Every channel's notifier takes over its own four bits and announces those that were not set, whatever part of the registers a read delivers. |
| NotificationValues.AnnouncedIsEdge | zenux-service-common/lib/async-notifications/notificationvalue.cpp:18-30 | An update announces a bit exactly when it takes the bit from 0 to 1. |
| NotificationValues.BitIsLastTouch | zenux-service-common/lib/async-notifications/notificationvalue.cpp:18-30 | Over every run a bit is set exactly when the last update that names it set it; updates that do not name it leave it as it is. |
| NotificationValues.EdgesBalance | zenux-service-common/lib/async-notifications/notificationvalue.cpp:18-30 | Over any run, initial level plus announcements equals final level plus clears, for every bit: no edge is lost or announced twice. |
| NotificationValues.NotificationValue.SetValue | zenux-service-common/lib/async-notifications/notificationvalue.cpp:18-25 | At most one announcement, with the rising bits, and the value keeps its set bits. |
| NotificationValues.NotificationValue.ClrValue | zenux-service-common/lib/async-notifications/notificationvalue.cpp:27-30 | The given bits are cleared and nothing is announced. |

## Left out

- Sockets, protobuf, the SCPI tree, Qt signals and the event loop, device nodes, logging, permissions, JSON and XML: only
  the steps they trigger are modelled.
- The parser that cuts command lines into keywords and operands, and the float syntax, are not part of this model.
- The AVERAGE1 check depends on a length function that is not part of this model.
- Unicode: upper case is that of ASCII, and the only white space is the blank.
- Uploading the linked programs, the list selector and the capacity check of the command regions: their unit is not
  determined by the code modelled here.
- Notifications of clients without a network connection go to a text interface that is not part of this model.
- ZdspClients.ZdspClient.GetMemSize: does not model the overflow of a 32-bit sum of sizes, which needs more variables than
  the workspace has words.
- Clamps.Clamp.ExportClampAdjData: represents the date by its text; the milliseconds a text drops are lost as in the
  program.
- ClampInterfaces.ClampInterface.AddClamp: a live clamp is represented by the name of its secondary channel; its ranges
  and its own interfaces are left out.
- HotPluggableControllers.HotPluggableControllerContainer.StartActualizeEmobControllers: a controller is represented by its
  channel name; the list handed to others is not modelled.
- SecChannels.SecChannel.SetSync: the parameter is a parsed number; the removal of the prefix from the text is left out.
- START, STOP and the registers of a channel other than CONF and the interrupt register would only add easy members.
- Clamp and channel range tables, the computation of correction coefficients and the status logic are constant data or
  thin wrappers.
