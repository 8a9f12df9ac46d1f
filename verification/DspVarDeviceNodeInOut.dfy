/** DSP variables read and written by name: the address and the type come from a client's own resolver. */
module DspVarDeviceNodes {
  import opened MachineWords
  import opened Wrappers
  import opened DspVarOffsetCalc
  import opened DspApi
  import opened DspVarResolver
  import opened ZdspClientImage
  import opened SystemNames
  import opened InterruptDispatch

  /** The value 4, as an integer and as the bits of a float. */
  const CMD_DONE: u32 := 4
  const CMD_DONE_FLOAT: u32 := 0x4080_0000

  const INTERRUPT_BUFFER := "CTRLCMDPAR"
  const ACKNOWLEDGE := "CTRLACK"

  type Memory = int -> u32

  function Put(memory: Memory, address: int, word: u32): Memory {
    a => if a == address then word else memory(a)
  }

  function Words(memory: Memory, address: int, count: nat): (r: seq<u32>)
    ensures |r| == count
  {
    seq(count, i => memory(address + i))
  }

  /** The DSP's memory behind the device node. Whether an access succeeds, one answer per access, is not under the
      server's control. */
  class DspDevice {
    var memory: Memory
    var step: nat
    const answers: nat -> bool
    ghost var writes: seq<(int, u32)>

    constructor (memory: Memory, answers: nat -> bool)
      ensures this.memory == memory && this.answers == answers && step == 0 && writes == []
    {
      this.memory, this.answers, step, writes := memory, answers, 0, [];
    }

    method Read(address: int, count: nat) returns (words: Option<seq<u32>>)
      modifies this`step
      ensures step == old(step) + 1
      ensures words == if answers(old(step)) then Some(Words(memory, address, count)) else None
    {
      words := if answers(step) then Some(Words(memory, address, count)) else None;
      step := step + 1;
    }

    method Write(address: int, word: u32)
      modifies this
      ensures step == old(step) + 1 && writes == old(writes) + [(address, word)]
      ensures memory == if answers(old(step)) then Put(old(memory), address, word) else old(memory)
    {
      if answers(step) {
        memory := Put(memory, address, word);
      }
      step := step + 1;
      writes := writes + [(address, word)];
    }
  }

  function AckAddress(hash: VarHash): int {
    GetVarAddress(hash, ACKNOWLEDGE)
  }

  /** A variable declared as float is written as float. */
  function AckWord(hash: VarHash): u32 {
    match GetDspVar(hash, ACKNOWLEDGE)
    case Some(v) => if v.dataType == FloatType then CMD_DONE_FLOAT else CMD_DONE
    case None => CMD_DONE
  }

  /** The buffer as read through a resolver, when the access succeeds. */
  function BufferIn(memory: Memory, hash: VarHash): Option<Buffer> {
    match GetDspVar(hash, INTERRUPT_BUFFER)
    case None => None
    case Some(v) => Some(Words(memory, v.address, BUFFER_LEN))
  }

  /** The writes an acknowledge through this resolver makes, and the memory when it succeeds. */
  function AckWrites(hash: VarHash): seq<(int, u32)> {
    if AckAddress(hash) == -1 then [] else [(AckAddress(hash), AckWord(hash))]
  }

  function Acknowledged(memory: Memory, hash: VarHash): Memory {
    if AckAddress(hash) == -1 then memory else Put(memory, AckAddress(hash), AckWord(hash))
  }

  method ReadInterruptBuffer(device: DspDevice, hash: VarHash) returns (buffer: Option<Buffer>)
    modifies device`step
    ensures device.step >= old(device.step)
    ensures buffer == if device.answers(old(device.step)) then BufferIn(device.memory, hash) else None
  {
    buffer := None;
    var v := GetDspVar(hash, INTERRUPT_BUFFER);
    if v.Some? {
      var words := device.Read(v.value.address, BUFFER_LEN);
      buffer := words;
    }
  }

  method WriteAcknowledge(device: DspDevice, hash: VarHash)
    modifies device
    ensures device.writes == old(device.writes) + AckWrites(hash)
    ensures device.memory == if device.answers(old(device.step)) then Acknowledged(old(device.memory), hash) else old(device.memory)
  {
    var v := GetDspVar(hash, ACKNOWLEDGE);
    var word := if v.Some? && v.value.dataType == FloatType then CMD_DONE_FLOAT else CMD_DONE;
    var address := GetVarAddress(hash, ACKNOWLEDGE);
    if address == -1 {
      return;
    }
    device.Write(address, word);
  }

  // ---------- the chip's own words

  lemma {:induction false} FoundInSection(entries: seq<SectionEntry>, start: u32, shift: u32, i: nat)
    requires i < |entries| && forall j :: i < j < |entries| ==> entries[j].name != entries[i].name
    ensures LastNamed(InitSection(entries, start, shift), entries[i].name) == Some(InitSection(entries, start, shift)[i])
  {
    var k := |entries| - 1;
    var vars := InitSection(entries, start, shift);
    hide SectionSize;
    assert vars[..k] == InitSection(entries[..k], start, shift);
    if i < k {
      FoundInSection(entries[..k], start, shift, i);
    }
  }

  lemma {:induction false} NotInSection(entries: seq<SectionEntry>, start: u32, shift: u32, name: string)
    requires forall j :: 0 <= j < |entries| ==> entries[j].name != name
    ensures LastNamed(InitSection(entries, start, shift), name) == None
  {
    if entries == [] {
    } else {
      var k := |entries| - 1;
      hide SectionSize;
      NotInSection(entries[..k], start, shift, name);
      assert InitSection(entries, start, shift)[..k] == InitSection(entries[..k], start, shift);
    }
  }

  lemma {:induction false} ChannelNames(count: nat)
    ensures forall j :: 0 <= j < |ChannelNrVars(count)| ==> |ChannelNrVars(count)[j].name| > 2 && ChannelNrVars(count)[j].name[1] == 'H'
  {
    if count == 0 {
    } else {
      ChannelNames(count - 1);
      assert ("CH" + Decimal(count - 1))[1] == 'H';
    }
  }

  /** A row of the dialog workspace table with one of the two names, which no later row bears again. */
  predicate DialogName(i: nat) {
    i < |DIALOG_WORKSPACE_VARS|
    && DIALOG_WORKSPACE_VARS[i].name in {INTERRUPT_BUFFER, ACKNOWLEDGE}
    && forall j :: i < j < |DIALOG_WORKSPACE_VARS| ==> DIALOG_WORKSPACE_VARS[j].name != DIALOG_WORKSPACE_VARS[i].name
  }

  lemma DialogRows()
    ensures DialogName(2) && DIALOG_WORKSPACE_VARS[2].name == INTERRUPT_BUFFER
    ensures DialogName(3) && DIALOG_WORKSPACE_VARS[3].name == ACKNOWLEDGE
  {
  }

  lemma LaterSections(l: Layout, name: string)
    requires name in {INTERRUPT_BUFFER, ACKNOWLEDGE}
    ensures LastNamed(InitSection(UserWorkspaceVars(l), l.userWorkspace, 0), name) == None
    ensures LastNamed(InitSection(CmdListVars(l), l.cmdList, 0), name) == None
    ensures LastNamed(InitSection(ChannelNrVars(32), 0, 0), name) == None
  {
    ChannelNames(32);
    NotInSection(UserWorkspaceVars(l), l.userWorkspace, 0, name);
    NotInSection(CmdListVars(l), l.cmdList, 0, name);
    NotInSection(ChannelNrVars(32), 0, 0, name);
  }

  lemma DialogVariable(chip: Chip, i: nat)
    requires DialogName(i)
    ensures var l, name := LayoutOf(chip), DIALOG_WORKSPACE_VARS[i].name;
            && name in SystemHash(chip)
            && SystemHash(chip)[name] == InitSection(DIALOG_WORKSPACE_VARS, l.dialogWorkspace, l.dialogWorkspace - l.dspWorkspace)[i]
  {
    var l, name := LayoutOf(chip), DIALOG_WORKSPACE_VARS[i].name;
    FoundInSection(DIALOG_WORKSPACE_VARS, l.dialogWorkspace, l.dialogWorkspace - l.dspWorkspace, i);
    LaterSections(l, name);
    hide InitSection, LastNamed, AddToHash, LayoutOf, ChannelNrVars, DialogName;
    var h0 := AddToHash(map[], InitSection(DSP_WORKSPACE_VARS, l.dspWorkspace, 0));
    var dialog := InitSection(DIALOG_WORKSPACE_VARS, l.dialogWorkspace, l.dialogWorkspace - l.dspWorkspace);
    var h1 := AddToHash(h0, dialog);
    var h2 := AddToHash(h1, InitSection(UserWorkspaceVars(l), l.userWorkspace, 0));
    var h3 := AddToHash(h2, InitSection(CmdListVars(l), l.cmdList, 0));
    LastNamedWins(h0, dialog, name);
    LastNamedWins(h1, InitSection(UserWorkspaceVars(l), l.userWorkspace, 0), name);
    LastNamedWins(h2, InitSection(CmdListVars(l), l.cmdList, 0), name);
    LastNamedWins(h3, InitSection(ChannelNrVars(32), 0, 0), name);
  }

  lemma PlainName(name: string)
    requires name != "" && forall i :: 0 <= i < |name| ==> 'A' <= name[i] <= 'Z'
    ensures FirstSummand(RemoveBlanks(ToUpper(name))) == Some(name) && CalcVarOffset(name, name) == Some(0)
  {
    assert ToUpper(name) == name;
    NoBlanksToRemove(name);
    NoPlusToCut(name, "");
    assert name + "" == name;
    hide FirstSummand, RemoveBlanks, ToUpper;
  }

  lemma ChipAcknowledgeVariable(chip: Chip)
    ensures ACKNOWLEDGE in SystemHash(chip)
    ensures var v := SystemHash(chip)[ACKNOWLEDGE];
            v.name == ACKNOWLEDGE && v.dataType == IntType && LayoutOf(chip).dialogWorkspace <= v.address < 0x8000_0000
  {
    hide SystemHash, InitSection, SectionSize, DialogName;
    DialogRows();
    DialogVariable(chip, 3);
    DialogSectionSize();
    var l := LayoutOf(chip);
    SectionPlaces(DIALOG_WORKSPACE_VARS, l.dialogWorkspace, l.dialogWorkspace - l.dspWorkspace, 3);
  }

  /** The chip's acknowledge word is an integer in the dialog workspace. */
  lemma ChipAcknowledge(chip: Chip)
    ensures NamesSystem(chip, ACKNOWLEDGE, ACKNOWLEDGE)
    ensures var v := SystemHash(chip)[ACKNOWLEDGE];
            && v.name == ACKNOWLEDGE && v.dataType == IntType && LayoutOf(chip).dialogWorkspace <= v.address < 0x8000_0000
            && AckAddress(SystemHash(chip)) == v.address && AckWord(SystemHash(chip)) == CMD_DONE
            && GetDspVar(SystemHash(chip), ACKNOWLEDGE) == Some(v)
  {
    hide SystemHash, FirstSummand, RemoveBlanks, ToUpper, CalcVarOffset, GetDspVar, GetVarAddress, LayoutOf;
    ChipAcknowledgeVariable(chip);
    PlainName(ACKNOWLEDGE);
    var v := SystemHash(chip)[ACKNOWLEDGE];
    ResolvedIn(SystemHash(chip), ACKNOWLEDGE, ACKNOWLEDGE, v);
    ResolvedValues(SystemHash(chip), ACKNOWLEDGE, v, 0);
    SmallAddress(v.address);
  }

  lemma SmallAddress(address: u32)
    requires address < 0x8000_0000
    ensures ToInt32(address) == address
  {
  }

  /** This resolver acknowledges to the chip. */
  predicate AcknowledgesChip(chip: Chip, hash: VarHash) {
    AckAddress(hash) == AckAddress(SystemHash(chip)) && AckWord(hash) == CMD_DONE
  }

  /** Through any resolver: a memory in which the chip's word does not say so yet says that the command is done after the
      acknowledge if and only if the resolver still gives the chip's address, and not as a float. */
  lemma AcknowledgeReachesChipIff(chip: Chip, hash: VarHash, memory: Memory)
    requires memory(AckAddress(SystemHash(chip))) != CMD_DONE
    ensures Acknowledged(memory, hash)(AckAddress(SystemHash(chip))) == CMD_DONE <==> AcknowledgesChip(chip, hash)
  {
    hide GetVarAddress, SystemHash, GetDspVar, LayoutOf, NamesSystem;
    ChipAcknowledge(chip);
  }

  /** Through the resolver of a client: if and only if no variable of the client is called CTRLACK, or the last one that
      is has the chip's address and is no float. */
  lemma ClientAcknowledgesChipIff(chip: Chip, c: ClientImage)
    ensures var last := LastNamed(Known(c), ACKNOWLEDGE);
            AcknowledgesChip(chip, HashOf(chip, c)) <==>
              last == None || (last.value.address == AckAddress(SystemHash(chip)) && last.value.dataType != FloatType)
  {
    hide GetVarAddress, GetVarOffset, SystemHash, HashOf, LastNamed, FirstSummand, RemoveBlanks, ToUpper, GetDspVar, LayoutOf,
         CalcVarOffset, NamesSystem;
    ChipAcknowledge(chip);
    SystemNameKeptIff(chip, c, ACKNOWLEDGE, ACKNOWLEDGE);
    ResolvesTo(chip, c, ACKNOWLEDGE, ACKNOWLEDGE);
  }

  /** What the resolvers of clients have under CTRLACK; the address -1 is the answer for unknown names. */
  predicate Writable(vars: seq<DspVar>) {
    var last := LastNamed(vars, ACKNOWLEDGE);
    last == None || last.value.address != 0xFFFF_FFFF
  }

  lemma MinusOne(address: u32)
    ensures ToInt32(address) == -1 <==> address == 0xFFFF_FFFF
  {
  }

  /** An acknowledge through the resolver of a client, kept or current, makes exactly one write if and only if the word
      found is not at the address 0xFFFFFFFF; otherwise none. */
  lemma AcknowledgeWrittenIff(chip: Chip, vars: seq<DspVar>)
    ensures var hash := AddToHash(SystemHash(chip), vars);
            |AckWrites(hash)| == (if Writable(vars) then 1 else 0)
  {
    hide GetVarAddress, SystemHash, AddToHash, LastNamed, FirstSummand, RemoveBlanks, ToUpper, GetDspVar, LayoutOf, CalcVarOffset,
         NamesSystem, ToInt32;
    var hash, last := AddToHash(SystemHash(chip), vars), LastNamed(vars, ACKNOWLEDGE);
    ChipAcknowledgeVariable(chip);
    PlainName(ACKNOWLEDGE);
    LastNamedWins(SystemHash(chip), vars, ACKNOWLEDGE);
    LastNamedIsNamed(vars, ACKNOWLEDGE);
    var v := if last.Some? then last.value else SystemHash(chip)[ACKNOWLEDGE];
    ResolvedIn(hash, ACKNOWLEDGE, ACKNOWLEDGE, v);
    ResolvedValues(hash, ACKNOWLEDGE, v, 0);
    MinusOne(v.address);
  }

  function BufferAddress(hash: VarHash): Option<u32> {
    match GetDspVar(hash, INTERRUPT_BUFFER) case None => None case Some(v) => Some(v.address)
  }

  /** Through any resolver: the package read is the chip's, whatever the memory holds, if and only if the resolver still
      gives the address of the chip's buffer. */
  lemma ReadsChipBufferIff(chip: Chip, hash: VarHash)
    ensures (forall memory: Memory :: BufferIn(memory, hash) == BufferIn(memory, SystemHash(chip))) <==>
              BufferAddress(hash) == BufferAddress(SystemHash(chip))
  {
    hide GetDspVar, SystemHash;
    ChipBuffer(chip);
    var own, there := BufferAddress(SystemHash(chip)), BufferAddress(hash);
    var marked: Memory := Put(_ => 0, own.value, 1);
    if there != own {
      assert Words(marked, own.value, BUFFER_LEN)[0] == 1;
      assert there.Some? ==> Words(marked, there.value, BUFFER_LEN)[0] == 0;
      assert BufferIn(marked, hash) != BufferIn(marked, SystemHash(chip));
    }
  }

  lemma ChipBuffer(chip: Chip)
    ensures GetDspVar(SystemHash(chip), INTERRUPT_BUFFER).Some?
  {
    hide SystemHash, FirstSummand, RemoveBlanks, ToUpper, DialogName;
    DialogRows();
    DialogVariable(chip, 2);
    PlainName(INTERRUPT_BUFFER);
  }

  /** A client's resolver finds the buffer at the last variable of the client that is called CTRLCMDPAR, or at the chip's
      place. */
  lemma ClientBuffer(chip: Chip, vars: seq<DspVar>)
    ensures var hash, last := AddToHash(SystemHash(chip), vars), LastNamed(vars, INTERRUPT_BUFFER);
            && BufferAddress(hash).Some? && BufferAddress(SystemHash(chip)).Some?
            && BufferAddress(hash) == if last.Some? then Some(last.value.address) else BufferAddress(SystemHash(chip))
  {
    hide SystemHash, AddToHash, LastNamed, FirstSummand, RemoveBlanks, ToUpper, GetDspVar, LayoutOf, CalcVarOffset, DialogName;
    DialogRows();
    DialogVariable(chip, 2);
    PlainName(INTERRUPT_BUFFER);
    LastNamedWins(SystemHash(chip), vars, INTERRUPT_BUFFER);
    var hash := AddToHash(SystemHash(chip), vars);
    ResolvedIn(SystemHash(chip), INTERRUPT_BUFFER, INTERRUPT_BUFFER, SystemHash(chip)[INTERRUPT_BUFFER]);
    ResolvedIn(hash, INTERRUPT_BUFFER, INTERRUPT_BUFFER, hash[INTERRUPT_BUFFER]);
  }

  /** The package read through a client's resolver is the chip's, whatever the memory holds, if and only if no variable
      the resolver knows of the client is called CTRLCMDPAR, or the last one that is lies where the chip's buffer is. */
  lemma ClientReadsChipBufferIff(chip: Chip, c: ClientImage)
    ensures var last := LastNamed(Known(c), INTERRUPT_BUFFER);
            (forall memory: Memory :: BufferIn(memory, HashOf(chip, c)) == BufferIn(memory, SystemHash(chip))) <==>
              last == None || Some(last.value.address) == BufferAddress(SystemHash(chip))
  {
    hide SystemHash, AddToHash, BufferAddress, BufferIn, LastNamed;
    ReadsChipBufferIff(chip, HashOf(chip, c));
    ClientBuffer(chip, Known(c));
  }

  lemma ChipBufferAddress(chip: Chip)
    ensures BufferAddress(SystemHash(chip)).Some? && BufferAddress(SystemHash(chip)) != Some(0)
  {
    hide SystemHash, InitSection, SectionSize, DialogName, FirstSummand, RemoveBlanks, ToUpper, GetDspVar, CalcVarOffset;
    DialogRows();
    DialogVariable(chip, 2);
    DialogSectionSize();
    PlainName(INTERRUPT_BUFFER);
    var l := LayoutOf(chip);
    SectionPlaces(DIALOG_WORKSPACE_VARS, l.dialogWorkspace, l.dialogWorkspace - l.dspWorkspace, 2);
    ResolvedIn(SystemHash(chip), INTERRUPT_BUFFER, INTERRUPT_BUFFER, SystemHash(chip)[INTERRUPT_BUFFER]);
  }

  /** The failing input: a first client that has declared a local CTRLCMDPAR. The package is then read from address 0,
      wherever the chip has put it. */
  lemma LocalBufferIsRead(chip: Chip, globals: VarHash, c: ClientImage, memory: Memory)
    ensures var v := DspVar(INTERRUPT_BUFFER, 20, IntType, ModuleLocal, 0, 0);
            var after := SetVarList(chip, globals, c, [Some(v)]);
            && after == c.(vars := [v], detached := None)
            && BufferIn(memory, HashOf(chip, after)) == Some(Words(memory, 0, BUFFER_LEN))
            && BufferAddress(SystemHash(chip)) != Some(0)
  {
    hide SystemHash, AddToHash, LastNamed, SetVarList, GetDspVar, AcceptedCount;
    ChipBufferAddress(chip);
    var v := DspVar(INTERRUPT_BUFFER, 20, IntType, ModuleLocal, 0, 0);
    LocalIsAlwaysAccepted(chip, globals, c, v);
    OnlyOne(v);
    ClientBuffer(chip, [v]);
  }

  /** The failing input: a first client that has declared a local CTRLACK. The acknowledge goes to the address of that
      variable, which is 0 until the next linking, and the chip's word keeps its value. */
  lemma LocalAcknowledgeGoesAstray(chip: Chip, globals: VarHash, c: ClientImage, memory: Memory)
    ensures var v := DspVar(ACKNOWLEDGE, 1, IntType, ModuleLocal, 0, 0);
            var after := SetVarList(chip, globals, c, [Some(v)]);
            && after == c.(vars := [v], detached := None)
            && AckWrites(HashOf(chip, after)) == [(0, CMD_DONE)]
            && Acknowledged(memory, HashOf(chip, after))(AckAddress(SystemHash(chip))) == memory(AckAddress(SystemHash(chip)))
  {
    hide GetVarAddress, SystemHash, HashOf, LastNamed, FirstSummand, RemoveBlanks, ToUpper, GetDspVar, SetVarList, CalcVarOffset,
         AcceptedCount, NamesSystem;
    var v := DspVar(ACKNOWLEDGE, 1, IntType, ModuleLocal, 0, 0);
    LocalIsAlwaysAccepted(chip, globals, c, v);
    ChipAcknowledge(chip);
    PlainName(ACKNOWLEDGE);
    var after := c.(vars := [v], detached := None);
    OnlyOne(v);
    WinnerIsKnown(chip, after, v);
    ResolvedIn(HashOf(chip, after), ACKNOWLEDGE, ACKNOWLEDGE, v);
    ResolvedValues(HashOf(chip, after), ACKNOWLEDGE, v, 0);
    SmallAddress(0);
  }

  lemma OnlyOne(v: DspVar)
    ensures LastNamed([v], v.name) == Some(v)
  {
  }
}
