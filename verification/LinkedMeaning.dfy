/** What the operands of a linked program mean when the DSP runs it: the base registers in force at each client's
    body, and the absolute address each operand denotes. */
module LinkedMeaning {
  import opened MachineWords
  import opened Wrappers
  import opened DspVarOffsetCalc
  import opened DspApi
  import opened DspVarResolver
  import opened DspCmdCompiler
  import opened VarAllocator
  import opened MemoryIsolation
  import opened ZdspClientImage
  import opened ProgramLinker

  const RESET := Regs(None, None)

  // ---------- shape of the linked programs

  /** The state of the linking just before client k. */
  function Before(chip: Chip, cs: seq<ClientImage>, k: nat): Linked
    requires k <= |cs|
  {
    LinkClients(chip, LinkStart(chip, cs), cs[..k])
  }

  lemma BeforeNext(chip: Chip, cs: seq<ClientImage>, k: nat)
    requires k < |cs|
    ensures Before(chip, cs, k + 1) == LinkClient(chip, Before(chip, cs, k), cs[k])
  {
    assert cs[..k + 1][..k] == cs[..k];
  }

  function StartOf(chip: Chip, cs: seq<ClientImage>, k: nat): u32
    requires k <= |cs|
  {
    Before(chip, cs, k).alloc.local
  }

  /** Client k with its variables placed, as its lists are compiled. */
  function Placed(chip: Chip, cs: seq<ClientImage>, k: nat): ClientImage
    requires k < |cs|
  {
    var st := Before(chip, cs, k);
    cs[k].(vars := PlaceVars(st.alloc, st.alloc.local, cs[k].vars).placed[|st.alloc.placed|..])
  }

  lemma StepShape(chip: Chip, cs: seq<ClientImage>, k: nat)
    requires k < |cs| && Before(chip, cs, k + 1).ok
    ensures var st, next := Before(chip, cs, k), Before(chip, cs, k + 1);
            var prologue := [Prologue(chip, cs[k], st.alloc.local)];
            var (compiled, ok, _) := CompileLists(chip, Placed(chip, cs, k));
            && st.ok && ok
            && next.clients == st.clients + [compiled]
            && next.alloc == PlaceVars(st.alloc, st.alloc.local, cs[k].vars)
            && next.cyc == st.cyc + (if cs[k].cyclic.Text? then prologue else []) + compiled.cyclicList
            && next.irq == st.irq + (if cs[k].interrupt.Text? then prologue else []) + compiled.interruptList
  {
    hide CompileLists, PlaceVars, Prologue;
    BeforeNext(chip, cs, k);
  }

  lemma {:induction false} PrefixLinked(chip: Chip, cs: seq<ClientImage>, k: nat, m: nat)
    requires k <= m <= |cs| && Before(chip, cs, m).ok
    ensures Before(chip, cs, k).ok
    ensures Before(chip, cs, k).cyc <= Before(chip, cs, m).cyc && Before(chip, cs, k).irq <= Before(chip, cs, m).irq
    decreases m
  {
    hide Before, CompileLists, PlaceVars, Prologue, Placed;
    if k == m {
    } else {
      StepShape(chip, cs, m - 1);
      PrefixLinked(chip, cs, k, m - 1);
    }
  }

  /** The two programs. */
  datatype Kind = Cyclic | Interrupt

  function ProgramOf(kind: Kind, r: Linked): seq<Instr> {
    match kind case Cyclic => r.cyc case Interrupt => r.irq
  }

  function DefinitionOf(kind: Kind, c: ClientImage): Definition {
    match kind case Cyclic => c.cyclic case Interrupt => c.interrupt
  }

  function ListOf(kind: Kind, c: ClientImage): seq<Instr> {
    match kind case Cyclic => c.cyclicList case Interrupt => c.interruptList
  }

  /** What precedes client k's instructions: everything linked before, and a prologue that carries the client's own
      start address when, and only when, the definition is not empty. */
  function Head(kind: Kind, chip: Chip, cs: seq<ClientImage>, k: nat): seq<Instr>
    requires k < |cs|
  {
    var st := Before(chip, cs, k);
    ProgramOf(kind, st) + if DefinitionOf(kind, cs[k]).Text? then [Prologue(chip, cs[k], st.alloc.local)] else []
  }

  function Body(kind: Kind, chip: Chip, cs: seq<ClientImage>, k: nat): seq<Instr>
    requires k < |cs|
  {
    ListOf(kind, CompileLists(chip, Placed(chip, cs, k)).0)
  }

  /** The linked programs contain every client's list, each right behind its head. */
  lemma BodiesInPlace(kind: Kind, chip: Chip, cs: seq<ClientImage>, k: nat)
    requires k < |cs| && LinkAll(chip, cs).ok
    ensures Head(kind, chip, cs, k) + Body(kind, chip, cs, k) <= ProgramOf(kind, LinkAll(chip, cs))
    ensures Before(chip, cs, k).ok && CompileLists(chip, Placed(chip, cs, k)).1
  {
    hide CompileLists, PlaceVars, Prologue, Before, Placed, LinkAll, EncodeCmd;
    LinkedEnds(chip, cs);
    PrefixLinked(chip, cs, k + 1, |cs|);
    StepShape(chip, cs, k);
  }

  lemma LinkedEnds(chip: Chip, cs: seq<ClientImage>)
    requires LinkAll(chip, cs).ok
    ensures var r, st := LinkAll(chip, cs), Before(chip, cs, |cs|);
            && st.ok && r.alloc == st.alloc && r.clients == st.clients
            && r.cyc == st.cyc + (if cs == [] then [] else [EncodeCmd(DSPINTPOST)]) + [EncodeCmd(INVALID)]
            && r.irq == st.irq + [EncodeCmd(INVALID)]
  {
    hide LinkClients, LinkStart, EncodeCmd;
    assert cs[..|cs|] == cs;
  }

  /** The instructions of a body are those of the definition's commands, none of which failed. */
  lemma BodyOfDefinition(kind: Kind, chip: Chip, c: ClientImage)
    requires DefinitionOf(kind, c).Text? && CompileLists(chip, c).1
    ensures var list, cmds := ListOf(kind, CompileLists(chip, c).0), Commands(DefinitionOf(kind, c).cmds);
            && list == CompileAll(HashOf(chip, c), c.id, DefinitionOf(kind, c).cmds).list
            && |list| == |cmds|
            && forall j :: 0 <= j < |cmds| ==>
                 Compiled(list[j], true) == CompileOne(HashOf(chip, c), c.id, cmds[j].code, cmds[j].params)
  {
    hide CompileOne, HashOf, Commands;
    CompileAllContent(HashOf(chip, c), c.id, DefinitionOf(kind, c).cmds);
    hide CompileAll;
  }

  // ---------- the base in force

  /** A client name table in which the number the server prints is not the name of a variable. */
  ghost predicate NumberIsFree(chip: Chip, c: ClientImage, n: u32) {
    n < 0x8000_0000 && GetDspVar(HashOf(chip, c), Decimal(n)) == None
  }

  lemma NoBaseInBody(kind: Kind, chip: Chip, cs: seq<ClientImage>, k: nat, j: nat)
    requires k < |cs| && LinkAll(chip, cs).ok && DefinitionOf(kind, cs[k]).Text?
    requires NoBaseCmds(DefinitionOf(kind, cs[k]).cmds) && j <= |Body(kind, chip, cs, k)|
    ensures forall i <- Body(kind, chip, cs, k)[..j] :: !SetsBase(i)
  {
    hide CompileLists, CompileAll, HashOf, Before, Placed, LinkAll, NoBaseCmds, SetsBase;
    var body, c := Body(kind, chip, cs, k), Placed(chip, cs, k);
    BodiesInPlace(kind, chip, cs, k);
    BodyIsListOf(kind, chip, cs, k);
    BodyOfDefinition(kind, chip, c);
    PlainBody(HashOf(chip, c), c.id, DefinitionOf(kind, c).cmds);
    forall i <- body[..j] ensures !SetsBase(i) {
      assert i in body;
    }
  }

  lemma HeadEndsWithPrologue(kind: Kind, chip: Chip, cs: seq<ClientImage>, k: nat)
    requires k < |cs| && DefinitionOf(kind, cs[k]).Text?
    ensures Head(kind, chip, cs, k) == ProgramOf(kind, Before(chip, cs, k)) + [Prologue(chip, cs[k], StartOf(chip, cs, k))]
  {
    hide Before, Prologue;
  }

  /** While its commands run, a client with a non-empty definition has its own start address as the base, whatever
      the clients before it did to the register. */
  lemma RunsUnderOwnBase(kind: Kind, chip: Chip, cs: seq<ClientImage>, k: nat, j: nat, regs: Regs)
    requires k < |cs| && LinkAll(chip, cs).ok && DefinitionOf(kind, cs[k]).Text?
    requires NoBaseCmds(DefinitionOf(kind, cs[k]).cmds) && j <= |Body(kind, chip, cs, k)|
    requires NumberIsFree(chip, cs[k], StartOf(chip, cs, k))
    ensures Exec(regs, Head(kind, chip, cs, k) + Body(kind, chip, cs, k)[..j]).user == Some(StartOf(chip, cs, k))
  {
    hide Before, Prologue, LinkAll, NoBaseCmds, Body, Head, SetsBase, Exec, Exec1, StartOf, NumberIsFree;
    var program, start := ProgramOf(kind, Before(chip, cs, k)), StartOf(chip, cs, k);
    NoBaseInBody(kind, chip, cs, k, j);
    ExecAppend(regs, Head(kind, chip, cs, k), Body(kind, chip, cs, k)[..j]);
    ExecPlain(Exec(regs, Head(kind, chip, cs, k)), Body(kind, chip, cs, k)[..j]);
    HeadEndsWithPrologue(kind, chip, cs, k);
    ExecOneMore(regs, program, Prologue(chip, cs[k], start));
    FreePrologue(chip, cs[k], start, Exec(regs, program));
  }

  lemma FreePrologue(chip: Chip, c: ClientImage, start: u32, regs: Regs)
    requires NumberIsFree(chip, c, start)
    ensures Exec1(regs, Prologue(chip, c, start)).user == Some(start)
  {
    hide HashOf, Decimal, NumberCmd, GetDspVar;
    NumberCmdDecodes(HashOf(chip, c), c.id, USERMEMOFFSET, start);
  }

  // ---------- the address an operand denotes

  lemma AcceptedOffsetsAreInts(name: string, token: string)
    ensures CalcVarOffset(name, token).Some? ==> CalcVarOffset(name, token).value < 0x8000_0000
  {
  }

  /** The 15-bit bound, exactly: an accepted 16-bit operand, added to the client's base, is the address the server
      itself reads and writes for that text if and only if the word lies less than 32768 words above the base. */
  lemma OperandDenotesAddress(hash: VarHash, token: string, base: u32)
    requires Target(hash, token).Some? && base < 0x7000_0000
    requires var v := Target(hash, token).value.0; v.address < 0x8000_0000 && v.offset == Wrap32(v.address - base)
    requires ToShort(GetVarOffset(hash, token)) >= 0
    ensures var (v, word) := Target(hash, token).value;
            base + ToShort(GetVarOffset(hash, token)) == GetVarAddress(hash, token)
            <==> 0 <= v.address + word - base < 0x8000
  {
    hide GetDspVar, CalcVarOffset, CalcOffset, ToShort, ToInt32;
    var (v, word) := Target(hash, token).value;
    AcceptedOffsetsAreInts(v.name, token);
    assert GetVarOffset(hash, token) == ToInt32(v.offset + word);
    assert GetVarAddress(hash, token) == ToInt32(v.address + word);
    OffsetGap(v.address, base, word);
    DistanceThroughShort(v.address + word, base, v.offset + word);
  }

  lemma OffsetGap(address: int, base: int, word: int)
    ensures (Wrap32(address - base) + word - (address + word - base)) % 0x1_0000_0000 == 0
  {
    var d := address - base;
    assert d == Wrap32(d) + 0x1_0000_0000 * (d / 0x1_0000_0000);
  }

  lemma DistanceThroughShort(address: int, base: int, offset: int)
    requires 0 <= address < 0x1_0000_0000 && 0 <= base < 0x7000_0000
    requires (offset - (address - base)) % 0x1_0000_0000 == 0
    requires ToShort(ToInt32(offset)) >= 0
    ensures base + ToShort(ToInt32(offset)) == ToInt32(address) <==> 0 <= address - base < 0x8000
    ensures 0 <= address - base < 0x8000 ==> ToInt32(offset) == address - base
  {
    var d := address - base;
    assert offset == d + 0x1_0000_0000 * ((offset - d) / 0x1_0000_0000);
    SameLowBits(offset, d);
    if address < 0x8000_0000 {
      assert ToInt32(address) == address;
    } else {
      assert ToInt32(address) < 0;
    }
  }

  lemma SameLowBits(a: int, d: int)
    requires (a - d) % 0x1_0000_0000 == 0 && -0x7000_0000 <= d < 0x1_0000_0000
    ensures Wrap32(a) == Wrap32(d) && ToInt32(a) == ToInt32(d) && ToShort(ToInt32(a)) == ToShort(d)
  {
    var q := (a - d) / 0x1_0000_0000;
    assert a == d + 0x1_0000_0000 * q;
    assert Wrap32(a) == Wrap32(d);
    var t := ToInt32(d);
    assert t == d || t == d - 0x1_0000_0000 || t == d + 0x1_0000_0000;
    assert Wrap16(t) == Wrap16(d) by {
      assert (d - 0x1_0000 * 0x1_0000) % 0x1_0000 == d % 0x1_0000;
      assert (d + 0x1_0000 * 0x1_0000) % 0x1_0000 == d % 0x1_0000;
    }
  }

  // ---------- what a client's resolver knows after its variables are placed

  lemma {:induction false} PlacedOffsets(st: Alloc, clientStart: u32, vars: seq<DspVar>, i: nat)
    requires i < |vars|
    ensures var p := PlaceVars(st, clientStart, vars).placed[|st.placed| + i];
            && p == vars[i].(address := p.address, offset := p.offset)
            && (p.segment != DspInternal ==> p.offset == Wrap32(p.address - clientStart))
  {
    if i == |vars| - 1 {
    } else {
      PlacedOffsets(st, clientStart, vars[..|vars| - 1], i);
    }
  }

  /** A name that does not resolve to a DSP internal variable resolves to a variable of the client, with the offset
      from the client's own start. */
  lemma ResolvedVariables(chip: Chip, cs: seq<ClientImage>, k: nat, token: string)
    requires k < |cs| && cs[k].detached == None
    requires var h := HashOf(chip, Placed(chip, cs, k)); Target(h, token).Some? && Target(h, token).value.0.segment != DspInternal
    ensures var v := Target(HashOf(chip, Placed(chip, cs, k)), token).value.0;
            v in Placed(chip, cs, k).vars && v.offset == Wrap32(v.address - StartOf(chip, cs, k))
  {
    hide Before, CalcVarOffset, SystemHash, FirstSummand, ToUpper, RemoveBlanks, PlaceVars, AddToHash, KeyedByName;
    var st, c := Before(chip, cs, k), Placed(chip, cs, k);
    var h := HashOf(chip, c);
    var n := FirstSummand(RemoveBlanks(ToUpper(token))).value;
    assert n in h && h[n] == Target(h, token).value.0;
    AddToHashOrigin(SystemHash(chip), c.vars, n);
    SystemVariables(chip);
    var i :| 0 <= i < |c.vars| && c.vars[i] == h[n];
    PlacedOffsets(st.alloc, st.alloc.local, cs[k].vars, i);
  }

  /** The operands the DSP adds to a base: 16-bit ones, except the slot the client id is written to. */
  predicate Relative(details: CmdDetails, p: nat) {
    && ClientIdSlot(details) != Some(p)
    && match details.cmdClass
       case Cmd1i16 => p == 0
       case Cmd2i16 => p < 2
       case Cmd3i16 => p < 3
       case Cmd1i161fi32 => p == 0
       case _ => false
  }

  lemma AssembledOperand(details: CmdDetails, id: u16, c: CmdCode, o: Operands, p: nat)
    requires o.p0 < 0x8000 && o.p1 < 0x8000 && o.p2 < 0x8000
    requires Assemble(details, id, c, o).ok && Relative(details, p)
    ensures p < 3 && p < |Wanted(details.cmdClass, o)|
    ensures Wanted(details.cmdClass, o)[p] == (if p == 0 then o.p0 else if p == 1 then o.p1 else o.p2) >= 0
  {
    hide WithClientId, Encode2x16, Encode3x16, Encode1x16;
  }

  lemma OperandOfInstr(hash: VarHash, id: u16, c: CmdCode, params: seq<Token>, p: nat)
    requires CompileOne(hash, id, Some(c), params).ok && Relative(DspCmd(c), p)
    ensures var i := CompileOne(hash, id, Some(c), params).instr;
            CodeOf(i) == c && p < |DecodeOperands(i)| && DecodeOperands(i)[p] == Operand16(hash, params, p) >= 0
  {
    hide GetVarOffset, Operand32, DspCmd, Wanted, Assemble, Relative;
    CompiledDecodes(hash, id, c, params);
    AssembledOperand(DspCmd(c), id, c, ReadAll(hash, params), p);
    hide ToShort, ReadAll;
    RelativeIsNoId(DspCmd(c), p);
    ReadAllIs(hash, params);
  }

  lemma RelativeIsNoId(details: CmdDetails, p: nat)
    requires Relative(details, p)
    ensures ClientIdSlot(details) != Some(p)
  {
  }

  lemma ReadAllIs(hash: VarHash, params: seq<Token>)
    ensures var o := ReadAll(hash, params);
            o.p0 == Operand16(hash, params, 0) && o.p1 == Operand16(hash, params, 1) && o.p2 == Operand16(hash, params, 2)
  {
    hide Operand16, Operand32, GetVarOffset;
  }

  /** A client whose linked commands are judged: it has a definition that leaves the base registers alone, a
      resolver that knows its current variables, and no variable named like its start address. */
  ghost predicate Judged(kind: Kind, chip: Chip, cs: seq<ClientImage>, k: nat) {
    && k < |cs| && LinkAll(chip, cs).ok
    && DefinitionOf(kind, cs[k]).Text? && NoBaseCmds(DefinitionOf(kind, cs[k]).cmds)
    && cs[k].detached == None && StartOf(chip, cs, k) < 0x7000_0000
    && NumberIsFree(chip, cs[k], StartOf(chip, cs, k))
  }

  /** Operand p of command j names this word of this variable of the workspace. */
  ghost predicate Names(cmd: CmdLine, p: nat, hash: VarHash, v: DspVar, word: nat) {
    && cmd.Command? && cmd.code.Some? && Relative(DspCmd(cmd.code.value), p)
    && Target(hash, ParamText(cmd.params, p)) == Some((v, word))
    && v.segment != DspInternal && v.address < 0x8000_0000
  }

  /** At this place of the program stands that command, the base is in force, and base plus operand is the address
      of the operand's text if and only if the word is within reach of the base. */
  ghost predicate DenotesAddress(program: seq<Instr>, at: nat, regs: Regs, base: u32,
                                 cmd: CmdLine, p: nat, hash: VarHash, v: DspVar, word: nat) {
    && cmd.Command? && cmd.code.Some?
    && at < |program| && CodeOf(program[at]) == cmd.code.value && p < |DecodeOperands(program[at])|
    && Exec(regs, program[..at]).user == Some(base)
    && (base + DecodeOperands(program[at])[p] == GetVarAddress(hash, ParamText(cmd.params, p))
        <==> 0 <= v.address + word - base < 0x8000)
  }

  lemma InstrDenotesAddress(program: seq<Instr>, at: nat, regs: Regs, base: u32, id: u16,
                            cmd: CmdLine, p: nat, hash: VarHash, v: DspVar, word: nat)
    requires Names(cmd, p, hash, v, word) && v.offset == Wrap32(v.address - base) && base < 0x7000_0000
    requires at < |program| && Exec(regs, program[..at]).user == Some(base)
    requires Compiled(program[at], true) == CompileOne(hash, id, cmd.code, cmd.params)
    ensures DenotesAddress(program, at, regs, base, cmd, p, hash, v, word)
  {
    hide CompileOne, Exec, DecodeOperands, GetVarOffset, GetVarAddress, Target, Relative, DspCmd, ToShort;
    OperandOfInstr(hash, id, cmd.code.value, cmd.params, p);
    OperandDenotesAddress(hash, ParamText(cmd.params, p), base);
  }

  /** Translation preserves meaning. When a linked program reaches command j of client k, the base register and a
      16-bit operand together give the address that the server reads and writes for the operand's text, exactly
      when that word lies within 32768 words above the client's start. */
  lemma LinkedOperandDenotesAddress(kind: Kind, chip: Chip, cs: seq<ClientImage>, k: nat, j: nat, p: nat, regs: Regs,
                                    v: DspVar, word: nat)
    requires Judged(kind, chip, cs, k) && j < |Commands(DefinitionOf(kind, cs[k]).cmds)|
    requires Names(Commands(DefinitionOf(kind, cs[k]).cmds)[j], p, HashOf(chip, Placed(chip, cs, k)), v, word)
    ensures DenotesAddress(ProgramOf(kind, LinkAll(chip, cs)), |Head(kind, chip, cs, k)| + j, regs, StartOf(chip, cs, k),
                           Commands(DefinitionOf(kind, cs[k]).cmds)[j], p, HashOf(chip, Placed(chip, cs, k)), v, word)
  {
    hide CompileLists, CompileOne, LinkAll, Head, Body, HashOf, Before, Commands, Names, DenotesAddress;
    var cmds := Commands(DefinitionOf(kind, cs[k]).cmds);
    var c := Placed(chip, cs, k);
    var hash := HashOf(chip, c);
    var program, head, body := ProgramOf(kind, LinkAll(chip, cs)), Head(kind, chip, cs, k), Body(kind, chip, cs, k);
    BodiesInPlace(kind, chip, cs, k);
    BodyIsListOf(kind, chip, cs, k);
    BodyOfDefinition(kind, chip, c);
    RunsUnderOwnBase(kind, chip, cs, k, j, regs);
    NamesResolved(chip, cs, k, cmds[j], p, v, word);
    InPlace(program, head, body, j);
    InstrDenotesAddress(program, |head| + j, regs, StartOf(chip, cs, k), c.id, cmds[j], p, hash, v, word);
  }

  lemma InPlace(program: seq<Instr>, head: seq<Instr>, body: seq<Instr>, j: nat)
    requires head + body <= program && j < |body|
    ensures |head| + j < |program| && program[|head| + j] == body[j] && program[..|head| + j] == head + body[..j]
  {
    assert program[..|head| + j] == (head + body)[..|head| + j];
  }

  lemma BodyIsListOf(kind: Kind, chip: Chip, cs: seq<ClientImage>, k: nat)
    requires k < |cs|
    ensures Body(kind, chip, cs, k) == ListOf(kind, CompileLists(chip, Placed(chip, cs, k)).0)
    ensures DefinitionOf(kind, Placed(chip, cs, k)) == DefinitionOf(kind, cs[k])
  {
    hide CompileLists, PlaceVars, Before;
  }

  lemma NamesResolved(chip: Chip, cs: seq<ClientImage>, k: nat, cmd: CmdLine, p: nat, v: DspVar, word: nat)
    requires k < |cs| && cs[k].detached == None && Names(cmd, p, HashOf(chip, Placed(chip, cs, k)), v, word)
    ensures v in Placed(chip, cs, k).vars && v.offset == Wrap32(v.address - StartOf(chip, cs, k))
  {
    hide HashOf, Placed, Before, Target, ParamText;
    ResolvedVariables(chip, cs, k, ParamText(cmd.params, p));
  }

  // ---------- clients that fit

  function Lists(cs: seq<ClientImage>): seq<seq<DspVar>> {
    if cs == [] then [] else Lists(cs[..|cs| - 1]) + [cs[|cs| - 1].vars]
  }

  lemma LinkerStarts(chip: Chip, cs: seq<ClientImage>)
    ensures Before(chip, cs, 0).alloc == Start(LayoutOf(chip)) && Lists(cs[..0]) == []
  {
    assert cs[..0] == [];
    hide NumberCmd;
  }

  /** The linker places the variables as the allocator does. */
  lemma {:induction false} LinkerAllocates(chip: Chip, cs: seq<ClientImage>, k: nat)
    requires k <= |cs| && Before(chip, cs, k).ok
    ensures Before(chip, cs, k).alloc == PlaceLists(Start(LayoutOf(chip)), Lists(cs[..k]))
  {
    hide Before, CompileLists, PlaceVars, Prologue, Placed, Lists, LinkClients, LinkStart, Start, LayoutOf;
    if k == 0 {
      LinkerStarts(chip, cs);
    } else {
      StepShape(chip, cs, k - 1);
      LinkerAllocates(chip, cs, k - 1);
      ListsNext(cs, k - 1);
      var lists := Lists(cs[..k]);
      assert lists[..|lists| - 1] == Lists(cs[..k - 1]);
    }
  }

  lemma ListsNext(cs: seq<ClientImage>, k: nat)
    requires k < |cs|
    ensures Lists(cs[..k + 1]) == Lists(cs[..k]) + [cs[k].vars]
    ensures Flatten(Lists(cs[..k + 1])) == Flatten(Lists(cs[..k])) + cs[k].vars
  {
    assert cs[..k + 1][..k] == cs[..k];
    var lists := Lists(cs[..k]) + [cs[k].vars];
    assert lists[..|lists| - 1] == Lists(cs[..k]);
  }

  lemma {:induction false} FlattenPrefix(cs: seq<ClientImage>, k: nat, m: nat)
    requires k <= m <= |cs|
    ensures Flatten(Lists(cs[..k])) <= Flatten(Lists(cs[..m]))
    decreases m
  {
    hide Flatten, Lists;
    if k == m {
    } else {
      ListsNext(cs, m - 1);
      FlattenPrefix(cs, k, m - 1);
    }
  }

  lemma {:induction false} TotalsPrefix(a: seq<DspVar>, b: seq<DspVar>, segment: Segment)
    ensures SegmentTotal(a, segment) <= SegmentTotal(a + b, segment)
    ensures GlobalTotal(a) <= GlobalTotal(a + b)
  {
    if b == [] {
      assert a + b == a;
    } else {
      var front := b[..|b| - 1];
      TotalsPrefix(a, front, segment);
      TotalsStep(a + front, b[|b| - 1], segment);
      assert a + b == a + front + [b[|b| - 1]];
    }
  }

  lemma FitsPrefix(l: Layout, a: seq<DspVar>, b: seq<DspVar>)
    requires Fits(l, a + b)
    ensures Fits(l, a)
  {
    TotalsPrefix(a, b, ModuleLocal);
    TotalsPrefix(a, b, ModuleAligned);
    assert forall v <- a :: v in a + b;
  }

  lemma {:induction false} LocalsAbove(l: Layout, seen: seq<DspVar>, st: Alloc, clientStart: u32, vars: seq<DspVar>, i: nat)
    requires l.Sound() && Accounts(l, seen, st) && Fits(l, seen + vars) && i < |vars| && vars[i].segment == ModuleLocal
    ensures PlaceVars(st, clientStart, vars).placed[|st.placed| + i].address >= st.local
  {
    hide Fits, Accounts, SegmentTotal;
    var front, last := vars[..|vars| - 1], vars[|vars| - 1];
    assert seen + vars == seen + front + [last];
    FitsPrefix(l, seen + front, [last]);
    if i < |front| {
      LocalsAbove(l, seen, st, clientStart, front, i);
    } else {
      FitsPrefix(l, seen, front);
      AccountsVars(l, seen, st, clientStart, front);
      TotalsPrefix(seen, front, ModuleLocal);
      LocalPointerMoved(l, seen, front, st, PlaceVars(st, clientStart, front));
    }
  }

  ghost predicate ClientsFit(chip: Chip, cs: seq<ClientImage>) {
    GlobalsAgree(Flatten(Lists(cs))) && Fits(LayoutOf(chip), Flatten(Lists(cs)))
  }

  lemma FittingStates(chip: Chip, cs: seq<ClientImage>, k: nat)
    requires k <= |cs| && Before(chip, cs, k).ok && ClientsFit(chip, cs)
    ensures Fits(LayoutOf(chip), Flatten(Lists(cs[..k]))) && GlobalsAgree(Flatten(Lists(cs[..k])))
    ensures Accounts(LayoutOf(chip), Flatten(Lists(cs[..k])), Before(chip, cs, k).alloc)
    ensures Good(LayoutOf(chip), Before(chip, cs, k).alloc)
  {
    hide Before, Fits, GlobalsAgree, Accounts, Good, Isolated;
    assert cs[..|cs|] == cs;
    var seen, all := Flatten(Lists(cs[..k])), Flatten(Lists(cs));
    FlattenPrefix(cs, k, |cs|);
    assert all == seen + all[|seen|..];
    FitsPrefix(LayoutOf(chip), seen, all[|seen|..]);
    AgreesPrefix(seen, all[|seen|..]);
    LinkerAllocates(chip, cs, k);
    ExactLists(LayoutOf(chip), Lists(cs[..k]));
  }

  lemma PlacedWithinReach(l: Layout, st: Alloc, st': Alloc, v: DspVar, word: nat)
    requires l.Sound() && Ordered(l, st) && Ordered(l, st') && Bounded(l, st', v) && st.local <= st'.local
    requires v.segment != DspInternal && word < v.size && (v.segment == ModuleLocal ==> v.address >= st.local)
    ensures 0 <= v.address + word - st.local < 0x8000 && v.address < 0x10_0000 && st.local < 0x10_0000
  {
  }

  /** Clients that fit reach every word of every variable they name: start and addresses are small enough and the
      distance is below 32768, on both chips. */
  lemma FittingWordsWithinReach(chip: Chip, cs: seq<ClientImage>, k: nat, v: DspVar, word: nat)
    requires k < |cs| && Before(chip, cs, k + 1).ok && ClientsFit(chip, cs)
    requires v in Placed(chip, cs, k).vars && v.segment != DspInternal && word < v.size
    ensures 0 <= v.address + word - StartOf(chip, cs, k) < 0x8000
    ensures v.address < 0x8000_0000 && StartOf(chip, cs, k) < 0x7000_0000
  {
    hide Before, CompileLists, Flatten, Lists, Fits, GlobalsAgree, Good, Accounts, PlaceVars, Prologue, LayoutOf;
    var l := LayoutOf(chip);
    StepShape(chip, cs, k);
    FittingStates(chip, cs, k);
    FittingStates(chip, cs, k + 1);
    ListsNext(cs, k);
    var st, st' := Before(chip, cs, k).alloc, Before(chip, cs, k + 1).alloc;
    var seen, vars := Flatten(Lists(cs[..k])), cs[k].vars;
    var i :| 0 <= i < |vars| && Placed(chip, cs, k).vars[i] == v;
    PlacedOffsets(st, st.local, vars, i);
    assert v == st'.placed[|st.placed| + i];
    if v.segment == ModuleLocal {
      LocalsAbove(l, seen, st, st.local, vars, i);
    }
    TotalsPrefix(seen, vars, ModuleLocal);
    LocalPointerMoved(l, seen, vars, st, st');
    BoundedAt(l, st', |st.placed| + i);
    BoundedAt(l, st, 0);
    PlacedWithinReach(l, st, st', v, word);
  }

  lemma BoundedAt(l: Layout, st: Alloc, i: nat)
    requires Good(l, st)
    ensures Ordered(l, st) && (i < |st.placed| ==> Bounded(l, st, st.placed[i]))
  {
  }

  lemma FittingLocalPointer(l: Layout, seen: seq<DspVar>, st: Alloc)
    requires l.Sound() && Accounts(l, seen, st) && Fits(l, seen)
    ensures st.local == l.userWorkspace + SegmentTotal(seen, ModuleLocal)
  {
    hide SegmentTotal, GlobalTotal, GlobalSizes;
  }

  lemma LocalPointerMoved(l: Layout, seen: seq<DspVar>, vars: seq<DspVar>, st: Alloc, st': Alloc)
    requires l.Sound() && Accounts(l, seen, st) && Accounts(l, seen + vars, st') && Fits(l, seen) && Fits(l, seen + vars)
    requires SegmentTotal(seen, ModuleLocal) <= SegmentTotal(seen + vars, ModuleLocal)
    ensures st.local <= st'.local
  {
    hide SegmentTotal, Accounts, Fits;
    FittingLocalPointer(l, seen, st);
    FittingLocalPointer(l, seen + vars, st');
  }

  /** With clients that fit, base plus operand is the address for every word of every variable a command names. */
  lemma FittingOperandsDenoteAddresses(kind: Kind, chip: Chip, cs: seq<ClientImage>, k: nat, j: nat, p: nat, regs: Regs,
                                       v: DspVar, word: nat)
    requires ClientsFit(chip, cs) && Judged(kind, chip, cs, k) && j < |Commands(DefinitionOf(kind, cs[k]).cmds)|
    requires Names(Commands(DefinitionOf(kind, cs[k]).cmds)[j], p, HashOf(chip, Placed(chip, cs, k)), v, word)
    requires word < v.size
    ensures var program, at := ProgramOf(kind, LinkAll(chip, cs)), |Head(kind, chip, cs, k)| + j;
            var cmd := Commands(DefinitionOf(kind, cs[k]).cmds)[j];
            OperandIsAddress(program, at, regs, cmd, p, GetVarAddress(HashOf(chip, Placed(chip, cs, k)), ParamText(cmd.params, p)))
  {
    hide LinkAll, Head, HashOf, Before, Placed, Commands, Names, GetVarAddress, ClientsFit, CompileLists, Exec, DecodeOperands,
         StartOf, DenotesAddress, OperandIsAddress;
    var program, at := ProgramOf(kind, LinkAll(chip, cs)), |Head(kind, chip, cs, k)| + j;
    var cmd, hash := Commands(DefinitionOf(kind, cs[k]).cmds)[j], HashOf(chip, Placed(chip, cs, k));
    LinkedOperandDenotesAddress(kind, chip, cs, k, j, p, regs, v, word);
    LinkedPrefix(chip, cs, k + 1);
    NamesResolved(chip, cs, k, cmd, p, v, word);
    NamesUser(cmd, p, hash, v, word);
    FittingWordsWithinReach(chip, cs, k, v, word);
    DenotedIsAddress(program, at, regs, StartOf(chip, cs, k), cmd, p, hash, v, word);
  }

  lemma DenotedIsAddress(program: seq<Instr>, at: nat, regs: Regs, base: u32, cmd: CmdLine, p: nat, hash: VarHash, v: DspVar,
                         word: nat)
    requires DenotesAddress(program, at, regs, base, cmd, p, hash, v, word) && 0 <= v.address + word - base < 0x8000
    ensures OperandIsAddress(program, at, regs, cmd, p, GetVarAddress(hash, ParamText(cmd.params, p)))
  {
    hide GetVarAddress, Exec, DecodeOperands;
  }

  lemma NamesUser(cmd: CmdLine, p: nat, hash: VarHash, v: DspVar, word: nat)
    requires Names(cmd, p, hash, v, word)
    ensures v.segment != DspInternal
  {
  }

  lemma LinkedPrefix(chip: Chip, cs: seq<ClientImage>, k: nat)
    requires k <= |cs| && LinkAll(chip, cs).ok
    ensures Before(chip, cs, k).ok
  {
    LinkedEnds(chip, cs);
    PrefixLinked(chip, cs, k, |cs|);
  }

  /** On arrival at this place the user base is set, and base plus operand p is the given address. */
  ghost predicate OperandIsAddress(program: seq<Instr>, at: nat, regs: Regs, cmd: CmdLine, p: nat, address: int) {
    && at < |program| && cmd.Command? && Some(CodeOf(program[at])) == cmd.code && p < |DecodeOperands(program[at])|
    && Exec(regs, program[..at]).user.Some?
    && Exec(regs, program[..at]).user.value + DecodeOperands(program[at])[p] == address
  }
}
