/** Which base registers are in force at each client's instructions, for all programs: the DSP base, and the user
    base of a client whose emptied definition left an older compiled list behind. */
module LinkedBases {
  import opened MachineWords
  import opened Wrappers
  import opened DspVarOffsetCalc
  import opened DspApi
  import opened DspVarResolver
  import opened DspCmdCompiler
  import opened VarAllocator
  import opened MemoryIsolation
  import opened ZdspClientImage
  import opened ProgramLinker
  import opened LinkedMeaning

  // ---------- the user base

  /** No command of any client, current or left over, moves a base register, and no client has a variable named
      like its start address. */
  ghost predicate BasesLeftAlone(kind: Kind, chip: Chip, cs: seq<ClientImage>) {
    forall k :: 0 <= k < |cs| ==> BaseLeftAlone(kind, chip, cs, k)
  }

  ghost predicate BaseLeftAlone(kind: Kind, chip: Chip, cs: seq<ClientImage>, k: nat)
    requires k < |cs|
  {
    match DefinitionOf(kind, cs[k])
    case Text(cmds) => NoBaseCmds(cmds) && NumberIsFree(chip, cs[k], StartOf(chip, cs, k))
    case NoText => forall i <- ListOf(kind, cs[k]) :: !SetsBase(i)
  }

  /** The last client before k that has a definition. */
  function LastText(kind: Kind, cs: seq<ClientImage>, k: nat): (last: Option<nat>)
    requires k <= |cs|
    ensures last.Some? ==> last.value < k && DefinitionOf(kind, cs[last.value]).Text?
    ensures forall i :: (if last.Some? then last.value + 1 else 0) <= i < k ==> DefinitionOf(kind, cs[i]).NoText?
  {
    if k == 0 then None
    else if DefinitionOf(kind, cs[k - 1]).Text? then Some(k - 1)
    else LastText(kind, cs, k - 1)
  }

  lemma LeftOverBody(kind: Kind, chip: Chip, c: ClientImage)
    requires DefinitionOf(kind, c).NoText? && CompileLists(chip, c).1
    ensures ListOf(kind, CompileLists(chip, c).0) == ListOf(kind, c)
  {
    hide CompileAll, HashOf;
  }

  lemma ProgramStep(kind: Kind, chip: Chip, cs: seq<ClientImage>, k: nat)
    requires k < |cs| && LinkAll(chip, cs).ok
    ensures ProgramOf(kind, Before(chip, cs, k + 1)) == Head(kind, chip, cs, k) + Body(kind, chip, cs, k)
  {
    hide CompileLists, PlaceVars, Prologue, Before, Placed, LinkAll;
    LinkedPrefix(chip, cs, k + 1);
    StepShape(chip, cs, k);
  }

  lemma LeftOverStep(kind: Kind, chip: Chip, cs: seq<ClientImage>, k: nat, regs: Regs)
    requires k < |cs| && LinkAll(chip, cs).ok && DefinitionOf(kind, cs[k]).NoText?
    requires forall i <- ListOf(kind, cs[k]) :: !SetsBase(i)
    ensures Exec(regs, ProgramOf(kind, Before(chip, cs, k + 1))) == Exec(regs, ProgramOf(kind, Before(chip, cs, k)))
    ensures Head(kind, chip, cs, k) == ProgramOf(kind, Before(chip, cs, k))
    ensures Body(kind, chip, cs, k) == ListOf(kind, cs[k])
  {
    hide CompileLists, Before, LinkAll, SetsBase;
    ProgramStep(kind, chip, cs, k);
    BodiesInPlace(kind, chip, cs, k);
    LeftOverBody(kind, chip, Placed(chip, cs, k));
    BodyIsListOf(kind, chip, cs, k);
    var program, body := ProgramOf(kind, Before(chip, cs, k)), Body(kind, chip, cs, k);
    assert Head(kind, chip, cs, k) == program;
    hide Head, Body;
    ExecAppend(regs, program, body);
    ExecPlain(Exec(regs, program), body);
  }

  lemma OwnBaseStays(kind: Kind, chip: Chip, cs: seq<ClientImage>, k: nat, regs: Regs)
    requires k < |cs| && LinkAll(chip, cs).ok && DefinitionOf(kind, cs[k]).Text?
    requires NoBaseCmds(DefinitionOf(kind, cs[k]).cmds) && NumberIsFree(chip, cs[k], StartOf(chip, cs, k))
    ensures Exec(regs, ProgramOf(kind, Before(chip, cs, k + 1))).user == Some(StartOf(chip, cs, k))
  {
    hide CompileLists, Before, LinkAll, NumberIsFree, NoBaseCmds, Head, Body;
    var body := Body(kind, chip, cs, k);
    ProgramStep(kind, chip, cs, k);
    RunsUnderOwnBase(kind, chip, cs, k, |body|, regs);
    assert body[..|body|] == body;
  }

  /** Between two clients the user base is the start of the last client that has a definition. */
  lemma {:induction false} UserBaseBetween(kind: Kind, chip: Chip, cs: seq<ClientImage>, k: nat, regs: Regs)
    requires k <= |cs| && LinkAll(chip, cs).ok && BasesLeftAlone(kind, chip, cs)
    ensures var last := LastText(kind, cs, k);
            Exec(regs, ProgramOf(kind, Before(chip, cs, k))).user
            == if last.Some? then Some(StartOf(chip, cs, last.value)) else regs.user
  {
    hide CompileLists, Before, LinkAll, SetsBase, NumberIsFree, NoBaseCmds, Head, Body;
    if k == 0 {
      FirstInstr(kind, chip, cs, regs);
    } else {
      UserBaseBetween(kind, chip, cs, k - 1, regs);
      assert BaseLeftAlone(kind, chip, cs, k - 1);
      if DefinitionOf(kind, cs[k - 1]).Text? {
        OwnBaseStays(kind, chip, cs, k - 1, regs);
      } else {
        LeftOverStep(kind, chip, cs, k - 1, regs);
      }
    }
  }

  lemma NumberCmdCode(hash: VarHash, id: u16, code: CmdCode, n: nat)
    ensures CodeOf(NumberCmd(hash, id, code, n)) == code || CodeOf(NumberCmd(hash, id, code, n)) == INVALID
  {
    var params := [Token(Decimal(n), None)];
    FailedIsZero(hash, id, Some(code), params);
    if CompileOne(hash, id, Some(code), params).ok {
      CompiledDecodes(hash, id, code, params);
    }
    hide CompileOne;
  }

  lemma FirstInstr(kind: Kind, chip: Chip, cs: seq<ClientImage>, regs: Regs)
    ensures Exec(regs, ProgramOf(kind, Before(chip, cs, 0))).user == regs.user
  {
    hide Before, NumberCmd, HashOf, CodeOf, LayoutOf, Exec;
    ExecNothing(regs);
    if kind == Cyclic && cs != [] {
      CyclicStart(chip, cs);
      DspBaseCmdKeepsUser(HashOf(chip, cs[0]), cs[0].id, LayoutOf(chip).dspWorkspace, regs);
    } else if kind == Cyclic {
      NothingLinked(chip);
    } else {
      NoInterruptYet(chip, cs);
    }
  }

  lemma ExecNothing(regs: Regs)
    ensures Exec(regs, []) == regs
  {
  }

  lemma DspBaseCmdKeepsUser(hash: VarHash, id: u16, n: nat, regs: Regs)
    ensures Exec(regs, [NumberCmd(hash, id, DSPMEMOFFSET, n)]).user == regs.user
  {
    hide NumberCmd, CodeOf, Exec;
    NumberCmdCode(hash, id, DSPMEMOFFSET, n);
    ExecSingle(regs, NumberCmd(hash, id, DSPMEMOFFSET, n));
  }

  lemma ExecSingle(regs: Regs, i: Instr)
    ensures Exec(regs, [i]) == Exec1(regs, i)
  {
    assert [i][..0] == [];
  }

  lemma CyclicStart(chip: Chip, cs: seq<ClientImage>)
    requires cs != []
    ensures Before(chip, cs, 0).cyc == [NumberCmd(HashOf(chip, cs[0]), cs[0].id, DSPMEMOFFSET, LayoutOf(chip).dspWorkspace)]
  {
    hide NumberCmd, HashOf, LayoutOf;
    assert cs[..0] == [];
  }

  lemma NothingLinked(chip: Chip)
    ensures Before(chip, [], 0).cyc == []
  {
    hide NumberCmd;
  }

  /** The local words of the clients before k. */
  function LocalWords(cs: seq<ClientImage>, k: nat): nat
    requires k <= |cs|
  {
    SegmentTotal(Flatten(Lists(cs[..k])), ModuleLocal)
  }

  lemma FittingStart(chip: Chip, cs: seq<ClientImage>, k: nat)
    requires k <= |cs| && Before(chip, cs, k).ok && ClientsFit(chip, cs)
    ensures StartOf(chip, cs, k) == LayoutOf(chip).userWorkspace + LocalWords(cs, k)
  {
    hide Before, ClientsFit, Good, SegmentTotal, Accounts, Fits;
    FittingStates(chip, cs, k);
    FittingLocalPointer(LayoutOf(chip), Flatten(Lists(cs[..k])), Before(chip, cs, k).alloc);
  }

  /** The user base at the first instruction of a client. */
  function BaseAt(kind: Kind, chip: Chip, cs: seq<ClientImage>, k: nat): Option<u32>
    requires k < |cs|
  {
    Exec(RESET, Head(kind, chip, cs, k)).user
  }

  lemma BaseOfDefinition(kind: Kind, chip: Chip, cs: seq<ClientImage>, k: nat)
    requires k < |cs| && LinkAll(chip, cs).ok && DefinitionOf(kind, cs[k]).Text? && BaseLeftAlone(kind, chip, cs, k)
    ensures BaseAt(kind, chip, cs, k) == Some(StartOf(chip, cs, k))
  {
    hide Before, LinkAll, CompileLists, Head, Body, NoBaseCmds, Exec, StartOf, NumberIsFree;
    RunsUnderOwnBase(kind, chip, cs, k, 0, RESET);
    assert Head(kind, chip, cs, k) + Body(kind, chip, cs, k)[..0] == Head(kind, chip, cs, k);
  }

  lemma BaseOfLeftOver(kind: Kind, chip: Chip, cs: seq<ClientImage>, k: nat)
    requires k < |cs| && LinkAll(chip, cs).ok && DefinitionOf(kind, cs[k]).NoText? && BasesLeftAlone(kind, chip, cs)
    ensures var last := LastText(kind, cs, k);
            BaseAt(kind, chip, cs, k) == if last.Some? then Some(StartOf(chip, cs, last.value)) else None
  {
    hide Before, LinkAll, CompileLists, Head, Body, NoBaseCmds;
    UserBaseBetween(kind, chip, cs, k, RESET);
    assert BaseLeftAlone(kind, chip, cs, k);
    LeftOverStep(kind, chip, cs, k, RESET);
  }

  /** A client's instructions start under its own base by right of its definition, or because a client before it has
      a definition and none since then declares a local word. */
  predicate OwnBaseExpected(kind: Kind, cs: seq<ClientImage>, k: nat)
    requires k < |cs|
  {
    || DefinitionOf(kind, cs[k]).Text?
    || (LastText(kind, cs, k).Some? && LocalWords(cs, LastText(kind, cs, k).value) == LocalWords(cs, k))
  }

  /** Emptying a definition keeps the old instructions, but not their prologue: the own base is in force if and only
      if it can be expected. */
  lemma OwnBaseExactly(kind: Kind, chip: Chip, cs: seq<ClientImage>, k: nat)
    requires k < |cs| && LinkAll(chip, cs).ok && ClientsFit(chip, cs) && BasesLeftAlone(kind, chip, cs)
    ensures BaseAt(kind, chip, cs, k) == Some(StartOf(chip, cs, k)) <==> OwnBaseExpected(kind, cs, k)
  {
    hide BaseAt, StartOf, Before, LinkAll, ClientsFit, LocalWords, BaseLeftAlone, LastText;
    LinkedPrefix(chip, cs, k);
    FittingStart(chip, cs, k);
    if DefinitionOf(kind, cs[k]).Text? {
      assert BaseLeftAlone(kind, chip, cs, k);
      BaseOfDefinition(kind, chip, cs, k);
    } else {
      BaseOfLeftOver(kind, chip, cs, k);
      if LastText(kind, cs, k).Some? {
        LinkedPrefix(chip, cs, LastText(kind, cs, k).value);
        FittingStart(chip, cs, LastText(kind, cs, k).value);
      }
    }
  }

  /** How it fails: behind a client with a definition and local words, the left-over instructions of a client without a
      definition run under the base of the other client. */
  lemma LeftOverRunsUnderForeignBase(kind: Kind, chip: Chip, cs: seq<ClientImage>, k: nat)
    requires 0 < k < |cs| && LinkAll(chip, cs).ok && ClientsFit(chip, cs) && BasesLeftAlone(kind, chip, cs)
    requires DefinitionOf(kind, cs[k]).NoText? && DefinitionOf(kind, cs[k - 1]).Text?
    requires SegmentTotal(cs[k - 1].vars, ModuleLocal) > 0
    ensures BaseAt(kind, chip, cs, k) == Some(StartOf(chip, cs, k - 1)) != Some(StartOf(chip, cs, k))
    ensures Head(kind, chip, cs, k) + ListOf(kind, cs[k]) <= ProgramOf(kind, LinkAll(chip, cs))
  {
    hide BaseAt, StartOf, Before, LinkAll, ClientsFit, CompileLists, Head, Body;
    LinkedPrefix(chip, cs, k);
    LinkedPrefix(chip, cs, k - 1);
    FittingStart(chip, cs, k);
    FittingStart(chip, cs, k - 1);
    ListsNext(cs, k - 1);
    SegmentTotalSplits(Flatten(Lists(cs[..k - 1])), cs[k - 1].vars, ModuleLocal);
    BaseOfLeftOver(kind, chip, cs, k);
    assert BaseLeftAlone(kind, chip, cs, k);
    LeftOverStep(kind, chip, cs, k, RESET);
    BodiesInPlace(kind, chip, cs, k);
  }

  lemma {:induction false} SegmentTotalSplits(a: seq<DspVar>, b: seq<DspVar>, segment: Segment)
    ensures SegmentTotal(a + b, segment) == SegmentTotal(a, segment) + SegmentTotal(b, segment)
  {
    if b == [] {
      assert a + b == a;
    } else {
      SegmentTotalSplits(a, b[..|b| - 1], segment);
      assert (a + b)[..|a + b| - 1] == a + b[..|b| - 1];
    }
  }

  // ---------- the DSP base

  predicate KeepsDspBase(i: Instr) {
    CodeOf(i) != DSPMEMOFFSET
  }

  predicate NoDspBaseCmds(cmds: seq<CmdLine>) {
    forall c <- cmds :: c.Command? ==> c.code != Some(DSPMEMOFFSET)
  }

  /** No command of any client in this program, current or left over, moves the DSP base, and for the cyclic program,
      which starts by setting it, the first client has no variable named like the number of that base. */
  ghost predicate DspBaseLeftAlone(kind: Kind, chip: Chip, cs: seq<ClientImage>) {
    && (kind == Cyclic ==> cs != [] && NumberIsFree(chip, cs[0], LayoutOf(chip).dspWorkspace))
    && forall k :: 0 <= k < |cs| ==> ListKeepsDspBase(kind, cs[k])
  }

  ghost predicate ListKeepsDspBase(kind: Kind, c: ClientImage) {
    match DefinitionOf(kind, c)
    case Text(cmds) => NoDspBaseCmds(cmds)
    case NoText => forall i <- ListOf(kind, c) :: KeepsDspBase(i)
  }

  /** The DSP base a program works with: the cyclic program sets its own, the interrupt program has the one it is
      entered with. */
  function DspBaseOf(kind: Kind, chip: Chip, regs: Regs): Option<u32> {
    if kind == Cyclic then Some(LayoutOf(chip).dspWorkspace) else regs.dsp
  }

  lemma {:induction false} ExecKeepsDspBase(regs: Regs, program: seq<Instr>)
    requires forall i <- program :: KeepsDspBase(i)
    ensures Exec(regs, program).dsp == regs.dsp
  {
    if program == [] {
    } else {
      ExecKeepsDspBase(regs, program[..|program| - 1]);
      assert program[|program| - 1] in program;
    }
  }

  lemma OneKeepsDspBase(hash: VarHash, id: u16, code: Option<CmdCode>, params: seq<Token>)
    requires code != Some(DSPMEMOFFSET)
    ensures KeepsDspBase(CompileOne(hash, id, code, params).instr)
  {
    FailedIsZero(hash, id, code, params);
    if CompileOne(hash, id, code, params).ok {
      CompiledDecodes(hash, id, code.value, params);
    }
    hide CompileOne;
  }

  lemma BodyKeepsDspBase(kind: Kind, chip: Chip, cs: seq<ClientImage>, k: nat)
    requires k < |cs| && LinkAll(chip, cs).ok && ListKeepsDspBase(kind, cs[k])
    ensures forall i <- Body(kind, chip, cs, k) :: KeepsDspBase(i)
  {
    hide LinkAll, Before, Body, CompileLists, CompileOne, Commands, HashOf, Placed, KeepsDspBase, CompileAll;
    BodiesInPlace(kind, chip, cs, k);
    BodyIsListOf(kind, chip, cs, k);
    var c, body, definition := Placed(chip, cs, k), Body(kind, chip, cs, k), DefinitionOf(kind, cs[k]);
    if definition.Text? {
      BodyOfDefinition(kind, chip, c);
      CommandsAreLines(definition.cmds);
      var cmds := Commands(definition.cmds);
      forall j | 0 <= j < |body| ensures KeepsDspBase(body[j]) {
        assert cmds[j] in definition.cmds;
        OneKeepsDspBase(HashOf(chip, c), c.id, cmds[j].code, cmds[j].params);
      }
    } else {
      LeftOverBody(kind, chip, c);
      PlacedLists(kind, chip, cs, k);
    }
  }

  lemma PlacedLists(kind: Kind, chip: Chip, cs: seq<ClientImage>, k: nat)
    requires k < |cs|
    ensures ListOf(kind, Placed(chip, cs, k)) == ListOf(kind, cs[k])
  {
    hide Before, PlaceVars;
  }

  lemma HeadKeepsDspBase(kind: Kind, chip: Chip, cs: seq<ClientImage>, k: nat, regs: Regs)
    requires k < |cs|
    ensures Exec(regs, Head(kind, chip, cs, k)).dsp == Exec(regs, ProgramOf(kind, Before(chip, cs, k))).dsp
  {
    hide Before, Prologue, Exec, Exec1, StartOf;
    var program := ProgramOf(kind, Before(chip, cs, k));
    if DefinitionOf(kind, cs[k]).Text? {
      HeadEndsWithPrologue(kind, chip, cs, k);
      hide Head, ProgramOf;
      ExecOneMore(regs, program, Prologue(chip, cs[k], StartOf(chip, cs, k)));
      PrologueKeepsDspBase(chip, cs[k], StartOf(chip, cs, k), Exec(regs, program));
    } else {
      assert program + [] == program;
    }
  }

  lemma PrologueKeepsDspBase(chip: Chip, c: ClientImage, start: u32, regs: Regs)
    ensures Exec1(regs, Prologue(chip, c, start)).dsp == regs.dsp
  {
    hide NumberCmd, HashOf, CodeOf;
    NumberCmdCode(HashOf(chip, c), c.id, USERMEMOFFSET, start);
  }

  lemma DspBaseAtStart(kind: Kind, chip: Chip, cs: seq<ClientImage>, regs: Regs)
    requires kind == Cyclic ==> cs != [] && NumberIsFree(chip, cs[0], LayoutOf(chip).dspWorkspace)
    ensures Exec(regs, ProgramOf(kind, Before(chip, cs, 0))).dsp == DspBaseOf(kind, chip, regs)
  {
    hide Before, NumberIsFree, LayoutOf;
    if kind == Cyclic {
      DspBaseSetFirst(chip, cs, regs);
    } else {
      NoInterruptYet(chip, cs);
    }
  }

  lemma {:induction false} DspBaseBetween(kind: Kind, chip: Chip, cs: seq<ClientImage>, k: nat, regs: Regs)
    requires k <= |cs| && LinkAll(chip, cs).ok && DspBaseLeftAlone(kind, chip, cs)
    ensures Exec(regs, ProgramOf(kind, Before(chip, cs, k))).dsp == DspBaseOf(kind, chip, regs)
  {
    hide LinkAll, CompileLists, KeepsDspBase, Head, Body, LayoutOf, Before, Exec, ProgramOf, ListKeepsDspBase, NumberIsFree,
         DspBaseOf;
    if k == 0 {
      DspBaseAtStart(kind, chip, cs, regs);
    } else {
      DspBaseBetween(kind, chip, cs, k - 1, regs);
      ProgramStep(kind, chip, cs, k - 1);
      BodyKeepsDspBase(kind, chip, cs, k - 1);
      HeadKeepsDspBase(kind, chip, cs, k - 1, regs);
      var head, body := Head(kind, chip, cs, k - 1), Body(kind, chip, cs, k - 1);
      ExecAppend(regs, head, body);
      ExecKeepsDspBase(Exec(regs, head), body);
    }
  }

  lemma NoInterruptYet(chip: Chip, cs: seq<ClientImage>)
    ensures ProgramOf(Interrupt, Before(chip, cs, 0)) == []
  {
    hide NumberCmd, HashOf;
    assert cs[..0] == [];
  }

  lemma DspBaseSetFirst(chip: Chip, cs: seq<ClientImage>, regs: Regs)
    requires cs != [] && NumberIsFree(chip, cs[0], LayoutOf(chip).dspWorkspace)
    ensures Exec(regs, Before(chip, cs, 0).cyc).dsp == Some(LayoutOf(chip).dspWorkspace)
  {
    hide NumberCmd, HashOf, GetDspVar, Decimal, Before;
    CyclicStart(chip, cs);
    NumberCmdDecodes(HashOf(chip, cs[0]), cs[0].id, DSPMEMOFFSET, LayoutOf(chip).dspWorkspace);
    var first := NumberCmd(HashOf(chip, cs[0]), cs[0].id, DSPMEMOFFSET, LayoutOf(chip).dspWorkspace);
    assert Before(chip, cs, 0).cyc == [first];
    assert [first][..0] == [];
  }

  /** The DSP base is in force at every command of every client, in both programs. */
  lemma DspBaseAt(kind: Kind, chip: Chip, cs: seq<ClientImage>, k: nat, j: nat, regs: Regs)
    requires k < |cs| && LinkAll(chip, cs).ok && DspBaseLeftAlone(kind, chip, cs) && j <= |Body(kind, chip, cs, k)|
    ensures Exec(regs, Head(kind, chip, cs, k) + Body(kind, chip, cs, k)[..j]).dsp == DspBaseOf(kind, chip, regs)
  {
    hide LinkAll, Head, Body, Before, KeepsDspBase;
    var head, body := Head(kind, chip, cs, k), Body(kind, chip, cs, k);
    DspBaseBetween(kind, chip, cs, k, regs);
    HeadKeepsDspBase(kind, chip, cs, k, regs);
    BodyKeepsDspBase(kind, chip, cs, k);
    forall i <- body[..j] ensures KeepsDspBase(i) {
      assert i in body;
    }
    ExecAppend(regs, head, body[..j]);
    ExecKeepsDspBase(Exec(regs, head), body[..j]);
  }

  ghost predicate InDspSections(chip: Chip, v: DspVar) {
    var l := LayoutOf(chip);
    || v in InitSection(DSP_WORKSPACE_VARS, l.dspWorkspace, 0)
    || v in InitSection(DIALOG_WORKSPACE_VARS, l.dialogWorkspace, l.dialogWorkspace - l.dspWorkspace)
  }

  /** On arrival at this place the DSP base is set, and base plus operand p is the given address. */
  ghost predicate OperandIsDspAddress(program: seq<Instr>, at: nat, regs: Regs, cmd: CmdLine, p: nat, address: int) {
    && at < |program| && cmd.Command? && Some(CodeOf(program[at])) == cmd.code && p < |DecodeOperands(program[at])|
    && Exec(regs, program[..at]).dsp.Some?
    && Exec(regs, program[..at]).dsp.value + DecodeOperands(program[at])[p] == address
  }

  lemma DspOperand(chip: Chip, hash: VarHash, id: u16, c: CmdCode, params: seq<Token>, p: nat, v: DspVar, word: nat)
    requires CompileOne(hash, id, Some(c), params).ok && Relative(DspCmd(c), p)
    requires Target(hash, ParamText(params, p)) == Some((v, word)) && InDspSections(chip, v) && word < v.size
    ensures var i := CompileOne(hash, id, Some(c), params).instr;
            && CodeOf(i) == c && p < |DecodeOperands(i)|
            && LayoutOf(chip).dspWorkspace + DecodeOperands(i)[p] == GetVarAddress(hash, ParamText(params, p))
  {
    hide CompileOne, GetDspVar, CalcVarOffset, DecodeOperands, Relative, DspCmd, InitSection;
    OperandOfInstr(hash, id, c, params, p);
    DspBaseReachesBothSections(chip, v);
    assert GetVarOffset(hash, ParamText(params, p)) == v.offset + word;
    assert Operand16(hash, params, p) == v.offset + word;
  }

  /** Operands in the DSP's own sections: at every command of a linked program that works with the DSP's own base, base
      plus operand is the address of every word of the variable named. The cyclic program always does, the interrupt
      program when it is entered with it. */
  lemma LinkedDspOperandIsAddress(kind: Kind, chip: Chip, cs: seq<ClientImage>, k: nat, j: nat, p: nat, regs: Regs,
                                  v: DspVar, word: nat)
    requires k < |cs| && LinkAll(chip, cs).ok && DspBaseLeftAlone(kind, chip, cs)
    requires DspBaseOf(kind, chip, regs) == Some(LayoutOf(chip).dspWorkspace)
    requires DefinitionOf(kind, cs[k]).Text? && j < |Commands(DefinitionOf(kind, cs[k]).cmds)|
    requires DspOperandNamed(chip, Commands(DefinitionOf(kind, cs[k]).cmds)[j], p, HashOf(chip, Placed(chip, cs, k)), v, word)
    ensures var cmd := Commands(DefinitionOf(kind, cs[k]).cmds)[j];
            OperandIsDspAddress(ProgramOf(kind, LinkAll(chip, cs)), |Head(kind, chip, cs, k)| + j, regs, cmd, p,
                                GetVarAddress(HashOf(chip, Placed(chip, cs, k)), ParamText(cmd.params, p)))
  {
    hide CompileLists, CompileOne, LinkAll, Head, Body, HashOf, Before, Commands, Placed, Exec, OperandIsDspAddress,
         DspOperandNamed, DspBaseLeftAlone;
    var c, cmd := Placed(chip, cs, k), Commands(DefinitionOf(kind, cs[k]).cmds)[j];
    var head, body := Head(kind, chip, cs, k), Body(kind, chip, cs, k);
    BodiesInPlace(kind, chip, cs, k);
    BodyIsListOf(kind, chip, cs, k);
    BodyOfDefinition(kind, chip, c);
    InPlace(ProgramOf(kind, LinkAll(chip, cs)), head, body, j);
    DspBaseAt(kind, chip, cs, k, j, regs);
    DspInstr(chip, ProgramOf(kind, LinkAll(chip, cs)), |head| + j, regs, HashOf(chip, c), c.id, cmd, p, v, word);
  }

  lemma DspInstr(chip: Chip, program: seq<Instr>, at: nat, regs: Regs, hash: VarHash, id: u16, cmd: CmdLine, p: nat,
                 v: DspVar, word: nat)
    requires DspOperandNamed(chip, cmd, p, hash, v, word)
    requires at < |program| && Exec(regs, program[..at]).dsp == Some(LayoutOf(chip).dspWorkspace)
    requires Compiled(program[at], true) == CompileOne(hash, id, cmd.code, cmd.params)
    ensures OperandIsDspAddress(program, at, regs, cmd, p, GetVarAddress(hash, ParamText(cmd.params, p)))
  {
    hide CompileOne, Exec, GetVarAddress, Target, Relative, DspCmd, InDspSections, DecodeOperands;
    DspOperand(chip, hash, id, cmd.code.value, cmd.params, p, v, word);
  }

  ghost predicate DspOperandNamed(chip: Chip, cmd: CmdLine, p: nat, hash: VarHash, v: DspVar, word: nat) {
    && cmd.Command? && cmd.code.Some? && Relative(DspCmd(cmd.code.value), p)
    && Target(hash, ParamText(cmd.params, p)) == Some((v, word)) && InDspSections(chip, v) && word < v.size
  }
}
