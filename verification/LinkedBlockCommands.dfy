/** Block commands in the linked programs: what a checked CLEARN or COPYMEM of one client does to the variables of all. */
module LinkedBlockCommands {
  import opened MachineWords
  import opened Wrappers
  import opened DspVarOffsetCalc
  import opened DspApi
  import opened DspVarResolver
  import opened DspCmdCompiler
  import opened VarAllocator
  import opened MemoryIsolation
  import opened ZdspClientImage
  import opened ProgramLinker
  import opened LinkedMeaning
  import opened DspCmdExtraChecks

  /** The parameter that names the target. */
  function TargetSlot(code: CmdCode): nat {
    if code == CLEARN then 1 else 2
  }

  /** A block command that passes its check. For COPYMEM the target's offset plus word, cut to 16 bits, must not lie
      below the target, which the check itself does not ask. */
  ghost predicate CheckedBlock(hash: VarHash, cmd: CmdLine, v: DspVar, word: nat) {
    && cmd.Command? && cmd.code.Some? && cmd.code.value in {CLEARN, COPYMEM}
    && Names(cmd, TargetSlot(cmd.code.value), hash, v, word)
    && (if cmd.code.value == CLEARN then ClearNPasses(hash, ParamText(cmd.params, 1), Operand16(hash, cmd.params, 0))
        else CopyMemPasses(hash, ParamText(cmd.params, 2), Operand16(hash, cmd.params, 0), Operand16(hash, cmd.params, 2))
             && v.offset <= (v.offset + word) % 0x1_0000)
  }

  lemma NothingToStore(base: int, start: int, count: int, v: DspVar)
    requires count <= 0
    ensures StoresInside(base, start, count, v)
  {
  }

  lemma EmptyCopyTarget(hash: VarHash, id: u16, params: seq<Token>, v: DspVar, word: nat)
    requires CompileOne(hash, id, Some(COPYMEM), params).ok && v.size == 0
    requires Target(hash, ParamText(params, 2)) == Some((v, word)) && v.offset <= (v.offset + word) % 0x1_0000
    requires CopyMemPasses(hash, ParamText(params, 2), Operand16(hash, params, 0), Operand16(hash, params, 2))
    ensures Operand16(hash, params, 0) <= 0
  {
    hide CompileOne, CalcVarOffset, GetDspVar, Operand16, CopyMemPasses, ToInt32;
    PassedCopy(hash, id, params, v, word);
    OffsetAbove(v.offset);
  }

  lemma OffsetAbove(offset: u32)
    ensures ToInt32(offset) <= offset
  {
  }

  /** A checked block command stores only into the variable it names, whatever its size. */
  lemma CheckedBlockStaysInside(hash: VarHash, id: u16, cmd: CmdLine, base: int, v: DspVar, word: nat)
    requires KeyedByName(hash) && CheckedBlock(hash, cmd, v, word) && CompileOne(hash, id, cmd.code, cmd.params).ok
    requires v.size > 0 ==> WithinReach(v, base)
    ensures StoresInside(base, Operand16(hash, cmd.params, TargetSlot(cmd.code.value)), Operand16(hash, cmd.params, 0), v)
  {
    hide CompileOne, GetDspVar, GetVarOffset, KeyedByName, WithinReach, StoresInside, Relative;
    var count := Operand16(hash, cmd.params, 0);
    hide Operand16;
    if count <= 0 {
      NothingToStore(base, Operand16(hash, cmd.params, TargetSlot(cmd.code.value)), count, v);
    } else if cmd.code.value == CLEARN {
      ClearNHasSize(hash, cmd.params, v, word);
      CheckedClearNStaysInside(hash, id, cmd.params, base, v, word);
    } else if v.size == 0 {
      EmptyCopyTarget(hash, id, cmd.params, v, word);
    } else {
      CheckedCopyMemStaysInside(hash, id, cmd.params, base, v, word);
    }
  }

  lemma ClearNHasSize(hash: VarHash, params: seq<Token>, v: DspVar, word: nat)
    requires Target(hash, ParamText(params, 1)) == Some((v, word)) && Operand16(hash, params, 0) > 0
    requires ClearNPasses(hash, ParamText(params, 1), Operand16(hash, params, 0))
    ensures v.size > 0
  {
    hide GetDspVar, CalcVarOffset, Operand16;
  }

  lemma BlockOperands(hash: VarHash, id: u16, c: CmdCode, params: seq<Token>)
    requires c in {CLEARN, COPYMEM} && CompileOne(hash, id, Some(c), params).ok
    ensures var i := CompileOne(hash, id, Some(c), params).instr;
            && CodeOf(i) == c && TargetSlot(c) < |DecodeOperands(i)|
            && DecodeOperands(i)[0] == Operand16(hash, params, 0)
            && DecodeOperands(i)[TargetSlot(c)] == Operand16(hash, params, TargetSlot(c))
  {
    hide CompileOne, DecodeOperands, Operand16;
    OperandOfInstr(hash, id, c, params, 0);
    OperandOfInstr(hash, id, c, params, TargetSlot(c));
  }

  /** On arrival at this place the user base is set, and what the block command stores lies in the words of v, which
      belong to no other placed variable but declarations of the same global. */
  ghost predicate StoresOnlyInto(program: seq<Instr>, at: nat, regs: Regs, code: CmdCode, placed: seq<DspVar>, v: DspVar) {
    && at < |program| && CodeOf(program[at]) == code && TargetSlot(code) < |DecodeOperands(program[at])|
    && Exec(regs, program[..at]).user.Some?
    && var base, operands := Exec(regs, program[..at]).user.value, DecodeOperands(program[at]);
       forall a :: Stores(base, operands[TargetSlot(code)], operands[0], a) ==>
         Owns(v, a) && forall q <- placed :: Owns(q, a) ==> q == v || SameGlobal(v, q)
  }

  lemma InsideTouchesNoOther(l: Layout, placed: seq<DspVar>, v: DspVar, base: int, start: int, count: int, a: int)
    requires Isolated(l, placed) && v in placed && StoresInside(base, start, count, v) && Stores(base, start, count, a)
    ensures Owns(v, a) && forall q <- placed :: Owns(q, a) ==> q == v || SameGlobal(v, q)
  {
    hide Isolated, Owns, SameGlobal;
    var i :| 0 <= i < |placed| && placed[i] == v;
    forall q | q in placed && Owns(q, a) ensures q == v || SameGlobal(v, q) {
      var j :| 0 <= j < |placed| && placed[j] == q;
      if i != j {
        StoreInsideTouchesNoOther(l, placed, i, j, base, start, count, a);
      }
    }
    assert Owns(v, a);
  }

  lemma BlockStores(program: seq<Instr>, at: nat, regs: Regs, base: u32, hash: VarHash, id: u16, cmd: CmdLine,
                    l: Layout, placed: seq<DspVar>, v: DspVar, word: nat)
    requires KeyedByName(hash) && CheckedBlock(hash, cmd, v, word) && (v.size > 0 ==> WithinReach(v, base))
    requires at < |program| && Compiled(program[at], true) == CompileOne(hash, id, cmd.code, cmd.params)
    requires Exec(regs, program[..at]).user == Some(base) && Isolated(l, placed) && v in placed
    ensures StoresOnlyInto(program, at, regs, cmd.code.value, placed, v)
  {
    hide CompileOne, Exec, DecodeOperands, Isolated, Owns, SameGlobal, StoresInside, Stores, KeyedByName, Operand16, WithinReach,
         Names, ClearNPasses, CopyMemPasses;
    var c := cmd.code.value;
    BlockOperands(hash, id, c, cmd.params);
    CheckedBlockStaysInside(hash, id, cmd, base, v, word);
    var start, count := Operand16(hash, cmd.params, TargetSlot(c)), Operand16(hash, cmd.params, 0);
    forall a | Stores(base, start, count, a)
      ensures Owns(v, a) && forall q <- placed :: Owns(q, a) ==> q == v || SameGlobal(v, q)
    {
      InsideTouchesNoOther(l, placed, v, base, start, count, a);
    }
  }

  lemma FittingIsolated(chip: Chip, cs: seq<ClientImage>, k: nat, v: DspVar)
    requires k < |cs| && LinkAll(chip, cs).ok && ClientsFit(chip, cs) && v in Placed(chip, cs, k).vars
    ensures Isolated(LayoutOf(chip), LinkAll(chip, cs).alloc.placed) && v in LinkAll(chip, cs).alloc.placed
  {
    hide LinkAll, ClientsFit, Good, Accounts, Fits, GlobalsAgree, LayoutOf;
    LinkedEnds(chip, cs);
    FittingStates(chip, cs, |cs|);
    GoodIsIsolated(LayoutOf(chip), Before(chip, cs, |cs|).alloc);
    PlacedStays(chip, cs, k, |cs|, v);
  }

  lemma {:induction false} PlacedStays(chip: Chip, cs: seq<ClientImage>, k: nat, m: nat, v: DspVar)
    requires k < m <= |cs| && Before(chip, cs, m).ok && v in Placed(chip, cs, k).vars
    ensures v in Before(chip, cs, m).alloc.placed
    decreases m
  {
    hide Before, CompileLists, PlaceVars, Prologue;
    StepShape(chip, cs, m - 1);
    if k == m - 1 {
    } else {
      hide Placed;
      PlacedStays(chip, cs, k, m - 1, v);
      var st := Before(chip, cs, m - 1).alloc;
      PlacedKept(st, st.local, cs[m - 1].vars);
    }
  }

  lemma {:induction false} PlacedKept(st: Alloc, clientStart: u32, vars: seq<DspVar>)
    ensures st.placed <= PlaceVars(st, clientStart, vars).placed
  {
    if vars == [] {
    } else {
      PlacedKept(st, clientStart, vars[..|vars| - 1]);
    }
  }

  lemma ReachOfPlaced(chip: Chip, cs: seq<ClientImage>, k: nat, v: DspVar)
    requires k < |cs| && LinkAll(chip, cs).ok && ClientsFit(chip, cs) && v in Placed(chip, cs, k).vars
    requires v.segment != DspInternal && v.size > 0 && v.offset == Wrap32(v.address - StartOf(chip, cs, k))
    ensures WithinReach(v, StartOf(chip, cs, k))
  {
    hide LinkAll, ClientsFit, Placed, Before;
    LinkedPrefix(chip, cs, k + 1);
    FittingWordsWithinReach(chip, cs, k, v, 0);
  }

  /** When a linked program reaches a checked block command of a client, and the clients fit, the command stores only
      into the variable it names: no other variable of this or any other client is written. */
  lemma LinkedBlockTouchesNoOther(kind: Kind, chip: Chip, cs: seq<ClientImage>, k: nat, j: nat, regs: Regs, v: DspVar, word: nat)
    requires ClientsFit(chip, cs) && Judged(kind, chip, cs, k) && j < |Commands(DefinitionOf(kind, cs[k]).cmds)|
    requires CheckedBlock(HashOf(chip, Placed(chip, cs, k)), Commands(DefinitionOf(kind, cs[k]).cmds)[j], v, word)
    ensures StoresOnlyInto(ProgramOf(kind, LinkAll(chip, cs)), |Head(kind, chip, cs, k)| + j, regs,
                           Commands(DefinitionOf(kind, cs[k]).cmds)[j].code.value, LinkAll(chip, cs).alloc.placed, v)
  {
    hide CompileLists, CompileOne, LinkAll, Head, Body, HashOf, Before, Commands, Names, StoresOnlyInto, ClientsFit, Operand16,
         ClearNPasses, CopyMemPasses, Isolated, WithinReach, KeyedByName;
    var cmds := Commands(DefinitionOf(kind, cs[k]).cmds);
    var c := Placed(chip, cs, k);
    var hash := HashOf(chip, c);
    var program, head, body := ProgramOf(kind, LinkAll(chip, cs)), Head(kind, chip, cs, k), Body(kind, chip, cs, k);
    BodiesInPlace(kind, chip, cs, k);
    BodyIsListOf(kind, chip, cs, k);
    BodyOfDefinition(kind, chip, c);
    RunsUnderOwnBase(kind, chip, cs, k, j, regs);
    InPlace(program, head, body, j);
    NamesResolved(chip, cs, k, cmds[j], TargetSlot(cmds[j].code.value), v, word);
    NamesUser(cmds[j], TargetSlot(cmds[j].code.value), hash, v, word);
    FittingIsolated(chip, cs, k, v);
    if v.size > 0 {
      ReachOfPlaced(chip, cs, k, v);
    }
    PlacedHashIsKeyed(chip, cs, k);
    BlockStores(program, |head| + j, regs, StartOf(chip, cs, k), hash, c.id, cmds[j], LayoutOf(chip), LinkAll(chip, cs).alloc.placed,
                v, word);
  }

  lemma PlacedHashIsKeyed(chip: Chip, cs: seq<ClientImage>, k: nat)
    requires k < |cs| && cs[k].detached == None
    ensures KeyedByName(HashOf(chip, Placed(chip, cs, k)))
  {
    hide SystemHash, AddToHash, KeyedByName, PlaceVars, Before;
    SystemVariables(chip);
    AddToHashKeeps(SystemHash(chip), Placed(chip, cs, k).vars);
  }
}
