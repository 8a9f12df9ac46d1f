/** Clients whose last variable list was rejected: their resolver keeps the variables of an older linking, and their
    commands are compiled with those. */
module StaleResolver {
  import opened MachineWords
  import opened Wrappers
  import opened DspVarOffsetCalc
  import opened DspApi
  import opened DspVarResolver
  import opened DspCmdCompiler
  import opened VarAllocator
  import opened ZdspClientImage
  import opened ProgramLinker
  import opened LinkedMeaning

  /** A client that is linked with a kept resolver, and has a definition that leaves the base registers alone. */
  ghost predicate JudgedStale(kind: Kind, chip: Chip, cs: seq<ClientImage>, k: nat) {
    && k < |cs| && LinkAll(chip, cs).ok
    && DefinitionOf(kind, cs[k]).Text? && NoBaseCmds(DefinitionOf(kind, cs[k]).cmds)
    && cs[k].detached.Some? && NumberIsFree(chip, cs[k], StartOf(chip, cs, k))
  }

  /** On arrival at this place the user base is set, and base plus operand p is the given address. */
  ghost predicate StaleOperandAt(program: seq<Instr>, at: nat, regs: Regs, cmd: CmdLine, p: nat, base: u32, address: int) {
    && at < |program| && cmd.Command? && Some(CodeOf(program[at])) == cmd.code && p < |DecodeOperands(program[at])|
    && Exec(regs, program[..at]).user == Some(base) && base + DecodeOperands(program[at])[p] == address
  }

  lemma KeptHash(chip: Chip, cs: seq<ClientImage>, k: nat)
    requires k < |cs| && cs[k].detached.Some?
    ensures HashOf(chip, Placed(chip, cs, k)) == HashOf(chip, cs[k])
  {
    hide Before, PlaceVars;
  }

  lemma StaleOperand(program: seq<Instr>, at: nat, regs: Regs, base: u32, oldStart: u32, id: u16,
                     cmd: CmdLine, p: nat, hash: VarHash, v: DspVar, word: nat)
    requires Names(cmd, p, hash, v, word) && v.offset == Wrap32(v.address - oldStart) && oldStart < 0x7000_0000
    requires 0 <= v.address + word - oldStart < 0x8000
    requires at < |program| && Exec(regs, program[..at]).user == Some(base)
    requires Compiled(program[at], true) == CompileOne(hash, id, cmd.code, cmd.params)
    ensures StaleOperandAt(program, at, regs, cmd, p, base,
                           GetVarAddress(hash, ParamText(cmd.params, p)) + base - oldStart)
  {
    hide CompileOne, Exec, DecodeOperands, GetVarOffset, GetVarAddress, Target, Relative, DspCmd, ToShort;
    OperandOfInstr(hash, id, cmd.code.value, cmd.params, p);
    OperandDenotesAddress(hash, ParamText(cmd.params, p), oldStart);
  }

  /** What the operands of such a client denote. The operand of a word that was within reach of the client's start when
      its variables were placed addresses, in the next linking, the address of that time moved by as much as the
      client's start has moved; so it is the address the server still uses if and only if the start has not moved. */
  lemma StaleOperandMoves(kind: Kind, chip: Chip, cs: seq<ClientImage>, k: nat, j: nat, p: nat, regs: Regs,
                          oldStart: u32, v: DspVar, word: nat)
    requires JudgedStale(kind, chip, cs, k) && j < |Commands(DefinitionOf(kind, cs[k]).cmds)|
    requires Names(Commands(DefinitionOf(kind, cs[k]).cmds)[j], p, HashOf(chip, cs[k]), v, word)
    requires v.offset == Wrap32(v.address - oldStart) && oldStart < 0x7000_0000 && 0 <= v.address + word - oldStart < 0x8000
    ensures var cmd, start := Commands(DefinitionOf(kind, cs[k]).cmds)[j], StartOf(chip, cs, k);
            var program, at := ProgramOf(kind, LinkAll(chip, cs)), |Head(kind, chip, cs, k)| + j;
            var address := GetVarAddress(HashOf(chip, cs[k]), ParamText(cmd.params, p));
            && StaleOperandAt(program, at, regs, cmd, p, start, address + start - oldStart)
            && (StaleOperandAt(program, at, regs, cmd, p, start, address) <==> start == oldStart)
  {
    hide CompileLists, CompileOne, LinkAll, Head, Body, HashOf, Before, Commands, Names, GetVarAddress, Exec, DecodeOperands;
    var cmds := Commands(DefinitionOf(kind, cs[k]).cmds);
    var c := Placed(chip, cs, k);
    var program, head, body := ProgramOf(kind, LinkAll(chip, cs)), Head(kind, chip, cs, k), Body(kind, chip, cs, k);
    KeptHash(chip, cs, k);
    BodiesInPlace(kind, chip, cs, k);
    BodyIsListOf(kind, chip, cs, k);
    BodyOfDefinition(kind, chip, c);
    RunsUnderOwnBase(kind, chip, cs, k, j, regs);
    InPlace(program, head, body, j);
    StaleOperand(program, |head| + j, regs, StartOf(chip, cs, k), oldStart, c.id, cmds[j], p, HashOf(chip, cs[k]), v, word);
  }

  // ---------- linked, rejected, linked again

  lemma CompilingKeepsResolver(chip: Chip, c: ClientImage)
    ensures var d := CompileLists(chip, c).0;
            && d.id == c.id && d.vars == c.vars && d.detached == c.detached && d.cyclic == c.cyclic && d.interrupt == c.interrupt
            && Known(d) == Known(c) && HashOf(chip, d) == HashOf(chip, c)
  {
    hide CompileAll, SystemHash, AddToHash;
  }

  lemma {:induction false} LinkedClient(chip: Chip, cs: seq<ClientImage>, k: nat, m: nat)
    requires k < m <= |cs| && Before(chip, cs, m).ok
    ensures |Before(chip, cs, m).clients| == m
    ensures Before(chip, cs, m).clients[k] == CompileLists(chip, Placed(chip, cs, k)).0
    decreases m
  {
    hide Before, CompileLists, PlaceVars, Prologue, Placed;
    StepShape(chip, cs, m - 1);
    if m == 1 {
      NoneBefore(chip, cs);
    } else {
      LinkedClient(chip, cs, if k < m - 1 then k else 0, m - 1);
    }
  }

  lemma NoneBefore(chip: Chip, cs: seq<ClientImage>)
    ensures Before(chip, cs, 0).clients == []
  {
    hide NumberCmd;
    assert cs[..0] == [];
  }

  lemma PlacedKeepsDetached(chip: Chip, cs: seq<ClientImage>, k: nat)
    requires k < |cs|
    ensures Placed(chip, cs, k).detached == cs[k].detached && Placed(chip, cs, k).id == cs[k].id
  {
    hide Before, PlaceVars;
  }

  /** What linking leaves of a client: its resolver knows the variables as they were placed. */
  lemma LinkedResolver(chip: Chip, cs: seq<ClientImage>, k: nat)
    requires k < |cs| && LinkAll(chip, cs).ok
    ensures |LinkAll(chip, cs).clients| == |cs|
    ensures var c := LinkAll(chip, cs).clients[k];
            && Known(c) == Known(Placed(chip, cs, k)) && HashOf(chip, c) == HashOf(chip, Placed(chip, cs, k)) && c.detached == cs[k].detached && c.id == cs[k].id
            && c.cyclic == Placed(chip, cs, k).cyclic && c.interrupt == Placed(chip, cs, k).interrupt
  {
    hide LinkAll, Before, CompileLists, HashOf, Placed, EncodeCmd;
    LinkedEnds(chip, cs);
    LinkedClient(chip, cs, k, |cs|);
    CompilingKeepsResolver(chip, Placed(chip, cs, k));
    PlacedKeepsDetached(chip, cs, k);
  }

  /** The client after a linking and a variable list that was sent then. */
  function Relisted(chip: Chip, before: seq<ClientImage>, k: nat, entries: seq<Option<DspVar>>): ClientImage
    requires k < |LinkAll(chip, before).clients|
  {
    SetVarList(chip, LinkAll(chip, before).alloc.table, LinkAll(chip, before).clients[k], entries)
  }

  /** The list is rejected. */
  ghost predicate RejectedAfterLinking(chip: Chip, before: seq<ClientImage>, k: nat, entries: seq<Option<DspVar>>) {
    && k < |before| && LinkAll(chip, before).ok && k < |LinkAll(chip, before).clients|
    && (exists e <- entries :: !EntryAccepted(LinkAll(chip, before).alloc.table, HashOf(chip, LinkAll(chip, before).clients[k]), e))
  }

  lemma RejectedCount(chip: Chip, globals: VarHash, c: ClientImage, entries: seq<Option<DspVar>>)
    requires exists e <- entries :: !EntryAccepted(globals, HashOf(chip, c), e)
    ensures SetVarList(chip, globals, c, entries).detached == Some(Known(c))
    ensures SetVarList(chip, globals, c, entries).cyclic == c.cyclic && SetVarList(chip, globals, c, entries).interrupt == c.interrupt
  {
    hide EntryAccepted, HashOf;
    var e :| e in entries && !EntryAccepted(globals, HashOf(chip, c), e);
    var i :| 0 <= i < |entries| && entries[i] == e;
    assert AcceptedCount(globals, HashOf(chip, c), entries) <= i;
  }

  /** A rejected list leaves the client with the resolver of the last linking. */
  lemma RejectedKeepsPlaced(chip: Chip, before: seq<ClientImage>, k: nat, entries: seq<Option<DspVar>>)
    requires RejectedAfterLinking(chip, before, k, entries)
    ensures Relisted(chip, before, k, entries).detached == Some(Known(Placed(chip, before, k)))
  {
    hide LinkAll, HashOf, Placed, Known, SetVarList, EntryAccepted;
    LinkedResolver(chip, before, k);
    RejectedCount(chip, LinkAll(chip, before).alloc.table, LinkAll(chip, before).clients[k], entries);
  }

  lemma SameKnown(chip: Chip, c: ClientImage, d: ClientImage)
    requires c.detached == Some(Known(d))
    ensures HashOf(chip, c) == HashOf(chip, d)
  {
    hide SystemHash, AddToHash;
  }

  lemma ReachWhenLinked(chip: Chip, before: seq<ClientImage>, k: nat, cmd: CmdLine, p: nat, v: DspVar, word: nat)
    requires k < |before| && LinkAll(chip, before).ok && ClientsFit(chip, before) && before[k].detached == None
    requires Names(cmd, p, HashOf(chip, Placed(chip, before, k)), v, word) && word < v.size
    ensures var start := StartOf(chip, before, k);
            v.offset == Wrap32(v.address - start) && start < 0x7000_0000 && 0 <= v.address + word - start < 0x8000
  {
    hide LinkAll, HashOf, Before, Placed, Names, ClientsFit;
    NamesResolved(chip, before, k, cmd, p, v, word);
    NamesUser(cmd, p, HashOf(chip, Placed(chip, before, k)), v, word);
    LinkedPrefix(chip, before, k + 1);
    FittingWordsWithinReach(chip, before, k, v, word);
  }

  /** Linked, rejected, linked again. Fitting clients are linked, a client's next list is rejected, and the clients there
      are by then, whatever they have declared since, are linked with that client's resolver kept. Each operand that
      names a word of its variables denotes the address of the first linking moved by as much as the client's start has
      moved: it is the address the server still uses if and only if the start has not moved. */
  lemma RejectedListGoesStale(kind: Kind, chip: Chip, before: seq<ClientImage>, k: nat, entries: seq<Option<DspVar>>,
                              cs: seq<ClientImage>, m: nat, j: nat, p: nat, regs: Regs, v: DspVar, word: nat)
    requires RejectedAfterLinking(chip, before, k, entries) && ClientsFit(chip, before) && before[k].detached == None
    requires JudgedStale(kind, chip, cs, m) && cs[m].detached == Relisted(chip, before, k, entries).detached
    requires j < |Commands(DefinitionOf(kind, cs[m]).cmds)| && word < v.size
    requires Names(Commands(DefinitionOf(kind, cs[m]).cmds)[j], p, HashOf(chip, cs[m]), v, word)
    ensures var cmd, start, oldStart := Commands(DefinitionOf(kind, cs[m]).cmds)[j], StartOf(chip, cs, m), StartOf(chip, before, k);
            var program, at := ProgramOf(kind, LinkAll(chip, cs)), |Head(kind, chip, cs, m)| + j;
            var address := GetVarAddress(HashOf(chip, cs[m]), ParamText(cmd.params, p));
            && StaleOperandAt(program, at, regs, cmd, p, start, address + start - oldStart)
            && (StaleOperandAt(program, at, regs, cmd, p, start, address) <==> start == oldStart)
  {
    hide LinkAll, Head, HashOf, Before, Placed, StartOf, Commands, Names, GetVarAddress, ClientsFit, StaleOperandAt, Relisted,
         NoBaseCmds, NumberIsFree;
    var cmd := Commands(DefinitionOf(kind, cs[m]).cmds)[j];
    RejectedKeepsPlaced(chip, before, k, entries);
    SameKnown(chip, cs[m], Placed(chip, before, k));
    ReachWhenLinked(chip, before, k, cmd, p, v, word);
    StaleOperandMoves(kind, chip, cs, m, j, p, regs, StartOf(chip, before, k), v, word);
  }
}
