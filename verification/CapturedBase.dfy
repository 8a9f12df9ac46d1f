/** What the server's base commands set when a variable of the client bears the number as its name. */
module CapturedBase {
  import opened MachineWords
  import opened Wrappers
  import opened DspVarOffsetCalc
  import opened DspApi
  import opened DspVarResolver
  import opened DspCmdCompiler
  import opened VarAllocator
  import opened ZdspClientImage
  import opened ProgramLinker
  import opened LinkedMeaning
  import opened NumberNames
  import opened SystemNames
  import opened StaleResolver
  import opened SmallPrograms

  /** The base a client's prologue sets. A variable called like the start address puts its own offset there, as it was
      before this linking; one with an offset from 2^31 on makes the prologue an instruction that sets nothing. */
  function PrologueBase(c: ClientImage, start: u32): Option<u32> {
    match LastNamed(Known(c), Decimal(start))
    case None => Some(start)
    case Some(v) => if v.offset < 0x8000_0000 then Some(v.offset) else None
  }

  /** What a base command with a captured number compiles to. */
  lemma CapturedNumber(hash: VarHash, id: u16, code: CmdCode, n: nat, v: DspVar)
    requires code == USERMEMOFFSET || code == DSPMEMOFFSET
    requires GetDspVar(hash, Decimal(n)) == Some(v) && CalcVarOffset(v.name, Decimal(n)) == Some(0)
    ensures NumberCmd(hash, id, code, n) == if v.offset < 0x8000_0000 then Instr(code * 0x1_0000, v.offset) else NO_INSTR
  {
    var params := [Token(Decimal(n), None)];
    assert GetVarOffset(hash, Decimal(n)) == ToInt32(v.offset);
    BaseCmdDetails(code);
    hide GetVarOffset, Operand32, GetDspVar, CalcVarOffset, DspCmd, ToShort, Decimal;
    assert ReadAll(hash, params).count == 1 && ReadAll(hash, params).address == ToInt32(v.offset);
    hide ReadAll;
    assert CompileOne(hash, id, Some(code), params) == Assemble(DspCmd(code), id, code, ReadAll(hash, params));
    AssembledBase(DspCmd(code), id, code, ReadAll(hash, params), v.offset);
  }

  lemma AssembledBase(details: CmdDetails, id: u16, c: CmdCode, o: Operands, offset: u32)
    requires o.p0 < 0x8000 && o.p1 < 0x8000 && o.p2 < 0x8000
    requires details.cmdClass == Cmd1i32 && o.count == 1 && o.address == ToInt32(offset)
    ensures Assemble(details, id, c, o) == if offset < 0x8000_0000 then Compiled(Instr(c * 0x1_0000, offset), true) else FAILED
  {
  }

  /** A number resolves to the last variable of the client that bears it as its name, and to no system variable. */
  lemma NumberResolves(chip: Chip, c: ClientImage, n: nat)
    ensures var last := LastNamed(Known(c), Decimal(n));
            && GetDspVar(HashOf(chip, c), Decimal(n)) == last
            && (last.Some? ==> CalcVarOffset(last.value.name, Decimal(n)) == Some(0))
  {
    hide SystemHash, AddToHash, Decimal, FirstSummand, RemoveBlanks, ToUpper, StartsWithDigit, CalcVarOffset, LastNamed;
    NumberIsItsSummand(n);
    SystemNamesAreNoNumbers(chip, Decimal(n));
    LastNamedWins(SystemHash(chip), Known(c), Decimal(n));
    LastNamedIsNamed(Known(c), Decimal(n));
    OwnNameHasOffset0(Decimal(n));
  }

  /** A client's prologue sets exactly that base, or leaves the register alone. */
  lemma PrologueSets(chip: Chip, c: ClientImage, start: u32, regs: Regs)
    requires start < 0x8000_0000
    ensures var base := PrologueBase(c, start);
            Exec1(regs, Prologue(chip, c, start)) == if base.Some? then regs.(user := base) else regs
  {
    hide HashOf, Decimal, NumberCmd, GetDspVar, CalcVarOffset, LastNamed;
    NumberResolves(chip, c, start);
    var last := LastNamed(Known(c), Decimal(start));
    if last == None {
      NumberCmdDecodes(HashOf(chip, c), c.id, USERMEMOFFSET, start);
    } else {
      CapturedNumber(HashOf(chip, c), c.id, USERMEMOFFSET, start, last.value);
    }
  }

  /** The base in force at every command of a client with a definition, whatever its variables are called: the one its
      prologue sets, or else the one the program had before. */
  lemma BaseInForce(kind: Kind, chip: Chip, cs: seq<ClientImage>, k: nat, j: nat, regs: Regs)
    requires k < |cs| && LinkAll(chip, cs).ok && DefinitionOf(kind, cs[k]).Text?
    requires NoBaseCmds(DefinitionOf(kind, cs[k]).cmds) && j <= |Body(kind, chip, cs, k)|
    requires StartOf(chip, cs, k) < 0x8000_0000
    ensures var base := PrologueBase(cs[k], StartOf(chip, cs, k));
            Exec(regs, Head(kind, chip, cs, k) + Body(kind, chip, cs, k)[..j]).user ==
              if base.Some? then base else Exec(regs, ProgramOf(kind, Before(chip, cs, k))).user
  {
    hide Before, Prologue, LinkAll, PrologueBase, NoBaseCmds, Body, Head, SetsBase, Exec, Exec1, StartOf;
    var program, start := ProgramOf(kind, Before(chip, cs, k)), StartOf(chip, cs, k);
    NoBaseInBody(kind, chip, cs, k, j);
    ExecAppend(regs, Head(kind, chip, cs, k), Body(kind, chip, cs, k)[..j]);
    ExecPlain(Exec(regs, Head(kind, chip, cs, k)), Body(kind, chip, cs, k)[..j]);
    HeadEndsWithPrologue(kind, chip, cs, k);
    ExecOneMore(regs, program, Prologue(chip, cs[k], start));
    PrologueSets(chip, cs[k], start, Exec(regs, program));
  }

  /** Whatever is in the register, the prologue puts the client's own start there, if and only if no variable the resolver
      knows is called like the start, or the last one that is had that very offset. */
  lemma PrologueSetsOwnStartIff(chip: Chip, c: ClientImage, start: u32)
    requires start < 0x8000_0000
    ensures var last := LastNamed(Known(c), Decimal(start));
            (forall regs: Regs :: Exec1(regs, Prologue(chip, c, start)).user == Some(start))
            <==> last == None || last.value.offset == start
  {
    hide Prologue, Decimal, LastNamed, Exec1;
    forall regs: Regs
      ensures Exec1(regs, Prologue(chip, c, start)) ==
              if PrologueBase(c, start).Some? then regs.(user := PrologueBase(c, start)) else regs
    {
      PrologueSets(chip, c, start, regs);
    }
    assert Exec1(RESET, Prologue(chip, c, start)).user == PrologueBase(c, start);
  }

  // ---------- a client with such a variable

  /** One local word named A and one named like the address the client will start at. */
  function NumberedClient(chip: Chip): ClientImage {
    ONE_CLIENT.(vars := [ONE_VAR, ONE_VAR.(name := Decimal(LayoutOf(chip).userWorkspace))])
  }

  lemma TwoPlaced(st: Alloc, start: u32, a: DspVar, b: DspVar)
    requires a.segment == ModuleLocal && b.segment == ModuleLocal && start == st.local < 0x7000_0000
    ensures PlaceVars(st, start, [a, b]).placed == st.placed + [a.(address := start, offset := 0)]
              + [b.(address := Wrap32(start + a.size), offset := Wrap32(Wrap32(start + a.size) - start))]
  {
    assert [a, b][..1] == [a] && [a][..0] == [];
    assert PlaceVars(st, start, []) == st;
    assert PlaceVars(st, start, [a]) == PlaceVar(st, start, a);
    assert Wrap32(start - start) == 0;
    hide Wrap32;
  }

  /** Its variables as the linking places them. */
  predicate NumberedAt(c: ClientImage, start: u32) {
    && |c.vars| == 2 && c.vars[0] == ONE_VAR.(address := start, offset := 0) && c.vars[1].name == Decimal(start)
    && c.detached == None && c.cyclic == Text([ONE_CMD]) && c.interrupt == Text([ONE_CMD])
  }

  lemma NumberedPlaced(chip: Chip)
    ensures NumberedAt(Placed(chip, [NumberedClient(chip)], 0), LayoutOf(chip).userWorkspace)
  {
    var cs := [NumberedClient(chip)];
    FirstStart(chip, cs);
    hide Before, PlaceVars, Decimal;
    var st := Before(chip, cs, 0).alloc;
    TwoPlaced(st, st.local, cs[0].vars[0], cs[0].vars[1]);
  }

  lemma NumberedKnowsA(chip: Chip, c: ClientImage, n: nat)
    requires c.detached == None && |c.vars| == 2 && c.vars[0].name == "A" && c.vars[1].name == Decimal(n)
    ensures GetDspVar(HashOf(chip, c), "A") == Some(c.vars[0]) && CalcVarOffset("A", "A") == Some(0)
  {
    NotANumber(n);
    NameA();
    hide SystemHash, Decimal, FirstSummand, RemoveBlanks, ToUpper, CalcVarOffset, AddToHash;
    assert c.vars == [c.vars[0], c.vars[1]];
    assert c.vars[..1] == [c.vars[0]];
    assert LastNamed(c.vars, "A") == Some(c.vars[0]);
    LastNamedWins(SystemHash(chip), c.vars, "A");
    ResolvedIn(HashOf(chip, c), "A", "A", c.vars[0]);
  }

  /** The word A resolves to the client's start. */
  predicate ResolvesToStart(hash: VarHash, start: u32) {
    && Target(hash, "A").Some? && Target(hash, "A").value.1 == 0
    && GetVarOffset(hash, "A") == 0 && GetVarAddress(hash, "A") == start
  }

  lemma NumberedLinks(chip: Chip)
    ensures LinkAll(chip, [NumberedClient(chip)]).ok
    ensures ResolvesToStart(HashOf(chip, Placed(chip, [NumberedClient(chip)], 0)), LayoutOf(chip).userWorkspace)
  {
    var cs := [NumberedClient(chip)];
    NumberedPlaced(chip);
    hide HashOf, Placed, Before, CompileLists, CompileAll, LinkAll, Decimal, GetVarOffset, GetVarAddress, GetDspVar, CalcVarOffset,
         Target, NumberedClient, Commands;
    var c := Placed(chip, cs, 0);
    NumberedKnowsA(chip, c, LayoutOf(chip).userWorkspace);
    ResolvedValues(HashOf(chip, c), "A", c.vars[0], 0);
    OneCompiles(HashOf(chip, c), c.id);
    CompiledLists(chip, c);
    NoneBeforeOk(chip, cs);
    LinksWhenCompiled(chip, cs, 0);
    OnceLinked(chip, cs[0]);
  }

  lemma NumberedBase(chip: Chip)
    ensures PrologueBase(NumberedClient(chip), LayoutOf(chip).userWorkspace) == Some(0)
  {
    hide Decimal;
    var vars := NumberedClient(chip).vars;
    assert vars == vars[..1] + [vars[1]];
  }

  lemma NumberedDefinition(kind: Kind, chip: Chip)
    ensures DefinitionOf(kind, NumberedClient(chip)) == Text([ONE_CMD])
  {
  }

  /** The clients link, the first command of the first one works on the word at this address, and the server uses another
      address, the client's start, for the same text. */
  ghost predicate WorksOn(kind: Kind, chip: Chip, cs: seq<ClientImage>, regs: Regs, address: u32) {
    && cs != [] && LinkAll(chip, cs).ok
    && StaleOperandAt(ProgramOf(kind, LinkAll(chip, cs)), |Head(kind, chip, cs, 0)|, regs, ONE_CMD, 0, 0, address)
    && GetVarAddress(HashOf(chip, Placed(chip, cs, 0)), "A") == StartOf(chip, cs, 0) != address
  }

  /** The failing input: a client with a variable called like its start address, linked alone. Its prologue sets the
      base 0, and its command works on the word at address 0 instead of the one the server reads and writes under the
      same text. For both programs and on both chips. */
  lemma NumberedVariableMovesBase(kind: Kind, chip: Chip, regs: Regs)
    ensures WorksOn(kind, chip, [NumberedClient(chip)], regs, 0)
  {
    var cs := [NumberedClient(chip)];
    FirstStart(chip, cs);
    NumberedLinks(chip);
    NumberedBase(chip);
    NumberedPlaced(chip);
    NumberedDefinition(kind, chip);
    OneCmdIsPlain();
    OneCommand();
    OneRelative();
    hide HashOf, Placed, Before, CompileLists, CompileAll, CompileOne, LinkAll, Decimal, GetVarOffset, GetVarAddress, Target,
         NumberedClient, Commands, StartOf, Head, Body, NoBaseCmds, PrologueBase, Exec, DecodeOperands, DspCmd;
    var c := Placed(chip, cs, 0);
    var program, head, body := ProgramOf(kind, LinkAll(chip, cs)), Head(kind, chip, cs, 0), Body(kind, chip, cs, 0);
    BodiesInPlace(kind, chip, cs, 0);
    BodyIsListOf(kind, chip, cs, 0);
    BodyOfDefinition(kind, chip, c);
    BaseInForce(kind, chip, cs, 0, 0, regs);
    InPlace(program, head, body, 0);
    OperandOfInstr(HashOf(chip, c), c.id, INC, [Token("A", None)], 0);
  }
}
