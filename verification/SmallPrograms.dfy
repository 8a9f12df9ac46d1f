/** Small programs: one that meets the hypotheses of the results about linked programs, one in which the left-over
    instructions of an emptied definition run under a foreign base, and one in which a kept resolver has gone stale. */
module SmallPrograms {
  import opened MachineWords
  import opened Wrappers
  import opened DspVarOffsetCalc
  import opened DspApi
  import opened DspVarResolver
  import opened DspCmdCompiler
  import opened VarAllocator
  import opened MemoryIsolation
  import opened ZdspClientImage
  import opened ProgramLinker
  import opened LinkedMeaning
  import opened LinkedBases
  import opened NumberNames
  import opened StaleResolver

  const INC: CmdCode := 54

  const ONE_VAR := DspVar("A", 1, FloatType, ModuleLocal, 0, 0)

  const ONE_CMD := Command(Some(INC), [Token("A", None)])

  const ONE_CLIENT := ClientImage(1, [ONE_VAR], None, Text([ONE_CMD]), Text([ONE_CMD]), [], [])

  /** One local word named A, and in each program either the command that increments it or left-over instructions that
      set no base. */
  ghost predicate Simple(c: ClientImage) {
    && |c.vars| == 1 && c.vars[0].name == "A" && c.vars[0].segment == ModuleLocal && c.vars[0].size == 1
    && c.detached == None
    && (c.cyclic == Text([ONE_CMD]) || c.cyclic == NoText) && (forall i <- c.cyclicList :: !SetsBase(i))
    && (c.interrupt == Text([ONE_CMD]) || c.interrupt == NoText) && (forall i <- c.interruptList :: !SetsBase(i))
  }

  ghost predicate AllSimple(cs: seq<ClientImage>) {
    forall k :: 0 <= k < |cs| ==> Simple(cs[k])
  }

  lemma OneSimple()
    ensures Simple(ONE_CLIENT)
  {
  }

  lemma PlacedSimple(chip: Chip, cs: seq<ClientImage>, k: nat)
    requires k < |cs| && Simple(cs[k])
    ensures var c := Placed(chip, cs, k);
            && Simple(c) && c.vars[0].offset == 0 && c.vars[0].address == StartOf(chip, cs, k)
            && c.id == cs[k].id && c.cyclic == cs[k].cyclic && c.interrupt == cs[k].interrupt
            && c.cyclicList == cs[k].cyclicList && c.interruptList == cs[k].interruptList
  {
    hide Before;
    var st, v := Before(chip, cs, k).alloc, cs[k].vars[0];
    assert cs[k].vars[..0] == [] && cs[k].vars == [v];
    assert PlaceVars(st, st.local, [v]) == PlaceVar(st, st.local, v);
    assert PlaceVar(st, st.local, v).placed[|st.placed|..] == [PlaceAt(v, st.local, st.local)];
  }

  lemma NameA()
    ensures FirstSummand(RemoveBlanks(ToUpper("A"))) == Some("A") && CalcVarOffset("A", "A") == Some(0)
  {
    VarOffsetReadsBack("A", 0);
    assert ToUpper("A") == "A";
    NoBlanksToRemove("A");
    NoPlusToCut("A", "");
    assert "A" + "" == "A";
  }

  lemma SimpleResolves(chip: Chip, c: ClientImage)
    requires Simple(c) && c.vars[0].offset == 0
    ensures Target(HashOf(chip, c), "A") == Some((c.vars[0], 0)) && GetVarOffset(HashOf(chip, c), "A") == 0
  {
    NameA();
    hide SystemHash, FirstSummand, RemoveBlanks, ToUpper, CalcVarOffset, SetsBase;
    assert c.vars[..|c.vars| - 1] == [];
    assert AddToHash(SystemHash(chip), []) == SystemHash(chip);
    assert HashOf(chip, c) == SystemHash(chip)["A" := c.vars[0]];
  }

  lemma OneCompiles(hash: VarHash, id: u16)
    requires GetVarOffset(hash, "A") == 0
    ensures CompileAll(hash, id, [ONE_CMD]).ok && Commands([ONE_CMD]) == [ONE_CMD]
    ensures |CompileAll(hash, id, [ONE_CMD]).list| == 1 && forall i <- CompileAll(hash, id, [ONE_CMD]).list :: !SetsBase(i)
  {
    hide CompileOne, SetsBase, NoBaseCmds, GetVarOffset;
    OneCmdIsPlain();
    PlainBody(hash, id, [ONE_CMD]);
    OneAssembles(hash, id);
    assert [ONE_CMD][..0] == [];
  }

  lemma OneAssembles(hash: VarHash, id: u16)
    requires GetVarOffset(hash, "A") == 0
    ensures CompileOne(hash, id, Some(INC), [Token("A", None)]).ok
  {
    hide GetVarOffset, Operand32;
    assert Operand16(hash, [Token("A", None)], 0) == 0;
  }

  /** The list a definition compiles to, or the instructions from before. */
  function ListAfter(hash: VarHash, id: u16, definition: Definition, before: seq<Instr>): seq<Instr> {
    if definition.Text? then CompileAll(hash, id, definition.cmds).list else before
  }

  lemma CompiledLists(chip: Chip, c: ClientImage)
    requires c.cyclic.Text? ==> CompileAll(HashOf(chip, c), c.id, c.cyclic.cmds).ok
    requires c.interrupt.Text? ==> CompileAll(HashOf(chip, c), c.id, c.interrupt.cmds).ok
    ensures var hash := HashOf(chip, c);
            && CompileLists(chip, c).1
            && CompileLists(chip, c).0 == c.(cyclicList := ListAfter(hash, c.id, c.cyclic, c.cyclicList),
                                             interruptList := ListAfter(hash, c.id, c.interrupt, c.interruptList))
  {
    hide HashOf, CompileAll;
  }

  lemma SimpleWith(c: ClientImage, cyclicList: seq<Instr>, interruptList: seq<Instr>)
    requires Simple(c) && (forall i <- cyclicList :: !SetsBase(i)) && (forall i <- interruptList :: !SetsBase(i))
    ensures Simple(c.(cyclicList := cyclicList, interruptList := interruptList))
  {
  }

  lemma SimpleParts(c: ClientImage)
    requires Simple(c)
    ensures (c.cyclic == Text([ONE_CMD]) || c.cyclic == NoText) && (c.interrupt == Text([ONE_CMD]) || c.interrupt == NoText)
    ensures (forall i <- c.cyclicList :: !SetsBase(i)) && (forall i <- c.interruptList :: !SetsBase(i))
  {
  }

  /** What compiling leaves: a definition's one instruction, or the instructions from before. */
  lemma SimpleCompiles(kind: Kind, chip: Chip, c: ClientImage)
    requires Simple(c) && c.vars[0].offset == 0
    ensures var (compiled, ok, _) := CompileLists(chip, c);
            && ok && Simple(compiled) && (DefinitionOf(kind, c).Text? ==> ListOf(kind, compiled) != [])
  {
    SimpleResolves(chip, c);
    hide HashOf, CompileAll, SetsBase, GetVarOffset, CompileLists, Simple;
    OneCompiles(HashOf(chip, c), c.id);
    SimpleParts(c);
    CompiledLists(chip, c);
    SimpleWith(c, ListAfter(HashOf(chip, c), c.id, c.cyclic, c.cyclicList),
               ListAfter(HashOf(chip, c), c.id, c.interrupt, c.interruptList));
  }

  lemma {:induction false} SimpleBefore(chip: Chip, cs: seq<ClientImage>, k: nat)
    requires AllSimple(cs) && k <= |cs|
    ensures Before(chip, cs, k).ok
  {
    hide Before, CompileLists, Simple, Placed;
    if k == 0 {
      NoneBeforeOk(chip, cs);
    } else {
      SimpleBefore(chip, cs, k - 1);
      PlacedSimple(chip, cs, k - 1);
      SimpleCompiles(Cyclic, chip, Placed(chip, cs, k - 1));
      LinksWhenCompiled(chip, cs, k - 1);
    }
  }

  lemma SimpleLinks(chip: Chip, cs: seq<ClientImage>)
    requires AllSimple(cs)
    ensures LinkAll(chip, cs).ok
  {
    SimpleBefore(chip, cs, |cs|);
    assert cs[..|cs|] == cs;
    hide LinkClients, LinkStart, AllSimple;
  }

  lemma NotANumber(n: nat)
    ensures Decimal(n) != "A"
  {
    DecimalDigits(n);
  }

  lemma SimpleNumbersAreFree(chip: Chip, c: ClientImage, n: u32)
    requires Simple(c) && n < 0x8000_0000
    ensures NumberIsFree(chip, c, n)
  {
    hide NumberIsFree, Decimal, SetsBase;
    NotANumber(n);
    NumberIsFreeIff(chip, c, n);
  }

  lemma OneCmdIsPlain()
    ensures NoBaseCmds([ONE_CMD]) && NoDspBaseCmds([ONE_CMD])
  {
  }

  lemma SimpleStart(chip: Chip, cs: seq<ClientImage>, k: nat)
    requires AllSimple(cs) && ClientsFit(chip, cs) && k < |cs|
    ensures StartOf(chip, cs, k) < 0x7000_0000
  {
    hide Before, ClientsFit, Placed, Simple, StartOf;
    SimpleBefore(chip, cs, k + 1);
    PlacedSimple(chip, cs, k);
    SimpleFirst(Placed(chip, cs, k));
    FittingWordsWithinReach(chip, cs, k, Placed(chip, cs, k).vars[0], 0);
  }

  lemma SimpleFirst(c: ClientImage)
    requires Simple(c)
    ensures c.vars != [] && c.vars[0].segment == ModuleLocal && c.vars[0].size == 1
  {
  }

  lemma SimpleLeavesBases(kind: Kind, chip: Chip, cs: seq<ClientImage>, k: nat)
    requires k < |cs| && Simple(cs[k]) && NumberIsFree(chip, cs[k], StartOf(chip, cs, k))
    ensures BaseLeftAlone(kind, chip, cs, k) && ListKeepsDspBase(kind, cs[k])
  {
    OneCmdIsPlain();
    hide NumberIsFree, StartOf, NoBaseCmds, NoDspBaseCmds;
  }

  lemma SimpleBasesLeftAlone(kind: Kind, chip: Chip, cs: seq<ClientImage>)
    requires AllSimple(cs) && ClientsFit(chip, cs) && cs != []
    ensures BasesLeftAlone(kind, chip, cs) && DspBaseLeftAlone(kind, chip, cs)
  {
    hide ClientsFit, BaseLeftAlone, ListKeepsDspBase, NumberIsFree, StartOf, Simple;
    SimpleNumbersAreFree(chip, cs[0], LayoutOf(chip).dspWorkspace);
    forall k | 0 <= k < |cs| ensures BaseLeftAlone(kind, chip, cs, k) && ListKeepsDspBase(kind, cs[k]) {
      SimpleStart(chip, cs, k);
      SimpleNumbersAreFree(chip, cs[k], StartOf(chip, cs, k));
      SimpleLeavesBases(kind, chip, cs, k);
    }
  }

  lemma NothingDeclared(l: Layout)
    requires l.Sound()
    ensures SegmentTotal([], ModuleLocal) == SegmentTotal([], ModuleAligned) == 0
    ensures GlobalSizes([]) == map[] && GlobalTotal([]) == 0
  {
    var empty: map<string, nat> := map[];
    assert Sum(empty) == 0;
  }

  /** Local words add up, and nothing else does. */
  lemma {:induction false} LocalTotals(l: Layout, vars: seq<DspVar>)
    requires l.Sound() && forall i :: 0 <= i < |vars| ==> vars[i].segment == ModuleLocal && vars[i].size == 1
    ensures SegmentTotal(vars, ModuleLocal) == |vars| && SegmentTotal(vars, ModuleAligned) == 0 && GlobalTotal(vars) == 0
  {
    if vars == [] {
      NothingDeclared(l);
    } else {
      var front, last := vars[..|vars| - 1], vars[|vars| - 1];
      LocalTotals(l, front);
      TotalsStep(front, last, ModuleLocal);
      TotalsStep(front, last, ModuleAligned);
      assert vars == front + [last];
      hide SegmentTotal, GlobalTotal, GlobalSizes;
    }
  }

  lemma {:induction false} SimpleVars(cs: seq<ClientImage>)
    requires AllSimple(cs)
    ensures var vars := Flatten(Lists(cs));
            |vars| == |cs| && forall i :: 0 <= i < |vars| ==> vars[i].segment == ModuleLocal && vars[i].size == 1
  {
    if cs == [] {
    } else {
      var k := |cs| - 1;
      assert AllSimple(cs[..k]);
      assert Simple(cs[k]);
      SimpleVars(cs[..k]);
      ListsNext(cs, k);
      assert cs[..k + 1] == cs;
      hide Flatten, Lists, SetsBase;
    }
  }

  lemma SimpleFits(chip: Chip, cs: seq<ClientImage>)
    requires AllSimple(cs) && |cs| <= LayoutOf(chip).VarMemAvailable()
    ensures ClientsFit(chip, cs)
  {
    SimpleVars(cs);
    LocalTotals(LayoutOf(chip), Flatten(Lists(cs)));
    hide Flatten, Lists, SegmentTotal, GlobalTotal, AllSimple;
  }

  // ---------- one client

  lemma NamesFirst(chip: Chip, c: ClientImage)
    requires Simple(c) && c.vars[0].offset == 0 && c.vars[0].address < 0x8000_0000
    ensures Names(ONE_CMD, 0, HashOf(chip, c), c.vars[0], 0)
  {
    OneRelative();
    SimpleResolves(chip, c);
    hide HashOf, Target, Relative, SetsBase;
  }

  lemma OneNames(chip: Chip)
    ensures var p := Placed(chip, [ONE_CLIENT], 0);
            p.vars != [] && Names(ONE_CMD, 0, HashOf(chip, p), p.vars[0], 0)
  {
    hide HashOf, Placed, Names, ClientsFit, Before, Simple, StartOf;
    OneSimple();
    SimpleFits(chip, [ONE_CLIENT]);
    PlacedSimple(chip, [ONE_CLIENT], 0);
    SimpleFirst(Placed(chip, [ONE_CLIENT], 0));
    SimpleStart(chip, [ONE_CLIENT], 0);
    NamesFirst(chip, Placed(chip, [ONE_CLIENT], 0));
  }

  lemma OneRelative()
    ensures Relative(DspCmd(INC), 0)
  {
  }

  /** The hypotheses of the results about linked programs can be met together, for both programs and on both chips. */
  lemma HypothesesAreMet(kind: Kind, chip: Chip)
    ensures var cs := [ONE_CLIENT];
            var p := Placed(chip, cs, 0);
            && LinkAll(chip, cs).ok && ClientsFit(chip, cs) && Judged(kind, chip, cs, 0)
            && p.vars != [] && Names(ONE_CMD, 0, HashOf(chip, p), p.vars[0], 0)
            && BasesLeftAlone(kind, chip, cs) && DspBaseLeftAlone(kind, chip, cs)
  {
    hide LinkAll, ClientsFit, Names, HashOf, Placed, DspBaseLeftAlone, Before, NumberIsFree, NoBaseCmds;
    var cs := [ONE_CLIENT];
    OneSimple();
    SimpleLinks(chip, cs);
    SimpleFits(chip, cs);
    SimpleBasesLeftAlone(kind, chip, cs);
    OneNames(chip);
    FirstStart(chip, cs);
    assert BaseLeftAlone(kind, chip, cs, 0);
  }

  lemma FirstStart(chip: Chip, cs: seq<ClientImage>)
    ensures StartOf(chip, cs, 0) == LayoutOf(chip).userWorkspace < 0x7000_0000
  {
    hide NumberCmd;
    assert cs[..0] == [];
  }

  // ---------- two clients, one of which empties its definition

  const OTHER_CLIENT := ONE_CLIENT.(id := 2)

  const BOTH := [ONE_CLIENT, OTHER_CLIENT]

  /** The clients after both were linked and the second one has emptied its definition. */
  function Emptied(kind: Kind, c: ClientImage): ClientImage {
    match kind case Cyclic => c.(cyclic := NoText) case Interrupt => c.(interrupt := NoText)
  }

  /** What linking leaves of the first k clients. */
  ghost predicate LeftBy(kind: Kind, cs: seq<ClientImage>, linked: seq<ClientImage>) {
    && |linked| <= |cs|
    && forall i :: 0 <= i < |linked| ==> LeftOf(kind, cs[i], linked[i])
  }

  ghost predicate LeftOf(kind: Kind, c: ClientImage, linked: ClientImage) {
    && Simple(linked) && DefinitionOf(kind, linked) == DefinitionOf(kind, c)
    && (DefinitionOf(kind, c).Text? ==> ListOf(kind, linked) != [])
  }

  lemma NoneLinked(chip: Chip, cs: seq<ClientImage>)
    ensures Before(chip, cs, 0).clients == []
  {
    hide NumberCmd;
    assert cs[..0] == [];
  }

  lemma {:induction false} LinkedSimple(kind: Kind, chip: Chip, cs: seq<ClientImage>, k: nat)
    requires AllSimple(cs) && k <= |cs|
    ensures |Before(chip, cs, k).clients| == k && LeftBy(kind, cs, Before(chip, cs, k).clients)
  {
    hide Before, CompileLists, Simple, PlaceVars, Prologue, Placed, LeftOf;
    if k == 0 {
      NoneLinked(chip, cs);
    } else {
      LinkedSimple(kind, chip, cs, k - 1);
      SimpleBefore(chip, cs, k);
      StepShape(chip, cs, k - 1);
      OneLeft(kind, chip, cs, k - 1);
    }
  }

  lemma OneLeft(kind: Kind, chip: Chip, cs: seq<ClientImage>, k: nat)
    requires k < |cs| && Simple(cs[k])
    ensures LeftOf(kind, cs[k], CompileLists(chip, Placed(chip, cs, k)).0)
  {
    PlacedSimple(chip, cs, k);
    hide Placed, CompileLists;
    SimpleCompiles(kind, chip, Placed(chip, cs, k));
    CompiledDefinition(kind, chip, Placed(chip, cs, k));
  }

  lemma CompiledDefinition(kind: Kind, chip: Chip, c: ClientImage)
    ensures DefinitionOf(kind, CompileLists(chip, c).0) == DefinitionOf(kind, c)
  {
    hide CompileAll, HashOf;
  }

  lemma EmptiedIsSimple(kind: Kind, c: ClientImage)
    requires Simple(c)
    ensures Simple(Emptied(kind, c)) && DefinitionOf(kind, Emptied(kind, c)).NoText?
    ensures ListOf(kind, Emptied(kind, c)) == ListOf(kind, c)
  {
  }

  /** Two clients are linked, the second empties its definition, both are linked again: its instruction is still in the
      program and runs under the base of the first client. For both programs and on both chips. */
  lemma EmptiedDefinitionRunsUnderForeignBase(kind: Kind, chip: Chip)
    ensures var first := LinkAll(chip, BOTH);
            && first.ok && |first.clients| == 2
            && var cs := first.clients[1 := Emptied(kind, first.clients[1])];
               && LinkAll(chip, cs).ok && ClientsFit(chip, cs)
               && ListOf(kind, cs[1]) != []
               && Head(kind, chip, cs, 1) + ListOf(kind, cs[1]) <= ProgramOf(kind, LinkAll(chip, cs))
               && BaseAt(kind, chip, cs, 1) == Some(StartOf(chip, cs, 0)) != Some(StartOf(chip, cs, 1))
  {
    hide LinkAll, Before, ClientsFit, BasesLeftAlone, DspBaseLeftAlone, Head, BaseAt, StartOf, Emptied, Simple, SegmentTotal;
    BothSimple();
    SimpleLinks(chip, BOTH);
    LinkedEnds(chip, BOTH);
    LinkedSimple(kind, chip, BOTH, 2);
    var linked := LinkAll(chip, BOTH).clients;
    EmptiedIsSimple(kind, linked[1]);
    var cs := linked[1 := Emptied(kind, linked[1])];
    assert LeftOf(kind, BOTH[0], linked[0]) && LeftOf(kind, BOTH[1], linked[1]);
    assert AllSimple(cs);
    SimpleLinks(chip, cs);
    SimpleFits(chip, cs);
    SimpleBasesLeftAlone(kind, chip, cs);
    SimpleDeclaresOne(chip, cs[0]);
    LeftOverRunsUnderForeignBase(kind, chip, cs, 1);
  }

  lemma BothSimple()
    ensures AllSimple(BOTH) && |BOTH| == 2
    ensures forall kind: Kind :: DefinitionOf(kind, BOTH[0]).Text? && DefinitionOf(kind, BOTH[1]).Text?
  {
  }

  lemma SimpleDeclaresOne(chip: Chip, c: ClientImage)
    requires Simple(c)
    ensures SegmentTotal(c.vars, ModuleLocal) == 1
  {
    LocalTotals(LayoutOf(chip), c.vars);
  }

  // ---------- two clients, one of which sends a list that is rejected

  /** What the second of two linked clients is after it has sent a list with an entry that does not parse. */
  function Unlisted(chip: Chip): ClientImage
    requires |LinkAll(chip, BOTH).clients| == 2
  {
    Relisted(chip, BOTH, 1, [None])
  }

  lemma NotParsed(chip: Chip)
    requires LinkAll(chip, BOTH).ok && |LinkAll(chip, BOTH).clients| == 2
    ensures RejectedAfterLinking(chip, BOTH, 1, [None])
  {
    hide LinkAll, HashOf;
    var entries: seq<Option<DspVar>> := [None];
    assert None in entries;
    assert !EntryAccepted(LinkAll(chip, BOTH).alloc.table, HashOf(chip, LinkAll(chip, BOTH).clients[1]), None);
  }

  lemma StaleParts(chip: Chip)
    requires LinkAll(chip, BOTH).ok && |LinkAll(chip, BOTH).clients| == 2
    ensures var c := Unlisted(chip);
            && c.detached == Some(Known(Placed(chip, BOTH, 1)))
            && c.cyclic == Text([ONE_CMD]) && c.interrupt == Text([ONE_CMD])
  {
    hide LinkAll, HashOf, Placed, Relisted, SetVarList, Simple;
    NotParsed(chip);
    RejectedKeepsPlaced(chip, BOTH, 1, [None]);
    LinkedResolver(chip, BOTH, 1);
    BothSimple();
    PlacedSimple(chip, BOTH, 1);
    RelistedKeepsLists(chip, BOTH, 1, [None]);
  }

  lemma RelistedKeepsLists(chip: Chip, before: seq<ClientImage>, k: nat, entries: seq<Option<DspVar>>)
    requires k < |LinkAll(chip, before).clients|
    ensures Relisted(chip, before, k, entries).cyclic == LinkAll(chip, before).clients[k].cyclic
    ensures Relisted(chip, before, k, entries).interrupt == LinkAll(chip, before).clients[k].interrupt
  {
    hide LinkAll, HashOf, EntryAccepted;
  }

  lemma LinksWhenCompiled(chip: Chip, cs: seq<ClientImage>, k: nat)
    requires k < |cs| && Before(chip, cs, k).ok && CompileLists(chip, Placed(chip, cs, k)).1
    ensures Before(chip, cs, k + 1).ok
  {
    BeforeNext(chip, cs, k);
    hide Before, CompileLists, PlaceVars, Prologue;
  }

  /** It is enough that the resolver is one that knows the word A. */
  lemma StaleCompiles(chip: Chip, c: ClientImage, placed: ClientImage)
    requires Simple(placed) && placed.vars[0].offset == 0 && HashOf(chip, c) == HashOf(chip, placed)
    requires c.cyclic == Text([ONE_CMD]) && c.interrupt == Text([ONE_CMD])
    ensures CompileLists(chip, c).1
  {
    SimpleResolves(chip, placed);
    hide Simple, HashOf, Target, GetVarOffset, CompileAll, CompileLists, Commands;
    OneCompiles(HashOf(chip, c), c.id);
    CompiledLists(chip, c);
  }

  lemma OnceLinked(chip: Chip, c: ClientImage)
    requires Before(chip, [c], 1).ok
    ensures LinkAll(chip, [c]).ok
  {
    hide LinkClients, LinkStart;
    assert [c][..1] == [c];
  }

  lemma StaleLinks(chip: Chip, c: ClientImage, placed: ClientImage)
    requires Simple(placed) && placed.vars[0].offset == 0 && c.detached == Some(Known(placed))
    requires c.cyclic == Text([ONE_CMD]) && c.interrupt == Text([ONE_CMD])
    ensures LinkAll(chip, [c]).ok
  {
    hide Simple, HashOf, CompileLists, Before, Placed, LinkAll;
    KeptHash(chip, [c], 0);
    SameKnown(chip, c, placed);
    PlacedKeepsLists(chip, [c], 0);
    StaleCompiles(chip, Placed(chip, [c], 0), placed);
    NoneBeforeOk(chip, [c]);
    LinksWhenCompiled(chip, [c], 0);
    OnceLinked(chip, c);
  }

  lemma PlacedKeepsLists(chip: Chip, cs: seq<ClientImage>, k: nat)
    requires k < |cs|
    ensures Placed(chip, cs, k).cyclic == cs[k].cyclic && Placed(chip, cs, k).interrupt == cs[k].interrupt
  {
    hide Before, PlaceVars;
  }

  lemma StaleNumberIsFree(chip: Chip, c: ClientImage, placed: ClientImage)
    requires Simple(placed) && c.detached == Some(Known(placed))
    ensures NumberIsFree(chip, c, LayoutOf(chip).userWorkspace)
  {
    hide Simple, GetDspVar, Decimal, SystemHash, AddToHash;
    SimpleNumbersAreFree(chip, placed, LayoutOf(chip).userWorkspace);
  }

  lemma NoneBeforeOk(chip: Chip, cs: seq<ClientImage>)
    ensures Before(chip, cs, 0).ok
  {
    hide NumberCmd;
    assert cs[..0] == [];
  }

  lemma SecondStart(chip: Chip)
    requires LinkAll(chip, BOTH).ok
    ensures StartOf(chip, BOTH, 1) == LayoutOf(chip).userWorkspace + 1
  {
    hide Before, LinkAll, Simple, CompileLists, PlaceVars, Prologue;
    FirstStart(chip, BOTH);
    LinkedPrefix(chip, BOTH, 1);
    StepShape(chip, BOTH, 0);
    var st := Before(chip, BOTH, 0).alloc;
    assert BOTH[0].vars == [ONE_VAR];
    OneMoved(st);
  }

  lemma OneMoved(st: Alloc)
    requires st.local < 0x7000_0000
    ensures PlaceVars(st, st.local, [ONE_VAR]).local == st.local + 1
  {
    assert [ONE_VAR][..0] == [];
  }

  /** Two clients are linked, the second sends a list that is rejected, the first disconnects, and the second is linked
      again: its start has moved, and its command works on the word in front of the one the server still reads and writes
      under the same text. For both programs and on both chips. */
  lemma RejectedListWorksOnForeignWord(kind: Kind, chip: Chip, regs: Regs)
    ensures LinkAll(chip, BOTH).ok && |LinkAll(chip, BOTH).clients| == 2
    ensures var cs := [Unlisted(chip)];
            && LinkAll(chip, cs).ok && cs[0].detached.Some?
            && StartOf(chip, cs, 0) == StartOf(chip, BOTH, 1) - 1
            && StaleOperandAt(ProgramOf(kind, LinkAll(chip, cs)), |Head(kind, chip, cs, 0)|, regs, ONE_CMD, 0,
                              StartOf(chip, cs, 0), GetVarAddress(HashOf(chip, cs[0]), "A") - 1)
  {
    hide LinkAll, Before, ClientsFit, Head, StartOf, Simple, HashOf, Placed, Names, GetVarAddress, StaleOperandAt, Relisted,
         NumberIsFree, RejectedAfterLinking, NoBaseCmds;
    BothSimple();
    SimpleLinks(chip, BOTH);
    LinkedResolver(chip, BOTH, 1);
    SimpleFits(chip, BOTH);
    NotParsed(chip);
    StaleParts(chip);
    var cs, placed := [Unlisted(chip)], Placed(chip, BOTH, 1);
    PlacedSimple(chip, BOTH, 1);
    StaleLinks(chip, cs[0], placed);
    StaleNumberIsFree(chip, cs[0], placed);
    FirstStart(chip, cs);
    SecondStart(chip);
    SimpleFirst(placed);
    SameKnown(chip, cs[0], placed);
    NamesFirst(chip, placed);
    OneCmdIsPlain();
    OneCommand();
    OtherIsAttached();
    RejectedListGoesStale(kind, chip, BOTH, 1, [None], cs, 0, 0, 0, regs, placed.vars[0], 0);
  }

  lemma OtherIsAttached()
    ensures BOTH[1].detached == None
  {
  }

  lemma OneCommand()
    ensures Commands([ONE_CMD]) == [ONE_CMD] && ParamText([Token("A", None)], 0) == "A"
  {
    assert [ONE_CMD][..0] == [];
  }
}
