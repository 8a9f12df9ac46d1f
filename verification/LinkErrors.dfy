/** When linking fails, and what it leaves and reports then. */
module LinkErrors {
  import opened MachineWords
  import opened Wrappers
  import opened DspVarOffsetCalc
  import opened DspApi
  import opened DspVarResolver
  import opened DspCmdCompiler
  import opened VarAllocator
  import opened ZdspClientImage
  import opened ProgramLinker
  import opened LinkedMeaning
  import opened StaleResolver

  /** The commands of one of a client's two definitions. */
  function CommandsOf(kind: Kind, c: ClientImage): (r: seq<CmdLine>)
    ensures forall cmd <- r :: cmd.Command?
  {
    if DefinitionOf(kind, c).Text? then Commands(DefinitionOf(kind, c).cmds) else []
  }

  /** Command j compiles with the resolver the client has once its variables are placed. */
  predicate Compiles(chip: Chip, cs: seq<ClientImage>, k: nat, kind: Kind, j: nat)
    requires k < |cs| && j < |CommandsOf(kind, cs[k])|
  {
    CompilesAs(HashOf(chip, Placed(chip, cs, k)), cs[k].id, CommandsOf(kind, cs[k])[j])
  }

  predicate CompilesAs(hash: VarHash, id: u16, cmd: CmdLine)
    requires cmd.Command?
  {
    CompileOne(hash, id, cmd.code, cmd.params).ok
  }

  ghost predicate DefinitionCompiles(chip: Chip, cs: seq<ClientImage>, k: nat, kind: Kind)
    requires k < |cs|
  {
    forall j: nat :: j < |CommandsOf(kind, cs[k])| ==> Compiles(chip, cs, k, kind, j)
  }

  ghost predicate ClientCompiles(chip: Chip, cs: seq<ClientImage>, k: nat)
    requires k < |cs|
  {
    DefinitionCompiles(chip, cs, k, Cyclic) && DefinitionCompiles(chip, cs, k, Interrupt)
  }

  /** The first command that does not compile: clients in order, the cyclic definition before the interrupt one. */
  ghost predicate FirstFailure(chip: Chip, cs: seq<ClientImage>, k: nat, kind: Kind, j: nat) {
    && k < |cs| && j < |CommandsOf(kind, cs[k])| && !Compiles(chip, cs, k, kind, j)
    && (forall i: nat :: i < k ==> ClientCompiles(chip, cs, i))
    && (kind == Interrupt ==> DefinitionCompiles(chip, cs, k, Cyclic))
    && (forall i: nat :: i < j ==> Compiles(chip, cs, k, kind, i))
  }

  // ---------- one list

  /** A list stops at its first failing command, so all before it compile. */
  lemma {:induction false} StopsAtFirst(hash: VarHash, id: u16, cmds: seq<CmdLine>)
    ensures var r, cs := CompileAll(hash, id, cmds), Commands(cmds);
            && |r.list| <= |cs|
            && forall i :: 0 <= i < |r.list| - (if r.ok then 0 else 1) ==> CompileOne(hash, id, cs[i].code, cs[i].params).ok
  {
    hide CompileOne;
    if cmds == [] {
    } else {
      StopsAtFirst(hash, id, cmds[..|cmds| - 1]);
      CompileAllContent(hash, id, cmds[..|cmds| - 1]);
      CompileAllContent(hash, id, cmds);
    }
  }

  /** The list of a failed compilation: one instruction for each command before the failing one and an all-zero one for
      that. */
  ghost predicate FailedList(hash: VarHash, id: u16, cs: seq<CmdLine>, j: nat, list: seq<Instr>) {
    && j < |cs| && |list| == j + 1 && list[j] == NO_INSTR
    && forall i :: 0 <= i < j ==> cs[i].Command? && Compiled(list[i], true) == CompileOne(hash, id, cs[i].code, cs[i].params)
  }

  /** The list of a successful compilation: one instruction for each command. */
  ghost predicate WholeList(hash: VarHash, id: u16, cs: seq<CmdLine>, list: seq<Instr>) {
    && |list| == |cs|
    && forall i :: 0 <= i < |cs| ==> cs[i].Command? && Compiled(list[i], true) == CompileOne(hash, id, cs[i].code, cs[i].params)
  }

  lemma ListSucceeds(hash: VarHash, id: u16, cmds: seq<CmdLine>)
    requires CompileAll(hash, id, cmds).ok
    ensures WholeList(hash, id, Commands(cmds), CompileAll(hash, id, cmds).list)
  {
    hide CompileOne, Commands, CompileAll;
    CompileAllContent(hash, id, cmds);
  }

  lemma ListFails(hash: VarHash, id: u16, cmds: seq<CmdLine>, j: nat)
    requires j < |Commands(cmds)| && !CompilesAs(hash, id, Commands(cmds)[j])
    requires forall i: nat :: i < j ==> CompilesAs(hash, id, Commands(cmds)[i])
    ensures var r := CompileAll(hash, id, cmds);
            !r.ok && r.err == Some(Commands(cmds)[j]) && FailedList(hash, id, Commands(cmds), j, r.list)
  {
    hide CompileOne, Commands, CompileAll;
    CompileAllContent(hash, id, cmds);
    StopsAtFirst(hash, id, cmds);
    var r, cs := CompileAll(hash, id, cmds), Commands(cmds);
    assert !r.ok ==> !CompilesAs(hash, id, cs[|r.list| - 1]);
  }

  lemma ListCompilesIff(hash: VarHash, id: u16, cmds: seq<CmdLine>)
    ensures CompileAll(hash, id, cmds).ok <==>
            forall j: nat :: j < |Commands(cmds)| ==> CompilesAs(hash, id, Commands(cmds)[j])
  {
    hide CompileOne, Commands, CompileAll;
    CompileAllContent(hash, id, cmds);
    var r, cs := CompileAll(hash, id, cmds), Commands(cmds);
    if !r.ok {
      assert !CompilesAs(hash, id, cs[|r.list| - 1]);
    }
  }

  // ---------- one client

  lemma DefinitionIff(chip: Chip, cs: seq<ClientImage>, k: nat, kind: Kind)
    requires k < |cs|
    ensures var c := Placed(chip, cs, k);
            && DefinitionOf(kind, c) == DefinitionOf(kind, cs[k]) && c.id == cs[k].id
            && (DefinitionCompiles(chip, cs, k, kind) <==>
                  (DefinitionOf(kind, c).Text? ==> CompileAll(HashOf(chip, c), c.id, DefinitionOf(kind, c).cmds).ok))
  {
    hide CompileOne, CompileAll, HashOf, Before, PlaceVars, Commands;
    var c := Placed(chip, cs, k);
    hide Placed;
    if DefinitionOf(kind, cs[k]).Text? {
      ListCompilesIff(HashOf(chip, c), c.id, DefinitionOf(kind, c).cmds);
      var cmds := CommandsOf(kind, cs[k]);
      assert cmds == Commands(DefinitionOf(kind, c).cmds);
      if DefinitionCompiles(chip, cs, k, kind) {
        forall j: nat | j < |cmds| ensures CompilesAs(HashOf(chip, c), c.id, cmds[j]) {
          assert Compiles(chip, cs, k, kind, j);
        }
      } else {
        var j: nat :| j < |cmds| && !Compiles(chip, cs, k, kind, j);
        assert !CompilesAs(HashOf(chip, c), c.id, cmds[j]);
      }
    }
  }

  /** A client's two lists compile exactly when all its commands do. */
  lemma ClientIff(chip: Chip, cs: seq<ClientImage>, k: nat)
    requires k < |cs|
    ensures CompileLists(chip, Placed(chip, cs, k)).1 <==> ClientCompiles(chip, cs, k)
  {
    hide HashOf, CompileAll, Placed, DefinitionCompiles;
    DefinitionIff(chip, cs, k, Cyclic);
    DefinitionIff(chip, cs, k, Interrupt);
  }

  lemma TurnIff(chip: Chip, cs: seq<ClientImage>, k: nat)
    requires k < |cs|
    ensures Before(chip, cs, k + 1).ok <==> Before(chip, cs, k).ok && ClientCompiles(chip, cs, k)
  {
    ClientIff(chip, cs, k);
    hide Before, CompileLists, PlaceVars, Prologue, ClientCompiles;
    BeforeNext(chip, cs, k);
  }

  lemma {:induction false} BeforeIff(chip: Chip, cs: seq<ClientImage>, k: nat)
    requires k <= |cs|
    ensures Before(chip, cs, k).ok <==> forall i: nat :: i < k ==> ClientCompiles(chip, cs, i)
  {
    hide Before, ClientCompiles;
    if k == 0 {
      StartsOk(chip, cs);
    } else {
      BeforeIff(chip, cs, k - 1);
      TurnIff(chip, cs, k - 1);
    }
  }

  lemma StartsOk(chip: Chip, cs: seq<ClientImage>)
    ensures Before(chip, cs, 0).ok && Before(chip, cs, 0).err == None
  {
    hide NumberCmd;
    assert cs[..0] == [];
  }

  lemma AllIsLastBefore(chip: Chip, cs: seq<ClientImage>)
    ensures var r, st := LinkAll(chip, cs), Before(chip, cs, |cs|);
            r.ok == st.ok && r.err == st.err && r.clients == st.clients && (!r.ok ==> r == st)
  {
    hide LinkClients, LinkStart, EncodeCmd;
    assert cs[..|cs|] == cs;
  }

  /** Linking succeeds if and only if every command of every client compiles with the resolver the client has when its
      variables are placed; then nothing is reported. */
  lemma LinksIffAllCompile(chip: Chip, cs: seq<ClientImage>)
    ensures LinkAll(chip, cs).ok <==> forall k: nat :: k < |cs| ==> ClientCompiles(chip, cs, k)
    ensures LinkAll(chip, cs).ok ==> LinkAll(chip, cs).err == None
  {
    hide LinkAll, Before, ClientCompiles;
    AllIsLastBefore(chip, cs);
    BeforeIff(chip, cs, |cs|);
    if LinkAll(chip, cs).ok {
      NoErrorYet(chip, cs, |cs|);
    }
  }

  lemma {:induction false} NoErrorYet(chip: Chip, cs: seq<ClientImage>, k: nat)
    requires k <= |cs| && Before(chip, cs, k).ok
    ensures Before(chip, cs, k).err == None
  {
    hide Before, CompileLists, PlaceVars, Prologue;
    if k == 0 {
      StartsOk(chip, cs);
    } else {
      BeforeNext(chip, cs, k - 1);
      NoErrorYet(chip, cs, k - 1);
    }
  }

  // ---------- the failing turn

  /** What the failing client is left with: its variables are placed, and the list that failed ends at the failing
      command. An interrupt list behind a failing cyclic one is left as it was. */
  ghost predicate LeftByFailure(chip: Chip, cs: seq<ClientImage>, k: nat, kind: Kind, j: nat, c: ClientImage)
    requires k < |cs|
  {
    var placed := Placed(chip, cs, k);
    && c.vars == placed.vars && c.id == cs[k].id && c.detached == cs[k].detached
    && FailedList(HashOf(chip, placed), cs[k].id, CommandsOf(kind, cs[k]), j, ListOf(kind, c))
    && (kind == Cyclic ==> c.interruptList == cs[k].interruptList)
    && (kind == Interrupt ==>
          if cs[k].cyclic.Text? then WholeList(HashOf(chip, placed), cs[k].id, CommandsOf(Cyclic, cs[k]), c.cyclicList)
          else c.cyclicList == cs[k].cyclicList)
  }

  lemma FailingLists(chip: Chip, cs: seq<ClientImage>, k: nat, kind: Kind, j: nat)
    requires FirstFailure(chip, cs, k, kind, j)
    ensures var (c, ok, err) := CompileLists(chip, Placed(chip, cs, k));
            !ok && err == Some(CommandsOf(kind, cs[k])[j]) && LeftByFailure(chip, cs, k, kind, j, c)
  {
    hide HashOf, CompileAll, CompileOne, Commands, Before, PlaceVars, FailedList, WholeList;
    DefinitionIff(chip, cs, k, Cyclic);
    var placed := Placed(chip, cs, k);
    if kind == Interrupt && placed.cyclic.Text? {
      ListSucceeds(HashOf(chip, placed), placed.id, placed.cyclic.cmds);
    }
    assert placed.id == cs[k].id && placed.detached == cs[k].detached && placed.interruptList == cs[k].interruptList
           && placed.cyclicList == cs[k].cyclicList
           && DefinitionOf(kind, placed) == DefinitionOf(kind, cs[k]);
    hide Placed;
    forall i: nat | i < j ensures CompilesAs(HashOf(chip, placed), placed.id, Commands(DefinitionOf(kind, placed).cmds)[i]) {
      assert Compiles(chip, cs, k, kind, i);
    }
    ListFails(HashOf(chip, placed), placed.id, DefinitionOf(kind, placed).cmds, j);
  }

  /** Linking after the failing turn: the error stands, and the programs grow no more. */
  lemma {:induction false} ErrorStands(chip: Chip, cs: seq<ClientImage>, k: nat, m: nat)
    requires k <= m <= |cs| && !Before(chip, cs, k).ok
    ensures var st, later := Before(chip, cs, k), Before(chip, cs, m);
            !later.ok && later.err == st.err && later.cyc == st.cyc && later.irq == st.irq && later.alloc == st.alloc
            && later.clients == st.clients + cs[k..m]
    decreases m
  {
    hide Before, CompileLists, PlaceVars, Prologue;
    if k == m {
      assert cs[k..m] == [];
    } else {
      ErrorStands(chip, cs, k, m - 1);
      BeforeNext(chip, cs, m - 1);
      assert cs[k..m] == cs[k..m - 1] + [cs[m - 1]];
    }
  }

  /** The outcome of a failed linking. The programs hold what was linked before the failing client, and its prologues;
      the clients behind it are as they were. */
  ghost predicate FailedLink(chip: Chip, cs: seq<ClientImage>, k: nat, kind: Kind, j: nat, r: Linked)
    requires k < |cs| && j < |CommandsOf(kind, cs[k])|
  {
    var st := Before(chip, cs, k);
    && !r.ok && r.err == Some(CommandsOf(kind, cs[k])[j])
    && r.cyc == Head(Cyclic, chip, cs, k) && r.irq == Head(Interrupt, chip, cs, k)
    && |r.clients| == |cs| && |st.clients| == k && r.clients[..k] == st.clients && r.clients[k + 1..] == cs[k + 1..]
    && LeftByFailure(chip, cs, k, kind, j, r.clients[k])
  }

  lemma {:induction false} ClientsSoFar(chip: Chip, cs: seq<ClientImage>, k: nat)
    requires k <= |cs|
    ensures |Before(chip, cs, k).clients| == k
  {
    hide Before, CompileLists, PlaceVars, Prologue;
    if k == 0 {
      NoneBefore(chip, cs);
    } else {
      ClientsSoFar(chip, cs, k - 1);
      BeforeNext(chip, cs, k - 1);
    }
  }

  lemma FailingTurn(chip: Chip, cs: seq<ClientImage>, k: nat)
    requires k < |cs| && Before(chip, cs, k).ok && !CompileLists(chip, Placed(chip, cs, k)).1
    ensures var st, next := Before(chip, cs, k), Before(chip, cs, k + 1);
            && !next.ok && next.err == CompileLists(chip, Placed(chip, cs, k)).2
            && next.cyc == Head(Cyclic, chip, cs, k) && next.irq == Head(Interrupt, chip, cs, k)
            && next.clients == st.clients + [CompileLists(chip, Placed(chip, cs, k)).0]
  {
    hide Before, CompileLists, PlaceVars, Prologue;
    BeforeNext(chip, cs, k);
  }

  /** The first command that does not compile is the one a failed linking reports. */
  lemma FirstFailureIsReported(chip: Chip, cs: seq<ClientImage>, k: nat, kind: Kind, j: nat)
    requires FirstFailure(chip, cs, k, kind, j)
    ensures FailedLink(chip, cs, k, kind, j, LinkAll(chip, cs))
  {
    hide LinkAll, Before, CompileLists, Placed, Head, ClientCompiles, DefinitionCompiles, Compiles, LeftByFailure, CommandsOf;
    BeforeIff(chip, cs, k);
    FailingLists(chip, cs, k, kind, j);
    FailingTurn(chip, cs, k);
    ErrorStands(chip, cs, k + 1, |cs|);
    AllIsLastBefore(chip, cs);
    ClientsSoFar(chip, cs, k);
    assert cs[k + 1..|cs|] == cs[k + 1..];
  }

  lemma FirstOfDefinition(chip: Chip, cs: seq<ClientImage>, k: nat, kind: Kind) returns (j: nat)
    requires k < |cs| && !DefinitionCompiles(chip, cs, k, kind)
    ensures j < |CommandsOf(kind, cs[k])| && !Compiles(chip, cs, k, kind, j)
    ensures forall i: nat :: i < j ==> Compiles(chip, cs, k, kind, i)
  {
    hide Compiles, CommandsOf;
    j := 0;
    while Compiles(chip, cs, k, kind, j)
      invariant j < |CommandsOf(kind, cs[k])| && forall i: nat :: i < j ==> Compiles(chip, cs, k, kind, i)
      decreases |CommandsOf(kind, cs[k])| - j
    {
      if j == |CommandsOf(kind, cs[k])| - 1 {
        assert forall i: nat :: i < |CommandsOf(kind, cs[k])| ==> Compiles(chip, cs, k, kind, i);
      }
      j := j + 1;
    }
  }

  /** A linking that fails has such a first command, and reports it. */
  lemma FailedLinkReports(chip: Chip, cs: seq<ClientImage>) returns (k: nat, kind: Kind, j: nat)
    requires !LinkAll(chip, cs).ok
    ensures FirstFailure(chip, cs, k, kind, j) && FailedLink(chip, cs, k, kind, j, LinkAll(chip, cs))
  {
    hide LinkAll, Compiles, CommandsOf, FailedLink, DefinitionCompiles;
    LinksIffAllCompile(chip, cs);
    k := 0;
    while ClientCompiles(chip, cs, k)
      invariant k < |cs| && forall i: nat :: i < k ==> ClientCompiles(chip, cs, i)
      decreases |cs| - k
    {
      if k == |cs| - 1 {
        assert forall i: nat :: i < |cs| ==> ClientCompiles(chip, cs, i);
      }
      k := k + 1;
    }
    kind := if DefinitionCompiles(chip, cs, k, Cyclic) then Interrupt else Cyclic;
    j := FirstOfDefinition(chip, cs, k, kind);
    FirstFailureIsReported(chip, cs, k, kind, j);
  }
}
