/** Links all clients' command lists into one cyclic and one interrupt program, and says what the operands of the
    linked programs denote on a machine with two base registers. */
module ProgramLinker {
  import opened MachineWords
  import opened Wrappers
  import opened DspVarOffsetCalc
  import opened DspApi
  import opened DspVarResolver
  import opened DspCmdCompiler
  import opened VarAllocator
  import opened MemoryIsolation
  import opened ZdspClientImage

  datatype Linked = Linked(alloc: Alloc, clients: seq<ClientImage>, cyc: seq<Instr>, irq: seq<Instr>,
                           ok: bool, err: Option<CmdLine>)

  /** A command with one number as its parameter, as the server writes it. */
  function NumberCmd(hash: VarHash, id: u16, code: CmdCode, n: nat): Instr {
    CompileOne(hash, id, Some(code), [Token(Decimal(n), None)]).instr
  }

  /** The prologue of a client's body, compiled with the client's own resolver before its variables move. */
  function Prologue(chip: Chip, c: ClientImage, start: u32): Instr {
    NumberCmd(HashOf(chip, c), c.id, USERMEMOFFSET, start)
  }

  function LinkClient(chip: Chip, st: Linked, c: ClientImage): Linked {
    if !st.ok then st.(clients := st.clients + [c])
    else
      var start := st.alloc.local;
      var prologue := [Prologue(chip, c, start)];
      var cyc := st.cyc + if c.cyclic.Text? then prologue else [];
      var irq := st.irq + if c.interrupt.Text? then prologue else [];
      var alloc := PlaceVars(st.alloc, start, c.vars);
      var (compiled, ok, err) := CompileLists(chip, c.(vars := alloc.placed[|st.alloc.placed|..]));
      if ok then Linked(alloc, st.clients + [compiled], cyc + compiled.cyclicList, irq + compiled.interruptList, true, st.err)
      else Linked(alloc, st.clients + [compiled], cyc, irq, false, err)
  }

  function LinkClients(chip: Chip, st: Linked, cs: seq<ClientImage>): Linked {
    if cs == [] then st else LinkClient(chip, LinkClients(chip, st, cs[..|cs| - 1]), cs[|cs| - 1])
  }

  function LinkStart(chip: Chip, cs: seq<ClientImage>): Linked {
    var l := LayoutOf(chip);
    Linked(Start(l), [],
           if cs == [] then [] else [NumberCmd(HashOf(chip, cs[0]), cs[0].id, DSPMEMOFFSET, l.dspWorkspace)],
           [], true, None)
  }

  /** The whole linking. A compile error stops it and leaves the programs without their ends. */
  function LinkAll(chip: Chip, cs: seq<ClientImage>): Linked {
    var st := LinkClients(chip, LinkStart(chip, cs), cs);
    if !st.ok then st
    else
      var post := if cs == [] then [] else [EncodeCmd(DSPINTPOST)];
      st.(cyc := st.cyc + post + [EncodeCmd(INVALID)], irq := st.irq + [EncodeCmd(INVALID)])
  }

  // ---------- the machine

  /** The two base registers; None before a program has set them. */
  datatype Regs = Regs(user: Option<u32>, dsp: Option<u32>)

  function Exec1(r: Regs, i: Instr): Regs {
    if CodeOf(i) == USERMEMOFFSET then r.(user := Some(i.w1))
    else if CodeOf(i) == DSPMEMOFFSET then r.(dsp := Some(i.w1))
    else r
  }

  function Exec(r: Regs, program: seq<Instr>): Regs {
    if program == [] then r else Exec1(Exec(r, program[..|program| - 1]), program[|program| - 1])
  }

  lemma {:induction false} ExecAppend(r: Regs, a: seq<Instr>, b: seq<Instr>)
    ensures Exec(r, a + b) == Exec(Exec(r, a), b)
  {
    if b == [] {
      assert a + b == a;
    } else {
      ExecAppend(r, a, b[..|b| - 1]);
      assert (a + b)[..|a + b| - 1] == a + b[..|b| - 1];
    }
  }

  lemma ExecOneMore(regs: Regs, program: seq<Instr>, i: Instr)
    ensures Exec(regs, program + [i]) == Exec1(Exec(regs, program), i)
  {
    assert (program + [i])[..|program|] == program;
  }

  predicate SetsBase(i: Instr) {
    CodeOf(i) == USERMEMOFFSET || CodeOf(i) == DSPMEMOFFSET
  }

  lemma {:induction false} ExecPlain(r: Regs, program: seq<Instr>)
    requires forall i <- program :: !SetsBase(i)
    ensures Exec(r, program) == r
  {
    if program == [] {
    } else {
      ExecPlain(r, program[..|program| - 1]);
      assert program[|program| - 1] in program;
    }
  }

  /** A definition that leaves the base registers to the server. */
  predicate NoBaseCmds(cmds: seq<CmdLine>) {
    forall c <- cmds :: c.Command? ==> c.code != Some(USERMEMOFFSET) && c.code != Some(DSPMEMOFFSET)
  }

  lemma {:induction false} CommandsAreLines(cmds: seq<CmdLine>)
    ensures forall c <- Commands(cmds) :: c in cmds
  {
    if cmds == [] {
    } else {
      CommandsAreLines(cmds[..|cmds| - 1]);
    }
  }

  lemma PlainOne(hash: VarHash, id: u16, code: Option<CmdCode>, params: seq<Token>)
    requires code != Some(USERMEMOFFSET) && code != Some(DSPMEMOFFSET)
    ensures !SetsBase(CompileOne(hash, id, code, params).instr)
  {
    FailedIsZero(hash, id, code, params);
    if CompileOne(hash, id, code, params).ok {
      CompiledDecodes(hash, id, code.value, params);
    }
    hide CompileOne;
  }

  lemma PlainBody(hash: VarHash, id: u16, cmds: seq<CmdLine>)
    requires NoBaseCmds(cmds)
    ensures forall i <- CompileAll(hash, id, cmds).list :: !SetsBase(i)
  {
    hide CompileOne, CompileAll, Commands, SetsBase;
    CompileAllContent(hash, id, cmds);
    CommandsAreLines(cmds);
    var list, cs := CompileAll(hash, id, cmds).list, Commands(cmds);
    forall k | 0 <= k < |list| ensures !SetsBase(list[k]) {
      assert cs[k] in cmds;
      PlainOne(hash, id, cs[k].code, cs[k].params);
    }
  }

  lemma NumberOffset(hash: VarHash, n: nat)
    requires n < 0x8000_0000 && GetDspVar(hash, Decimal(n)) == None
    ensures GetVarOffset(hash, Decimal(n)) == n
  {
    DecimalReadsBack(n);
    hide CalcOffset, GetDspVar, Decimal;
  }

  lemma BaseCmdDetails(code: CmdCode)
    requires code == USERMEMOFFSET || code == DSPMEMOFFSET
    ensures DspCmd(code) == CmdDetails(Cmd1i32, false)
  {
  }

  lemma AssembledAddress(details: CmdDetails, id: u16, c: CmdCode, o: Operands)
    requires o.p0 < 0x8000 && o.p1 < 0x8000 && o.p2 < 0x8000
    requires details.cmdClass == Cmd1i32 && o.count == 1 && 0 <= o.address < 0x8000_0000
    ensures Assemble(details, id, c, o) == Compiled(Instr(c * 0x1_0000, o.address), true)
  {
  }

  /** A number is compiled as itself unless the client has a variable of that very name. */
  lemma NumberCmdDecodes(hash: VarHash, id: u16, code: CmdCode, n: nat)
    requires code == USERMEMOFFSET || code == DSPMEMOFFSET
    requires n < 0x8000_0000 && GetDspVar(hash, Decimal(n)) == None
    ensures NumberCmd(hash, id, code, n) == Instr(code * 0x1_0000, n)
  {
    NumberOffset(hash, n);
    BaseCmdDetails(code);
    hide *;
    var params := [Token(Decimal(n), None)];
    assert CompileOne(hash, id, Some(code), params) == Assemble(DspCmd(code), id, code, ReadAll(hash, params));
    AssembledAddress(DspCmd(code), id, code, ReadAll(hash, params));
  }
}
