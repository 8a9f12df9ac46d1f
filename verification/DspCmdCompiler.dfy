/** Compiles command lines to 64-bit instructions. */
module DspCmdCompiler {
  import opened MachineWords
  import opened Wrappers
  import opened DspVarOffsetCalc
  import opened DspApi
  import opened DspVarResolver

  type CmdCode = c: nat | c < CMD_COUNT

  /** An operand text, with the bit pattern of the float it reads as, if it reads as one. */
  datatype Token = Token(text: string, asFloat: Option<u32>)

  /** A command line cut at its delimiters. The code is None when the keyword is not in the command table. */
  datatype CmdLine = Comment | Command(code: Option<CmdCode>, params: seq<Token>)

  datatype Compiled = Compiled(instr: Instr, ok: bool)

  const NO_INSTR := Instr(0, 0)
  const FAILED := Compiled(NO_INSTR, false)

  /** The parser delivers an empty text where a parameter is missing. */
  function ParamText(params: seq<Token>, i: nat): string {
    if i < |params| then params[i].text else ""
  }

  /** A 16-bit operand: the offset is stored in a short before it is tested. */
  function Operand16(hash: VarHash, params: seq<Token>, i: nat): int {
    ToShort(GetVarOffset(hash, ParamText(params, i)))
  }

  /** The last operand of the mixed class: an integer, else a float, else a variable. */
  function Operand32(hash: VarHash, params: seq<Token>, i: nat): Option<u32> {
    var text := ParamText(params, i);
    var decimal := ToInt(text, 10);
    var integer := if decimal.Some? then decimal else ToInt(text, 16);
    if integer.Some? then Some(Wrap32(integer.value))
    else if i < |params| && params[i].asFloat.Some? then params[i].asFloat
    else
      var offset := GetVarOffset(hash, text);
      if offset >= 0 then Some(Wrap32(offset)) else None
  }

  function WithClientId(details: CmdDetails, i: Instr, id: u16): Instr {
    if details.carriesClientId then PatchClientId(i, id) else i
  }

  /** Everything an instruction can be made of: the number of parameters and their values as 16-bit, address and
      mixed operands. */
  datatype Operands = Operands(count: nat, p0: int, p1: int, p2: int, address: int, mixed: Option<u32>)

  function ReadAll(hash: VarHash, params: seq<Token>): Operands {
    Operands(|params|, Operand16(hash, params, 0), Operand16(hash, params, 1), Operand16(hash, params, 2),
             GetVarOffset(hash, ParamText(params, 0)), Operand32(hash, params, 1))
  }

  function Assemble(details: CmdDetails, id: u16, c: CmdCode, o: Operands): Compiled
    requires o.p0 < 0x8000 && o.p1 < 0x8000 && o.p2 < 0x8000
  {
    match details.cmdClass
    case Cmd =>
      if o.count == 0 then Compiled(EncodeCmd(c), true) else FAILED
    case Cmd1i16 =>
      if o.p0 >= 0 && o.count <= 1 then Compiled(Encode1x16(c, o.p0), true) else FAILED
    case Cmd2i16 =>
      if o.p0 >= 0 && o.p1 >= 0 && o.count <= 2
      then Compiled(WithClientId(details, Encode2x16(c, o.p0, o.p1), id), true) else FAILED
    case Cmd3i16 =>
      if o.p0 >= 0 && o.p1 >= 0 && o.p2 >= 0 && o.count <= 3
      then Compiled(WithClientId(details, Encode3x16(c, o.p0, o.p1, o.p2), id), true) else FAILED
    case Cmd1i32 =>
      if o.address >= 0 && o.count <= 1 then Compiled(Encode1x32(c, Wrap32(o.address)), true) else FAILED
    case Cmd1i161fi32 =>
      if o.p0 >= 0 && o.mixed.Some? && o.count <= 2
      then Compiled(Encode1x16x32(c, o.p0, o.mixed.value), true) else FAILED
  }

  function CompileOne(hash: VarHash, id: u16, code: Option<CmdCode>, params: seq<Token>): Compiled {
    match code
    case None => FAILED
    case Some(c) => Assemble(DspCmd(c), id, c, ReadAll(hash, params))
  }

  /** The operand loop: all operands are read, the verdict is that none was in error. */
  method ReadOperands(hash: VarHash, params: seq<Token>, count: nat) returns (values: seq<int>, ok: bool)
    ensures |values| == count
    ensures forall j :: 0 <= j < count ==> values[j] == Operand16(hash, params, j)
    ensures ok <==> forall j :: 0 <= j < count ==> values[j] >= 0
  {
    hide Operand16;
    values, ok := [], true;
    for i := 0 to count
      invariant |values| == i
      invariant forall j :: 0 <= j < i ==> values[j] == Operand16(hash, params, j)
      invariant ok <==> forall j :: 0 <= j < i ==> values[j] >= 0
    {
      var value := Operand16(hash, params, i);
      values := values + [value];
      ok := ok && value > -1;
    }
  }

  /** One command line. */
  method CompileOneCmdLine(hash: VarHash, id: u16, code: Option<CmdCode>, params: seq<Token>)
    returns (instr: Instr, ok: bool)
    ensures Compiled(instr, ok) == CompileOne(hash, id, code, params)
  {
    hide GetVarOffset, Operand32;
    instr, ok := NO_INSTR, false;
    if code == None {
      return;
    }
    var c := code.value;
    var details := DspCmd(c);
    ghost var all := ReadAll(hash, params);
    match details.cmdClass {
      case Cmd =>
        ok := |params| == 0;
        if ok { instr := EncodeCmd(c); }
      case Cmd1i16 =>
        var values;
        values, ok := ReadOperands(hash, params, 1);
        ok := ok && |params| <= 1;
        assert values[0] == all.p0;
        if ok { instr := Encode1x16(c, values[0]); }
      case Cmd2i16 =>
        var values;
        values, ok := ReadOperands(hash, params, 2);
        ok := ok && |params| <= 2;
        assert values[0] == all.p0 && values[1] == all.p1;
        if ok { instr := WithClientId(details, Encode2x16(c, values[0], values[1]), id); }
      case Cmd3i16 =>
        var values;
        values, ok := ReadOperands(hash, params, 3);
        ok := ok && |params| <= 3;
        assert values[0] == all.p0 && values[1] == all.p1 && values[2] == all.p2;
        if ok { instr := WithClientId(details, Encode3x16(c, values[0], values[1], values[2]), id); }
      case Cmd1i32 =>
        var par := GetVarOffset(hash, ParamText(params, 0));
        ok := par > -1 && |params| <= 1;
        if ok { instr := Encode1x32(c, Wrap32(par)); }
      case Cmd1i161fi32 =>
        var values;
        values, ok := ReadOperands(hash, params, 1);
        assert values[0] == all.p0;
        if !ok { return; }
        var par2 := Operand32(hash, params, 1);
        ok := par2.Some? && |params| <= 2;
        if ok { instr := Encode1x16x32(c, values[0], par2.value); }
    }
  }

  datatype CompileResult = CompileResult(list: seq<Instr>, ok: bool, err: Option<CmdLine>)

  function CompileAll(hash: VarHash, id: u16, cmds: seq<CmdLine>): CompileResult {
    if cmds == [] then CompileResult([], true, None)
    else
      var before := CompileAll(hash, id, cmds[..|cmds| - 1]);
      match cmds[|cmds| - 1]
      case Comment => before
      case Command(code, params) =>
        if !before.ok then before
        else
          var one := CompileOne(hash, id, code, params);
          CompileResult(before.list + [one.instr], one.ok, if one.ok then None else Some(cmds[|cmds| - 1]))
  }

  /** The command loop; it stops at the first command that does not compile. */
  method CompileCmds(hash: VarHash, id: u16, cmds: seq<CmdLine>) returns (list: seq<Instr>, ok: bool, err: Option<CmdLine>)
    ensures CompileResult(list, ok, err) == CompileAll(hash, id, cmds)
  {
    hide CompileOne;
    list, ok, err := [], true, None;
    var i := 0;
    while i < |cmds| && ok
      invariant 0 <= i <= |cmds|
      invariant CompileResult(list, ok, err) == CompileAll(hash, id, cmds[..i])
      invariant ok ==> err == None
    {
      ghost var upTo := cmds[..i + 1];
      assert upTo[..|upTo| - 1] == cmds[..i] && upTo[|upTo| - 1] == cmds[i];
      match cmds[i] {
        case Comment =>
          assert CompileAll(hash, id, upTo) == CompileAll(hash, id, cmds[..i]);
        case Command(code, params) =>
          var instr;
          instr, ok := CompileOneCmdLine(hash, id, code, params);
          assert CompileAll(hash, id, cmds[..i]).ok && upTo[|upTo| - 1] == Command(code, params);
          list := list + [instr];
          if !ok { err := Some(cmds[i]); }
      }
      i := i + 1;
    }
    assert cmds[..|cmds|] == cmds;
    if !ok {
      FailureStays(hash, id, cmds, i);
    }
  }

  lemma {:induction false} FailureStays(hash: VarHash, id: u16, cmds: seq<CmdLine>, i: nat)
    requires i <= |cmds| && !CompileAll(hash, id, cmds[..i]).ok
    ensures CompileAll(hash, id, cmds) == CompileAll(hash, id, cmds[..i])
  {
    if i < |cmds| {
      assert cmds[..|cmds| - 1][..i] == cmds[..i];
      FailureStays(hash, id, cmds[..|cmds| - 1], i);
    } else {
      assert cmds[..i] == cmds;
    }
  }

  /** The commands of a list, without its comments. */
  function Commands(cmds: seq<CmdLine>): (r: seq<CmdLine>)
    ensures forall c <- r :: c.Command?
  {
    if cmds == [] then []
    else Commands(cmds[..|cmds| - 1]) + (if cmds[|cmds| - 1].Comment? then [] else [cmds[|cmds| - 1]])
  }

  lemma FailedIsZero(hash: VarHash, id: u16, code: Option<CmdCode>, params: seq<Token>)
    ensures !CompileOne(hash, id, code, params).ok ==> CompileOne(hash, id, code, params).instr == NO_INSTR
  {
    hide GetVarOffset, Operand32;
  }

  /** The instructions are those of the commands, one each and in order, up to the first command that fails, which
      leaves an all-zero (INVALID) instruction and is the one reported. */
  lemma {:induction false} CompileAllContent(hash: VarHash, id: u16, cmds: seq<CmdLine>)
    ensures var r, cs := CompileAll(hash, id, cmds), Commands(cmds);
            && |r.list| <= |cs|
            && (forall k :: 0 <= k < |r.list| ==> r.list[k] == CompileOne(hash, id, cs[k].code, cs[k].params).instr)
            && (r.ok ==> |r.list| == |cs| && r.err == None)
            && (r.ok ==> forall k :: 0 <= k < |cs| ==> CompileOne(hash, id, cs[k].code, cs[k].params).ok)
            && (!r.ok ==> r.list != [] && r.list[|r.list| - 1] == NO_INSTR && r.err == Some(cs[|r.list| - 1]))
            && (!r.ok ==> !CompileOne(hash, id, cs[|r.list| - 1].code, cs[|r.list| - 1].params).ok)
  {
    hide CompileOne;
    if cmds == [] {
    } else {
      CompileAllContent(hash, id, cmds[..|cmds| - 1]);
      if cmds[|cmds| - 1].Command? {
        FailedIsZero(hash, id, cmds[|cmds| - 1].code, cmds[|cmds| - 1].params);
      }
    }
  }

  /** The operand values a command of the class asks for, in the order of its parameters. */
  function Wanted(cmdClass: CmdClass, o: Operands): seq<int> {
    match cmdClass
    case Cmd => []
    case Cmd1i16 => [o.p0]
    case Cmd2i16 => [o.p0, o.p1]
    case Cmd3i16 => [o.p0, o.p1, o.p2]
    case Cmd1i32 => [o.address]
    case Cmd1i161fi32 => [o.p0, if o.mixed.Some? then o.mixed.value else -1]
  }

  /** The operand the DSP finds its client id in, for the commands that carry one. */
  function ClientIdSlot(details: CmdDetails): Option<nat> {
    if !details.carriesClientId then None
    else match details.cmdClass case Cmd2i16 => Some(0) case Cmd3i16 => Some(1) case _ => None
  }

  ghost predicate DecodesTo(details: CmdDetails, i: Instr, id: u16, c: CmdCode, wanted: seq<int>) {
    var operands := OperandsOfClass(details.cmdClass, i);
    && CodeOf(i) == c
    && |operands| == |wanted|
    && forall p :: 0 <= p < |operands| ==>
         operands[p] == if ClientIdSlot(details) == Some(p) then id else wanted[p]
  }

  lemma TwoHalvesDecode(details: CmdDetails, id: u16, c: CmdCode, p0: u16, p1: u16)
    requires details.cmdClass == Cmd2i16
    ensures DecodesTo(details, WithClientId(details, Encode2x16(c, p0, p1), id), id, c, [p0, p1])
  {
    HalvesDecode(c, 0);
    HalvesDecode(p0, p1);
    HalvesDecode(id, p1);
  }

  lemma ThreeHalvesDecode(details: CmdDetails, id: u16, c: CmdCode, p0: u16, p1: u16, p2: u16)
    requires details.cmdClass == Cmd3i16
    ensures DecodesTo(details, WithClientId(details, Encode3x16(c, p0, p1, p2), id), id, c, [p0, p1, p2])
  {
    HalvesDecode(c, p0);
    HalvesDecode(p1, p2);
    HalvesDecode(id, p2);
  }

  lemma AssembledDecodes(details: CmdDetails, id: u16, c: CmdCode, o: Operands)
    requires o.p0 < 0x8000 && o.p1 < 0x8000 && o.p2 < 0x8000 && o.address < 0x8000_0000
    requires Assemble(details, id, c, o).ok
    ensures DecodesTo(details, Assemble(details, id, c, o).instr, id, c, Wanted(details.cmdClass, o))
  {
    match details.cmdClass {
      case Cmd2i16 =>
        hide DecodesTo, WithClientId;
        TwoHalvesDecode(details, id, c, o.p0, o.p1);
      case Cmd3i16 =>
        hide DecodesTo, WithClientId;
        ThreeHalvesDecode(details, id, c, o.p0, o.p1, o.p2);
      case Cmd1i161fi32 => HalvesDecode(c, o.p0);
      case _ => HalvesDecode(c, 0);
    }
  }

  /** The DSP decodes exactly the code and the operands of the source text, except that the client id takes the
      place of one operand in the commands that carry it. */
  lemma CompiledDecodes(hash: VarHash, id: u16, c: CmdCode, params: seq<Token>)
    requires CompileOne(hash, id, Some(c), params).ok
    ensures DecodesTo(DspCmd(c), CompileOne(hash, id, Some(c), params).instr, id, c,
                      Wanted(DspCmd(c).cmdClass, ReadAll(hash, params)))
  {
    OffsetInLong(hash, ParamText(params, 0));
    AssembledDecodes(DspCmd(c), id, c, ReadAll(hash, params));
  }

  lemma OffsetInLong(hash: VarHash, token: string)
    ensures -0x8000_0000 <= GetVarOffset(hash, token) < 0x8000_0000
  {
  }

  lemma HalvesDecode(high: u16, low: u16)
    ensures (high * 0x1_0000 + low) / 0x1_0000 == high && (high * 0x1_0000 + low) % 0x1_0000 == low
  {
  }

  /** The short: an operand is accepted exactly when the low 16 bits of its offset have a clear sign bit, and an
      accepted operand is the offset exactly when the offset is below 32768. */
  lemma ShortIsLossless(offset: int)
    requires -0x8000_0000 <= offset < 0x8000_0000
    ensures ToShort(offset) >= 0 <==> offset % 0x1_0000 < 0x8000
    ensures ToShort(offset) >= 0 ==> (ToShort(offset) == offset <==> 0 <= offset < 0x8000)
  {
    assert offset == offset / 0x1_0000 * 0x1_0000 + offset % 0x1_0000;
  }

  /** The offset 65536 past a variable is accepted and compiled as the variable itself. */
  lemma ShortDropsHighBits(v: DspVar, hash: VarHash)
    requires GetDspVar(hash, v.name + "+" + Decimal(0x1_0000)) == Some(v)
    requires ' ' !in v.name && v.offset < 0x8000
    ensures GetVarOffset(hash, v.name + "+" + Decimal(0x1_0000)) == v.offset + 0x1_0000
    ensures ToShort(GetVarOffset(hash, v.name + "+" + Decimal(0x1_0000))) == v.offset
  {
    hide GetDspVar, CalcVarOffset, CalcOffset, Decimal;
    VarOffsetReadsBack(v.name, 0x1_0000);
  }
}
