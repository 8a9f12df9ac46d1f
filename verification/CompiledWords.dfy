/** The two words of every instruction, written out class by class. */
module CompiledWords {
  import opened MachineWords
  import opened Wrappers
  import opened DspVarOffsetCalc
  import opened DspApi
  import opened DspVarResolver
  import opened DspCmdCompiler

  /** A 16-bit operand of the text: the low half of its offset, an error when that has its sign bit set. */
  function Half(hash: VarHash, params: seq<Token>, i: nat): (h: int)
    ensures h == -1 || 0 <= h < 0x8000
  {
    var offset := GetVarOffset(hash, if i < |params| then params[i].text else "");
    var low := offset % 0x1_0000;
    if low < 0x8000 then low else -1
  }

  lemma HalfIsOperand(hash: VarHash, params: seq<Token>, i: nat)
    ensures Half(hash, params, i) >= 0 <==> Operand16(hash, params, i) >= 0
    ensures Half(hash, params, i) >= 0 ==> Half(hash, params, i) == Operand16(hash, params, i)
  {
    hide GetVarOffset;
  }

  /** No operand: the code in the upper half of the first word. */
  lemma PlainWords(hash: VarHash, id: u16, c: CmdCode, params: seq<Token>)
    requires DspCmd(c).cmdClass == Cmd
    ensures CompileOne(hash, id, Some(c), params) == if params == [] then Compiled(Instr(c * 0x1_0000, 0), true) else FAILED
  {
    hide GetVarOffset, Operand32;
  }

  /** One half: alone in the second word. */
  lemma OneHalfWords(hash: VarHash, id: u16, c: CmdCode, params: seq<Token>)
    requires DspCmd(c).cmdClass == Cmd1i16
    ensures var p := Half(hash, params, 0);
            CompileOne(hash, id, Some(c), params) ==
              if p >= 0 && |params| <= 1 then Compiled(Instr(c * 0x1_0000, p), true) else FAILED
  {
    hide GetVarOffset, Operand32, Half, Operand16;
    HalfIsOperand(hash, params, 0);
  }

  /** Two halves: the first one above the second in the second word; a client id takes the place of the first. */
  lemma TwoHalvesWords(hash: VarHash, id: u16, c: CmdCode, params: seq<Token>)
    requires DspCmd(c).cmdClass == Cmd2i16
    ensures var p, q := Half(hash, params, 0), Half(hash, params, 1);
            var first := if c in CLIENT_ID_CMDS then id else p;
            CompileOne(hash, id, Some(c), params) ==
              if p >= 0 && q >= 0 && |params| <= 2 then Compiled(Instr(c * 0x1_0000, first * 0x1_0000 + q), true) else FAILED
  {
    hide GetVarOffset, Operand32, Half, Operand16;
    HalfIsOperand(hash, params, 0);
    HalfIsOperand(hash, params, 1);
    if Half(hash, params, 0) >= 0 && Half(hash, params, 1) >= 0 {
      HalvesDecode(Half(hash, params, 0), Half(hash, params, 1));
    }
  }

  /** Three halves: the first one below the code; a client id takes the place of the second. */
  lemma ThreeHalvesWords(hash: VarHash, id: u16, c: CmdCode, params: seq<Token>)
    requires DspCmd(c).cmdClass == Cmd3i16
    ensures var p, q, r := Half(hash, params, 0), Half(hash, params, 1), Half(hash, params, 2);
            var second := if c in CLIENT_ID_CMDS then id else q;
            CompileOne(hash, id, Some(c), params) ==
              if p >= 0 && q >= 0 && r >= 0 && |params| <= 3
              then Compiled(Instr(c * 0x1_0000 + p, second * 0x1_0000 + r), true) else FAILED
  {
    hide GetVarOffset, Operand32, Half, Operand16;
    HalfIsOperand(hash, params, 0);
    HalfIsOperand(hash, params, 1);
    HalfIsOperand(hash, params, 2);
    if Half(hash, params, 1) >= 0 && Half(hash, params, 2) >= 0 {
      HalvesDecode(Half(hash, params, 1), Half(hash, params, 2));
    }
  }

  /** An address: the whole offset in the second word. */
  lemma AddressWords(hash: VarHash, id: u16, c: CmdCode, params: seq<Token>)
    requires DspCmd(c).cmdClass == Cmd1i32
    ensures var offset := GetVarOffset(hash, if |params| > 0 then params[0].text else "");
            CompileOne(hash, id, Some(c), params) ==
              if offset >= 0 && |params| <= 1 then Compiled(Instr(c * 0x1_0000, offset), true) else FAILED
  {
    OffsetInLong(hash, ParamText(params, 0));
    hide GetVarOffset, Operand32, Operand16;
  }

  /** The instruction with this second word, or an error. */
  predicate MixedWith(hash: VarHash, c: CmdCode, params: seq<Token>, word: Option<u32>, r: Compiled) {
    var p := Half(hash, params, 0);
    r == if p >= 0 && word.Some? && |params| <= 2 then Compiled(Instr(c * 0x1_0000 + p, word.value), true) else FAILED
  }

  /** The mixed class: a text that reads as an integer, decimal before hexadecimal, is that integer, whatever it reads as
      else; if it reads as a float only, it is the bits of that; if it is neither, it is an offset; and else an error. */
  lemma MixedWords(hash: VarHash, id: u16, c: CmdCode, params: seq<Token>)
    requires DspCmd(c).cmdClass == Cmd1i161fi32
    ensures var text := if |params| > 1 then params[1].text else "";
            var asFloat := if |params| > 1 then params[1].asFloat else None;
            var r, decimal, hex, offset := CompileOne(hash, id, Some(c), params), ToInt(text, 10), ToInt(text, 16), GetVarOffset(hash, text);
            && (decimal.Some? ==> MixedWith(hash, c, params, Some(decimal.value % 0x1_0000_0000), r))
            && (decimal.None? && hex.Some? ==> MixedWith(hash, c, params, Some(hex.value % 0x1_0000_0000), r))
            && (decimal.None? && hex.None? && asFloat.Some? ==> MixedWith(hash, c, params, asFloat, r))
            && (decimal.None? && hex.None? && asFloat.None? && offset >= 0 ==> MixedWith(hash, c, params, Some(offset), r))
            && (decimal.None? && hex.None? && asFloat.None? && offset < 0 ==> MixedWith(hash, c, params, None, r))
  {
    hide GetVarOffset, Operand16, Operand32, Half, ToInt, CompileOne, MixedWith;
    MixedOperand(hash, params);
    MixedAssembled(hash, id, c, params);
  }

  lemma MixedOperand(hash: VarHash, params: seq<Token>)
    ensures var text := if |params| > 1 then params[1].text else "";
            var asFloat := if |params| > 1 then params[1].asFloat else None;
            var word, decimal, hex, offset := Operand32(hash, params, 1), ToInt(text, 10), ToInt(text, 16), GetVarOffset(hash, text);
            && (decimal.Some? ==> word == Some(decimal.value % 0x1_0000_0000))
            && (decimal.None? && hex.Some? ==> word == Some(hex.value % 0x1_0000_0000))
            && (decimal.None? && hex.None? && asFloat.Some? ==> word == asFloat)
            && (decimal.None? && hex.None? && asFloat.None? && offset >= 0 ==> word == Some(offset))
            && (decimal.None? && hex.None? && asFloat.None? && offset < 0 ==> word == None)
  {
    hide GetVarOffset, ToInt;
    OffsetInLong(hash, ParamText(params, 1));
    assert ParamText(params, 1) == if |params| > 1 then params[1].text else "";
    hide ParamText;
  }

  lemma MixedAssembled(hash: VarHash, id: u16, c: CmdCode, params: seq<Token>)
    requires DspCmd(c).cmdClass == Cmd1i161fi32
    ensures MixedWith(hash, c, params, Operand32(hash, params, 1), CompileOne(hash, id, Some(c), params))
  {
    HalfIsOperand(hash, params, 0);
    hide GetVarOffset, Operand16, Operand32, Half;
  }

  /** A number is compiled as itself, whatever float it also reads as, and a negative one as its two's complement. */
  lemma MixedNumber(hash: VarHash, id: u16, c: CmdCode, first: Token, n: nat, asFloat: Option<u32>)
    requires DspCmd(c).cmdClass == Cmd1i161fi32 && n < 0x8000_0000 && Half(hash, [first], 0) >= 0
    ensures var r := CompileOne(hash, id, Some(c), [first, Token(Decimal(n), asFloat)]); r.ok && r.instr.w1 == n
    ensures var r := CompileOne(hash, id, Some(c), [first, Token("-" + Decimal(n), asFloat)]);
            n > 0 ==> r.ok && r.instr.w1 == 0x1_0000_0000 - n
  {
    hide GetVarOffset, Half, CompileOne, ToInt, Decimal, CalcOffset;
    DecimalIsInt(n);
    MixedInteger(hash, id, c, first, Token(Decimal(n), asFloat), n);
    if n > 0 {
      NegativeIsNoOffset(n);
      MixedInteger(hash, id, c, first, Token("-" + Decimal(n), asFloat), -(n as int));
    }
  }

  lemma MixedInteger(hash: VarHash, id: u16, c: CmdCode, first: Token, second: Token, n: int)
    requires DspCmd(c).cmdClass == Cmd1i161fi32 && ToInt(second.text, 10) == Some(n) && Half(hash, [first], 0) >= 0
    ensures var r := CompileOne(hash, id, Some(c), [first, second]); r.ok && r.instr.w1 == n % 0x1_0000_0000
  {
    assert Half(hash, [first, second], 0) == Half(hash, [first], 0);
    hide GetVarOffset, Half, CompileOne, ToInt;
    MixedWords(hash, id, c, [first, second]);
  }

  lemma DecimalIsInt(n: nat)
    requires n < 0x8000_0000
    ensures ToInt(Decimal(n), 10) == Some(n)
  {
    hide Digits, Decimal, ToInt;
    DecimalDigits(n);
    PlainInt(Decimal(n), 10, n);
  }

  /** A keyword that is not in the command table fails. */
  lemma UnknownKeywordFails(hash: VarHash, id: u16, params: seq<Token>)
    ensures CompileOne(hash, id, None, params) == FAILED
  {
  }
}
