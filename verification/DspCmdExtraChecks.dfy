/** The plausibility checks of the block commands CLEARN (count, target) and COPYMEM (count, source, target): a
    checked command stores only into the variable it names. */
module DspCmdExtraChecks {
  import opened MachineWords
  import opened Wrappers
  import opened DspVarOffsetCalc
  import opened DspApi
  import opened DspVarResolver
  import opened DspCmdCompiler
  import opened VarAllocator
  import opened MemoryIsolation
  import opened ProgramLinker

  predicate ClearNPasses(hash: VarHash, targetText: string, count: int) {
    if '+' in targetText || '-' in targetText then false
    else
      match GetDspVar(hash, targetText)
      case None => true
      case Some(target) => count <= target.size
  }

  predicate CopyMemPasses(hash: VarHash, targetText: string, count: int, start: int) {
    match GetDspVar(hash, targetText)
    case None => true
    case Some(target) => start + count <= ToInt32(target.offset) + target.size
  }

  /** The addresses a block command stores to when the user base is "base". */
  predicate Stores(base: int, start: int, count: int, address: int) {
    base + start <= address < base + start + count
  }

  ghost predicate StoresInside(base: int, start: int, count: int, v: DspVar) {
    forall a :: Stores(base, start, count, a) ==> Owns(v, a)
  }

  /** A variable of the client with this base, within reach of 16-bit operands. */
  predicate WithinReach(v: DspVar, base: int) {
    v.segment != DspInternal && 0 <= v.address - base < 0x8000 && v.offset == v.address - base
  }

  lemma NoPlusNoOffset(hash: VarHash, token: string)
    requires KeyedByName(hash) && '+' !in token && Target(hash, token).Some?
    ensures Target(hash, token).value.1 == 0
  {
    AcceptedOperandShape(hash, token);
    KeepsOut(token, '+');
    hide GetDspVar, CalcVarOffset, CalcOffset, RemoveBlanks, ToUpper;
    NoPlusNoTail(Target(hash, token).value.0.name, RemoveBlanks(token));
  }

  lemma NoPlusNoTail(name: string, text: string)
    requires name <= text && '+' !in text
    requires text != name ==> |name| < |text| && text[|name|] == '+'
    ensures text == name
  {
  }

  lemma {:induction false} KeepsOut(s: string, c: char)
    requires c !in s
    ensures c !in RemoveBlanks(s)
  {
    if s == "" {
    } else {
      KeepsOut(s[1..], c);
    }
  }

  /** A compiled CLEARN that names a variable and passes its check stores only into that variable. */
  lemma CheckedClearNStaysInside(hash: VarHash, id: u16, params: seq<Token>, base: int, v: DspVar, word: nat)
    requires KeyedByName(hash) && CompileOne(hash, id, Some(CLEARN), params).ok
    requires Target(hash, ParamText(params, 1)) == Some((v, word)) && WithinReach(v, base)
    requires ClearNPasses(hash, ParamText(params, 1), Operand16(hash, params, 0))
    ensures StoresInside(base, Operand16(hash, params, 1), Operand16(hash, params, 0), v)
  {
    hide CompileOne, CalcVarOffset, CalcOffset, GetDspVar;
    NoPlusNoOffset(hash, ParamText(params, 1));
    assert GetVarOffset(hash, ParamText(params, 1)) == v.offset;
    assert Operand16(hash, params, 1) == v.offset;
  }

  lemma CopyMemReadsTarget(hash: VarHash, id: u16, params: seq<Token>)
    requires CompileOne(hash, id, Some(COPYMEM), params).ok
    ensures Operand16(hash, params, 2) >= 0 && Operand16(hash, params, 0) >= 0
  {
    hide GetVarOffset, Operand32;
    var o := ReadAll(hash, params);
    assert Assemble(DspCmd(COPYMEM), id, COPYMEM, o).ok;
  }

  lemma CompiledStart(offset: int)
    requires 0 <= ToShort(ToInt32(offset))
    ensures ToShort(ToInt32(offset)) == offset % 0x1_0000
  {
  }

  lemma TargetOffset(hash: VarHash, token: string, v: DspVar, word: nat)
    requires Target(hash, token) == Some((v, word))
    ensures GetVarOffset(hash, token) == ToInt32(v.offset + word) && GetDspVar(hash, token) == Some(v)
  {
    hide GetDspVar, CalcVarOffset, CalcOffset, ToInt32;
  }

  /** What a passed check says about the stores of a COPYMEM. */
  lemma PassedCopy(hash: VarHash, id: u16, params: seq<Token>, v: DspVar, word: nat)
    requires CompileOne(hash, id, Some(COPYMEM), params).ok
    requires Target(hash, ParamText(params, 2)) == Some((v, word))
    requires CopyMemPasses(hash, ParamText(params, 2), Operand16(hash, params, 0), Operand16(hash, params, 2))
    ensures Operand16(hash, params, 2) == (v.offset + word) % 0x1_0000
    ensures Operand16(hash, params, 2) + Operand16(hash, params, 0) <= ToInt32(v.offset) + v.size
  {
    hide CompileOne, GetVarOffset, Target, GetDspVar, ToShort, ToInt32;
    CopyMemReadsTarget(hash, id, params);
    TargetOffset(hash, ParamText(params, 2), v, word);
    CompiledStart(v.offset + word);
  }

  lemma SmallIsItself(x: int)
    requires 0 <= x < 0x8000
    ensures ToInt32(x) == x
  {
  }

  lemma InsideIff(base: int, start: int, count: int, v: DspVar)
    requires WithinReach(v, base) && count > 0 && start + count <= v.offset + v.size
    ensures StoresInside(base, start, count, v) <==> v.offset <= start
  {
    if StoresInside(base, start, count, v) {
      assert Stores(base, start, count, base + start);
    }
  }

  /** CLEARN may name a variable as a whole: a count up to its size passes, a larger one or an offset does not. */
  lemma ClearNPassesIff(hash: VarHash, v: DspVar, token: string, count: int)
    requires GetDspVar(hash, token) == Some(v)
    ensures ClearNPasses(hash, token, count) <==> count <= v.size && '+' !in token && '-' !in token
  {
    hide GetDspVar;
  }

  /** COPYMEM may fill a variable to its end and no further, from any word of it on. */
  lemma CopyMemPassesIff(hash: VarHash, v: DspVar, token: string, word: nat, count: int)
    requires Target(hash, token) == Some((v, word)) && v.offset + word < 0x8000
    ensures CopyMemPasses(hash, token, count, ToShort(GetVarOffset(hash, token))) <==> word + count <= v.size
  {
    TargetOffset(hash, token, v, word);
    SmallIsItself(v.offset + word);
    SmallIsItself(v.offset);
    CompiledStart(v.offset + word);
    hide GetDspVar, GetVarOffset, Target, ToInt32;
  }

  /** A compiled COPYMEM that passes its check stores only into the variable it names if and only if offset plus word,
      cut to 16 bits, is not below the variable's offset, which a word within 32768 of the base never is. */
  lemma CheckedCopyMemStaysInside(hash: VarHash, id: u16, params: seq<Token>, base: int, v: DspVar, word: nat)
    requires CompileOne(hash, id, Some(COPYMEM), params).ok && Operand16(hash, params, 0) > 0
    requires Target(hash, ParamText(params, 2)) == Some((v, word)) && WithinReach(v, base)
    requires CopyMemPasses(hash, ParamText(params, 2), Operand16(hash, params, 0), Operand16(hash, params, 2))
    ensures StoresInside(base, Operand16(hash, params, 2), Operand16(hash, params, 0), v)
            <==> v.offset <= (v.offset + word) % 0x1_0000
    ensures v.offset + word < 0x1_0000 ==> v.offset <= (v.offset + word) % 0x1_0000
  {
    hide CompileOne, CalcVarOffset, GetDspVar, Operand16, StoresInside, CopyMemPasses, ToInt32;
    PassedCopy(hash, id, params, v, word);
    SmallIsItself(v.offset);
    InsideIff(base, Operand16(hash, params, 2), Operand16(hash, params, 0), v);
  }

  /** A COPYMEM that passes its check and stores below its target: the operand 65530 words past a variable wraps to
      six words before it. */
  lemma WrappedCopyMemEscapes(hash: VarHash, v: DspVar, base: int, count: int)
    requires GetDspVar(hash, v.name + "+" + Decimal(65530)) == Some(v) && ' ' !in v.name
    requires WithinReach(v, base) && v.offset >= 6 && 0 < count <= v.size + 6
    ensures var token := v.name + "+" + Decimal(65530);
            var start := ToShort(GetVarOffset(hash, token));
            && start == v.offset - 6 >= 0
            && CopyMemPasses(hash, token, count, start)
            && !StoresInside(base, start, count, v)
  {
    hide GetDspVar, CalcVarOffset;
    var token := v.name + "+" + Decimal(65530);
    VarOffsetReadsBack(v.name, 65530);
    assert GetVarOffset(hash, token) == v.offset + 65530;
    var start := ToShort(GetVarOffset(hash, token));
    assert Stores(base, start, count, base + start);
  }

  /** With isolated memory a store inside a variable touches no other variable, of this or another client, except a
      declaration of the same global. */
  lemma StoreInsideTouchesNoOther(l: Layout, placed: seq<DspVar>, i: nat, j: nat, base: int, start: int, count: int, a: int)
    requires Isolated(l, placed) && i < |placed| && j < |placed| && i != j
    requires StoresInside(base, start, count, placed[i]) && Stores(base, start, count, a)
    ensures Owns(placed[j], a) ==> SameGlobal(placed[i], placed[j])
  {
    assert Owns(placed[i], a);
    assert if i < j then Apart(placed[i], placed[j]) else Apart(placed[j], placed[i]);
  }
}
