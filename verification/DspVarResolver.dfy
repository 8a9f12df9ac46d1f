/** Variables, memory sections and the resolver that turns operand texts into 16-bit operands and addresses. */
module DspVarResolver {
  import opened MachineWords
  import opened Wrappers
  import opened DspVarOffsetCalc
  import opened DspApi

  datatype Segment = DspInternal | ModuleLocal | ModuleGlobal | ModuleAligned

  datatype DataType = Unknown | IntType | FloatType

  datatype DspVar = DspVar(name: string, size: u16, dataType: DataType, segment: Segment,
                           address: u32, offset: u32)

  type VarHash = map<string, DspVar>

  /** A row of a static section table; every such variable is DSP internal. */
  datatype SectionEntry = SectionEntry(name: string, size: u16, dataType: DataType)

  const DSP_WORKSPACE_VARS := [
    SectionEntry("FREQENCY", 1, FloatType), SectionEntry("FREQUENCYVALUE", 4, FloatType),
    SectionEntry("MAXIMUMSAMPLE", 32, FloatType), SectionEntry("FREQUENCYVALUEFILTER", 4, FloatType),
    SectionEntry("FREQUENCYSCALE", 4, FloatType), SectionEntry("KREISFREQKOEFF", 1, FloatType),
    SectionEntry("ETHERRORS", 1, IntType), SectionEntry("ETHSYNCLOSTCOUNT", 1, IntType),
    SectionEntry("ETHDATACOUNT", 2, IntType), SectionEntry("NCHANNELS", 1, IntType),
    SectionEntry("NSMEAS", 1, IntType), SectionEntry("NSPERIOD", 1, IntType),
    SectionEntry("_NSPERIOD", 1, FloatType), SectionEntry("SYNCASDU", 1, IntType),
    SectionEntry("TMCH0", 1, FloatType)]

  const DIALOG_WORKSPACE_VARS := [
    SectionEntry("DSPCMDPAR", 10, IntType), SectionEntry("DSPACK", 1, IntType),
    SectionEntry("CTRLCMDPAR", 20, IntType), SectionEntry("CTRLACK", 1, IntType),
    SectionEntry("FREQUENCYNORM", 4, FloatType), SectionEntry("GAINCORRECTION", 32, FloatType),
    SectionEntry("PHASECORRECTION", 32, FloatType), SectionEntry("OFFSETCORRECTION", 32, FloatType),
    SectionEntry("BUSYMAX", 1, FloatType), SectionEntry("BUSY", 1, FloatType),
    SectionEntry("VNR", 1, FloatType), SectionEntry("GAINCORRECTION2", 32, FloatType),
    SectionEntry("PHASECORRECTION2", 32, FloatType), SectionEntry("OFFSETCORRECTION2", 32, FloatType),
    SectionEntry("ETHDESTSOURCEADRESS", 3, IntType), SectionEntry("ETHPRIORITYTAGGED", 1, IntType),
    SectionEntry("ETHTYPEAPPID", 1, IntType), SectionEntry("ETHROUTINGTAB", 16, IntType),
    SectionEntry("INTERRUPTERROR", 1, IntType), SectionEntry("POWVALS4FOUT", 48, FloatType),
    SectionEntry("SUBDC", 1, IntType)]

  function UserWorkspaceVars(l: Layout): seq<SectionEntry> {
    [SectionEntry("UWSPACE", l.uwSpaceSize, FloatType)]
  }

  function CmdListVars(l: Layout): seq<SectionEntry> {
    [SectionEntry("INTCMDLIST", l.intCmdListLen, IntType), SectionEntry("CMDLIST", l.cmdListLen, IntType),
     SectionEntry("ALTINTCMDLIST", l.intCmdListLen, IntType), SectionEntry("ALTCMDLIST", l.cmdListLen, IntType)]
  }

  /** The symbolic constants CH0, CH1, ...; the source lists 32 of them. */
  function ChannelNrVars(count: nat): seq<SectionEntry> {
    if count == 0 then [] else ChannelNrVars(count - 1) + [SectionEntry("CH" + Decimal(count - 1), 1, IntType)]
  }

  function SectionSize(entries: seq<SectionEntry>): nat {
    if entries == [] then 0
    else SectionSize(entries[..|entries| - 1]) + entries[|entries| - 1].size
  }

  /** A section laid out from its start address; offsets are shifted for the sections COPYDU and COPYUD reach. */
  function InitSection(entries: seq<SectionEntry>, start: u32, shift: u32): (vars: seq<DspVar>)
    ensures |vars| == |entries|
  {
    if entries == [] then []
    else
      var e := entries[|entries| - 1];
      var offs := SectionSize(entries[..|entries| - 1]);
      InitSection(entries[..|entries| - 1], start, shift)
      + [DspVar(e.name, e.size, e.dataType, DspInternal, Wrap32(start + offs), Wrap32(offs + shift))]
  }

  /** The loop that lays a section out, one variable after the other. */
  method InitDspInternalMemsection(entries: seq<SectionEntry>, start: u32, shift: u32) returns (vars: seq<DspVar>)
    ensures vars == InitSection(entries, start, shift)
  {
    var offs := 0;
    vars := [];
    for i := 0 to |entries|
      invariant offs == SectionSize(entries[..i])
      invariant vars == InitSection(entries[..i], start, shift)
    {
      var e := entries[i];
      assert entries[..i + 1][..i] == entries[..i];
      vars := vars + [DspVar(e.name, e.size, e.dataType, DspInternal, Wrap32(start + offs), Wrap32(offs + shift))];
      offs := offs + e.size;
    }
    assert entries[..|entries|] == entries;
  }

  /** Inserts variables in list order: of two equal names the later one stays. */
  function AddToHash(hash: VarHash, vars: seq<DspVar>): VarHash {
    if vars == [] then hash
    else
      var v := vars[|vars| - 1];
      AddToHash(hash, vars[..|vars| - 1])[v.name := v]
  }

  /** The variables every client sees. */
  function SystemHash(chip: Chip): VarHash {
    var l := LayoutOf(chip);
    var h0 := AddToHash(map[], InitSection(DSP_WORKSPACE_VARS, l.dspWorkspace, 0));
    var h1 := AddToHash(h0, InitSection(DIALOG_WORKSPACE_VARS, l.dialogWorkspace, l.dialogWorkspace - l.dspWorkspace));
    var h2 := AddToHash(h1, InitSection(UserWorkspaceVars(l), l.userWorkspace, 0));
    var h3 := AddToHash(h2, InitSection(CmdListVars(l), l.cmdList, 0));
    AddToHash(h3, InitSection(ChannelNrVars(32), 0, 0))
  }

  function GetDspVar(hash: VarHash, token: string): Option<DspVar> {
    match FirstSummand(RemoveBlanks(ToUpper(token)))
    case None => None
    case Some(name) => if name in hash then Some(hash[name]) else None
  }

  /** The operand value, or -1. A negative sum also reads as an error to the callers. */
  function GetVarOffset(hash: VarHash, token: string): int {
    match GetDspVar(hash, token)
    case Some(v) =>
      (match CalcVarOffset(v.name, token)
       case None => -1
       case Some(k) => ToInt32(v.offset + k))
    case None =>
      match CalcOffset(token)
      case None => -1
      case Some(k) => k
  }

  function GetVarAddress(hash: VarHash, token: string): int {
    match GetDspVar(hash, token)
    case None => -1
    case Some(v) =>
      match CalcVarOffset(v.name, token)
      case None => -1
      case Some(k) => ToInt32(v.address + k)
  }

  /** The variable and the word inside it that an operand text names, when it names one. */
  function Target(hash: VarHash, token: string): Option<(DspVar, nat)> {
    match GetDspVar(hash, token)
    case None => None
    case Some(v) =>
      match CalcVarOffset(v.name, token)
      case None => None
      case Some(k) => Some((v, k))
  }

  ghost predicate KeyedByName(hash: VarHash) {
    forall n <- hash :: hash[n].name == n
  }

  lemma {:induction false} AddToHashKeeps(hash: VarHash, vars: seq<DspVar>)
    requires KeyedByName(hash)
    ensures KeyedByName(AddToHash(hash, vars))
  {
    if vars == [] {
    } else {
      AddToHashKeeps(hash, vars[..|vars| - 1]);
    }
  }

  lemma {:induction false} AddToHashOrigin(hash: VarHash, vars: seq<DspVar>, n: string)
    requires n in AddToHash(hash, vars)
    ensures AddToHash(hash, vars)[n] in vars || (n in hash && AddToHash(hash, vars)[n] == hash[n])
  {
    if vars == [] || n == vars[|vars| - 1].name {
    } else {
      AddToHashOrigin(hash, vars[..|vars| - 1], n);
    }
  }

  lemma {:induction false} SectionPlaces(entries: seq<SectionEntry>, start: u32, shift: u32, i: nat)
    requires i < |entries| && start + SectionSize(entries) < 0x8000_0000 && shift + SectionSize(entries) < 0x8000_0000
    ensures SectionSize(entries[..i]) <= SectionSize(entries)
    ensures var v := InitSection(entries, start, shift)[i];
            && v == DspVar(entries[i].name, entries[i].size, entries[i].dataType, DspInternal,
                           start + SectionSize(entries[..i]), shift + SectionSize(entries[..i]))
            && v.address + v.size <= start + SectionSize(entries)
  {
    if i == |entries| - 1 {
    } else {
      SectionPlaces(entries[..|entries| - 1], start, shift, i);
      assert entries[..|entries| - 1][..i] == entries[..i];
    }
  }

  /** COPYDU and COPYUD address both DSP sections from the one base DSPMEMOFFSET sets: base plus operand is the
      address, for every variable of either section. */
  lemma DspBaseReachesBothSections(chip: Chip, v: DspVar)
    requires var l := LayoutOf(chip);
             || v in InitSection(DSP_WORKSPACE_VARS, l.dspWorkspace, 0)
             || v in InitSection(DIALOG_WORKSPACE_VARS, l.dialogWorkspace, l.dialogWorkspace - l.dspWorkspace)
    ensures LayoutOf(chip).dspWorkspace + v.offset == v.address
    ensures v.offset + v.size < 0x8000
  {
    var l := LayoutOf(chip);
    DspSectionSize();
    DialogSectionSize();
    hide SectionSize;
    if v in InitSection(DSP_WORKSPACE_VARS, l.dspWorkspace, 0) {
      var i :| 0 <= i < |DSP_WORKSPACE_VARS| && InitSection(DSP_WORKSPACE_VARS, l.dspWorkspace, 0)[i] == v;
      SectionPlaces(DSP_WORKSPACE_VARS, l.dspWorkspace, 0, i);
    } else {
      var shift := l.dialogWorkspace - l.dspWorkspace;
      var i :| 0 <= i < |DIALOG_WORKSPACE_VARS| && InitSection(DIALOG_WORKSPACE_VARS, l.dialogWorkspace, shift)[i] == v;
      SectionPlaces(DIALOG_WORKSPACE_VARS, l.dialogWorkspace, shift, i);
    }
  }

  lemma {:induction false} SectionSizeBound(entries: seq<SectionEntry>, bound: nat)
    requires forall i :: 0 <= i < |entries| ==> entries[i].size <= bound
    ensures SectionSize(entries) <= bound * |entries|
  {
    if entries == [] {
    } else {
      SectionSizeBound(entries[..|entries| - 1], bound);
    }
  }

  lemma DspSectionSize()
    ensures SectionSize(DSP_WORKSPACE_VARS) < 0x1000
  {
    hide SectionSize;
    SectionSizeBound(DSP_WORKSPACE_VARS, 48);
  }

  lemma DialogSectionSize()
    ensures SectionSize(DIALOG_WORKSPACE_VARS) < 0x1000
  {
    hide SectionSize;
    SectionSizeBound(DIALOG_WORKSPACE_VARS, 48);
  }

  lemma {:induction false} UpperKeepsBlanks(s: string)
    ensures RemoveBlanks(ToUpper(s)) == ToUpper(RemoveBlanks(s))
    ensures ' ' !in RemoveBlanks(s)
  {
    if s == "" {
    } else {
      UpperKeepsBlanks(s[1..]);
      var head := if s[0] == ' ' then "" else [s[0]];
      UpperOfFirst(s);
      UpperOfTwo(head, RemoveBlanks(s[1..]));
      hide ToUpper, UpperChar;
    }
  }

  lemma UpperOfFirst(s: string)
    requires s != ""
    ensures ToUpper(s) != "" && ToUpper(s)[1..] == ToUpper(s[1..]) && ToUpper(s)[0] == UpperChar(s[0])
    ensures ToUpper([s[0]]) == [UpperChar(s[0])] && ToUpper("") == "" && (UpperChar(s[0]) == ' ' <==> s[0] == ' ')
  {
  }

  lemma UpperOfTwo(a: string, b: string)
    ensures ToUpper(a + b) == ToUpper(a) + ToUpper(b)
  {
  }

  lemma FirstSummandOfUpper(text: string, name: string)
    requires ' ' !in text && FirstSummand(ToUpper(text)) == Some(name)
    ensures ' ' !in name && name != "" && name[0] != '+'
    ensures text != "" && text[0] != '+' ==> name == UntilPlus(ToUpper(text))
  {
    var upper := ToUpper(text);
    assert ' ' !in upper by {
      forall i | 0 <= i < |upper| ensures upper[i] != ' ' {
        assert upper[i] == UpperChar(text[i]);
      }
    }
    KeptTail(upper);
  }

  /** A text whose upper-cased first summand it starts with has that summand in upper case, up to a plus sign. */
  lemma SummandShape(text: string, name: string)
    requires ' ' !in text && FirstSummand(ToUpper(text)) == Some(name) && RemoveBlanks(name) <= text
    ensures RemoveBlanks(name) == name == ToUpper(name) && name <= text
    ensures text != name ==> |name| < |text| && text[|name|] == '+'
  {
    FirstSummandOfUpper(text, name);
    NoBlanksToRemove(name);
    assert text[0] == name[0];
    var upper := ToUpper(text);
    assert name <= upper;
    forall i | 0 <= i < |name| ensures name[i] == UpperChar(name[i]) {
      assert name[i] == upper[i] && name[i] == text[i];
    }
    assert text != name ==> |name| < |upper|;
  }

  /** The upper-case rule: an operand naming a variable is accepted only in upper case, and then it is the name
      alone or the name, a plus sign and an offset that reads as a number. */
  lemma AcceptedOperandShape(hash: VarHash, token: string)
    requires KeyedByName(hash) && Target(hash, token).Some?
    ensures var (v, k) := Target(hash, token).value;
            var text := RemoveBlanks(token);
            && v.name == ToUpper(v.name) && v.name <= text
            && (text == v.name ==> k == 0)
            && (text != v.name ==> text[|v.name|] == '+' && CalcOffset(text[|v.name|..]) == Some(k))
  {
    UpperKeepsBlanks(token);
    SummandShape(RemoveBlanks(token), Target(hash, token).value.0.name);
  }

  lemma {:induction false} KeptTail(s: string)
    ensures ' ' !in s ==> ' ' !in DropPluses(s)
    ensures s != "" && s[0] != '+' ==> DropPluses(s) == s
    ensures DropPluses(s) != "" ==> DropPluses(s)[0] != '+'
  {
    if s == "" || s[0] != '+' {
    } else {
      KeptTail(s[1..]);
    }
  }

  ghost predicate AllInternal(hash: VarHash) {
    forall n <- hash :: hash[n].segment == DspInternal
  }

  lemma {:induction false} SectionIsInternal(entries: seq<SectionEntry>, start: u32, shift: u32)
    ensures forall v <- InitSection(entries, start, shift) :: v.segment == DspInternal
  {
    if entries == [] {
    } else {
      SectionIsInternal(entries[..|entries| - 1], start, shift);
    }
  }

  lemma {:induction false} AddedInternal(hash: VarHash, vars: seq<DspVar>)
    requires AllInternal(hash) && forall v <- vars :: v.segment == DspInternal
    ensures AllInternal(AddToHash(hash, vars))
  {
    if vars == [] {
    } else {
      assert vars[|vars| - 1] in vars;
      AddedInternal(hash, vars[..|vars| - 1]);
    }
  }

  lemma AddedSection(hash: VarHash, entries: seq<SectionEntry>, start: u32, shift: u32)
    requires AllInternal(hash) && KeyedByName(hash)
    ensures AllInternal(AddToHash(hash, InitSection(entries, start, shift)))
    ensures KeyedByName(AddToHash(hash, InitSection(entries, start, shift)))
  {
    SectionIsInternal(entries, start, shift);
    AddedInternal(hash, InitSection(entries, start, shift));
    AddToHashKeeps(hash, InitSection(entries, start, shift));
  }

  lemma SystemVariables(chip: Chip)
    ensures AllInternal(SystemHash(chip)) && KeyedByName(SystemHash(chip))
  {
    hide AddToHash, InitSection, AllInternal, KeyedByName;
    var l := LayoutOf(chip);
    AddedSection(map[], DSP_WORKSPACE_VARS, l.dspWorkspace, 0);
    var h0 := AddToHash(map[], InitSection(DSP_WORKSPACE_VARS, l.dspWorkspace, 0));
    AddedSection(h0, DIALOG_WORKSPACE_VARS, l.dialogWorkspace, l.dialogWorkspace - l.dspWorkspace);
    var h1 := AddToHash(h0, InitSection(DIALOG_WORKSPACE_VARS, l.dialogWorkspace, l.dialogWorkspace - l.dspWorkspace));
    AddedSection(h1, UserWorkspaceVars(l), l.userWorkspace, 0);
    var h2 := AddToHash(h1, InitSection(UserWorkspaceVars(l), l.userWorkspace, 0));
    AddedSection(h2, CmdListVars(l), l.cmdList, 0);
    var h3 := AddToHash(h2, InitSection(CmdListVars(l), l.cmdList, 0));
    AddedSection(h3, ChannelNrVars(32), 0, 0);
  }
}
