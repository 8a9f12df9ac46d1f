/** How an operand text finds its variable, said of the text itself. */
module OperandNames {
  import opened MachineWords
  import opened Wrappers
  import opened DspVarOffsetCalc
  import opened DspApi
  import opened DspVarResolver
  import opened VarAllocator
  import opened ZdspClientImage
  import opened NumberNames
  import opened SystemNames
  import opened DspVarDeviceNodes

  /** The text, without its blanks and in upper case, is any number of plus signs, the name, and nothing or a plus sign
      and more. */
  predicate ReadsAs(token: string, pluses: string, name: string, tail: string) {
    && ToUpper(RemoveBlanks(token)) == pluses + name + tail && name != "" && '+' !in name
    && (forall i :: 0 <= i < |pluses| ==> pluses[i] == '+') && (tail == "" || tail[0] == '+')
  }

  lemma {:induction false} PlusesDropped(pluses: string, rest: string)
    requires (forall i :: 0 <= i < |pluses| ==> pluses[i] == '+') && rest != "" && rest[0] != '+'
    ensures DropPluses(pluses + rest) == rest
  {
    if pluses == "" {
      assert pluses + rest == rest;
    } else {
      assert (pluses + rest)[1..] == pluses[1..] + rest;
      PlusesDropped(pluses[1..], rest);
    }
  }

  /** A text finds the variable of its first name, wherever blanks and small letters are. */
  lemma FindsFirstName(hash: VarHash, token: string, pluses: string, name: string, tail: string)
    requires ReadsAs(token, pluses, name, tail)
    ensures GetDspVar(hash, token) == if name in hash then Some(hash[name]) else None
  {
    UpperKeepsBlanks(token);
    assert pluses + name + tail == pluses + (name + tail);
    PlusesDropped(pluses, name + tail);
    UntilPlusStops(name, tail);
    hide ToUpper, RemoveBlanks, DropPluses, UntilPlus;
  }

  /** Such a text is never a number: it is a word of that variable, or an error. */
  lemma NamedIsNeverNumber(hash: VarHash, token: string, pluses: string, name: string, tail: string)
    requires ReadsAs(token, pluses, name, tail) && name in hash
    ensures var v := hash[name];
            || (GetVarOffset(hash, token) == -1 && GetVarAddress(hash, token) == -1)
            || exists k: nat :: CalcVarOffset(v.name, token) == Some(k)
                                && GetVarOffset(hash, token) == ToInt32(v.offset + k)
                                && GetVarAddress(hash, token) == ToInt32(v.address + k)
  {
    FindsFirstName(hash, token, pluses, name, tail);
    hide GetDspVar, CalcVarOffset, ReadsAs, ToInt32;
  }

  /** A name in small letters, or partly so, is an error, even if it reads as a hexadecimal number. */
  lemma SmallLettersAreAnError(hash: VarHash, token: string, name: string)
    requires ' ' !in token && '+' !in token && token != "" && ToUpper(token) == name && name != token
    requires name in hash && hash[name].name == name
    ensures GetVarOffset(hash, token) == -1 && GetVarAddress(hash, token) == -1
  {
    NoBlanksToRemove(token);
    assert ToUpper(RemoveBlanks(token)) == "" + name + "";
    UpperHasNo(token);
    FindsFirstName(hash, token, "", name, "");
    NoBlanksToRemove(name);
    hide GetDspVar, ReadsAs, CalcOffset;
    assert |name| == |token|;
    assert !(name <= token);
  }

  lemma UpperHasNo(token: string)
    requires '+' !in token && ' ' !in token
    ensures '+' !in ToUpper(token) && ' ' !in ToUpper(token)
  {
    forall i | 0 <= i < |token| ensures ToUpper(token)[i] != '+' && ToUpper(token)[i] != ' ' {
      assert ToUpper(token)[i] == UpperChar(token[i]) && token[i] in token;
    }
  }

  // ---------- where the areas for programs are

  /** The last of the five sections but one, and the user workspace before it: each name stands for the start of its area. */
  lemma ProgramAreas(chip: Chip)
    ensures var l, h := LayoutOf(chip), SystemHash(chip);
            && AreaAt(h, "UWSPACE", l.userWorkspace, l.uwSpaceSize)
            && AreaAt(h, "INTCMDLIST", l.cmdList, l.intCmdListLen)
            && AreaAt(h, "CMDLIST", l.cmdList + l.intCmdListLen, l.cmdListLen)
            && AreaAt(h, "ALTINTCMDLIST", l.cmdList + l.intCmdListLen + l.cmdListLen, l.intCmdListLen)
            && AreaAt(h, "ALTCMDLIST", l.cmdList + 2 * l.intCmdListLen + l.cmdListLen, l.cmdListLen)
  {
    hide SystemHash;
    var l := LayoutOf(chip);
    UserArea(chip);
    CmdListArea(chip, 0);
    CmdListArea(chip, 1);
    CmdListArea(chip, 2);
    CmdListArea(chip, 3);
    CmdListSums(l);
    hide CmdListVars, SectionSize;
  }

  predicate AreaAt(hash: VarHash, name: string, address: int, size: int) {
    name in hash && hash[name].address == address && hash[name].size == size
  }

  lemma CmdListSums(l: Layout)
    ensures var e := CmdListVars(l);
            && SectionSize(e[..0]) == 0 && SectionSize(e[..1]) == l.intCmdListLen
            && SectionSize(e[..2]) == l.intCmdListLen + l.cmdListLen
            && SectionSize(e[..3]) == 2 * l.intCmdListLen + l.cmdListLen
            && SectionSize(e) == 2 * l.intCmdListLen + 2 * l.cmdListLen
    ensures |CmdListVars(l)| == 4 && CmdListVars(l)[0] == SectionEntry("INTCMDLIST", l.intCmdListLen, IntType)
    ensures CmdListVars(l)[1] == SectionEntry("CMDLIST", l.cmdListLen, IntType)
    ensures CmdListVars(l)[2] == SectionEntry("ALTINTCMDLIST", l.intCmdListLen, IntType)
    ensures CmdListVars(l)[3] == SectionEntry("ALTCMDLIST", l.cmdListLen, IntType)
  {
    var e := CmdListVars(l);
    assert e[..3][..2] == e[..2] && e[..2][..1] == e[..1] && e[..1][..0] == e[..0] == [];
  }

  /** What the last sections add to the system's variables. */
  lemma LateSections(chip: Chip, name: string)
    requires LastNamed(InitSection(ChannelNrVars(32), 0, 0), name) == None
    ensures var l := LayoutOf(chip);
            var user, lists := LastNamed(InitSection(UserWorkspaceVars(l), l.userWorkspace, 0), name),
                               LastNamed(InitSection(CmdListVars(l), l.cmdList, 0), name);
            && (lists.Some? ==> name in SystemHash(chip) && SystemHash(chip)[name] == lists.value)
            && (lists.None? && user.Some? ==> name in SystemHash(chip) && SystemHash(chip)[name] == user.value)
  {
    hide AddToHash, InitSection, ChannelNrVars, LastNamed, UserWorkspaceVars, CmdListVars, LayoutOf;
    var l := LayoutOf(chip);
    var h0 := AddToHash(map[], InitSection(DSP_WORKSPACE_VARS, l.dspWorkspace, 0));
    var h1 := AddToHash(h0, InitSection(DIALOG_WORKSPACE_VARS, l.dialogWorkspace, l.dialogWorkspace - l.dspWorkspace));
    var h2 := AddToHash(h1, InitSection(UserWorkspaceVars(l), l.userWorkspace, 0));
    var h3 := AddToHash(h2, InitSection(CmdListVars(l), l.cmdList, 0));
    LastNamedWins(h1, InitSection(UserWorkspaceVars(l), l.userWorkspace, 0), name);
    LastNamedWins(h2, InitSection(CmdListVars(l), l.cmdList, 0), name);
    LastNamedWins(h3, InitSection(ChannelNrVars(32), 0, 0), name);
  }

  lemma NoChannel(name: string)
    requires |name| < 2 || name[1] != 'H'
    ensures LastNamed(InitSection(ChannelNrVars(32), 0, 0), name) == None
  {
    hide InitSection, ChannelNrVars, LastNamed;
    ChannelNames(32);
    NotInSection(ChannelNrVars(32), 0, 0, name);
  }

  lemma CmdListArea(chip: Chip, i: nat)
    requires i < 4
    ensures var l, e := LayoutOf(chip), CmdListVars(LayoutOf(chip));
            i < |e| && AreaAt(SystemHash(chip), e[i].name, l.cmdList + SectionSize(e[..i]), e[i].size)
  {
    hide SystemHash, InitSection, SectionSize, LastNamed;
    var l, e := LayoutOf(chip), CmdListVars(LayoutOf(chip));
    CmdListSums(l);
    SectionPlaces(e, l.cmdList, 0, i);
    FoundInSection(e, l.cmdList, 0, i);
    NoChannel(e[i].name);
    LateSections(chip, e[i].name);
  }

  lemma UserArea(chip: Chip)
    ensures AreaAt(SystemHash(chip), "UWSPACE", LayoutOf(chip).userWorkspace, LayoutOf(chip).uwSpaceSize)
  {
    hide SystemHash, InitSection, SectionSize, LastNamed;
    var l := LayoutOf(chip);
    var e := UserWorkspaceVars(l);
    CmdListSums(l);
    OneEntrySize(e[0]);
    SectionPlaces(e, l.userWorkspace, 0, 0);
    FoundInSection(e, l.userWorkspace, 0, 0);
    NotInSection(CmdListVars(l), l.cmdList, 0, "UWSPACE");
    NoChannel("UWSPACE");
    LateSections(chip, "UWSPACE");
  }

  lemma OneEntrySize(e: SectionEntry)
    ensures SectionSize([e]) == e.size && SectionSize([e][..0]) == 0
  {
    assert [e][..0] == [];
  }
}
