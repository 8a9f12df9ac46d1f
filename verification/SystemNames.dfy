/** When a client's own variables hide the variables of the system. */
module SystemNames {
  import opened MachineWords
  import opened Wrappers
  import opened DspVarOffsetCalc
  import opened DspApi
  import opened DspVarResolver
  import opened VarAllocator
  import opened ZdspClientImage
  import opened NumberNames

  /** The last variable of that name in a list: the one a resolver keeps. */
  function LastNamed(vars: seq<DspVar>, name: string): Option<DspVar> {
    if vars == [] then None
    else if vars[|vars| - 1].name == name then Some(vars[|vars| - 1])
    else LastNamed(vars[..|vars| - 1], name)
  }

  /** A later variable of any segment hides an earlier one, whoever declared it. */
  lemma {:induction false} LastNamedWins(hash: VarHash, vars: seq<DspVar>, name: string)
    ensures name in AddToHash(hash, vars) <==> name in hash || LastNamed(vars, name).Some?
    ensures name in AddToHash(hash, vars) ==>
              AddToHash(hash, vars)[name] == if LastNamed(vars, name).Some? then LastNamed(vars, name).value else hash[name]
  {
    if vars == [] {
    } else {
      LastNamedWins(hash, vars[..|vars| - 1], name);
    }
  }

  lemma {:induction false} LastNamedIsNamed(vars: seq<DspVar>, name: string)
    ensures LastNamed(vars, name).Some? ==> LastNamed(vars, name).value in vars && LastNamed(vars, name).value.name == name
    ensures LastNamed(vars, name).None? <==> forall i :: 0 <= i < |vars| ==> vars[i].name != name
  {
    if vars == [] {
    } else {
      LastNamedIsNamed(vars[..|vars| - 1], name);
    }
  }

  /** The text names the variable of the system and is accepted as an operand before anything is declared. */
  predicate NamesSystem(chip: Chip, token: string, name: string) {
    && FirstSummand(RemoveBlanks(ToUpper(token))) == Some(name) && name in SystemHash(chip)
    && Target(SystemHash(chip), token).Some?
  }

  lemma ResolvedIn(hash: VarHash, token: string, name: string, v: DspVar)
    requires FirstSummand(RemoveBlanks(ToUpper(token))) == Some(name) && name in hash && hash[name] == v
    ensures GetDspVar(hash, token) == Some(v)
  {
  }

  /** A client's resolver knows, under a system name, the last variable of the client with that name, or the system's. */
  lemma ResolvesTo(chip: Chip, c: ClientImage, token: string, name: string)
    requires NamesSystem(chip, token, name)
    ensures var last := LastNamed(Known(c), name);
            && GetDspVar(HashOf(chip, c), token) == Some(if last.Some? then last.value else SystemHash(chip)[name])
            && GetDspVar(SystemHash(chip), token) == Some(SystemHash(chip)[name])
  {
    hide SystemHash, AddToHash, FirstSummand, RemoveBlanks, ToUpper, CalcVarOffset, LastNamed;
    LastNamedWins(SystemHash(chip), Known(c), name);
  }

  lemma ShiftedEqually(a: u32, b: u32, k: nat)
    ensures ToInt32(a + k) == ToInt32(b + k) <==> a == b
  {
    if a != b {
      DifferentWords(a + k, b + k);
    }
  }

  lemma DifferentWords(x: int, y: int)
    requires x != y && -0x1_0000_0000 < x - y < 0x1_0000_0000
    ensures Wrap32(x) != Wrap32(y)
  {
    var p, q := x / 0x1_0000_0000, y / 0x1_0000_0000;
    assert x - y == (p - q) * 0x1_0000_0000 + Wrap32(x) - Wrap32(y);
  }

  lemma ResolvedValues(hash: VarHash, token: string, v: DspVar, k: nat)
    requires GetDspVar(hash, token) == Some(v) && CalcVarOffset(v.name, token) == Some(k)
    ensures GetVarAddress(hash, token) == ToInt32(v.address + k) && GetVarOffset(hash, token) == ToInt32(v.offset + k)
    ensures Target(hash, token) == Some((v, k))
  {
  }

  lemma OwnNames(chip: Chip, c: ClientImage, token: string, name: string)
    requires NamesSystem(chip, token, name)
    ensures SystemHash(chip)[name].name == name
    ensures LastNamed(Known(c), name).Some? ==> LastNamed(Known(c), name).value.name == name
  {
    SystemVariables(chip);
    LastNamedIsNamed(Known(c), name);
    hide SystemHash;
  }

  /** A text that names a system variable keeps its address for a client, whether linked or not, if and only if no
      variable of the client bears that name or the last one that does has that very address; and so with offsets. */
  lemma SystemNameKeptIff(chip: Chip, c: ClientImage, token: string, name: string)
    requires NamesSystem(chip, token, name)
    ensures var last, system := LastNamed(Known(c), name), SystemHash(chip)[name];
            && (GetVarAddress(HashOf(chip, c), token) == GetVarAddress(SystemHash(chip), token)
                <==> last == None || last.value.address == system.address)
            && (GetVarOffset(HashOf(chip, c), token) == GetVarOffset(SystemHash(chip), token)
                <==> last == None || last.value.offset == system.offset)
  {
    hide GetVarAddress, GetVarOffset, SystemHash, HashOf, GetDspVar, CalcVarOffset, LastNamed, ToInt32, FirstSummand;
    var last, system := LastNamed(Known(c), name), SystemHash(chip)[name];
    ResolvesTo(chip, c, token, name);
    OwnNames(chip, c, token, name);
    var k := Target(SystemHash(chip), token).value.1;
    ResolvedValues(SystemHash(chip), token, system, k);
    if last.Some? {
      ResolvedValues(HashOf(chip, c), token, last.value, k);
      ShiftedEqually(last.value.address, system.address, k);
      ShiftedEqually(last.value.offset, system.offset, k);
    } else {
      ResolvedValues(HashOf(chip, c), token, system, k);
    }
  }

  lemma AcceptedHash(chip: Chip, globals: VarHash, c: ClientImage, entries: seq<Option<DspVar>>)
    requires AcceptedCount(globals, HashOf(chip, c), entries) == |entries|
    ensures forall e <- entries :: e.Some?
    ensures var after := SetVarList(chip, globals, c, entries); after.vars == Taken(entries) && after.detached == None
  {
    hide HashOf;
    assert entries[..|entries|] == entries;
    forall e | e in entries ensures e.Some? {
      var i :| 0 <= i < |entries| && entries[i] == e;
      assert EntryAccepted(globals, HashOf(chip, c), entries[i]);
    }
  }

  lemma WinnerIsKnown(chip: Chip, c: ClientImage, v: DspVar)
    requires LastNamed(Known(c), v.name) == Some(v)
    ensures v.name in HashOf(chip, c) && HashOf(chip, c)[v.name] == v
  {
    LastNamedWins(SystemHash(chip), Known(c), v.name);
    hide SystemHash, AddToHash, LastNamed;
  }

  /** An entry of an accepted list that no later entry replaces takes its name over, wherever it stands and whatever its
      segment; as it has no address yet, the name then resolves to offset 0 and address 0. */
  lemma DeclaredNameResolvesToZero(chip: Chip, globals: VarHash, c: ClientImage, entries: seq<Option<DspVar>>, v: DspVar)
    requires AcceptedCount(globals, HashOf(chip, c), entries) == |entries|
    requires LastNamed(SetVarList(chip, globals, c, entries).vars, v.name) == Some(v) && v.address == 0 && v.offset == 0
    requires FirstSummand(RemoveBlanks(ToUpper(v.name))) == Some(v.name)
    ensures var after := HashOf(chip, SetVarList(chip, globals, c, entries));
            GetVarAddress(after, v.name) == 0 && GetVarOffset(after, v.name) == 0
  {
    hide SetVarList, HashOf, LastNamed, FirstSummand, CalcVarOffset, GetDspVar, GetVarAddress, GetVarOffset, AcceptedCount,
         RemoveBlanks, ToUpper, ToInt32;
    AcceptedHash(chip, globals, c, entries);
    OwnNameHasOffset0(v.name);
    var after := SetVarList(chip, globals, c, entries);
    WinnerIsKnown(chip, after, v);
    ResolvedIn(HashOf(chip, after), v.name, v.name, v);
    ResolvedValues(HashOf(chip, after), v.name, v, 0);
    assert ToInt32(0) == 0 by {
      ZeroStays();
    }
  }

  lemma ZeroStays()
    ensures ToInt32(0) == 0
  {
  }

  lemma OwnNameHasOffset0(name: string)
    ensures CalcVarOffset(name, name) == Some(0)
  {
  }

  /** Nothing keeps a client from declaring a local variable under any name, a system name for one. */
  lemma LocalIsAlwaysAccepted(chip: Chip, globals: VarHash, c: ClientImage, v: DspVar)
    requires v.segment == ModuleLocal || v.segment == ModuleAligned
    ensures AcceptedCount(globals, HashOf(chip, c), [Some(v)]) == 1
    ensures SetVarList(chip, globals, c, [Some(v)]) == c.(vars := [v], detached := None)
  {
    hide HashOf;
    CountIs(globals, HashOf(chip, c), [Some(v)], 1);
    assert [Some(v)][..1] == [Some(v)] && [Some(v)][..0] == [];
    assert Taken([Some(v)]) == [v];
  }

  /** And linking leaves a declared DSP internal variable where it is: it never gets an address. */
  lemma {:induction false} InternalIsNeverPlaced(st: Alloc, clientStart: u32, vars: seq<DspVar>, i: nat)
    requires i < |vars| && vars[i].segment == DspInternal
    ensures PlaceVars(st, clientStart, vars).placed[|st.placed| + i] == vars[i]
  {
    if i < |vars| - 1 {
      InternalIsNeverPlaced(st, clientStart, vars[..|vars| - 1], i);
    } else {
      assert vars == vars[..|vars| - 1] + [vars[i]];
    }
  }

  // ---------- the channel numbers as examples

  lemma {:induction false} ChannelSizes(count: nat)
    ensures |ChannelNrVars(count)| == count && SectionSize(ChannelNrVars(count)) == count
  {
    if count == 0 {
    } else {
      ChannelSizes(count - 1);
      assert ChannelNrVars(count)[..count - 1] == ChannelNrVars(count - 1);
    }
  }

  lemma SameDecimal(m: nat, n: nat)
    requires Decimal(m) == Decimal(n)
    ensures m == n
  {
    DecimalDigits(m);
    DecimalDigits(n);
    hide Decimal;
  }

  lemma SameChannelName(m: nat, n: nat)
    requires "CH" + Decimal(m) == "CH" + Decimal(n)
    ensures m == n
  {
    assert ("CH" + Decimal(m))[2..] == Decimal(m) && ("CH" + Decimal(n))[2..] == Decimal(n);
    SameDecimal(m, n);
  }

  function Channel(i: u32): DspVar {
    DspVar("CH" + Decimal(i), 1, IntType, DspInternal, i, i)
  }

  lemma SectionAppended(front: seq<SectionEntry>, e: SectionEntry)
    ensures InitSection(front + [e], 0, 0) ==
            InitSection(front, 0, 0)
            + [DspVar(e.name, e.size, e.dataType, DspInternal, Wrap32(SectionSize(front)), Wrap32(SectionSize(front)))]
  {
    hide SectionSize, Wrap32;
    var all := front + [e];
    assert all[..|all| - 1] == front && all[|all| - 1] == e;
  }

  lemma ChannelStep(count: nat)
    requires 0 < count < 0x8000_0000
    ensures InitSection(ChannelNrVars(count), 0, 0) == InitSection(ChannelNrVars(count - 1), 0, 0) + [Channel(count - 1)]
  {
    hide Decimal, InitSection, SectionSize, Wrap32;
    ChannelSizes(count - 1);
    SmallWord(count - 1);
    var entry := SectionEntry("CH" + Decimal(count - 1), 1, IntType);
    assert ChannelNrVars(count) == ChannelNrVars(count - 1) + [entry];
    hide ChannelNrVars;
    SectionAppended(ChannelNrVars(count - 1), entry);
  }

  lemma SmallWord(x: nat)
    requires x < 0x8000_0000
    ensures Wrap32(x) == x
  {
  }

  lemma {:induction false} LastChannel(count: nat, i: nat)
    requires i < count < 0x8000_0000
    ensures LastNamed(InitSection(ChannelNrVars(count), 0, 0), "CH" + Decimal(i)) == Some(Channel(i))
    decreases count
  {
    hide Decimal, LastNamed, InitSection, ChannelNrVars;
    ChannelStep(count);
    LastOfAppended(InitSection(ChannelNrVars(count - 1), 0, 0), Channel(count - 1), "CH" + Decimal(i));
    if i == count - 1 {
    } else {
      if "CH" + Decimal(i) == "CH" + Decimal(count - 1) {
        SameChannelName(i, count - 1);
      }
      LastChannel(count - 1, i);
    }
  }

  lemma LastOfAppended(front: seq<DspVar>, last: DspVar, name: string)
    ensures LastNamed(front + [last], name) == if last.name == name then Some(last) else LastNamed(front, name)
  {
    assert (front + [last])[..|front|] == front;
  }

  /** The constant CHi has address and offset i. */
  lemma ChannelConstant(chip: Chip, i: nat)
    requires i < 32
    ensures var name := "CH" + Decimal(i);
            name in SystemHash(chip) && SystemHash(chip)[name].address == i && SystemHash(chip)[name].offset == i
  {
    LastChannel(32, i);
    var name := "CH" + Decimal(i);
    hide AddToHash, InitSection, Decimal, ChannelNrVars, LastNamed;
    var l := LayoutOf(chip);
    var h0 := AddToHash(map[], InitSection(DSP_WORKSPACE_VARS, l.dspWorkspace, 0));
    var h1 := AddToHash(h0, InitSection(DIALOG_WORKSPACE_VARS, l.dialogWorkspace, l.dialogWorkspace - l.dspWorkspace));
    var h2 := AddToHash(h1, InitSection(UserWorkspaceVars(l), l.userWorkspace, 0));
    var h3 := AddToHash(h2, InitSection(CmdListVars(l), l.cmdList, 0));
    LastNamedWins(h3, InitSection(ChannelNrVars(32), 0, 0), name);
  }

  lemma ChannelNameIsItsSummand(i: nat)
    ensures var name := "CH" + Decimal(i);
            FirstSummand(RemoveBlanks(ToUpper(name))) == Some(name) && CalcVarOffset(name, name) == Some(0)
  {
    var name := "CH" + Decimal(i);
    DecimalDigits(i);
    assert ToUpper(name) == name;
    VarOffsetReadsBack(name, 0);
    NoBlanksToRemove(name);
    NoPlusToCut(name, "");
    assert name + "" == name;
  }

  /** A client that declares a channel constant, which never gets an address of its own, keeps its value exactly for
      CH0: every other one turns into 0. */
  lemma DeclaredChannelConstant(chip: Chip, c: ClientImage, i: nat)
    requires i < 32
    requires var last := LastNamed(Known(c), "CH" + Decimal(i)); last.Some? && last.value.offset == 0
    ensures var token := "CH" + Decimal(i);
            && GetVarOffset(SystemHash(chip), token) == i && GetVarOffset(HashOf(chip, c), token) == 0
  {
    hide SystemHash, HashOf, LastNamed, FirstSummand, RemoveBlanks, ToUpper, CalcVarOffset, Decimal, GetVarOffset, GetDspVar;
    var name := "CH" + Decimal(i);
    ChannelConstant(chip, i);
    ChannelNameIsItsSummand(i);
    ResolvedIn(SystemHash(chip), name, name, SystemHash(chip)[name]);
    SystemVariables(chip);
    ResolvedValues(SystemHash(chip), name, SystemHash(chip)[name], 0);
    ResolvesTo(chip, c, name, name);
    OwnNames(chip, c, name, name);
    ResolvedValues(HashOf(chip, c), name, LastNamed(Known(c), name).value, 0);
  }
}
