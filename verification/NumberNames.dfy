/** When a number that the server prints into a command is the name of a variable. */
module NumberNames {
  import opened MachineWords
  import opened Wrappers
  import opened DspVarOffsetCalc
  import opened DspApi
  import opened DspVarResolver
  import opened ZdspClientImage
  import opened LinkedMeaning

  predicate StartsWithDigit(name: string) {
    name != "" && '0' <= name[0] <= '9'
  }

  predicate NoNumbers(entries: seq<SectionEntry>) {
    forall i :: 0 <= i < |entries| ==> !StartsWithDigit(entries[i].name)
  }

  lemma NumberIsItsSummand(n: nat)
    ensures FirstSummand(RemoveBlanks(ToUpper(Decimal(n)))) == Some(Decimal(n)) && StartsWithDigit(Decimal(n))
  {
    var s := Decimal(n);
    DecimalDigits(n);
    assert ToUpper(s) == s;
    NoBlanksToRemove(s);
    NoPlusToCut(s, "");
    assert s + "" == s;
  }

  lemma {:induction false} AddToHashKeys(hash: VarHash, vars: seq<DspVar>, n: string)
    ensures n in AddToHash(hash, vars) <==> n in hash || exists i :: 0 <= i < |vars| && vars[i].name == n
  {
    if vars == [] {
    } else {
      var k := |vars| - 1;
      AddToHashKeys(hash, vars[..k], n);
      if n in AddToHash(hash, vars[..k]) && n !in hash {
        var i :| 0 <= i < |vars[..k]| && vars[..k][i].name == n;
        assert vars[i].name == n;
      }
      if exists i :: 0 <= i < k && vars[i].name == n {
        var i :| 0 <= i < k && vars[i].name == n;
        assert vars[..k][i].name == n;
      }
    }
  }

  lemma {:induction false} SectionNames(entries: seq<SectionEntry>, start: u32, shift: u32)
    ensures forall i :: 0 <= i < |entries| ==> InitSection(entries, start, shift)[i].name == entries[i].name
  {
    if entries == [] {
    } else {
      var k := |entries| - 1;
      SectionNames(entries[..k], start, shift);
      forall i | 0 <= i < k ensures InitSection(entries, start, shift)[i].name == entries[i].name {
        assert entries[..k][i] == entries[i];
      }
    }
  }

  lemma SectionAddsNoNumber(hash: VarHash, entries: seq<SectionEntry>, start: u32, shift: u32, n: string)
    requires n !in hash && NoNumbers(entries) && StartsWithDigit(n)
    ensures n !in AddToHash(hash, InitSection(entries, start, shift))
  {
    SectionNames(entries, start, shift);
    AddToHashKeys(hash, InitSection(entries, start, shift), n);
  }

  lemma DspTable()
    ensures NoNumbers(DSP_WORKSPACE_VARS)
  {
  }

  lemma DialogTable()
    ensures NoNumbers(DIALOG_WORKSPACE_VARS)
  {
    forall i | 0 <= i < |DIALOG_WORKSPACE_VARS| ensures !StartsWithDigit(DIALOG_WORKSPACE_VARS[i].name) {
      if i < 7 {
      } else if i < 14 {
      }
    }
  }

  lemma {:induction false} ChannelTable(count: nat)
    ensures NoNumbers(ChannelNrVars(count))
  {
    if count == 0 {
    } else {
      ChannelTable(count - 1);
      assert ("CH" + Decimal(count - 1))[0] == 'C';
    }
  }

  lemma SystemNamesAreNoNumbers(chip: Chip, n: string)
    requires StartsWithDigit(n)
    ensures n !in SystemHash(chip)
  {
    DspTable();
    DialogTable();
    ChannelTable(32);
    hide AddToHash, InitSection, NoNumbers, StartsWithDigit;
    var l := LayoutOf(chip);
    assert NoNumbers(UserWorkspaceVars(l)) && NoNumbers(CmdListVars(l)) by {
      OwnTables(l);
    }
    SectionAddsNoNumber(map[], DSP_WORKSPACE_VARS, l.dspWorkspace, 0, n);
    var h0 := AddToHash(map[], InitSection(DSP_WORKSPACE_VARS, l.dspWorkspace, 0));
    SectionAddsNoNumber(h0, DIALOG_WORKSPACE_VARS, l.dialogWorkspace, l.dialogWorkspace - l.dspWorkspace, n);
    var h1 := AddToHash(h0, InitSection(DIALOG_WORKSPACE_VARS, l.dialogWorkspace, l.dialogWorkspace - l.dspWorkspace));
    SectionAddsNoNumber(h1, UserWorkspaceVars(l), l.userWorkspace, 0, n);
    var h2 := AddToHash(h1, InitSection(UserWorkspaceVars(l), l.userWorkspace, 0));
    SectionAddsNoNumber(h2, CmdListVars(l), l.cmdList, 0, n);
    var h3 := AddToHash(h2, InitSection(CmdListVars(l), l.cmdList, 0));
    SectionAddsNoNumber(h3, ChannelNrVars(32), 0, 0, n);
  }

  lemma OwnTables(l: Layout)
    ensures NoNumbers(UserWorkspaceVars(l)) && NoNumbers(CmdListVars(l))
  {
  }

  /** The number of a base is read as itself exactly when no variable the client's resolver knows has that number as its
      name: no system variable has. */
  lemma NumberIsFreeIff(chip: Chip, c: ClientImage, n: u32)
    requires n < 0x8000_0000
    ensures NumberIsFree(chip, c, n) <==> forall i :: 0 <= i < |Known(c)| ==> Known(c)[i].name != Decimal(n)
  {
    hide SystemHash, AddToHash, Decimal, FirstSummand, RemoveBlanks, ToUpper, StartsWithDigit;
    NumberIsItsSummand(n);
    SystemNamesAreNoNumbers(chip, Decimal(n));
    AddToHashKeys(SystemHash(chip), Known(c), Decimal(n));
  }
}
