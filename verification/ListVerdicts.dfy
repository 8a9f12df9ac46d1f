/** Which entries of a variable list a client takes over, said of the client after the list. */
module ListVerdicts {
  import opened MachineWords
  import opened Wrappers
  import opened DspVarOffsetCalc
  import opened DspApi
  import opened DspVarResolver
  import opened VarAllocator
  import opened MemoryIsolation
  import opened ZdspClientImage
  import opened ProgramLinker
  import opened LinkedMeaning
  import opened SystemNames
  import opened GlobalSizeCheck

  /** The client after a list whose entries were all taken over, and after one that ended early. */
  predicate TakenOver(c: ClientImage, after: ClientImage, vars: seq<DspVar>) {
    after == c.(vars := vars, detached := None)
  }

  predicate CutShort(c: ClientImage, after: ClientImage, vars: seq<DspVar>) {
    after == c.(vars := vars, detached := Some(Known(c)))
  }

  lemma OneEntry(chip: Chip, globals: VarHash, c: ClientImage, v: DspVar)
    ensures var after := SetVarList(chip, globals, c, [Some(v)]);
            if EntryAccepted(globals, HashOf(chip, c), Some(v)) then TakenOver(c, after, [v]) else CutShort(c, after, [])
  {
    hide HashOf, EntryAccepted, Known;
    var entries := [Some(v)];
    CountIs(globals, HashOf(chip, c), entries, if EntryAccepted(globals, HashOf(chip, c), Some(v)) then 1 else 0);
    assert entries[..1] == entries && entries[..0] == [];
    assert Taken(entries) == [v];
  }

  /** A list of one global is taken over if and only if the table does not know the name or has that size. */
  lemma GlobalTakenIff(chip: Chip, globals: VarHash, c: ClientImage, v: DspVar)
    requires v.segment == ModuleGlobal
    ensures var after := SetVarList(chip, globals, c, [Some(v)]);
            if v.name !in globals || globals[v.name].size == v.size then TakenOver(c, after, [v]) else CutShort(c, after, [])
  {
    OneEntry(chip, globals, c, v);
    hide HashOf, SetVarList, TakenOver, CutShort;
  }

  /** One of a DSP internal variable, if and only if the resolver has a variable for the name, of that size and type. */
  lemma InternalTakenIff(chip: Chip, globals: VarHash, c: ClientImage, v: DspVar)
    requires v.segment == DspInternal
    ensures var after, known := SetVarList(chip, globals, c, [Some(v)]), GetDspVar(HashOf(chip, c), v.name);
            if known.Some? && known.value.size == v.size && known.value.dataType == v.dataType
            then TakenOver(c, after, [v]) else CutShort(c, after, [])
  {
    OneEntry(chip, globals, c, v);
    hide HashOf, SetVarList, GetDspVar, TakenOver, CutShort;
  }

  /** One of a local or aligned variable always, and one that does not parse never. */
  lemma OthersTakenIff(chip: Chip, globals: VarHash, c: ClientImage, entry: Option<DspVar>)
    requires entry == None || entry.value.segment == ModuleLocal || entry.value.segment == ModuleAligned
    ensures var after := SetVarList(chip, globals, c, [entry]);
            if entry.Some? then TakenOver(c, after, [entry.value]) else CutShort(c, after, [])
  {
    hide HashOf, SetVarList, TakenOver, CutShort;
    if entry.Some? {
      OneEntry(chip, globals, c, entry.value);
    } else {
      UnparsedEntry(chip, globals, c);
    }
  }

  lemma UnparsedEntry(chip: Chip, globals: VarHash, c: ClientImage)
    ensures CutShort(c, SetVarList(chip, globals, c, [None]), [])
  {
    hide HashOf, Known;
    var entries: seq<Option<DspVar>> := [None];
    CountIs(globals, HashOf(chip, c), entries, 0);
    assert entries[..0] == [];
  }

  lemma CountAppended(globals: VarHash, hash: VarHash, entries: seq<Option<DspVar>>, entry: Option<DspVar>)
    ensures var n := AcceptedCount(globals, hash, entries);
            AcceptedCount(globals, hash, entries + [entry]) ==
              if n == |entries| && EntryAccepted(globals, hash, entry) then n + 1 else n
  {
    hide EntryAccepted;
    var n, all := AcceptedCount(globals, hash, entries), entries + [entry];
    assert forall i :: 0 <= i < |entries| ==> all[i] == entries[i];
    CountIs(globals, hash, all, if n == |entries| && EntryAccepted(globals, hash, entry) then n + 1 else n);
  }

  /** Lists are judged entry by entry, each as it would be alone; after the first entry that is not taken over, no other
      is. */
  lemma ListTakenEntryByEntry(chip: Chip, globals: VarHash, c: ClientImage, entries: seq<Option<DspVar>>, entry: Option<DspVar>)
    ensures var before, alone := SetVarList(chip, globals, c, entries), SetVarList(chip, globals, c, [entry]);
            SetVarList(chip, globals, c, entries + [entry]) ==
              if before.detached.None? && alone.detached.None? then c.(vars := before.vars + alone.vars, detached := None)
              else c.(vars := before.vars, detached := Some(Known(c)))
  {
    hide HashOf, EntryAccepted, AcceptedCount, Known, SetVarList, Taken;
    var hash, all := HashOf(chip, c), entries + [entry];
    var n := AcceptedCount(globals, hash, entries);
    CountAppended(globals, hash, entries, entry);
    CountOfOne(globals, hash, entry);
    ListIs(chip, globals, c, entries);
    ListIs(chip, globals, c, [entry]);
    ListIs(chip, globals, c, all);
    if n == |entries| && EntryAccepted(globals, hash, entry) {
      WholePrefix(entries);
      WholePrefix([entry]);
      WholePrefix(all);
      TakenAppended(entries, entry);
    } else {
      PrefixOfMore(entries, entry, n);
    }
  }

  lemma WholePrefix(entries: seq<Option<DspVar>>)
    ensures entries[..|entries|] == entries
  {
  }

  lemma PrefixOfMore(entries: seq<Option<DspVar>>, entry: Option<DspVar>, n: nat)
    requires n <= |entries|
    ensures (entries + [entry])[..n] == entries[..n]
  {
  }

  lemma CountOfOne(globals: VarHash, hash: VarHash, entry: Option<DspVar>)
    ensures AcceptedCount(globals, hash, [entry]) == if EntryAccepted(globals, hash, entry) then 1 else 0
  {
    hide EntryAccepted;
    CountIs(globals, hash, [entry], if EntryAccepted(globals, hash, entry) then 1 else 0);
  }

  lemma ListIs(chip: Chip, globals: VarHash, c: ClientImage, entries: seq<Option<DspVar>>)
    ensures var n := AcceptedCount(globals, HashOf(chip, c), entries);
            && (forall e <- entries[..n] :: e.Some?)
            && SetVarList(chip, globals, c, entries) ==
               c.(vars := Taken(entries[..n]), detached := if n == |entries| then None else Some(Known(c)))
  {
    hide HashOf, Known, AcceptedCount;
    var n := AcceptedCount(globals, HashOf(chip, c), entries);
    forall e | e in entries[..n] ensures e.Some? {
      var i :| 0 <= i < n && entries[..n][i] == e;
      assert EntryAccepted(globals, HashOf(chip, c), entries[i]);
    }
  }

  lemma TakenAppended(entries: seq<Option<DspVar>>, entry: Option<DspVar>)
    requires entry.Some? && forall e <- entries :: e.Some?
    ensures Taken(entries + [entry]) == Taken(entries) + [entry.value]
    ensures Taken([entry]) == [entry.value]
  {
    assert (entries + [entry])[..|entries|] == entries;
  }

  lemma NoEntries(chip: Chip, globals: VarHash, c: ClientImage)
    ensures TakenOver(c, SetVarList(chip, globals, c, []), [])
  {
    hide HashOf;
  }

  /** What is shared can be shared: after a linking of clients that agree about their globals, any list of globals of
      theirs, with their sizes, is taken over by any client. */
  lemma {:induction false} LinkedGlobalsAreTaken(chip: Chip, cs: seq<ClientImage>, c: ClientImage, vars: seq<DspVar>,
                                                 entries: seq<Option<DspVar>>)
    requires LinkAll(chip, cs).ok && GlobalsAgree(Flatten(Lists(cs)))
    requires forall v <- vars :: v.segment == ModuleGlobal
                                 && exists u :: u in Flatten(Lists(cs)) && SameGlobal(u, v) && u.size == v.size
    requires |entries| == |vars| && forall i :: 0 <= i < |vars| ==> entries[i] == Some(vars[i])
    ensures TakenOver(c, SetVarList(chip, LinkAll(chip, cs).alloc.table, c, entries), vars)
  {
    hide LinkAll, Flatten, Lists, HashOf, SetVarList, GlobalsAgree;
    var globals := LinkAll(chip, cs).alloc.table;
    if vars == [] {
      NoEntries(chip, globals, c);
      assert entries == [];
    } else {
      var k := |vars| - 1;
      assert forall v <- vars[..k] :: v in vars;
      LinkedGlobalsAreTaken(chip, cs, c, vars[..k], entries[..k]);
      assert vars[k] in vars;
      var u :| u in Flatten(Lists(cs)) && SameGlobal(u, vars[k]) && u.size == vars[k].size;
      LinkedTableIsComplete(chip, cs, u);
      GlobalTakenIff(chip, globals, c, vars[k]);
      ListTakenEntryByEntry(chip, globals, c, entries[..k], entries[k]);
      assert entries[..k] + [entries[k]] == entries && vars[..k] + [vars[k]] == vars;
    }
  }

  /** And a client that has declared nothing may declare any variable of the system as it is, by a name that is its own
      first summand. */
  lemma SystemVariableIsTaken(chip: Chip, globals: VarHash, c: ClientImage, name: string)
    requires Known(c) == [] && name in SystemHash(chip) && FirstSummand(RemoveBlanks(ToUpper(name))) == Some(name)
    ensures var v := SystemHash(chip)[name]; TakenOver(c, SetVarList(chip, globals, c, [Some(v)]), [v])
  {
    hide SystemHash, FirstSummand, RemoveBlanks, ToUpper, SetVarList;
    SystemVariables(chip);
    var v := SystemHash(chip)[name];
    InternalTakenIff(chip, globals, c, v);
  }
}
