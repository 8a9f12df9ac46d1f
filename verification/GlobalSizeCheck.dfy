/** What the size check of a variable list is worth: when the clients agree about the sizes of shared globals. */
module GlobalSizeCheck {
  import opened MachineWords
  import opened Wrappers
  import opened DspApi
  import opened DspVarResolver
  import opened VarAllocator
  import opened MemoryIsolation
  import opened ZdspClientImage
  import opened ProgramLinker
  import opened LinkedMeaning
  import opened SystemNames

  /** Globals the table knows have the table's size. */
  predicate FitTable(globals: VarHash, vars: seq<DspVar>) {
    forall v <- vars :: v.segment == ModuleGlobal && v.name in globals ==> v.size == globals[v.name].size
  }

  /** Globals of two lists that the table does not know have one size. */
  predicate AgreeBeyondTable(globals: VarHash, seen: seq<DspVar>, vars: seq<DspVar>) {
    forall p <- seen, q <- vars :: SameGlobal(p, q) && p.name !in globals ==> p.size == q.size
  }

  lemma AcceptedFitsTable(chip: Chip, globals: VarHash, c: ClientImage, entries: seq<Option<DspVar>>)
    requires AcceptedCount(globals, HashOf(chip, c), entries) == |entries|
    ensures FitTable(globals, SetVarList(chip, globals, c, entries).vars)
  {
    hide HashOf, SetVarList, EntryAccepted, AcceptedCount;
    AcceptedHash(chip, globals, c, entries);
    var vars := SetVarList(chip, globals, c, entries).vars;
    assert forall i :: 0 <= i < |entries| ==> EntryAccepted(globals, HashOf(chip, c), entries[i]);
    forall v | v in vars ensures v.segment == ModuleGlobal && v.name in globals ==> v.size == globals[v.name].size {
      var i :| 0 <= i < |vars| && vars[i] == v;
      assert entries[i] in entries && entries[i] == Some(v);
      AcceptedSize(globals, HashOf(chip, c), v);
    }
  }

  lemma AcceptedSize(globals: VarHash, hash: VarHash, v: DspVar)
    requires EntryAccepted(globals, hash, Some(v))
    ensures v.segment == ModuleGlobal && v.name in globals ==> v.size == globals[v.name].size
  {
    hide GetDspVar;
  }

  lemma AgreeingParts(globals: VarHash, seen: seq<DspVar>, vars: seq<DspVar>)
    requires FitTable(globals, seen) && FitTable(globals, vars)
    ensures GlobalsAgree(seen + vars) <==> GlobalsAgree(seen) && GlobalsAgree(vars) && AgreeBeyondTable(globals, seen, vars)
  {
    var all := seen + vars;
    if GlobalsAgree(all) {
      forall i, j | 0 <= i < j < |seen| && SameGlobal(seen[i], seen[j]) ensures seen[i].size == seen[j].size {
        assert all[i] == seen[i] && all[j] == seen[j];
      }
      forall i, j | 0 <= i < j < |vars| && SameGlobal(vars[i], vars[j]) ensures vars[i].size == vars[j].size {
        assert all[|seen| + i] == vars[i] && all[|seen| + j] == vars[j];
      }
      forall p, q | p in seen && q in vars && SameGlobal(p, q) ensures p.size == q.size {
        var i :| 0 <= i < |seen| && seen[i] == p;
        var j :| 0 <= j < |vars| && vars[j] == q;
        assert all[i] == p && all[|seen| + j] == q;
      }
    } else {
      var i, j :| 0 <= i < j < |all| && SameGlobal(all[i], all[j]) && all[i].size != all[j].size;
      if j < |seen| {
        assert SameGlobal(seen[i], seen[j]);
      } else if i >= |seen| {
        assert SameGlobal(vars[i - |seen|], vars[j - |seen|]);
      } else {
        assert all[i] in seen && all[j] in vars;
      }
    }
  }

  /** What an accepted list is good for. Next to any variables whose known globals have the table's size, all globals
      agree if and only if they agreed before, the list agrees with itself, and the sizes match on shared names that the
      table does not know. */
  lemma AcceptedListAgreesIff(chip: Chip, globals: VarHash, c: ClientImage, entries: seq<Option<DspVar>>, seen: seq<DspVar>)
    requires AcceptedCount(globals, HashOf(chip, c), entries) == |entries| && FitTable(globals, seen)
    ensures var vars := SetVarList(chip, globals, c, entries).vars;
            GlobalsAgree(seen + vars) <==> GlobalsAgree(seen) && GlobalsAgree(vars) && AgreeBeyondTable(globals, seen, vars)
  {
    AcceptedFitsTable(chip, globals, c, entries);
    AgreeingParts(globals, seen, SetVarList(chip, globals, c, entries).vars);
  }

  /** After a linking of agreeing clients the table knows every global of every client with its size. */
  lemma LinkedTableIsComplete(chip: Chip, cs: seq<ClientImage>, v: DspVar)
    requires LinkAll(chip, cs).ok && GlobalsAgree(Flatten(Lists(cs)))
    requires v in Flatten(Lists(cs)) && v.segment == ModuleGlobal
    ensures v.name in LinkAll(chip, cs).alloc.table && LinkAll(chip, cs).alloc.table[v.name].size == v.size
  {
    hide LinkAll, Before, Flatten, Lists, GlobalsAgree;
    LinkedEnds(chip, cs);
    LinkerAllocates(chip, cs, |cs|);
    assert cs[..|cs|] == cs;
    AccountingIsExact(LayoutOf(chip), Lists(cs));
    SizeOfAgreeing(Flatten(Lists(cs)), v);
    hide SegmentTotal, GlobalTotal, GlobalSizes;
  }

  lemma {:induction false} SizeOfAgreeing(vars: seq<DspVar>, v: DspVar)
    requires GlobalsAgree(vars) && v in vars && v.segment == ModuleGlobal
    ensures v.name in GlobalSizes(vars) && GlobalSizes(vars)[v.name] == v.size
  {
    var k := |vars| - 1;
    var front := vars[..k];
    assert forall i :: 0 <= i < k ==> front[i] == vars[i];
    if v in front {
      SizeOfAgreeing(front, v);
    } else if v.name in GlobalSizes(front) {
      assert vars[k] == v;
      FirstOfName(front, v.name);
      var i :| 0 <= i < |front| && front[i].segment == ModuleGlobal && front[i].name == v.name
               && front[i].size == GlobalSizes(front)[v.name];
      assert SameGlobal(vars[i], vars[k]);
    }
  }

  lemma {:induction false} FirstOfName(vars: seq<DspVar>, name: string)
    requires name in GlobalSizes(vars)
    ensures exists i :: 0 <= i < |vars| && vars[i].segment == ModuleGlobal && vars[i].name == name
                        && vars[i].size == GlobalSizes(vars)[name]
  {
    var k := |vars| - 1;
    var front := vars[..k];
    if name in GlobalSizes(front) {
      FirstOfName(front, name);
      var i :| 0 <= i < |front| && front[i].segment == ModuleGlobal && front[i].name == name
               && front[i].size == GlobalSizes(front)[name];
      assert vars[i] == front[i];
    } else {
      assert vars[k].name == name;
    }
  }

  /** When everything is linked, a changed list keeps the clients in agreement if and only if it agrees with itself: the
      check then catches every disagreement between clients. */
  lemma ChangeAfterLinkingAgreesIff(chip: Chip, cs: seq<ClientImage>, c: ClientImage, entries: seq<Option<DspVar>>,
                                    others: seq<DspVar>)
    requires LinkAll(chip, cs).ok && GlobalsAgree(Flatten(Lists(cs)))
    requires forall v <- others :: v in Flatten(Lists(cs))
    requires AcceptedCount(LinkAll(chip, cs).alloc.table, HashOf(chip, c), entries) == |entries|
    ensures var vars := SetVarList(chip, LinkAll(chip, cs).alloc.table, c, entries).vars;
            GlobalsAgree(others + vars) <==> GlobalsAgree(vars)
  {
    hide LinkAll, Flatten, Lists, HashOf, SetVarList, AcceptedCount;
    var globals := LinkAll(chip, cs).alloc.table;
    var vars := SetVarList(chip, globals, c, entries).vars;
    forall v | v in others && v.segment == ModuleGlobal ensures v.name in globals && globals[v.name].size == v.size {
      LinkedTableIsComplete(chip, cs, v);
    }
    AcceptedListAgreesIff(chip, globals, c, entries, others);
    assert forall i :: 0 <= i < |others| ==> others[i] in others;
  }

  /** With nothing linked between, two clients may declare one global with two sizes. */
  lemma SizeCheckMissesUnlinkedGlobals(chip: Chip, a: ClientImage, b: ClientImage, v: DspVar, w: DspVar)
    requires v.segment == w.segment == ModuleGlobal && v.name == w.name && v.size != w.size
    ensures SetVarList(chip, map[], a, [Some(v)]) == a.(vars := [v], detached := None)
    ensures SetVarList(chip, map[], b, [Some(w)]) == b.(vars := [w], detached := None)
    ensures !GlobalsAgree([v] + [w])
  {
    hide HashOf, GetDspVar;
    assert [Some(v)][..0] == [] && [Some(w)][..0] == [];
    assert [Some(v)][..1] == [Some(v)] && [Some(w)][..1] == [Some(w)];
    assert SameGlobal(([v] + [w])[0], ([v] + [w])[1]);
  }

  /** And one list may declare a new global twice with two sizes, whatever is linked. */
  lemma SizeCheckMissesRepeatedGlobal(chip: Chip, globals: VarHash, c: ClientImage, v: DspVar, w: DspVar)
    requires v.segment == w.segment == ModuleGlobal && v.name == w.name && v.name !in globals && v.size != w.size
    ensures SetVarList(chip, globals, c, [Some(v), Some(w)]) == c.(vars := [v, w], detached := None)
    ensures !GlobalsAgree([v, w])
  {
    hide HashOf, GetDspVar;
    var entries := [Some(v), Some(w)];
    CountIs(globals, HashOf(chip, c), entries, 2);
    assert entries[..2] == entries && entries[..1] == [Some(v)];
    assert Taken(entries) == [v, w];
    assert SameGlobal([v, w][0], [v, w][1]);
  }
}
