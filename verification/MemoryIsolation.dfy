/** When do the variables of all clients stay apart inside the workspace? */
module MemoryIsolation {
  import opened MachineWords
  import opened DspApi
  import opened DspVarResolver
  import opened VarAllocator

  ghost predicate Owns(v: DspVar, c: int) {
    v.segment != DspInternal && v.address <= c < v.address + v.size
  }

  predicate SameGlobal(p: DspVar, q: DspVar) {
    p.segment == ModuleGlobal && q.segment == ModuleGlobal && p.name == q.name
  }

  /** Locals and globals belong below the aligned start, aligned variables above it. */
  predicate InRegion(l: Layout, segment: Segment, c: int) {
    if segment == ModuleAligned then l.userAligned <= c < l.End() else l.userWorkspace <= c < l.userAligned
  }

  ghost predicate Inside(l: Layout, v: DspVar) {
    forall c :: Owns(v, c) ==> InRegion(l, v.segment, c)
  }

  ghost predicate Apart(p: DspVar, q: DspVar) {
    SameGlobal(p, q) || forall c :: !(Owns(p, c) && Owns(q, c))
  }

  /** Every word of every variable lies in its region, and no word belongs to two variables other than
      declarations of one shared global. */
  ghost predicate Isolated(l: Layout, placed: seq<DspVar>) {
    && (forall i :: 0 <= i < |placed| ==> Inside(l, placed[i]))
    && (forall i, j :: 0 <= i < j < |placed| ==> Apart(placed[i], placed[j]))
  }

  /** What a caller can check before linking: the declared totals fit the two regions and globals are single words. */
  ghost predicate Fits(l: Layout, vars: seq<DspVar>) {
    && SegmentTotal(vars, ModuleLocal) + GlobalTotal(vars) <= l.VarMemAvailable()
    && SegmentTotal(vars, ModuleAligned) <= l.VarMemAlignedAvailable()
    && forall v <- vars :: v.segment == ModuleGlobal ==> v.size <= 1
  }

  /** Clients agree about the size of a global, which setVarList means to check. */
  predicate GlobalsAgree(vars: seq<DspVar>) {
    forall i, j :: 0 <= i < j < |vars| && SameGlobal(vars[i], vars[j]) ==> vars[i].size == vars[j].size
  }

  // ---------- one placement

  ghost predicate Bounded(l: Layout, st: Alloc, p: DspVar) {
    match p.segment
    case ModuleLocal => l.userWorkspace <= p.address && p.address + p.size <= st.local
    case ModuleAligned => l.userAligned <= p.address && p.address + p.size <= st.aligned
    case ModuleGlobal => p.size <= 1 && st.global <= p.address < l.userAligned && (p.size == 1 ==> st.global < p.address)
    case DspInternal => true
  }

  ghost predicate TableSound(st: Alloc) {
    && (forall n <- st.table :: st.table[n] in st.placed && st.table[n].name == n && st.table[n].segment == ModuleGlobal)
    && (forall p <- st.placed :: p.segment == ModuleGlobal ==>
          p.name in st.table && p.address == st.table[p.name].address && p.size == st.table[p.name].size)
  }

  /** The words next to the pointers are in use, so no gap hides an overrun. */
  ghost predicate Packed(l: Layout, st: Alloc) {
    && (st.local > l.userWorkspace ==> exists p :: p in st.placed && p.segment == ModuleLocal && Owns(p, st.local - 1))
    && (st.global + 1 < l.userAligned ==>
          exists p :: p in st.placed && p.segment == ModuleGlobal && Owns(p, st.global + 1))
  }

  predicate Ordered(l: Layout, st: Alloc) {
    l.userWorkspace <= st.local <= st.global + 1 <= l.userAligned <= st.aligned <= l.End()
  }

  /** The state of a run in which everything placed so far is isolated. */
  ghost predicate Good(l: Layout, st: Alloc) {
    && Ordered(l, st)
    && (forall i :: 0 <= i < |st.placed| ==> Bounded(l, st, st.placed[i]))
    && TableSound(st)
    && Isolated(l, st.placed)
    && Packed(l, st)
  }

  predicate StepFits(l: Layout, st: Alloc, v: DspVar) {
    match v.segment
    case ModuleLocal => st.local + v.size <= st.global + 1
    case ModuleAligned => st.aligned + v.size <= l.End()
    case ModuleGlobal => v.size <= 1 && (v.name !in st.table ==> st.local + v.size <= st.global + 1)
    case DspInternal => true
  }

  predicate StepAgrees(st: Alloc, v: DspVar) {
    v.segment == ModuleGlobal && v.name in st.table ==> v.size == st.table[v.name].size
  }

  lemma IsolatedExtends(l: Layout, placed: seq<DspVar>, p: DspVar)
    ensures Isolated(l, placed + [p]) <==>
            Isolated(l, placed) && Inside(l, p) && forall i :: 0 <= i < |placed| ==> Apart(placed[i], p)
  {
    var all := placed + [p];
    if Isolated(l, all) {
      assert forall i :: 0 <= i < |placed| ==> all[i] == placed[i];
      assert all[|placed|] == p;
      assert forall i, j :: 0 <= i < j < |placed| ==> Apart(all[i], all[j]);
    }
  }

  predicate Fresh(st: Alloc, v: DspVar) {
    v.segment != DspInternal && (v.segment == ModuleGlobal ==> v.name !in st.table)
  }

  function FreshAddress(st: Alloc, v: DspVar): int {
    match v.segment
    case ModuleLocal => st.local
    case ModuleAligned => st.aligned
    case _ => st.global
  }

  /** Where a fresh variable that fits is placed: nothing wraps. */
  lemma FreshPlaced(l: Layout, st: Alloc, clientStart: u32, v: DspVar)
    requires l.Sound() && Ordered(l, st) && Fresh(st, v) && StepFits(l, st, v)
    ensures var st' := PlaceVar(st, clientStart, v);
            && |st'.placed| == |st.placed| + 1
            && var p := st'.placed[|st.placed|];
               && st'.placed == st.placed + [p] && st.placed <= st'.placed && p in st'.placed
               && p.segment == v.segment && p.size == v.size && p.name == v.name && p.address == FreshAddress(st, v)
               && st'.local == st.local + (if v.segment == ModuleLocal then v.size else 0)
               && st'.aligned == st.aligned + (if v.segment == ModuleAligned then v.size else 0)
               && st'.global == st.global - (if v.segment == ModuleGlobal then v.size else 0)
               && st'.table == if v.segment == ModuleGlobal then st.table[v.name := p] else st.table
  {
  }

  lemma FreshTable(st: Alloc, clientStart: u32, v: DspVar)
    requires TableSound(st) && Fresh(st, v)
    ensures TableSound(PlaceVar(st, clientStart, v))
  {
    var st' := PlaceVar(st, clientStart, v);
    assert st'.placed[|st.placed|] in st'.placed;
    assert forall q <- st.placed :: q in st'.placed;
  }

  lemma FreshPacked(l: Layout, st: Alloc, clientStart: u32, v: DspVar)
    requires l.Sound() && Ordered(l, st) && Packed(l, st) && Fresh(st, v) && StepFits(l, st, v)
    ensures Packed(l, PlaceVar(st, clientStart, v))
  {
    FreshPlaced(l, st, clientStart, v);
    hide PlaceVar;
    var st' := PlaceVar(st, clientStart, v);
    var p := st'.placed[|st.placed|];
    assert forall q <- st.placed :: q in st'.placed;
    if v.size > 0 {
      assert Owns(p, p.address) && Owns(p, p.address + p.size - 1);
    }
  }

  lemma FreshApart(l: Layout, st: Alloc, clientStart: u32, v: DspVar, q: DspVar)
    requires l.Sound() && Ordered(l, st) && Fresh(st, v) && StepFits(l, st, v)
    requires Bounded(l, st, q) && (q.segment == ModuleGlobal ==> q.name in st.table)
    ensures var st' := PlaceVar(st, clientStart, v);
            |st'.placed| > |st.placed| && Apart(q, st'.placed[|st.placed|]) && Bounded(l, st', q)
  {
    FreshPlaced(l, st, clientStart, v);
    hide PlaceVar;
  }

  lemma FreshGood(l: Layout, st: Alloc, clientStart: u32, v: DspVar)
    requires l.Sound() && Good(l, st) && Fresh(st, v) && StepFits(l, st, v)
    ensures Good(l, PlaceVar(st, clientStart, v))
  {
    hide Packed, Isolated, Apart, Inside, Bounded, StepFits;
    var st' := PlaceVar(st, clientStart, v);
    var p := st'.placed[|st.placed|];
    FreshTable(st, clientStart, v);
    FreshPacked(l, st, clientStart, v);
    IsolatedExtends(l, st.placed, p);
    forall i | 0 <= i < |st.placed| ensures Apart(st.placed[i], p) && Bounded(l, st', st.placed[i]) {
      assert st.placed[i] in st.placed;
      FreshApart(l, st, clientStart, v, st.placed[i]);
    }
    FreshAlone(l, st, clientStart, v);
  }

  lemma FreshAlone(l: Layout, st: Alloc, clientStart: u32, v: DspVar)
    requires l.Sound() && Ordered(l, st) && Fresh(st, v) && StepFits(l, st, v)
    ensures var st' := PlaceVar(st, clientStart, v);
            |st'.placed| > |st.placed| && Ordered(l, st') && Inside(l, st'.placed[|st.placed|])
            && Bounded(l, st', st'.placed[|st.placed|])
  {
    FreshPlaced(l, st, clientStart, v);
    hide PlaceVar;
  }

  lemma FreshCannotOverrun(l: Layout, st: Alloc, v: DspVar, p: DspVar)
    requires l.Sound() && Good(l, st) && Fresh(st, v) && v.size > 0
    requires p.size == v.size && p.segment == v.segment && p.name == v.name && p.address == FreshAddress(st, v)
    requires Inside(l, p) && forall i :: 0 <= i < |st.placed| ==> Apart(st.placed[i], p)
    ensures StepFits(l, st, v)
  {
    assert Owns(p, p.address) && Owns(p, p.address + p.size - 1);
    if v.segment != ModuleAligned {
      if st.global + 1 < l.userAligned {
        var q :| q in st.placed && q.segment == ModuleGlobal && Owns(q, st.global + 1);
        assert !SameGlobal(q, p);
        assert !Owns(p, st.global + 1);
      } else {
        assert !Owns(p, l.userAligned);
      }
      if st.local > l.userWorkspace {
        var q :| q in st.placed && q.segment == ModuleLocal && Owns(q, st.local - 1);
        assert !Owns(p, st.local - 1);
      }
    }
  }

  /** A fresh variable keeps the run isolated exactly when it fits. */
  lemma FreshStep(l: Layout, st: Alloc, clientStart: u32, v: DspVar)
    requires l.Sound() && Good(l, st) && Fresh(st, v)
    ensures StepFits(l, st, v) ==> Good(l, PlaceVar(st, clientStart, v))
    ensures Isolated(l, PlaceVar(st, clientStart, v).placed) ==> StepFits(l, st, v)
  {
    if StepFits(l, st, v) {
      FreshGood(l, st, clientStart, v);
    } else {
      var p := PlaceVar(st, clientStart, v).placed[|st.placed|];
      IsolatedExtends(l, st.placed, p);
      if Isolated(l, st.placed + [p]) {
        FreshCannotOverrun(l, st, v, p);
      }
    }
  }

  lemma PairApart(l: Layout, placed: seq<DspVar>, i: nat, k: nat)
    requires Isolated(l, placed) && i < |placed| && k < |placed|
    ensures i != k ==> Apart(placed[i], placed[k])
  {
    if k < i {
      assert Apart(placed[k], placed[i]);
    }
  }

  lemma SameWords(l: Layout, q: DspVar, first: DspVar, p: DspVar)
    requires first.address == p.address && first.size == p.size && SameGlobal(first, p)
    requires q == first || Apart(q, first)
    ensures Apart(q, p)
  {
    assert forall c :: Owns(p, c) <==> Owns(first, c);
  }

  lemma StillPacked(l: Layout, st: Alloc, st': Alloc)
    requires Packed(l, st) && st'.local == st.local && st'.global == st.global && st.placed <= st'.placed
    ensures Packed(l, st')
  {
    assert forall q <- st.placed :: q in st'.placed;
  }

  lemma RepeatedTable(st: Alloc, clientStart: u32, v: DspVar)
    requires TableSound(st) && StepAgrees(st, v) && v.segment == ModuleGlobal && v.name in st.table
    ensures TableSound(PlaceVar(st, clientStart, v))
  {
    var st' := PlaceVar(st, clientStart, v);
    assert forall q <- st.placed :: q in st'.placed;
  }

  predicate Repeated(st: Alloc, v: DspVar) {
    v.segment == ModuleGlobal && v.name in st.table && v.size == st.table[v.name].size
  }

  lemma RepeatedIsolated(l: Layout, st: Alloc, clientStart: u32, v: DspVar)
    requires Isolated(l, st.placed) && TableSound(st) && Repeated(st, v)
    ensures Isolated(l, PlaceVar(st, clientStart, v).placed)
  {
    var p := PlaceVar(st, clientStart, v).placed[|st.placed|];
    var first := st.table[v.name];
    var k :| 0 <= k < |st.placed| && st.placed[k] == first;
    IsolatedExtends(l, st.placed, p);
    assert Inside(l, first) && forall c :: Owns(p, c) <==> Owns(first, c);
    hide Isolated, Inside, Owns;
    forall i | 0 <= i < |st.placed| ensures Apart(st.placed[i], p) {
      PairApart(l, st.placed, i, k);
      SameWords(l, st.placed[i], first, p);
    }
  }

  lemma RepeatedBounded(l: Layout, st: Alloc, clientStart: u32, v: DspVar)
    requires Good(l, st) && Repeated(st, v)
    ensures var st' := PlaceVar(st, clientStart, v);
            forall i :: 0 <= i < |st'.placed| ==> Bounded(l, st', st'.placed[i])
  {
    hide Isolated, Packed;
    var st' := PlaceVar(st, clientStart, v);
    var k :| 0 <= k < |st.placed| && st.placed[k] == st.table[v.name];
    forall i | 0 <= i < |st'.placed| ensures Bounded(l, st', st'.placed[i]) {
      assert Bounded(l, st, st.placed[if i < |st.placed| then i else k]);
    }
  }

  /** A repeated declaration of a global lands on the first one. */
  lemma RepeatedStep(l: Layout, st: Alloc, clientStart: u32, v: DspVar)
    requires l.Sound() && Good(l, st) && StepAgrees(st, v)
    requires v.segment == ModuleGlobal && v.name in st.table
    ensures StepFits(l, st, v) && Good(l, PlaceVar(st, clientStart, v))
  {
    hide Isolated, Packed, TableSound;
    var st' := PlaceVar(st, clientStart, v);
    RepeatedIsolated(l, st, clientStart, v);
    RepeatedBounded(l, st, clientStart, v);
    RepeatedTable(st, clientStart, v);
    StillPacked(l, st, st');
    assert Bounded(l, st', st'.placed[|st.placed|]);
  }

  // ---------- whole runs

  lemma {:induction false} FirstDeclaration(vars: seq<DspVar>, n: string)
    requires n in GlobalSizes(vars)
    ensures exists i :: 0 <= i < |vars| && vars[i].segment == ModuleGlobal && vars[i].name == n
                        && vars[i].size == GlobalSizes(vars)[n]
  {
    var front := vars[..|vars| - 1];
    if n in GlobalSizes(front) {
      FirstDeclaration(front, n);
    }
  }

  lemma AgreeingStep(l: Layout, seen: seq<DspVar>, st: Alloc, v: DspVar)
    requires Accounts(l, seen, st) && GlobalsAgree(seen + [v])
    ensures StepAgrees(st, v)
  {
    hide SegmentTotal, GlobalTotal, GlobalSizes, Wrap32;
    if v.segment == ModuleGlobal && v.name in st.table {
      FirstDeclaration(seen, v.name);
      var i :| 0 <= i < |seen| && seen[i].segment == ModuleGlobal && seen[i].name == v.name
               && seen[i].size == GlobalSizes(seen)[v.name];
      assert SameGlobal((seen + [v])[i], (seen + [v])[|seen|]);
    }
  }

  lemma FitsStep(l: Layout, seen: seq<DspVar>, st: Alloc, v: DspVar)
    requires l.Sound() && Accounts(l, seen, st)
    ensures Fits(l, seen + [v]) ==> Fits(l, seen)
    ensures Fits(l, seen) ==> (StepFits(l, st, v) <==> Fits(l, seen + [v]))
  {
    hide SegmentTotal, GlobalTotal, GlobalSizes, SingleWords;
    TotalsStep(seen, v, ModuleLocal);
    TotalsStep(seen, v, ModuleAligned);
    SingleWordsStep(seen, v);
    FitsIs(l, seen);
    FitsIs(l, seen + [v]);
    if Fits(l, seen) {
      FittingPointers(l, seen, st);
    }
    hide Fits, Accounts;
  }

  predicate SingleWords(vars: seq<DspVar>) {
    forall v <- vars :: v.segment == ModuleGlobal ==> v.size <= 1
  }

  lemma SingleWordsStep(seen: seq<DspVar>, v: DspVar)
    ensures SingleWords(seen + [v]) <==> SingleWords(seen) && (v.segment == ModuleGlobal ==> v.size <= 1)
  {
    assert v in seen + [v] && forall u <- seen :: u in seen + [v];
  }

  lemma FitsIs(l: Layout, vars: seq<DspVar>)
    ensures Fits(l, vars) <==>
            && SegmentTotal(vars, ModuleLocal) + GlobalTotal(vars) <= l.VarMemAvailable()
            && SegmentTotal(vars, ModuleAligned) <= l.VarMemAlignedAvailable() && SingleWords(vars)
  {
    hide SegmentTotal, GlobalTotal;
  }

  /** The pointers of clients that fit have not wrapped. */
  lemma FittingPointers(l: Layout, seen: seq<DspVar>, st: Alloc)
    requires l.Sound() && Accounts(l, seen, st) && Fits(l, seen)
    ensures st.local == l.userWorkspace + SegmentTotal(seen, ModuleLocal)
    ensures st.aligned == l.userAligned + SegmentTotal(seen, ModuleAligned)
    ensures st.global == l.userAligned - 1 - GlobalTotal(seen)
    ensures forall n :: n in st.table <==> n in GlobalSizes(seen)
  {
    hide SegmentTotal, GlobalTotal, GlobalSizes;
    assert forall n :: n in st.table <==> n in st.table.Keys;
  }

  ghost predicate Exact(l: Layout, seen: seq<DspVar>, st: Alloc) {
    && Accounts(l, seen, st)
    && (Fits(l, seen) ==> Good(l, st))
    && (Isolated(l, st.placed) <==> Fits(l, seen))
  }

  lemma ExactStep(l: Layout, seen: seq<DspVar>, st: Alloc, clientStart: u32, v: DspVar)
    requires l.Sound() && Exact(l, seen, st) && GlobalsAgree(seen + [v])
    ensures Exact(l, seen + [v], PlaceVar(st, clientStart, v))
  {
    hide Fits, StepFits, Good, Isolated, StepAgrees;
    var st' := PlaceVar(st, clientStart, v);
    AccountsStep(l, seen, st, clientStart, v);
    FitsStep(l, seen, st, v);
    AgreeingStep(l, seen, st, v);
    if Fits(l, seen) {
      if Fresh(st, v) {
        FreshStep(l, st, clientStart, v);
      } else if v.segment == ModuleGlobal {
        RepeatedStep(l, st, clientStart, v);
      } else {
        InternalStep(l, st, clientStart, v);
      }
      GoodIsIsolated(l, st');
    } else {
      IsolatedExtends(l, st.placed, st'.placed[|st.placed|]);
    }
  }

  lemma InternalStep(l: Layout, st: Alloc, clientStart: u32, v: DspVar)
    requires Good(l, st) && v.segment == DspInternal
    ensures StepFits(l, st, v) && Good(l, PlaceVar(st, clientStart, v))
  {
    IsolatedExtends(l, st.placed, v);
    assert forall q <- st.placed :: q in PlaceVar(st, clientStart, v).placed;
    forall i | 0 <= i < |st.placed| ensures Bounded(l, PlaceVar(st, clientStart, v), st.placed[i]) {
      assert Bounded(l, st, st.placed[i]);
    }
    hide Isolated;
  }

  lemma GoodIsIsolated(l: Layout, st: Alloc)
    ensures Good(l, st) ==> Isolated(l, st.placed)
  {
  }

  lemma {:induction false} ExactVars(l: Layout, seen: seq<DspVar>, st: Alloc, clientStart: u32, vars: seq<DspVar>)
    requires l.Sound() && Exact(l, seen, st) && GlobalsAgree(seen + vars)
    ensures Exact(l, seen + vars, PlaceVars(st, clientStart, vars))
  {
    hide Exact;
    if vars == [] {
      assert seen + vars == seen;
    } else {
      var front, v := vars[..|vars| - 1], vars[|vars| - 1];
      assert seen + vars == seen + front + [v];
      AgreesPrefix(seen + front, [v]);
      ExactVars(l, seen, st, clientStart, front);
      ExactStep(l, seen + front, PlaceVars(st, clientStart, front), clientStart, v);
    }
  }

  lemma AgreesPrefix(a: seq<DspVar>, b: seq<DspVar>)
    requires GlobalsAgree(a + b)
    ensures GlobalsAgree(a)
  {
    assert forall i :: 0 <= i < |a| ==> (a + b)[i] == a[i];
  }

  lemma {:induction false} ExactLists(l: Layout, lists: seq<seq<DspVar>>)
    requires l.Sound() && GlobalsAgree(Flatten(lists))
    ensures Exact(l, Flatten(lists), PlaceLists(Start(l), lists))
  {
    if lists == [] {
    } else {
      var front, last := lists[..|lists| - 1], lists[|lists| - 1];
      AgreesPrefix(Flatten(front), last);
      ExactLists(l, front);
      var before := PlaceLists(Start(l), front);
      ExactVars(l, Flatten(front), before, before.local, last);
    }
  }

  /** Memory isolation, exactly: on either chip, for any clients that agree about the sizes of shared globals, all
      variables lie in their regions and share no word but those of a common global if and only if the local and
      global totals fit below the aligned start, the aligned total fits above it, and no global has more than one
      word. */
  lemma IsolationExact(chip: Chip, lists: seq<seq<DspVar>>)
    requires GlobalsAgree(Flatten(lists))
    ensures var l := LayoutOf(chip);
            Isolated(l, PlaceLists(Start(l), lists).placed) <==> Fits(l, Flatten(lists))
  {
    ExactLists(LayoutOf(chip), lists);
  }

  /** A global of two words is never isolated, however much room there is: its second word is the first aligned
      word, and a second global of two words lies over the first one. */
  lemma TwoWordGlobalIsNotIsolated(chip: Chip, v: DspVar)
    requires v.segment == ModuleGlobal && v.size == 2
    ensures var l := LayoutOf(chip);
            var p := PlaceLists(Start(l), [[v]]).placed[0];
            && GlobalTotal([v]) == 2 <= l.VarMemAvailable()
            && Owns(p, l.userAligned)
            && !Isolated(l, [p])
  {
    var l := LayoutOf(chip);
    TotalsStep([], v, ModuleGlobal);
    assert [] + [v] == [v];
    var st := PlaceVar(Start(l), l.userWorkspace, v);
    assert [[v]][..0] == [] && [v][..0] == [];
    assert PlaceVars(Start(l), l.userWorkspace, [v]) == st;
    assert PlaceLists(Start(l), [[v]]) == st;
    assert Owns(st.placed[0], l.userAligned);
    assert [st.placed[0]][0] == st.placed[0];
  }

  ghost predicate GlobalsPlacedOnce(st: Alloc) {
    forall p <- st.placed :: p.segment == ModuleGlobal ==> p.name in st.table && p.address == st.table[p.name].address
  }

  lemma {:induction false} OnceVars(st: Alloc, clientStart: u32, vars: seq<DspVar>)
    requires GlobalsPlacedOnce(st)
    ensures GlobalsPlacedOnce(PlaceVars(st, clientStart, vars))
  {
    if vars == [] {
    } else {
      OnceVars(st, clientStart, vars[..|vars| - 1]);
    }
  }

  /** Sharing by name: all declarations of a global get one address, in every run, fitting or not. */
  lemma {:induction false} SharedGlobalsCoincide(l: Layout, lists: seq<seq<DspVar>>)
    ensures GlobalsPlacedOnce(PlaceLists(Start(l), lists))
    ensures var placed := PlaceLists(Start(l), lists).placed;
            forall p, q :: p in placed && q in placed && SameGlobal(p, q) ==> p.address == q.address
  {
    if lists == [] {
    } else {
      SharedGlobalsCoincide(l, lists[..|lists| - 1]);
      var before := PlaceLists(Start(l), lists[..|lists| - 1]);
      OnceVars(before, before.local, lists[|lists| - 1]);
    }
  }
}
