/** The shared DSP workspace: three pointers give every client's variables their addresses, and nothing checks
    that they stay apart. This module says exactly when they do. */
module VarAllocator {
  import opened MachineWords
  import opened DspApi
  import opened DspVarResolver

  /** The pointers, the table of global variables already placed and their total size, and, as the record of the
      run, every variable in the order of its placement. */
  datatype Alloc = Alloc(local: u32, aligned: u32, global: u32, table: VarHash, globalSize: u32,
                         placed: seq<DspVar>)

  function Start(l: Layout): Alloc {
    Alloc(l.userWorkspace, l.userAligned, Wrap32(l.userAligned - 1), map[], 0, [])
  }

  function PlaceAt(v: DspVar, address: u32, clientStart: u32): DspVar {
    v.(address := address, offset := Wrap32(address - clientStart))
  }

  /** One turn of the loop: a new global takes the address under the pointer before the pointer moves down. */
  function PlaceVar(st: Alloc, clientStart: u32, v: DspVar): Alloc {
    match v.segment
    case ModuleLocal =>
      st.(local := Wrap32(st.local + v.size), placed := st.placed + [PlaceAt(v, st.local, clientStart)])
    case ModuleAligned =>
      st.(aligned := Wrap32(st.aligned + v.size), placed := st.placed + [PlaceAt(v, st.aligned, clientStart)])
    case ModuleGlobal =>
      if v.name in st.table then
        st.(placed := st.placed + [PlaceAt(v, st.table[v.name].address, clientStart)])
      else
        var p := PlaceAt(v, st.global, clientStart);
        st.(global := Wrap32(st.global - v.size), table := st.table[v.name := p],
            globalSize := Wrap32(st.globalSize + v.size), placed := st.placed + [p])
    case DspInternal =>
      st.(placed := st.placed + [v])
  }

  function PlaceVars(st: Alloc, clientStart: u32, vars: seq<DspVar>): (r: Alloc)
    ensures |r.placed| == |st.placed| + |vars| && st.placed <= r.placed
  {
    if vars == [] then st
    else PlaceVar(PlaceVars(st, clientStart, vars[..|vars| - 1]), clientStart, vars[|vars| - 1])
  }

  /** One client after the other; each client's offsets count from where the local pointer stood before it. */
  function PlaceLists(st: Alloc, lists: seq<seq<DspVar>>): (r: Alloc)
    ensures st.placed <= r.placed
  {
    if lists == [] then st
    else
      var before := PlaceLists(st, lists[..|lists| - 1]);
      PlaceVars(before, before.local, lists[|lists| - 1])
  }

  function Flatten(lists: seq<seq<DspVar>>): seq<DspVar> {
    if lists == [] then [] else Flatten(lists[..|lists| - 1]) + lists[|lists| - 1]
  }

  // ---------- accounting

  /** The words a list of variables needs in one segment, every entry counted. */
  function SegmentTotal(vars: seq<DspVar>, segment: Segment): nat {
    if vars == [] then 0
    else
      var v := vars[|vars| - 1];
      SegmentTotal(vars[..|vars| - 1], segment) + if v.segment == segment then v.size else 0
  }

  /** Every global name with the size of its first declaration. */
  function GlobalSizes(vars: seq<DspVar>): map<string, nat> {
    if vars == [] then map[]
    else
      var before := GlobalSizes(vars[..|vars| - 1]);
      var v := vars[|vars| - 1];
      if v.segment == ModuleGlobal && v.name !in before then before[v.name := v.size] else before
  }

  ghost function AnyKey(m: map<string, nat>): (k: string)
    requires m != map[]
    ensures k in m
  {
    var k :| k in m;
    k
  }

  /** The sum of the values of a map. */
  ghost function Sum(m: map<string, nat>): nat
    decreases |m|
  {
    if m == map[] then 0 else m[AnyKey(m)] + Sum(m - {AnyKey(m)})
  }

  ghost function GlobalTotal(vars: seq<DspVar>): nat {
    Sum(GlobalSizes(vars))
  }

  lemma {:induction false} SumInAnyOrder(m: map<string, nat>, k: string)
    requires k in m
    ensures Sum(m) == m[k] + Sum(m - {k})
    decreases |m|
  {
    var first := AnyKey(m);
    if first == k {
    } else {
      SumInAnyOrder(m - {first}, k);
      SumInAnyOrder(m - {k}, first);
      assert m - {first} - {k} == m - {k} - {first};
    }
  }

  lemma SumOfExtended(m: map<string, nat>, name: string, size: nat)
    requires name !in m
    ensures Sum(m[name := size]) == Sum(m) + size
  {
    SumInAnyOrder(m[name := size], name);
    assert m[name := size] - {name} == m;
  }

  ghost predicate Accounts(l: Layout, seen: seq<DspVar>, st: Alloc) {
    && st.local == Wrap32(l.userWorkspace + SegmentTotal(seen, ModuleLocal))
    && st.aligned == Wrap32(l.userAligned + SegmentTotal(seen, ModuleAligned))
    && st.global == Wrap32(l.userAligned - 1 - GlobalTotal(seen))
    && st.globalSize == Wrap32(GlobalTotal(seen))
    && st.table.Keys == GlobalSizes(seen).Keys
    && forall n <- st.table :: st.table[n].size == GlobalSizes(seen)[n]
  }

  lemma TotalsStep(seen: seq<DspVar>, v: DspVar, segment: Segment)
    ensures SegmentTotal(seen + [v], segment) == SegmentTotal(seen, segment) + if v.segment == segment then v.size else 0
    ensures var counts := v.segment == ModuleGlobal && v.name !in GlobalSizes(seen);
            && GlobalTotal(seen + [v]) == GlobalTotal(seen) + (if counts then v.size else 0)
            && GlobalSizes(seen + [v]) == if counts then GlobalSizes(seen)[v.name := v.size] else GlobalSizes(seen)
  {
    var more := seen + [v];
    assert more[..|more| - 1] == seen;
    if v.segment == ModuleGlobal && v.name !in GlobalSizes(seen) {
      SumOfExtended(GlobalSizes(seen), v.name, v.size);
    }
  }

  lemma AccountsStep(l: Layout, seen: seq<DspVar>, st: Alloc, clientStart: u32, v: DspVar)
    requires Accounts(l, seen, st)
    ensures Accounts(l, seen + [v], PlaceVar(st, clientStart, v))
  {
    hide SegmentTotal, GlobalTotal, GlobalSizes, Wrap32;
    TotalsStep(seen, v, ModuleLocal);
    TotalsStep(seen, v, ModuleAligned);
    WrapAdd(l.userWorkspace + SegmentTotal(seen, ModuleLocal), v.size);
    WrapAdd(l.userAligned + SegmentTotal(seen, ModuleAligned), v.size);
    WrapAdd(l.userAligned - 1 - GlobalTotal(seen), -(v.size as int));
    WrapAdd(GlobalTotal(seen), v.size);
  }

  lemma {:induction false} AccountsVars(l: Layout, seen: seq<DspVar>, st: Alloc, clientStart: u32, vars: seq<DspVar>)
    requires Accounts(l, seen, st)
    ensures Accounts(l, seen + vars, PlaceVars(st, clientStart, vars))
  {
    if vars == [] {
      assert seen + vars == seen;
    } else {
      var front, v := vars[..|vars| - 1], vars[|vars| - 1];
      AccountsVars(l, seen, st, clientStart, front);
      AccountsStep(l, seen + front, PlaceVars(st, clientStart, front), clientStart, v);
      assert seen + vars == seen + front + [v];
    }
  }

  /** Accounting is exact: the local and aligned pointers have moved by the sum of all clients' declared sizes, the
      global pointer and the reported global size by each name counted once, however many clients declare it.
      (Modulo the word size: the pointers are not checked against overflow.) */
  lemma {:induction false} AccountingIsExact(l: Layout, lists: seq<seq<DspVar>>)
    ensures Accounts(l, Flatten(lists), PlaceLists(Start(l), lists))
  {
    if lists == [] {
    } else {
      var front := lists[..|lists| - 1];
      AccountingIsExact(l, front);
      var before := PlaceLists(Start(l), front);
      AccountsVars(l, Flatten(front), before, before.local, lists[|lists| - 1]);
    }
  }
}
