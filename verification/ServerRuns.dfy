/** Runs of the server as values: clients come and go, send lists and definitions, and are linked. What every resolver
    still has under CTRLACK. */
module ServerRuns {
  import opened MachineWords
  import opened Wrappers
  import opened DspApi
  import opened DspVarResolver
  import opened VarAllocator
  import opened MemoryIsolation
  import opened ZdspClientImage
  import opened ProgramLinker
  import opened LinkedMeaning
  import opened StaleResolver
  import opened SystemNames
  import opened DspVarDeviceNodes

  /** The clients in the order of their registration, and the globals of the last linking. */
  datatype Server = Server(clients: seq<ClientImage>, globals: VarHash)

  datatype Event =
    | Register(id: u16)
    | Remove(k: nat)
    | SendList(k: nat, entries: seq<Option<DspVar>>)
    | Define(kind: Kind, k: nat, definition: Definition)
    | Link

  function Defined(kind: Kind, c: ClientImage, definition: Definition): ClientImage {
    match kind case Cyclic => c.(cyclic := definition) case Interrupt => c.(interrupt := definition)
  }

  /** With the last client the globals go. */
  function Removed(s: Server, k: nat): Server
    requires k < |s.clients|
  {
    var rest := s.clients[..k] + s.clients[k + 1..];
    Server(rest, if rest == [] then map[] else s.globals)
  }

  function Step(chip: Chip, s: Server, e: Event): Server {
    match e
    case Register(id) => s.(clients := s.clients + [ClientImage(id, [], None, NoText, NoText, [], [])])
    case Remove(k) => if k < |s.clients| then Removed(s, k) else s
    case SendList(k, entries) =>
      if k < |s.clients| then s.(clients := s.clients[k := SetVarList(chip, s.globals, s.clients[k], entries)]) else s
    case Define(kind, k, definition) =>
      if k < |s.clients| then s.(clients := s.clients[k := Defined(kind, s.clients[k], definition)]) else s
    case Link =>
      var r := LinkAll(chip, s.clients);
      Server(r.clients, r.alloc.table)
  }

  function Run(chip: Chip, events: seq<Event>): Server {
    if events == [] then Server([], map[]) else Step(chip, Run(chip, events[..|events| - 1]), events[|events| - 1])
  }

  /** Entries come from the parser without an address, and what is linked fits. */
  ghost predicate Fitting(chip: Chip, s: Server, e: Event) {
    match e
    case SendList(_, entries) => forall i :: 0 <= i < |entries| && entries[i].Some? ==> entries[i].value.address == 0
    case Link => ClientsFit(chip, s.clients)
    case _ => true
  }

  ghost predicate FittingRun(chip: Chip, events: seq<Event>) {
    events == [] ||
    (FittingRun(chip, events[..|events| - 1]) && Fitting(chip, Run(chip, events[..|events| - 1]), events[|events| - 1]))
  }

  /** No variable lies at the address that stands for an unknown name. */
  predicate Addressed(vars: seq<DspVar>) {
    forall i :: 0 <= i < |vars| ==> vars[i].address != 0xFFFF_FFFF
  }

  predicate ClientAddressed(c: ClientImage) {
    Addressed(Known(c)) && Addressed(c.vars)
  }

  predicate AllAddressed(clients: seq<ClientImage>) {
    forall i :: 0 <= i < |clients| ==> ClientAddressed(clients[i])
  }

  lemma AddressedIsWritable(vars: seq<DspVar>)
    requires Addressed(vars)
    ensures Writable(vars)
  {
    LastNamedIsNamed(vars, ACKNOWLEDGE);
    hide LastNamed;
  }

  lemma ListKeepsAddressed(chip: Chip, globals: VarHash, c: ClientImage, entries: seq<Option<DspVar>>)
    requires ClientAddressed(c)
    requires forall i :: 0 <= i < |entries| && entries[i].Some? ==> entries[i].value.address == 0
    ensures ClientAddressed(SetVarList(chip, globals, c, entries))
  {
    hide HashOf, AcceptedCount;
  }

  // ---------- linking

  lemma BoundedIsAddressed(l: Layout, st: Alloc, v: DspVar)
    requires l.Sound() && Ordered(l, st) && Bounded(l, st, v) && v.segment != DspInternal
    ensures v.address < 0x10_0000
  {
  }

  lemma PlacedAddressed(l: Layout, st: Alloc, clientStart: u32, vars: seq<DspVar>)
    requires l.Sound() && Good(l, PlaceVars(st, clientStart, vars)) && Addressed(vars)
    ensures Addressed(PlaceVars(st, clientStart, vars).placed[|st.placed|..])
  {
    hide PlaceVars, Good, Ordered, Bounded;
    var r := PlaceVars(st, clientStart, vars);
    var placed := r.placed[|st.placed|..];
    forall i | 0 <= i < |placed| ensures placed[i].address != 0xFFFF_FFFF {
      PlacedOffsets(st, clientStart, vars, i);
      assert placed[i] == r.placed[|st.placed| + i];
      if vars[i].segment == DspInternal {
        InternalIsNeverPlaced(st, clientStart, vars, i);
      } else {
        BoundedAt(l, r, |st.placed| + i);
        BoundedIsAddressed(l, r, placed[i]);
      }
    }
  }

  /** The client whose turn it is finds room, whether its lists compile or not. */
  lemma FittingTurn(chip: Chip, cs: seq<ClientImage>, k: nat)
    requires k < |cs| && Before(chip, cs, k).ok && ClientsFit(chip, cs)
    ensures var st := Before(chip, cs, k).alloc; Good(LayoutOf(chip), PlaceVars(st, st.local, cs[k].vars))
  {
    hide Before, Flatten, Lists, Fits, GlobalsAgree, Good, PlaceVars, LayoutOf, Accounts, Isolated;
    var l, seen, all := LayoutOf(chip), Flatten(Lists(cs[..k + 1])), Flatten(Lists(cs));
    FittingStates(chip, cs, k);
    LinkerAllocates(chip, cs, k);
    ExactLists(l, Lists(cs[..k]));
    ListsNext(cs, k);
    FlattenPrefix(cs, k + 1, |cs|);
    assert cs[..|cs|] == cs && all == seen + all[|seen|..];
    FitsPrefix(l, seen, all[|seen|..]);
    AgreesPrefix(seen, all[|seen|..]);
    var st := Before(chip, cs, k).alloc;
    ExactVars(l, Flatten(Lists(cs[..k])), st, st.local, cs[k].vars);
  }

  /** The client that is added to the linked ones in its turn, or as it was after an error. */
  lemma TurnAdds(chip: Chip, cs: seq<ClientImage>, k: nat)
    requires k < |cs|
    ensures Before(chip, cs, k + 1).clients == Before(chip, cs, k).clients
              + [if Before(chip, cs, k).ok then CompileLists(chip, Placed(chip, cs, k)).0 else cs[k]]
  {
    hide Before, CompileLists, PlaceVars, Prologue;
    BeforeNext(chip, cs, k);
  }

  lemma PlacedClientAddressed(chip: Chip, cs: seq<ClientImage>, k: nat)
    requires k < |cs| && Before(chip, cs, k).ok && ClientsFit(chip, cs) && ClientAddressed(cs[k])
    ensures ClientAddressed(Placed(chip, cs, k))
  {
    hide Before, PlaceVars, ClientsFit, Addressed, Good, LayoutOf;
    var st := Before(chip, cs, k).alloc;
    FittingTurn(chip, cs, k);
    PlacedAddressed(LayoutOf(chip), st, st.local, cs[k].vars);
  }

  lemma TurnKeepsAddressed(chip: Chip, cs: seq<ClientImage>, k: nat)
    requires k < |cs| && ClientsFit(chip, cs) && AllAddressed(cs) && AllAddressed(Before(chip, cs, k).clients)
    ensures AllAddressed(Before(chip, cs, k + 1).clients)
  {
    hide Before, Placed, CompileLists, ClientsFit, Addressed;
    TurnAdds(chip, cs, k);
    if Before(chip, cs, k).ok {
      PlacedClientAddressed(chip, cs, k);
      CompilingKeepsResolver(chip, Placed(chip, cs, k));
    }
  }

  lemma {:induction false} LinkingKeepsAddressed(chip: Chip, cs: seq<ClientImage>, k: nat)
    requires k <= |cs| && ClientsFit(chip, cs) && AllAddressed(cs)
    ensures AllAddressed(Before(chip, cs, k).clients)
  {
    hide Before, ClientsFit;
    if k == 0 {
      NoneBefore(chip, cs);
    } else {
      LinkingKeepsAddressed(chip, cs, k - 1);
      TurnKeepsAddressed(chip, cs, k - 1);
    }
  }

  lemma LinkedClients(chip: Chip, cs: seq<ClientImage>)
    ensures LinkAll(chip, cs).clients == Before(chip, cs, |cs|).clients
  {
    assert cs[..|cs|] == cs;
    hide LinkClients, LinkStart;
  }

  lemma StepKeepsAddressed(chip: Chip, s: Server, e: Event)
    requires AllAddressed(s.clients) && Fitting(chip, s, e)
    ensures AllAddressed(Step(chip, s, e).clients)
  {
    hide SetVarList, LinkAll, Addressed, ClientsFit, Before;
    match e
    case Register(id) => NoneAddressed(id);
    case Remove(k) =>
    case SendList(k, entries) =>
      if k < |s.clients| {
        ListKeepsAddressed(chip, s.globals, s.clients[k], entries);
      }
    case Define(kind, k, definition) =>
    case Link =>
      LinkingKeepsAddressed(chip, s.clients, |s.clients|);
      LinkedClients(chip, s.clients);
  }

  lemma NoneAddressed(id: u16)
    ensures ClientAddressed(ClientImage(id, [], None, NoText, NoText, [], []))
  {
  }

  lemma {:induction false} RunIsAddressed(chip: Chip, events: seq<Event>)
    requires FittingRun(chip, events)
    ensures AllAddressed(Run(chip, events).clients)
  {
    hide AllAddressed, Fitting, Step;
    if events == [] {
      assert AllAddressed([]) by {
        NothingAddressed();
      }
    } else {
      RunIsAddressed(chip, events[..|events| - 1]);
      StepKeepsAddressed(chip, Run(chip, events[..|events| - 1]), events[|events| - 1]);
    }
  }

  lemma NothingAddressed()
    ensures AllAddressed([])
  {
  }

  /** Over every run of registrations, removals, lists, accepted or rejected, definitions and linkings of clients that
      fit: an acknowledge through any client's resolver makes exactly one write. */
  lemma RunAcknowledgesOnce(chip: Chip, events: seq<Event>, k: nat)
    requires FittingRun(chip, events) && k < |Run(chip, events).clients|
    ensures |AckWrites(HashOf(chip, Run(chip, events).clients[k]))| == 1
  {
    hide Run, FittingRun, AckWrites, Addressed, SystemHash, AddToHash, Writable, Known;
    RunIsAddressed(chip, events);
    var c := Run(chip, events).clients[k];
    assert ClientAddressed(c);
    AddressedIsWritable(Known(c));
    AcknowledgeWrittenIff(chip, Known(c));
  }
}
