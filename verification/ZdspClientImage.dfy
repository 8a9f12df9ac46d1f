/** A client of the DSP server as a value: its variables, its two command lists and what they compile to. */
module ZdspClientImage {
  import opened MachineWords
  import opened Wrappers
  import opened DspVarOffsetCalc
  import opened DspApi
  import opened DspVarResolver
  import opened DspCmdCompiler

  /** A command list definition: the empty text, or a text cut at its semicolons, which may hold no command. */
  datatype Definition = NoText | Text(cmds: seq<CmdLine>)

  /** The resolver shares the variables of the list it was last actualized with. After a rejected variable list it
      keeps the variables of the list before, as they were, and "detached" holds those. */
  datatype ClientImage = ClientImage(id: u16, vars: seq<DspVar>, detached: Option<seq<DspVar>>,
                                     cyclic: Definition, interrupt: Definition,
                                     cyclicList: seq<Instr>, interruptList: seq<Instr>)

  /** The client variables the resolver knows. */
  function Known(c: ClientImage): seq<DspVar> {
    if c.detached.Some? then c.detached.value else c.vars
  }

  function HashOf(chip: Chip, c: ClientImage): VarHash {
    AddToHash(SystemHash(chip), Known(c))
  }

  /** The verdict on one entry of a new variable list; None stands for an entry that does not parse. */
  predicate EntryAccepted(globals: VarHash, hash: VarHash, entry: Option<DspVar>) {
    match entry
    case None => false
    case Some(v) =>
      match v.segment
      case ModuleGlobal => v.name in globals ==> v.size == globals[v.name].size
      case DspInternal =>
        (match GetDspVar(hash, v.name)
         case None => false
         case Some(known) => known.size == v.size && known.dataType == v.dataType)
      case _ => true
  }

  /** How many entries are taken over before the first rejected one. */
  function AcceptedCount(globals: VarHash, hash: VarHash, entries: seq<Option<DspVar>>): (n: nat)
    ensures n <= |entries|
    ensures forall i :: 0 <= i < n ==> EntryAccepted(globals, hash, entries[i])
    ensures n < |entries| ==> !EntryAccepted(globals, hash, entries[n])
  {
    if entries == [] then 0
    else
      var n := AcceptedCount(globals, hash, entries[..|entries| - 1]);
      if n < |entries| - 1 then n
      else if EntryAccepted(globals, hash, entries[n]) then n + 1 else n
  }

  lemma CountIs(globals: VarHash, hash: VarHash, entries: seq<Option<DspVar>>, n: nat)
    requires n <= |entries| && forall k :: 0 <= k < n ==> EntryAccepted(globals, hash, entries[k])
    requires n < |entries| ==> !EntryAccepted(globals, hash, entries[n])
    ensures AcceptedCount(globals, hash, entries) == n
  {
    hide EntryAccepted;
  }

  function Taken(entries: seq<Option<DspVar>>): (vars: seq<DspVar>)
    requires forall e <- entries :: e.Some?
    ensures |vars| == |entries| && forall i :: 0 <= i < |vars| ==> vars[i] == entries[i].value
  {
    if entries == [] then [] else Taken(entries[..|entries| - 1]) + [entries[|entries| - 1].value]
  }

  function SetVarList(chip: Chip, globals: VarHash, c: ClientImage, entries: seq<Option<DspVar>>): ClientImage {
    var n := AcceptedCount(globals, HashOf(chip, c), entries);
    c.(vars := Taken(entries[..n]), detached := if n == |entries| then None else Some(Known(c)))
  }

  /** Compiles both lists. A list whose definition is empty keeps what it compiled to before. */
  function CompileLists(chip: Chip, c: ClientImage): (ClientImage, bool, Option<CmdLine>) {
    var hash := HashOf(chip, c);
    var cyc := if c.cyclic.Text? then CompileAll(hash, c.id, c.cyclic.cmds) else CompileResult(c.cyclicList, true, None);
    if !cyc.ok then (c.(cyclicList := cyc.list), false, cyc.err)
    else
      var irq := if c.interrupt.Text? then CompileAll(hash, c.id, c.interrupt.cmds)
                 else CompileResult(c.interruptList, true, None);
      (c.(cyclicList := cyc.list, interruptList := irq.list), irq.ok, irq.err)
  }
}
