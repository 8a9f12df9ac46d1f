/** The client object of the DSP server and the table of globals all clients share. */
module ZdspClients {
  import opened MachineWords
  import opened Wrappers
  import opened DspApi
  import opened DspVarResolver
  import Compiler = DspCmdCompiler
  import opened VarAllocator
  import opened ClientRegistry
  import opened InterruptDispatch
  import I = ZdspClientImage

  /** The static members of the client class: the globals placed by the last linking, their total size, and how many
      clients there are. */
  class GlobalVariableTable {
    var entries: VarHash
    var size: u32
    var instanceCount: nat

    constructor ()
      ensures entries == map[] && size == 0 && instanceCount == 0
    {
      entries, size, instanceCount := map[], 0, 0;
    }

    method Reset()
      modifies this`entries, this`size
      ensures entries == map[] && size == 0
    {
      entries, size := map[], 0;
    }

    /** A client is destroyed; with the last one the globals go. */
    method Destroyed()
      requires instanceCount > 0
      modifies this
      ensures instanceCount == old(instanceCount) - 1
      ensures instanceCount == 0 ==> entries == map[] && size == 0
      ensures instanceCount > 0 ==> entries == old(entries) && size == old(size)
    {
      instanceCount := instanceCount - 1;
      if instanceCount == 0 {
        Reset();
      }
    }
  }

  /** The messages sent to the clients over their connections. */
  class Wire {
    var sent: seq<Notification>

    constructor ()
      ensures sent == []
    {
      sent := [];
    }
  }

  class ZdspClient {
    const chip: Chip
    const interruptId: u16
    const proxyConnectionId: string
    const veinPeer: nat

    var vars: seq<DspVar>
    var detached: Option<seq<DspVar>>
    var cyclic: I.Definition
    var interrupt: I.Definition
    var cyclicList: seq<Instr>
    var interruptList: seq<Instr>

    function Image(): I.ClientImage
      reads this
    {
      I.ClientImage(interruptId, vars, detached, cyclic, interrupt, cyclicList, interruptList)
    }

    function Rec(): ClientRec {
      ClientRec(interruptId, proxyConnectionId, veinPeer)
    }

    constructor (chip: Chip, interruptId: u16, veinPeer: nat, proxyConnectionId: string, globals: GlobalVariableTable)
      modifies globals`instanceCount
      ensures globals.instanceCount == old(globals.instanceCount) + 1
      ensures this.chip == chip && Rec() == ClientRec(interruptId, proxyConnectionId, veinPeer)
      ensures Image() == I.ClientImage(interruptId, [], None, I.NoText, I.NoText, [], [])
    {
      this.chip, this.interruptId := chip, interruptId;
      this.veinPeer, this.proxyConnectionId := veinPeer, proxyConnectionId;
      vars, detached, cyclic, interrupt, cyclicList, interruptList := [], None, I.NoText, I.NoText, [], [];
      new;
      globals.instanceCount := globals.instanceCount + 1;
    }

    /** Takes entries over one by one; a rejected entry leaves the shorter list, and the resolver as it was. */
    method SetVarList(globals: GlobalVariableTable, entries: seq<Option<DspVar>>) returns (ok: bool)
      modifies this`vars, this`detached
      ensures Image() == I.SetVarList(chip, globals.entries, old(Image()), entries)
      ensures ok <==> forall e <- entries :: I.EntryAccepted(globals.entries, old(I.HashOf(chip, Image())), e)
      ensures ok <==> detached == None
    {
      hide I.HashOf, GetDspVar;
      var hash := I.HashOf(chip, Image());
      var kept := if detached.Some? then detached.value else vars;
      ghost var known := globals.entries;
      vars := [];
      ok := true;
      var i := 0;
      while i < |entries| && ok
        invariant 0 <= i <= |entries|
        invariant forall k :: 0 <= k < i ==> I.EntryAccepted(known, hash, entries[k])
        invariant !ok ==> i < |entries| && !I.EntryAccepted(known, hash, entries[i])
        invariant globals.entries == known
        invariant vars == I.Taken(entries[..i])
        decreases |entries| - i, ok
      {
        if I.EntryAccepted(globals.entries, hash, entries[i]) {
          assert entries[..i + 1][..i] == entries[..i];
          vars := vars + [entries[i].value];
          i := i + 1;
        } else {
          ok := false;
        }
      }
      detached := if ok then None else Some(kept);
      I.CountIs(known, hash, entries, i);
    }

    method SetCmdListDef(definition: I.Definition)
      modifies this`cyclic
      ensures Image() == old(Image()).(cyclic := definition)
    {
      cyclic := definition;
    }

    method SetCmdForIrqListDef(definition: I.Definition)
      modifies this`interrupt
      ensures Image() == old(Image()).(interrupt := definition)
    {
      interrupt := definition;
    }

    /** Gives every variable its address, moving the pointers that are passed on from client to client. */
    method CalcVarAddressesAndSizes(globals: GlobalVariableTable, currLocal: u32, currAligned: u32, currGlobal: u32,
                                    ghost before: Alloc)
      returns (local: u32, aligned: u32, global: u32)
      requires Tracks(globals, currLocal, currAligned, currGlobal, before)
      modifies this`vars, globals`entries, globals`size
      ensures var r := PlaceVars(before, currLocal, old(vars));
              Tracks(globals, local, aligned, global, r) && vars == r.placed[|before.placed|..]
      ensures Image() == old(Image()).(vars := vars)
    {
      local, aligned, global := currLocal, currAligned, currGlobal;
      ghost var was := vars;
      for i := 0 to |vars|
        invariant |vars| == |was| && vars[i..] == was[i..]
        invariant Tracks(globals, local, aligned, global, PlaceVars(before, currLocal, was[..i]))
        invariant vars[..i] == PlaceVars(before, currLocal, was[..i]).placed[|before.placed|..]
        invariant Image() == old(Image()).(vars := vars)
      {
        hide PlaceVar, Tracks;
        ghost var st := PlaceVars(before, currLocal, was[..i]);
        assert vars[i] == was[i] && was[..i + 1][..i] == was[..i];
        var p;
        p, local, aligned, global := PlaceOne(globals, currLocal, vars[i], local, aligned, global, st);
        ghost var behind := vars[i..];
        vars := vars[i := p];
        assert vars[i + 1..] == behind[1..] == was[i + 1..];
        assert vars[..i + 1] == vars[..i] + [p];
      }
      assert was[..|was|] == was && vars[..|vars|] == vars;
    }

    /** The pointers and the shared table are those of the allocation run. */
    ghost predicate Tracks(globals: GlobalVariableTable, local: u32, aligned: u32, global: u32, st: Alloc)
      reads globals
    {
      && st.local == local && st.aligned == aligned && st.global == global
      && st.table == globals.entries && st.globalSize == globals.size
    }

    method PlaceOne(globals: GlobalVariableTable, clientStart: u32, v: DspVar, currLocal: u32, currAligned: u32,
                    currGlobal: u32, ghost st: Alloc)
      returns (p: DspVar, local: u32, aligned: u32, global: u32)
      requires Tracks(globals, currLocal, currAligned, currGlobal, st)
      modifies globals`entries, globals`size
      ensures Tracks(globals, local, aligned, global, PlaceVar(st, clientStart, v))
      ensures PlaceVar(st, clientStart, v).placed == st.placed + [p]
    {
      p, local, aligned, global := v, currLocal, currAligned, currGlobal;
      match v.segment {
        case ModuleLocal =>
          p := PlaceAt(v, local, clientStart);
          local := Wrap32(local + v.size);
        case ModuleAligned =>
          p := PlaceAt(v, aligned, clientStart);
          aligned := Wrap32(aligned + v.size);
        case ModuleGlobal =>
          if v.name in globals.entries {
            p := PlaceAt(v, globals.entries[v.name].address, clientStart);
          } else {
            p := PlaceAt(v, global, clientStart);
            global := Wrap32(global - v.size);
            globals.size := Wrap32(globals.size + v.size);
            globals.entries := globals.entries[v.name := p];
          }
        case DspInternal =>
      }
    }

    /** Compiles the lists that have a definition; the others keep what they compiled to before. */
    method CompileCmdLists() returns (ok: bool, err: Option<Compiler.CmdLine>)
      modifies this`cyclicList, this`interruptList
      ensures (Image(), ok, err) == I.CompileLists(chip, old(Image()))
    {
      hide I.HashOf, Compiler.Commands, Compiler.CompileAll, Compiler.CompileOne;
      var hash := I.HashOf(chip, Image());
      ok, err := true, None;
      if cyclic.Text? {
        cyclicList, ok, err := Compiler.CompileCmds(hash, interruptId, cyclic.cmds);
        Compiler.CompileAllContent(hash, interruptId, cyclic.cmds);
        if !ok { return; }
      }
      if interrupt.Text? {
        interruptList, ok, err := Compiler.CompileCmds(hash, interruptId, interrupt.cmds);
      }
    }

    /** Tells the client behind the connection; the parameter is the lower half of the interrupt word. */
    method SendInterruptNotification(wire: Wire, parameter: u32)
      modifies wire
      ensures wire.sent == old(wire.sent) + [Notification(proxyConnectionId, ParamOf(parameter))]
    {
      wire.sent := wire.sent + [Notification(proxyConnectionId, parameter % 0x1_0000)];
    }

    /** The words the client declares in one segment. */
    method GetMemSize(segment: Segment) returns (memSize: nat)
      ensures memSize == SegmentTotal(vars, segment)
    {
      memSize := 0;
      for i := 0 to |vars|
        invariant memSize == SegmentTotal(vars[..i], segment)
      {
        assert vars[..i + 1][..i] == vars[..i];
        if vars[i].segment == segment {
          memSize := memSize + vars[i].size;
        }
      }
      assert vars[..|vars|] == vars;
    }
  }
}
