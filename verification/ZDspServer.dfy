/** The server: links the command lists of all registered clients and keeps the binary programs. */
module ZDspServers {
  import opened MachineWords
  import opened Wrappers
  import opened DspVarOffsetCalc
  import opened DspApi
  import opened DspVarResolver
  import opened DspCmdCompiler
  import opened VarAllocator
  import opened MemoryIsolation
  import opened ZdspClientImage
  import opened ProgramLinker
  import LinkedMeaning
  import opened LinkedBases
  import opened ZdspClients
  import opened ClientRegistry
  import opened ZDspClientContainers

  function Images(s: seq<ZdspClient>): (r: seq<ClientImage>)
    reads s
    ensures |r| == |s| && forall i :: 0 <= i < |s| ==> r[i] == s[i].Image()
  {
    if s == [] then [] else Images(s[..|s| - 1]) + [s[|s| - 1].Image()]
  }

  /** The words a list of clients declares in a segment. */
  function Declared(cs: seq<ClientImage>, segment: Segment): nat {
    SegmentTotal(Flatten(LinkedMeaning.Lists(cs)), segment)
  }

  class ZDspServer {
    const chip: Chip
    const container: ZDspClientContainer
    const globals: GlobalVariableTable
    var rawCyclicCmdMem: seq<u8>
    var rawInterruptCmdMem: seq<u8>

    constructor (chip: Chip)
      ensures this.chip == chip && fresh(container) && fresh(globals) && Valid()
      ensures container.clientsChronological == []
      ensures rawCyclicCmdMem == [] && rawInterruptCmdMem == []
    {
      this.chip := chip;
      var table := new GlobalVariableTable();
      globals := table;
      container := new ZDspClientContainer(chip, table);
      rawCyclicCmdMem, rawInterruptCmdMem := [], [];
    }

    ghost predicate Valid()
      reads container, container.globals`instanceCount
    {
      container.Valid() && container.chip == chip && container.globals == globals
    }

    /** A command with one number, compiled as the client itself would. */
    method CompileNumberCmd(client: ZdspClient, code: CmdCode, n: u32) returns (instr: Instr)
      requires client.chip == chip
      ensures instr == NumberCmd(HashOf(chip, client.Image()), client.interruptId, code, n)
    {
      hide HashOf, CompileOne, Decimal;
      var ok;
      instr, ok := CompileOneCmdLine(HashOf(chip, client.Image()), client.interruptId, Some(code), [Token(Decimal(n), None)]);
    }

    /** One client's turn of the linking. */
    method LinkOne(client: ZdspClient, currLocal: u32, currAligned: u32, currGlobal: u32, cyclicSoFar: seq<Instr>,
                   interruptSoFar: seq<Instr>, ghost st: Linked)
      returns (ok: bool, err: Option<CmdLine>, local: u32, aligned: u32, global: u32, cyc: seq<Instr>, irq: seq<Instr>)
      requires client.chip == chip && st.ok && cyclicSoFar == st.cyc && interruptSoFar == st.irq
      requires client.Tracks(globals, currLocal, currAligned, currGlobal, st.alloc)
      modifies client, globals`entries, globals`size
      ensures var next := LinkClient(chip, st, old(client.Image()));
              && ok == next.ok && (!ok ==> err == next.err) && cyc == next.cyc && irq == next.irq
              && next.clients == st.clients + [client.Image()]
              && client.Tracks(globals, local, aligned, global, next.alloc)
    {
      hide HashOf, NumberCmd, CompileLists, PlaceVars;
      cyc, irq := cyclicSoFar, interruptSoFar;
      if client.cyclic.Text? {
        var prologue := CompileNumberCmd(client, USERMEMOFFSET, currLocal);
        cyc := cyc + [prologue];
      }
      if client.interrupt.Text? {
        var prologue := CompileNumberCmd(client, USERMEMOFFSET, currLocal);
        irq := irq + [prologue];
      }
      local, aligned, global := client.CalcVarAddressesAndSizes(globals, currLocal, currAligned, currGlobal, st.alloc);
      ok, err := client.CompileCmdLists();
      if ok {
        cyc := cyc + client.cyclicList;
        irq := irq + client.interruptList;
      }
    }

    /** Links all clients, in the order of their registration. */
    method CompileCmdListsForAllClientsToCompileLists()
      returns (ok: bool, err: Option<CmdLine>, cyc: seq<Instr>, irq: seq<Instr>)
      requires Valid()
      modifies container.clientsChronological, globals`entries, globals`size
      ensures Delivers(LinkAll(chip, old(Images(container.clientsChronological))), container.clientsChronological,
                       ok, err, cyc, irq)
    {
      hide LinkClients, LinkAll, LinkStart, NumberCmd, HashOf, Valid, Delivers, EncodeCmd, LayoutOf;
      var clients := container.clientsChronological;
      ghost var was := Images(clients);
      OwnClients();
      FirstInstr(was);
      hide Images;
      globals.Reset();
      cyc := [];
      if clients != [] {
        var first := CompileNumberCmd(clients[0], DSPMEMOFFSET, LayoutOf(chip).dspWorkspace);
        cyc := [first];
      }
      DistinctClients();
      ok, err, cyc, irq := LinkEach(clients, was, cyc);
      EndsDeliver(LinkClients(chip, LinkStart(chip, was), was), clients, was, ok, err, cyc, irq);
      assert cyc + [] == cyc;
      if ok {
        if clients != [] {
          cyc := cyc + [EncodeCmd(DSPINTPOST)];
        }
        cyc := cyc + [EncodeCmd(INVALID)];
        irq := irq + [EncodeCmd(INVALID)];
      }
    }

    lemma OwnClients()
      requires Valid()
      ensures forall c <- container.clientsChronological :: c.chip == chip
    {
      hide Agrees;
    }

    lemma FirstInstr(cs: seq<ClientImage>)
      ensures LinkStart(chip, cs).cyc ==
              if cs == [] then [] else [NumberCmd(HashOf(chip, cs[0]), cs[0].id, DSPMEMOFFSET, LayoutOf(chip).dspWorkspace)]
    {
      hide NumberCmd, HashOf;
    }

    lemma DistinctClients()
      requires Valid()
      ensures var s := container.clientsChronological; forall i, j :: 0 <= i < j < |s| ==> s[i] != s[j]
    {
      hide Listed, Indexed;
      var s := container.clientsChronological;
      forall i, j | 0 <= i < j < |s| ensures s[i] != s[j] {
        assert Recs(s)[i] != Recs(s)[j];
      }
    }

    /** The verdict, the programs, the shared table and the clients are those of a finished linking. */
    ghost predicate Delivers(r: Linked, clients: seq<ZdspClient>, ok: bool, err: Option<CmdLine>,
                             cyc: seq<Instr>, irq: seq<Instr>)
      reads globals, clients
    {
      && ok == r.ok && (!ok ==> err == r.err) && cyc == r.cyc && irq == r.irq && Images(clients) == r.clients
      && globals.entries == r.alloc.table && globals.size == r.alloc.globalSize
    }

    /** The pointers, the shared table and the clients agree with a state of the linking. */
    ghost predicate Follows(st: Linked, clients: seq<ZdspClient>, rest: seq<ClientImage>,
                            local: u32, aligned: u32, global: u32, cyc: seq<Instr>, irq: seq<Instr>)
      reads globals, clients
    {
      && st.alloc.local == local && st.alloc.aligned == aligned && st.alloc.global == global
      && st.alloc.table == globals.entries && st.alloc.globalSize == globals.size
      && cyc == st.cyc && irq == st.irq && Images(clients) == st.clients + rest
    }

    /** The turn of client i. */
    method LinkTurn(clients: seq<ZdspClient>, i: nat, ghost rest: seq<ClientImage>, currLocal: u32, currAligned: u32,
                    currGlobal: u32, cyclicSoFar: seq<Instr>, interruptSoFar: seq<Instr>, ghost st: Linked)
      returns (ok: bool, err: Option<CmdLine>, local: u32, aligned: u32, global: u32, cyc: seq<Instr>, irq: seq<Instr>)
      requires i < |clients| && clients[i].chip == chip && st.ok && |st.clients| == i && rest != []
      requires forall j, k :: 0 <= j < k < |clients| ==> clients[j] != clients[k]
      requires Follows(st, clients, rest, currLocal, currAligned, currGlobal, cyclicSoFar, interruptSoFar)
      modifies clients[i], globals`entries, globals`size
      ensures var next := LinkClient(chip, st, rest[0]);
              && Follows(next, clients, rest[1..], local, aligned, global, cyc, irq)
              && ok == next.ok && (!ok ==> err == next.err) && |next.clients| == i + 1
    {
      hide LinkClient, Images;
      ghost var images := Images(clients);
      assert clients[i].Image() == images[i] == rest[0];
      ok, err, local, aligned, global, cyc, irq :=
        LinkOne(clients[i], currLocal, currAligned, currGlobal, cyclicSoFar, interruptSoFar, st);
      ghost var next := LinkClient(chip, st, rest[0]);
      assert images[i := clients[i].Image()] == next.clients + rest[1..];
      ImagesAre(clients, next.clients + rest[1..], images, i);
    }

    /** The loop over the clients; it ends early when a list does not compile. */
    method LinkEach(clients: seq<ZdspClient>, ghost was: seq<ClientImage>, first: seq<Instr>)
      returns (ok: bool, err: Option<CmdLine>, cyc: seq<Instr>, irq: seq<Instr>)
      requires forall c <- clients :: c.chip == chip
      requires forall i, j :: 0 <= i < j < |clients| ==> clients[i] != clients[j]
      requires was == Images(clients) && first == LinkStart(chip, was).cyc
      requires globals.entries == map[] && globals.size == 0
      modifies clients, globals`entries, globals`size
      ensures Delivers(LinkClients(chip, LinkStart(chip, was), was), clients, ok, err, cyc, irq)
    {
      hide LinkClient, LinkClients, LinkStart, Images, Follows, Delivers, LayoutOf;
      var l := LayoutOf(chip);
      ghost var start := LinkStart(chip, was);
      LinkStartsClean(chip, was);
      StartFollows(clients, was);
      ghost var st := start;
      var local, aligned, global := l.userWorkspace, l.userAligned, Wrap32(l.userAligned - 1);
      ok, err, cyc, irq := true, None, first, [];
      var i := 0;
      assert was[0..] == was;
      while i < |clients| && ok
        invariant 0 <= i <= |clients| == |was| && |st.clients| == i
        invariant st == LinkClients(chip, start, was[..i])
        invariant ok == st.ok && (!ok ==> err == st.err)
        invariant Follows(st, clients, was[i..], local, aligned, global, cyc, irq)
      {
        LinkClientsNext(chip, start, was, i);
        assert was[i..][0] == was[i] && was[i..][1..] == was[i + 1..];
        ok, err, local, aligned, global, cyc, irq := LinkTurn(clients, i, was[i..], local, aligned, global, cyc, irq, st);
        st := LinkClient(chip, st, was[i]);
        i := i + 1;
      }
      RestUnlinked(chip, start, was, i);
      FollowedDelivers(st, clients, was[i..], local, aligned, global, cyc, irq, err);
    }

    /** Writes the instructions of a list, eight bytes each. */
    method StreamList(list: seq<Instr>) returns (raw: seq<u8>)
      ensures raw == StreamOut(list)
    {
      raw := [];
      for i := 0 to |list|
        invariant raw == StreamOut(list[..i])
      {
        assert list[..i + 1][..i] == list[..i];
        raw := raw + WordBytes(list[i].w0) + WordBytes(list[i].w1);
      }
      assert list[..|list|] == list;
    }

    /** The server holds the outcome of a linking: clients, globals and both binary programs. */
    ghost predicate Stores(r: Linked, ok: bool, err: Option<CmdLine>)
      reads this, container, container.clientsChronological, globals
    {
      && Delivers(r, container.clientsChronological, ok, err, r.cyc, r.irq)
      && rawCyclicCmdMem == StreamOut(r.cyc) && rawInterruptCmdMem == StreamOut(r.irq)
    }

    /** The binary programs hold what was linked, complete or, after a compile error, cut short. */
    method CompileCmdListsForAllClientsToBinaryStream() returns (ok: bool, err: Option<CmdLine>)
      requires Valid()
      modifies this`rawCyclicCmdMem, this`rawInterruptCmdMem, container.clientsChronological, globals
      ensures Stores(LinkAll(chip, old(Images(container.clientsChronological))), ok, err)
    {
      hide LinkAll, StreamOut, Images, Agrees;
      var cyc, irq;
      ok, err, cyc, irq := CompileCmdListsForAllClientsToCompileLists();
      rawCyclicCmdMem := StreamList(cyc);
      rawInterruptCmdMem := StreamList(irq);
    }

    /** The number of instructions in the cyclic program. */
    method GetProgMemCyclicOccupied() returns (n: nat)
      ensures n == |rawCyclicCmdMem| / 8
      ensures forall list :: rawCyclicCmdMem == StreamOut(list) ==> n == |list|
    {
      n := |rawCyclicCmdMem| / 8;
    }

    /** The words all clients declare in a segment; globals as counted by the last linking. */
    method GetVarMemOccupied(segment: Segment) returns (occupied: nat)
      requires Valid()
      ensures occupied == if segment == ModuleGlobal then globals.size
                          else Declared(Images(container.clientsChronological), segment)
    {
      if segment == ModuleGlobal {
        return globals.size;
      }
      occupied := SumMemSizes(container.clientsChronological, segment);
    }

    method SumMemSizes(clients: seq<ZdspClient>, segment: Segment) returns (occupied: nat)
      ensures occupied == Declared(Images(clients), segment)
    {
      hide Declared, SegmentTotal;
      ghost var images := Images(clients);
      NoClientDeclares(segment);
      occupied := 0;
      for i := 0 to |clients|
        invariant occupied == Declared(images[..i], segment)
      {
        assert images[..i + 1] == images[..i] + [images[i]];
        OneMoreClient(images[..i], images[i], segment);
        var memSize := clients[i].GetMemSize(segment);
        occupied := occupied + memSize;
      }
      assert images[..|clients|] == images;
    }

    lemma NoClientDeclares(segment: Segment)
      ensures Declared([], segment) == 0
    {
    }

    lemma OneMoreClient(cs: seq<ClientImage>, c: ClientImage, segment: Segment)
      ensures Declared(cs + [c], segment) == Declared(cs, segment) + SegmentTotal(c.vars, segment)
    {
      var all := cs + [c];
      assert all[..|cs|] == cs && all[..|cs| + 1] == all;
      LinkedMeaning.ListsNext(all, |cs|);
      SegmentTotalSplits(Flatten(LinkedMeaning.Lists(cs)), c.vars, segment);
    }

    lemma StartFollows(clients: seq<ZdspClient>, was: seq<ClientImage>)
      requires was == Images(clients) && globals.entries == map[] && globals.size == 0
      ensures var l := LayoutOf(chip);
              Follows(LinkStart(chip, was), clients, was, l.userWorkspace, l.userAligned, Wrap32(l.userAligned - 1),
                      LinkStart(chip, was).cyc, [])
    {
      LinkStartsClean(chip, was);
      hide LinkStart, Images, LayoutOf;
    }

    lemma FollowedDelivers(st: Linked, clients: seq<ZdspClient>, rest: seq<ClientImage>, local: u32, aligned: u32,
                           global: u32, cyc: seq<Instr>, irq: seq<Instr>, err: Option<CmdLine>)
      requires Follows(st, clients, rest, local, aligned, global, cyc, irq) && (!st.ok ==> err == st.err)
      ensures Delivers(st.(clients := st.clients + rest), clients, st.ok, err, cyc, irq)
    {
    }

    lemma EndsDeliver(st: Linked, clients: seq<ZdspClient>, was: seq<ClientImage>, ok: bool, err: Option<CmdLine>,
                      cyc: seq<Instr>, irq: seq<Instr>)
      requires st == LinkClients(chip, LinkStart(chip, was), was) && Delivers(st, clients, ok, err, cyc, irq)
      ensures !ok ==> Delivers(LinkAll(chip, was), clients, ok, err, cyc, irq)
      ensures ok ==> Delivers(LinkAll(chip, was), clients, ok, err,
                              cyc + (if was == [] then [] else [EncodeCmd(DSPINTPOST)]) + [EncodeCmd(INVALID)],
                              irq + [EncodeCmd(INVALID)])
    {
      hide LinkClients, LinkStart, Images;
    }
  }

  /** What the server reports as occupied decides isolation: after linking clients that agree about their globals,
      the variables are isolated if and only if the reported totals fit what is available and no global has more
      than one word. */
  lemma ReportedTotalsDecideIsolation(chip: Chip, cs: seq<ClientImage>)
    requires LinkAll(chip, cs).ok && GlobalsAgree(Flatten(LinkedMeaning.Lists(cs)))
    requires GlobalTotal(Flatten(LinkedMeaning.Lists(cs))) < 0x1_0000_0000
    ensures var l, vars, alloc := LayoutOf(chip), Flatten(LinkedMeaning.Lists(cs)), LinkAll(chip, cs).alloc;
            Isolated(l, alloc.placed) <==>
              && SegmentTotal(vars, ModuleLocal) + alloc.globalSize <= l.VarMemAvailable()
              && SegmentTotal(vars, ModuleAligned) <= l.VarMemAlignedAvailable()
              && forall v <- vars :: v.segment == ModuleGlobal ==> v.size <= 1
  {
    hide LinkAll, LinkedMeaning.Before, SegmentTotal, GlobalTotal, GlobalSizes, Flatten, LinkedMeaning.Lists, Isolated,
         PlaceLists, GlobalsAgree;
    LinkedMeaning.LinkedEnds(chip, cs);
    LinkedMeaning.LinkerAllocates(chip, cs, |cs|);
    assert cs[..|cs|] == cs;
    AccountingIsExact(LayoutOf(chip), LinkedMeaning.Lists(cs));
    IsolationExact(chip, LinkedMeaning.Lists(cs));
  }

  lemma LinkStartsClean(chip: Chip, cs: seq<ClientImage>)
    ensures var st, l := LinkStart(chip, cs), LayoutOf(chip);
            && st.ok && st.clients == [] && st.irq == []
            && st.alloc.local == l.userWorkspace && st.alloc.aligned == l.userAligned
            && st.alloc.global == Wrap32(l.userAligned - 1) && st.alloc.table == map[] && st.alloc.globalSize == 0
    ensures LinkClients(chip, LinkStart(chip, cs), cs[..0]) == LinkStart(chip, cs)
  {
    hide NumberCmd, HashOf;
  }

  lemma LinkClientsNext(chip: Chip, st: Linked, cs: seq<ClientImage>, i: nat)
    requires i < |cs|
    ensures LinkClients(chip, st, cs[..i + 1]) == LinkClient(chip, LinkClients(chip, st, cs[..i]), cs[i])
  {
    hide LinkClient;
    assert cs[..i + 1][..i] == cs[..i];
  }

  lemma ImagesAre(s: seq<ZdspClient>, r: seq<ClientImage>, before: seq<ClientImage>, i: nat)
    requires |r| == |s| == |before| && i < |s| && r == before[i := s[i].Image()]
    requires forall k :: 0 <= k < |s| && k != i ==> s[k].Image() == before[k]
    ensures Images(s) == r
  {
  }

  /** After a compile error the remaining clients stay as they are. */
  lemma {:induction false} RestUnlinked(chip: Chip, st: Linked, cs: seq<ClientImage>, n: nat)
    requires n <= |cs| && (n < |cs| ==> !LinkClients(chip, st, cs[..n]).ok)
    ensures LinkClients(chip, st, cs) ==
            LinkClients(chip, st, cs[..n]).(clients := LinkClients(chip, st, cs[..n]).clients + cs[n..])
  {
    hide CompileLists, PlaceVars, Prologue;
    if n == |cs| {
      assert cs[..n] == cs;
    } else {
      var front := cs[..|cs| - 1];
      assert front[..n] == cs[..n];
      RestUnlinked(chip, st, front, n);
      assert cs[n..] == front[n..] + [cs[|cs| - 1]];
    }
  }
}
