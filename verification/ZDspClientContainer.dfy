/** The container of client objects: registration, deletion and the delivery of DSP interrupts. */
module ZDspClientContainers {
  import opened MachineWords
  import opened Wrappers
  import opened DspApi
  import opened DspVarResolver
  import opened DspVarDeviceNodes
  import opened ZdspClientImage
  import opened ClientRegistry
  import opened InterruptDispatch
  import opened ZdspClients

  function Recs(s: seq<ZdspClient>): (r: seq<ClientRec>)
    ensures |r| == |s| && forall i :: 0 <= i < |s| ==> r[i] == s[i].Rec()
  {
    if s == [] then [] else Recs(s[..|s| - 1]) + [s[|s| - 1].Rec()]
  }

  function RemoveAll(s: seq<ZdspClient>, c: ZdspClient): seq<ZdspClient> {
    if s == [] then [] else RemoveAll(s[..|s| - 1], c) + if s[|s| - 1] == c then [] else [s[|s| - 1]]
  }

  lemma {:induction false} RemovedRecs(s: seq<ZdspClient>, c: ZdspClient)
    requires forall i :: 0 <= i < |s| && s[i].Rec() == c.Rec() ==> s[i] == c
    ensures Recs(RemoveAll(s, c)) == Without(Recs(s), c.Rec())
  {
    if s == [] {
    } else {
      var front, last := s[..|s| - 1], s[|s| - 1];
      RemovedRecs(front, c);
      assert last.Rec() == c.Rec() <==> last == c;
      RecsOfAppended(RemoveAll(front, c), last);
    }
  }

  lemma RecsOfAppended(s: seq<ZdspClient>, c: ZdspClient)
    ensures Recs(s + [c]) == Recs(s) + [c.Rec()]
  {
    assert (s + [c])[..|s|] == s;
  }

  lemma {:induction false} RemovedMembers(s: seq<ZdspClient>, c: ZdspClient)
    ensures forall d :: d in RemoveAll(s, c) <==> d in s && d != c
  {
    if s == [] {
    } else {
      RemovedMembers(s[..|s| - 1], c);
    }
  }

  lemma RecIn(s: seq<ZdspClient>, c: ZdspClient)
    requires c in s
    ensures c.Rec() in Recs(s)
  {
    var i :| 0 <= i < |s| && s[i] == c;
    assert Recs(s)[i] == c.Rec();
  }

  function RecMap<K>(m: map<K, ZdspClient>): map<K, ClientRec> {
    map k <- m :: m[k].Rec()
  }

  lemma RecMapAt<K>(m: map<K, ZdspClient>, k: K)
    ensures k in RecMap(m) <==> k in m
    ensures k in m ==> RecMap(m)[k] == m[k].Rec()
    ensures m == map[] <==> RecMap(m) == map[]
  {
  }

  lemma RecMapWith<K>(m: map<K, ZdspClient>, k: K, c: ZdspClient)
    ensures RecMap(m[k := c]) == RecMap(m)[k := c.Rec()]
    ensures RecMap(m - {k}) == RecMap(m) - {k}
  {
  }

  /** In a list of distinct records one record means one object. */
  lemma SameRecSameClient(s: seq<ZdspClient>, c: ZdspClient, d: ZdspClient)
    requires Distinct(Recs(s)) && c in s && d in s && c.Rec() == d.Rec()
    ensures c == d
  {
    var i :| 0 <= i < |s| && s[i] == c;
    var j :| 0 <= j < |s| && s[j] == d;
    assert Recs(s)[i] == Recs(s)[j];
  }

  lemma {:induction false} RemovedNone(s: seq<ZdspClient>, c: ZdspClient)
    requires c !in s
    ensures RemoveAll(s, c) == s
  {
    if s == [] {
    } else {
      RemovedNone(s[..|s| - 1], c);
    }
  }

  lemma {:induction false} RemovedOne(s: seq<ZdspClient>, c: ZdspClient)
    requires Distinct(Recs(s)) && c in s
    ensures |RemoveAll(s, c)| == |s| - 1
  {
    var front, last := s[..|s| - 1], s[|s| - 1];
    assert s == front + [last];
    RecsOfAppended(front, last);
    assert Distinct(Recs(front)) by {
      assert forall i :: 0 <= i < |front| ==> Recs(s)[i] == Recs(front)[i];
    }
    if last == c {
      forall i | 0 <= i < |front| ensures front[i] != c {
        assert Recs(s)[i] != Recs(s)[|front|];
      }
      RemovedNone(front, c);
    } else {
      RemovedOne(front, c);
    }
  }

  lemma RemovedFromDistinct(s: seq<ZdspClient>, c: ZdspClient)
    requires Distinct(Recs(s)) && c in s
    ensures Recs(RemoveAll(s, c)) == Without(Recs(s), c.Rec())
  {
    hide Distinct, RemoveAll, Recs, Without;
    forall i | 0 <= i < |s| && s[i].Rec() == c.Rec() ensures s[i] == c {
      SameRecSameClient(s, s[i], c);
    }
    RemovedRecs(s, c);
  }

  class ZDspClientContainer {
    const chip: Chip
    const globals: GlobalVariableTable
    var clientsChronological: seq<ZdspClient>
    var clientsByProxyConnectionId: map<string, ZdspClient>
    var clientsByDspInterruptId: map<u16, ZdspClient>
    var dspSuperClient: ZdspClient?
    var currentDspInterruptId: u16

    ghost function View(): Registry
      reads this
    {
      Registry(Recs(clientsChronological), RecMap(clientsByProxyConnectionId), RecMap(clientsByDspInterruptId),
               if dspSuperClient == null then None else Some(dspSuperClient.Rec()),
               currentDspInterruptId)
    }

    /** The indexes and the super client refer to listed objects, all made for this chip. */
    predicate Referenced()
      reads this
    {
      && (forall n <- clientsByProxyConnectionId :: clientsByProxyConnectionId[n] in clientsChronological)
      && (forall id <- clientsByDspInterruptId :: clientsByDspInterruptId[id] in clientsChronological)
      && (dspSuperClient != null ==> dspSuperClient in clientsChronological)
      && (forall c <- clientsChronological :: c.chip == chip)
    }

    ghost predicate Valid()
      reads this, globals`instanceCount
    {
      Agrees(View()) && Referenced() && globals.instanceCount == |clientsChronological|
    }

    /** The globals of the last linking stay until the last client goes. */
    twostate predicate GlobalsFollow()
      reads this, globals
    {
      if old(clientsChronological) != [] && clientsChronological == [] then globals.entries == map[] && globals.size == 0
      else globals.entries == old(globals.entries) && globals.size == old(globals.size)
    }

    constructor (chip: Chip, globals: GlobalVariableTable)
      requires globals.instanceCount == 0
      ensures Valid() && View() == EMPTY_REGISTRY && this.chip == chip && this.globals == globals
    {
      this.chip, this.globals := chip, globals;
      clientsChronological, clientsByProxyConnectionId, clientsByDspInterruptId := [], map[], map[];
      dspSuperClient, currentDspInterruptId := null, 0;
    }

    method AddClient(netClient: nat, proxyConnectionId: string)
      requires Valid()
      modifies this, globals`instanceCount
      ensures Valid() && View() == Add(old(View()), netClient, proxyConnectionId)
    {
      hide Agrees, RecMap, Recs, Referenced;
      AddAgrees(View(), netClient, proxyConnectionId);
      RecMapAt(clientsByProxyConnectionId, proxyConnectionId);
      RecMapAt(clientsByDspInterruptId, NextId(currentDspInterruptId));
      if proxyConnectionId in clientsByProxyConnectionId {
        return;
      }
      CalcDspInterruptId();
      if currentDspInterruptId in clientsByDspInterruptId {
        return;
      }
      var client := new ZdspClient(chip, currentDspInterruptId, netClient, proxyConnectionId, globals);
      Register(client);
    }

    /** Appends a client to the list and enters it in both indexes. */
    method Register(client: ZdspClient)
      requires Referenced() && client.chip == chip
      modifies this
      ensures Referenced() && |clientsChronological| == |old(clientsChronological)| + 1
      ensures var reg, c := old(View()), client.Rec();
              View() == Registry(reg.chrono + [c], reg.byProxy[c.proxy := c], reg.byId[c.id := c], reg.super, reg.counter)
    {
      hide RecMap, Recs;
      RecsOfAppended(clientsChronological, client);
      RecMapWith(clientsByDspInterruptId, client.interruptId, client);
      RecMapWith(clientsByProxyConnectionId, client.proxyConnectionId, client);
      clientsChronological := clientsChronological + [client];
      clientsByDspInterruptId := clientsByDspInterruptId[client.interruptId := client];
      clientsByProxyConnectionId := clientsByProxyConnectionId[client.proxyConnectionId := client];
    }

    method CalcDspInterruptId()
      modifies this`currentDspInterruptId
      ensures currentDspInterruptId == NextId(old(currentDspInterruptId))
      ensures View() == old(View()).(counter := currentDspInterruptId) && (old(Referenced()) ==> Referenced())
    {
      currentDspInterruptId := Wrap16(currentDspInterruptId + 1);
      if currentDspInterruptId == 0 {
        currentDspInterruptId := Wrap16(currentDspInterruptId + 1);
      }
    }

    method DelClient(proxyConnectionId: string)
      requires Valid()
      modifies this, globals
      ensures Valid() && View() == Del(old(View()), proxyConnectionId) && GlobalsFollow()
      ensures old(clientsChronological) == [] ==> clientsChronological == []
    {
      hide Agrees, ClientRegistry.Forget, ResetOnNoClients, RecMap, Recs, Referenced;
      DelAgrees(View(), proxyConnectionId);
      RecMapAt(clientsByProxyConnectionId, proxyConnectionId);
      if proxyConnectionId !in clientsByProxyConnectionId {
        return;
      }
      IndexedIsListed(proxyConnectionId);
      var client := clientsByProxyConnectionId[proxyConnectionId];
      Forget(client);
      globals.Destroyed();
      ResetInterruptIdOnNoClients();
    }

    lemma IndexedIsListed(proxyConnectionId: string)
      requires Referenced() && proxyConnectionId in clientsByProxyConnectionId
      ensures clientsByProxyConnectionId[proxyConnectionId] in clientsChronological
    {
    }

    /** Takes a client out of the list, the indexes and the role of the super client. */
    method Forget(client: ZdspClient)
      requires Valid() && client in clientsChronological
      modifies this
      ensures Referenced() && View() == ClientRegistry.Forget(old(View()), client.Rec())
      ensures |clientsChronological| == |old(clientsChronological)| - 1
    {
      hide Without, Listed, Indexed, Distinct, RemoveAll, RecMap, Recs;
      RemovedMembers(clientsChronological, client);
      RemovedFromDistinct(clientsChronological, client);
      RemovedOne(clientsChronological, client);
      if dspSuperClient != null && dspSuperClient.Rec() == client.Rec() {
        SameRecSameClient(clientsChronological, dspSuperClient, client);
      }
      OthersKept(client);
      RecMapWith(clientsByProxyConnectionId, client.proxyConnectionId, client);
      RecMapWith(clientsByDspInterruptId, client.interruptId, client);
      clientsChronological := RemoveAll(clientsChronological, client);
      clientsByProxyConnectionId := clientsByProxyConnectionId - {client.proxyConnectionId};
      clientsByDspInterruptId := clientsByDspInterruptId - {client.interruptId};
      if dspSuperClient == client {
        dspSuperClient := null;
      }
    }

    lemma OthersKept(client: ZdspClient)
      requires Valid() && client in clientsChronological
      ensures forall n <- clientsByProxyConnectionId :: n != client.proxyConnectionId ==> clientsByProxyConnectionId[n] != client
      ensures forall id <- clientsByDspInterruptId :: id != client.interruptId ==> clientsByDspInterruptId[id] != client
    {
      hide Listed, Distinct;
      var reg := View();
      forall n | n in clientsByProxyConnectionId ensures clientsByProxyConnectionId[n].proxyConnectionId == n {
        RecMapAt(clientsByProxyConnectionId, n);
        assert reg.byProxy[n].proxy == n;
      }
      forall id | id in clientsByDspInterruptId ensures clientsByDspInterruptId[id].interruptId == id {
        RecMapAt(clientsByDspInterruptId, id);
        assert reg.byId[id].id == id;
      }
    }

    method ResetInterruptIdOnNoClients()
      modifies this`currentDspInterruptId
      ensures View() == ResetOnNoClients(old(View())) && (old(Referenced()) ==> Referenced())
    {
      assert RecMap(clientsByDspInterruptId) == map[] <==> clientsByDspInterruptId == map[];
      if clientsByDspInterruptId == map[] {
        currentDspInterruptId := 0;
      }
    }

    method CollectClients(veinPeer: nat) returns (clients: seq<ZdspClient>)
      ensures Recs(clients) == OfPeer(Recs(clientsChronological), veinPeer)
    {
      var all := clientsChronological;
      clients := [];
      for i := 0 to |all|
        invariant Recs(clients) == OfPeer(Recs(all[..i]), veinPeer)
      {
        assert all[..i + 1] == all[..i] + [all[i]];
        RecsOfAppended(all[..i], all[i]);
        OfPeerAppended(Recs(all[..i]), all[i].Rec(), veinPeer);
        if all[i].veinPeer == veinPeer {
          RecsOfAppended(clients, all[i]);
          clients := clients + [all[i]];
        }
      }
      assert all[..|all|] == all;
    }

    /** Deletes the clients one by one, each by its connection id. */
    method DelEachClient(clients: seq<ZdspClient>)
      requires Valid()
      modifies this, globals
      ensures Valid() && View() == DelEach(old(View()), Recs(clients)) && GlobalsFollow()
      ensures old(clientsChronological) == [] ==> clientsChronological == []
    {
      hide Valid, View, Del, Recs;
      ghost var reg := View();
      assert clients[..0] == [];
      assert DelEach(reg, Recs(clients[..0])) == reg;
      for i := 0 to |clients|
        invariant Valid() && View() == DelEach(reg, Recs(clients[..i])) && GlobalsFollow()
        invariant old(clientsChronological) == [] ==> clientsChronological == []
      {
        assert clients[..i + 1] == clients[..i] + [clients[i]];
        DelOneMore(reg, clients[..i], clients[i]);
        DelClient(clients[i].proxyConnectionId);
      }
      assert clients[..|clients|] == clients;
    }

    /** Collects the peer's clients first and deletes them then. */
    method DelClients(veinPeer: nat)
      requires Valid()
      modifies this, globals
      ensures Valid() && View() == DelPeer(old(View()), veinPeer) && GlobalsFollow()
    {
      hide Agrees, DelEach, OfPeer, ResetOnNoClients, RecMap, Recs;
      var clientsToDelete := CollectClients(veinPeer);
      DelPeerRemovesItsClients(View(), veinPeer);
      DelEachClient(clientsToDelete);
      ResetInterruptIdOnNoClients();
    }

    lemma DelOneMore(reg: Registry, s: seq<ZdspClient>, c: ZdspClient)
      ensures DelEach(reg, Recs(s + [c])) == Del(DelEach(reg, Recs(s)), c.proxyConnectionId)
    {
      hide Del;
      RecsOfAppended(s, c);
      assert Recs(s + [c])[..|s|] == Recs(s);
    }

    lemma OfPeerAppended(s: seq<ClientRec>, c: ClientRec, peer: nat)
      ensures OfPeer(s + [c], peer) == OfPeer(s, peer) + if c.peer == peer then [c] else []
    {
    }

    method DelAllClients()
      requires Valid()
      modifies this, globals
      ensures Valid() && View() == DelAll(old(View())) && GlobalsFollow()
    {
      hide Agrees, RecMap, Recs;
      ApplyAgrees(View(), DelAllOp);
      if dspSuperClient != null {
        RecIn(clientsChronological, dspSuperClient);
      }
      assert DelAll(View()) == Registry([], map[], map[], None, 0);
      for i := 0 to |clientsChronological|
        invariant globals.instanceCount == |clientsChronological| - i
        invariant clientsChronological == old(clientsChronological) && View() == old(View())
        invariant if 0 < i == |clientsChronological| then globals.entries == map[] && globals.size == 0
                  else globals.entries == old(globals.entries) && globals.size == old(globals.size)
      {
        globals.Destroyed();
      }
      dspSuperClient := null;
      clientsChronological, clientsByProxyConnectionId, clientsByDspInterruptId := [], map[], map[];
      NoClients();
      ResetInterruptIdOnNoClients();
    }

    lemma NoClients()
      requires clientsChronological == [] && clientsByProxyConnectionId == map[] && clientsByDspInterruptId == map[]
      requires dspSuperClient == null
      ensures View() == Registry([], map[], map[], None, currentDspInterruptId)
    {
      RecMapAt(clientsByProxyConnectionId, "");
      RecMapAt(clientsByDspInterruptId, 0);
    }

    /** The first client that asks becomes the super client. */
    method MakeSuperClient(dspClient: ZdspClient) returns (ok: bool)
      requires Valid() && dspClient in clientsChronological
      modifies this`dspSuperClient
      ensures Valid() && ok == (old(dspSuperClient) == null)
      ensures View() == MakeSuper(old(View()), dspClient.proxyConnectionId)
    {
      hide Agrees;
      RecIn(clientsChronological, dspClient);
      EnteredInAgreeing(View(), dspClient.Rec());
      ApplyAgrees(View(), SuperOp(dspClient.proxyConnectionId));
      ok := dspSuperClient == null;
      if ok {
        dspSuperClient := dspClient;
      }
    }

    /** The object with this id is the one whose record the registry has under it. */
    method FindByInterruptId(word: u32) returns (client: ZdspClient?)
      requires Valid()
      ensures (if client == null then None else Some(client.Rec())) == FindClient(View(), word)
      ensures client != null && dspSuperClient != null ==>
                (client == dspSuperClient <==> FindClient(View(), word) == View().super)
    {
      hide Agrees;
      var process := word / 0x1_0000;
      client := null;
      if process in clientsByDspInterruptId {
        client := clientsByDspInterruptId[process];
        if dspSuperClient != null && client.Rec() == dspSuperClient.Rec() {
          DistinctList();
          SameRecSameClient(clientsChronological, client, dspSuperClient);
        }
      }
    }

    lemma DistinctList()
      requires Valid()
      ensures Distinct(Recs(clientsChronological))
    {
    }

    /** The device is read and written with the names the first client knows, or with the system's if there is none. */
    function Resolver(): VarHash
      reads this, clientsChronological
    {
      if clientsChronological == [] then SystemHash(chip) else HashOf(chip, clientsChronological[0].Image())
    }

    /** The client variables that resolver knows. */
    function FirstKnown(): seq<DspVar>
      reads this, clientsChronological
    {
      if clientsChronological == [] then [] else Known(clientsChronological[0].Image())
    }

    lemma ResolverIs()
      ensures Resolver() == AddToHash(SystemHash(chip), FirstKnown())
    {
      hide SystemHash;
    }

    /** Reads the package of interrupt words, tells the clients, and acknowledges on every path, once, to the word that the
        resolver has under CTRLACK; only if that lies at the address that stands for an unknown name, nothing is written. */
    method HandleDspInterrupt(device: DspDevice, wire: Wire)
      requires Valid()
      modifies device, wire
      ensures device.writes == old(device.writes) + AckWrites(Resolver())
      ensures |device.writes| == |old(device.writes)| + if Writable(FirstKnown()) then 1 else 0
      ensures BufferIn(old(device.memory), Resolver()).Some?
      ensures (forall k :: k >= old(device.step) ==> device.answers(k)) ==>
                && device.memory == Acknowledged(old(device.memory), Resolver())
                && wire.sent == old(wire.sent)
                     + if clientsChronological != [] then Dispatch(View(), BufferIn(old(device.memory), Resolver()).value) else []
      ensures wire.sent == old(wire.sent)
                + if clientsChronological != [] && device.answers(old(device.step))
                  then Dispatch(View(), BufferIn(old(device.memory), Resolver()).value) else []
    {
      hide Valid, SystemHash, HashOf, AckWrites, Acknowledged, BufferIn, Dispatch, View, Resolver, FirstKnown, Writable;
      var hash := Resolver();
      ResolverIs();
      AcknowledgeWrittenIff(chip, FirstKnown());
      ResolverKnowsBuffer(device.memory);
      if clientsChronological != [] {
        var buffer := ReadInterruptBuffer(device, hash);
        if buffer.Some? {
          NotifyClients(buffer.value, wire);
        }
      }
      WriteAcknowledge(device, hash);
    }

    lemma ResolverKnowsBuffer(memory: Memory)
      ensures BufferIn(memory, Resolver()).Some?
    {
      hide SystemHash, AddToHash, Resolver, FirstKnown;
      ResolverIs();
      ClientBuffer(chip, FirstKnown());
    }

    method NotifyClients(b: Buffer, wire: Wire)
      requires Valid()
      modifies wire
      ensures wire.sent == old(wire.sent) + Dispatch(View(), b)
    {
      hide Agrees, FindClient, IdOf, ParamOf, RecMap, Recs, NotifySuper, NotifyOthers, Valid;
      assert View().super.Some? <==> dspSuperClient != null;
      hide View;
      var interruptCount := ToInt32(b[0]);
      if interruptCount <= MAX_PENDING {
        if interruptCount >= 0 && dspSuperClient == null {
          NoSuperNoNotification(View(), b, interruptCount);
        }
        if dspSuperClient != null {
          NotifySuperClient(b, interruptCount, wire);
        }
        NotifyEachOther(b, interruptCount, wire);
      }
    }

    /** Tells the clients of all words in turn, leaving out the super client. */
    method NotifyEachOther(b: Buffer, interruptCount: int, wire: Wire)
      requires Valid() && interruptCount <= MAX_PENDING
      modifies wire
      ensures wire.sent == old(wire.sent)
                + if interruptCount >= 0 then NotifyOthers(View(), b, interruptCount) else []
    {
      hide Agrees, FindClient, IdOf, ParamOf, RecMap, Recs, NotifyOthers;
      assert View().super.Some? <==> dspSuperClient != null;
      hide View, Valid;
      ghost var reg := View();
      assert NotifyOthers(reg, b, 0) == [] by {
        NotifyNone(reg, b);
      }
      var i := 1;
      while i < interruptCount + 1
        invariant 1 <= i && (0 <= interruptCount ==> i <= interruptCount + 1) && (interruptCount < 0 ==> i == 1)
        invariant wire.sent == old(wire.sent) + NotifyOthers(reg, b, i - 1)
      {
        var clientToNotify := FindByInterruptId(b[i]);
        NotifyOthersNext(reg, b, i);
        if clientToNotify != null && clientToNotify != dspSuperClient {
          clientToNotify.SendInterruptNotification(wire, b[i]);
        }
        i := i + 1;
      }
    }

    /** Looks for the super client from the end of the package and hands it the package's last word. */
    method NotifySuperClient(b: Buffer, interruptCount: int, wire: Wire)
      requires Valid() && dspSuperClient != null && interruptCount <= MAX_PENDING
      modifies wire
      ensures wire.sent == old(wire.sent)
                + if interruptCount >= 0 then NotifySuper(View(), b, interruptCount) else []
    {
      hide Agrees, FindClient, IdOf, ParamOf;
      var i := interruptCount;
      while i >= 1
        invariant i <= interruptCount && (interruptCount >= 0 ==> 0 <= i)
        invariant wire.sent == old(wire.sent)
        invariant forall k :: i < k <= interruptCount && 1 <= k ==> FindClient(View(), b[k]) != View().super
      {
        var clientToNotify := FindByInterruptId(b[i]);
        if clientToNotify != null && clientToNotify == dspSuperClient {
          clientToNotify.SendInterruptNotification(wire, b[interruptCount]);
          return;
        }
        i := i - 1;
      }
      assert interruptCount >= 0 ==> !NamesSuper(View(), b, interruptCount);
    }
  }
}
