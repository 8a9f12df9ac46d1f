/** The interface through which clients occupy and release error calculator channels. */
module SecMainAndChannelInterfaces {
  import opened Wrappers
  import opened SecChannels
  import A = SecAllocation

  class SecMainAndChannelInterface {
    const channels: seq<SecChannel>
    // the source keeps the names of the channels, which are numbered
    var clientECalcHash: map<string, seq<nat>>
    var peerClientsHash: map<int, seq<string>>

    predicate Valid() {
      && (forall i, j :: 0 <= i < j < |channels| ==> channels[i] != channels[j])
      && (forall i :: 0 <= i < |channels| ==> channels[i].nr == i)
    }

    constructor (channels: seq<SecChannel>)
      requires forall i, j :: 0 <= i < j < |channels| ==> channels[i] != channels[j]
      requires forall i :: 0 <= i < |channels| ==> channels[i].nr == i
      ensures this.channels == channels && Valid() && clientECalcHash == map[] && peerClientsHash == map[]
    {
      this.channels := channels;
      clientECalcHash, peerClientsHash := map[], map[];
    }

    function Slots(): (r: seq<A.Slot>)
      reads channels
      ensures |r| == |channels|
    {
      seq(|channels|, i requires 0 <= i < |channels| reads channels => A.Slot(channels[i].bSet, channels[i].clientId))
    }

    function View(): A.State
      reads this, channels
    {
      A.State(Slots(), clientECalcHash, peerClientsHash)
    }

    method SelectFree(n: nat) returns (selected: seq<nat>)
      requires 0 < n <= |channels|
      ensures selected == A.FirstFree(Slots(), 0, n)
    {
      var remaining := n;
      selected := [];
      var i := 0;
      while i < |channels|
        invariant 0 <= i <= |channels| && (i < |channels| ==> remaining > 0)
        invariant selected + A.FirstFree(Slots(), i, remaining) == A.FirstFree(Slots(), 0, n)
      {
        if channels[i].IsFree() {
          selected := selected + [i];
          remaining := remaining - 1;
        }
        i := i + 1;
        if remaining == 0 {
          break;
        }
      }
    }

    /** Occupies free channels, one after the other. */
    method OccupyAll(selected: seq<nat>, id: string)
      requires Valid() && forall c <- selected :: c < |channels| && !channels[c].bSet
      requires forall i, j :: 0 <= i < j < |selected| ==> selected[i] != selected[j]
      modifies channels
      ensures Slots() == A.Occupied(old(Slots()), selected, id)
    {
      for k := 0 to |selected|
        invariant forall c :: 0 <= c < |channels| ==>
                    A.Slot(channels[c].bSet, channels[c].clientId) ==
                    if c in selected[..k] then A.Slot(true, id) else old(A.Slot(channels[c].bSet, channels[c].clientId))
      {
        assert selected[k] in selected && selected[k] !in selected[..k];
        var ok := channels[selected[k]].SetClient(id);
        assert selected[..k + 1] == selected[..k] + [selected[k]];
      }
      assert selected[..|selected|] == selected;
    }

    method ScpiSetChannels(par: Option<int>, clientId: string, peer: int) returns (reply: A.Reply)
      requires Valid()
      modifies this, channels
      ensures reply == A.SetChannels(old(View()), par, clientId, peer).reply
      ensures View() == A.SetChannels(old(View()), par, clientId, peer).state
    {
      if par.None? || par.value <= 0 || par.value > |channels| {
        return A.Nak;
      }
      var n: nat := par.value;
      var selected := SelectFree(n);
      A.FirstFreeIsLowest(Slots(), 0, n);
      if |selected| < n {
        return A.Busy;
      }
      clientECalcHash := clientECalcHash[clientId := selected];
      var clients := if peer in peerClientsHash then peerClientsHash[peer] else [];
      if clientId !in clients {
        peerClientsHash := peerClientsHash[peer := clients + [clientId]];
      }
      OccupyAll(selected, clientId);
      reply := A.Granted(selected);
    }

    method FreeNamed(name: nat)
      requires Valid()
      modifies channels
      ensures Slots() == A.Released(old(Slots()), [name])
    {
      for i := 0 to |channels|
        invariant forall c :: 0 <= c < |channels| ==>
                    A.Slot(channels[c].bSet, channels[c].clientId) ==
                    var s := old(A.Slot(channels[c].bSet, channels[c].clientId));
                    if c < i && c == name then s.(occupied := false) else s
      {
        if channels[i].nr == name {
          channels[i].Free();
        }
      }
    }

    static lemma ReleasedOneMore(slots: seq<A.Slot>, channels: seq<nat>, c: nat)
      ensures A.Released(A.Released(slots, channels), [c]) == A.Released(slots, channels + [c])
    {
    }

    method FreeChannelsFromAClient(clientId: string) returns (ok: bool)
      requires Valid()
      modifies channels
      ensures View() == A.FreeChannels(old(View()), clientId).state
      ensures ok == (A.FreeChannels(old(View()), clientId).reply == A.Ack)
    {
      hide A.Released;
      if clientId in clientECalcHash {
        var record := clientECalcHash[clientId];
        NoneReleased(Slots());
        for k := 0 to |record|
          invariant Slots() == A.Released(old(Slots()), record[..k])
        {
          ReleasedOneMore(old(Slots()), record[..k], record[k]);
          assert record[..k + 1] == record[..k] + [record[k]];
          FreeNamed(record[k]);
        }
        assert record[..|record|] == record;
        return true;
      }
      return false;
    }

    static lemma NoneReleased(slots: seq<A.Slot>)
      ensures A.Released(slots, []) == slots
    {
    }

    method FreeChannelsForThisPeer(peer: int) returns (ok: bool)
      requires Valid()
      modifies channels
      ensures View() == A.Step(old(View()), A.Disconnect(peer)).state
      ensures ok == (A.Step(old(View()), A.Disconnect(peer)).reply == A.Ack)
    {
      hide A.FreeChannels;
      var clients := if peer in peerClientsHash then peerClientsHash[peer] else [];
      for k := 0 to |clients|
        invariant A.FreeClients(old(View()), clients) == A.FreeClients(View(), clients[k..])
      {
        FirstClient(View(), clients[k..]);
        var freed := FreeChannelsFromAClient(clients[k]);
        if !freed {
          return false;
        }
      }
      return true;
    }

    static lemma FirstClient(s: A.State, clients: seq<string>)
      requires clients != []
      ensures var first := A.FreeChannels(s, clients[0]);
              && (first.reply == A.Ack || first.reply == A.Nak)
              && A.FreeClients(s, clients) == if first.reply == A.Ack then A.FreeClients(first.state, clients[1..]) else first
    {
    }

    method ScpiFreeChannels(clientId: string) returns (reply: A.Reply)
      requires Valid()
      modifies channels
      ensures View() == A.FreeChannels(old(View()), clientId).state
      ensures reply == A.FreeChannels(old(View()), clientId).reply
    {
      reply := A.Nak;
      var ok := FreeChannelsFromAClient(clientId);
      if ok {
        reply := A.Ack;
      }
    }
  }
}
