/** Clients occupy error calculator channels and release them by the record kept for each client. */
module SecAllocation {
  import opened Wrappers

  /** A released channel keeps the id of its last client. */
  datatype Slot = Slot(occupied: bool, clientId: string)

  /** The record of a client lists the channels granted last. Records and the clients of a peer are never removed. */
  datatype State = State(slots: seq<Slot>, records: map<string, seq<nat>>, peers: map<int, seq<string>>) {
    function Clients(peer: int): seq<string> {
      if peer in peers then peers[peer] else []
    }
  }

  datatype Reply = Granted(channels: seq<nat>) | Busy | Nak | Ack

  datatype Result = Result(state: State, reply: Reply)

  function FirstFree(slots: seq<Slot>, from: nat, n: nat): seq<nat>
    requires from <= |slots|
    decreases |slots| - from
  {
    if n == 0 || from == |slots| then []
    else if !slots[from].occupied then [from] + FirstFree(slots, from + 1, n - 1)
    else FirstFree(slots, from + 1, n)
  }

  function Occupied(slots: seq<Slot>, channels: seq<nat>, clientId: string): (r: seq<Slot>)
    ensures |r| == |slots|
  {
    seq(|slots|, i requires 0 <= i < |slots| => if i in channels then Slot(true, clientId) else slots[i])
  }

  function Released(slots: seq<Slot>, channels: seq<nat>): (r: seq<Slot>)
    ensures |r| == |slots|
  {
    seq(|slots|, i requires 0 <= i < |slots| => if i in channels then slots[i].(occupied := false) else slots[i])
  }

  function SetChannels(s: State, par: Option<int>, clientId: string, peer: int): Result {
    if par.None? || par.value <= 0 || par.value > |s.slots| then Result(s, Nak)
    else
      var selected := FirstFree(s.slots, 0, par.value);
      if |selected| < par.value then Result(s, Busy)
      else
        var clients := s.Clients(peer);
        Result(State(Occupied(s.slots, selected, clientId), s.records[clientId := selected],
                     if clientId in clients then s.peers else s.peers[peer := clients + [clientId]]),
               Granted(selected))
  }

  function FreeChannels(s: State, clientId: string): Result {
    if clientId !in s.records then Result(s, Nak)
    else Result(s.(slots := Released(s.slots, s.records[clientId])), Ack)
  }

  /** Stops at the first client without a record. */
  function FreeClients(s: State, clients: seq<string>): Result
    decreases |clients|
  {
    if clients == [] then Result(s, Ack)
    else
      var first := FreeChannels(s, clients[0]);
      if first.reply == Nak then first else FreeClients(first.state, clients[1..])
  }

  datatype Event = Set(par: Option<int>, clientId: string, peer: int) | Free(clientId: string) | Disconnect(peer: int)

  function Step(s: State, e: Event): Result {
    match e
    case Set(par, clientId, peer) => SetChannels(s, par, clientId, peer)
    case Free(clientId) => FreeChannels(s, clientId)
    case Disconnect(peer) => FreeClients(s, s.Clients(peer))
  }

  function Init(count: nat): State {
    State(seq(count, _ => Slot(false, "")), map[], map[])
  }

  function Run(count: nat, events: seq<Event>): State {
    if events == [] then Init(count) else Step(Run(count, events[..|events| - 1]), events[|events| - 1]).state
  }

  // What one request does

  /** The selection is the n lowest free channels, or all free channels if there are fewer. */
  lemma {:induction false} FirstFreeIsLowest(slots: seq<Slot>, from: nat, n: nat)
    requires from <= |slots|
    ensures var r := FirstFree(slots, from, n);
            && |r| <= n
            && (forall i :: 0 <= i < |r| ==> from <= r[i] < |slots| && !slots[r[i]].occupied)
            && (forall i, j :: 0 <= i < j < |r| ==> r[i] < r[j])
            && (forall c: nat :: from <= c < |slots| && !slots[c].occupied && c !in r ==>
                  |r| == n && forall i :: 0 <= i < |r| ==> r[i] < c)
    decreases |slots| - from
  {
    if n == 0 || from == |slots| {
    } else if !slots[from].occupied {
      FirstFreeIsLowest(slots, from + 1, n - 1);
      var rest := FirstFree(slots, from + 1, n - 1);
      assert FirstFree(slots, from, n) == [from] + rest;
      hide FirstFree;
      StillAscending(slots, from, rest);
      StillLowest(slots, from, n, rest);
    } else {
      FirstFreeIsLowest(slots, from + 1, n);
    }
  }

  lemma StillAscending(slots: seq<Slot>, from: nat, rest: seq<nat>)
    requires forall i :: 0 <= i < |rest| ==> from < rest[i]
    requires forall i, j :: 0 <= i < j < |rest| ==> rest[i] < rest[j]
    ensures var r := [from] + rest; forall i, j :: 0 <= i < j < |r| ==> r[i] < r[j]
  {
    var r := [from] + rest;
    forall i, j | 0 <= i < j < |r| ensures r[i] < r[j] {
      assert r[j] == rest[j - 1];
    }
  }

  lemma StillLowest(slots: seq<Slot>, from: nat, n: nat, rest: seq<nat>)
    requires from < |slots| && n > 0
    requires forall c: nat :: from + 1 <= c < |slots| && !slots[c].occupied && c !in rest ==>
               |rest| == n - 1 && forall i :: 0 <= i < |rest| ==> rest[i] < c
    ensures var r := [from] + rest;
            forall c: nat :: from <= c < |slots| && !slots[c].occupied && c !in r ==>
              |r| == n && forall i :: 0 <= i < |r| ==> r[i] < c
  {
    var r := [from] + rest;
    forall c: nat | from <= c < |slots| && !slots[c].occupied && c !in r
      ensures |r| == n && forall i :: 0 <= i < |r| ==> r[i] < c
    {
      assert r[0] == from;
      assert c !in rest;
      forall i | 0 <= i < |r| ensures r[i] < c {
        assert i > 0 ==> r[i] == rest[i - 1];
      }
    }
  }

  /** A request is granted in full or changes nothing. What is granted are the lowest free channels, now held by the
      client; every other channel is as before. */
  lemma GrantIsAllOrNothing(s: State, par: Option<int>, clientId: string, peer: int)
    ensures var r := SetChannels(s, par, clientId, peer);
            && (!r.reply.Granted? ==> r.state == s)
            && (r.reply.Granted? <==> par.Some? && 0 < par.value <= |FreeSet(s.slots)|)
            && (r.reply.Busy? <==> par.Some? && |FreeSet(s.slots)| < par.value && 0 < par.value <= |s.slots|)
            && (r.reply.Granted? ==>
                  && |r.reply.channels| == par.value && |r.state.slots| == |s.slots|
                  && (forall c <- r.reply.channels :: c < |s.slots| && !s.slots[c].occupied)
                  && (forall c: nat :: c < |s.slots| ==>
                        r.state.slots[c] == if c in r.reply.channels then Slot(true, clientId) else s.slots[c])
                  && (forall c: nat, d: nat ::
                        c < |s.slots| && !s.slots[c].occupied && c !in r.reply.channels && d in r.reply.channels ==> d < c)
                  && r.state.records == s.records[clientId := r.reply.channels])
  {
    if par.Some? && 0 < par.value <= |s.slots| {
      FirstFreeIsLowest(s.slots, 0, par.value);
      FirstFreeCount(s.slots, 0, par.value);
      FreeSetIsFrom(s.slots);
    } else {
      FreeSetIsFrom(s.slots);
      FreeFromSize(s.slots, 0);
    }
  }

  function FreeSet(slots: seq<Slot>): set<nat> {
    set c: nat | c < |slots| && !slots[c].occupied
  }

  function FreeFrom(slots: seq<Slot>, from: nat): set<nat> {
    set c: nat | from <= c < |slots| && !slots[c].occupied
  }

  lemma FreeSetIsFrom(slots: seq<Slot>)
    ensures FreeSet(slots) == FreeFrom(slots, 0)
  {
  }

  lemma FreeFromStep(slots: seq<Slot>, from: nat)
    requires from < |slots|
    ensures |FreeFrom(slots, from)| == |FreeFrom(slots, from + 1)| + if slots[from].occupied then 0 else 1
  {
    var rest := FreeFrom(slots, from + 1);
    assert FreeFrom(slots, from) == if slots[from].occupied then rest else {from} + rest;
  }

  lemma {:induction false} FreeFromSize(slots: seq<Slot>, from: nat)
    requires from <= |slots|
    ensures |FreeFrom(slots, from)| <= |slots| - from
    decreases |slots| - from
  {
    if from == |slots| {
      assert FreeFrom(slots, from) == {};
    } else {
      FreeFromStep(slots, from);
      FreeFromSize(slots, from + 1);
    }
  }

  lemma {:induction false} FirstFreeCount(slots: seq<Slot>, from: nat, n: nat)
    requires from <= |slots|
    ensures |FirstFree(slots, from, n)| == if n <= |FreeFrom(slots, from)| then n else |FreeFrom(slots, from)|
    decreases |slots| - from
  {
    if from == |slots| {
      assert FreeFrom(slots, from) == {};
    } else if n > 0 {
      FreeFromStep(slots, from);
      FirstFreeCount(slots, from + 1, if slots[from].occupied then n else n - 1);
    }
  }

  // Ownership

  function Owned(slots: seq<Slot>, clientId: string): set<nat> {
    set c: nat | c < |slots| && slots[c] == Slot(true, clientId)
  }

  function OccupiedSet(slots: seq<Slot>): set<nat> {
    set c: nat | c < |slots| && slots[c].occupied
  }

  function ToSet(channels: seq<nat>): set<nat> {
    set c <- channels
  }

  /** Every occupied channel of the client's record is held by the client: what the channels themselves can tell. */
  predicate HoldsOwn(s: State, clientId: string) {
    clientId in s.records ==>
      forall c <- s.records[clientId] :: c < |s.slots| && s.slots[c].occupied ==> s.slots[c].clientId == clientId
  }

  /** Every occupied channel in the records of these clients is held by one of them. */
  predicate HoldOwn(s: State, clients: seq<string>) {
    forall clientId <- clients :: clientId in s.records ==>
      forall c <- s.records[clientId] :: c < |s.slots| && s.slots[c].occupied ==> s.slots[c].clientId in clients
  }

  /** A client that holds channels has exactly them in its record. */
  ghost predicate RecordsExact(s: State) {
    forall clientId: string :: Owned(s.slots, clientId) != {} ==>
      clientId in s.records && ToSet(s.records[clientId]) == Owned(s.slots, clientId)
  }

  /** A release frees what is occupied in the record, whoever holds it. */
  lemma FreeReleasesRecord(s: State, clientId: string)
    requires clientId in s.records
    ensures OccupiedSet(FreeChannels(s, clientId).state.slots) == OccupiedSet(s.slots) - ToSet(s.records[clientId])
  {
  }

  /** With exact records a release frees exactly the client's own channels, if and only if the record holds no channel
      that has gone to another client since. */
  lemma FreeReleasesOwnIff(s: State, clientId: string)
    requires RecordsExact(s)
    ensures OccupiedSet(FreeChannels(s, clientId).state.slots) == OccupiedSet(s.slots) - Owned(s.slots, clientId)
            <==> HoldsOwn(s, clientId)
  {
    var r := FreeChannels(s, clientId).state;
    if clientId in s.records {
      FreeReleasesRecord(s, clientId);
      var record := s.records[clientId];
      if !HoldsOwn(s, clientId) {
        var c :| c in record && c < |s.slots| && s.slots[c].occupied && s.slots[c].clientId != clientId;
        assert c in OccupiedSet(s.slots) && c in ToSet(record) && c !in Owned(s.slots, clientId);
        assert c !in OccupiedSet(r.slots);
      } else {
        OwnInRecord(s, clientId);
      }
    } else {
      assert Owned(s.slots, clientId) == {};
    }
  }

  lemma OwnInRecord(s: State, clientId: string)
    requires RecordsExact(s) && HoldsOwn(s, clientId) && clientId in s.records
    ensures OccupiedSet(s.slots) - ToSet(s.records[clientId]) == OccupiedSet(s.slots) - Owned(s.slots, clientId)
  {
    forall c | c in OccupiedSet(s.slots) ensures c in ToSet(s.records[clientId]) <==> c in Owned(s.slots, clientId) {
      if c in Owned(s.slots, clientId) {
        assert Owned(s.slots, clientId) != {};
      }
    }
  }

  // Every run

  /** Records name existing channels, and every client of a peer and every holder of a channel has a record. */
  ghost predicate Recorded(s: State) {
    && (forall clientId <- s.records :: forall c <- s.records[clientId] :: c < |s.slots|)
    && (forall peer <- s.peers :: forall clientId <- s.peers[peer] :: clientId in s.records)
    && (forall c: nat :: c < |s.slots| && s.slots[c].occupied ==> s.slots[c].clientId in s.records)
  }

  lemma SetKeepsRecorded(s: State, par: Option<int>, clientId: string, peer: int)
    requires Recorded(s)
    ensures Recorded(SetChannels(s, par, clientId, peer).state)
  {
    if par.Some? && 0 < par.value <= |s.slots| {
      FirstFreeIsLowest(s.slots, 0, par.value);
    }
  }

  lemma {:induction false} FreeClientsKeepsRecorded(s: State, clients: seq<string>)
    requires Recorded(s) && forall clientId <- clients :: clientId in s.records
    ensures var r := FreeClients(s, clients);
            r.reply == Ack && Recorded(r.state) && r.state.records == s.records && |r.state.slots| == |s.slots|
    decreases |clients|
  {
    if clients == [] {
    } else {
      FreeClientsKeepsRecorded(FreeChannels(s, clients[0]).state, clients[1..]);
    }
  }

  lemma {:induction false} RunIsRecorded(count: nat, events: seq<Event>)
    ensures Recorded(Run(count, events)) && |Run(count, events).slots| == count
  {
    if events == [] {
    } else {
      hide Recorded;
      var s := Run(count, events[..|events| - 1]);
      RunIsRecorded(count, events[..|events| - 1]);
      match events[|events| - 1]
      case Set(par, clientId, peer) => SetKeepsRecorded(s, par, clientId, peer);
      case Free(clientId) => FreeKeepsRecorded(s, clientId);
      case Disconnect(peer) =>
        ClientsHaveRecords(s, peer);
        FreeClientsKeepsRecorded(s, s.Clients(peer));
    }
  }

  lemma FreeKeepsRecorded(s: State, clientId: string)
    requires Recorded(s)
    ensures Recorded(FreeChannels(s, clientId).state)
  {
  }

  lemma ClientsHaveRecords(s: State, peer: int)
    requires Recorded(s)
    ensures forall clientId <- s.Clients(peer) :: clientId in s.records
  {
  }

  /** In every run a disconnect succeeds: no client of the peer lacks a record, so none is passed over. */
  lemma DisconnectSucceeds(count: nat, events: seq<Event>, peer: int)
    ensures Step(Run(count, events), Disconnect(peer)).reply == Ack
  {
    RunIsRecorded(count, events);
    ClientsHaveRecords(Run(count, events), peer);
    FreeClientsKeepsRecorded(Run(count, events), Run(count, events).Clients(peer));
  }

  // Who belongs to a peer

  /** This peer has been granted channels for this client. */
  predicate GrantedVia(count: nat, events: seq<Event>, clientId: string, peer: int) {
    if events == [] then false
    else
      var before, e := events[..|events| - 1], events[|events| - 1];
      || GrantedVia(count, before, clientId, peer)
      || (e.Set? && e.clientId == clientId && e.peer == peer && Step(Run(count, before), e).reply.Granted?)
  }

  lemma {:induction false} FreeClientsKeepsPeers(s: State, clients: seq<string>)
    ensures FreeClients(s, clients).state.peers == s.peers
    decreases |clients|
  {
    if clients == [] {
    } else {
      FreeClientsKeepsPeers(FreeChannels(s, clients[0]).state, clients[1..]);
    }
  }

  lemma StepPeers(s: State, e: Event, peer: int)
    ensures var t := Step(s, e).state;
            t.Clients(peer) ==
              if e.Set? && e.peer == peer && Step(s, e).reply.Granted? && e.clientId !in s.Clients(peer)
              then s.Clients(peer) + [e.clientId] else s.Clients(peer)
  {
    hide FirstFree;
    match e
    case Set(par, clientId, p) =>
    case Free(clientId) =>
    case Disconnect(p) => FreeClientsKeepsPeers(s, s.Clients(p));
  }

  /** Over every run the clients of a peer are exactly those that were granted channels by a request of that peer, each
      once. */
  lemma {:induction false} ClientsAreGrantedVia(count: nat, events: seq<Event>, clientId: string, peer: int)
    ensures clientId in Run(count, events).Clients(peer) <==> GrantedVia(count, events, clientId, peer)
    ensures var cs := Run(count, events).Clients(peer); forall i, j :: 0 <= i < j < |cs| ==> cs[i] != cs[j]
  {
    hide Step;
    if events == [] {
    } else {
      var before, e := events[..|events| - 1], events[|events| - 1];
      ClientsAreGrantedVia(count, before, clientId, peer);
      StepPeers(Run(count, before), e, peer);
    }
  }

  // Runs without stale or overwritten records

  /** The request can be granted. */
  predicate Grantable(s: State, par: Option<int>) {
    par.Some? && 0 < par.value <= |FreeSet(s.slots)|
  }

  /** No client is granted channels while it holds some, and only records whose channels have not gone to others are
      replayed: to other clients on a release, to clients outside the peer on a disconnect. */
  predicate Clean(s: State, e: Event) {
    match e
    case Set(par, clientId, _) => Grantable(s, par) ==> Owned(s.slots, clientId) == {}
    case Free(clientId) => HoldsOwn(s, clientId)
    case Disconnect(peer) => HoldOwn(s, s.Clients(peer))
  }

  predicate CleanRun(count: nat, events: seq<Event>) {
    events == [] ||
    (CleanRun(count, events[..|events| - 1]) && Clean(Run(count, events[..|events| - 1]), events[|events| - 1]))
  }

  /** What a granted request adds to what the clients hold. */
  lemma GrantedOwns(s: State, par: Option<int>, clientId: string, peer: int)
    requires SetChannels(s, par, clientId, peer).reply.Granted?
    ensures var r := SetChannels(s, par, clientId, peer);
            && Owned(r.state.slots, clientId) == Owned(s.slots, clientId) + ToSet(r.reply.channels)
            && Owned(s.slots, clientId) !! ToSet(r.reply.channels)
            && (forall d: string :: d != clientId ==> Owned(r.state.slots, d) == Owned(s.slots, d))
  {
    GrantIsAllOrNothing(s, par, clientId, peer);
    var r := SetChannels(s, par, clientId, peer);
    forall d: string | d != clientId ensures Owned(r.state.slots, d) == Owned(s.slots, d) {
      forall c: nat | c < |s.slots| ensures c in Owned(r.state.slots, d) <==> c in Owned(s.slots, d) {
      }
    }
  }

  /** A granted request keeps the records exact if and only if its client held nothing: otherwise the record of what it
      held is lost. */
  lemma GrantKeepsExactIff(s: State, par: Option<int>, clientId: string, peer: int)
    requires RecordsExact(s) && SetChannels(s, par, clientId, peer).reply.Granted?
    ensures RecordsExact(SetChannels(s, par, clientId, peer).state) <==> Owned(s.slots, clientId) == {}
  {
    GrantIsAllOrNothing(s, par, clientId, peer);
    GrantedOwns(s, par, clientId, peer);
    var r := SetChannels(s, par, clientId, peer);
    hide SetChannels, Owned, ToSet;
    if Owned(s.slots, clientId) == {} {
      ExactAfterSet(s, r.state, clientId, r.reply.channels);
    }
  }

  lemma SetKeepsExact(s: State, par: Option<int>, clientId: string, peer: int)
    requires RecordsExact(s) && (Grantable(s, par) ==> Owned(s.slots, clientId) == {})
    ensures RecordsExact(SetChannels(s, par, clientId, peer).state)
  {
    hide RecordsExact;
    GrantIsAllOrNothing(s, par, clientId, peer);
    if SetChannels(s, par, clientId, peer).reply.Granted? {
      GrantKeepsExactIff(s, par, clientId, peer);
    }
  }

  lemma ExactAfterSet(s: State, t: State, clientId: string, channels: seq<nat>)
    requires RecordsExact(s) && t.records == s.records[clientId := channels]
    requires Owned(t.slots, clientId) == ToSet(channels)
    requires forall d: string :: d != clientId ==> Owned(t.slots, d) == Owned(s.slots, d)
    ensures RecordsExact(t)
  {
    hide Owned, ToSet;
  }

  lemma FreeKeepsExact(s: State, clientId: string)
    requires RecordsExact(s) && HoldsOwn(s, clientId)
    ensures var t := FreeChannels(s, clientId).state;
            && RecordsExact(t) && Owned(t.slots, clientId) == {}
            && (forall d: string :: d != clientId ==> Owned(t.slots, d) == Owned(s.slots, d))
  {
    var t := FreeChannels(s, clientId).state;
    if clientId in s.records {
      var record := s.records[clientId];
      forall d: string | d != clientId ensures Owned(t.slots, d) == Owned(s.slots, d) {
        forall c: nat | c < |s.slots| ensures c in Owned(t.slots, d) <==> c in Owned(s.slots, d) {
        }
      }
      forall c: nat | c < |s.slots| ensures c !in Owned(t.slots, clientId) {
        if c in Owned(s.slots, clientId) {
          assert Owned(s.slots, clientId) != {};
          assert c in ToSet(record);
        }
      }
      assert Owned(t.slots, clientId) == {};
    }
  }

  /** The channels in the records of some clients. */
  function InRecords(s: State, clients: seq<string>): set<nat> {
    set clientId <- clients, c: nat | clientId in s.records && c in s.records[clientId] :: c
  }

  /** The occupied channels that these clients hold. */
  function HeldBy(slots: seq<Slot>, clients: seq<string>): set<nat> {
    set c: nat | c < |slots| && slots[c].occupied && slots[c].clientId in clients
  }

  lemma ReleasedOneMore(s: State, clients: seq<string>)
    requires clients != [] && clients[0] in s.records
    ensures InRecords(s, clients) == ToSet(s.records[clients[0]]) + InRecords(s, clients[1..])
  {
    assert clients == [clients[0]] + clients[1..];
    assert forall clientId :: clientId in clients <==> clientId == clients[0] || clientId in clients[1..];
  }

  /** A disconnect frees what is in the records of the peer's clients, whoever holds it. */
  lemma {:induction false} FreeClientsReleasesRecords(s: State, clients: seq<string>)
    requires forall clientId <- clients :: clientId in s.records
    ensures var t := FreeClients(s, clients).state;
            && t.records == s.records && |t.slots| == |s.slots|
            && forall c: nat :: c < |s.slots| ==>
                 t.slots[c] == if c in InRecords(s, clients) then s.slots[c].(occupied := false) else s.slots[c]
    decreases |clients|
  {
    if clients == [] {
    } else {
      var first := FreeChannels(s, clients[0]).state;
      FreeClientsReleasesRecords(first, clients[1..]);
      ReleasedOneMore(s, clients);
      assert InRecords(first, clients[1..]) == InRecords(s, clients[1..]);
    }
  }

  lemma HeldIsRecorded(s: State, clients: seq<string>)
    requires RecordsExact(s)
    ensures HeldBy(s.slots, clients) <= InRecords(s, clients)
  {
    forall c | c in HeldBy(s.slots, clients) ensures c in InRecords(s, clients) {
      var clientId := s.slots[c].clientId;
      assert c in Owned(s.slots, clientId);
      assert c in ToSet(s.records[clientId]);
    }
  }

  /** With exact records a disconnect frees exactly the channels that the peer's clients hold, if and only if their records
      hold no channel that has gone to a client outside the peer. Channels that moved among them do no harm. */
  lemma DisconnectReleasesOwnIff(s: State, clients: seq<string>)
    requires RecordsExact(s) && forall clientId <- clients :: clientId in s.records
    ensures OccupiedSet(FreeClients(s, clients).state.slots) == OccupiedSet(s.slots) - HeldBy(s.slots, clients)
            <==> HoldOwn(s, clients)
  {
    var t := FreeClients(s, clients).state;
    FreeClientsReleasesRecords(s, clients);
    HeldIsRecorded(s, clients);
    hide FreeClients, RecordsExact;
    if HoldOwn(s, clients) {
      forall c: nat | c < |s.slots| && s.slots[c].occupied
        ensures c in InRecords(s, clients) <==> c in HeldBy(s.slots, clients)
      {
      }
    } else {
      var clientId :| clientId in clients && clientId in s.records
                      && !(forall c <- s.records[clientId] :: c < |s.slots| && s.slots[c].occupied ==> s.slots[c].clientId in clients);
      var c :| c in s.records[clientId] && c < |s.slots| && s.slots[c].occupied && s.slots[c].clientId !in clients;
      assert c in InRecords(s, clients);
      assert c in OccupiedSet(s.slots) - HeldBy(s.slots, clients) && c !in OccupiedSet(t.slots);
    }
  }

  /** Such a disconnect leaves the peer's clients nothing and every other client what it holds, and the records exact. */
  lemma FreeClientsReleasesOwn(s: State, clients: seq<string>)
    requires RecordsExact(s) && HoldOwn(s, clients) && forall clientId <- clients :: clientId in s.records
    ensures var t := FreeClients(s, clients).state;
            && RecordsExact(t)
            && (forall clientId: string ::
                  Owned(t.slots, clientId) == if clientId in clients then {} else Owned(s.slots, clientId))
  {
    var t := FreeClients(s, clients).state;
    FreeClientsReleasesRecords(s, clients);
    HeldIsRecorded(s, clients);
    hide FreeClients, RecordsExact;
    forall clientId: string ensures Owned(t.slots, clientId) == if clientId in clients then {} else Owned(s.slots, clientId) {
      forall c: nat | c < |s.slots|
        ensures c in Owned(t.slots, clientId) <==> c in Owned(s.slots, clientId) && clientId !in clients
      {
        assert c in Owned(s.slots, clientId) && clientId in clients ==> c in HeldBy(s.slots, clients);
      }
    }
    ExactWithLess(s, t, clients);
  }

  lemma ExactWithLess(s: State, t: State, clients: seq<string>)
    requires RecordsExact(s) && t.records == s.records
    requires forall clientId: string :: Owned(t.slots, clientId) == if clientId in clients then {} else Owned(s.slots, clientId)
    ensures RecordsExact(t)
  {
    hide Owned;
  }

  /** Over every clean run the records are exact. */
  lemma {:induction false} CleanRunIsExact(count: nat, events: seq<Event>)
    requires CleanRun(count, events)
    ensures RecordsExact(Run(count, events))
  {
    if events == [] {
    } else {
      var s := Run(count, events[..|events| - 1]);
      CleanRunIsExact(count, events[..|events| - 1]);
      hide RecordsExact, HoldsOwn, HoldOwn, Owned, Run, CleanRun;
      match events[|events| - 1]
      case Set(par, clientId, peer) => SetKeepsExact(s, par, clientId, peer);
      case Free(clientId) => FreeKeepsExact(s, clientId);
      case Disconnect(peer) =>
        RunIsRecorded(count, events[..|events| - 1]);
        ClientsHaveRecords(s, peer);
        FreeClientsReleasesOwn(s, s.Clients(peer));
    }
  }

  /** The event does what it is meant to: a request keeps the records exact, a release frees exactly the client's own
      channels, a disconnect exactly those of the peer's clients. */
  ghost predicate Harmless(s: State, e: Event) {
    var t := Step(s, e).state;
    match e
    case Set(_, _, _) => RecordsExact(t)
    case Free(clientId) => OccupiedSet(t.slots) == OccupiedSet(s.slots) - Owned(s.slots, clientId)
    case Disconnect(peer) => OccupiedSet(t.slots) == OccupiedSet(s.slots) - HeldBy(s.slots, s.Clients(peer))
  }

  ghost predicate HarmlessRun(count: nat, events: seq<Event>) {
    events == [] ||
    (HarmlessRun(count, events[..|events| - 1]) && Harmless(Run(count, events[..|events| - 1]), events[|events| - 1]))
  }

  lemma SetHarmlessIff(s: State, par: Option<int>, clientId: string, peer: int)
    requires RecordsExact(s)
    ensures RecordsExact(SetChannels(s, par, clientId, peer).state) <==> Clean(s, Set(par, clientId, peer))
  {
    hide RecordsExact, Owned;
    GrantIsAllOrNothing(s, par, clientId, peer);
    if SetChannels(s, par, clientId, peer).reply.Granted? {
      GrantKeepsExactIff(s, par, clientId, peer);
    }
  }

  lemma HarmlessIffClean(s: State, e: Event)
    requires RecordsExact(s) && Recorded(s)
    ensures Harmless(s, e) <==> Clean(s, e)
  {
    hide RecordsExact, Owned, OccupiedSet, HeldBy, HoldsOwn, HoldOwn, FreeChannels, FreeClients, SetChannels, Recorded;
    match e
    case Set(par, clientId, peer) => SetHarmlessIff(s, par, clientId, peer);
    case Free(clientId) => FreeReleasesOwnIff(s, clientId);
    case Disconnect(peer) =>
      ClientsHaveRecords(s, peer);
      DisconnectReleasesOwnIff(s, s.Clients(peer));
  }

  /** Over every run: all events do what they are meant to if and only if the run is clean. */
  lemma {:induction false} HarmlessRunIffClean(count: nat, events: seq<Event>)
    ensures HarmlessRun(count, events) <==> CleanRun(count, events)
  {
    if events == [] {
    } else {
      var before := events[..|events| - 1];
      HarmlessRunIffClean(count, before);
      hide RecordsExact, Recorded, Harmless, Clean, Run;
      if CleanRun(count, before) {
        CleanRunIsExact(count, before);
        RunIsRecorded(count, before);
        HarmlessIffClean(Run(count, before), events[|events| - 1]);
      }
    }
  }

  /** Over every clean run each occupied channel is in the record of exactly one client that holds channels. */
  lemma OneRecordPerChannel(count: nat, events: seq<Event>, c: nat)
    requires CleanRun(count, events) && c in OccupiedSet(Run(count, events).slots)
    ensures var s := Run(count, events);
            forall clientId: string :: Owned(s.slots, clientId) != {} ==>
              clientId in s.records && (c in s.records[clientId] <==> clientId == s.slots[c].clientId)
    ensures c in Owned(Run(count, events).slots, Run(count, events).slots[c].clientId)
  {
    CleanRunIsExact(count, events);
    var s := Run(count, events);
    forall clientId: string | Owned(s.slots, clientId) != {}
      ensures clientId in s.records && (c in s.records[clientId] <==> clientId == s.slots[c].clientId)
    {
      assert c in ToSet(s.records[clientId]) <==> c in Owned(s.slots, clientId);
    }
  }

  // What goes wrong otherwise

  lemma OneGranted(s: State, clientId: string, peer: int, c: nat)
    requires c < |s.slots| && !s.slots[c].occupied && forall d: nat :: d < c ==> s.slots[d].occupied
    ensures SetChannels(s, Some(1), clientId, peer) ==
            Result(State(s.slots[c := Slot(true, clientId)], s.records[clientId := [c]],
                         if clientId in s.Clients(peer) then s.peers else s.peers[peer := s.Clients(peer) + [clientId]]),
                   Granted([c]))
  {
    FirstFreeAt(s.slots, 0, c);
    assert Occupied(s.slots, [c], clientId) == s.slots[c := Slot(true, clientId)];
  }

  lemma {:induction false} FirstFreeAt(slots: seq<Slot>, from: nat, c: nat)
    requires from <= c < |slots| && !slots[c].occupied && forall d: nat :: from <= d < c ==> slots[d].occupied
    ensures FirstFree(slots, from, 1) == [c]
    decreases c - from
  {
    if from < c {
      FirstFreeAt(slots, from + 1, c);
    }
  }

  /** A client releases its channel, the channel goes to another client, the first client's connection ends: the other
      client's channel is freed while that client believes to hold it. */
  lemma StaleRecordFreesForeignChannel(a: string, b: string, p: int, q: int)
    requires a != b && p != q
    ensures var events := [Set(Some(1), a, p), Free(a), Set(Some(1), b, q)];
            && Run(1, events).slots == [Slot(true, b)]
            && Step(Run(1, events), Disconnect(p)).state.slots == [Slot(false, b)]
  {
    var events := [Set(Some(1), a, p), Free(a), Set(Some(1), b, q)];
    OneGranted(Init(1), a, p, 0);
    var s1 := SetChannels(Init(1), Some(1), a, p).state;
    assert s1.slots == [Slot(true, a)];
    var s2 := FreeChannels(s1, a).state;
    assert s2.slots == [Slot(false, a)];
    OneGranted(s2, b, q, 0);
    var s3 := SetChannels(s2, Some(1), b, q).state;
    assert s3.slots == [Slot(true, b)] && s3.records[a] == [0];
    ThreeEvents(1, events);
    assert s3.Clients(p) == [a] && [a][1..] == [];
    assert FreeClients(s3, [a]).state == FreeChannels(s3, a).state;
  }

  /** The same with two clients of one peer does no harm: the disconnect frees the channel of its own second client. */
  lemma MovedInsidePeerIsClean(a: string, b: string, p: int)
    requires a != b
    ensures var s := Run(1, [Set(Some(1), a, p), Free(a), Set(Some(1), b, p)]);
            s.slots == [Slot(true, b)] && !HoldsOwn(s, a) && Clean(s, Disconnect(p))
  {
    var events := [Set(Some(1), a, p), Free(a), Set(Some(1), b, p)];
    OneGranted(Init(1), a, p, 0);
    var s1 := SetChannels(Init(1), Some(1), a, p).state;
    assert s1.slots == [Slot(true, a)];
    var s2 := FreeChannels(s1, a).state;
    assert s2.slots == [Slot(false, a)];
    OneGranted(s2, b, p, 0);
    var s3 := SetChannels(s2, Some(1), b, p).state;
    assert s3.slots == [Slot(true, b)] && s3.records[a] == [0];
    ThreeEvents(1, events);
    assert s3.Clients(p) == [a, b];
  }

  /** A client that is granted channels twice can release only what it was granted last. */
  lemma SecondRequestLeaksFirst(a: string, p: int)
    ensures Run(2, [Set(Some(1), a, p), Set(Some(1), a, p), Free(a)]).slots == [Slot(true, a), Slot(false, a)]
  {
    var events := [Set(Some(1), a, p), Set(Some(1), a, p), Free(a)];
    OneGranted(Init(2), a, p, 0);
    var s1 := SetChannels(Init(2), Some(1), a, p).state;
    assert s1.slots == [Slot(true, a), Slot(false, "")];
    OneGranted(s1, a, p, 1);
    var s2 := SetChannels(s1, Some(1), a, p).state;
    assert s2.slots == [Slot(true, a), Slot(true, a)] && s2.records[a] == [1];
    ThreeEvents(2, events);
  }

  lemma ThreeEvents(count: nat, events: seq<Event>)
    requires |events| == 3
    ensures Run(count, events) == Step(Step(Step(Init(count), events[0]).state, events[1]).state, events[2]).state
  {
    hide Step;
    assert events[..2][..1] == events[..1] && events[..1][..0] == [];
    assert Run(count, events[..1]) == Step(Init(count), events[0]).state;
    assert Run(count, events[..2]) == Step(Run(count, events[..1]), events[1]).state;
  }
}
