/** The registry without its indexes: a plain list of who registered, in order, that every run of the registry agrees
    with. */
module RegistryRoster {
  import opened MachineWords
  import opened Wrappers
  import opened ClientRegistry

  /** The registered clients, the name of the super client, and the id drawn last. */
  datatype Roster = Roster(clients: seq<ClientRec>, super: Option<string>, counter: u16) {
    predicate Knows(name: string) {
      exists c <- clients :: c.proxy == name
    }

    predicate Uses(id: u16) {
      exists c <- clients :: c.id == id
    }

    /** Some clients leave: the others stay in order, the super client only if it stays, and an empty roster starts over. */
    function Only(keep: ClientRec -> bool): Roster {
      var kept := Keep(clients, keep);
      Roster(kept, if super.Some? && exists c <- kept :: c.proxy == super.value then super else None, if kept == [] then 0 else counter)
    }
  }

  function Keep(s: seq<ClientRec>, keep: ClientRec -> bool): (r: seq<ClientRec>)
    ensures forall c :: c in r <==> c in s && keep(c)
  {
    if s == [] then []
    else Keep(s[..|s| - 1], keep) + if keep(s[|s| - 1]) then [s[|s| - 1]] else []
  }

  function NotNamed(name: string): ClientRec -> bool {
    (c: ClientRec) => c.proxy != name
  }

  function NotOf(peer: nat): ClientRec -> bool {
    (c: ClientRec) => c.peer != peer
  }

  /** A new name is appended with its peer under the next id, unless that id is taken; nobody else is touched. */
  function Registered(r: Roster, peer: nat, name: string): Roster {
    var id: u16 := if r.counter < 0xFFFF then r.counter + 1 else 1;
    if r.Knows(name) then r
    else if r.Uses(id) then r.(counter := id)
    else Roster(r.clients + [ClientRec(id, name, peer)], r.super, id)
  }

  function Next(r: Roster, op: Op): Roster {
    match op
    case AddOp(peer, name) => Registered(r, peer, name)
    case DelOp(name) => r.Only(NotNamed(name))
    case DelPeerOp(peer) => r.Only(NotOf(peer))
    case DelAllOp => Roster([], None, 0)
    case SuperOp(name) => if r.super == None && r.Knows(name) then r.(super := Some(name)) else r
  }

  function RosterOf(ops: seq<Op>): Roster {
    if ops == [] then Roster([], None, 0) else Next(RosterOf(ops[..|ops| - 1]), ops[|ops| - 1])
  }

  /** The roster a registry stands for. */
  function Abstract(reg: Registry): Roster {
    Roster(reg.chrono, if reg.super.Some? then Some(reg.super.value.proxy) else None, reg.counter)
  }

  // ---------- keeping

  lemma {:induction false} KeepAgrees(s: seq<ClientRec>, p: ClientRec -> bool, q: ClientRec -> bool)
    requires forall c <- s :: p(c) == q(c)
    ensures Keep(s, p) == Keep(s, q)
  {
    if s == [] {
    } else {
      KeepAgrees(s[..|s| - 1], p, q);
    }
  }

  lemma KeepAppended(s: seq<ClientRec>, c: ClientRec, keep: ClientRec -> bool)
    ensures Keep(s + [c], keep) == if keep(c) then Keep(s, keep) + [c] else Keep(s, keep)
  {
    assert (s + [c])[..|s|] == s;
    assert Keep(s, keep) + [] == Keep(s, keep);
  }

  function Both(p: ClientRec -> bool, q: ClientRec -> bool): ClientRec -> bool {
    (c: ClientRec) => p(c) && q(c)
  }

  lemma {:induction false} KeepTwice(s: seq<ClientRec>, p: ClientRec -> bool, q: ClientRec -> bool)
    ensures Keep(Keep(s, p), q) == Keep(s, Both(p, q))
  {
    if s == [] {
    } else {
      var front, last := s[..|s| - 1], s[|s| - 1];
      KeepTwice(front, p, q);
      assert s == front + [last];
      KeepAppended(front, last, p);
      KeepAppended(front, last, Both(p, q));
      KeepAppended(Keep(front, p), last, q);
    }
  }

  lemma {:induction false} WithoutKeeps(s: seq<ClientRec>, d: ClientRec)
    ensures Without(s, d) == Keep(s, c => c != d)
  {
    if s == [] {
    } else {
      WithoutKeeps(s[..|s| - 1], d);
    }
  }

  lemma {:induction false} KeepAll(s: seq<ClientRec>)
    ensures Keep(s, c => true) == s
  {
    if s == [] {
    } else {
      KeepAll(s[..|s| - 1]);
      assert s == s[..|s| - 1] + [s[|s| - 1]];
    }
  }

  // ---------- one operation

  lemma KnownIffIndexed(reg: Registry, name: string)
    requires Agrees(reg)
    ensures Abstract(reg).Knows(name) <==> name in reg.byProxy
    ensures name in reg.byProxy ==> reg.byProxy[name] in reg.chrono && reg.byProxy[name].proxy == name
    ensures forall c <- reg.chrono :: c.proxy == name ==> name in reg.byProxy && c == reg.byProxy[name]
  {
    if name in reg.byProxy {
      assert reg.byProxy[name] in reg.chrono;
    }
    forall c | c in reg.chrono && c.proxy == name ensures name in reg.byProxy && c == reg.byProxy[name] {
      EnteredInAgreeing(reg, c);
    }
    hide Distinct;
  }

  lemma UsedIffIndexed(reg: Registry, id: u16)
    requires Agrees(reg)
    ensures Abstract(reg).Uses(id) <==> id in reg.byId
  {
    if id in reg.byId {
      assert reg.byId[id] in reg.chrono;
    }
    forall c | c in reg.chrono && c.id == id ensures id in reg.byId {
      EnteredInAgreeing(reg, c);
    }
    hide Distinct;
  }

  lemma AddIs(reg: Registry, peer: nat, name: string)
    requires Agrees(reg)
    ensures Abstract(Add(reg, peer, name)) == Registered(Abstract(reg), peer, name)
  {
    hide Agrees;
    KnownIffIndexed(reg, name);
    UsedIffIndexed(reg, NextId(reg.counter));
    hide Roster.Knows, Roster.Uses;
  }

  /** What leaving does to the super client and to the counter. */
  ghost predicate Shrinks(reg: Registry, r: Registry) {
    && (forall c <- r.chrono :: c in reg.chrono)
    && (r.super == reg.super || r.super == None)
    && (reg.super.Some? ==> (r.super == reg.super <==> reg.super.value in r.chrono))
    && (r.chrono != [] ==> r.counter == reg.counter)
  }

  lemma ShrinksAgain(reg: Registry, m: Registry, r: Registry)
    requires Shrinks(reg, m) && Shrinks(m, r)
    ensures Shrinks(reg, r)
  {
    assert r.chrono != [] ==> r.chrono[0] in m.chrono;
  }

  lemma DelShrinks(reg: Registry, name: string)
    requires Agrees(reg)
    ensures Shrinks(reg, Del(reg, name)) && Del(reg, name).chrono == Keep(reg.chrono, NotNamed(name))
  {
    hide Agrees, Without;
    KnownIffIndexed(reg, name);
    DelAgrees(reg, name);
    hide Roster.Knows;
    SuperIsListed(reg);
    if name in reg.byProxy {
      var d := reg.byProxy[name];
      WithoutKeeps(reg.chrono, d);
      KeepAgrees(reg.chrono, (c: ClientRec) => c != d, NotNamed(name));
      EmptyAfter(Del(reg, name));
    } else {
      KeepAgrees(reg.chrono, (c: ClientRec) => true, NotNamed(name));
      KeepAll(reg.chrono);
    }
  }

  lemma SuperIsListed(reg: Registry)
    requires Agrees(reg)
    ensures reg.super.Some? ==> reg.super.value in reg.chrono
  {
  }

  lemma EmptyAfter(reg: Registry)
    requires Agrees(reg)
    ensures reg.chrono == [] <==> reg.byId == map[]
    ensures reg.chrono == [] ==> reg.counter == 0
  {
    EmptyTogether(reg);
    hide Listed, Indexed, Distinct;
  }

  /** What follows for the roster. */
  lemma SettledAs(reg: Registry, r: Registry, keep: ClientRec -> bool)
    requires Agrees(reg) && Agrees(r) && Shrinks(reg, r) && r.chrono == Keep(reg.chrono, keep)
    ensures Abstract(r) == Abstract(reg).Only(keep)
  {
    hide Agrees, Keep;
    EmptyAfter(r);
    SuperIsListed(reg);
    if reg.super.Some? {
      var d := reg.super.value;
      forall c | c in r.chrono && c.proxy == d.proxy ensures c == d {
        KnownIffIndexed(reg, d.proxy);
      }
    }
  }

  /** Only the clients of one name leave. */
  lemma DelIs(reg: Registry, name: string)
    requires Agrees(reg)
    ensures Abstract(Del(reg, name)) == Abstract(reg).Only(NotNamed(name))
  {
    hide Agrees, Shrinks, Del, Keep;
    DelShrinks(reg, name);
    DelAgrees(reg, name);
    SettledAs(reg, Del(reg, name), NotNamed(name));
  }

  function NotAmong(clients: seq<ClientRec>): ClientRec -> bool {
    (c: ClientRec) => forall i :: 0 <= i < |clients| ==> clients[i].proxy != c.proxy
  }

  lemma {:induction false} DelEachShrinks(reg: Registry, clients: seq<ClientRec>)
    requires Agrees(reg)
    ensures Shrinks(reg, DelEach(reg, clients)) && DelEach(reg, clients).chrono == Keep(reg.chrono, NotAmong(clients))
  {
    hide Agrees, Del, Shrinks;
    if clients == [] {
      ShrinksNot(reg);
      KeepAgrees(reg.chrono, NotAmong([]), (c: ClientRec) => true);
      KeepAll(reg.chrono);
    } else {
      var front, last := clients[..|clients| - 1], clients[|clients| - 1];
      var m := DelEach(reg, front);
      DelEachShrinks(reg, front);
      DelEachAgrees(reg, front);
      DelShrinks(m, last.proxy);
      ShrinksAgain(reg, m, Del(m, last.proxy));
      KeepTwice(reg.chrono, NotAmong(front), NotNamed(last.proxy));
      KeepAgrees(reg.chrono, Both(NotAmong(front), NotNamed(last.proxy)), NotAmong(clients));
    }
  }

  lemma ShrinksNot(reg: Registry)
    requires Agrees(reg)
    ensures Shrinks(reg, reg)
  {
    hide Listed, Indexed, Distinct;
  }

  lemma OfPeerAre(reg: Registry, peer: nat, c: ClientRec)
    requires Agrees(reg) && c in reg.chrono
    ensures NotAmong(OfPeer(reg.chrono, peer))(c) <==> c.peer != peer
  {
    hide Agrees, OfPeer;
    var gone := OfPeer(reg.chrono, peer);
    if c.peer == peer {
      assert c in gone;
    } else {
      forall i | 0 <= i < |gone| ensures gone[i].proxy != c.proxy {
        assert gone[i] in gone;
        KnownIffIndexed(reg, c.proxy);
      }
    }
  }

  /** Only the clients of one peer leave. */
  lemma DelPeerIs(reg: Registry, peer: nat)
    requires Agrees(reg)
    ensures Abstract(DelPeer(reg, peer)) == Abstract(reg).Only(NotOf(peer))
  {
    hide Agrees, Shrinks, DelEach, Keep, OfPeer, NotAmong;
    var gone := OfPeer(reg.chrono, peer);
    DelEachShrinks(reg, gone);
    DelEachAgrees(reg, gone);
    forall c | c in reg.chrono ensures NotAmong(gone)(c) == NotOf(peer)(c) {
      OfPeerAre(reg, peer, c);
    }
    KeepAgrees(reg.chrono, NotAmong(gone), NotOf(peer));
    EmptyAfter(DelEach(reg, gone));
    assert DelPeer(reg, peer) == DelEach(reg, gone);
    SettledAs(reg, DelPeer(reg, peer), NotOf(peer));
  }

  lemma DelAllIs(reg: Registry)
    requires Agrees(reg)
    ensures Abstract(DelAll(reg)) == Roster([], None, 0)
  {
    hide Listed, Indexed, Distinct;
  }

  /** An asking client becomes the super client when there is none. */
  lemma MakeSuperIs(reg: Registry, name: string)
    requires Agrees(reg)
    ensures Abstract(MakeSuper(reg, name)) ==
            if reg.super == None && Abstract(reg).Knows(name) then Abstract(reg).(super := Some(name)) else Abstract(reg)
  {
    hide Agrees;
    KnownIffIndexed(reg, name);
  }

  lemma ApplyIs(reg: Registry, op: Op)
    requires Agrees(reg)
    ensures Abstract(Apply(reg, op)) == Next(Abstract(reg), op)
  {
    hide Agrees, Add, Del, DelPeer, DelAll, MakeSuper, Registered, Roster.Only, Roster.Knows;
    match op
    case AddOp(peer, name) => AddIs(reg, peer, name);
    case DelOp(name) => DelIs(reg, name);
    case DelPeerOp(peer) => DelPeerIs(reg, peer);
    case DelAllOp => DelAllIs(reg);
    case SuperOp(name) => MakeSuperIs(reg, name);
  }

  // ---------- every run

  /** Over every run the registry holds exactly the clients of the roster, each under its name with its peer and its id, in
      the order of their registration, and the roster's super client and counter. */
  lemma {:induction false} RunIsRoster(ops: seq<Op>)
    ensures Abstract(Run(ops)) == RosterOf(ops)
  {
    hide Agrees, Apply, Next;
    if ops == [] {
    } else {
      RunIsRoster(ops[..|ops| - 1]);
      RunsAgree(ops[..|ops| - 1]);
      ApplyIs(Run(ops[..|ops| - 1]), ops[|ops| - 1]);
    }
  }

  /** A client that registers for a peer is listed with it, and goes with it. */
  lemma RegisteredGoesWithPeer(ops: seq<Op>, peer: nat, name: string)
    requires !RosterOf(ops).Knows(name)
    ensures var now := Run(ops + [AddOp(peer, name)]);
            || now.chrono == Run(ops).chrono
            || (|now.chrono| == |Run(ops).chrono| + 1 && now.chrono[..|Run(ops).chrono|] == Run(ops).chrono
                && var c := now.chrono[|Run(ops).chrono|]; c.proxy == name && c.peer == peer && now.super == Run(ops).super)
    ensures forall c <- Run(ops + [AddOp(peer, name), DelPeerOp(peer)]).chrono :: c.proxy != name
  {
    hide Roster.Knows, Roster.Uses, Keep, Apply;
    var add, both := ops + [AddOp(peer, name)], ops + [AddOp(peer, name), DelPeerOp(peer)];
    assert add[..|ops|] == ops && both[..|add|] == add;
    RunIsRoster(ops);
    RunIsRoster(add);
    RunIsRoster(both);
    RunsAgree(ops);
    hide Agrees;
    KnownIffIndexed(Run(ops), name);
    AddKeepsSuper(Run(ops), peer, name);
    NotKnown(RosterOf(ops), name);
  }

  lemma NotKnown(r: Roster, name: string)
    requires !r.Knows(name)
    ensures forall c <- r.clients :: c.proxy != name
  {
  }

  lemma AddKeepsSuper(reg: Registry, peer: nat, name: string)
    ensures Add(reg, peer, name).super == reg.super && Apply(reg, AddOp(peer, name)) == Add(reg, peer, name)
  {
  }
}
