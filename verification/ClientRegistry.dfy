/** The registry of DSP clients: a chronological list and two indexes that every operation keeps in step. */
module ClientRegistry {
  import opened MachineWords
  import opened Wrappers

  datatype ClientRec = ClientRec(id: u16, proxy: string, peer: nat)

  datatype Registry = Registry(chrono: seq<ClientRec>, byProxy: map<string, ClientRec>, byId: map<u16, ClientRec>,
                               super: Option<ClientRec>, counter: u16)

  const EMPTY_REGISTRY := Registry([], map[], map[], None, 0)

  /** The id counter wraps at 16 bits and skips zero. */
  function NextId(counter: u16): u16 {
    var next := Wrap16(counter + 1);
    if next == 0 then 1 else next
  }

  function Add(reg: Registry, peer: nat, proxy: string): Registry {
    if proxy in reg.byProxy then reg
    else
      var id := NextId(reg.counter);
      if id in reg.byId then reg.(counter := id)
      else
        var c := ClientRec(id, proxy, peer);
        Registry(reg.chrono + [c], reg.byProxy[proxy := c], reg.byId[id := c], reg.super, id)
  }

  function Without(s: seq<ClientRec>, c: ClientRec): (r: seq<ClientRec>)
    ensures forall d :: d in r <==> d in s && d != c
    ensures |r| <= |s|
  {
    if s == [] then []
    else Without(s[..|s| - 1], c) + if s[|s| - 1] == c then [] else [s[|s| - 1]]
  }

  function ResetOnNoClients(reg: Registry): Registry {
    if reg.byId == map[] then reg.(counter := 0) else reg
  }

  /** Out of the list and the indexes, and out of the role of the super client. */
  function Forget(reg: Registry, c: ClientRec): Registry {
    Registry(Without(reg.chrono, c), reg.byProxy - {c.proxy}, reg.byId - {c.id},
             if reg.super == Some(c) then None else reg.super, reg.counter)
  }

  function Del(reg: Registry, proxy: string): Registry {
    if proxy !in reg.byProxy then reg else ResetOnNoClients(Forget(reg, reg.byProxy[proxy]))
  }

  function OfPeer(s: seq<ClientRec>, peer: nat): (r: seq<ClientRec>)
    ensures forall c :: c in r <==> c in s && c.peer == peer
  {
    if s == [] then []
    else OfPeer(s[..|s| - 1], peer) + if s[|s| - 1].peer == peer then [s[|s| - 1]] else []
  }

  function DelEach(reg: Registry, clients: seq<ClientRec>): Registry {
    if clients == [] then reg else Del(DelEach(reg, clients[..|clients| - 1]), clients[|clients| - 1].proxy)
  }

  function DelPeer(reg: Registry, peer: nat): Registry {
    ResetOnNoClients(DelEach(reg, OfPeer(reg.chrono, peer)))
  }

  function DelAll(reg: Registry): Registry {
    Registry([], map[], map[], if reg.super.Some? && reg.super.value in reg.chrono then None else reg.super, 0)
  }

  /** The first client to ask becomes the super client. */
  function MakeSuper(reg: Registry, proxy: string): Registry {
    if reg.super.Some? || proxy !in reg.byProxy then reg else reg.(super := Some(reg.byProxy[proxy]))
  }

  datatype Op = AddOp(peer: nat, proxy: string) | DelOp(proxy: string) | DelPeerOp(peer: nat) | DelAllOp
              | SuperOp(proxy: string)

  function Apply(reg: Registry, op: Op): Registry {
    match op
    case AddOp(peer, proxy) => Add(reg, peer, proxy)
    case DelOp(proxy) => Del(reg, proxy)
    case DelPeerOp(peer) => DelPeer(reg, peer)
    case DelAllOp => DelAll(reg)
    case SuperOp(proxy) => MakeSuper(reg, proxy)
  }

  function Run(ops: seq<Op>): Registry {
    if ops == [] then EMPTY_REGISTRY else Apply(Run(ops[..|ops| - 1]), ops[|ops| - 1])
  }

  ghost predicate Listed(reg: Registry) {
    forall c <- reg.chrono :: c.id != 0 && c.id in reg.byId && reg.byId[c.id] == c
                              && c.proxy in reg.byProxy && reg.byProxy[c.proxy] == c
  }

  ghost predicate Indexed(reg: Registry) {
    && (forall id <- reg.byId :: reg.byId[id].id == id && reg.byId[id] in reg.chrono)
    && (forall n <- reg.byProxy :: reg.byProxy[n].proxy == n && reg.byProxy[n] in reg.chrono)
  }

  ghost predicate Distinct(s: seq<ClientRec>) {
    forall i, j :: 0 <= i < j < |s| ==> s[i] != s[j]
  }

  /** The list and the indexes hold the same clients, under their own ids and names. */
  ghost predicate Agrees(reg: Registry) {
    && Listed(reg) && Indexed(reg) && Distinct(reg.chrono)
    && (reg.super.Some? ==> reg.super.value in reg.chrono)
    && (reg.chrono == [] ==> reg.counter == 0)
  }

  lemma EmptyTogether(reg: Registry)
    requires Listed(reg) && Indexed(reg)
    ensures reg.chrono == [] <==> reg.byId == map[]
  {
    if reg.chrono != [] {
      assert reg.chrono[0] in reg.chrono;
    }
    if reg.byId != map[] {
      var id :| id in reg.byId;
      assert reg.byId[id] in reg.chrono;
    }
  }

  ghost predicate Entered(reg: Registry, c: ClientRec) {
    c.id != 0 && c.id in reg.byId && reg.byId[c.id] == c && c.proxy in reg.byProxy && reg.byProxy[c.proxy] == c
  }

  lemma EnteredWhenListed(reg: Registry, c: ClientRec)
    requires Listed(reg) && c in reg.chrono
    ensures Entered(reg, c)
  {
  }

  lemma EnteredInAgreeing(reg: Registry, c: ClientRec)
    requires Agrees(reg) && c in reg.chrono
    ensures Entered(reg, c)
  {
  }

  lemma AddAgrees(reg: Registry, peer: nat, proxy: string)
    requires Agrees(reg)
    ensures Agrees(Add(reg, peer, proxy))
  {
    var r, id := Add(reg, peer, proxy), NextId(reg.counter);
    EmptyTogether(reg);
    if proxy !in reg.byProxy && id !in reg.byId {
      hide Listed, Distinct;
      var c := ClientRec(id, proxy, peer);
      assert c !in reg.chrono by {
        if c in reg.chrono {
          EnteredWhenListed(reg, c);
        }
      }
      forall d | d in r.chrono ensures Entered(r, d) {
        if d != c {
          EnteredWhenListed(reg, d);
        }
      }
      AppendDistinct(reg.chrono, c);
      ListedByEntries(r);
    }
  }

  lemma ListedByEntries(reg: Registry)
    requires forall c <- reg.chrono :: Entered(reg, c)
    ensures Listed(reg)
  {
    assert forall c <- reg.chrono :: Entered(reg, c);
  }

  lemma AppendDistinct(s: seq<ClientRec>, c: ClientRec)
    requires Distinct(s) && c !in s
    ensures Distinct(s + [c])
  {
  }

  lemma {:induction false} WithoutDistinct(s: seq<ClientRec>, c: ClientRec)
    requires Distinct(s)
    ensures Distinct(Without(s, c))
  {
    if s == [] {
    } else {
      var front, last := s[..|s| - 1], s[|s| - 1];
      WithoutDistinct(front, c);
      assert last !in front;
      AppendDistinct(Without(front, c), last);
    }
  }

  lemma DelAgrees(reg: Registry, proxy: string)
    requires Agrees(reg)
    ensures Agrees(Del(reg, proxy))
    ensures forall d :: d in Del(reg, proxy).chrono <==> d in reg.chrono && d.proxy != proxy
  {
    var r := Del(reg, proxy);
    hide Listed, Distinct, Without;
    forall d | d in reg.chrono && d.proxy == proxy ensures proxy in reg.byProxy && d == reg.byProxy[proxy] {
      EnteredWhenListed(reg, d);
    }
    if proxy in reg.byProxy {
      var c := reg.byProxy[proxy];
      WithoutDistinct(reg.chrono, c);
      forall d | d in r.chrono ensures Entered(r, d) {
        EnteredWhenListed(reg, d);
        EnteredWhenListed(reg, c);
      }
      ListedByEntries(r);
      DelIndexed(reg, r, c);
      EmptyTogether(r);
    }
  }

  lemma DelIndexed(reg: Registry, r: Registry, c: ClientRec)
    requires Indexed(reg) && (forall d :: d in r.chrono <==> d in reg.chrono && d != c)
    requires r.byProxy == reg.byProxy - {c.proxy} && r.byId == reg.byId - {c.id}
    ensures Indexed(r)
  {
  }

  lemma {:induction false} DelEachAgrees(reg: Registry, clients: seq<ClientRec>)
    requires Agrees(reg)
    ensures Agrees(DelEach(reg, clients))
    ensures forall d :: d in DelEach(reg, clients).chrono <==>
                        d in reg.chrono && forall c <- clients :: c.proxy != d.proxy
  {
    if clients == [] {
    } else {
      var front, last := clients[..|clients| - 1], clients[|clients| - 1];
      DelEachAgrees(reg, front);
      DelAgrees(DelEach(reg, front), last.proxy);
      assert clients == front + [last];
      hide Del, Agrees;
    }
  }

  /** Deleting a peer removes exactly its clients. */
  lemma DelPeerRemovesItsClients(reg: Registry, peer: nat)
    requires Agrees(reg)
    ensures Agrees(DelPeer(reg, peer))
    ensures forall d :: d in DelPeer(reg, peer).chrono <==> d in reg.chrono && d.peer != peer
  {
    var gone := OfPeer(reg.chrono, peer);
    DelEachAgrees(reg, gone);
    forall d | d in reg.chrono ensures d.peer != peer <==> forall c <- gone :: c.proxy != d.proxy {
      if d.peer != peer {
        forall c | c in gone ensures c.proxy != d.proxy {
          assert reg.byProxy[c.proxy] == c && reg.byProxy[d.proxy] == d;
        }
      } else {
        assert d in gone;
      }
    }
    hide DelEach;
    EmptyTogether(DelEach(reg, gone));
  }

  lemma ApplyAgrees(reg: Registry, op: Op)
    requires Agrees(reg)
    ensures Agrees(Apply(reg, op))
  {
    match op
    case AddOp(peer, proxy) => AddAgrees(reg, peer, proxy);
    case DelOp(proxy) => DelAgrees(reg, proxy);
    case DelPeerOp(peer) => DelPeerRemovesItsClients(reg, peer);
    case DelAllOp =>
    case SuperOp(proxy) =>
  }

  /** After any sequence of operations the list and both indexes hold the same clients, with distinct non-zero ids,
      an empty registry has its counter at zero, and the super client is registered. */
  lemma {:induction false} RunsAgree(ops: seq<Op>)
    ensures Agrees(Run(ops))
  {
    if ops == [] {
    } else {
      RunsAgree(ops[..|ops| - 1]);
      ApplyAgrees(Run(ops[..|ops| - 1]), ops[|ops| - 1]);
    }
  }

  // ---------- when an id is refused

  /** How many ids were drawn since the registry was last empty. */
  function Drawn(ops: seq<Op>): nat {
    if ops == [] then 0
    else
      var before := Run(ops[..|ops| - 1]);
      var op := ops[|ops| - 1];
      if Apply(before, op).byId == map[] then 0
      else Drawn(ops[..|ops| - 1]) + if op.AddOp? && op.proxy !in before.byProxy then 1 else 0
  }

  lemma {:induction false} FreshUntilLapped(ops: seq<Op>)
    ensures Drawn(ops) <= 0xFFFF ==> Run(ops).counter == Drawn(ops) && forall id <- Run(ops).byId :: id <= Drawn(ops)
  {
    hide Agrees, Apply;
    if ops == [] {
    } else {
      var front, op := ops[..|ops| - 1], ops[|ops| - 1];
      FreshUntilLapped(front);
      RunsAgree(front);
      RunsAgree(ops);
      ApplyDraws(Run(front), op);
    }
  }

  lemma ApplyDraws(reg: Registry, op: Op)
    requires Agrees(reg) && Agrees(Apply(reg, op))
    ensures var r := Apply(reg, op);
            && (r.byId == map[] ==> r.counter == 0)
            && (r.byId != map[] ==>
                  r.counter == (if op.AddOp? && op.proxy !in reg.byProxy then NextId(reg.counter) else reg.counter))
            && (forall id <- r.byId :: id in reg.byId || id == r.counter)
  {
    EmptyTogether(reg);
    EmptyTogether(Apply(reg, op));
    if op.DelPeerOp? {
      DelEachShrinks(reg, OfPeer(reg.chrono, op.peer));
    }
    hide Listed, Indexed, Distinct, Without, OfPeer;
  }

  lemma {:induction false} DelEachShrinks(reg: Registry, clients: seq<ClientRec>)
    ensures var r := DelEach(reg, clients);
            r.byId.Keys <= reg.byId.Keys && (r.counter == reg.counter || (r.byId == map[] && r.counter == 0))
  {
    if clients == [] {
    } else {
      DelEachShrinks(reg, clients[..|clients| - 1]);
    }
  }

  /** A new client is refused only after the 16-bit counter has lapped: at least 65535 ids were drawn since the
      registry was last empty. */
  lemma RefusedOnlyAfterLap(ops: seq<Op>, peer: nat, proxy: string)
    requires proxy !in Run(ops).byProxy && proxy !in Add(Run(ops), peer, proxy).byProxy
    ensures NextId(Run(ops).counter) in Run(ops).byId
    ensures Drawn(ops) >= 0xFFFF
  {
    hide Run, Drawn, Add, NextId;
    RefusedIsTaken(Run(ops), peer, proxy);
    if Drawn(ops) < 0xFFFF {
      NextIsFreeBelowLap(ops);
    }
  }

  lemma NextIsFreeBelowLap(ops: seq<Op>)
    requires Drawn(ops) < 0xFFFF
    ensures NextId(Run(ops).counter) !in Run(ops).byId
  {
    hide Run, Drawn, NextId;
    FreshUntilLapped(ops);
    NextIdBelowLap(Run(ops).counter);
  }

  lemma NextIdBelowLap(counter: u16)
    requires counter < 0xFFFF
    ensures NextId(counter) == counter + 1
  {
  }

  lemma RefusedIsTaken(reg: Registry, peer: nat, proxy: string)
    requires proxy !in reg.byProxy && proxy !in Add(reg, peer, proxy).byProxy
    ensures NextId(reg.counter) in reg.byId
  {
  }
}
