/** How the interrupt words a DSP returns reach the clients. */
module InterruptDispatch {
  import opened MachineWords
  import opened Wrappers
  import opened DspApi
  import opened DspVarResolver
  import opened DspCmdCompiler
  import opened ClientRegistry

  const BUFFER_LEN: nat := 20
  const MAX_PENDING: nat := 19

  type Buffer = b: seq<u32> | |b| == BUFFER_LEN witness seq(BUFFER_LEN, i => 0)

  /** The text DSPINT:<param>, sent to one client. */
  datatype Notification = Notification(proxy: string, param: u16)

  /** The counter word as the signed int the server compares; negative counts pass the comparison. */
  function Count(b: Buffer): int {
    ToInt32(b[0])
  }

  function IdOf(word: u32): u16 {
    word / 0x1_0000
  }

  function ParamOf(word: u32): u16 {
    word % 0x1_0000
  }

  function FindClient(reg: Registry, word: u32): Option<ClientRec> {
    if IdOf(word) in reg.byId then Some(reg.byId[IdOf(word)]) else None
  }

  /** The notifications of the words up to n to clients other than the super client. */
  function NotifyOthers(reg: Registry, b: Buffer, n: nat): seq<Notification>
    requires n <= MAX_PENDING
  {
    if n == 0 then []
    else
      var c := FindClient(reg, b[n]);
      NotifyOthers(reg, b, n - 1)
      + if c.Some? && c != reg.super then [Notification(c.value.proxy, ParamOf(b[n]))] else []
  }

  lemma NotifyNone(reg: Registry, b: Buffer)
    ensures NotifyOthers(reg, b, 0) == []
  {
  }

  lemma NotifyOthersNext(reg: Registry, b: Buffer, n: nat)
    requires 0 < n <= MAX_PENDING
    ensures var c := FindClient(reg, b[n]);
            NotifyOthers(reg, b, n) == NotifyOthers(reg, b, n - 1)
              + if c.Some? && c != reg.super then [Notification(c.value.proxy, ParamOf(b[n]))] else []
  {
  }

  predicate NamesSuper(reg: Registry, b: Buffer, n: nat)
    requires n <= MAX_PENDING
  {
    exists i :: 1 <= i <= n && reg.super.Some? && FindClient(reg, b[i]) == reg.super
  }

  /** The super client is told first, and is given the last word of the package. */
  function NotifySuper(reg: Registry, b: Buffer, n: nat): seq<Notification>
    requires n <= MAX_PENDING
  {
    if NamesSuper(reg, b, n) then [Notification(reg.super.value.proxy, ParamOf(b[n]))] else []
  }

  function Dispatch(reg: Registry, b: Buffer): seq<Notification> {
    if Count(b) > MAX_PENDING || Count(b) < 0 then []
    else NotifySuper(reg, b, Count(b)) + NotifyOthers(reg, b, Count(b))
  }

  /** A package with a negative count, or with more words than it has room for, tells nobody. */
  lemma NobodyIsToldOutOfRange(reg: Registry, b: Buffer)
    requires !(0 <= ToInt32(b[0]) <= 19)
    ensures Dispatch(reg, b) == []
  {
  }

  lemma {:induction false} OthersAreListed(reg: Registry, b: Buffer, n: nat)
    requires Agrees(reg) && n <= MAX_PENDING
    ensures forall m <- NotifyOthers(reg, b, n) :: exists c :: c in reg.chrono && c.proxy == m.proxy
  {
    hide Distinct, IdOf, ParamOf;
    if n == 0 {
    } else {
      OthersAreListed(reg, b, n - 1);
      var c := FindClient(reg, b[n]);
      assert c.Some? ==> c.value in reg.chrono;
    }
  }

  /** Nobody but registered clients is told. */
  lemma OnlyRegisteredAreTold(reg: Registry, b: Buffer)
    requires Agrees(reg)
    ensures forall m <- Dispatch(reg, b) :: exists c :: c in reg.chrono && c.proxy == m.proxy
  {
    hide NotifyOthers, NamesSuper, Distinct, Listed, Indexed;
    if 0 <= Count(b) <= MAX_PENDING {
      OthersAreListed(reg, b, Count(b));
      if NamesSuper(reg, b, Count(b)) {
        NamesSuperHasOne(reg, b, Count(b));
      }
    }
  }

  // ---------- what each client sees

  function SeenBy(c: ClientRec, sent: seq<Notification>): seq<u16> {
    if sent == [] then []
    else SeenBy(c, sent[..|sent| - 1]) + if sent[|sent| - 1].proxy == c.proxy then [sent[|sent| - 1].param] else []
  }

  /** The parameters of the entries that carry the id, in buffer order. */
  function EntriesOf(id: u16, b: Buffer, n: nat): seq<u16>
    requires n <= MAX_PENDING
  {
    if n == 0 then [] else EntriesOf(id, b, n - 1) + if IdOf(b[n]) == id then [ParamOf(b[n])] else []
  }

  lemma {:induction false} SeenAppend(c: ClientRec, a: seq<Notification>, b: seq<Notification>)
    ensures SeenBy(c, a + b) == SeenBy(c, a) + SeenBy(c, b)
  {
    if b == [] {
      assert a + b == a;
    } else {
      SeenAppend(c, a, b[..|b| - 1]);
      assert (a + b)[..|a + b| - 1] == a + b[..|b| - 1];
    }
  }

  lemma FoundIs(reg: Registry, word: u32, c: ClientRec)
    requires Agrees(reg) && c in reg.chrono
    ensures FindClient(reg, word) == Some(c) <==> IdOf(word) == c.id
    ensures FindClient(reg, word).Some? && FindClient(reg, word).value.proxy == c.proxy ==> IdOf(word) == c.id
  {
    EnteredWhenListed(reg, c);
    if FindClient(reg, word).Some? {
      var d := FindClient(reg, word).value;
      EnteredWhenListed(reg, d);
    }
  }

  lemma {:induction false} OthersSeeTheirEntries(reg: Registry, b: Buffer, n: nat, c: ClientRec)
    requires Agrees(reg) && c in reg.chrono && n <= MAX_PENDING
    ensures SeenBy(c, NotifyOthers(reg, b, n)) == if reg.super == Some(c) then [] else EntriesOf(c.id, b, n)
  {
    hide Agrees, FindClient, IdOf, ParamOf;
    if n == 0 {
    } else {
      OthersSeeTheirEntries(reg, b, n - 1, c);
      FoundIs(reg, b[n], c);
      var found, front := FindClient(reg, b[n]), NotifyOthers(reg, b, n - 1);
      assert front + [] == front;
      if found.Some? && found != reg.super {
        assert NotifyOthers(reg, b, n) == front + [Notification(found.value.proxy, ParamOf(b[n]))];
        SeenOneMore(c, front, Notification(found.value.proxy, ParamOf(b[n])));
      }
    }
  }

  lemma SeenOneMore(c: ClientRec, front: seq<Notification>, last: Notification)
    ensures SeenBy(c, front + [last]) == SeenBy(c, front) + if last.proxy == c.proxy then [last.param] else []
  {
  }

  /** Interrupt dispatch. Every registered client but the super client gets exactly one notification for each entry
      that carries its id, in buffer order and with that entry's parameter; the super client gets at most one, and
      it comes first. */
  lemma DispatchReachesClients(reg: Registry, b: Buffer, c: ClientRec)
    requires Agrees(reg) && c in reg.chrono && 0 <= Count(b) <= MAX_PENDING
    ensures reg.super != Some(c) ==> SeenBy(c, Dispatch(reg, b)) == EntriesOf(c.id, b, Count(b))
    ensures reg.super == Some(c) ==>
              && SeenBy(c, Dispatch(reg, b)) == (if NamesSuper(reg, b, Count(b)) then [ParamOf(b[Count(b)])] else [])
              && (NamesSuper(reg, b, Count(b)) ==> Dispatch(reg, b)[0] == Notification(c.proxy, ParamOf(b[Count(b)])))
  {
    hide FindClient, NotifyOthers, EntriesOf, ParamOf, SeenBy, NamesSuper;
    var n := Count(b);
    OthersSeeTheirEntries(reg, b, n, c);
    SeenAppend(c, NotifySuper(reg, b, n), NotifyOthers(reg, b, n));
    SeenNothing(c);
    if reg.super.Some? {
      EnteredWhenListed(reg, c);
      EnteredWhenListed(reg, reg.super.value);
      assert reg.super != Some(c) ==> reg.super.value.proxy != c.proxy;
    }
    hide Agrees;
    if NamesSuper(reg, b, n) {
      NamesSuperHasOne(reg, b, n);
      SeenOneMore(c, [], Notification(reg.super.value.proxy, ParamOf(b[n])));
      assert [] + NotifySuper(reg, b, n) == NotifySuper(reg, b, n);
    }
  }

  lemma SeenNothing(c: ClientRec)
    ensures SeenBy(c, []) == []
  {
  }

  lemma NoSuperNoNotification(reg: Registry, b: Buffer, n: nat)
    requires n <= MAX_PENDING && reg.super == None
    ensures NotifySuper(reg, b, n) == []
  {
  }

  lemma NamesSuperHasOne(reg: Registry, b: Buffer, n: nat)
    requires n <= MAX_PENDING && NamesSuper(reg, b, n)
    ensures reg.super.Some?
  {
  }

  /** The super client is handed the last word of the package, whoever it is from. It gets the parameter of its own
      entry for certain only when that entry is the last one. */
  lemma SuperClientGetsTheLastWord(reg: Registry, b: Buffer, c: ClientRec, own: nat)
    requires Agrees(reg) && reg.super == Some(c) && 1 <= own <= Count(b) <= MAX_PENDING && IdOf(b[own]) == c.id
    ensures SeenBy(c, Dispatch(reg, b)) == [ParamOf(b[Count(b)])]
    ensures SeenBy(c, Dispatch(reg, b)) == [ParamOf(b[own])] <==> ParamOf(b[own]) == ParamOf(b[Count(b)])
  {
    DispatchReachesClients(reg, b, c);
    FoundIs(reg, b[own], c);
  }

  /** The failing input: the super client triggers with parameter 1, another client after it with parameter 2, and
      the super client is told 2. */
  lemma SuperClientMisled(reg: Registry, b: Buffer, c: ClientRec, d: ClientRec)
    requires Agrees(reg) && reg.super == Some(c) && d in reg.chrono && c != d
    requires b[0] == 2 && b[1] == c.id * 0x1_0000 + 1 && b[2] == d.id * 0x1_0000 + 2
    ensures SeenBy(c, Dispatch(reg, b)) == [2]
  {
    SuperClientGetsTheLastWord(reg, b, c, 1);
  }

  /** A word a client's DSPINTTRIGGER was compiled to comes back to that client. */
  lemma TriggerWordNamesClient(hash: VarHash, id: u16, params: seq<Token>)
    requires CompileOne(hash, id, Some(DSPINTTRIGGER), params).ok
    ensures var word := CompileOne(hash, id, Some(DSPINTTRIGGER), params).instr.w1;
            IdOf(word) == id && Operand16(hash, params, 1) >= 0 && ParamOf(word) == Operand16(hash, params, 1)
  {
    CompiledDecodes(hash, id, DSPINTTRIGGER, params);
    var i, o := CompileOne(hash, id, Some(DSPINTTRIGGER), params).instr, ReadAll(hash, params);
    assert DspCmd(DSPINTTRIGGER) == CmdDetails(Cmd2i16, true);
    assert OperandsOfClass(Cmd2i16, i)[0] == id;
    assert OperandsOfClass(Cmd2i16, i)[1] == o.p1;
    hide CompileOne, Operand16;
  }

  /** Compile-to-dispatch round trip: when the word is posted alone, the server sends DSPINT with the command's
      parameter to the compiling client and nothing to any other. */
  lemma TriggerReachesItsClient(reg: Registry, c: ClientRec, hash: VarHash, params: seq<Token>, b: Buffer)
    requires Agrees(reg) && c in reg.chrono && CompileOne(hash, c.id, Some(DSPINTTRIGGER), params).ok
    requires b[0] == 1 && b[1] == CompileOne(hash, c.id, Some(DSPINTTRIGGER), params).instr.w1
    ensures Operand16(hash, params, 1) >= 0
    ensures Dispatch(reg, b) == [Notification(c.proxy, Operand16(hash, params, 1))]
  {
    hide CompileOne, Operand16, Agrees;
    TriggerWordNamesClient(hash, c.id, params);
    FoundIs(reg, b[1], c);
    assert NotifyOthers(reg, b, 0) == [];
    assert NamesSuper(reg, b, 1) <==> reg.super == Some(c);
  }
}
