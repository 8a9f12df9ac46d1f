/** One error calculator channel: occupied by a client, configured by authorized commands. */
module SecChannels {
  import opened BitWords
  import opened NotificationValues
  import opened SecConf
  import opened Wrappers

  datatype Answer = Ack | Nak | ErrVal | ErrAut

  /** A command with its parameter as parsed: a number where one is found, None where none is. */
  datatype Request =
    | Malformed
    | SyncRequest(index: Option<int>)
    | MuxRequest(input: string)
    | CmdIdRequest(id: Option<int>)
    | ConfRequest(value: Option<Word>)

  /** The number of channels, and the signed 8-bit multiplexer setting of each input. */
  datatype Config = Config(number: nat, mux: map<string, int>) {
    /** Every accepted command stays inside its own field. */
    predicate InRange() {
      number < 0xFF && forall input <- mux :: 0 <= mux[input] < 32
    }
  }

  datatype Channel = Channel(occupied: bool, clientId: string, conf: Word)

  datatype Event = Occupy(clientId: string) | Release | Command(clientId: string, request: Request)

  datatype Outcome = Outcome(answer: Answer, effect: Effect)

  function Respond(config: Config, c: Channel, clientId: string, request: Request): Outcome {
    if request.Malformed? then Outcome(Nak, Nothing)
    else if clientId != c.clientId then Outcome(ErrAut, Nothing)
    else
      match request
      case SyncRequest(index) =>
        if index.Some? && 0 <= index.value <= config.number then Outcome(Ack, SyncTo(index.value + 1))
        else Outcome(ErrVal, Nothing)
      case MuxRequest(input) =>
        if input in config.mux then Outcome(Ack, MuxTo(config.mux[input])) else Outcome(ErrVal, Nothing)
      case CmdIdRequest(id) =>
        if id.Some? && 0 <= id.value < |SEC_CONFIGS| then Outcome(Ack, CmdTo(id.value)) else Outcome(ErrVal, Nothing)
      case ConfRequest(value) =>
        if value.Some? then Outcome(Ack, Raw(value.value)) else Outcome(Nak, Nothing)
  }

  function EffectOf(config: Config, c: Channel, e: Event): Effect {
    if e.Command? then Respond(config, c, e.clientId, e.request).effect else Nothing
  }

  /** Releasing a channel keeps the id of its client. */
  function Step(config: Config, c: Channel, e: Event): Channel {
    match e
    case Occupy(clientId) => if c.occupied then c else c.(occupied := true, clientId := clientId)
    case Release => c.(occupied := false)
    case Command(_, _) => c.(conf := Written(c.conf, EffectOf(config, c, e)))
  }

  function Run(config: Config, c: Channel, events: seq<Event>): Channel {
    if events == [] then c else Step(config, Run(config, c, events[..|events| - 1]), events[|events| - 1])
  }

  /** What every event of a run did to the register. */
  function Effects(config: Config, c: Channel, events: seq<Event>): seq<Effect> {
    if events == [] then []
    else
      var k := |events| - 1;
      Effects(config, c, events[..k]) + [EffectOf(config, Run(config, c, events[..k]), events[k])]
  }

  lemma {:induction false} RunFolds(config: Config, c: Channel, events: seq<Event>)
    ensures Run(config, c, events).conf == Fold(c.conf, Effects(config, c, events))
  {
    hide Written, EffectOf;
    if events == [] {
    } else {
      var k := |events| - 1;
      RunFolds(config, c, events[..k]);
      var effects := Effects(config, c, events);
      assert effects[..|effects| - 1] == Effects(config, c, events[..k]);
      StepWrites(config, Run(config, c, events[..k]), events[k]);
    }
  }

  lemma StepWrites(config: Config, c: Channel, e: Event)
    ensures Step(config, c, e).conf == Written(c.conf, EffectOf(config, c, e))
  {
  }

  lemma {:induction false} EffectsInRange(config: Config, c: Channel, events: seq<Event>)
    requires config.InRange()
    ensures forall e <- Effects(config, c, events) :: InRange(e)
  {
    if events == [] {
    } else {
      EffectsInRange(config, c, events[..|events| - 1]);
    }
  }

  /** Over every run of occupying, releasing and commanding, accepted or not, the register is made of the last accepted
      value of each kind since it was last written as a whole. */
  lemma ConfOverRun(config: Config, c: Channel, events: seq<Event>)
    requires config.InRange()
    ensures Run(config, c, events).conf == Assembled(LastOf(c.conf, Effects(config, c, events)))
  {
    RunFolds(config, c, events);
    EffectsInRange(config, c, events);
    ConfIsLastOfEachKind(c.conf, Effects(config, c, events));
  }

  /** Two runs with the same last values end with the same register, whatever their order and length. */
  lemma OrderDoesNotMatter(config: Config, c: Channel, a: seq<Event>, b: seq<Event>)
    requires config.InRange()
    requires LastOf(c.conf, Effects(config, c, a)) == LastOf(c.conf, Effects(config, c, b))
    ensures Run(config, c, a).conf == Run(config, c, b).conf
  {
    ConfOverRun(config, c, a);
    ConfOverRun(config, c, b);
  }

  // who is authorized

  function OccupiedAfter(occupied: bool, events: seq<Event>): bool {
    if events == [] then occupied
    else
      match events[|events| - 1]
      case Occupy(_) => true
      case Release => false
      case Command(_, _) => OccupiedAfter(occupied, events[..|events| - 1])
  }

  /** The client whose Occupy last found the channel free; before the first such event, the one known at the start. */
  function LastOccupant(c: Channel, events: seq<Event>): string {
    if events == [] then c.clientId
    else
      var before, e := events[..|events| - 1], events[|events| - 1];
      if e.Occupy? && !OccupiedAfter(c.occupied, before) then e.clientId else LastOccupant(c, before)
  }

  lemma {:induction false} ClientIsLastOccupant(config: Config, c: Channel, events: seq<Event>)
    ensures Run(config, c, events).clientId == LastOccupant(c, events)
    ensures Run(config, c, events).occupied == OccupiedAfter(c.occupied, events)
  {
    hide Written, EffectOf;
    if events == [] {
    } else {
      ClientIsLastOccupant(config, c, events[..|events| - 1]);
    }
  }

  /** Over every run, a well-formed command is refused for lack of authorization if and only if it is not from the client
      whose Occupy last found the channel free. Releasing does not end the authorization. */
  lemma RefusedIffNotLastOccupant(config: Config, c: Channel, events: seq<Event>, clientId: string, request: Request)
    requires !request.Malformed?
    ensures Respond(config, Run(config, c, events), clientId, request).answer == ErrAut <==> clientId != LastOccupant(c, events)
  {
    ClientIsLastOccupant(config, c, events);
  }

  /** A client that has released its channel may still configure it, whatever commands follow, until an Occupy finds the
      channel free. */
  lemma ReleasedClientStillWrites(config: Config, c: Channel, a: string, commands: seq<Event>, id: nat)
    requires !c.occupied && id < |SEC_CONFIGS| && forall e <- commands :: !e.Occupy?
    ensures var released := Run(config, c, [Occupy(a), Release] + commands);
            !released.occupied && Respond(config, released, a, CmdIdRequest(Some(id))) == Outcome(Ack, CmdTo(id))
  {
    var events := [Occupy(a), Release] + commands;
    ClientIsLastOccupant(config, c, events);
    NoOccupyKeeps(c, [Occupy(a), Release], commands);
    assert [Occupy(a), Release][..1] == [Occupy(a)] && [Occupy(a)][..0] == [];
    assert LastOccupant(c, [Occupy(a)]) == a;
  }

  lemma {:induction false} NoOccupyKeeps(c: Channel, events: seq<Event>, more: seq<Event>)
    requires (forall e <- more :: !e.Occupy?) && !OccupiedAfter(c.occupied, events)
    ensures LastOccupant(c, events + more) == LastOccupant(c, events) && !OccupiedAfter(c.occupied, events + more)
  {
    if more == [] {
      assert events + more == events;
    } else {
      var k := |more| - 1;
      NoOccupyKeeps(c, events, more[..k]);
      assert (events + more)[..|events + more| - 1] == events + more[..k];
      assert more[k] in more;
    }
  }

  /** The register counts synchronisation sources from 1. */
  predicate NamesChannel(config: Config, source: int) {
    1 <= source <= config.number
  }

  /** An accepted synchronisation source names an existing channel if and only if its index is below the channel count;
      the one index that does not is accepted on every configuration. */
  lemma AcceptedSyncNamesChannelIff(config: Config, c: Channel, clientId: string, index: int)
    requires Respond(config, c, clientId, SyncRequest(Some(index))).answer == Ack
    ensures var effect := Respond(config, c, clientId, SyncRequest(Some(index))).effect;
            effect.SyncTo? && (NamesChannel(config, effect.number) <==> index < config.number)
    ensures Respond(config, c, c.clientId, SyncRequest(Some(config.number))).answer == Ack
  {
  }

  class SecChannel {
    const config: Config
    const nr: nat
    const notifier: NotificationValue
    var bSet: bool
    var clientId: string
    var conf: Word
    var intReg: Word
    ghost var commands: seq<Word>

    constructor (config: Config, nr: nat, conf: Word, intReg: Word)
      ensures this.config == config && this.nr == nr && Value() == Channel(false, "", conf) && fresh(notifier)
      ensures this.intReg == intReg && commands == [] && notifier.value == {}
    {
      this.config, this.nr, this.conf, this.intReg := config, nr, conf, intReg;
      bSet, clientId, commands := false, "", [];
      notifier := new NotificationValue({});
    }

    function Value(): Channel
      reads this
    {
      Channel(bSet, clientId, conf)
    }

    predicate IsFree()
      reads this
    {
      !bSet
    }

    method SetClient(id: string) returns (ret: bool)
      modifies this`bSet, this`clientId
      ensures ret == !old(bSet) && Value() == Step(config, old(Value()), Occupy(id))
    {
      ret := !bSet;
      if ret {
        clientId := id;
      }
      bSet := true;
    }

    /** The command register is set to stop and then cleared. */
    method StopErrorCalculator()
      modifies this`commands
      ensures commands == old(commands) + [{6}, {}]
    {
      commands := commands + [{6}];
      commands := commands + [{}];
    }

    method Free()
      modifies this`bSet, this`commands
      ensures Value() == Step(config, old(Value()), Release)
      ensures commands == old(commands) + if old(bSet) then [{6}, {}] else []
    {
      if bSet {
        StopErrorCalculator();
        bSet := false;
      }
    }

    method SetSync(id: string, request: Request) returns (answer: Answer)
      requires request.SyncRequest? || request.Malformed?
      modifies this`conf
      ensures answer == Respond(config, old(Value()), id, request).answer
      ensures Value() == Step(config, old(Value()), Command(id, request))
    {
      hide WordOf, Field, Replaced;
      if request.Malformed? {
        return Nak;
      }
      if id != clientId {
        return ErrAut;
      }
      answer := ErrVal;
      if request.index.Some? {
        var chnIndex := request.index.value;
        if chnIndex >= 0 && chnIndex <= config.number {
          conf := Replaced(conf, SYNC_FIELD, WordOf(chnIndex + 1));
          answer := Ack;
        }
      }
    }

    method SetMux(id: string, request: Request) returns (answer: Answer)
      requires request.MuxRequest? || request.Malformed?
      modifies this`conf
      ensures answer == Respond(config, old(Value()), id, request).answer
      ensures Value() == Step(config, old(Value()), Command(id, request))
    {
      hide WordOf, Field, Replaced, ShiftLeft;
      if request.Malformed? {
        return Nak;
      }
      if id != clientId {
        return ErrAut;
      }
      if request.input in config.mux {
        conf := Replaced(conf, MUX_FIELD, ShiftLeft(WordOf(config.mux[request.input]), 10));
        answer := Ack;
      } else {
        answer := ErrVal;
      }
    }

    method SetCmdId(id: string, request: Request) returns (answer: Answer)
      requires request.CmdIdRequest? || request.Malformed?
      modifies this`conf
      ensures answer == Respond(config, old(Value()), id, request).answer
      ensures Value() == Step(config, old(Value()), Command(id, request))
    {
      hide Field, Replaced;
      if request.Malformed? {
        return Nak;
      }
      if id != clientId {
        return ErrAut;
      }
      if request.id.Some? && 0 <= request.id.value < |SEC_CONFIGS| {
        conf := Replaced(conf, CMD_FIELD, SEC_CONFIGS[request.id.value]);
        answer := Ack;
      } else {
        answer := ErrVal;
      }
    }

    method WriteConf(id: string, request: Request) returns (answer: Answer)
      requires request.ConfRequest? || request.Malformed?
      modifies this`conf
      ensures answer == Respond(config, old(Value()), id, request).answer
      ensures Value() == Step(config, old(Value()), Command(id, request))
    {
      answer := Nak;
      if request.ConfRequest? {
        if id != clientId {
          answer := ErrAut;
        } else if request.value.Some? {
          conf := request.value.value;
          answer := Ack;
        }
      }
    }

    method SetIntReg(reg: Byte)
      modifies notifier
      ensures notifier.value == Updated(old(notifier.value), Set(reg))
      ensures notifier.announced == old(notifier.announced)
              + if Rising(old(notifier.value), Set(reg)) == {} then [] else [Rising(old(notifier.value), Set(reg))]
    {
      notifier.SetValue(reg);
    }

    /** Clears the bits in the notifier and writes the lower four bits of the register back without them. */
    method ResetInterrupt(interrupt: Byte)
      modifies notifier, this`intReg
      ensures notifier.value == Updated(old(notifier.value), Clr(interrupt)) && notifier.announced == old(notifier.announced)
      ensures intReg == (old(intReg) * Field(0, 4)) - interrupt
    {
      notifier.ClrValue(interrupt);
      intReg := (intReg * Field(0, 4)) - interrupt;
    }
  }
}
