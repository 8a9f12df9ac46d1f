/** What an accepted command does to the bits of the configuration register, number by number. */
module SecCommands {
  import opened BitWords
  import opened SecConf
  import opened SecChannels
  import opened Wrappers

  /** Bit k of the two's complement of a number. */
  predicate Bit(n: int, k: nat) {
    Halved(n % WORD_SIZE, k) % 2 == 1
  }

  lemma WordBit(n: int, k: nat)
    ensures k in WordOf(n) <==> Bit(n, k)
  {
    BitIs(n % WORD_SIZE, k);
    hide Halved, BitsOf;
  }

  /** Outside the field everything is kept, and from its first bit on the bits of the number are put in. */
  ghost predicate Holds(was: Word, now: Word, first: nat, last: nat, n: int) {
    forall b: nat :: b < 32 ==>
      (b in now <==> (b in was && !(first <= b < last)) || (b >= first && Bit(n, b - first)))
  }

  lemma FieldHolds(was: Word, field: Word, first: nat, last: nat, n: int, bits: Word)
    requires field == Field(first, last) && forall b: nat :: b < 32 ==> (b in bits <==> b >= first && b - first in WordOf(n))
    ensures Holds(was, Replaced(was, field, bits), first, last, n)
  {
    hide WordOf, Bit;
    forall b: nat | b < 32
      ensures b in Replaced(was, field, bits) <==> (b in was && !(first <= b < last)) || (b >= first && Bit(n, b - first))
    {
      if b >= first {
        WordBit(n, b - first);
      }
    }
  }

  /** The client of a channel names an input: its setting, and no other, is in the multiplexer field; an input that is not
      configured changes nothing. */
  lemma MuxSelects(config: Config, c: Channel, input: string)
    ensures var now := Step(config, c, Command(c.clientId, MuxRequest(input)));
            && now.occupied == c.occupied && now.clientId == c.clientId
            && (if input in config.mux then Holds(c.conf, now.conf, 10, 15, config.mux[input]) else now.conf == c.conf)
    ensures Respond(config, c, c.clientId, MuxRequest(input)).answer == if input in config.mux then Ack else ErrVal
  {
    hide Holds, ShiftLeft, WordOf, Field;
    if input in config.mux {
      var n := config.mux[input];
      forall b: nat | b < 32 ensures b in ShiftLeft(WordOf(n), 10) <==> b >= 10 && b - 10 in WordOf(n) {
        ShiftedMember(WordOf(n), b);
      }
      FieldHolds(c.conf, MUX_FIELD, 10, 15, n, ShiftLeft(WordOf(n), 10));
    }
  }

  /** It names a synchronisation source: the index counted from 1 is in the source field. */
  lemma SyncSelects(config: Config, c: Channel, index: Option<int>)
    ensures var now := Step(config, c, Command(c.clientId, SyncRequest(index)));
            && now.occupied == c.occupied && now.clientId == c.clientId
            && (if index.Some? && 0 <= index.value <= config.number then Holds(c.conf, now.conf, 0, 8, index.value + 1)
                else now.conf == c.conf)
    ensures Respond(config, c, c.clientId, SyncRequest(index)).answer ==
            if index.Some? && 0 <= index.value <= config.number then Ack else ErrVal
  {
    hide Holds, WordOf, Field;
    if index.Some? && 0 <= index.value <= config.number {
      FieldHolds(c.conf, SYNC_FIELD, 0, 8, index.value + 1, WordOf(index.value + 1));
    }
  }

  /** The bits of the four configurations: enable N 8, enable P 9, direction 15, single 16, start by 17 and 18, arm by 20,
      carry 23. */
  function ConfigBits(id: nat): set<int> {
    match id
    case 0 => {8, 16, 23}
    case 1 => {8, 23}
    case 2 => {8, 15, 16, 17, 18, 20}
    case 3 => {8, 9, 15, 16}
    case _ => {}
  }

  /** The source and multiplexer fields are kept, and elsewhere there are these bits and no others. */
  ghost predicate Configured(was: Word, now: Word, bits: set<int>) {
    forall b: nat :: b < 32 ==> (b in now <==> if b < 8 || 10 <= b < 15 then b in was else b in bits)
  }

  /** It names a configuration: outside the source and multiplexer fields there are its bits and no others. */
  lemma CmdIdSelects(config: Config, c: Channel, id: Option<int>)
    ensures var now := Step(config, c, Command(c.clientId, CmdIdRequest(id)));
            && now.occupied == c.occupied && now.clientId == c.clientId
            && (if id.Some? && 0 <= id.value < 4
                then Configured(c.conf, now.conf, ConfigBits(id.value)) else now.conf == c.conf)
    ensures Respond(config, c, c.clientId, CmdIdRequest(id)).answer == if id.Some? && 0 <= id.value < 4 then Ack else ErrVal
  {
    hide Written, Configured, ConfigBits;
    FourConfigs();
    if id.Some? && 0 <= id.value < 4 {
      ConfigWritten(c.conf, id.value);
    } else {
      NothingKeeps(c.conf);
    }
  }

  lemma NothingKeeps(was: Word)
    ensures Written(was, Nothing) == was
  {
  }

  lemma FourConfigs()
    ensures |SEC_CONFIGS| == 4
  {
  }

  lemma ConfigWritten(was: Word, id: nat)
    requires id < 4
    ensures Configured(was, Written(was, CmdTo(id)), ConfigBits(id))
  {
    ConfigInField(id);
    ConfigsAre(id);
    CmdField();
    hide Field, ConfigBits, SecConfig, WordOf, ShiftLeft;
  }

  lemma ConfigsAre(id: nat)
    requires id < 4
    ensures SecConfig(id) == ConfigBits(id)
  {
    assert id == 0 || id == 1 || id == 2 || id == 3;
  }

  lemma CmdField()
    ensures forall b: nat :: b in CMD_FIELD <==> b < 32 && !(b < 8 || 10 <= b < 15)
  {
    hide Field;
  }

  /** It writes the whole register, or nothing when there is no number; a command of anybody else, and one that does not
      parse, leaves the channel as it is. */
  lemma OtherRequests(config: Config, c: Channel, clientId: string, request: Request)
    requires clientId != c.clientId || request.ConfRequest? || request.Malformed?
    ensures Step(config, c, Command(clientId, request)) ==
            if clientId == c.clientId && request.ConfRequest? && request.value.Some? then c.(conf := request.value.value) else c
    ensures Respond(config, c, clientId, request).answer ==
            if request.Malformed? then Nak else if clientId != c.clientId then ErrAut
            else if request.value.Some? then Ack else Nak
  {
    hide Field, WordOf, ShiftLeft, Replaced, SecConfig;
  }
}
