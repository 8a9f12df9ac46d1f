/** The configuration register of an error calculator channel and its writers. */
module SecConf {
  import opened BitWords
  import opened Wrappers

  const SYNC_FIELD: Word := Field(0, 8)
  const MUX_FIELD: Word := Field(10, 15)
  const CMD_FIELD: Word := Field(0, 32) - SYNC_FIELD - MUX_FIELD

  const EN_N: int := 8
  const EN_P: int := 9
  const DIRECTION: int := 15
  const SINGLE: int := 16
  const CNT2CARRY: int := 23

  /** Single error master, continuous error master, error slave, flank count. The slave also sets two bits from 17 on
      (start by) and the upper one of the two from 19 on (armed by). */
  const SEC_CONFIGS: seq<Word> := [
    {EN_N, SINGLE, CNT2CARRY},
    {EN_N, CNT2CARRY},
    {EN_N, DIRECTION, SINGLE, 17, 18, 20},
    {SINGLE, DIRECTION, EN_P, EN_N}
  ]

  /** What an accepted command does to the register: an 8-bit synchronisation source, a signed 8-bit multiplexer
      setting, a configuration, or the whole register. */
  datatype Effect = Nothing | SyncTo(number: int) | MuxTo(number: int) | CmdTo(id: nat) | Raw(word: Word)

  function SecConfig(id: nat): Word {
    if id < |SEC_CONFIGS| then SEC_CONFIGS[id] else {}
  }

  function Written(reg: Word, e: Effect): Word {
    match e
    case Nothing => reg
    case SyncTo(number) => Replaced(reg, SYNC_FIELD, WordOf(number))
    case MuxTo(number) => Replaced(reg, MUX_FIELD, ShiftLeft(WordOf(number), 10))
    case CmdTo(id) => Replaced(reg, CMD_FIELD, SecConfig(id))
    case Raw(word) => word
  }

  function Fold(reg: Word, effects: seq<Effect>): Word {
    if effects == [] then reg else Written(Fold(reg, effects[..|effects| - 1]), effects[|effects| - 1])
  }

  /** The last value of each kind since the register was last written as a whole. */
  datatype Last = Last(base: Word, sync: Option<int>, mux: Option<int>, cmd: Option<nat>)

  function LastOfOne(l: Last, e: Effect): Last {
    match e
    case Nothing => l
    case SyncTo(number) => l.(sync := Some(number))
    case MuxTo(number) => l.(mux := Some(number))
    case CmdTo(id) => l.(cmd := Some(id))
    case Raw(word) => Last(word, None, None, None)
  }

  function LastOf(reg: Word, effects: seq<Effect>): Last {
    if effects == [] then Last(reg, None, None, None)
    else LastOfOne(LastOf(reg, effects[..|effects| - 1]), effects[|effects| - 1])
  }

  function SyncPart(l: Last): Word {
    if l.sync.Some? then WordOf(l.sync.value) else l.base * SYNC_FIELD
  }

  function MuxPart(l: Last): Word {
    if l.mux.Some? then ShiftLeft(WordOf(l.mux.value), 10) else l.base * MUX_FIELD
  }

  function CmdPart(l: Last): Word {
    if l.cmd.Some? then SecConfig(l.cmd.value) else l.base * CMD_FIELD
  }

  /** Three fields side by side. */
  function Assembled(l: Last): Word {
    SyncPart(l) + MuxPart(l) + CmdPart(l)
  }

  predicate InRange(e: Effect) {
    (e.SyncTo? ==> 0 <= e.number < 0x100) && (e.MuxTo? ==> 0 <= e.number < 32)
  }

  predicate LastInRange(l: Last) {
    (l.sync.Some? ==> 0 <= l.sync.value < 0x100) && (l.mux.Some? ==> 0 <= l.mux.value < 32)
  }

  /** A synchronisation source stays inside its field exactly when it is below 256. */
  lemma SyncInField(number: nat)
    requires number < WORD_SIZE
    ensures WordOf(number) <= SYNC_FIELD <==> number < 0x100
  {
    SmallWord(number);
    Powers();
    BitsBelow(number, 8);
  }

  /** A multiplexer setting stays inside its field exactly when it is from 0 to 31. */
  lemma MuxInField(number: int)
    requires -0x80 <= number < 0x80
    ensures ShiftLeft(WordOf(number), 10) <= MUX_FIELD <==> 0 <= number < 32
  {
    if number < 0 {
      NegativeHasBit7(number);
      Shifted(WordOf(number), 10, 17);
      assert 17 in ShiftLeft(WordOf(number), 10);
    } else {
      SmallWord(number);
      Powers();
      BitsBelow(number, 5);
      BitsBelow(number, 8);
      ShiftedField(WordOf(number));
    }
  }

  lemma ShiftedMember(w: Word, c: int)
    ensures c in ShiftLeft(w, 10) <==> c - 10 in w && c < 32
  {
    hide Field;
    Shifted(w, 10, c);
  }

  lemma ShiftedField(w: Word)
    requires w <= Field(0, 8)
    ensures ShiftLeft(w, 10) <= MUX_FIELD <==> w <= Field(0, 5)
  {
    hide Field, ShiftLeft;
    if w <= Field(0, 5) {
      forall c | c in ShiftLeft(w, 10) ensures c in MUX_FIELD {
        ShiftedMember(w, c);
      }
    }
    if ShiftLeft(w, 10) <= MUX_FIELD {
      forall b | b in w ensures b in Field(0, 5) {
        ShiftedMember(w, b + 10);
        assert b + 10 in MUX_FIELD;
      }
    }
  }

  lemma ConfigInField(id: nat)
    ensures SecConfig(id) <= CMD_FIELD
  {
    hide Field;
    if id < 4 {
      var config := SEC_CONFIGS[id];
      assert id == 0 || id == 1 || id == 2 || id == 3;
      forall b | b in config ensures b in CMD_FIELD {
      }
    }
  }

  lemma FieldsAreDisjoint()
    ensures SYNC_FIELD !! MUX_FIELD && SYNC_FIELD !! CMD_FIELD && MUX_FIELD !! CMD_FIELD
    ensures forall reg: Word :: reg <= SYNC_FIELD + MUX_FIELD + CMD_FIELD
  {
    hide Field;
  }

  lemma PartsInFields(l: Last)
    requires LastInRange(l)
    ensures SyncPart(l) <= SYNC_FIELD && MuxPart(l) <= MUX_FIELD && CmdPart(l) <= CMD_FIELD
  {
    hide WordOf, ShiftLeft, SecConfig, Field;
    if l.sync.Some? {
      SyncInField(l.sync.value);
    }
    if l.mux.Some? {
      MuxInField(l.mux.value);
    }
    if l.cmd.Some? {
      ConfigInField(l.cmd.value);
    }
  }

  /** Replacing one of three disjoint fields. */
  lemma FieldReplaced(f: set<int>, g: set<int>, h: set<int>, old': set<int>, a: set<int>, b: set<int>, new': set<int>)
    requires f !! g && f !! h && old' <= f && a <= g && b <= h
    ensures (old' + a + b) - f + new' == new' + a + b
  {
  }

  lemma AssembledWritten(l: Last, e: Effect)
    requires LastInRange(l) && InRange(e)
    ensures Written(Assembled(l), e) == Assembled(LastOfOne(l, e))
  {
    hide WordOf, ShiftLeft, SecConfig, Field;
    PartsInFields(l);
    FieldsAreDisjoint();
    var s, m, c := SyncPart(l), MuxPart(l), CmdPart(l);
    match e
    case Nothing =>
    case SyncTo(number) => FieldReplaced(SYNC_FIELD, MUX_FIELD, CMD_FIELD, s, m, c, WordOf(number));
    case MuxTo(number) =>
      assert s + m + c == m + s + c;
      FieldReplaced(MUX_FIELD, SYNC_FIELD, CMD_FIELD, m, s, c, ShiftLeft(WordOf(number), 10));
    case CmdTo(id) =>
      assert s + m + c == c + s + m;
      FieldReplaced(CMD_FIELD, SYNC_FIELD, MUX_FIELD, c, s, m, SecConfig(id));
    case Raw(word) => NothingWritten(word);
  }

  lemma {:induction false} StaysInRange(reg: Word, effects: seq<Effect>)
    requires forall e <- effects :: InRange(e)
    ensures LastInRange(LastOf(reg, effects))
  {
    if effects == [] {
    } else {
      StaysInRange(reg, effects[..|effects| - 1]);
      assert InRange(effects[|effects| - 1]);
    }
  }

  lemma NothingWritten(reg: Word)
    ensures Assembled(Last(reg, None, None, None)) == reg
  {
    FieldsAreDisjoint();
    hide Field;
  }

  /** After any run of writes in range the register is made of the last value of each kind: the order of different
      kinds does not matter. */
  lemma {:induction false} ConfIsLastOfEachKind(reg: Word, effects: seq<Effect>)
    requires forall e <- effects :: InRange(e)
    ensures Fold(reg, effects) == Assembled(LastOf(reg, effects))
  {
    hide Assembled, Written, LastOfOne;
    if effects == [] {
      NothingWritten(reg);
    } else {
      var before := effects[..|effects| - 1];
      ConfIsLastOfEachKind(reg, before);
      StaysInRange(reg, before);
      AssembledWritten(LastOf(reg, before), effects[|effects| - 1]);
    }
  }

  /** The range of the synchronisation source is exact: only in range is it overwritten by the next one. */
  lemma SyncLeavesNoTraceIff(number: nat, next: nat)
    requires number < WORD_SIZE && next < 0x100
    ensures (forall reg: Word :: Written(Written(reg, SyncTo(number)), SyncTo(next)) == Written(reg, SyncTo(next)))
            <==> number < 0x100
  {
    hide WordOf;
    SyncInField(number);
    SyncInField(next);
    var empty: Word := {};
    if number >= 0x100 {
      var bit :| bit in WordOf(number) && bit !in SYNC_FIELD;
      assert bit in Written(Written(empty, SyncTo(number)), SyncTo(next));
      assert bit !in Written(empty, SyncTo(next));
    }
  }

  /** And so is the range of the multiplexer setting. */
  lemma MuxLeavesNoTraceIff(number: int, next: int)
    requires -0x80 <= number < 0x80 && 0 <= next < 32
    ensures (forall reg: Word :: Written(Written(reg, MuxTo(number)), MuxTo(next)) == Written(reg, MuxTo(next)))
            <==> 0 <= number < 32
  {
    hide WordOf, ShiftLeft;
    MuxInField(number);
    MuxInField(next);
    var empty: Word := {};
    if !(0 <= number < 32) {
      var bit :| bit in ShiftLeft(WordOf(number), 10) && bit !in MUX_FIELD;
      assert bit in Written(Written(empty, MuxTo(number)), MuxTo(next));
      assert bit !in Written(empty, MuxTo(next));
    }
  }
}
