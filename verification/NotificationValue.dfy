/** A value that announces the rising edges of its bits. */
module NotificationValues {
  import opened BitWords

  datatype Update = Set(word: Word) | Clr(word: Word)

  /** The bits announced by an update. */
  function Rising(value: Word, u: Update): Word {
    match u
    case Set(word) => Xor(value, word) * word
    case Clr(_) => {}
  }

  function Updated(value: Word, u: Update): Word {
    match u
    case Set(word) => value + word
    case Clr(word) => value - word
  }

  function After(value: Word, updates: seq<Update>): Word {
    if updates == [] then value
    else Updated(After(value, updates[..|updates| - 1]), updates[|updates| - 1])
  }

  /** An update announces a bit exactly when it takes the bit from 0 to 1. */
  lemma AnnouncedIsEdge(value: Word, u: Update, bit: int)
    ensures bit in Rising(value, u) <==> bit !in value && bit in Updated(value, u)
  {
  }

  /** What the last update that names a bit did to it; an update that does not name it leaves it as it is. */
  function LastTouch(updates: seq<Update>, bit: int, otherwise: bool): bool {
    if updates == [] then otherwise
    else
      var last := updates[|updates| - 1];
      if bit in last.word then last.Set? else LastTouch(updates[..|updates| - 1], bit, otherwise)
  }

  /** Over every run a bit is set exactly when the last update that names it set it. */
  lemma {:induction false} BitIsLastTouch(value: Word, updates: seq<Update>, bit: int)
    ensures bit in After(value, updates) <==> LastTouch(updates, bit, bit in value)
  {
    if updates == [] {
    } else {
      BitIsLastTouch(value, updates[..|updates| - 1], bit);
    }
  }

  /** How often the bit was announced. */
  function Announcements(value: Word, updates: seq<Update>, bit: int): nat {
    if updates == [] then 0
    else
      var k := |updates| - 1;
      Announcements(value, updates[..k], bit) + if bit in Rising(After(value, updates[..k]), updates[k]) then 1 else 0
  }

  /** How often the bit went from 1 to 0. */
  function Falls(value: Word, updates: seq<Update>, bit: int): nat {
    if updates == [] then 0
    else
      var k := |updates| - 1;
      var before := After(value, updates[..k]);
      Falls(value, updates[..k], bit) + if bit in before && bit !in Updated(before, updates[k]) then 1 else 0
  }

  function Level(value: Word, bit: int): nat {
    if bit in value then 1 else 0
  }

  /** Over every run announcements and clears balance: no edge is lost and none is announced twice. */
  lemma {:induction false} EdgesBalance(value: Word, updates: seq<Update>, bit: int)
    ensures Level(value, bit) + Announcements(value, updates, bit) == Level(After(value, updates), bit) + Falls(value, updates, bit)
  {
    if updates == [] {
    } else {
      var k := |updates| - 1;
      EdgesBalance(value, updates[..k], bit);
      AnnouncedIsEdge(After(value, updates[..k]), updates[k], bit);
      hide Rising, Updated;
    }
  }

  class NotificationValue {
    var value: Word
    ghost var announced: seq<Word>

    constructor (value: Word)
      ensures this.value == value && announced == []
    {
      this.value, announced := value, [];
    }

    /** Announces the rising bits, if there are any, before the value changes. */
    method SetValue(val: Word)
      modifies this
      ensures value == Updated(old(value), Set(val))
      ensures announced == old(announced) + if Rising(old(value), Set(val)) == {} then [] else [Rising(old(value), Set(val))]
    {
      var changedBitMask := Xor(value, val);
      var risingEdgeBits := changedBitMask * val;
      if risingEdgeBits != {} {
        announced := announced + [risingEdgeBits];
      }
      value := value + val;
    }

    method ClrValue(val: Word)
      modifies this`value
      ensures value == Updated(old(value), Clr(val))
    {
      value := value - val;
    }
  }
}
