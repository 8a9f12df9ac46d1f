/** Static facts of the DSP: the command table, the 64-bit instruction format and the memory layouts. */
module DspApi {
  import opened MachineWords
  import opened Wrappers

  datatype CmdClass = Cmd | Cmd1i16 | Cmd2i16 | Cmd3i16 | Cmd1i32 | Cmd1i161fi32

  datatype CmdDetails = CmdDetails(cmdClass: CmdClass, carriesClientId: bool)

  const CMD_COUNT: nat := 81

  const INVALID: nat := 0
  const USERMEMOFFSET: nat := 1
  const DSPMEMOFFSET: nat := 2
  const CLEARN: nat := 21
  const DSPINTTRIGGER: nat := 41
  const DSPINTPOST: nat := 68
  const COPYMEM: nat := 72

  // The command table by class. The source lists the commands in the order of their codes, so every code below
  // CMD_COUNT is a row; the class of three 16-bit operands has all rows no other class lists.
  // no operand:
  //   INVALID 0, CLKOUT 14, CTRLINTTRIGGER 40, TESTSYNCPPSSKIPEQ 56, RESETSYNCPPS 57, DSPINTPOST 68,
  //   TESTSKIPNOIRQPENDING 79
  const PLAIN_CMDS: set<nat> := {0, 14, 40, 56, 57, 68, 79}

  // one 16-bit operand:
  //   BREAK 52, INC 54, CLKMODE 63, GETSTIME 64
  const ONE_HALF_CMDS: set<nat> := {52, 54, 63, 64}

  // two 16-bit operands:
  //   RMS 7, CLEARN 21, THDN 26, STOPCHAIN 30, ACTIVATECHAIN 31, DEACTIVATECHAIN 32, TESTVVSKIPEQ 36,
  //   TESTVVSKIPGT 37, TESTVVSKIPLT 38, WRITEINTCMD 39, DSPINTTRIGGER 41, HANNING 42, WRITEPORT 43, SYMPHI 51,
  //   FLATTOP 53, SQRT 60, COPYVAL 61, TESTTIMESKIPNEX 65, SETPEAK 69, XDSPINTTRIGGER 80
  const TWO_HALVES_CMDS: set<nat> :=
    {7, 21, 26, 30, 31, 32, 36, 37, 38, 39, 41, 42, 43, 51, 53, 60, 61, 65, 69, 80}

  // one 32-bit operand:
  //   USERMEMOFFSET 1, DSPMEMOFFSET 2
  const ADDRESS_CMDS: set<nat> := {1, 2}

  // a 16-bit and a 32-bit operand:
  //   SETVAL 10, ROTATE 11, MULCV 28, TESTVCSKIPEQ 33, TESTVCSKIPGT 34, TESTVCSKIPLT 35, NORMVC 48
  const MIXED_CMDS: set<nat> := {10, 11, 28, 33, 34, 35, 48}

  // commands that receive the id of the client they belong to:
  //   STARTCHAIN 29, STOPCHAIN 30, ACTIVATECHAIN 31, DEACTIVATECHAIN 32, WRITEINTCMD 39, DSPINTTRIGGER 41,
  //   XDSPINTTRIGGER 80
  const CLIENT_ID_CMDS: set<nat> := {29, 30, 31, 32, 39, 41, 80}

  function DspCmd(code: nat): CmdDetails
    requires code < CMD_COUNT
  {
    CmdDetails(
      if code in PLAIN_CMDS then Cmd
      else if code in ONE_HALF_CMDS then Cmd1i16
      else if code in TWO_HALVES_CMDS then Cmd2i16
      else if code in ADDRESS_CMDS then Cmd1i32
      else if code in MIXED_CMDS then Cmd1i161fi32
      else Cmd3i16,
      code in CLIENT_ID_CMDS)
  }

  /** A compiled command: two 32-bit words, the command code in the upper half of the first. */
  datatype Instr = Instr(w0: u32, w1: u32)

  // One encoder per constructor of the source; the sums are taken on disjoint bit fields.
  function EncodeCmd(cmd: u16): Instr {
    Instr(cmd * 0x1_0000, 0)
  }

  function Encode1x16(cmd: u16, p1: u16): Instr {
    Instr(cmd * 0x1_0000, p1)
  }

  function Encode1x32(cmd: u16, p1: u32): Instr {
    Instr(cmd * 0x1_0000, p1)
  }

  function Encode2x16(cmd: u16, p1: u16, p2: u16): Instr {
    Instr(cmd * 0x1_0000, p1 * 0x1_0000 + p2)
  }

  function Encode3x16(cmd: u16, p1: u16, p2: u16, p3: u16): Instr {
    Instr(cmd * 0x1_0000 + p1, p2 * 0x1_0000 + p3)
  }

  function Encode1x16x32(cmd: u16, p1: u16, p2: u32): Instr {
    Instr(cmd * 0x1_0000 + p1, p2)
  }

  /** Commands marked "modify" carry the client's interrupt id in the upper half of the second word. */
  function PatchClientId(i: Instr, id: u16): Instr {
    i.(w1 := i.w1 % 0x1_0000 + id * 0x1_0000)
  }

  function CodeOf(i: Instr): u16 {
    i.w0 / 0x1_0000
  }

  function OperandsOfClass(cmdClass: CmdClass, i: Instr): seq<u32> {
    match cmdClass
    case Cmd => []
    case Cmd1i16 => [i.w1]
    case Cmd1i32 => [i.w1]
    case Cmd2i16 => [i.w1 / 0x1_0000, i.w1 % 0x1_0000]
    case Cmd3i16 => [i.w0 % 0x1_0000, i.w1 / 0x1_0000, i.w1 % 0x1_0000]
    case Cmd1i161fi32 => [i.w0 % 0x1_0000, i.w1]
  }

  /** What the DSP reads out of an instruction, selected by the class of its code. */
  function DecodeOperands(i: Instr): seq<u32> {
    if CodeOf(i) >= CMD_COUNT then [] else OperandsOfClass(DspCmd(CodeOf(i)).cmdClass, i)
  }

  // Little-endian stream of 32-bit words.
  function WordBytes(w: u32): (b: seq<u8>)
    ensures |b| == 4
  {
    [w % 0x100, w / 0x100 % 0x100, w / 0x1_0000 % 0x100, w / 0x100_0000]
  }

  function BytesWord(b: seq<u8>): u32
    requires |b| == 4
  {
    var b0: int, b1: int, b2: int, b3: int := b[0], b[1], b[2], b[3];
    b0 + b1 * 0x100 + b2 * 0x1_0000 + b3 * 0x100_0000
  }

  lemma WordReadsBack(w: u32)
    ensures BytesWord(WordBytes(w)) == w
  {
    var q1, q2 := w / 0x100, w / 0x1_0000;
    assert q1 / 0x100 == q2 && q2 / 0x100 == w / 0x100_0000;
    assert w == w % 0x100 + 0x100 * q1;
    assert q1 == q1 % 0x100 + 0x100 * q2;
    assert q2 == q2 % 0x100 + 0x100 * (q2 / 0x100);
  }

  function StreamOut(instrs: seq<Instr>): (b: seq<u8>)
    ensures |b| == 8 * |instrs|
  {
    if instrs == [] then []
    else
      var last := instrs[|instrs| - 1];
      StreamOut(instrs[..|instrs| - 1]) + WordBytes(last.w0) + WordBytes(last.w1)
  }

  function StreamIn(b: seq<u8>): seq<Instr>
    requires |b| % 8 == 0
  {
    if b == [] then []
    else
      var n := |b| - 8;
      StreamIn(b[..n]) + [Instr(BytesWord(b[n..n + 4]), BytesWord(b[n + 4..]))]
  }

  lemma StreamInLast(front: seq<u8>, i: Instr)
    requires |front| % 8 == 0
    ensures StreamIn(front + WordBytes(i.w0) + WordBytes(i.w1)) == StreamIn(front) + [i]
  {
    var b := front + WordBytes(i.w0) + WordBytes(i.w1);
    var n := |front|;
    assert b[..n] == front;
    assert b[n..n + 4] == WordBytes(i.w0);
    assert b[n + 4..] == WordBytes(i.w1);
    WordReadsBack(i.w0);
    WordReadsBack(i.w1);
  }

  /** The bytes sent to the DSP determine the instructions. */
  lemma {:induction false} StreamReadsBack(instrs: seq<Instr>)
    ensures StreamIn(StreamOut(instrs)) == instrs
  {
    if instrs == [] {
      return;
    }
    hide StreamIn, WordBytes;
    var front, last := instrs[..|instrs| - 1], instrs[|instrs| - 1];
    StreamReadsBack(front);
    StreamInLast(StreamOut(front), last);
    assert instrs == front + [last];
  }

  /** Byte k of an instruction in the stream: the first word before the second, low bytes first. */
  function StreamByte(i: Instr, k: nat): int
    requires k < 8
  {
    match k
    case 0 => i.w0 % 0x100
    case 1 => i.w0 / 0x100 % 0x100
    case 2 => i.w0 / 0x1_0000 % 0x100
    case 3 => i.w0 / 0x100_0000
    case 4 => i.w1 % 0x100
    case 5 => i.w1 / 0x100 % 0x100
    case 6 => i.w1 / 0x1_0000 % 0x100
    case 7 => i.w1 / 0x100_0000
  }

  /** Every byte of the stream. */
  lemma {:induction false} StreamBytes(instrs: seq<Instr>, n: nat, k: nat)
    requires n < |instrs| && k < 8
    ensures StreamOut(instrs)[8 * n + k] == StreamByte(instrs[n], k)
  {
    var last := |instrs| - 1;
    if n < last {
      hide StreamByte, WordBytes;
      StreamBytes(instrs[..last], n, k);
    }
  }

  datatype Chip = Sharc21262 | Sharc21362

  datatype Layout = Layout(dspWorkspace: u32, dialogWorkspace: u32, userWorkspace: u32, cmdList: u32,
                           userAligned: u32, uwSpaceSize: u16, cmdListLen: u16, intCmdListLen: u16)
  {
    function End(): int {
      userWorkspace + uwSpaceSize
    }

    function VarMemAvailable(): int {
      userAligned - userWorkspace
    }

    function VarMemAlignedAvailable(): int {
      End() - userAligned
    }

    /** What the allocation and the 16-bit operands rely on. */
    predicate Sound() {
      && 0x1_0000 <= userWorkspace < userAligned <= End() < 0x10_0000
      && uwSpaceSize < 0x8000
      && dspWorkspace < dialogWorkspace < dspWorkspace + 0x7000 < 0x10_0000
    }
  }

  function LayoutOf(chip: Chip): (l: Layout)
    ensures l.Sound()
  {
    match chip
    case Sharc21262 => Layout(0x82800, 0x83800, 0x84800, 0x84000, 0x87000, 14335, 896, 128)
    case Sharc21362 => Layout(0xE0800, 0xE1800, 0x98180, 0xE2000, 0x9F000, 32383, 3584, 512)
  }
}
