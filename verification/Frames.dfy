/**
 The protocol in plain numbers (include/robstride.hpp, src/robstride.cpp, docs/motor_config.md): what a
 device that knows the manual, and none of the definitions of Wire, sees of each frame and each range.
 */
module Frames {
  import opened Util
  import opened Codec
  import opened Wire

  // ----- commands -----

  /** The 29-bit identifier of each command. */
  function IdNumber(rnd: Rounding, host: Byte, motor: Byte, cmd: Command): int
    requires Faithful(rnd) && cmd.Encodable()
  {
    match cmd
    case GetId => host * 0x100 + motor
    case Mit(_, _, _, _, tau) => 0x100_0000 + FloatToUint(rnd, tau.r, TORQUE) * 0x100 + motor
    case Enable => 0x300_0000 + host * 0x100 + motor
    case Stop => 0x400_0000 + host * 0x100 + motor
    case SetCanId(newId) => 0x700_0000 + newId * 0x1_0000 + host * 0x100 + motor
    case ReadMechPos => 0x1100_0000 + host * 0x100 + motor
    case SetRunMode(_) => 0x1200_0000 + host * 0x100 + motor
  }

  function Word(high: int, low: int): int { high * 0x100 + low }

  /** The payload read as four numbers, most significant byte first. */
  function Words(m: CanMsg): seq<int> {
    [Word(m.data[0], m.data[1]), Word(m.data[2], m.data[3]), Word(m.data[4], m.data[5]), Word(m.data[6], m.data[7])]
  }

  /** Every command is an extended frame of eight bytes, under its identifier. */
  lemma CommandIds(rnd: Rounding, host: Byte, motor: Byte, cmd: Command)
    requires Faithful(rnd) && cmd.Encodable()
    ensures var m := Encode(rnd, host, motor, cmd); m.extended && m.len == 8 && m.id == IdNumber(rnd, host, motor, cmd)
  {
    hide FloatToUint, Faithful;
  }

  /** Only MIT and parameter frames carry bytes that are not zero. */
  lemma CommandData(rnd: Rounding, host: Byte, motor: Byte, cmd: Command)
    requires Faithful(rnd) && cmd.Encodable()
    ensures cmd.ReadMechPos? ==> Encode(rnd, host, motor, cmd).data == [0x19, 0x70, 0, 0, 0, 0, 0, 0]
    ensures cmd.SetRunMode? ==> Encode(rnd, host, motor, cmd).data == [0x05, 0x70, 0, 0, cmd.mode, 0, 0, 0]
    ensures cmd.Mit? ==>
              (Words(Encode(rnd, host, motor, cmd)) ==
               [FloatToUint(rnd, cmd.q.r, POSITION), FloatToUint(rnd, cmd.dq.r, VELOCITY),
                FloatToUint(rnd, cmd.kp.r, KP), FloatToUint(rnd, cmd.kd.r, KD)])
    ensures cmd.GetId? || cmd.Enable? || cmd.Stop? || cmd.SetCanId? ==>
              Encode(rnd, host, motor, cmd).data == [0, 0, 0, 0, 0, 0, 0, 0]
  {
    hide FloatToUint, Faithful, BuildExtId;
    if cmd.Mit? {
      BigEndianWords(FloatToUint(rnd, cmd.q.r, POSITION), FloatToUint(rnd, cmd.dq.r, VELOCITY),
               FloatToUint(rnd, cmd.kp.r, KP), FloatToUint(rnd, cmd.kd.r, KD));
    }
  }

  lemma BigEndianWords(a: Code, b: Code, c: Code, d: Code)
    ensures forall id: Id32 :: Words(CanMsg(true, id, 8, BigEndian(a, b, c, d))) == [a, b, c, d]
  {
    hide High, Low, Word;
    WordOf(a); WordOf(b); WordOf(c); WordOf(d);
  }

  lemma WordOf(c: Code)
    ensures Word(High(c), Low(c)) == c
  {
  }

  /** What a motor reads from a parameter frame: an independent decoder, the index least significant
      byte first; `rest` is the bytes that must be zero. */
  datatype Request = Request(kind: int, host: int, motor: int, index: int, value: int, rest: seq<int>)

  function ParamDecode(m: CanMsg): Request {
    Request(m.id / 0x100_0000 % 0x20, m.id / 0x100 % 0x1_0000, m.id % 0x100, Word(m.data[1], m.data[0]), m.data[4],
            [m.data[2], m.data[3], m.data[5], m.data[6], m.data[7]])
  }

  /** The position request reads parameter 0x7019; the run-mode write sets parameter 0x7005 to the mode. */
  lemma ParamDecodes(rnd: Rounding, host: Byte, motor: Byte, mode: Byte)
    requires Faithful(rnd)
    ensures var m := Encode(rnd, host, motor, ReadMechPos);
            m.extended && m.len == 8 && ParamDecode(m) == Request(0x11, host, motor, 0x7019, 0, [0, 0, 0, 0, 0])
    ensures var m := Encode(rnd, host, motor, SetRunMode(mode));
            m.extended && m.len == 8 && ParamDecode(m) == Request(0x12, host, motor, 0x7005, mode, [0, 0, 0, 0, 0])
    ensures MODE_MIT == 0
  {
    CommandData(rnd, host, motor, ReadMechPos);
    CommandData(rnd, host, motor, SetRunMode(mode));
    hide Faithful, BuildExtId;
    ParamId(Encode(rnd, host, motor, ReadMechPos), 0x11, host, motor);
    ParamId(Encode(rnd, host, motor, SetRunMode(mode)), 0x12, host, motor);
  }

  lemma ParamId(m: CanMsg, kind: Byte, host: Byte, motor: Byte)
    requires kind < 0x20 && m.id == BuildExtId(kind, host, motor)
    ensures var r := ParamDecode(m); r.kind == kind && r.host == host && r.motor == motor
  {
    ExtIdFields(kind, host, motor);
  }

  // ----- ranges -----

  /** The lowest and the highest code of each range decode to its two limits. */
  lemma RangeEnds()
    ensures Level(0, VELOCITY) == -44.0 && Level(65535, VELOCITY) == 44.0
    ensures Level(0, KP) == 0.0 && Level(65535, KP) == 500.0
    ensures Level(0, KD) == 0.0 && Level(65535, KD) == 5.0
    ensures Level(0, TORQUE) == -17.0 && Level(65535, TORQUE) == 17.0
    ensures Level(0, POSITION) == -Level(65535, POSITION)
    ensures Level(65535, POSITION) == 13180600.0 / 1048576.0
  {
    forall r | r in [POSITION, VELOCITY, KP, KD, TORQUE] ensures Level(0, r) == r.lo && Level(65535, r) == r.hi {
      Ends(r);
    }
    assert POSITION in [POSITION, VELOCITY, KP, KD, TORQUE];
  }

  lemma Ends(r: Range)
    ensures Level(0, r) == r.lo && Level(65535, r) == r.hi
  {
    assert Times(0.0, r.Width()) == 0.0 && Times(65535.0, r.Width()) == 65535.0 * r.Width();
  }

  /** 13180600 / 2^20 is the binary32 number nearest to 12.57, and TENTH the one nearest to 0.1: a 24-bit
      significand, less than half a unit in its last place away. */
  lemma LimitsNearest()
    ensures 0x80_0000 <= 13180600 < 0x100_0000 && Abs(13180600.0 / 1048576.0 - 12.57) < 0.5 / 1048576.0
    ensures 0x80_0000 <= 13421773 < 0x100_0000 && TENTH == 13421773.0 / 134217728.0 && Abs(TENTH - 0.1) < 0.5 / 134217728.0
  {
  }

  // ----- frames received -----

  /** A feedback frame is accepted exactly when it is extended, of kind 2 and from this motor. */
  lemma FeedbackAccepted(rnd: Rounding, motor: Byte, m: CanMsg)
    ensures ParseFeedback(rnd, motor, m).Some?
            <==> m.extended && m.id / 0x100_0000 % 0x20 == 2 && m.id / 0x100 % 0x100 == motor
  {
  }

  /** The feedback frame: kind 2, mode in bits 23 and 22, fault in bits 21 to 16, the motor above the host;
      position, velocity, torque and temperature most significant byte first. */
  lemma FeedbackNumbers(mode: Byte, fault: Byte, motor: Byte, host: Byte, pos: Code, vel: Code, tor: Code, temp: Code)
    requires mode < 4 && fault < 0x40
    ensures var m := FeedbackFrame(mode, fault, motor, host, pos, vel, tor, temp);
            && m.extended && m.id == 0x200_0000 + mode * 0x40_0000 + fault * 0x1_0000 + motor * 0x100 + host
            && Words(m) == [pos, vel, tor, temp]
  {
    BigEndianWords(pos, vel, tor, temp);
    hide Words, BigEndian;
  }

  /** A reply to a position request is accepted exactly when it is an extended frame of eight bytes, of
      kind 0x11, to this host, of parameter 0x7019, and its value's exponent is not all ones; it yields
      the motor it came from and that value. */
  lemma MechPosExactly(host: Byte, m: CanMsg)
    ensures ParseMechPos(host, m) ==
            if m.extended && m.len == 8 && m.id / 0x100_0000 % 0x20 == 0x11 && m.id % 0x100 == host
               && Word(m.data[1], m.data[0]) == 0x7019 && !(m.data[7] % 0x80 == 0x7F && m.data[6] >= 0x80)
            then Some((m.id / 0x100 % 0x100, Float32(m.data[4], m.data[5], m.data[6], m.data[7])))
            else None
  {
    AllOnes(m.data[4], m.data[5], m.data[6], m.data[7]);
    hide Float32;
  }
}
