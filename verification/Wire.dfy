/**
 The RobStride private CAN protocol: 29-bit identifiers, payload packing, command frames, the
 feedback frame and the parameter-read reply (src/robstride.cpp, apps/position_read.cpp,
 apps/motor_config.cpp).
 */
module Wire {
  import opened Util
  import opened Codec

  type Id32 = n: int | 0 <= n < 0x1_0000_0000

  /** TPCANMsg: the payload array always has eight bytes, whatever LEN says. */
  datatype CanMsg = CanMsg(extended: bool, id: Id32, len: Byte, data: Bytes8)

  /** What one read of a channel delivers: a frame, an empty queue, or an error. */
  datatype ReadResult = Got(msg: CanMsg) | Nothing | Broken

  const COMM_GET_ID: Byte := 0x00
  const COMM_MIT_CONTROL: Byte := 0x01
  const COMM_FEEDBACK: Byte := 0x02
  const COMM_ENABLE: Byte := 0x03
  const COMM_STOP: Byte := 0x04
  const COMM_SET_CAN_ID: Byte := 0x07
  const COMM_PARAM_READ: Byte := 0x11
  const COMM_PARAM_WRITE: Byte := 0x12

  const PARAM_RUN_MODE: Code := 0x7005
  const PARAM_MECH_POS: Code := 0x7019
  const MODE_MIT: Byte := 0

  // ----- identifiers -----

  /** The shifts and ors of build_ext_id act on disjoint bit fields, so they are sums here. */
  function BuildExtId(commType: Byte, field: Code, motor: Byte): Id32 {
    (commType % 0x20) * 0x100_0000 + field * 0x100 + motor
  }

  function CommType(id: Id32): Byte { (id / 0x100_0000) % 0x20 }
  function DataField(id: Id32): Code { (id / 0x100) % 0x1_0000 }
  function SourceId(id: Id32): Byte { (id / 0x100) % 0x100 }
  function DestId(id: Id32): Byte { id % 0x100 }
  function ModeStatus(id: Id32): Byte { (id / 0x40_0000) % 4 }
  function FaultFlags(id: Id32): Byte { (id / 0x1_0000) % 0x40 }

  lemma Divides(hi: int, lo: int, n: int, id: int)
    requires n > 0 && 0 <= lo < n && id == hi * n + lo
    ensures id / n == hi && id % n == lo
  {
    if id / n < hi { MulLess(id / n + 1, hi, n); }
    if id / n > hi { MulLess(hi + 1, id / n, n); }
  }

  lemma MulLess(a: int, b: int, n: int)
    requires a <= b && n > 0
    ensures a * n <= b * n
  {
  }

  lemma ExtIdParts(commType: Byte, field: Code, motor: Byte)
    requires commType < 0x20
    ensures var id := BuildExtId(commType, field, motor);
            && id < 0x2000_0000
            && id / 0x100 == commType * 0x1_0000 + field && id % 0x100 == motor
            && id / 0x100_0000 == commType
  {
    var id := BuildExtId(commType, field, motor);
    Divides(commType * 0x1_0000 + field, motor, 0x100, id);
    Divides(commType, field * 0x100 + motor, 0x100_0000, id);
  }

  lemma ExtIdFields(commType: Byte, field: Code, motor: Byte)
    requires commType < 0x20
    ensures var id := BuildExtId(commType, field, motor);
            && id < 0x2000_0000
            && CommType(id) == commType && DataField(id) == field && DestId(id) == motor
            && SourceId(id) == field % 0x100
  {
    ExtIdParts(commType, field, motor);
    var id := BuildExtId(commType, field, motor);
    Divides(commType, field, 0x1_0000, id / 0x100);
    Divides(commType * 0x100 + field / 0x100, field % 0x100, 0x100, id / 0x100);
  }

  lemma StatusBits(commType: Byte, mode: Byte, fault: Byte, low: Code)
    requires commType < 0x20 && mode < 4 && fault < 0x40
    ensures var id := commType * 0x100_0000 + mode * 0x40_0000 + fault * 0x1_0000 + low;
            ModeStatus(id) == mode && FaultFlags(id) == fault
  {
    var id := commType * 0x100_0000 + mode * 0x40_0000 + fault * 0x1_0000 + low;
    Divides(commType * 4 + mode, fault * 0x1_0000 + low, 0x40_0000, id);
    Divides(commType * 0x100 + mode * 0x40 + fault, low, 0x1_0000, id);
    Divides(commType, mode, 4, commType * 4 + mode);
    Divides(commType * 4 + mode, fault, 0x40, commType * 0x100 + mode * 0x40 + fault);
  }

  /** The status bits a feedback identifier carries above the motor id. */
  lemma ExtIdStatus(commType: Byte, mode: Byte, fault: Byte, source: Byte, dest: Byte)
    requires commType < 0x20 && mode < 4 && fault < 0x40
    ensures var id := BuildExtId(commType, mode * 0x4000 + fault * 0x100 + source, dest);
            && CommType(id) == commType && SourceId(id) == source && DestId(id) == dest
            && ModeStatus(id) == mode && FaultFlags(id) == fault
  {
    var field := mode * 0x4000 + fault * 0x100 + source;
    Divides(0, commType, 0x20, commType);
    assert BuildExtId(commType, field, dest)
           == commType * 0x100_0000 + mode * 0x40_0000 + fault * 0x1_0000 + (source * 0x100 + dest);
    hide BuildExtId, CommType, DataField, SourceId, DestId, ModeStatus, FaultFlags;
    ExtIdFields(commType, field, dest);
    Divides(mode * 0x40 + fault, source, 0x100, field);
    StatusBits(commType, mode, fault, source * 0x100 + dest);
  }

  /** In-range fields are recovered from the identifier, so equal identifiers mean equal fields. */
  lemma ExtIdInjective(c: Byte, f: Code, m: Byte, c': Byte, f': Code, m': Byte)
    requires c < 0x20 && c' < 0x20
    requires BuildExtId(c, f, m) == BuildExtId(c', f', m')
    ensures c == c' && f == f' && m == m'
  {
    ExtIdFields(c, f, m);
    ExtIdFields(c', f', m');
  }

  // ----- payload bytes -----

  function High(c: Code): Byte { c / 0x100 }
  function Low(c: Code): Byte { c % 0x100 }
  function Join(high: Byte, low: Byte): Code { high * 0x100 + low }

  /** Four codes, most significant byte first. */
  function BigEndian(a: Code, b: Code, c: Code, d: Code): Bytes8 {
    [High(a), Low(a), High(b), Low(b), High(c), Low(c), High(d), Low(d)]
  }

  /** Parameter requests carry the index least significant byte first. */
  function ParamPayload(index: Code, value: Byte): Bytes8 {
    [Low(index), High(index), 0, 0, value, 0, 0, 0]
  }

  const ZEROS: Bytes8 := [0, 0, 0, 0, 0, 0, 0, 0]

  // ----- binary32 values taken from the wire -----

  datatype Float = Fin(r: real) | Inf(negative: bool) | NaN {
    // IEEE comparisons: every comparison with NaN is false
    predicate Below(bound: real) { (Fin? && r < bound) || (Inf? && negative) }
    predicate Above(bound: real) { (Fin? && r > bound) || (Inf? && !negative) }
  }

  function Pow2(n: int): (p: real)
    ensures p > 0.0
    decreases if n < 0 then -n else n
  {
    if n == 0 then 1.0 else if n > 0 then 2.0 * Pow2(n - 1) else Pow2(n + 1) / 2.0
  }

  function Scale(significand: nat, p: real): real { significand as real * p }

  /** binary32 magnitudes: 23 fraction bits, an implicit leading bit unless the exponent field is zero. */
  function Magnitude(exponent: nat, fraction: nat): real {
    if exponent == 0 then Scale(fraction, Pow2(-149)) else Scale(fraction + 0x80_0000, Pow2(exponent - 150))
  }

  function ExponentOf(b2: Byte, b3: Byte): nat { (b3 % 0x80) * 2 + b2 / 0x80 }
  function FractionOf(b0: Byte, b1: Byte, b2: Byte): nat { (b2 % 0x80) * 0x1_0000 + b1 * 0x100 + b0 }

  /** The memcpy of four little-endian bytes into a float. */
  function Float32(b0: Byte, b1: Byte, b2: Byte, b3: Byte): Float {
    var exponent, fraction := ExponentOf(b2, b3), FractionOf(b0, b1, b2);
    if exponent == 255 then
      if fraction == 0 then Inf(b3 >= 0x80) else NaN
    else
      var m := Magnitude(exponent, fraction);
      Fin(if b3 >= 0x80 then -m else m)
  }

  lemma {:induction false} Pow2Doubles(n: int)
    ensures Pow2(n + 1) == 2.0 * Pow2(n)
  {
  }

  lemma {:induction false} Pow2Grows(m: int, n: int)
    requires m <= n
    ensures Pow2(m) <= Pow2(n)
    decreases n - m
  {
    if m < n {
      Pow2Grows(m, n - 1);
      Pow2Doubles(n - 1);
    }
  }

  lemma ScaleLess(a: nat, b: nat, p: real)
    requires a < b && p > 0.0
    ensures Scale(a, p) < Scale(b, p)
  {
  }

  lemma ScaleMono(a: nat, b: nat, p: real, q: real)
    requires a <= b && 0.0 < p <= q
    ensures Scale(a, p) <= Scale(b, q)
  {
    assert Scale(a, p) <= Scale(a, q);
    if a < b { ScaleLess(a, b, q); }
  }

  /** From one exponent to the next: a significand below 2^24 against one of at least 2^23. */
  lemma NextBinade(a: nat, b: nat, m: int, n: int)
    requires a < 0x100_0000 && 0x80_0000 <= b && m < n
    ensures Scale(a, Pow2(m)) < Scale(b, Pow2(n))
  {
    ScaleLess(a, 0x100_0000, Pow2(m));
    Pow2Doubles(m);
    assert Scale(0x100_0000, Pow2(m)) == Scale(0x80_0000, Pow2(m + 1));
    Pow2Grows(m + 1, n);
    ScaleMono(0x80_0000, b, Pow2(m + 1), Pow2(n));
  }

  lemma MagnitudeOrdered(e: nat, f: nat, e': nat, f': nat)
    requires f < 0x80_0000 && f' < 0x80_0000 && (e < e' || (e == e' && f < f'))
    ensures Magnitude(e, f) < Magnitude(e', f')
  {
    if e == e' {
      if e == 0 { ScaleLess(f, f', Pow2(-149)); } else { ScaleLess(f + 0x80_0000, f' + 0x80_0000, Pow2(e - 150)); }
    } else if e == 0 {
      ScaleLess(f, f' + 0x80_0000, Pow2(-149));
      Pow2Grows(-149, e' - 150);
      ScaleMono(f' + 0x80_0000, f' + 0x80_0000, Pow2(-149), Pow2(e' - 150));
    } else {
      NextBinade(f + 0x80_0000, f' + 0x80_0000, e - 150, e' - 150);
    }
  }

  lemma FieldOrder(e: nat, f: nat, e': nat, f': nat)
    requires f < 0x80_0000 && f' < 0x80_0000 && e * 0x80_0000 + f < e' * 0x80_0000 + f'
    ensures e < e' || (e == e' && f < f')
  {
  }

  lemma PatternFields(b0: Byte, b1: Byte, b2: Byte, b3: Byte)
    requires b3 < 0x80
    ensures FractionOf(b0, b1, b2) < 0x80_0000 && ExponentOf(b2, b3 + 0x80) == ExponentOf(b2, b3)
    ensures ExponentOf(b2, b3) * 0x80_0000 + FractionOf(b0, b1, b2) == b3 * 0x100_0000 + b2 * 0x1_0000 + b1 * 0x100 + b0
  {
    Divides(0, b3, 0x80, b3);
    Divides(1, b3, 0x80, b3 + 0x80);
    assert b2 == b2 / 0x80 * 0x80 + b2 % 0x80;
  }

  /** binary32 (section 3.4 of IEEE 754-2019): the finite non-negative patterns, read as 31-bit
      integers, are in the order of their values, and the sign bit negates. */
  lemma Float32Ordered(b0: Byte, b1: Byte, b2: Byte, b3: Byte, c0: Byte, c1: Byte, c2: Byte, c3: Byte)
    requires b3 < 0x80 && c3 < 0x80 && Float32(b0, b1, b2, b3).Fin? && Float32(c0, c1, c2, c3).Fin?
    requires b3 * 0x100_0000 + b2 * 0x1_0000 + b1 * 0x100 + b0 < c3 * 0x100_0000 + c2 * 0x1_0000 + c1 * 0x100 + c0
    ensures Float32(b0, b1, b2, b3).r < Float32(c0, c1, c2, c3).r
    ensures Float32(b0, b1, b2, b3 + 0x80) == Fin(-Float32(b0, b1, b2, b3).r)
  {
    hide Magnitude, ExponentOf, FractionOf;
    PatternFields(b0, b1, b2, b3);
    PatternFields(c0, c1, c2, c3);
    FieldOrder(ExponentOf(b2, b3), FractionOf(b0, b1, b2), ExponentOf(c2, c3), FractionOf(c0, c1, c2));
    MagnitudeOrdered(ExponentOf(b2, b3), FractionOf(b0, b1, b2), ExponentOf(c2, c3), FractionOf(c0, c1, c2));
  }

  lemma {:induction false} Pow2Inverse(n: int)
    requires n >= 0
    ensures Pow2(-n) * Pow2(n) == 1.0
  {
    if n > 0 {
      Pow2Inverse(n - 1);
      Pow2Doubles(-n);
      assert Pow2(-n) * Pow2(n) == Pow2(-n) * (2.0 * Pow2(n - 1)) == (2.0 * Pow2(-n)) * Pow2(n - 1);
    }
  }

  lemma TwoTo23()
    ensures Pow2(23) == 8388608.0
  {
    assert Pow2(8) == 256.0;
    assert Pow2(16) == 65536.0;
  }

  lemma Float32Of(b0: Byte, b1: Byte, b2: Byte, b3: Byte, e: nat, f: nat)
    requires b3 < 0x80 && e == ExponentOf(b2, b3) && f == FractionOf(b0, b1, b2) && e != 255
    ensures Float32(b0, b1, b2, b3) == Fin(Magnitude(e, f))
  {
  }

  lemma OneMagnitude()
    ensures Magnitude(127, 0) == 1.0
  {
    hide Pow2;
    TwoTo23();
    Pow2Inverse(23);
    assert Magnitude(127, 0) == Scale(0x80_0000, Pow2(-23));
  }

  lemma OnePattern(b0: Byte, b1: Byte, b2: Byte, b3: Byte)
    requires b0 == b1 == 0 && b2 == 0x80 && b3 == 0x3F
    ensures ExponentOf(b2, b3) == 127 && FractionOf(b0, b1, b2) == 0
  {
  }

  /** The scale is fixed by one pattern: 0x3F800000 is 1. */
  lemma Float32One(b0: Byte, b1: Byte, b2: Byte, b3: Byte)
    requires b0 == b1 == 0 && b2 == 0x80 && b3 == 0x3F
    ensures Float32(b0, b1, b2, b3) == Fin(1.0)
  {
    hide *;
    OnePattern(b0, b1, b2, b3);
    OneMagnitude();
    Float32Of(b0, b1, b2, b3, 127, 0);
  }

  // ----- frames sent by the host -----

  datatype Command =
    | GetId
    | Mit(q: Float, dq: Float, kp: Float, kd: Float, tau: Float)
    | Enable
    | Stop
    | SetCanId(newId: Byte)
    | ReadMechPos
    | SetRunMode(mode: Byte)
  {
    /** The cast of a non-finite float to uint16_t is undefined, so such a command has no frame. */
    predicate Encodable() {
      Mit? ==> q.Fin? && dq.Fin? && kp.Fin? && kd.Fin? && tau.Fin?
    }

    function CommOf(): Byte {
      match this
      case GetId => COMM_GET_ID
      case Mit(_, _, _, _, _) => COMM_MIT_CONTROL
      case Enable => COMM_ENABLE
      case Stop => COMM_STOP
      case SetCanId(_) => COMM_SET_CAN_ID
      case ReadMechPos => COMM_PARAM_READ
      case SetRunMode(_) => COMM_PARAM_WRITE
    }
  }

  /** The 16 identifier bits between the communication type and the motor id. */
  function FieldOf(rnd: Rounding, host: Byte, cmd: Command): Code
    requires Faithful(rnd) && cmd.Encodable()
  {
    match cmd
    case Mit(_, _, _, _, tau) => FloatToUint(rnd, tau.r, TORQUE)
    case SetCanId(newId) => Join(newId, host)
    case _ => host
  }

  /** The bytes handed to write_extended for a command to one motor. */
  function Encode(rnd: Rounding, host: Byte, motor: Byte, cmd: Command): CanMsg
    requires Faithful(rnd) && cmd.Encodable()
  {
    var data: Bytes8 := match cmd
      case Mit(q, dq, kp, kd, _) =>
        BigEndian(FloatToUint(rnd, q.r, POSITION), FloatToUint(rnd, dq.r, VELOCITY),
                  FloatToUint(rnd, kp.r, KP), FloatToUint(rnd, kd.r, KD))
      case ReadMechPos => ParamPayload(PARAM_MECH_POS, 0)
      case SetRunMode(mode) => ParamPayload(PARAM_RUN_MODE, mode)
      case _ => ZEROS;
    CanMsg(true, BuildExtId(cmd.CommOf(), FieldOf(rnd, host, cmd), motor), 8, data)
  }

  /** What the motor reads from a MIT frame: an independent decoder. */
  datatype Setpoint = Setpoint(motor: Byte, q: real, dq: real, kp: real, kd: real, tau: real)

  function MotorDecode(m: CanMsg): Setpoint {
    Setpoint(DestId(m.id),
             Level(Join(m.data[0], m.data[1]), POSITION),
             Level(Join(m.data[2], m.data[3]), VELOCITY),
             Level(Join(m.data[4], m.data[5]), KP),
             Level(Join(m.data[6], m.data[7]), KD),
             Level(DataField(m.id), TORQUE))
  }

  /** y is the largest level not above the clamped setpoint x. */
  predicate Quantised(y: real, x: real, r: Range)
    requires r.Spans()
  {
    y <= Clamp(x, r) < y + r.Quantum()
  }

  lemma JoinSplit(c: Code)
    ensures Join(High(c), Low(c)) == c
  {
  }

  /** The code of a setpoint survives the two payload bytes and decodes to within one quantum. */
  lemma CodeQuantised(x: real, r: Range)
    requires r.Spans() && Faithful(Exact)
    ensures var c := FloatToUint(Exact, x, r);
            Join(High(c), Low(c)) == c && Quantised(Level(c, r), x, r)
  {
    var c := FloatToUint(Exact, x, r);
    JoinSplit(c);
    DecodeBelowSetpoint(x, r);
    ExactDecodes(c, r);
  }

  /** What MotorDecode sees of a frame built from five codes. */
  lemma MitCodes(motor: Byte, q: Code, dq: Code, kp: Code, kd: Code, tau: Code)
    ensures var m := CanMsg(true, BuildExtId(COMM_MIT_CONTROL, tau, motor), 8, BigEndian(q, dq, kp, kd));
            && CommType(m.id) == COMM_MIT_CONTROL
            && MotorDecode(m) == Setpoint(motor, Level(q, POSITION), Level(dq, VELOCITY),
                                          Level(kp, KP), Level(kd, KD), Level(tau, TORQUE))
  {
    JoinSplit(q); JoinSplit(dq); JoinSplit(kp); JoinSplit(kd);
    ExtIdFields(COMM_MIT_CONTROL, tau, motor);
  }

  function Setpoints(rnd: Rounding, motor: Byte, q: real, dq: real, kp: real, kd: real, tau: real): Setpoint
    requires Faithful(rnd)
  {
    Setpoint(motor, Level(FloatToUint(rnd, q, POSITION), POSITION),
             Level(FloatToUint(rnd, dq, VELOCITY), VELOCITY),
             Level(FloatToUint(rnd, kp, KP), KP), Level(FloatToUint(rnd, kd, KD), KD),
             Level(FloatToUint(rnd, tau, TORQUE), TORQUE))
  }

  /** Under any rounding the motor reads back exactly the codes computed for it. */
  lemma MitDecodes(rnd: Rounding, host: Byte, motor: Byte, q: real, dq: real, kp: real, kd: real, tau: real)
    requires Faithful(rnd)
    ensures var m := Encode(rnd, host, motor, Mit(Fin(q), Fin(dq), Fin(kp), Fin(kd), Fin(tau)));
            && m.extended && m.len == 8 && CommType(m.id) == COMM_MIT_CONTROL
            && MotorDecode(m) == Setpoints(rnd, motor, q, dq, kp, kd, tau)
  {
    MitCodes(motor, FloatToUint(rnd, q, POSITION), FloatToUint(rnd, dq, VELOCITY),
             FloatToUint(rnd, kp, KP), FloatToUint(rnd, kd, KD), FloatToUint(rnd, tau, TORQUE));
  }

  predicate WithinQuantum(s: Setpoint, motor: Byte, q: real, dq: real, kp: real, kd: real, tau: real) {
    && s.motor == motor
    && Quantised(s.q, q, POSITION) && Quantised(s.dq, dq, VELOCITY)
    && Quantised(s.kp, kp, KP) && Quantised(s.kd, kd, KD) && Quantised(s.tau, tau, TORQUE)
  }

  /** For all real setpoints the motor recovers its ID and every field to within one quantum. */
  lemma MitFidelity(host: Byte, motor: Byte, q: real, dq: real, kp: real, kd: real, tau: real)
    ensures Faithful(Exact)
    ensures var m := Encode(Exact, host, motor, Mit(Fin(q), Fin(dq), Fin(kp), Fin(kd), Fin(tau)));
            m.extended && CommType(m.id) == COMM_MIT_CONTROL
            && WithinQuantum(MotorDecode(m), motor, q, dq, kp, kd, tau)
  {
    ExactIsFaithful();
    MitDecodes(Exact, host, motor, q, dq, kp, kd, tau);
    CodeQuantised(q, POSITION);
    CodeQuantised(dq, VELOCITY);
    CodeQuantised(kp, KP);
    CodeQuantised(kd, KD);
    CodeQuantised(tau, TORQUE);
  }

  /** Rounded arithmetic may shift the code by one either way. */
  predicate Loosely(y: real, x: real, r: Range)
    requires r.Spans()
  {
    y - r.Quantum() <= Clamp(x, r) < y + 2.0 * r.Quantum()
  }

  lemma LevelMoves(c: Code, d: Code, r: Range)
    requires r.Spans()
    requires -1 <= c as int - d as int <= 1
    ensures -r.Quantum() <= Level(c, r) - Level(d, r) <= r.Quantum()
  {
    Shifted(c as real, d as real, r.Width());
  }

  lemma Shifted(c: real, d: real, w: real)
    requires w > 0.0 && -1.0 <= c - d <= 1.0
    ensures -w <= Times(c, w) - Times(d, w) <= w
  {
    MulMono(c, d + 1.0, w);
    MulMono(d - 1.0, c, w);
    assert Times(d + 1.0, w) == Times(d, w) + w && Times(d - 1.0, w) == Times(d, w) - w;
  }

  lemma CodeLoose(rnd: Rounding, x: real, r: Range)
    requires r.Spans() && Faithful(rnd)
    ensures Loosely(Level(FloatToUint(rnd, x, r), r), x, r)
  {
    hide FloatToUint, Level, Clamp, Faithful;
    RoundedCodeWithinOne(rnd, x, r);
    CodeQuantised(x, r);
    LevelMoves(FloatToUint(rnd, x, r), FloatToUint(Exact, x, r), r);
  }

  predicate WithinTwoQuanta(s: Setpoint, motor: Byte, q: real, dq: real, kp: real, kd: real, tau: real) {
    && s.motor == motor
    && Loosely(s.q, q, POSITION) && Loosely(s.dq, dq, VELOCITY)
    && Loosely(s.kp, kp, KP) && Loosely(s.kd, kd, KD) && Loosely(s.tau, tau, TORQUE)
  }

  /** The same under rounded arithmetic, with one quantum of slack on either side. */
  lemma MitFidelityRounded(rnd: Rounding, host: Byte, motor: Byte, q: real, dq: real, kp: real, kd: real, tau: real)
    requires Faithful(rnd)
    ensures var m := Encode(rnd, host, motor, Mit(Fin(q), Fin(dq), Fin(kp), Fin(kd), Fin(tau)));
            m.extended && CommType(m.id) == COMM_MIT_CONTROL
            && WithinTwoQuanta(MotorDecode(m), motor, q, dq, kp, kd, tau)
  {
    hide FloatToUint, Level, Loosely, MotorDecode, Encode, Faithful;
    MitDecodes(rnd, host, motor, q, dq, kp, kd, tau);
    CodeLoose(rnd, q, POSITION);
    CodeLoose(rnd, dq, VELOCITY);
    CodeLoose(rnd, kp, KP);
    CodeLoose(rnd, kd, KD);
    CodeLoose(rnd, tau, TORQUE);
  }

  lemma LowestLevel(r: Range)
    ensures Level(0, r) == r.lo
  {
    assert Times(0.0, r.Width()) == 0.0;
  }

  /** Under any rounding a free-hanging motor gets gains of exactly zero. */
  lemma FreeGainsAreZero(rnd: Rounding, host: Byte, motor: Byte)
    requires Faithful(rnd)
    ensures var z := Fin(0.0); var s := MotorDecode(Encode(rnd, host, motor, Mit(z, z, z, z, z)));
            s.motor == motor && s.kp == 0.0 && s.kd == 0.0 && Loosely(s.tau, 0.0, TORQUE)
  {
    hide FloatToUint, Level, Loosely, MotorDecode, Encode, Faithful;
    ZeroKeptAtLowEnd(rnd, KP);
    ZeroKeptAtLowEnd(rnd, KD);
    LowestLevel(KP);
    LowestLevel(KD);
    MitDecodes(rnd, host, motor, 0.0, 0.0, 0.0, 0.0, 0.0);
    CodeLoose(rnd, 0.0, TORQUE);
  }

  /** The free-hanging command: gains are exactly zero, but torque and targets sit half a quantum low. */
  lemma FreeCommandDecodes(host: Byte, motor: Byte)
    ensures Faithful(Exact)
    ensures var z := Fin(0.0);
            MotorDecode(Encode(Exact, host, motor, Mit(z, z, z, z, z)))
            == Setpoint(motor, -(POSITION.Quantum() / 2.0), -(VELOCITY.Quantum() / 2.0), 0.0, 0.0,
                        -(TORQUE.Quantum() / 2.0))
  {
    FreeCommandEncodes(host, motor);
    hide FloatToUint, Level, BuildExtId, BigEndian, MotorDecode, Faithful, Encode;
    ZeroLevels();
    MitCodes(motor, 32767, 32767, 0, 0, 32767);
  }

  lemma FreeCommandEncodes(host: Byte, motor: Byte)
    ensures Faithful(Exact)
    ensures var z := Fin(0.0);
            Encode(Exact, host, motor, Mit(z, z, z, z, z))
            == CanMsg(true, BuildExtId(COMM_MIT_CONTROL, 32767, motor), 8, BigEndian(32767, 32767, 0, 0))
  {
    ZeroLevels();
    hide FloatToUint, Level, BuildExtId, BigEndian, Faithful;
    assert FloatToUint(Exact, 0.0, POSITION) == FloatToUint(Exact, 0.0, VELOCITY) == 32767;
    assert FloatToUint(Exact, 0.0, TORQUE) == 32767;
    assert FloatToUint(Exact, 0.0, KP) == FloatToUint(Exact, 0.0, KD) == 0;
  }

  lemma ZeroLevels()
    ensures Faithful(Exact)
    ensures forall r | r in [POSITION, VELOCITY, TORQUE] ::
      FloatToUint(Exact, 0.0, r) == 32767 && Level(32767, r) == -(r.Quantum() / 2.0)
    ensures forall r | r in [KP, KD] :: FloatToUint(Exact, 0.0, r) == 0 && Level(0, r) == 0.0
  {
    ExactIsFaithful();
    forall r | r in [POSITION, VELOCITY, TORQUE]
      ensures FloatToUint(Exact, 0.0, r) == 32767 && Level(32767, r) == -(r.Quantum() / 2.0)
    {
      ZeroDecodesBelow(r);
      ExactDecodes(32767, r);
    }
    forall r | r in [KP, KD] ensures FloatToUint(Exact, 0.0, r) == 0 && Level(0, r) == 0.0 {
      ZeroKeptAtLowEnd(Exact, r);
      ExactDecodes(0, r);
    }
  }

  /** Frames of different kinds, or to different motors, never share an identifier. */
  lemma IdsSeparate(rnd: Rounding, host: Byte, m: Byte, m': Byte, c: Command, c': Command)
    requires Faithful(rnd) && c.Encodable() && c'.Encodable()
    requires Encode(rnd, host, m, c).id == Encode(rnd, host, m', c').id
    ensures m == m' && c.CommOf() == c'.CommOf() && FieldOf(rnd, host, c) == FieldOf(rnd, host, c')
  {
    ExtIdInjective(c.CommOf(), FieldOf(rnd, host, c), m, c'.CommOf(), FieldOf(rnd, host, c'), m');
  }

  /** Only MIT frames can coincide: every other frame determines its command and motor. */
  lemma EncodeSeparates(rnd: Rounding, host: Byte, m: Byte, m': Byte, c: Command, c': Command)
    requires Faithful(rnd) && c.Encodable() && c'.Encodable() && !c.Mit?
    requires Encode(rnd, host, m, c) == Encode(rnd, host, m', c')
    ensures m == m' && c == c'
  {
    IdsSeparate(rnd, host, m, m', c, c');
    if c.SetRunMode? {
      assert ParamPayload(PARAM_RUN_MODE, c.mode)[4] == ParamPayload(PARAM_RUN_MODE, c'.mode)[4];
    }
    if c.SetCanId? {
      Divides(c.newId, host, 0x100, Join(c.newId, host));
      Divides(c'.newId, host, 0x100, Join(c'.newId, host));
    }
  }

  // ----- frames received -----

  /** The measured part of MotorFeedback. */
  datatype Reading = Reading(position: real, velocity: real, torque: real, temperature: real,
                             mode: Byte, fault: Byte)

  // 0.1f is the binary32 number 13421773 / 2^27
  const TENTH: real := 13421773.0 / 134217728.0

  /** try_parse_feedback without the clock: neither the length nor the host id is looked at. */
  function ParseFeedback(rnd: Rounding, motor: Byte, m: CanMsg): Option<Reading> {
    if !m.extended then None
    else if CommType(m.id) != COMM_FEEDBACK then None
    else if SourceId(m.id) != motor then None
    else Some(Reading(
      UintToFloat(rnd, Join(m.data[0], m.data[1]), POSITION),
      UintToFloat(rnd, Join(m.data[2], m.data[3]), VELOCITY),
      UintToFloat(rnd, Join(m.data[4], m.data[5]), TORQUE),
      rnd(Times(Join(m.data[6], m.data[7]) as real, TENTH)),
      ModeStatus(m.id), FaultFlags(m.id)))
  }

  /** The motor's side: the feedback frame of the protocol manual, section 4.1.2. */
  function FeedbackFrame(mode: Byte, fault: Byte, motor: Byte, host: Byte,
                         pos: Code, vel: Code, tor: Code, temp: Code): CanMsg
    requires mode < 4 && fault < 0x40
  {
    CanMsg(true, BuildExtId(COMM_FEEDBACK, mode * 0x4000 + fault * 0x100 + motor, host), 8,
           BigEndian(pos, vel, tor, temp))
  }

  /** The motor's side: the reply to GET_ID carries its 64-bit UID; `high` is the byte above the motor ID. */
  function IdReply(uid: Bytes8, id: Byte, high: Byte, dest: Byte): CanMsg {
    CanMsg(true, BuildExtId(COMM_GET_ID, Join(high, id), dest), 8, uid)
  }

  /** Parsing inverts encoding, for exactly the motor that sent the frame. */
  lemma FeedbackRoundTrip(rnd: Rounding, mode: Byte, fault: Byte, motor: Byte, host: Byte,
                          pos: Code, vel: Code, tor: Code, temp: Code, listener: Byte)
    requires mode < 4 && fault < 0x40
    ensures var m := FeedbackFrame(mode, fault, motor, host, pos, vel, tor, temp);
            ParseFeedback(rnd, listener, m) ==
            if listener == motor then
              Some(Reading(UintToFloat(rnd, pos, POSITION), UintToFloat(rnd, vel, VELOCITY),
                           UintToFloat(rnd, tor, TORQUE), rnd(Times(temp as real, TENTH)), mode, fault))
            else None
  {
    ExtIdStatus(COMM_FEEDBACK, mode, fault, motor, host);
    JoinSplit(pos); JoinSplit(vel); JoinSplit(tor); JoinSplit(temp);
  }

  /** parse_mechanical_position: a finite position and the motor it came from. */
  function ParseMechPos(host: Byte, m: CanMsg): Option<(Byte, Float)> {
    if !m.extended || m.len != 8 then None
    else if CommType(m.id) != COMM_PARAM_READ || DestId(m.id) != host then None
    else if Join(m.data[1], m.data[0]) != PARAM_MECH_POS then None
    else
      var position := Float32(m.data[4], m.data[5], m.data[6], m.data[7]);
      if position.Fin? then Some((SourceId(m.id), position)) else None
  }

  /** The exponent field is all ones exactly when bits 30 to 23 are. */
  lemma AllOnes(b0: Byte, b1: Byte, b2: Byte, b3: Byte)
    ensures Float32(b0, b1, b2, b3).Fin? <==> !(b3 % 0x80 == 0x7F && b2 >= 0x80)
  {
    hide Magnitude;
    Divides(if b2 >= 0x80 then 1 else 0, if b2 >= 0x80 then b2 - 0x80 else b2, 0x80, b2);
  }

  lemma ParameterIndex()
    ensures Join(High(PARAM_MECH_POS), Low(PARAM_MECH_POS)) == PARAM_MECH_POS
  {
    JoinSplit(PARAM_MECH_POS);
  }

  lemma Divided(n: Byte)
    ensures n % 0x100 == n
  {
  }

  /** The whole 32-bit pattern decides: all-ones exponents, and only those, are rejected. */
  lemma MechPosAccepted(host: Byte, motor: Byte, b0: Byte, b1: Byte, b2: Byte, b3: Byte)
    ensures var m := CanMsg(true, BuildExtId(COMM_PARAM_READ, motor, host), 8,
                            [Low(PARAM_MECH_POS), High(PARAM_MECH_POS), 0, 0, b0, b1, b2, b3]);
            ParseMechPos(host, m) ==
            if b3 % 0x80 == 0x7F && b2 >= 0x80 then None
            else Some((motor, Float32(b0, b1, b2, b3)))
  {
    ExtIdFields(COMM_PARAM_READ, motor, host);
    hide BuildExtId, CommType, DataField, SourceId, DestId, Float32, Join, High, Low;
    ParameterIndex();
    Divided(motor);
    AllOnes(b0, b1, b2, b3);
  }
}
