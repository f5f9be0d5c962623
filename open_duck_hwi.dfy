/**
 * The configurable Waveshare hardware interface of the Open Duck runtime:
 * radians <-> servo counts with a resolution of `counts_per_pi` counts per
 * half turn, whole-body dispatch through the `scscl` or `sms_sts` packet
 * handler, readback of positions and speeds in sorted joint-name order, and
 * a bus scan.
 */
module OpenDuckHwi {
  import opened Bus
  import opened Strings

  /** `clamp(v, a, b) = max(a, min(b, v))`. */
  function Clamp(v: int, a: int, b: int): (r: int)
    ensures a <= b ==> a <= r <= b
    ensures a <= v <= b ==> r == v
    ensures v < a || b < a ==> r == a
    ensures a <= b < v ==> r == b
  {
    var m := if b < v then b else v;
    if a < m then m else a
  }

  lemma ClampMonotone(v: int, w: int, a: int, b: int)
    requires v <= w
    ensures Clamp(v, a, b) <= Clamp(w, a, b)
  {
  }

  /** `int(counts_per_pi / 2)`: the count that stands for 0 rad. */
  function Center(cpp: int): int {
    Trunc(cpp as real / 2.0)
  }

  /** Counts per radian times pi: `counts_per_pi / 2` as a float. */
  function Half(cpp: int): real {
    cpp as real / 2.0
  }

  /** The unclamped, untruncated count that `rad` scales to. */
  function Scaled(cpp: int, rad: real): real {
    (rad / PI) * Half(cpp) + Center(cpp) as real
  }

  /**
   * `rad_to_servo_pos`: scale, truncate with `int()`, then clamp into
   * `[0, counts_per_pi - 1]`.  With a resolution below 1 the clamp's bounds
   * cross and every angle maps to 0.
   */
  function RadToServoPos(cpp: int, rad: real): (r: int)
    ensures cpp >= 1 ==> 0 <= r <= cpp - 1
    ensures cpp < 1 ==> r == 0
  {
    Clamp(Trunc(Scaled(cpp, rad)), 0, cpp - 1)
  }

  /** `servo_pos_to_rad`; a resolution of 0 divides by zero. */
  function ServoPosToRad(cpp: int, count: int): (r: real)
    requires cpp != 0
    ensures count == Center(cpp) ==> r == 0.0
  {
    (count - Center(cpp)) as real * PI / Half(cpp)
  }

  /** For a positive resolution a count above the centre reads a positive
      angle, and a count below it a negative one. */
  lemma ServoPosToRadSign(cpp: int, count: int)
    requires cpp > 0
    ensures count > Center(cpp) ==> ServoPosToRad(cpp, count) > 0.0
    ensures count < Center(cpp) ==> ServoPosToRad(cpp, count) < 0.0
  {
    var d := (count - Center(cpp)) as real;
    assert d > 0.0 ==> d * PI > 0.0;
    assert d < 0.0 ==> d * PI < 0.0;
  }

  lemma CenterBounds(cpp: int)
    requires cpp >= 1
    ensures 0 <= Center(cpp) <= cpp - 1
    ensures 2 * Center(cpp) == cpp || 2 * Center(cpp) + 1 == cpp
  {
  }

  /** 0 rad maps to the centre count, 512 for the default resolution. */
  lemma {:induction false} RadToServoPosZero(cpp: int)
    requires cpp >= 1
    ensures RadToServoPos(cpp, 0.0) == Center(cpp)
    ensures RadToServoPos(1024, 0.0) == 512
  {
    CenterBounds(cpp);
    CenterBounds(1024);
    assert Scaled(cpp, 0.0) == Center(cpp) as real;
    assert Scaled(1024, 0.0) == 512.0;
    TruncOfInt(Center(cpp));
    TruncOfInt(512);
  }

  /** A larger angle never gives a smaller count, for every resolution. */
  lemma {:induction false} RadToServoPosMonotone(cpp: int, r1: real, r2: real)
    requires r1 <= r2
    ensures RadToServoPos(cpp, r1) <= RadToServoPos(cpp, r2)
  {
    if cpp >= 1 {
      assert r1 / PI <= r2 / PI;
      assert (r1 / PI) * Half(cpp) <= (r2 / PI) * Half(cpp);
      TruncMonotone(Scaled(cpp, r1), Scaled(cpp, r2));
      ClampMonotone(Trunc(Scaled(cpp, r1)), Trunc(Scaled(cpp, r2)), 0, cpp - 1);
    }
  }

  /** `servo_pos_to_rad` is affine: the centre is 0 rad and each count adds
      pi / (counts_per_pi / 2). */
  lemma {:induction false} ServoPosToRadAffine(cpp: int, count: int)
    requires cpp != 0
    ensures ServoPosToRad(cpp, Center(cpp)) == 0.0
    ensures ServoPosToRad(cpp, count + 1) == ServoPosToRad(cpp, count) + PI / Half(cpp)
  {
    var d := (count - Center(cpp)) as real;
    assert (d + 1.0) * PI / Half(cpp) == d * PI / Half(cpp) + PI / Half(cpp);
  }

  /** Scaling a count to radians and back lands on the same real count. */
  lemma ScaleInverse(cpp: int, d: real)
    requires cpp >= 1
    ensures ((d * PI / Half(cpp)) / PI) * Half(cpp) == d
  {
    var h := Half(cpp);
    assert (d * PI / h) / PI == d / h;
  }

  /** Every count of the servo's range survives count -> rad -> count. */
  lemma {:induction false} ServoPosRoundTrip(cpp: int, c: int)
    requires cpp >= 1 && 0 <= c <= cpp - 1
    ensures RadToServoPos(cpp, ServoPosToRad(cpp, c)) == c
  {
    var d := (c - Center(cpp)) as real;
    ScaleInverse(cpp, d);
    assert Scaled(cpp, ServoPosToRad(cpp, c)) == c as real;
    TruncOfInt(c);
  }

  /** Multiplying an inequality by the positive factor pi / h. */
  lemma ScaleBack(y: real, rad: real, h: real)
    requires h > 0.0
    ensures y <= (rad / PI) * h ==> y * PI / h <= rad
    ensures y > (rad / PI) * h ==> y * PI / h > rad
  {
    assert ((rad / PI) * h) * PI / h == rad;
  }

  /**
   * Angle -> count -> angle loses less than one count: when the scaled
   * angle falls inside the servo's range, the commanded count's angle is
   * at most the requested angle and the next count's angle exceeds it.
   */
  lemma {:induction false} RadRoundTrip(cpp: int, rad: real)
    requires cpp >= 1 && 0.0 <= Scaled(cpp, rad) < cpp as real
    ensures ServoPosToRad(cpp, RadToServoPos(cpp, rad)) <= rad
    ensures rad < ServoPosToRad(cpp, RadToServoPos(cpp, rad) + 1)
  {
    var x := Scaled(cpp, rad);
    var r := RadToServoPos(cpp, rad);
    assert r == Trunc(x);
    var s := (rad / PI) * Half(cpp);
    assert x == s + Center(cpp) as real;
    assert r as real <= x < r as real + 1.0;
    assert (r - Center(cpp)) as real <= s;
    assert (r + 1 - Center(cpp)) as real > s;
    var lo, hi := (r - Center(cpp)) as real, (r + 1 - Center(cpp)) as real;
    ScaleBack(lo, rad, Half(cpp));
    ScaleBack(hi, rad, Half(cpp));
    assert ServoPosToRad(cpp, r) == lo * PI / Half(cpp);
    assert ServoPosToRad(cpp, r + 1) == hi * PI / Half(cpp);
  }

  /** The command a setter sends for one joint, by protocol. */
  function PositionCommand(protocol: string, sid: int, pos: int, speed: int, acc: int): (c: Command)
    ensures protocol == "sms_sts" ==> c == WritePosEx(sid, pos, speed, acc)
    ensures protocol != "sms_sts" ==> c == WritePos(sid, pos, 0, speed)
  {
    if protocol == "sms_sts" then WritePosEx(sid, pos, speed, acc) else WritePos(sid, pos, 0, speed)
  }

  /** The commands one `{name: rad}` entry produces: none for a name the
      joint map does not know. */
  function DispatchOne(protocol: string, cpp: int, joints: seq<Joint>, t: Target, speed: int, acc: int): seq<Command>
  {
    match Lookup(joints, t.name)
    case None => []
    case Some(sid) => [PositionCommand(protocol, sid, RadToServoPos(cpp, t.rad), speed, acc)]
  }

  /** The keyword defaults of `set_position_all`. */
  const DEFAULT_SPEED: int := 500
  const DEFAULT_ACC: int := 30

  /** The commands `set_position_all` sends for a whole dictionary. */
  function Dispatch(protocol: string, cpp: int, joints: seq<Joint>, ts: seq<Target>, speed: int, acc: int): (r: seq<Command>)
    ensures |r| <= |ts|
  {
    if ts == [] then []
    else DispatchOne(protocol, cpp, joints, ts[0], speed, acc) + Dispatch(protocol, cpp, joints, ts[1..], speed, acc)
  }

  /**
   * Dispatch sends exactly one command per known entry, in input order:
   * the k-th command addresses the k-th known entry's servo with that
   * entry's count, through the protocol's write call.
   */
  lemma {:induction false} DispatchExact(protocol: string, cpp: int, joints: seq<Joint>, ts: seq<Target>, speed: int, acc: int)
    ensures |Dispatch(protocol, cpp, joints, ts, speed, acc)| == |KnownTargets(joints, ts)|
    ensures forall k :: 0 <= k < |KnownTargets(joints, ts)| ==>
      var t := KnownTargets(joints, ts)[k];
      Lookup(joints, t.name).Some? &&
      Dispatch(protocol, cpp, joints, ts, speed, acc)[k]
        == PositionCommand(protocol, Lookup(joints, t.name).value, RadToServoPos(cpp, t.rad), speed, acc)
  {
    if ts != [] {
      DispatchExact(protocol, cpp, joints, ts[1..], speed, acc);
    }
  }

  /** Every dispatched count lies in the servo's range. */
  lemma {:induction false} DispatchInRange(protocol: string, cpp: int, joints: seq<Joint>, ts: seq<Target>, speed: int, acc: int)
    requires cpp >= 1
    ensures forall c :: c in Dispatch(protocol, cpp, joints, ts, speed, acc) ==>
      (c.WritePosEx? || c.WritePos?) && 0 <= c.pos <= cpp - 1 && c.speed == speed
  {
    if ts != [] {
      DispatchInRange(protocol, cpp, joints, ts[1..], speed, acc);
    }
  }

  /** What one position read contributes: the converted count, or 0.0 when
      the read (or the conversion) raised.  The communication result is not
      inspected. */
  function PositionReading(cpp: int, reply: Reply): (r: real)
    ensures reply.Raised? || cpp == 0 ==> r == 0.0
    ensures reply.Reply? && cpp != 0 ==> r == ServoPosToRad(cpp, reply.value)
  {
    if reply.Raised? || cpp == 0 then 0.0 else ServoPosToRad(cpp, reply.value)
  }

  /** What one speed read contributes: the raw speed, or 0.0 when it raised. */
  function VelocityReading(reply: Reply): (r: real)
    ensures reply.Raised? ==> r == 0.0
    ensures reply.Reply? ==> r == reply.value as real
  {
    if reply.Raised? then 0.0 else reply.value as real
  }

  /** What a `get_present_*` loop reads: positions at a resolution, or speeds. */
  datatype Quantity = Position(cpp: int) | Velocity

  function Convert(q: Quantity, reply: Reply): (r: real)
    ensures q.Position? ==> r == PositionReading(q.cpp, reply)
    ensures q.Velocity? ==> r == VelocityReading(reply)
  {
    match q
    case Position(cpp) => PositionReading(cpp, reply)
    case Velocity => VelocityReading(reply)
  }

  /** The reply a joint's read gets on the bus. */
  function ReplyFor(joints: seq<Joint>, bus: Replies, name: string): (r: Reply)
    ensures name in Names(joints) ==> r == ReplyOf(bus, Lookup(joints, name).value)
  {
    match Lookup(joints, name)
    case Some(sid) => ReplyOf(bus, sid)
    case None => Raised
  }

  /** The list a `get_present_*` loop collects over `names`. */
  function Collect(joints: seq<Joint>, names: seq<string>, ignore: seq<string>, bus: Replies, q: Quantity): (r: seq<real>)
    ensures |r| == |Without(names, ignore)|
  {
    if names == [] then []
    else
      (if names[0] in ignore then [] else [Convert(q, ReplyFor(joints, bus, names[0]))])
      + Collect(joints, names[1..], ignore, bus, q)
  }

  /**
   * One entry per non-ignored name, in order, each computed from that
   * joint's reply alone: a read that fails on one joint leaves every other
   * joint's entry as it would otherwise be.
   */
  lemma {:induction false} CollectExact(joints: seq<Joint>, names: seq<string>, ignore: seq<string>, bus: Replies, q: Quantity)
    requires forall n :: n in names ==> n in Names(joints)
    ensures |Collect(joints, names, ignore, bus, q)| == |Without(names, ignore)|
    ensures forall k :: 0 <= k < |Without(names, ignore)| ==>
      Without(names, ignore)[k] in Names(joints) &&
      Collect(joints, names, ignore, bus, q)[k] == Convert(q, ReplyFor(joints, bus, Without(names, ignore)[k]))
  {
    if names != [] {
      CollectExact(joints, names[1..], ignore, bus, q);
    }
  }

  /** `[Write1Byte(id, 24, val)]` for every joint, in joint-map order. */
  function TorqueCommands(joints: seq<Joint>, val: int): (r: seq<Command>)
  {
    seq(|joints|, i requires 0 <= i < |joints| => Write1Byte(joints[i].id, TORQUE_ENABLE, val))
  }

  /** The torque-enable register this interface writes. */
  const TORQUE_ENABLE: int := 24

  /** The settings the interface reads from `duck_config` (`getattr` with a
      default, so each may be absent). */
  datatype DuckConfig = DuckConfig(
    protocol: Option<string>,
    countsPerPi: Option<int>,
    jointMap: Option<seq<Joint>>,
    initPos: Option<seq<Target>>)

  function GetOr<T>(o: Option<T>, default: T): (r: T)
    ensures o.None? ==> r == default
    ensures o.Some? ==> r == o.value
  {
    if o.Some? then o.value else default
  }

  class WaveshareHWI {
    var protocol: string
    var countsPerPi: int
    var joints: seq<Joint>
    var initPos: seq<Target>
    var kps: Option<seq<real>>
    var kds: Option<seq<real>>
    /** Every write issued through the packet handler, oldest first. */
    var log: seq<Command>

    /** Reads protocol, resolution, joint map and home pose, with the
        defaults "scscl", 1024, {} and {}. */
    constructor (config: DuckConfig)
      ensures protocol == GetOr(config.protocol, "scscl")
      ensures countsPerPi == GetOr(config.countsPerPi, 1024)
      ensures joints == GetOr(config.jointMap, [])
      ensures initPos == GetOr(config.initPos, [])
      ensures kps == None && kds == None && log == []
    {
      protocol := GetOr(config.protocol, "scscl");
      countsPerPi := GetOr(config.countsPerPi, 1024);
      joints := GetOr(config.jointMap, []);
      initPos := GetOr(config.initPos, []);
      kps, kds, log := None, None, [];
    }

    /** Stores the gains; nothing is sent to the servos. */
    method SetKps(values: seq<real>)
      modifies this`kps
      ensures kps == Some(values)
    {
      kps := Some(values);
    }

    method SetKds(values: seq<real>)
      modifies this`kds
      ensures kds == Some(values)
    {
      kds := Some(values);
    }

    /** Writes 1 to the torque-enable register of every joint. */
    method TurnOn()
      modifies this`log
      ensures log == old(log) + TorqueCommands(joints, 1)
    {
      SetTorque(1);
    }

    /** Writes 0 to the torque-enable register of every joint. */
    method TurnOff()
      modifies this`log
      ensures log == old(log) + TorqueCommands(joints, 0)
    {
      SetTorque(0);
    }

    /** The loop `turn_on` and `turn_off` share. */
    method SetTorque(val: int)
      modifies this`log
      ensures log == old(log) + TorqueCommands(joints, val)
    {
      for i := 0 to |joints|
        invariant log == old(log) + TorqueCommands(joints[..i], val)
      {
        log := log + [Write1Byte(joints[i].id, TORQUE_ENABLE, val)];
      }
      assert joints[..|joints|] == joints;
    }

    /** `set_position_all(joints_dict, speed=500, acc=30)`; a caller that
        leaves the keywords out passes DEFAULT_SPEED and DEFAULT_ACC. */
    method SetPositionAll(targets: seq<Target>, speed: int, acc: int)
      modifies this`log
      ensures log == old(log) + Dispatch(protocol, countsPerPi, joints, targets, speed, acc)
    {
      var proto, cpp, js := protocol, countsPerPi, joints;
      ghost var all := Dispatch(proto, cpp, js, targets, speed, acc);
      for i := 0 to |targets|
        invariant log + Dispatch(proto, cpp, js, targets[i..], speed, acc) == old(log) + all
      {
        ghost var rest := targets[i..];
        assert rest[0] == targets[i] && rest[1..] == targets[i + 1..];
        var sid := Lookup(js, targets[i].name);
        if sid.None? {
          continue;
        }
        var pos := RadToServoPos(cpp, targets[i].rad);
        var cmd := PositionCommand(proto, sid.value, pos, speed, acc);
        Regroup(log, [cmd], Dispatch(proto, cpp, js, targets[i + 1..], speed, acc));
        log := log + [cmd];
      }
      assert targets[|targets|..] == [];
    }

    /** `get_present_positions(ignore)`: one entry per non-ignored joint in
        sorted-name order; a read that raised gives 0.0. */
    method GetPresentPositions(ignore: seq<string>, bus: Replies) returns (out: seq<real>)
      ensures out == Collect(joints, Sort(Names(joints)), ignore, bus, Position(countsPerPi))
    {
      out := ReadAll(ignore, bus, Position(countsPerPi));
    }

    /** `get_present_velocities(ignore)`: raw speeds, 0.0 for a read that
        raised. */
    method GetPresentVelocities(ignore: seq<string>, bus: Replies) returns (out: seq<real>)
      ensures out == Collect(joints, Sort(Names(joints)), ignore, bus, Velocity)
    {
      out := ReadAll(ignore, bus, Velocity);
    }

    /** The loop both readers share. */
    method ReadAll(ignore: seq<string>, bus: Replies, q: Quantity) returns (out: seq<real>)
      ensures out == Collect(joints, Sort(Names(joints)), ignore, bus, q)
    {
      var js := joints;
      var names := Sort(Names(js));
      out := [];
      for i := 0 to |names|
        invariant out + Collect(js, names[i..], ignore, bus, q) == Collect(js, names, ignore, bus, q)
      {
        CollectAdvance(js, names, i, ignore, bus, q, out);
        if names[i] !in ignore {
          out := out + [Convert(q, ReplyFor(js, bus, names[i]))];
        }
      }
      assert names[|names|..] == [];
    }

    /** `scan_servos(id_range)`: the ids whose read returned result 0. */
    method ScanServos(idRange: seq<int>, bus: Replies) returns (found: seq<int>)
      ensures found == Responding(idRange, bus)
    {
      found := [];
      for i := 0 to |idRange|
        invariant found + Responding(idRange[i..], bus) == Responding(idRange, bus)
      {
        assert idRange[i..][1..] == idRange[i + 1..];
        assert Responding(idRange[i..], bus)
          == (if Succeeded(ReplyOf(bus, idRange[i])) then [idRange[i]] else []) + Responding(idRange[i + 1..], bus);
        var reply := ReplyOf(bus, idRange[i]);
        if reply.Reply? && reply.comm == 0 {
          Regroup(found, [idRange[i]], Responding(idRange[i + 1..], bus));
          found := found + [idRange[i]];
        }
      }
      assert idRange[|idRange|..] == [];
    }
  }

  /** One step of `Collect` over a suffix of `names`. */
  lemma CollectStep(joints: seq<Joint>, names: seq<string>, i: int, ignore: seq<string>, bus: Replies, q: Quantity)
    requires 0 <= i < |names|
    ensures Collect(joints, names[i..], ignore, bus, q)
      == (if names[i] in ignore then [] else [Convert(q, ReplyFor(joints, bus, names[i]))])
         + Collect(joints, names[i + 1..], ignore, bus, q)
  {
    var rest := names[i..];
    assert rest[0] == names[i] && rest[1..] == names[i + 1..];
  }

  /** The reading loop's invariant carries over one name. */
  lemma CollectAdvance(joints: seq<Joint>, names: seq<string>, i: int, ignore: seq<string>, bus: Replies, q: Quantity, acc: seq<real>)
    requires 0 <= i < |names|
    requires acc + Collect(joints, names[i..], ignore, bus, q) == Collect(joints, names, ignore, bus, q)
    ensures (if names[i] in ignore then acc else acc + [Convert(q, ReplyFor(joints, bus, names[i]))])
      + Collect(joints, names[i + 1..], ignore, bus, q) == Collect(joints, names, ignore, bus, q)
  {
    CollectStep(joints, names, i, ignore, bus, q);
    if names[i] !in ignore {
      Regroup(acc, [Convert(q, ReplyFor(joints, bus, names[i]))], Collect(joints, names[i + 1..], ignore, bus, q));
    }
  }

  /** Every name of `sorted(joint_map.keys())` is a joint-map name. */
  lemma SortedNameKnown(joints: seq<Joint>, i: int)
    requires 0 <= i < |Sort(Names(joints))|
    ensures Sort(Names(joints))[i] in Names(joints)
  {
    SortSorted(Names(joints));
    assert Sort(Names(joints))[i] in multiset(Sort(Names(joints)));
  }
}
