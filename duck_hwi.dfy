/**
 * The fixed-table Waveshare hardware interface of the duck runtime: 14
 * joints on the `sms_sts` bus, pi radians = 1024 counts centred at 1024,
 * per-joint offsets added on write and subtracted on read, reads that give
 * up as soon as one joint fails, and the power-on sequence low gains ->
 * home pose -> "high" gains.
 */
module DuckHwi {
  import opened Bus

  /** `SERVO_POS_RANGE`: counts in a full turn. */
  const SERVO_POS_RANGE: int := 2048

  /** `SERVO_POS_RANGE / 2` as a float: the centre and the counts per pi. */
  const HALF_RANGE: real := SERVO_POS_RANGE as real / 2.0

  /** The largest count `rad_to_servo_pos` returns. */
  const MAX_POS: real := 2047.0

  /** `np.clip(x, lo, hi)`, that is `min(max(x, lo), hi)`. */
  function Clip(x: real, lo: real, hi: real): (r: real)
    ensures lo <= hi ==> lo <= r <= hi
    ensures lo <= x <= hi ==> r == x
    ensures lo <= hi && x < lo ==> r == lo
    ensures x > hi ==> r == hi
  {
    var m := if x < lo then lo else x;
    if m > hi then hi else m
  }

  /** The scaled angle before clipping. */
  function Unclipped(rad: real): real {
    (rad / PI) * HALF_RANGE + HALF_RANGE
  }

  /** `rad_to_servo_pos`: a float, clipped to [0, 2047] and not truncated. */
  function RadToServoPos(rad: real): (r: real)
    ensures 0.0 <= r <= MAX_POS
  {
    Clip(Unclipped(rad), 0.0, MAX_POS)
  }

  /** `servo_pos_to_rad`: the unclipped formula solved for the angle. */
  function ServoPosToRad(pos: real): (r: real)
    ensures pos == HALF_RANGE ==> r == 0.0
    ensures pos > HALF_RANGE ==> r > 0.0
    ensures pos < HALF_RANGE ==> r < 0.0
  {
    var q := (pos - HALF_RANGE) / HALF_RANGE;
    assert q > 0.0 ==> q * PI > 0.0;
    assert q < 0.0 ==> q * PI < 0.0;
    q * PI
  }

  /** The worked values: 0 -> 1024, pi/2 -> 1536, -pi/2 -> 512, and the two
      half turns saturate, pi at 2047 (from 2048) and -pi at 0. */
  lemma Scenario()
    ensures RadToServoPos(0.0) == 1024.0
    ensures RadToServoPos(PI / 2.0) == 1536.0
    ensures RadToServoPos(-(PI as real) / 2.0) == 512.0
    ensures Unclipped(PI) == 2048.0 && RadToServoPos(PI) == 2047.0
    ensures RadToServoPos(-(PI as real)) == 0.0
  {
    assert (PI / 2.0) / PI == 0.5;
    assert (-(PI as real) / 2.0) / PI == -0.5;
    assert PI / PI == 1.0;
    assert -(PI as real) / PI == -1.0;
  }

  /** Reading back a count that was commanded without clipping gives the
      exact angle back. */
  lemma {:induction false} ServoPosToRadInverts(rad: real)
    requires 0.0 <= Unclipped(rad) <= MAX_POS
    ensures ServoPosToRad(RadToServoPos(rad)) == rad
  {
    assert RadToServoPos(rad) == Unclipped(rad);
    assert (Unclipped(rad) - HALF_RANGE) / HALF_RANGE == rad / PI;
  }

  /** And in the other direction every count of [0, 2047] survives
      count -> rad -> count. */
  lemma {:induction false} RadToServoPosInverts(pos: real)
    requires 0.0 <= pos <= MAX_POS
    ensures RadToServoPos(ServoPosToRad(pos)) == pos
  {
    var q := (pos - HALF_RANGE) / HALF_RANGE;
    assert (q * PI) / PI == q;
    assert Unclipped(ServoPosToRad(pos)) == pos;
  }

  lemma {:induction false} RadToServoPosMonotone(r1: real, r2: real)
    requires r1 <= r2
    ensures RadToServoPos(r1) <= RadToServoPos(r2)
  {
    assert r1 / PI <= r2 / PI;
  }

  /** `int(rad_to_servo_pos(rad))`: the count a setter commands. */
  function CommandedCount(rad: real): (r: int)
    ensures 0 <= r <= 2047
  {
    Trunc(RadToServoPos(rad))
  }

  /** The speed and acceleration every position write uses. */
  const SPEED: int := 500
  const ACCELERATION: int := 30

  /** `SMS_STS_TORQUE_ENABLE`, the register `turn_off` clears. */
  const TORQUE_ENABLE: int := 40

  /** The fixed joint map: names and servo ids, in dictionary order. */
  const JOINTS: seq<Joint> := [
    Joint("left_hip_yaw", 20), Joint("left_hip_roll", 21), Joint("left_hip_pitch", 22),
    Joint("left_knee", 23), Joint("left_ankle", 24),
    Joint("neck_pitch", 30), Joint("head_pitch", 31), Joint("head_yaw", 32), Joint("head_roll", 33),
    Joint("right_hip_yaw", 10), Joint("right_hip_roll", 11), Joint("right_hip_pitch", 12),
    Joint("right_knee", 13), Joint("right_ankle", 14)]

  /** The home pose `turn_on` sends, in radians. */
  const INIT_POS: seq<Target> := [
    Target("left_hip_yaw", 0.002), Target("left_hip_roll", 0.053), Target("left_hip_pitch", -0.63),
    Target("left_knee", 1.368), Target("left_ankle", -0.784),
    Target("neck_pitch", 0.0), Target("head_pitch", 0.0), Target("head_yaw", 0.0), Target("head_roll", 0.0),
    Target("right_hip_yaw", -0.003), Target("right_hip_roll", -0.065), Target("right_hip_pitch", 0.635),
    Target("right_knee", 1.379), Target("right_ankle", -0.796)]

  /** `np.ones(n) * v`. */
  function Filled(v: real, n: nat): (r: seq<real>)
    ensures |r| == n && forall i :: 0 <= i < n ==> r[i] == v
  {
    seq(n, _ => v)
  }

  /** The table has 14 joints with distinct names and distinct ids, and the
      home pose names exactly those joints, in the same order. */
  lemma JointTable()
    ensures |JOINTS| == 14 && |INIT_POS| == 14
    ensures forall i, j :: 0 <= i < j < 14 ==> JOINTS[i].name != JOINTS[j].name && JOINTS[i].id != JOINTS[j].id
    ensures forall i :: 0 <= i < 14 ==> INIT_POS[i].name == JOINTS[i].name
  {
  }

  /** What the interface does, in order: a command on the bus, or a gain
      vector stored by `set_kps` / `set_kds`. */
  datatype Event = Sent(cmd: Command) | KpsSet(kps: seq<real>) | KdsSet(kds: seq<real>)

  function Sends(cmds: seq<Command>): (r: seq<Event>)
    ensures |r| == |cmds|
  {
    if cmds == [] then [] else [Sent(cmds[0])] + Sends(cmds[1..])
  }

  /** `set_position(name, pos)`'s command: None where the joint-map or the
      offset lookup raises `KeyError`. */
  function CommandFor(joints: seq<Joint>, offsets: map<string, real>, name: string, pos: real): (r: Option<Command>)
    ensures r.Some? <==> name in Names(joints) && name in offsets
    ensures r.Some? ==>
      r.value.WritePosEx? && Joint(name, r.value.id) in joints &&
      r.value.pos == CommandedCount(pos + offsets[name]) &&
      r.value.speed == SPEED && r.value.acc == ACCELERATION
  {
    match Lookup(joints, name)
    case None => None
    case Some(sid) =>
      if name in offsets then Some(WritePosEx(sid, CommandedCount(pos + offsets[name]), SPEED, ACCELERATION))
      else None
  }

  /** The commands `set_position_all` issues, and whether it returned
      normally (false: an offset lookup raised after `cmds` were sent). */
  datatype Dispatched = Dispatched(cmds: seq<Command>, completed: bool)

  function Dispatch(joints: seq<Joint>, offsets: map<string, real>, ts: seq<Target>): (r: Dispatched)
    ensures |r.cmds| <= |ts|
  {
    if ts == [] then Dispatched([], true)
    else if ts[0].name !in Names(joints) then Dispatch(joints, offsets, ts[1..])
    else match CommandFor(joints, offsets, ts[0].name, ts[0].rad)
      case None => Dispatched([], false)
      case Some(c) =>
        var rest := Dispatch(joints, offsets, ts[1..]);
        Dispatched([c] + rest.cmds, rest.completed)
  }

  /**
   * Every command `set_position_all` sends is `set_position`'s command for
   * a known entry: a `WritePosEx` with a count in [0, 2047], speed 500 and
   * acceleration 30.  It completes exactly when every known entry has an
   * offset, and then sends one command per known entry.
   */
  lemma {:induction false} DispatchShape(joints: seq<Joint>, offsets: map<string, real>, ts: seq<Target>)
    ensures forall c :: c in Dispatch(joints, offsets, ts).cmds ==>
      c.WritePosEx? && 0 <= c.pos <= 2047 && c.speed == SPEED && c.acc == ACCELERATION
    ensures Dispatch(joints, offsets, ts).completed <==>
      forall t :: t in ts && t.name in Names(joints) ==> t.name in offsets
    ensures Dispatch(joints, offsets, ts).completed ==>
      |Dispatch(joints, offsets, ts).cmds| == |KnownTargets(joints, ts)|
  {
    if ts != [] {
      DispatchShape(joints, offsets, ts[1..]);
      assert ts == [ts[0]] + ts[1..];
    }
  }

  /**
   * Command by command, `set_position_all` sends `set_position`'s command
   * for the known entries in input order: the k-th command is the one for
   * the k-th known entry.  When it stops early the commands sent so far are
   * a prefix of that list; when it completes, they are the whole list.
   */
  lemma {:induction false} DispatchExact(joints: seq<Joint>, offsets: map<string, real>, ts: seq<Target>)
    ensures var cmds := Dispatch(joints, offsets, ts).cmds;
      var known := KnownTargets(joints, ts);
      |cmds| <= |known| &&
      forall k :: 0 <= k < |cmds| ==>
        CommandFor(joints, offsets, known[k].name, known[k].rad) == Some(cmds[k])
    ensures Dispatch(joints, offsets, ts).completed ==>
      |Dispatch(joints, offsets, ts).cmds| == |KnownTargets(joints, ts)|
  {
    if ts != [] {
      DispatchExact(joints, offsets, ts[1..]);
      var t := ts[0];
      if t.name in Names(joints) {
        assert KnownTargets(joints, ts) == [t] + KnownTargets(joints, ts[1..]);
        match CommandFor(joints, offsets, t.name, t.rad)
        case None =>
        case Some(c) =>
          var rest := Dispatch(joints, offsets, ts[1..]);
          assert Dispatch(joints, offsets, ts).cmds == [c] + rest.cmds;
      } else {
        assert KnownTargets(joints, ts) == KnownTargets(joints, ts[1..]);
      }
    }
  }

  /** One step of `set_position_all`: skip, stop, or send and go on. */
  lemma DispatchStep(joints: seq<Joint>, offsets: map<string, real>, ts: seq<Target>)
    requires ts != []
    ensures ts[0].name !in Names(joints) ==> Dispatch(joints, offsets, ts) == Dispatch(joints, offsets, ts[1..])
    ensures ts[0].name in Names(joints) && ts[0].name !in offsets ==> Dispatch(joints, offsets, ts) == Dispatched([], false)
    ensures ts[0].name in Names(joints) && ts[0].name in offsets ==>
      var rest := Dispatch(joints, offsets, ts[1..]);
      var c := WritePosEx(Lookup(joints, ts[0].name).value, CommandedCount(ts[0].rad + offsets[ts[0].name]), SPEED, ACCELERATION);
      Dispatch(joints, offsets, ts) == Dispatched([c] + rest.cmds, rest.completed)
  {
  }

  /** The two setters part ways on an unknown name: `set_position_all`
      skips it and carries on, `set_position` raises `KeyError`. */
  lemma UnknownName(joints: seq<Joint>, offsets: map<string, real>, t: Target, ts: seq<Target>)
    requires t.name !in Names(joints)
    ensures Dispatch(joints, offsets, [t] + ts) == Dispatch(joints, offsets, ts)
    ensures CommandFor(joints, offsets, t.name, t.rad).None?
  {
    assert ([t] + ts)[1..] == ts;
  }

  /** What the readers convert: positions, or speeds in rad/s or raw. */
  datatype Quantity = Position | Velocity(radS: bool)

  /** The default of `get_present_velocities`' `rad_s` keyword. */
  const DEFAULT_RAD_S: bool := true

  /** One joint's value, or None where the read raised, failed, or the
      offset lookup raised. */
  function Reading(q: Quantity, offsets: map<string, real>, name: string, reply: Reply): (r: Option<real>)
    ensures !Succeeded(reply) ==> r.None?
    ensures q.Velocity? && Succeeded(reply) ==>
      r == Some(if q.radS then reply.value as real * 0.05 else reply.value as real)
    ensures q.Position? && name !in offsets ==> r.None?
    ensures q.Position? && Succeeded(reply) && name in offsets ==>
      r == Some(ServoPosToRad(reply.value as real) - offsets[name])
  {
    if !Succeeded(reply) then None
    else match q
      case Position =>
        if name in offsets then Some(ServoPosToRad(reply.value as real) - offsets[name]) else None
      case Velocity(radS) =>
        Some(if radS then reply.value as real * 0.05 else reply.value as real)
  }

  /** The list a `get_present_*` loop builds before rounding, or None. */
  function Collect(q: Quantity, offsets: map<string, real>, joints: seq<Joint>, ignore: seq<string>, bus: Replies): (r: Option<seq<real>>)
    ensures r.Some? ==> |r.value| <= |joints|
  {
    if joints == [] then Some([])
    else if joints[0].name in ignore then Collect(q, offsets, joints[1..], ignore, bus)
    else match Reading(q, offsets, joints[0].name, ReplyOf(bus, joints[0].id))
      case None => None
      case Some(v) =>
        match Collect(q, offsets, joints[1..], ignore, bus)
        case None => None
        case Some(vs) => Some([v] + vs)
  }

  /** The joints a reader visits: those not on the ignore list. */
  function Visited(joints: seq<Joint>, ignore: seq<string>): seq<Joint> {
    if joints == [] then []
    else (if joints[0].name in ignore then [] else [joints[0]]) + Visited(joints[1..], ignore)
  }

  /** A reader gives up (None) exactly when some visited joint's reading
      fails. */
  lemma {:induction false} CollectNone(q: Quantity, offsets: map<string, real>, joints: seq<Joint>, ignore: seq<string>, bus: Replies)
    ensures Collect(q, offsets, joints, ignore, bus).None? <==>
      exists j :: j in Visited(joints, ignore) && Reading(q, offsets, j.name, ReplyOf(bus, j.id)).None?
  {
    if joints != [] {
      CollectNone(q, offsets, joints[1..], ignore, bus);
      var j := joints[0];
      if j.name !in ignore {
        assert Visited(joints, ignore) == [j] + Visited(joints[1..], ignore);
      } else {
        assert Visited(joints, ignore) == Visited(joints[1..], ignore);
      }
    }
  }

  /** Otherwise it returns one value per visited joint, in joint-map order,
      each that joint's own reading. */
  lemma {:induction false} CollectValues(q: Quantity, offsets: map<string, real>, joints: seq<Joint>, ignore: seq<string>, bus: Replies)
    requires Collect(q, offsets, joints, ignore, bus).Some?
    ensures var vs := Collect(q, offsets, joints, ignore, bus).value;
      var js := Visited(joints, ignore);
      |vs| == |js| &&
      forall k :: 0 <= k < |js| ==> Some(vs[k]) == Reading(q, offsets, js[k].name, ReplyOf(bus, js[k].id))
  {
    if joints != [] {
      CollectValues(q, offsets, joints[1..], ignore, bus);
      var j := joints[0];
      if j.name !in ignore {
        assert Visited(joints, ignore) == [j] + Visited(joints[1..], ignore);
      } else {
        assert Visited(joints, ignore) == Visited(joints[1..], ignore);
      }
    }
  }

  /** `acc` followed by the values of `o`, if there are any. */
  function Prepend(acc: seq<real>, o: Option<seq<real>>): (r: Option<seq<real>>)
    ensures r.Some? <==> o.Some?
  {
    match o
    case None => None
    case Some(vs) => Some(acc + vs)
  }

  lemma PrependStep(acc: seq<real>, v: real, o: Option<seq<real>>)
    ensures Prepend(acc, Prepend([v], o)) == Prepend(acc + [v], o)
  {
    if o.Some? {
      assert acc + ([v] + o.value) == (acc + [v]) + o.value;
    }
  }

  /** numpy's rounding to the nearest integer, ties to the even one. */
  function RoundHalfEven(x: real): (n: int)
    ensures x - 0.5 <= n as real <= x + 0.5
  {
    var f := x.Floor;
    var frac := x - f as real;
    if frac < 0.5 then f
    else if frac > 0.5 then f + 1
    else if f % 2 == 0 then f else f + 1
  }

  /** `np.around(x, 3)` on one value, in exact arithmetic. */
  function Round3(x: real): (r: real)
    ensures -0.0005 <= r - x <= 0.0005
  {
    RoundHalfEven(x * 1000.0) as real / 1000.0
  }

  function RoundAll(xs: seq<real>): (r: seq<real>)
    ensures |r| == |xs| && forall i :: 0 <= i < |xs| ==> r[i] == Round3(xs[i])
  {
    seq(|xs|, i requires 0 <= i < |xs| => Round3(xs[i]))
  }

  /** The value a reader returns: the rounded list, or None. */
  function Rounded(o: Option<seq<real>>): (r: Option<seq<real>>)
    ensures r.Some? <==> o.Some?
    ensures o.Some? ==> r.value == RoundAll(o.value)
  {
    match o
    case None => None
    case Some(vs) => Some(RoundAll(vs))
  }

  /** `[Write1Byte(id, 40, 0)]` for every joint, in joint-map order. */
  function TorqueOffCommands(joints: seq<Joint>): (r: seq<Command>)
  {
    seq(|joints|, i requires 0 <= i < |joints| => Write1Byte(joints[i].id, TORQUE_ENABLE, 0))
  }

  class WaveshareHWI {
    var joints: seq<Joint>
    var zeroPos: seq<Target>
    var initPos: seq<Target>
    var jointsOffsets: map<string, real>
    var kps: seq<real>
    var kds: seq<real>
    var lowTorqueKps: seq<real>
    /** Everything the interface did, oldest first. */
    var trace: seq<Event>

    /** The fixed table, the home pose, gains 32 / 0 / low 2, and the
        offsets read from the duck configuration. */
    constructor (offsets: map<string, real>)
      ensures joints == JOINTS && initPos == INIT_POS && jointsOffsets == offsets
      ensures zeroPos == seq(14, i requires 0 <= i < 14 => Target(JOINTS[i].name, 0.0))
      ensures kps == Filled(32.0, 14) && kds == Filled(0.0, 14) && lowTorqueKps == Filled(2.0, 14)
      ensures trace == []
    {
      joints := JOINTS;
      zeroPos := seq(14, i requires 0 <= i < 14 => Target(JOINTS[i].name, 0.0));
      initPos := INIT_POS;
      jointsOffsets := offsets;
      kps := Filled(32.0, 14);
      kds := Filled(0.0, 14);
      lowTorqueKps := Filled(2.0, 14);
      trace := [];
    }

    /** `set_kps`: replaces `self.kps`; nothing reaches the bus. */
    method SetKps(values: seq<real>)
      modifies this`kps, this`trace
      ensures kps == values && trace == old(trace) + [KpsSet(values)]
    {
      kps := values;
      trace := trace + [KpsSet(values)];
    }

    method SetKds(values: seq<real>)
      modifies this`kds, this`trace
      ensures kds == values && trace == old(trace) + [KdsSet(values)]
    {
      kds := values;
      trace := trace + [KdsSet(values)];
    }

    /**
     * `turn_on` as written: `set_kps(low)` overwrites `self.kps`, so the
     * "high KP" step `set_kps(self.kps)` applies the low gains a second
     * time and the interface is left with the low gains.  When the home
     * pose dispatch raises, the sequence stops there.
     */
    method TurnOn() returns (ok: bool)
      modifies this`kps, this`trace
      ensures var d := Dispatch(joints, jointsOffsets, initPos);
        ok == d.completed &&
        trace == old(trace) + [KpsSet(old(lowTorqueKps))] + Sends(d.cmds)
                 + (if ok then [KpsSet(old(lowTorqueKps))] else [])
      ensures kps == old(lowTorqueKps)
    {
      SetKps(lowTorqueKps);
      ok := SetPositionAll(initPos);
      if !ok {
        return;
      }
      SetKps(kps);
    }

    /** `turn_on` with the nominal gains saved before they are overwritten:
        the last step restores them. */
    method TurnOnRestoringGains() returns (ok: bool)
      modifies this`kps, this`trace
      ensures var d := Dispatch(joints, jointsOffsets, initPos);
        ok == d.completed &&
        trace == old(trace) + [KpsSet(old(lowTorqueKps))] + Sends(d.cmds)
                 + (if ok then [KpsSet(old(kps))] else [])
      ensures ok ==> kps == old(kps)
      ensures HasOffsets(jointsOffsets, initPos) ==> ok
    {
      if HasOffsets(jointsOffsets, initPos) {
        DispatchCompletes(joints, jointsOffsets, initPos);
      }
      var nominal := kps;
      SetKps(lowTorqueKps);
      ok := SetPositionAll(initPos);
      if !ok {
        return;
      }
      SetKps(nominal);
    }

    /** `turn_off`: clears the torque-enable register of every joint. */
    method TurnOff()
      modifies this`trace
      ensures trace == old(trace) + Sends(TorqueOffCommands(joints))
    {
      var js := joints;
      for i := 0 to |js|
        invariant trace == old(trace) + Sends(TorqueOffCommands(js[..i]))
      {
        SendsSnoc(TorqueOffCommands(js[..i]), Write1Byte(js[i].id, TORQUE_ENABLE, 0));
        assert TorqueOffCommands(js[..i + 1]) == TorqueOffCommands(js[..i]) + [Write1Byte(js[i].id, TORQUE_ENABLE, 0)];
        trace := trace + [Sent(Write1Byte(js[i].id, TORQUE_ENABLE, 0))];
      }
      assert js[..|js|] == js;
    }

    /** `set_position(name, pos)`: false where a lookup raises `KeyError`. */
    method SetPosition(name: string, pos: real) returns (ok: bool)
      modifies this`trace
      ensures var c := CommandFor(joints, jointsOffsets, name, pos);
        ok == c.Some? && trace == old(trace) + (if ok then [Sent(c.value)] else [])
    {
      var sid := Lookup(joints, name);
      if sid.None? || name !in jointsOffsets {
        return false;
      }
      var count := CommandedCount(pos + jointsOffsets[name]);
      trace := trace + [Sent(WritePosEx(sid.value, count, SPEED, ACCELERATION))];
      ok := true;
    }

    /** `set_position_all(positions)`: false where an offset lookup raised
        part-way, after the earlier joints' commands were sent. */
    method SetPositionAll(positions: seq<Target>) returns (ok: bool)
      modifies this`trace
      ensures var d := Dispatch(joints, jointsOffsets, positions);
        ok == d.completed && trace == old(trace) + Sends(d.cmds)
    {
      var js, offsets := joints, jointsOffsets;
      ghost var all := Dispatch(js, offsets, positions);
      for i := 0 to |positions|
        invariant var d := Dispatch(js, offsets, positions[i..]);
          d.completed == all.completed && trace + Sends(d.cmds) == old(trace) + Sends(all.cmds)
      {
        ghost var rest := positions[i..];
        assert rest[0] == positions[i] && rest[1..] == positions[i + 1..];
        DispatchStep(js, offsets, rest);
        var name := positions[i].name;
        if Lookup(js, name).None? {
          continue;
        }
        var sid := Lookup(js, name).value;
        if name !in offsets {
          assert trace == old(trace) + Sends(all.cmds);
          return false;
        }
        var count := CommandedCount(positions[i].rad + offsets[name]);
        var cmd := WritePosEx(sid, count, SPEED, ACCELERATION);
        ghost var later := Dispatch(js, offsets, positions[i + 1..]).cmds;
        SendsCons(cmd, later);
        Regroup(trace, [Sent(cmd)], Sends(later));
        trace := trace + [Sent(cmd)];
      }
      assert positions[|positions|..] == [];
      ok := true;
    }

    /** `get_present_positions(ignore)`: None as soon as a read fails. */
    method GetPresentPositions(ignore: seq<string>, bus: Replies) returns (out: Option<seq<real>>)
      ensures out == Rounded(Collect(Position, jointsOffsets, joints, ignore, bus))
    {
      out := ReadAll(Position, ignore, bus);
    }

    /** `get_present_velocities(rad_s, ignore)`: speed x 0.05 or raw; a
        caller that leaves `rad_s` out passes DEFAULT_RAD_S. */
    method GetPresentVelocities(radS: bool, ignore: seq<string>, bus: Replies) returns (out: Option<seq<real>>)
      ensures out == Rounded(Collect(Velocity(radS), jointsOffsets, joints, ignore, bus))
    {
      out := ReadAll(Velocity(radS), ignore, bus);
    }

    /** The loop both readers share. */
    method ReadAll(q: Quantity, ignore: seq<string>, bus: Replies) returns (out: Option<seq<real>>)
      ensures out == Rounded(Collect(q, jointsOffsets, joints, ignore, bus))
    {
      var js, offsets := joints, jointsOffsets;
      var values: seq<real> := [];
      assert js[0..] == js;
      match Collect(q, offsets, js, ignore, bus) {
        case None =>
        case Some(vs) => assert [] + vs == vs;
      }
      for i := 0 to |js|
        invariant Collect(q, offsets, js, ignore, bus) == Prepend(values, Collect(q, offsets, js[i..], ignore, bus))
      {
        ghost var rest := js[i..];
        assert rest[0] == js[i] && rest[1..] == js[i + 1..];
        if js[i].name in ignore {
          continue;
        }
        var r := Reading(q, offsets, js[i].name, ReplyOf(bus, js[i].id));
        if r.None? {
          return None;
        }
        PrependStep(values, r.value, Collect(q, offsets, js[i + 1..], ignore, bus));
        values := values + [r.value];
      }
      assert js[|js|..] == [];
      assert values + [] == values;
      out := Some(RoundAll(values));
    }

    /** `scan_servos(servo_range)`: the ids whose position read succeeded,
        in probe order; a read that raises is skipped. */
    method ScanServos(servoRange: seq<int>, bus: Replies) returns (detected: seq<int>)
      ensures detected == Responding(servoRange, bus)
    {
      detected := [];
      for i := 0 to |servoRange|
        invariant detected + Responding(servoRange[i..], bus) == Responding(servoRange, bus)
      {
        assert servoRange[i..][1..] == servoRange[i + 1..];
        assert Responding(servoRange[i..], bus)
          == (if Succeeded(ReplyOf(bus, servoRange[i])) then [servoRange[i]] else []) + Responding(servoRange[i + 1..], bus);
        if Succeeded(ReplyOf(bus, servoRange[i])) {
          Regroup(detected, [servoRange[i]], Responding(servoRange[i + 1..], bus));
          detected := detected + [servoRange[i]];
        }
      }
      assert servoRange[|servoRange|..] == [];
      assert detected + [] == detected;
    }
  }

  /** The ids `scan_servos` probes by default: 1 to 249. */
  function DefaultScanRange(): (r: seq<int>)
    ensures |r| == 249 && forall i :: 0 <= i < 249 ==> r[i] == i + 1
  {
    seq(249, i => i + 1)
  }

  /** A scan over the default range finds a joint of the table exactly when
      its servo answers: every table id lies in 1 to 249. */
  lemma DefaultScanFindsJoints(bus: Replies, j: Joint)
    requires j in JOINTS
    ensures j.id in Responding(DefaultScanRange(), bus) <==> Succeeded(ReplyOf(bus, j.id))
  {
    assert 10 <= j.id <= 33;
    RespondingMembers(DefaultScanRange(), bus, j.id);
    assert DefaultScanRange()[j.id - 1] == j.id;
  }

  /** Every entry of `ts` has an offset. */
  predicate HasOffsets(offsets: map<string, real>, ts: seq<Target>) {
    forall t :: t in ts ==> t.name in offsets
  }

  /** With an offset for every entry, `set_position_all` runs to the end,
      whatever the joint map; in particular the home-pose dispatch of
      `turn_on` does. */
  lemma DispatchCompletes(joints: seq<Joint>, offsets: map<string, real>, ts: seq<Target>)
    requires HasOffsets(offsets, ts)
    ensures Dispatch(joints, offsets, ts).completed
  {
    DispatchShape(joints, offsets, ts);
  }

  /** A freshly built interface powered up by `turn_on` as written is left
      with the low gains 2 instead of the nominal 32. */
  method PowerUpGains(offsets: map<string, real>) returns (gains: seq<real>)
    ensures gains == Filled(2.0, 14)
  {
    var hwi := new WaveshareHWI(offsets);
    var ok := hwi.TurnOn();
    gains := hwi.kps;
  }

  /** The gain-restoring sequence ends on the nominal gains 32 whenever
      every home-pose joint has an offset. */
  method PowerUpGainsRestored(offsets: map<string, real>) returns (gains: seq<real>)
    requires HasOffsets(offsets, INIT_POS)
    ensures gains == Filled(32.0, 14)
  {
    var hwi := new WaveshareHWI(offsets);
    var ok := hwi.TurnOnRestoringGains();
    gains := hwi.kps;
  }

  lemma SendsCons(c: Command, cmds: seq<Command>)
    ensures Sends([c] + cmds) == [Sent(c)] + Sends(cmds)
  {
    assert ([c] + cmds)[1..] == cmds;
  }

  lemma {:induction false} SendsSnoc(cmds: seq<Command>, c: Command)
    ensures Sends(cmds + [c]) == Sends(cmds) + [Sent(c)]
  {
    if cmds != [] {
      assert (cmds + [c])[1..] == cmds[1..] + [c];
      SendsSnoc(cmds[1..], c);
    }
  }
}
