/**
 * The servo-setup diagnostic script: unit conversion of raw counts to
 * degrees, the choice of write call and its parameters per protocol, the
 * discovery scan against the 14 expected servo ids, the single-servo
 * movement test (limit clamping, move-time estimate, write-result
 * normalisation, read-back with retries, tolerance verdict), and the
 * pass / fail / skip tally of the summary.
 */
module SetupTest {
  import opened Bus

  /** A speed argument: Python passes either an `int` or a `float`. */
  datatype Num = Int(i: int) | Float(f: real)

  function Value(n: Num): real {
    match n
    case Int(i) => i as real
    case Float(f) => f
  }

  /** One write call made through the packet handler. */
  datatype Call =
    | WritePosCall(id: int, position: int, time: int, speed: Num)
    | WritePosExCall(id: int, position: int, speed: Num, acc: int)

  /** `position_to_degrees`: 1024 counts per 180 degrees on `scscl`, 2048
      per 360 on every other protocol, which is the same scale. */
  function PositionToDegrees(protocol: string, pos: int): (deg: real)
    ensures deg == pos as real * 180.0 / 1024.0
  {
    if protocol == "scscl" then (pos as real / 1024.0) * 180.0
    else (pos as real / 2048.0) * 360.0
  }

  /** The protocol never changes the reading, and the half and full turns
      read 180 and 360 degrees. */
  lemma {:induction false} DegreesProtocolIndependent(p: string, q: string, pos: int)
    ensures PositionToDegrees(p, pos) == PositionToDegrees(q, pos)
    ensures PositionToDegrees(p, 1024) == 180.0 && PositionToDegrees(p, 2048) == 360.0
  {
  }

  /** `write_position`'s speed on the `scscl` path: kept only when it is an
      `int` of at least 1000, else 1500. */
  function ScsclSpeed(speed: Num): (s: Num)
    ensures Value(s) >= 1000.0 && s.Int?
    ensures speed.Int? && speed.i >= 1000 <==> s == speed
  {
    if speed.Int? && speed.i >= 1000 then speed else Int(1500)
  }

  /**
   * `write_position`: `WritePos(id, position, 0, speed')` on `scscl` when
   * the handler has `WritePos`; otherwise `WritePosEx` with speed and
   * acceleration unchanged when the handler has it; otherwise
   * `WritePos(id, position, 0, speed)`; None when it has neither.
   */
  function WritePositionCall(protocol: string, hasWritePos: bool, hasWritePosEx: bool,
                             id: int, position: int, speed: Num, acc: int): (c: Option<Call>)
    ensures c.None? <==> !hasWritePos && !hasWritePosEx
    ensures c.Some? && c.value.WritePosCall? ==> c.value.time == 0
    ensures protocol == "scscl" && hasWritePos ==> c == Some(WritePosCall(id, position, 0, ScsclSpeed(speed)))
    ensures !(protocol == "scscl" && hasWritePos) && hasWritePosEx ==> c == Some(WritePosExCall(id, position, speed, acc))
  {
    if protocol == "scscl" && hasWritePos then Some(WritePosCall(id, position, 0, ScsclSpeed(speed)))
    else if hasWritePosEx then Some(WritePosExCall(id, position, speed, acc))
    else if hasWritePos then Some(WritePosCall(id, position, 0, speed))
    else None
  }

  /** Every call `write_position` makes addresses the requested servo and
      position. */
  lemma WritePositionTarget(protocol: string, hasWritePos: bool, hasWritePosEx: bool,
                            id: int, position: int, speed: Num, acc: int)
    requires hasWritePos || hasWritePosEx
    ensures var c := WritePositionCall(protocol, hasWritePos, hasWritePosEx, id, position, speed, acc).value;
      c.id == id && c.position == position
  {
  }

  /** The minimum and maximum angle limits, when both reads succeeded; a
      read that raised leaves both unknown. */
  function Limits(minReply: Reply, maxReply: Reply): (l: Option<(int, int)>)
    ensures l.Some? <==> Succeeded(minReply) && Succeeded(maxReply)
  {
    if Succeeded(minReply) && Succeeded(maxReply) then Some((minReply.value, maxReply.value)) else None
  }

  /**
   * The requested position after the limit checks: raised to the minimum,
   * then lowered to the maximum.  Unknown limits leave it unchanged;
   * crossed limits (minimum above maximum) always give the maximum.
   */
  function ClampToLimits(position: int, limits: Option<(int, int)>): (r: int)
    ensures limits.None? ==> r == position
    ensures limits.Some? && limits.value.0 <= limits.value.1 ==> limits.value.0 <= r <= limits.value.1
    ensures limits.Some? && limits.value.0 <= position <= limits.value.1 ==> r == position
    ensures limits.Some? && limits.value.0 > limits.value.1 ==> r == limits.value.1
  {
    match limits
    case None => position
    case Some((lo, hi)) =>
      var raised := if position < lo then lo else position;
      if raised > hi then hi else raised
  }

  /** The speed the move time is estimated from: the given one when it is
      positive, else 1500. */
  function TimingSpeed(speed: Num): (s: Num)
    ensures Value(s) > 0.0
  {
    if Value(speed) > 0.0 then speed else Int(1500)
  }

  /** `int(delta / max(spd, 1.0) * 1000.0) + 100` before the `< 100` guard. */
  function RawMoveTime(cur: int, req: int, speed: Num): int {
    var delta := if cur >= req then cur - req else req - cur;
    var spd := Value(TimingSpeed(speed));
    Trunc((delta as real / (if spd >= 1.0 then spd else 1.0)) * 1000.0) + 100
  }

  /** The `time` parameter of the `scscl` move. */
  function MoveTime(cur: int, req: int, speed: Num): (t: int)
    ensures t == RawMoveTime(cur, req, speed)
  {
    MoveTimeAtLeast100(cur, req, speed);
    var t := RawMoveTime(cur, req, speed);
    if t < 100 then 100 else t
  }

  /** The estimate is never below 100 ms, so the `< 100` guard never
      changes it. */
  lemma {:induction false} MoveTimeAtLeast100(cur: int, req: int, speed: Num)
    ensures RawMoveTime(cur, req, speed) >= 100
  {
    var delta := if cur >= req then cur - req else req - cur;
    var spd := Value(TimingSpeed(speed));
    var m := if spd >= 1.0 then spd else 1.0;
    var q := delta as real / m;
    assert q >= 0.0;
    assert q * 1000.0 >= 0.0;
  }

  /** A 1000-count move at speed 500 is given 2100 ms. */
  lemma MoveTimeExample()
    ensures MoveTime(0, 1000, Int(500)) == 2100
  {
    assert (1000 as real / 500.0) * 1000.0 == 2000.0;
    TruncOfInt(2000);
  }

  /** `speed_param`: the timing speed when it is at least 1000, else 1500. */
  function MoveSpeed(speed: Num): (s: Num)
    ensures Value(s) >= 1000.0
  {
    var spd := TimingSpeed(speed);
    if Value(spd) >= 1000.0 then spd else Int(1500)
  }

  /** What the write call returned, or that it raised. */
  datatype WriteReply = TupleRes(items: seq<int>) | IntRes(n: int) | NoneRes | RaisedRes

  /** `(write_result, write_error)` after normalisation. */
  function Normalize(w: WriteReply): (r: (Option<int>, Option<int>))
    ensures w.TupleRes? && |w.items| >= 1 ==> r.0 == Some(w.items[0])
    ensures w.TupleRes? && |w.items| >= 2 ==> r.1 == Some(w.items[1])
    ensures w.TupleRes? && |w.items| <= 1 ==> r.1 == None
    ensures w.IntRes? ==> r == (Some(w.n), None)
    ensures !(w.TupleRes? && |w.items| >= 1) && !w.IntRes? ==> r == (None, None)
  {
    match w
    case TupleRes(items) =>
      if |items| >= 1 then (Some(items[0]), if |items| > 1 then Some(items[1]) else None) else (None, None)
    case IntRes(n) => (Some(n), None)
    case _ => (None, None)
  }

  /** The write counts as failed when a result is present and is not
      `COMM_SUCCESS`; a missing result passes. */
  predicate WriteFailed(w: WriteReply) {
    var (result, _) := Normalize(w);
    result.Some? && result.value != COMM_SUCCESS
  }

  lemma WriteFailedCases(w: WriteReply)
    ensures WriteFailed(w) <==>
      (w.TupleRes? && |w.items| >= 1 && w.items[0] != COMM_SUCCESS) || (w.IntRes? && w.n != COMM_SUCCESS)
  {
  }

  /** The tolerance of the movement check, in counts. */
  const TOLERANCE: int := 20

  /** The reported position is within 20 counts of the requested one. */
  predicate Within(reported: int, position: int) {
    -TOLERANCE <= reported - position <= TOLERANCE
  }

  /** The number of position reads the read-back makes at most. */
  const READ_ATTEMPTS: int := 6

  /** The reply to the `k`-th read-back attempt; missing ones raised. */
  function ReplyAt(replies: seq<Reply>, k: int): Reply {
    if 0 <= k < |replies| then replies[k] else Raised
  }

  /** The position of the first successful read among attempts `k` to 5. */
  function FirstSuccess(replies: seq<Reply>, k: nat): (r: Option<int>)
    ensures r.Some? ==> exists a :: k <= a < READ_ATTEMPTS && ReplyAt(replies, a) == Reply(r.value, COMM_SUCCESS)
    decreases READ_ATTEMPTS - k
  {
    if k >= READ_ATTEMPTS then None
    else if Succeeded(ReplyAt(replies, k)) then Some(ReplyAt(replies, k).value)
    else FirstSuccess(replies, k + 1)
  }

  /** The read-back succeeds exactly when one of the six attempts does, and
      then reports the first successful attempt's position. */
  lemma {:induction false} FirstSuccessMeaning(replies: seq<Reply>, k: nat)
    ensures FirstSuccess(replies, k).Some? <==> exists a :: k <= a < READ_ATTEMPTS && Succeeded(ReplyAt(replies, a))
    ensures FirstSuccess(replies, k).Some? ==>
      exists a :: (k <= a < READ_ATTEMPTS && Succeeded(ReplyAt(replies, a)) &&
        FirstSuccess(replies, k).value == ReplyAt(replies, a).value &&
        forall b :: k <= b < a ==> !Succeeded(ReplyAt(replies, b)))
    decreases READ_ATTEMPTS - k
  {
    if k < READ_ATTEMPTS && !Succeeded(ReplyAt(replies, k)) {
      FirstSuccessMeaning(replies, k + 1);
      if FirstSuccess(replies, k + 1).Some? {
        var a :| k + 1 <= a < READ_ATTEMPTS && Succeeded(ReplyAt(replies, a)) &&
          FirstSuccess(replies, k + 1).value == ReplyAt(replies, a).value &&
          forall b :: k + 1 <= b < a ==> !Succeeded(ReplyAt(replies, b));
        assert forall b :: k <= b < a ==> !Succeeded(ReplyAt(replies, b));
      }
    }
  }

  /** The read-back loop: up to six `ReadPos` calls, stopping at the first
      one whose communication succeeded. */
  method ReadBack(replies: seq<Reply>) returns (pos: Option<int>)
    ensures pos == FirstSuccess(replies, 0)
  {
    for attempt := 0 to READ_ATTEMPTS
      invariant FirstSuccess(replies, attempt) == FirstSuccess(replies, 0)
    {
      var reply := ReplyAt(replies, attempt);
      if reply.Reply? && reply.comm == COMM_SUCCESS {
        return Some(reply.value);
      }
    }
    pos := None;
  }

  /**
   * The verdict after the read-back as written: a successful read is
   * judged against the requested position; when every read failed, a
   * failed `ReadPosSpeed` fallback fails the test, but a successful one
   * falls off the end of the method, which returns None.
   */
  function VerdictAsWritten(readBack: Option<int>, fallback: Reply, position: int): (v: Option<bool>)
    ensures readBack.Some? ==> v == Some(Within(readBack.value, position))
    ensures readBack.None? && !Succeeded(fallback) ==> v == Some(false)
  {
    match readBack
    case Some(p) => Some(Within(p, position))
    case None => if Succeeded(fallback) then None else Some(false)
  }

  /** The verdict with the fallback's position judged like a read-back. */
  function Verdict(readBack: Option<int>, fallback: Reply, position: int): (v: Option<bool>)
    ensures v.Some?
    ensures v == Some(true) && readBack.Some? ==> Within(readBack.value, position)
    ensures v == Some(true) && readBack.None? ==> Succeeded(fallback) && Within(fallback.value, position)
  {
    match readBack
    case Some(p) => Some(Within(p, position))
    case None => if Succeeded(fallback) then Some(Within(fallback.value, position)) else Some(false)
  }

  /** The fallback verdict is always reached, and passes exactly when the
      position that was read back is within tolerance. */
  lemma VerdictReached(readBack: Option<int>, fallback: Reply, position: int)
    ensures Verdict(readBack, fallback, position).Some?
    ensures Verdict(readBack, fallback, position) == Some(true) <==>
      (readBack.Some? && Within(readBack.value, position)) ||
      (readBack.None? && Succeeded(fallback) && Within(fallback.value, position))
    ensures readBack.Some? || !Succeeded(fallback) ==>
      Verdict(readBack, fallback, position) == VerdictAsWritten(readBack, fallback, position)
  {
  }

  /** A servo read through the fallback exactly on target is reported as
      skipped by the code as written, and as passed by the fallback
      verdict. */
  lemma FallbackVerdictLost()
    ensures VerdictAsWritten(None, Reply(1024, COMM_SUCCESS), 1024).None?
    ensures Verdict(None, Reply(1024, COMM_SUCCESS), 1024) == Some(true)
  {
  }

  /** The speed and acceleration of the movement test. */
  const SPEED: int := 500
  const ACCELERATION: int := 30

  /** The write `test_single_movement` makes for the clamped target: a
      direct timed `WritePos` on `scscl`, `write_position` otherwise. */
  function MovementCall(protocol: string, hasWritePos: bool, hasWritePosEx: bool,
                        id: int, req: int, before: Option<int>): (c: Option<Call>)
    ensures c.Some? ==> c.value.id == id && c.value.position == req
    ensures protocol == "scscl" && hasWritePos ==> c.Some? && c.value.WritePosCall? && c.value.time >= 100
  {
    if protocol == "scscl" && hasWritePos then
      var cur := if before.Some? then before.value else req;
      Some(WritePosCall(id, req, MoveTime(cur, req, Int(SPEED)), MoveSpeed(Int(SPEED))))
    else WritePositionCall(protocol, hasWritePos, hasWritePosEx, id, req, Int(SPEED), ACCELERATION)
  }

  /** What the bus answers during one movement test. */
  datatype MoveBus = MoveBus(
    scan: Replies,          // discovery `ReadPos`, by id
    before: Reply,          // `ReadPos` before the move
    minLimit: Reply,        // register 9
    maxLimit: Reply,        // register 11
    write: WriteReply,      // the write call
    readBack: seq<Reply>,   // the read-back attempts
    fallback: Reply)        // `ReadPosSpeed`

  /** The calls made and the value returned once the servo is known. */
  datatype Attempt = Attempt(calls: seq<Call>, result: Option<bool>)

  function Movement(protocol: string, hasWritePos: bool, hasWritePosEx: bool,
                    id: int, position: int, m: MoveBus): (a: Attempt)
    ensures |a.calls| <= 1 && a.result.Some?
  {
    var before := if Succeeded(m.before) then Some(m.before.value) else None;
    var req := ClampToLimits(position, Limits(m.minLimit, m.maxLimit));
    match MovementCall(protocol, hasWritePos, hasWritePosEx, id, req, before)
    case None => Attempt([], Verdict(FirstSuccess(m.readBack, 0), m.fallback, position))
    case Some(c) =>
      if m.write.RaisedRes? || WriteFailed(m.write) then Attempt([c], Some(false))
      else Attempt([c], Verdict(FirstSuccess(m.readBack, 0), m.fallback, position))
  }

  /**
   * What one movement test sends and decides: at most one write, to the
   * servo under test, at a target inside the limits whenever they are
   * known and ordered; on `scscl` with `WritePos` a move time of at least
   * 100 ms and a speed of at least 1000; a raised or failed write fails
   * the test; a verdict is always reached, and a pass needs a position
   * read back (or read by the fallback) within tolerance of the requested,
   * not the clamped, position.
   */
  lemma {:induction false} MovementShape(protocol: string, hasWritePos: bool, hasWritePosEx: bool,
                                         id: int, position: int, m: MoveBus)
    ensures var a := Movement(protocol, hasWritePos, hasWritePosEx, id, position, m);
      |a.calls| <= 1 &&
      (forall c :: c in a.calls ==> c.id == id) &&
      (forall c :: (c in a.calls && Succeeded(m.minLimit) && Succeeded(m.maxLimit) &&
         m.minLimit.value <= m.maxLimit.value) ==> m.minLimit.value <= c.position <= m.maxLimit.value) &&
      (protocol == "scscl" && hasWritePos ==>
         |a.calls| == 1 && a.calls[0].WritePosCall? && a.calls[0].time >= 100 && Value(a.calls[0].speed) >= 1000.0) &&
      (a.calls != [] && (m.write.RaisedRes? || WriteFailed(m.write)) ==> a.result == Some(false)) &&
      a.result.Some? &&
      (a.result == Some(true) ==>
         (FirstSuccess(m.readBack, 0).Some? && Within(FirstSuccess(m.readBack, 0).value, position)) ||
         (FirstSuccess(m.readBack, 0).None? && Succeeded(m.fallback) && Within(m.fallback.value, position)))
  {
    var before := if Succeeded(m.before) then Some(m.before.value) else None;
    var req := ClampToLimits(position, Limits(m.minLimit, m.maxLimit));
    if protocol == "scscl" && hasWritePos {
      var cur := if before.Some? then before.value else req;
      MoveTimeAtLeast100(cur, req, Int(SPEED));
    }
  }

  /** The ids probed by the discovery scan: 0 to 253. */
  function DiscoveryRange(): (r: seq<int>)
    ensures |r| == 254 && forall i :: 0 <= i < 254 ==> r[i] == i
  {
    seq(254, i => i)
  }

  /** The 14 servo ids the duck is wired with. */
  const EXPECTED_IDS: seq<int> := [10, 11, 12, 13, 14, 20, 21, 22, 23, 24, 30, 31, 32, 33]

  /** `detected_servos` after probing `ids` in order: each responding id
      is recorded with the position it reported. */
  function Scan(detected: map<int, int>, ids: seq<int>, bus: Replies): (r: map<int, int>)
    ensures detected.Keys <= r.Keys
    ensures forall id :: id in r ==> id in detected || id in ids
    decreases |ids|
  {
    if ids == [] then detected
    else
      var r := ReplyOf(bus, ids[0]);
      Scan(if Succeeded(r) then detected[ids[0] := r.value] else detected, ids[1..], bus)
  }

  /** After a scan an id is known exactly when it was known before or
      responded to the scan. */
  lemma {:induction false} ScanKeys(detected: map<int, int>, ids: seq<int>, bus: Replies, id: int)
    ensures id in Scan(detected, ids, bus) <==> id in detected || id in Responding(ids, bus)
    decreases |ids|
  {
    if ids != [] {
      var r := ReplyOf(bus, ids[0]);
      ScanKeys(if Succeeded(r) then detected[ids[0] := r.value] else detected, ids[1..], bus, id);
    }
  }

  /** An id of the probe range is known after the discovery scan exactly
      when it was known before or answers a position read. */
  lemma ProbedIdKnown(detected: map<int, int>, bus: Replies, id: int)
    requires 0 <= id < 254
    ensures id in Scan(detected, DiscoveryRange(), bus) <==> id in detected || Succeeded(ReplyOf(bus, id))
  {
    ScanKeys(detected, DiscoveryRange(), bus, id);
    RespondingMembers(DiscoveryRange(), bus, id);
    assert DiscoveryRange()[id] == id;
  }

  /** Discovery passes exactly when every expected id was known before or
      answers a position read; the probe range covers all of them. */
  lemma DiscoveryVerdict(detected: map<int, int>, bus: Replies)
    ensures (forall id :: id in EXPECTED_IDS ==> id in Scan(detected, DiscoveryRange(), bus)) <==>
      (forall id :: id in EXPECTED_IDS ==> id in detected || Succeeded(ReplyOf(bus, id)))
  {
    forall id | id in EXPECTED_IDS
      ensures id in Scan(detected, DiscoveryRange(), bus) <==> id in detected || Succeeded(ReplyOf(bus, id))
    {
      assert 10 <= id <= 33;
      ProbedIdKnown(detected, bus, id);
    }
  }

  class WaveshareTest {
    var protocol: string
    /** Whether the chosen packet handler offers `WritePos` / `WritePosEx`. */
    var hasWritePos: bool
    var hasWritePosEx: bool
    /** `detected_servos`: id -> position, kept across tests. */
    var detected: map<int, int>
    /** The write calls made so far. */
    var log: seq<Call>

    constructor (protocol: string, hasWritePos: bool, hasWritePosEx: bool)
      ensures this.protocol == protocol && this.hasWritePos == hasWritePos && this.hasWritePosEx == hasWritePosEx
      ensures detected == map[] && log == []
    {
      this.protocol := protocol;
      this.hasWritePos := hasWritePos;
      this.hasWritePosEx := hasWritePosEx;
      detected := map[];
      log := [];
    }

    /** Every expected id is among the detected servos. */
    predicate AllExpected()
      reads this
    {
      forall id :: id in EXPECTED_IDS ==> id in detected
    }

    /** `test_discovery`: probes ids 0 to 253, records every responding
        servo, counts them, and passes when no expected id is missing. */
    method Discovery(bus: Replies) returns (ok: bool, foundCount: nat)
      modifies this`detected
      ensures detected == Scan(old(detected), DiscoveryRange(), bus)
      ensures foundCount == |Responding(DiscoveryRange(), bus)|
      ensures ok <==> AllExpected()
    {
      var ids := DiscoveryRange();
      var found := detected;
      foundCount := 0;
      for i := 0 to |ids|
        invariant Scan(found, ids[i..], bus) == Scan(old(detected), ids, bus)
        invariant foundCount + |Responding(ids[i..], bus)| == |Responding(ids, bus)|
      {
        ghost var rest := ids[i..];
        assert rest[0] == ids[i] && rest[1..] == ids[i + 1..];
        var reply := ReplyOf(bus, ids[i]);
        if reply.Reply? && reply.comm == COMM_SUCCESS {
          found := found[ids[i] := reply.value];
          foundCount := foundCount + 1;
        }
      }
      assert ids[|ids|..] == [];
      detected := found;
      ok := AllExpected();
    }

    /**
     * `test_single_movement(servo_id, position)`: runs discovery first when
     * the servo is not yet known and fails when it is still missing or
     * discovery failed; otherwise makes the movement attempt.
     */
    method SingleMovement(id: int, position: int, m: MoveBus) returns (result: Option<bool>)
      modifies this`detected, this`log
      ensures id in old(detected) ==> detected == old(detected)
      ensures id !in old(detected) ==> detected == Scan(old(detected), DiscoveryRange(), m.scan)
      ensures var known := id in old(detected) || (AllExpected() && id in detected);
        var a := Movement(protocol, hasWritePos, hasWritePosEx, id, position, m);
        (known ==> log == old(log) + a.calls && result == a.result) &&
        (!known ==> log == old(log) && result == Some(false))
    {
      if id !in detected {
        var ok, _ := Discovery(m.scan);
        if !ok || id !in detected {
          return Some(false);
        }
      }
      var before := if Succeeded(m.before) then Some(m.before.value) else None;
      var req := ClampToLimits(position, Limits(m.minLimit, m.maxLimit));
      var call := MovementCall(protocol, hasWritePos, hasWritePosEx, id, req, before);
      var written := NoneRes;
      if call.Some? {
        log := log + [call.value];
        if m.write.RaisedRes? {
          return Some(false);
        }
        written := m.write;
      }
      if WriteFailed(written) {
        return Some(false);
      }
      var readBack := ReadBack(m.readBack);
      result := Verdict(readBack, m.fallback, position);
    }
  }

  /** The tests the script can run, in the order it runs them. */
  datatype TestName = DiscoveryTest | PositionsTest | SpeedsTest | SingleTest | AllMoveTest | HwiTest

  /** The `--test` choice: everything, or one test. */
  datatype Choice = All | Only(test: TestName)

  /** The keys of the `results` dictionary for a choice, in order. */
  function Selected(choice: Choice): (ts: seq<TestName>)
    ensures choice.Only? ==> ts == [choice.test]
    ensures choice.All? ==> |ts| == 6
  {
    match choice
    case All => [DiscoveryTest, PositionsTest, SpeedsTest, SingleTest, AllMoveTest, HwiTest]
    case Only(t) => [t]
  }

  /** `--test all` runs every test exactly once. */
  lemma SelectedAllOnce()
    ensures forall t: TestName :: t in Selected(All)
    ensures forall i, j :: 0 <= i < j < |Selected(All)| ==> Selected(All)[i] != Selected(All)[j]
  {
    forall t: TestName
      ensures t in Selected(All)
    {
      var ts := Selected(All);
      match t {
        case DiscoveryTest => assert ts[0] == t;
        case PositionsTest => assert ts[1] == t;
        case SpeedsTest => assert ts[2] == t;
        case SingleTest => assert ts[3] == t;
        case AllMoveTest => assert ts[4] == t;
        case HwiTest => assert ts[5] == t;
      }
    }
  }

  /** How many results equal `v`. */
  function Count(results: seq<Option<bool>>, v: Option<bool>): (n: nat)
    ensures n <= |results|
  {
    if results == [] then 0
    else (if results[0] == v then 1 else 0) + Count(results[1..], v)
  }

  /** Every result is a pass, a fail or a skip. */
  lemma {:induction false} CountPartition(results: seq<Option<bool>>)
    ensures Count(results, Some(true)) + Count(results, Some(false)) + Count(results, None) == |results|
  {
    if results != [] {
      CountPartition(results[1..]);
      match results[0] {
        case Some(b) => assert results[0] == Some(true) || results[0] == Some(false);
        case None =>
      }
    }
  }

  /** The summary: passes, failures and skips (a `None` result), and the
      exit status, 1 when anything failed. */
  method Summarize(results: seq<Option<bool>>) returns (passed: nat, failed: nat, skipped: nat, exitCode: int)
    ensures passed == Count(results, Some(true))
    ensures failed == Count(results, Some(false))
    ensures skipped == Count(results, None)
    ensures passed + failed + skipped == |results|
    ensures exitCode == (if failed > 0 then 1 else 0)
  {
    passed, failed, skipped := 0, 0, 0;
    for i := 0 to |results|
      invariant passed + Count(results[i..], Some(true)) == Count(results, Some(true))
      invariant failed + Count(results[i..], Some(false)) == Count(results, Some(false))
      invariant skipped + Count(results[i..], None) == Count(results, None)
    {
      ghost var rest := results[i..];
      assert rest[0] == results[i] && rest[1..] == results[i + 1..];
      match results[i] {
        case Some(true) => passed := passed + 1;
        case Some(false) => failed := failed + 1;
        case None => skipped := skipped + 1;
      }
    }
    assert results[|results|..] == [];
    CountPartition(results);
    exitCode := if failed > 0 then 1 else 0;
  }
}
