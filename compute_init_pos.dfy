/**
 * The calibration step of the Open Duck tooling: every joint of the duck
 * configuration's joint map whose servo has a recorded calibration count
 * gets its `init_pos` angle recomputed from that count, with the same
 * count -> radian formula the hardware interface reads positions with;
 * every other configuration entry is written back as it was.
 */
module InitPos {
  import opened Bus
  import OpenDuckHwi

  /** A key of the calibration dictionary.  A dictionary loaded from JSON
      only has `Text` keys; the script also probes the integer key. */
  datatype Key = Text(s: string) | Number(n: int)

  /** The calibration data: servo id -> recorded count, `null` allowed. */
  type Calibration = map<Key, Option<int>>

  /** The configuration entries this step reads or writes; anything else is
      carried through as `Other`. */
  datatype ConfigValue =
    | Integer(n: int)
    | JointMap(joints: seq<Joint>)
    | Poses(poses: map<string, real>)
    | Other

  type Config = map<string, ConfigValue>

  const COUNTS_PER_PI_KEY: string := "counts_per_pi"
  const JOINT_MAP_KEY: string := "joint_map"
  const INIT_POS_KEY: string := "init_pos"

  /** The resolution used when the configuration names none. */
  const DEFAULT_COUNTS_PER_PI: int := 1024

  function Digit(d: int): (ch: char)
    requires 0 <= d < 10
    ensures ch as int == '0' as int + d
  {
    "0123456789"[d]
  }

  function NatToString(n: nat): (s: string)
    ensures |s| >= 1
    decreases n
  {
    if n < 10 then [Digit(n)] else NatToString(n / 10) + [Digit(n % 10)]
  }

  /** Python's `str()` on an integer. */
  function IntToString(n: int): (s: string)
    ensures n >= 0 ==> s == NatToString(n)
    ensures n < 0 ==> s == "-" + NatToString(-n)
  {
    if n < 0 then "-" + NatToString(-n) else NatToString(n)
  }

  lemma IntToStringExamples()
    ensures IntToString(20) == "20" && IntToString(7) == "7" && IntToString(-3) == "-3"
  {
  }

  predicate IsDigits(s: string) {
    forall i :: 0 <= i < |s| ==> '0' <= s[i] <= '9'
  }

  /** The number a string of decimal digits spells, most significant first. */
  function DecimalValue(s: string): nat
    requires IsDigits(s)
  {
    if s == [] then 0
    else DecimalValue(s[..|s| - 1]) * 10 + (s[|s| - 1] as int - '0' as int)
  }

  /** `str(n)` of a natural number is its decimal spelling, with no leading
      zero. */
  lemma {:induction false} NatToStringDecimal(n: nat)
    ensures IsDigits(NatToString(n)) && DecimalValue(NatToString(n)) == n
    ensures NatToString(n)[0] == '0' ==> n == 0
    decreases n
  {
    var s := NatToString(n);
    if n >= 10 {
      NatToStringDecimal(n / 10);
      assert s[..|s| - 1] == NatToString(n / 10);
    } else {
      assert s[..0] == [];
    }
  }

  /** `str()` spells every integer in decimal, a minus sign first exactly
      for a negative one, so that distinct servo ids give distinct keys. */
  lemma {:induction false} IntToStringDecimal(n: int)
    ensures |IntToString(n)| >= 1
    ensures n < 0 <==> IntToString(n)[0] == '-'
    ensures n >= 0 ==> IsDigits(IntToString(n)) && DecimalValue(IntToString(n)) == n
    ensures n < 0 ==> IsDigits(IntToString(n)[1..]) && DecimalValue(IntToString(n)[1..]) == -n
  {
    if n < 0 {
      var t := NatToString(-n);
      NatToStringDecimal(-n);
      assert IntToString(n) == "-" + t;
      assert IntToString(n)[1..] == t;
    } else {
      var t := NatToString(n);
      NatToStringDecimal(n);
      assert IntToString(n) == t;
      assert '0' <= t[0] <= '9';
    }
  }

  lemma IntToStringInjective(a: int, b: int)
    requires IntToString(a) == IntToString(b)
    ensures a == b
  {
    IntToStringDecimal(a);
    IntToStringDecimal(b);
  }

  /**
   * The count recorded for a servo: the string key `str(sid)` is consulted
   * first, the integer key `sid` only when the string key is absent.  A
   * string key mapped to `null` yields None even when the integer key has
   * a count.
   */
  function CalibrationOf(data: Calibration, sid: int): (c: Option<int>)
    ensures Text(IntToString(sid)) !in data && Number(sid) !in data ==> c.None?
  {
    if Text(IntToString(sid)) in data then data[Text(IntToString(sid))]
    else if Number(sid) in data then data[Number(sid)]
    else None
  }

  /** The string key wins whenever it is present. */
  lemma StringKeyWins(data: Calibration, sid: int)
    requires Text(IntToString(sid)) in data
    ensures CalibrationOf(data, sid) == data[Text(IntToString(sid))]
  {
  }

  /** The integer key is used only when the string key is absent. */
  lemma NumberKeyFallback(data: Calibration, sid: int)
    requires Text(IntToString(sid)) !in data && Number(sid) in data
    ensures CalibrationOf(data, sid) == data[Number(sid)]
  {
  }

  /** `counts_per_pi // 2`: floor division, which for the divisor 2 is
      Dafny's Euclidean division. */
  function Center(cpp: int): (c: int)
    ensures 2 * c <= cpp < 2 * c + 2
  {
    cpp / 2
  }

  /** `(c - center) * math.pi / (counts_per_pi / 2)`: the centre count
      stands for 0 rad, and for a positive resolution a count above it for
      a positive angle, one below it for a negative angle. */
  function CountToRad(cpp: int, c: int): (r: real)
    requires cpp != 0
    ensures c == Center(cpp) ==> r == 0.0
    ensures cpp > 0 && c > Center(cpp) ==> r > 0.0
    ensures cpp > 0 && c < Center(cpp) ==> r < 0.0
  {
    var d := (c - Center(cpp)) as real;
    assert d > 0.0 ==> d * PI > 0.0;
    assert d < 0.0 ==> d * PI < 0.0;
    d * PI / (cpp as real / 2.0)
  }

  /**
   * For a non-negative or even resolution the script's `//` centre equals
   * the interface's `int(counts_per_pi / 2)`, so the angle written here is
   * exactly the angle the interface reads for that count.
   */
  lemma {:induction false} AgreesWithHwi(cpp: int, c: int)
    requires cpp != 0 && (cpp > 0 || cpp % 2 == 0)
    ensures CountToRad(cpp, c) == OpenDuckHwi.ServoPosToRad(cpp, c)
  {
    var k := Center(cpp);
    if cpp % 2 == 0 {
      assert cpp as real / 2.0 == k as real;
      TruncOfInt(k);
    } else {
      assert cpp == 2 * k + 1;
      assert cpp as real / 2.0 == k as real + 0.5;
    }
    assert k == OpenDuckHwi.Center(cpp);
  }

  /** For a negative odd resolution the two centres differ by one count:
      `//` rounds down, `int()` toward zero. */
  lemma {:induction false} CentersDifferOnNegativeOdd(cpp: int)
    requires cpp < 0 && cpp % 2 == 1
    ensures OpenDuckHwi.Center(cpp) == Center(cpp) + 1
  {
    var k := Center(cpp);
    assert cpp == 2 * k + 1;
    assert cpp as real / 2.0 == k as real + 0.5;
  }

  /** A calibrated angle sent back through the interface's
      `rad_to_servo_pos` commands the calibration count again. */
  lemma {:induction false} CalibrationRoundTrip(cpp: int, c: int)
    requires cpp >= 1 && 0 <= c <= cpp - 1
    ensures OpenDuckHwi.RadToServoPos(cpp, CountToRad(cpp, c)) == c
  {
    AgreesWithHwi(cpp, c);
    OpenDuckHwi.ServoPosRoundTrip(cpp, c);
  }

  /** The joints of `joints` that have a calibration count. */
  function Calibrated(joints: seq<Joint>, data: Calibration): (r: seq<Joint>)
    ensures |r| <= |joints|
    ensures forall j :: j in r ==> j in joints && CalibrationOf(data, j.id).Some?
  {
    if joints == [] then []
    else (if CalibrationOf(data, joints[0].id).Some? then [joints[0]] else []) + Calibrated(joints[1..], data)
  }

  /** A joint is in `Calibrated` exactly when it is in the map and has a
      count. */
  lemma {:induction false} CalibratedMembers(joints: seq<Joint>, data: Calibration, j: Joint)
    ensures j in Calibrated(joints, data) <==> j in joints && CalibrationOf(data, j.id).Some?
  {
    if joints != [] {
      CalibratedMembers(joints[1..], data, j);
      assert joints == [joints[0]] + joints[1..];
    }
  }

  /** The `init_pos` dictionary after the joints of `joints` were visited
      in order, starting from `pos`. */
  function Recalibrate(pos: map<string, real>, joints: seq<Joint>, data: Calibration, cpp: int): (r: map<string, real>)
    requires cpp != 0
    ensures pos.Keys <= r.Keys
    ensures forall n :: n in r ==> n in pos || n in Names(joints)
    decreases |joints|
  {
    if joints == [] then pos
    else
      var next := match CalibrationOf(data, joints[0].id)
        case None => pos
        case Some(c) => pos[joints[0].name := CountToRad(cpp, c)];
      Recalibrate(next, joints[1..], data, cpp)
  }

  /** Names outside the joint map keep their `init_pos` entry, or keep
      having none. */
  lemma {:induction false} RecalibrateKeepsOthers(pos: map<string, real>, joints: seq<Joint>, data: Calibration, cpp: int, name: string)
    requires cpp != 0 && name !in Names(joints)
    ensures name in Recalibrate(pos, joints, data, cpp) <==> name in pos
    ensures name in pos ==> Recalibrate(pos, joints, data, cpp)[name] == pos[name]
    decreases |joints|
  {
    if joints != [] {
      assert Names(joints) == [joints[0].name] + Names(joints[1..]);
      var next := match CalibrationOf(data, joints[0].id)
        case None => pos
        case Some(c) => pos[joints[0].name := CountToRad(cpp, c)];
      RecalibrateKeepsOthers(next, joints[1..], data, cpp, name);
    }
  }

  /** A joint-map name appears once in the map, as a dictionary key does. */
  predicate DistinctNames(joints: seq<Joint>) {
    forall i, j :: 0 <= i < j < |joints| ==> joints[i].name != joints[j].name
  }

  /**
   * A joint of the map ends with the angle of its servo's count when it
   * has one, and keeps its previous `init_pos` entry (or absence of one)
   * when it has none.
   */
  lemma {:induction false} RecalibrateJoint(pos: map<string, real>, joints: seq<Joint>, data: Calibration, cpp: int, k: int)
    requires cpp != 0 && DistinctNames(joints) && 0 <= k < |joints|
    ensures var r := Recalibrate(pos, joints, data, cpp);
      var j := joints[k];
      match CalibrationOf(data, j.id)
      case Some(c) => j.name in r && r[j.name] == CountToRad(cpp, c)
      case None => (j.name in r <==> j.name in pos) && (j.name in pos ==> r[j.name] == pos[j.name])
    decreases |joints|
  {
    var next := match CalibrationOf(data, joints[0].id)
      case None => pos
      case Some(c) => pos[joints[0].name := CountToRad(cpp, c)];
    if k == 0 {
      NameNotInTail(joints);
      RecalibrateKeepsOthers(next, joints[1..], data, cpp, joints[0].name);
    } else {
      assert DistinctNames(joints[1..]) by {
        forall i, j | 0 <= i < j < |joints[1..]|
          ensures joints[1..][i].name != joints[1..][j].name
        {
          assert joints[1..][i] == joints[i + 1] && joints[1..][j] == joints[j + 1];
        }
      }
      RecalibrateJoint(next, joints[1..], data, cpp, k - 1);
      assert joints[1..][k - 1] == joints[k];
      assert joints[0].name != joints[k].name;
    }
  }

  /** The head's name does not recur in the tail of a map with distinct
      names. */
  lemma NameNotInTail(joints: seq<Joint>)
    requires joints != [] && DistinctNames(joints)
    ensures joints[0].name !in Names(joints[1..])
  {
    NamesIndex(joints[1..], joints[0].name);
  }

  /** A name of `Names(joints)` is the name of some entry. */
  lemma {:induction false} NamesIndex(joints: seq<Joint>, name: string)
    ensures name in Names(joints) ==> exists i :: 0 <= i < |joints| && joints[i].name == name
  {
    if joints != [] {
      NamesIndex(joints[1..], name);
      assert Names(joints) == [joints[0].name] + Names(joints[1..]);
      if name in Names(joints[1..]) {
        var i :| 0 <= i < |joints[1..]| && joints[1..][i].name == name;
        assert joints[i + 1].name == name;
      }
    }
  }

  /** How the script ends: the configuration it writes back and the number
      of joints it updated, a division by a zero resolution, or a
      configuration entry of the wrong kind. */
  datatype Outcome = Written(cfg: Config, updated: nat) | ZeroDivision | Malformed

  /** `cfg.get("counts_per_pi", 1024)`, when it is an integer. */
  function CountsPerPi(cfg: Config): Option<int> {
    if COUNTS_PER_PI_KEY !in cfg then Some(DEFAULT_COUNTS_PER_PI)
    else match cfg[COUNTS_PER_PI_KEY]
      case Integer(n) => Some(n)
      case _ => None
  }

  /** `cfg.get("joint_map", {})`, when it is a joint map. */
  function JointMapOf(cfg: Config): Option<seq<Joint>> {
    if JOINT_MAP_KEY !in cfg then Some([])
    else match cfg[JOINT_MAP_KEY]
      case JointMap(js) => Some(js)
      case _ => None
  }

  /** `cfg.get("init_pos", {})`, when it is a pose dictionary. */
  function InitPosOf(cfg: Config): Option<map<string, real>> {
    if INIT_POS_KEY !in cfg then Some(map[])
    else match cfg[INIT_POS_KEY]
      case Poses(m) => Some(m)
      case _ => None
  }

  /** What the update step produces for a configuration and calibration. */
  function Expected(cfg: Config, data: Calibration): (o: Outcome)
    ensures o.Malformed? <==> CountsPerPi(cfg).None? || JointMapOf(cfg).None? || InitPosOf(cfg).None?
    ensures o.Written? ==> JointMapOf(cfg).Some? && o.updated <= |JointMapOf(cfg).value|
  {
    match (CountsPerPi(cfg), JointMapOf(cfg), InitPosOf(cfg))
    case (Some(cpp), Some(joints), Some(pos)) =>
      if cpp == 0 then
        if Calibrated(joints, data) == [] then Written(cfg[INIT_POS_KEY := Poses(pos)], 0) else ZeroDivision
      else Written(cfg[INIT_POS_KEY := Poses(Recalibrate(pos, joints, data, cpp))], |Calibrated(joints, data)|)
    case _ => Malformed
  }

  /**
   * Every configuration entry other than `init_pos` is written back as it
   * was; `init_pos` is always present afterwards; a zero resolution fails
   * exactly when some joint has a calibration count.
   */
  lemma ExpectedShape(cfg: Config, data: Calibration)
    ensures var o := Expected(cfg, data);
      o.Written? ==>
        INIT_POS_KEY in o.cfg && o.cfg.Keys == cfg.Keys + {INIT_POS_KEY} &&
        forall k :: k in cfg && k != INIT_POS_KEY ==> o.cfg[k] == cfg[k]
    ensures Expected(cfg, data).ZeroDivision? <==>
      CountsPerPi(cfg) == Some(0) && JointMapOf(cfg).Some? && InitPosOf(cfg).Some? &&
      Calibrated(JointMapOf(cfg).value, data) != []
  {
  }

  /**
   * The update loop of the script, minus the file I/O: reads the
   * resolution, the joint map and `init_pos` (with their defaults), visits
   * the joints in map order, and writes `init_pos` back into the
   * configuration.
   */
  method UpdateInitPos(cfg: Config, data: Calibration) returns (out: Outcome)
    ensures out == Expected(cfg, data)
  {
    var cppOpt, jointsOpt, posOpt := CountsPerPi(cfg), JointMapOf(cfg), InitPosOf(cfg);
    if cppOpt.None? || jointsOpt.None? || posOpt.None? {
      return Malformed;
    }
    var cpp, joints := cppOpt.value, jointsOpt.value;
    var initPos := posOpt.value;
    var updated: nat := 0;
    for i := 0 to |joints|
      invariant cpp != 0 ==> Recalibrate(initPos, joints[i..], data, cpp) == Recalibrate(posOpt.value, joints, data, cpp)
      invariant updated + |Calibrated(joints[i..], data)| == |Calibrated(joints, data)|
      invariant cpp == 0 ==> updated == 0 && initPos == posOpt.value
    {
      ghost var rest := joints[i..];
      assert rest[0] == joints[i] && rest[1..] == joints[i + 1..];
      var c := CalibrationOf(data, joints[i].id);
      if c.None? {
        continue;
      }
      if cpp == 0 {
        assert |Calibrated(joints[i..], data)| >= 1;
        return ZeroDivision;
      }
      initPos := initPos[joints[i].name := CountToRad(cpp, c.value)];
      updated := updated + 1;
    }
    assert joints[|joints|..] == [];
    out := Written(cfg[INIT_POS_KEY := Poses(initPos)], updated);
  }
}
