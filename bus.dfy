/**
 * Shared vocabulary of the servo layer: the optional value, Python's `int()`
 * on a float, the constant pi, and the serial bus as seen by the hardware
 * interfaces (supplied replies to reads, and a log of issued commands).
 */
module Bus {

  datatype Option<+T> = None | Some(value: T)

  /** Strictly positive reals; pi is one of them and nothing more is assumed. */
  type Positive = r: real | r > 0.0 witness 1.0

  /** The circle constant, kept opaque: only its positivity is used. */
  const PI: Positive

  /** `COMM_SUCCESS` of the servo SDK. */
  const COMM_SUCCESS: int := 0

  /**
   * Python's `int(x)` on a float: truncation toward zero, so that for a
   * negative argument the result is rounded up, not down.
   */
  function Trunc(x: real): (r: int)
    ensures 0.0 <= x ==> r as real <= x < r as real + 1.0
    ensures x < 0.0 ==> r as real - 1.0 < x <= r as real
  {
    if x >= 0.0 then x.Floor else -((-x).Floor)
  }

  /** Truncation never reverses the order of its arguments. */
  lemma TruncMonotone(x: real, y: real)
    requires x <= y
    ensures Trunc(x) <= Trunc(y)
  {
  }

  /** Truncation leaves an integer-valued float unchanged. */
  lemma TruncOfInt(n: int)
    ensures Trunc(n as real) == n
  {
  }

  /**
   * The outcome of one SDK read call (`ReadPos`, `ReadSpeed`,
   * `read2ByteTxRx`): either the triple's value and communication result
   * (the error byte is never inspected), or an exception.
   */
  datatype Reply = Reply(value: int, comm: int) | Raised

  /** The replies a bus gives, by servo id; an id the map does not mention
      stands for a call that raised. */
  type Replies = map<int, Reply>

  function ReplyOf(bus: Replies, id: int): (r: Reply)
    ensures id !in bus ==> r == Raised
  {
    if id in bus then bus[id] else Raised
  }

  /** A reply whose communication result is `COMM_SUCCESS`. */
  predicate Succeeded(r: Reply) {
    r.Reply? && r.comm == COMM_SUCCESS
  }

  /** One write issued through the SDK packet handler. */
  datatype Command =
    | WritePosEx(id: int, pos: int, speed: int, acc: int)
    | WritePos(id: int, pos: int, time: int, speed: int)
    | Write1Byte(id: int, reg: int, val: int)

  /** A joint-map entry: a joint name and the servo id it is wired to. */
  datatype Joint = Joint(name: string, id: int)

  /** One entry of a `{joint_name: rad}` dictionary handed to a setter. */
  datatype Target = Target(name: string, rad: real)

  function Names(joints: seq<Joint>): (r: seq<string>)
    ensures |r| == |joints|
  {
    if joints == [] then [] else [joints[0].name] + Names(joints[1..])
  }

  /** `joint_map.get(name)`: the id of the entry with that name, if any. */
  function Lookup(joints: seq<Joint>, name: string): (r: Option<int>)
    ensures r.None? <==> name !in Names(joints)
    ensures r.Some? ==> Joint(name, r.value) in joints
  {
    if joints == [] then None
    else if joints[0].name == name then Some(joints[0].id)
    else Lookup(joints[1..], name)
  }

  /** The entries of a setter's dictionary whose name the joint map knows,
      in input order. */
  function KnownTargets(joints: seq<Joint>, ts: seq<Target>): (r: seq<Target>)
    ensures |r| <= |ts|
  {
    if ts == [] then []
    else (if ts[0].name in Names(joints) then [ts[0]] else []) + KnownTargets(joints, ts[1..])
  }

  /** The entries kept are exactly the input entries with a known name. */
  lemma {:induction false} KnownTargetsMembers(joints: seq<Joint>, ts: seq<Target>, t: Target)
    ensures t in KnownTargets(joints, ts) <==> t in ts && t.name in Names(joints)
  {
    if ts != [] {
      KnownTargetsMembers(joints, ts[1..], t);
      assert ts == [ts[0]] + ts[1..];
    }
  }

  /** The ids of a scan range whose read succeeded, in scan order. */
  function Responding(ids: seq<int>, bus: Replies): seq<int>
  {
    if ids == [] then []
    else (if Succeeded(ReplyOf(bus, ids[0])) then [ids[0]] else []) + Responding(ids[1..], bus)
  }

  /** A scan finds exactly the scanned ids whose read succeeded. */
  lemma {:induction false} RespondingMembers(ids: seq<int>, bus: Replies, x: int)
    ensures x in Responding(ids, bus) <==> x in ids && Succeeded(ReplyOf(bus, x))
  {
    if ids != [] {
      RespondingMembers(ids[1..], bus, x);
      assert ids == [ids[0]] + ids[1..];
    }
  }

  /** Moving one element across the seam of a concatenation. */
  lemma Regroup<T>(acc: seq<T>, x: seq<T>, rest: seq<T>)
    ensures acc + (x + rest) == (acc + x) + rest
  {
  }
}
