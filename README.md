# Waveshare servo coordinate layer

This project models the servo coordinate layer of the Waveshare
serial-bus hardware interface of the Open Duck Mini robot. It also models
the bookkeeping around that layer. There are four parts.

- **Open Duck interface** (`open_duck_hwi.dfy`, module `OpenDuckHwi`).
  - The resolution is configurable (`counts_per_pi`).
  - Radians become counts by truncating with `int()` and then clamping
    into `[0, counts_per_pi - 1]`.
  - Writes go through the `scscl` or the `sms_sts` packet handler.
  - Readback runs in sorted joint-name order. A read that raises
    contributes 0.0.
  - A bus scan finds the responding servos.
- **Duck interface** (`duck_hwi.dfy`, module `DuckHwi`).
  - A fixed table of 14 joints; pi radians are 1024 counts, centred at 1024.
  - Angles are clipped to `[0, 2047]` and then truncated.
  - Per-joint offsets are added on write and subtracted on read.
  - Reads give up with `None` as soon as one joint fails.
  - The power-on sequence is low gains, then the home pose, then the
    "high" gains.
- **Calibration step** (`compute_init_pos.dfy`, module `InitPos`). It
  recomputes the `init_pos` angles of a duck configuration from the
  recorded calibration counts, using the interface's count -> radian
  formula.
- **Setup diagnostic** (`test_setup.dfy`, module `SetupTest`):
  - unit conversion;
  - the choice of write call and its parameters;
  - the discovery scan against the 14 expected ids;
  - the single-servo movement test (limit clamping, move time,
    write-result normalisation, read-back with retries, tolerance);
  - the pass / fail / skip tally.

Two modules are shared. `bus.dfy` (module `Bus`) holds the common
vocabulary:
- Python's `int()` as truncation toward zero;
- pi as an opaque positive constant;
- the serial bus, seen as supplied replies (`map<int, Reply>`; an id that
  is absent stands for a call that raised) and as a log of issued
  commands (`WritePosEx`, `WritePos`, `Write1Byte`).

`strings.dfy` (module `Strings`) holds Python's string order and
`sorted()`.

## How each part is modelled

Objects whose methods update fields are classes with `modifies` clauses.
- `WaveshareHWI` in both interfaces keeps a command log (`log`, or `trace`
  in the duck interface, which also records gain updates, so that the
  order of the power-on steps is visible).
- `WaveshareTest` keeps `detected` and the write log.

Each loop of the source is a method with loop invariants. It is proved
equal to a recursive specification function, for example `Dispatch`,
`Collect`, `Responding`, `Recalibrate`, `Scan` or `Count`. Lemmas about
those functions state what the source promises.

Radians are exact reals. Results that raise in Python are an explicit
outcome:
- `Option`;
- `ok: bool` for an interface call that stops with an exception;
- `Outcome.ZeroDivision` / `Outcome.Malformed` for the calibration step.

Where the system's design and its code disagree, the
model follows the code:
- The design rounds angles to counts. Both interfaces truncate with
  `int()`.
- The design's power-state machine (disabled / ramping / enabled)
  does not exist in the code. `turn_on` and `turn_off` are plain
  sequences.
  - The duck `turn_on` writes no torque-enable register at all.
  - The duck `turn_off` writes register 40. The Open Duck interface
    writes register 24.
- The design restores nominal gains after the rest pose. The duck code
  re-applies the low gains (see Findings).
- The Open Duck readers never inspect the communication result of a read.
  Only an exception changes the value (to 0.0).

## Model

| member | source | states |
|---|---|---|
| Bus.Trunc | Open_Duck_Mini_Runtime/mini_bdx_runtime/waveshare_position_hwi.py:63-64 | `int(x)` on a float rounds toward zero: down for x >= 0, up for x < 0, always by less than 1 |
| Bus.TruncMonotone | Open_Duck_Mini_Runtime/mini_bdx_runtime/waveshare_position_hwi.py:64 | truncation preserves order |
| Bus.Lookup | Open_Duck_Mini_Runtime/mini_bdx_runtime/waveshare_position_hwi.py:96-98 | `joint_map.get(name)` is None exactly for names not in the map; otherwise it is the id the map pairs with that name |
| Bus.RespondingMembers | Open_Duck_Mini_Runtime/mini_bdx_runtime/waveshare_position_hwi.py:137-146 | a scan finds an id exactly when the id was probed and its read returned `COMM_SUCCESS` |
| Bus.KnownTargets | Open_Duck_Mini_Runtime/mini_bdx_runtime/waveshare_position_hwi.py:93-98 | a setter acts on no more entries than it was given |
| Bus.KnownTargetsMembers | Open_Duck_Mini_Runtime/mini_bdx_runtime/waveshare_position_hwi.py:93-98 | the entries a setter acts on are exactly the input entries whose name the joint map knows |
| Strings.LexLeTotal | Open_Duck_Mini_Runtime/mini_bdx_runtime/waveshare_position_hwi.py:111 | Python string order is total |
| Strings.LexLeTransitive | Open_Duck_Mini_Runtime/mini_bdx_runtime/waveshare_position_hwi.py:111 | Python string order is transitive |
| Strings.InsertPermutes | Open_Duck_Mini_Runtime/mini_bdx_runtime/waveshare_position_hwi.py:111 | inserting a name adds exactly that name |
| Strings.InsertSorted | Open_Duck_Mini_Runtime/mini_bdx_runtime/waveshare_position_hwi.py:111 | inserting into an ordered list keeps it ordered |
| Strings.Sort | Open_Duck_Mini_Runtime/mini_bdx_runtime/waveshare_position_hwi.py:111 | `sorted(names)` has as many names as its argument (ordering and permutation in SortSorted) |
| Strings.SortSorted | Open_Duck_Mini_Runtime/mini_bdx_runtime/waveshare_position_hwi.py:111 | `sorted(names)` is ordered and is a permutation of `names` |
| OpenDuckHwi.Clamp | Open_Duck_Mini_Runtime/mini_bdx_runtime/waveshare_position_hwi.py:19-20 | for a <= b the result lies in [a, b] and is v when v already does; below a (or with crossed bounds) it is a; above b it is b |
| OpenDuckHwi.ClampMonotone | Open_Duck_Mini_Runtime/mini_bdx_runtime/waveshare_position_hwi.py:19-20 | clamping preserves order |
| OpenDuckHwi.RadToServoPos | Open_Duck_Mini_Runtime/mini_bdx_runtime/waveshare_position_hwi.py:61-65 | every angle maps to a count in [0, counts_per_pi - 1]; a resolution below 1 maps everything to 0 |
| OpenDuckHwi.CenterBounds | Open_Duck_Mini_Runtime/mini_bdx_runtime/waveshare_position_hwi.py:63 | the centre `int(counts_per_pi / 2)` is half the resolution, rounded down, and lies inside the range |
| OpenDuckHwi.RadToServoPosZero | Open_Duck_Mini_Runtime/mini_bdx_runtime/waveshare_position_hwi.py:55-64 | 0 rad maps to the centre count, 512 at the default resolution 1024 |
| OpenDuckHwi.RadToServoPosMonotone | Open_Duck_Mini_Runtime/mini_bdx_runtime/waveshare_position_hwi.py:61-65 | a larger angle never gives a smaller count, for every resolution |
| OpenDuckHwi.ServoPosToRadAffine | Open_Duck_Mini_Runtime/mini_bdx_runtime/waveshare_position_hwi.py:67-69 | the centre count is 0 rad and each count adds pi / (counts_per_pi / 2) |
| OpenDuckHwi.ServoPosRoundTrip | Open_Duck_Mini_Runtime/mini_bdx_runtime/waveshare_position_hwi.py:61-69 | every count c in [0, counts_per_pi - 1] survives count -> rad -> count, for every positive resolution |
| OpenDuckHwi.RadRoundTrip | Open_Duck_Mini_Runtime/mini_bdx_runtime/waveshare_position_hwi.py:61-69 | inside the servo's range, angle -> count -> angle loses less than one count: the commanded count's angle is <= the request and the next count's angle is above it |
| OpenDuckHwi.ServoPosToRad | Open_Duck_Mini_Runtime/mini_bdx_runtime/waveshare_position_hwi.py:67-69 | the centre count reads 0 rad |
| OpenDuckHwi.ServoPosToRadSign | Open_Duck_Mini_Runtime/mini_bdx_runtime/waveshare_position_hwi.py:67-69 | for a positive resolution a count above the centre reads a positive angle and one below it a negative angle |
| OpenDuckHwi.PositionCommand | Open_Duck_Mini_Runtime/mini_bdx_runtime/waveshare_position_hwi.py:100-106 | `sms_sts` writes `WritePosEx(sid, pos, speed, acc)`; every other protocol writes `WritePos(sid, pos, 0, speed)` |
| OpenDuckHwi.Dispatch | Open_Duck_Mini_Runtime/mini_bdx_runtime/waveshare_position_hwi.py:93-106 | `set_position_all` sends at most one write per entry (exactly which ones: DispatchExact) |
| OpenDuckHwi.DispatchExact | Open_Duck_Mini_Runtime/mini_bdx_runtime/waveshare_position_hwi.py:93-106 | exactly one command per entry whose name the joint map knows, in input order, each to that joint's servo with that entry's count; unknown names send nothing |
| OpenDuckHwi.DispatchInRange | Open_Duck_Mini_Runtime/mini_bdx_runtime/waveshare_position_hwi.py:93-106 | every dispatched write is a position write with a count in [0, counts_per_pi - 1] and the given speed |
| OpenDuckHwi.PositionReading | Open_Duck_Mini_Runtime/mini_bdx_runtime/waveshare_position_hwi.py:114-119 | a read that raises, or a conversion that divides by a zero resolution, contributes 0.0; a read that returns contributes `servo_pos_to_rad` of its count, whatever its communication result |
| OpenDuckHwi.VelocityReading | Open_Duck_Mini_Runtime/mini_bdx_runtime/waveshare_position_hwi.py:128-134 | a read that raises contributes 0.0; a read that returns contributes its raw speed |
| OpenDuckHwi.Collect | Open_Duck_Mini_Runtime/mini_bdx_runtime/waveshare_position_hwi.py:108-135 | a reader returns exactly one value per name not on the ignore list (which value: CollectExact) |
| OpenDuckHwi.CollectExact | Open_Duck_Mini_Runtime/mini_bdx_runtime/waveshare_position_hwi.py:108-135 | one entry per non-ignored name, in order, each computed from that joint's own reply, so one failed read leaves the other entries alone |
| OpenDuckHwi.SortedNameKnown | Open_Duck_Mini_Runtime/mini_bdx_runtime/waveshare_position_hwi.py:111-114 | every name of `sorted(joint_map.keys())` is a key, so the lookup `self.joints[name]` never raises |
| OpenDuckHwi.WaveshareHWI.constructor | Open_Duck_Mini_Runtime/mini_bdx_runtime/waveshare_position_hwi.py:37-59 | protocol, resolution, joint map and home pose come from the configuration, with defaults "scscl", 1024, {} and {}; the log starts empty |
| OpenDuckHwi.WaveshareHWI.SetKps | Open_Duck_Mini_Runtime/mini_bdx_runtime/waveshare_position_hwi.py:71-73 | the gains are stored and nothing is sent |
| OpenDuckHwi.WaveshareHWI.SetKds | Open_Duck_Mini_Runtime/mini_bdx_runtime/waveshare_position_hwi.py:75-76 | the gains are stored and nothing is sent |
| OpenDuckHwi.WaveshareHWI.TurnOn | Open_Duck_Mini_Runtime/mini_bdx_runtime/waveshare_position_hwi.py:78-84 | appends `Write1Byte(id, 24, 1)` for every joint, in joint-map order |
| OpenDuckHwi.WaveshareHWI.TurnOff | Open_Duck_Mini_Runtime/mini_bdx_runtime/waveshare_position_hwi.py:86-91 | appends `Write1Byte(id, 24, 0)` for every joint, in joint-map order |
| OpenDuckHwi.WaveshareHWI.SetTorque | Open_Duck_Mini_Runtime/mini_bdx_runtime/waveshare_position_hwi.py:80-82 | the shared loop appends one torque-enable write per joint |
| OpenDuckHwi.WaveshareHWI.SetPositionAll | Open_Duck_Mini_Runtime/mini_bdx_runtime/waveshare_position_hwi.py:93-106 | the log grows by exactly `Dispatch` of the targets (see DispatchExact) |
| OpenDuckHwi.WaveshareHWI.GetPresentPositions | Open_Duck_Mini_Runtime/mini_bdx_runtime/waveshare_position_hwi.py:108-120 | the result is `Collect` of the converted positions over the sorted names (see CollectExact) |
| OpenDuckHwi.WaveshareHWI.GetPresentVelocities | Open_Duck_Mini_Runtime/mini_bdx_runtime/waveshare_position_hwi.py:122-135 | the result is `Collect` of the raw speeds over the sorted names |
| OpenDuckHwi.WaveshareHWI.ReadAll | Open_Duck_Mini_Runtime/mini_bdx_runtime/waveshare_position_hwi.py:108-135 | the shared reading loop equals `Collect` over `sorted(joint_map.keys())` |
| OpenDuckHwi.WaveshareHWI.ScanServos | Open_Duck_Mini_Runtime/mini_bdx_runtime/waveshare_position_hwi.py:137-146 | returns exactly the probed ids whose read returned result 0, in probe order (see RespondingMembers) |
| DuckHwi.Clip | duck_files/mini_bdx_runtime/mini_bdx_runtime/waveshare_position_hwi.py:138 | `np.clip` lies in [lo, hi], is x inside it, lo below it and hi above it |
| DuckHwi.RadToServoPos | duck_files/mini_bdx_runtime/mini_bdx_runtime/waveshare_position_hwi.py:127-138 | every angle maps into [0, 2047] |
| DuckHwi.ServoPosToRad | duck_files/mini_bdx_runtime/mini_bdx_runtime/waveshare_position_hwi.py:140-148 | count 1024 reads 0 rad, a larger count a positive angle and a smaller one a negative angle |
| DuckHwi.Scenario | duck_files/mini_bdx_runtime/mini_bdx_runtime/waveshare_position_hwi.py:137-138 | 0 -> 1024, pi/2 -> 1536, -pi/2 -> 512, pi -> 2047 (clipped from 2048), -pi -> 0 |
| DuckHwi.ServoPosToRadInverts | duck_files/mini_bdx_runtime/mini_bdx_runtime/waveshare_position_hwi.py:137-148 | `servo_pos_to_rad(rad_to_servo_pos(r)) == r` whenever the unclipped count lies in [0, 2047] |
| DuckHwi.RadToServoPosInverts | duck_files/mini_bdx_runtime/mini_bdx_runtime/waveshare_position_hwi.py:137-148 | every count in [0, 2047] survives count -> rad -> count |
| DuckHwi.RadToServoPosMonotone | duck_files/mini_bdx_runtime/mini_bdx_runtime/waveshare_position_hwi.py:137-138 | a larger angle never gives a smaller count |
| DuckHwi.CommandedCount | duck_files/mini_bdx_runtime/mini_bdx_runtime/waveshare_position_hwi.py:243 | `int(rad_to_servo_pos(..))` is an integer in [0, 2047] |
| DuckHwi.JointTable | duck_files/mini_bdx_runtime/mini_bdx_runtime/waveshare_position_hwi.py:64-100 | 14 joints with distinct names and distinct ids; the home pose names the same joints in the same order |
| DuckHwi.CommandFor | duck_files/mini_bdx_runtime/mini_bdx_runtime/waveshare_position_hwi.py:237-252 | `set_position` yields a command exactly when the name is in the joint map and has an offset, otherwise a `KeyError`; the command is `WritePosEx` to that joint's servo with count `int(rad_to_servo_pos(pos + offset))`, speed 500 and acceleration 30 |
| DuckHwi.Dispatch | duck_files/mini_bdx_runtime/mini_bdx_runtime/waveshare_position_hwi.py:256-281 | `set_position_all` sends at most one command per entry |
| DuckHwi.DispatchShape | duck_files/mini_bdx_runtime/mini_bdx_runtime/waveshare_position_hwi.py:256-281 | every command is a `WritePosEx` with a count in [0, 2047], speed 500 and acceleration 30; the call completes exactly when every known entry has an offset, and then sends one command per known entry |
| DuckHwi.DispatchExact | duck_files/mini_bdx_runtime/mini_bdx_runtime/waveshare_position_hwi.py:256-281 | the k-th command sent is `set_position`'s command for the k-th known entry; an early stop leaves a prefix of that list, a completed call the whole list |
| DuckHwi.UnknownName | duck_files/mini_bdx_runtime/mini_bdx_runtime/waveshare_position_hwi.py:237-266 | an unknown name is skipped by `set_position_all` but makes `set_position` fail |
| DuckHwi.Reading | duck_files/mini_bdx_runtime/mini_bdx_runtime/waveshare_position_hwi.py:300-364 | a read that failed or raised gives None; a position without an offset gives None, otherwise `servo_pos_to_rad(count) - offset`; a speed is raw x 0.05 for rad/s, raw otherwise |
| DuckHwi.Collect | duck_files/mini_bdx_runtime/mini_bdx_runtime/waveshare_position_hwi.py:295-321 | a reader that returns a list returns at most one value per joint (exactly which: CollectNone, CollectValues) |
| DuckHwi.CollectNone | duck_files/mini_bdx_runtime/mini_bdx_runtime/waveshare_position_hwi.py:295-319 | a reader returns None exactly when some non-ignored joint's reading fails |
| DuckHwi.CollectValues | duck_files/mini_bdx_runtime/mini_bdx_runtime/waveshare_position_hwi.py:295-321 | otherwise it returns one value per non-ignored joint, in joint-map order, each that joint's own reading |
| DuckHwi.RoundHalfEven | duck_files/mini_bdx_runtime/mini_bdx_runtime/waveshare_position_hwi.py:321 | rounding to an integer moves a value by at most 0.5 |
| DuckHwi.Round3 | duck_files/mini_bdx_runtime/mini_bdx_runtime/waveshare_position_hwi.py:321 | `np.around(x, 3)` moves a value by at most 0.0005 |
| DuckHwi.RoundAll | duck_files/mini_bdx_runtime/mini_bdx_runtime/waveshare_position_hwi.py:321 | rounding keeps the length and rounds each entry on its own |
| DuckHwi.Rounded | duck_files/mini_bdx_runtime/mini_bdx_runtime/waveshare_position_hwi.py:321 | a None reading stays None; a list is rounded entry by entry |
| DuckHwi.WaveshareHWI.constructor | duck_files/mini_bdx_runtime/mini_bdx_runtime/waveshare_position_hwi.py:60-108 | the fixed table, zero pose, home pose, the offsets from the configuration, and gains 32 / 0 / low 2 for 14 joints |
| DuckHwi.WaveshareHWI.SetKps | duck_files/mini_bdx_runtime/mini_bdx_runtime/waveshare_position_hwi.py:150-161 | `self.kps` is replaced by the argument; the step is recorded and nothing reaches the bus |
| DuckHwi.WaveshareHWI.SetKds | duck_files/mini_bdx_runtime/mini_bdx_runtime/waveshare_position_hwi.py:163-172 | `self.kds` is replaced by the argument; the step is recorded and nothing reaches the bus |
| DuckHwi.WaveshareHWI.TurnOn | duck_files/mini_bdx_runtime/mini_bdx_runtime/waveshare_position_hwi.py:185-212 | low gains, then the home-pose commands, then (if the dispatch returned) the "high" step, which applies the low gains again; `kps` ends as `low_torque_kps` |
| DuckHwi.WaveshareHWI.TurnOnRestoringGains | duck_files/mini_bdx_runtime/mini_bdx_runtime/waveshare_position_hwi.py:185-212 | the same sequence with the nominal gains saved first: the last step restores them, and it is reached whenever every home-pose joint has an offset |
| DuckHwi.WaveshareHWI.TurnOff | duck_files/mini_bdx_runtime/mini_bdx_runtime/waveshare_position_hwi.py:214-227 | sends `Write1Byte(id, 40, 0)` for every joint, in table order |
| DuckHwi.WaveshareHWI.SetPosition | duck_files/mini_bdx_runtime/mini_bdx_runtime/waveshare_position_hwi.py:229-254 | sends `CommandFor`'s command and returns true, or sends nothing and returns false where a lookup raises |
| DuckHwi.WaveshareHWI.SetPositionAll | duck_files/mini_bdx_runtime/mini_bdx_runtime/waveshare_position_hwi.py:256-281 | sends exactly `Dispatch`'s commands and returns whether the loop ran to the end (see DispatchShape) |
| DuckHwi.WaveshareHWI.GetPresentPositions | duck_files/mini_bdx_runtime/mini_bdx_runtime/waveshare_position_hwi.py:283-321 | the result is the rounded `Collect` of positions (see CollectNone, CollectValues) |
| DuckHwi.WaveshareHWI.GetPresentVelocities | duck_files/mini_bdx_runtime/mini_bdx_runtime/waveshare_position_hwi.py:323-366 | the result is the rounded `Collect` of speeds, scaled by 0.05 when `rad_s` |
| DuckHwi.WaveshareHWI.ReadAll | duck_files/mini_bdx_runtime/mini_bdx_runtime/waveshare_position_hwi.py:293-366 | the shared loop, with its early `return None`, equals the rounded `Collect` |
| DuckHwi.WaveshareHWI.ScanServos | duck_files/mini_bdx_runtime/mini_bdx_runtime/waveshare_position_hwi.py:405-427 | returns exactly the probed ids whose read succeeded, in probe order |
| DuckHwi.DefaultScanFindsJoints | duck_files/mini_bdx_runtime/mini_bdx_runtime/waveshare_position_hwi.py:405-427 | the default range 1..249 covers the table: a scan finds a joint's servo exactly when its read succeeds |
| DuckHwi.DispatchCompletes | duck_files/mini_bdx_runtime/mini_bdx_runtime/waveshare_position_hwi.py:263-281 | with an offset for every entry, `set_position_all` runs to the end, so `turn_on` reaches its last step |
| DuckHwi.PowerUpGains | duck_files/mini_bdx_runtime/mini_bdx_runtime/waveshare_position_hwi.py:198-208 | a fresh interface powered up by `turn_on` ends with gains 2, not 32 |
| DuckHwi.PowerUpGainsRestored | duck_files/mini_bdx_runtime/mini_bdx_runtime/waveshare_position_hwi.py:198-208 | the gain-restoring sequence ends with the nominal gains 32 |
| InitPos.IntToStringExamples | Open_Duck_Mini_Runtime/scripts/compute_init_pos.py:51 | examples: `str(20)` is "20", `str(7)` is "7", `str(-3)` is "-3" |
| InitPos.NatToStringDecimal | Open_Duck_Mini_Runtime/scripts/compute_init_pos.py:51 | `str(n)` of a natural number is a string of digits with no leading zero whose decimal value is n |
| InitPos.IntToStringDecimal | Open_Duck_Mini_Runtime/scripts/compute_init_pos.py:51 | `str(n)` starts with "-" exactly for a negative n and otherwise spells n (or -n after the sign) in decimal |
| InitPos.IntToStringInjective | Open_Duck_Mini_Runtime/scripts/compute_init_pos.py:51 | distinct servo ids give distinct string keys |
| InitPos.CalibrationOf | Open_Duck_Mini_Runtime/scripts/compute_init_pos.py:50-54 | with neither key present there is no count |
| InitPos.StringKeyWins | Open_Duck_Mini_Runtime/scripts/compute_init_pos.py:51-52 | the string key `str(sid)` decides whenever it is present, even when it maps to null |
| InitPos.NumberKeyFallback | Open_Duck_Mini_Runtime/scripts/compute_init_pos.py:53-54 | the integer key is consulted only when the string key is absent |
| InitPos.Center | Open_Duck_Mini_Runtime/scripts/compute_init_pos.py:39 | `counts_per_pi // 2` is the floor of half the resolution |
| InitPos.CountToRad | Open_Duck_Mini_Runtime/scripts/compute_init_pos.py:58 | the centre count is 0 rad; for a positive resolution counts above it give a positive angle and counts below it a negative one |
| InitPos.AgreesWithHwi | Open_Duck_Mini_Runtime/scripts/compute_init_pos.py:58 | for a positive or even resolution, the angle written equals what the Open Duck interface reads for that count |
| InitPos.CentersDifferOnNegativeOdd | Open_Duck_Mini_Runtime/scripts/compute_init_pos.py:39 | for every negative odd resolution the interface's `int(cpp / 2)` centre is one count above the script's `cpp // 2` |
| InitPos.CalibrationRoundTrip | Open_Duck_Mini_Runtime/scripts/compute_init_pos.py:58 | a calibrated angle sent back through `rad_to_servo_pos` commands the calibration count again |
| InitPos.Calibrated | Open_Duck_Mini_Runtime/scripts/compute_init_pos.py:48-56 | the joints that get updated are joint-map entries with a count |
| InitPos.Recalibrate | Open_Duck_Mini_Runtime/scripts/compute_init_pos.py:48-59 | the visit never removes an `init_pos` entry and adds entries only for joint-map names |
| InitPos.CalibratedMembers | Open_Duck_Mini_Runtime/scripts/compute_init_pos.py:50-56 | a joint is updated exactly when it is in the map and has a non-null count |
| InitPos.RecalibrateKeepsOthers | Open_Duck_Mini_Runtime/scripts/compute_init_pos.py:48-59 | `init_pos` entries for names not in the joint map are untouched, and absent ones stay absent |
| InitPos.RecalibrateJoint | Open_Duck_Mini_Runtime/scripts/compute_init_pos.py:48-59 | a joint with a count ends with `(c - center) * pi / (counts_per_pi / 2)`; one without keeps its previous entry, or its absence |
| InitPos.ExpectedShape | Open_Duck_Mini_Runtime/scripts/compute_init_pos.py:38-64 | only `init_pos` is replaced and it is always present afterwards; a zero resolution fails exactly when some joint has a count |
| InitPos.Expected | Open_Duck_Mini_Runtime/scripts/compute_init_pos.py:38-64 | the step is malformed exactly when the resolution, joint map or `init_pos` entry has the wrong kind; when it writes, it updates at most as many joints as the map has |
| InitPos.UpdateInitPos | Open_Duck_Mini_Runtime/scripts/compute_init_pos.py:38-62 | the loop produces `Expected`: the recalibrated `init_pos`, and `updated` equal to the number of calibrated joints |
| SetupTest.PositionToDegrees | STServo_Python/stservo-env/sms_sts/test_waveshare_setup.py:81-89 | both branches give pos x 180 / 1024 |
| SetupTest.DegreesProtocolIndependent | STServo_Python/stservo-env/sms_sts/test_waveshare_setup.py:81-89 | the protocol never changes the reading; 1024 reads 180 degrees and 2048 reads 360 |
| SetupTest.ScsclSpeed | STServo_Python/stservo-env/sms_sts/test_waveshare_setup.py:97-100 | the `scscl` speed is kept exactly when it is an int >= 1000, otherwise 1500 |
| SetupTest.WritePositionCall | STServo_Python/stservo-env/sms_sts/test_waveshare_setup.py:91-108 | `scscl` with `WritePos` sends time 0 and the substituted speed; otherwise `WritePosEx` with speed and acc unchanged; nothing when the handler has neither |
| SetupTest.WritePositionTarget | STServo_Python/stservo-env/sms_sts/test_waveshare_setup.py:91-108 | every call addresses the requested servo and position |
| SetupTest.Limits | STServo_Python/stservo-env/sms_sts/test_waveshare_setup.py:241-250 | the limits are known exactly when both register reads succeeded |
| SetupTest.ClampToLimits | STServo_Python/stservo-env/sms_sts/test_waveshare_setup.py:254-261 | unknown limits leave the request alone; ordered limits clamp it into [min, max] and keep it when already inside; crossed limits give max |
| SetupTest.TimingSpeed | STServo_Python/stservo-env/sms_sts/test_waveshare_setup.py:268 | the timing speed is positive |
| SetupTest.MoveTime | STServo_Python/stservo-env/sms_sts/test_waveshare_setup.py:265-271 | the `time` parameter is the raw estimate itself: the `< 100` guard never changes it |
| SetupTest.MoveTimeAtLeast100 | STServo_Python/stservo-env/sms_sts/test_waveshare_setup.py:269-271 | the estimated move time is at least 100 ms, so the `< 100` guard never fires |
| SetupTest.MoveTimeExample | STServo_Python/stservo-env/sms_sts/test_waveshare_setup.py:265-271 | a 1000-count move at speed 500 is given 2100 ms |
| SetupTest.MoveSpeed | STServo_Python/stservo-env/sms_sts/test_waveshare_setup.py:272 | the `scscl` move speed is at least 1000 |
| SetupTest.Normalize | STServo_Python/stservo-env/sms_sts/test_waveshare_setup.py:277-283 | a tuple gives element 0 and, when it has one, element 1, otherwise no error; an int gives itself and no error; anything else gives neither |
| SetupTest.WriteFailedCases | STServo_Python/stservo-env/sms_sts/test_waveshare_setup.py:285-287 | the write fails exactly when a result is present and is not `COMM_SUCCESS` |
| SetupTest.FirstSuccess | STServo_Python/stservo-env/sms_sts/test_waveshare_setup.py:319-332 | a read-back position is the value of some successful attempt among the six |
| SetupTest.FirstSuccessMeaning | STServo_Python/stservo-env/sms_sts/test_waveshare_setup.py:319-332 | the read-back succeeds exactly when one of the six attempts does, and reports the first successful attempt's position |
| SetupTest.ReadBack | STServo_Python/stservo-env/sms_sts/test_waveshare_setup.py:319-332 | the retry loop returns `FirstSuccess` (see FirstSuccessMeaning) |
| SetupTest.VerdictAsWritten | STServo_Python/stservo-env/sms_sts/test_waveshare_setup.py:332-387 | a read-back is judged within 20 counts of the requested position; a failed fallback fails |
| SetupTest.Verdict | STServo_Python/stservo-env/sms_sts/test_waveshare_setup.py:337-387 | the corrected verdict is always reached, and a pass means the read-back position, or without one the successful fallback's position, is within 20 counts |
| SetupTest.VerdictReached | STServo_Python/stservo-env/sms_sts/test_waveshare_setup.py:337-387 | the corrected verdict is always reached and passes exactly when the position read is within 20 counts; it agrees with the code wherever the code returns a value |
| SetupTest.FallbackVerdictLost | STServo_Python/stservo-env/sms_sts/test_waveshare_setup.py:373-387 | a fallback read exactly on target makes the code return None, where the corrected verdict passes |
| SetupTest.MovementCall | STServo_Python/stservo-env/sms_sts/test_waveshare_setup.py:263-276 | the write addresses the servo under test at the clamped target; on `scscl` with `WritePos` it is a timed `WritePos` of at least 100 ms |
| SetupTest.Movement | STServo_Python/stservo-env/sms_sts/test_waveshare_setup.py:226-391 | at most one write and always a verdict (the rest in MovementShape) |
| SetupTest.MovementShape | STServo_Python/stservo-env/sms_sts/test_waveshare_setup.py:226-391 | at most one write, to the servo under test, inside ordered known limits; on `scscl` time >= 100 and speed >= 1000; a raised or failed write fails; a pass needs a position within 20 counts of the unclamped request |
| SetupTest.ScanKeys | STServo_Python/stservo-env/sms_sts/test_waveshare_setup.py:127-136 | after a scan an id is known exactly when it was known before or answered |
| SetupTest.Scan | STServo_Python/stservo-env/sms_sts/test_waveshare_setup.py:127-136 | discovery never forgets a detected servo and records only probed ids |
| SetupTest.ProbedIdKnown | STServo_Python/stservo-env/sms_sts/test_waveshare_setup.py:127-136 | an id in 0..253 is known after discovery exactly when it was known before or answers a position read |
| SetupTest.DiscoveryVerdict | STServo_Python/stservo-env/sms_sts/test_waveshare_setup.py:122-147 | every expected id is detected exactly when each was known before or answers; the probe range covers all 14 |
| SetupTest.WaveshareTest.constructor | STServo_Python/stservo-env/sms_sts/test_waveshare_setup.py:42-48 | no servo detected and no write made yet |
| SetupTest.WaveshareTest.Discovery | STServo_Python/stservo-env/sms_sts/test_waveshare_setup.py:116-147 | records every responding id with its position, counts them, and passes exactly when no expected id is missing |
| SetupTest.WaveshareTest.SingleMovement | STServo_Python/stservo-env/sms_sts/test_waveshare_setup.py:209-391 | runs discovery when the servo is unknown and fails when it stays unknown; otherwise logs `Movement`'s call and returns its verdict |
| SetupTest.Selected | STServo_Python/stservo-env/sms_sts/test_waveshare_setup.py:554-573 | one test runs just that test; `all` runs six |
| SetupTest.SelectedAllOnce | STServo_Python/stservo-env/sms_sts/test_waveshare_setup.py:554-573 | `all` runs every test exactly once |
| SetupTest.CountPartition | STServo_Python/stservo-env/sms_sts/test_waveshare_setup.py:583-585 | every result is a pass, a fail or a skip |
| SetupTest.Summarize | STServo_Python/stservo-env/sms_sts/test_waveshare_setup.py:583-599 | the three counts, whose sum is the number of results, and exit status 1 exactly when something failed |

## Left out

- The servo SDK (`PortHandler`, the packet handlers, `scs_tohost`) is not part of this model. Its reads are supplied replies and its writes are log entries.
- Port open/close, baud-rate setup and `close()` are not modelled. Neither is the `RuntimeError` raised when a handler or the port is missing, or `time.sleep`, or the `ReadMoving` polling loop with its wait estimate.
- Printing and the debug register reads after a position error are not modelled. They only print.
- `normalize_position` is treated as the identity: it calls into the SDK.
- Floating point is left out. Radians are exact reals. `np.around(..., 3)` is exact round-half-to-even on reals.
- The Open Duck `set_position_all` writes cannot raise in the model. In the source an exception from a write would escape the loop.
- `set_kp`, `read_voltage` and `read_temperature` of the duck interface are not modelled. They only print or pass a register value through.
- The default scan range of the Open Duck `scan_servos` is not modelled. The range is an argument.
- Keyword defaults are arguments the caller passes: the Open Duck `set_position_all` defaults are `OpenDuckHwi.DEFAULT_SPEED` (500) and `OpenDuckHwi.DEFAULT_ACC` (30), and the duck `get_present_velocities` default is `DuckHwi.DEFAULT_RAD_S` (true).
- `test_read_positions`, `test_read_speeds`, `test_all_movement` and `test_hwi_interface` enter only as the results the summary tallies.
- The older copy of the test script and the bench and configuration scripts are not part of this model.
- InitPos.UpdateInitPos: file discovery, the JSON load and dump, the backup copy and the key order of the written JSON are not modelled. A configuration entry of an unexpected kind is always `Malformed`, although Python might survive some of them.
- Joint maps are lists of (name, id) pairs. The dictionaries they stand for have distinct names; the model assumes this only where a lemma needs it (`DistinctNames`).
- SetupTest.Movement and SetupTest.WaveshareTest.SingleMovement use the corrected read-back verdict. The code as written returns None after a successful `ReadPosSpeed` fallback; see Findings.

## Findings

| source | as written | input that shows it | evidently intended | confidence | as-written member | corrected member |
|---|---|---|---|---|---|---|
| duck_files/mini_bdx_runtime/mini_bdx_runtime/waveshare_position_hwi.py:198-208 | `set_kps(self.low_torque_kps)` overwrites `self.kps`, so the "high KP" step `set_kps(self.kps)` applies the low gains again | a freshly built interface with an offset for every joint: after `turn_on`, `kps` is 2 for all 14 joints | the nominal gains (32) are restored after the home pose | not executed | DuckHwi.PowerUpGains | DuckHwi.PowerUpGainsRestored |
| STServo_Python/stservo-env/sms_sts/test_waveshare_setup.py:373-387 | after every read-back attempt failed and the `ReadPosSpeed` fallback succeeds, the method falls off the end and returns None (reported as SKIP) | fallback position 1024 for a requested position 1024 | the fallback position is judged against the 20-count tolerance like a read-back | not executed | SetupTest.FallbackVerdictLost | SetupTest.VerdictReached |
