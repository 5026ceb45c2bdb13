/** The simulated sensor service (`SensorsService`): six sensors, each with a
    configuration, a latest reading and, while enabled, a sampling timer;
    plus an activity log.  A timer is its sampling interval in milliseconds,
    the clock strings and timestamps are parameters, and the random jitter
    of a reading is the number `u` that `Math.random()` returned. */
module Sensors {
  import opened Wrappers
  import opened Text
  import opened Rounding

  /** `SensorKey`, in the order the configuration record lists them. */
  datatype SensorKey = Accel | Gyro | Mag | Press | Humid | Temp

  const AllKeys: seq<SensorKey> := [Accel, Gyro, Mag, Press, Humid, Temp]

  lemma AllKeysComplete(k: SensorKey)
    ensures k in AllKeys
  {
  }

  /** `SensorConfig`; the output data rate is in tenths of a hertz. */
  datatype Config = Config(enabled: bool, address: string, odrTenths: int, fs: int)

  /** `Partial<SensorConfig>`: None for a key the patch does not carry. */
  datatype Patch = Patch(enabled: Option<bool>, address: Option<string>, odrTenths: Option<int>, fs: Option<int>)

  datatype Reading = Reading(value: real, unit: string, timestamp: int)

  datatype Msg =
    | Configured(key: SensorKey, config: Config)
    | Started(key: SensorKey, odrTenths: int)
    | Stopped(key: SensorKey)
    | EnabledAll
    | DisabledAll

  /** A log line: the local time it was written and its message. */
  datatype Entry = Entry(time: string, msg: Msg)

  datatype Sensors = Sensors(
    configs: map<SensorKey, Config>,
    readings: map<SensorKey, Reading>,
    timers: map<SensorKey, int>,
    logs: seq<Entry>)

  const LogCap := 200

  // ------------------------------------------------------------ fixed tables

  function Unit(k: SensorKey): string {
    match k
    case Accel => "m/s\U{00B2}"
    case Gyro => "\U{00B0}/s"
    case Mag => "\U{00B5}T"
    case Press => "hPa"
    case Humid => "%"
    case Temp => "\U{00B0}C"
  }

  /** The range `[lo, hi)` a simulated reading is drawn from. */
  function Low(k: SensorKey): real {
    match k
    case Accel => 0.0
    case Gyro => 0.0
    case Mag => 10.0
    case Press => 980.0
    case Humid => 20.0
    case Temp => 18.0
  }

  function High(k: SensorKey): real {
    match k
    case Accel => 9.8
    case Gyro => 360.0
    case Mag => 60.0
    case Press => 1030.0
    case Humid => 70.0
    case Temp => 28.0
  }

  predicate Complete(s: Sensors) {
    forall k: SensorKey :: k in s.configs && k in s.readings
  }

  /** A timer runs exactly for the enabled sensors. */
  predicate Running(s: Sensors) {
    forall k: SensorKey :: k in s.configs ==> (k in s.timers <==> s.configs[k].enabled)
  }

  /** The service as constructed at time `nowMs`: everything disabled, no
      timers, an empty log. */
  function Initial(nowMs: int): (r: Sensors)
    ensures Complete(r) && Running(r) && r.timers == map[] && r.logs == []
    ensures forall k: SensorKey :: !r.configs[k].enabled && r.readings[k].unit == Unit(k)
  {
    var r := Sensors(
      map[Accel := Config(false, "0x6A", 125, 2), Gyro := Config(false, "0x6A", 125, 245),
          Mag := Config(false, "0x1E", 100, 50), Press := Config(false, "0x5C", 10, 1260),
          Humid := Config(false, "0x5F", 10, 100), Temp := Config(false, "0x5F", 10, 120)],
      map[Accel := Reading(0.0, Unit(Accel), nowMs), Gyro := Reading(0.0, Unit(Gyro), nowMs),
          Mag := Reading(0.0, Unit(Mag), nowMs), Press := Reading(1013.25, Unit(Press), nowMs),
          Humid := Reading(45.0, Unit(Humid), nowMs), Temp := Reading(22.0, Unit(Temp), nowMs)],
      map[], []);
    assert forall k: SensorKey :: k in r.configs && k in r.readings by {
      forall k: SensorKey
        ensures k in r.configs && k in r.readings
      {
        AllKeysComplete(k);
      }
    }
    r
  }

  // ------------------------------------------------------------ the log

  /** `log(msg)`: the new line goes in front and the log keeps the newest
      200 lines. */
  function Log(s: Sensors, clock: string, m: Msg): (r: Sensors)
    ensures 1 <= |r.logs| <= LogCap
    ensures r.logs[0] == Entry(clock, m)
    ensures r.logs[1..] == if |s.logs| < LogCap then s.logs else s.logs[..LogCap - 1]
    ensures Pushed(s.logs, r.logs, 1)
    ensures r.configs == s.configs && r.readings == s.readings && r.timers == s.timers
  {
    s.(logs := Take([Entry(clock, m)] + s.logs, LogCap))
  }

  /** `after` is the log `before` once `n` more lines were written: as many
      lines as fit under the cap, and below the `n` new ones the older lines
      in their order, the oldest dropped first. */
  predicate Pushed(before: seq<Entry>, after: seq<Entry>, n: nat) {
    && |after| == (if |before| + n < LogCap then |before| + n else LogCap)
    && forall i | n <= i < |after| :: after[i] == before[i - n]
  }

  /** Writing `n` lines and then `m` more writes `n + m` lines. */
  lemma {:induction false} PushedTrans(a: seq<Entry>, b: seq<Entry>, c: seq<Entry>, n: nat, m: nat, k: nat)
    requires Pushed(a, b, n) && Pushed(b, c, m) && k == n + m
    ensures Pushed(a, c, k)
  {
    forall i | k <= i < |c|
      ensures c[i] == a[i - k]
    {
      assert c[i] == b[i - m];
    }
  }

  /** Below the `n` newest lines sits the old log cut to what still fits. */
  lemma {:induction false} PushedTail(before: seq<Entry>, after: seq<Entry>, n: nat)
    requires Pushed(before, after, n) && n <= LogCap
    ensures n <= |after| <= LogCap
    ensures after[n..] == Take(before, LogCap - n)
  {
    var tail := Take(before, LogCap - n);
    assert |after[n..]| == |tail|;
    forall i | 0 <= i < |tail|
      ensures after[n..][i] == tail[i]
    {
      assert after[n + i] == before[i];
    }
  }

  // ------------------------------------------------------------ the interval

  /** The rate used for the period: at least 1 Hz, in tenths. */
  function EffectiveOdr(odrTenths: int): (r: int)
    ensures r >= 10 && (odrTenths >= 10 ==> r == odrTenths)
  {
    if odrTenths < 10 then 10 else odrTenths
  }

  /** The sampling period of `start`: `1000 / odr` milliseconds rounded,
      kept within [50, 1000]. */
  function IntervalMs(odrTenths: int): (r: int)
    ensures 50 <= r <= 1000
    ensures odrTenths <= 10 ==> r == 1000
    ensures odrTenths >= 200 ==> r == 50
    ensures 10 <= odrTenths <= 200 ==>
      2 * odrTenths * r <= 20000 + odrTenths < 2 * odrTenths * (r + 1)
  {
    var odr := EffectiveOdr(odrTenths);
    RoundedPeriod(odr);
    var q := RoundDiv(10000, odr);
    if q < 50 then 50 else if q > 1000 then 1000 else q
  }

  /** Where `1000 / odr` rounds to for the rates `start` can see. */
  lemma RoundedPeriod(odr: int)
    requires odr >= 10
    ensures 0 <= RoundDiv(10000, odr) <= 1000
    ensures odr == 10 ==> RoundDiv(10000, odr) == 1000
    ensures odr >= 200 ==> RoundDiv(10000, odr) <= 50
    ensures odr <= 200 ==> RoundDiv(10000, odr) >= 50
  {
    RoundDivBounds(10000, odr, 1000);
    RoundDivUnique(10000, 10, 1000);
    RoundDivUnique(10000, 200, 50);
    if odr >= 200 {
      RoundDivAntitone(10000, 200, odr);
    } else {
      RoundDivAntitone(10000, odr, 200);
    }
  }

  /** Because the rate is raised to at least 1 Hz first, the 1000 ms upper
      clamp never changes the result. */
  lemma UpperClampIdle(odrTenths: int)
    ensures RoundDiv(10000, EffectiveOdr(odrTenths)) <= 1000
  {
    RoundDivBounds(10000, EffectiveOdr(odrTenths), 1000);
  }

  /** A faster sensor never samples more slowly. */
  lemma IntervalAntitone(a: int, b: int)
    requires a <= b
    ensures IntervalMs(b) <= IntervalMs(a)
  {
    RoundDivAntitone(10000, EffectiveOdr(a), EffectiveOdr(b));
  }

  // ------------------------------------------------------------ timers

  /** `stop(key)`: drop the key's timer if there is one, and log it either way. */
  function Stop(s: Sensors, key: SensorKey, clock: string): (r: Sensors)
    ensures key !in r.timers && r.timers == s.timers - {key}
    ensures 1 <= |r.logs| <= LogCap && r.logs[0] == Entry(clock, Stopped(key))
    ensures Pushed(s.logs, r.logs, 1) && r.logs[1..] == Take(s.logs, LogCap - 1)
    ensures r.configs == s.configs && r.readings == s.readings
  {
    var r := Log(s.(timers := s.timers - {key}), clock, Stopped(key));
    PushedTail(s.logs, r.logs, 1);
    r
  }

  /** `start(key)`: stop first, then register one timer whose period comes
      from the configuration as it stands now; any earlier timer of the key
      is replaced, not kept alongside. */
  function Start(s: Sensors, key: SensorKey, clock: string): (r: Sensors)
    requires key in s.configs
    ensures r.timers == s.timers[key := IntervalMs(s.configs[key].odrTenths)]
    ensures 2 <= |r.logs| <= LogCap
    ensures r.logs[0] == Entry(clock, Started(key, EffectiveOdr(s.configs[key].odrTenths)))
    ensures r.logs[1] == Entry(clock, Stopped(key))
    ensures Pushed(s.logs, r.logs, 2) && r.logs[2..] == Take(s.logs, LogCap - 2)
    ensures r.configs == s.configs && r.readings == s.readings
  {
    var stopped := Stop(s, key, clock);
    var odr := EffectiveOdr(stopped.configs[key].odrTenths);
    var r := Log(stopped.(timers := stopped.timers[key := IntervalMs(odr)]), clock, Started(key, odr));
    assert r.logs[1] == stopped.logs[0];
    PushedTrans(s.logs, stopped.logs, r.logs, 1, 1, 2);
    PushedTail(s.logs, r.logs, 2);
    assert r.timers == s.timers[key := IntervalMs(s.configs[key].odrTenths)];
    r
  }

  /** The timer half of `setConfig`: start or stop when the patch carries
      `enabled`, otherwise leave the timers alone. */
  function Switch(s: Sensors, key: SensorKey, enabled: Option<bool>, clock: string): (r: Sensors)
    requires key in s.configs
    ensures r.configs == s.configs && r.readings == s.readings
    ensures enabled.None? ==> r.timers == s.timers
    ensures enabled == Some(true) ==> r.timers == s.timers[key := IntervalMs(s.configs[key].odrTenths)]
    ensures enabled == Some(false) ==> r.timers == s.timers - {key}
    ensures enabled.None? ==> r.logs == s.logs
    ensures enabled.Some? ==> Pushed(s.logs, r.logs, SwitchLines(enabled))
    ensures enabled == Some(true) ==>
      && r.logs[0] == Entry(clock, Started(key, EffectiveOdr(s.configs[key].odrTenths)))
      && r.logs[1] == Entry(clock, Stopped(key))
    ensures enabled == Some(false) ==> r.logs[0] == Entry(clock, Stopped(key))
  {
    match enabled
    case None => s
    case Some(on) => if on then Start(s, key, clock) else Stop(s, key, clock)
  }

  /** How many log lines the timer half of `setConfig` writes. */
  function SwitchLines(enabled: Option<bool>): nat {
    match enabled
    case None => 0
    case Some(on) => if on then 2 else 1
  }

  // ------------------------------------------------------------ configuration

  /** The configuration spread with the patch over it: each field the patch
      carries replaces the configuration's, the others stay. */
  function Apply(c: Config, p: Patch): (r: Config)
    ensures r.enabled == p.enabled.ValueOr(c.enabled)
    ensures r.address == p.address.ValueOr(c.address)
    ensures r.odrTenths == p.odrTenths.ValueOr(c.odrTenths)
    ensures r.fs == p.fs.ValueOr(c.fs)
  {
    Config(p.enabled.ValueOr(c.enabled), p.address.ValueOr(c.address),
           p.odrTenths.ValueOr(c.odrTenths), p.fs.ValueOr(c.fs))
  }

  /** The patch that carries no field. */
  const NoPatch := Patch(None, None, None, None)

  /** The patch that carries every field of `c`. */
  function Whole(c: Config): Patch {
    Patch(Some(c.enabled), Some(c.address), Some(c.odrTenths), Some(c.fs))
  }

  /** One patch doing the work of `p` followed by `q`: `q`'s fields win. */
  function Combine(p: Patch, q: Patch): Patch {
    Patch(if q.enabled.Some? then q.enabled else p.enabled,
          if q.address.Some? then q.address else p.address,
          if q.odrTenths.Some? then q.odrTenths else p.odrTenths,
          if q.fs.Some? then q.fs else p.fs)
  }

  /** Patching laws: the empty patch changes nothing, a patch applied twice
      acts once, two patches in a row act as their combination, and a patch
      carrying every field replaces the configuration outright. */
  lemma ApplyLaws(c: Config, d: Config, p: Patch, q: Patch)
    ensures Apply(c, NoPatch) == c
    ensures Apply(Apply(c, p), p) == Apply(c, p)
    ensures Apply(Apply(c, p), q) == Apply(c, Combine(p, q))
    ensures Apply(c, Whole(d)) == d
    ensures Apply(c, p) == c <==> Combine(Whole(c), p) == Whole(c)
  {
  }

  /** `setConfig(key, patch)`: the key's configuration becomes the patched
      one and no other configuration changes; the timers change only when
      the patch carries `enabled`, and then follow it; the new configuration
      is logged last. */
  function SetConfig(s: Sensors, key: SensorKey, patch: Patch, clock: string): (r: Sensors)
    requires key in s.configs
    ensures r.configs == s.configs[key := Apply(s.configs[key], patch)] && r.readings == s.readings
    ensures patch.enabled.None? ==> r.timers == s.timers
    ensures patch.enabled == Some(true) ==>
      r.timers == s.timers[key := IntervalMs(Apply(s.configs[key], patch).odrTenths)]
    ensures patch.enabled == Some(false) ==> r.timers == s.timers - {key}
    ensures 1 <= |r.logs| <= LogCap
    ensures r.logs[0] == Entry(clock, Configured(key, Apply(s.configs[key], patch)))
    ensures var n := 1 + SwitchLines(patch.enabled);
      n <= |r.logs| && Pushed(s.logs, r.logs, n) && r.logs[n..] == Take(s.logs, LogCap - n)
  {
    var next := Apply(s.configs[key], patch);
    var switched := Switch(s.(configs := s.configs[key := next]), key, patch.enabled, clock);
    var r := Log(switched, clock, Configured(key, next));
    if patch.enabled.Some? then
      PushedTrans(s.logs, switched.logs, r.logs, SwitchLines(patch.enabled), 1, 1 + SwitchLines(patch.enabled));
      PushedTail(s.logs, r.logs, 1 + SwitchLines(patch.enabled));
      r
    else
      PushedTail(s.logs, r.logs, 1);
      r
  }

  /** The lines `setConfig` writes, newest first: the new configuration,
      then the start line and the stop line `start` wrote, or the stop line
      alone. */
  lemma SetConfigLogLines(s: Sensors, key: SensorKey, patch: Patch, clock: string)
    requires key in s.configs
    ensures var r := SetConfig(s, key, patch, clock);
      && r.logs[0] == Entry(clock, Configured(key, Apply(s.configs[key], patch)))
      && (patch.enabled == Some(true) ==>
            && r.logs[1] == Entry(clock, Started(key, EffectiveOdr(Apply(s.configs[key], patch).odrTenths)))
            && r.logs[2] == Entry(clock, Stopped(key)))
      && (patch.enabled == Some(false) ==> r.logs[1] == Entry(clock, Stopped(key)))
  {
  }

  /** Setting a configuration keeps timers and `enabled` flags in step. */
  lemma SetConfigKeepsRunning(s: Sensors, key: SensorKey, patch: Patch, clock: string)
    requires key in s.configs && Running(s)
    ensures Running(SetConfig(s, key, patch, clock))
  {
  }

  /** The timer of a running sensor keeps its old period when a patch
      changes only the rate: the new rate takes effect at the next start. */
  lemma RatePatchKeepsPeriod(s: Sensors, key: SensorKey, odrTenths: int, clock: string)
    requires key in s.configs && key in s.timers
    ensures var r := SetConfig(s, key, Patch(None, None, Some(odrTenths), None), clock);
      r.configs[key].odrTenths == odrTenths && r.timers[key] == s.timers[key]
  {
  }

  function EnablePatch(on: bool): Patch {
    Patch(Some(on), None, None, None)
  }

  lemma ApplyEnable(c: Config, on: bool)
    ensures Apply(c, EnablePatch(on)) == c.(enabled := on)
  {
  }

  /** `setConfig` with a patch carrying only `enabled := on`, for each key of
      `ks` in turn. */
  function SwitchEach(s: Sensors, ks: seq<SensorKey>, on: bool, clock: string): (r: Sensors)
    requires forall i | 0 <= i < |ks| :: ks[i] in s.configs
    ensures r.configs.Keys == s.configs.Keys && r.readings == s.readings
    ensures |ks| > 0 ==> |r.logs| >= 1 && r.logs[0].msg.Configured?
    ensures |ks| == 0 ==> r.logs == s.logs
    decreases |ks|
  {
    if |ks| == 0 then s
    else
      var next := SetConfig(s, ks[0], EnablePatch(on), clock);
      SwitchEach(next, ks[1..], on, clock)
  }

  lemma SetConfigPushed(s: Sensors, key: SensorKey, on: bool, clock: string)
    requires key in s.configs
    ensures Pushed(s.logs, SetConfig(s, key, EnablePatch(on), clock).logs, if on then 3 else 2)
  {
    assert 1 + SwitchLines(EnablePatch(on).enabled) == if on then 3 else 2;
  }

  /** One key switched, seen from key `k`. */
  lemma SetConfigEnable(s: Sensors, key: SensorKey, on: bool, clock: string, k: SensorKey)
    requires key in s.configs
    ensures var next := SetConfig(s, key, EnablePatch(on), clock);
      && (k in next.configs <==> k in s.configs)
      && (k == key ==> next.configs[k] == s.configs[k].(enabled := on))
      && (k == key ==> (k in next.timers) == on)
      && (k == key && on ==> next.timers[k] == IntervalMs(s.configs[k].odrTenths))
      && (k != key && k in s.configs ==> next.configs[k] == s.configs[k])
      && (k != key ==> (k in next.timers <==> k in s.timers))
      && (k != key && k in s.timers ==> next.timers[k] == s.timers[k])
  {
    ApplyEnable(s.configs[key], on);
  }

  /** Each key switched writes its configuration line plus one line when
      stopped or two when restarted, on top of the older log. */
  lemma {:induction false} SwitchEachLogged(s: Sensors, ks: seq<SensorKey>, on: bool, clock: string)
    requires forall i | 0 <= i < |ks| :: ks[i] in s.configs
    requires |ks| > 0
    ensures Pushed(s.logs, SwitchEach(s, ks, on, clock).logs, if on then 3 * |ks| else 2 * |ks|)
    decreases |ks|
  {
    var next := SetConfig(s, ks[0], EnablePatch(on), clock);
    var r := SwitchEach(next, ks[1..], on, clock);
    assert SwitchEach(s, ks, on, clock).logs == r.logs;
    SetConfigPushed(s, ks[0], on, clock);
    if |ks| > 1 {
      SwitchEachLogged(next, ks[1..], on, clock);
      var per := if on then 3 else 2;
      var rest := if on then 3 * |ks[1..]| else 2 * |ks[1..]|;
      PushedTrans(s.logs, next.logs, r.logs, per, rest, if on then 3 * |ks| else 2 * |ks|);
    }
  }

  /** After switching the keys of `ks`, each of them has `enabled == on`
      and a timer exactly when `on`, at the period its rate gives. */
  lemma {:induction false} SwitchEachSwitched(s: Sensors, ks: seq<SensorKey>, on: bool, clock: string, k: SensorKey)
    requires forall i | 0 <= i < |ks| :: ks[i] in s.configs
    requires k in ks
    ensures var r := SwitchEach(s, ks, on, clock);
      && r.configs[k] == s.configs[k].(enabled := on)
      && (k in r.timers) == on
      && (on ==> r.timers[k] == IntervalMs(s.configs[k].odrTenths))
    decreases |ks|
  {
    var next := SetConfig(s, ks[0], EnablePatch(on), clock);
    var r := SwitchEach(next, ks[1..], on, clock);
    assert SwitchEach(s, ks, on, clock) == r;
    SetConfigEnable(s, ks[0], on, clock, k);
    assert k in s.configs && k in next.configs;
    assert next.configs[k].(enabled := on) == s.configs[k].(enabled := on);
    assert next.configs[k].odrTenths == s.configs[k].odrTenths;
    if k in ks[1..] {
      SwitchEachSwitched(next, ks[1..], on, clock, k);
    } else {
      assert k == ks[0];
      SwitchEachUntouched(next, ks[1..], on, clock, k);
    }
  }

  /** Switching the keys of `ks` leaves every other sensor's configuration
      and timer as it was. */
  lemma {:induction false} SwitchEachUntouched(s: Sensors, ks: seq<SensorKey>, on: bool, clock: string, k: SensorKey)
    requires forall i | 0 <= i < |ks| :: ks[i] in s.configs
    requires k !in ks
    ensures var r := SwitchEach(s, ks, on, clock);
      && (k in s.configs ==> r.configs[k] == s.configs[k])
      && (k in r.timers <==> k in s.timers)
      && (k in s.timers ==> r.timers[k] == s.timers[k])
    decreases |ks|
  {
    if |ks| > 0 {
      var next := SetConfig(s, ks[0], EnablePatch(on), clock);
      assert SwitchEach(s, ks, on, clock) == SwitchEach(next, ks[1..], on, clock);
      assert k != ks[0];
      SetConfigEnable(s, ks[0], on, clock, k);
      SwitchEachUntouched(next, ks[1..], on, clock, k);
    }
  }

  /** `enableAll()`: every sensor enabled and sampling at its configured
      rate, the rest of each configuration kept. */
  function EnableAll(s: Sensors, clock: string): (r: Sensors)
    requires Complete(s)
    ensures Complete(r) && Running(r) && r.readings == s.readings
    ensures forall k: SensorKey :: r.configs[k] == s.configs[k].(enabled := true)
    ensures forall k: SensorKey :: k in r.timers && r.timers[k] == IntervalMs(s.configs[k].odrTenths)
    ensures 1 <= |r.logs| <= LogCap && r.logs[0] == Entry(clock, EnabledAll)
    ensures Pushed(s.logs, r.logs, 19) && r.logs[19..] == Take(s.logs, LogCap - 19)
  {
    var each := SwitchEach(s, AllKeys, true, clock);
    forall k: SensorKey
      ensures each.configs[k] == s.configs[k].(enabled := true)
      ensures k in each.timers && each.timers[k] == IntervalMs(s.configs[k].odrTenths)
    {
      AllKeysComplete(k);
      SwitchEachSwitched(s, AllKeys, true, clock, k);
    }
    SwitchEachLogged(s, AllKeys, true, clock);
    var r := Log(each, clock, EnabledAll);
    PushedTrans(s.logs, each.logs, r.logs, 18, 1, 19);
    PushedTail(s.logs, r.logs, 19);
    r
  }

  /** `disableAll()`: every sensor disabled and no timer left. */
  function DisableAll(s: Sensors, clock: string): (r: Sensors)
    requires Complete(s)
    ensures Complete(r) && Running(r) && r.readings == s.readings
    ensures forall k: SensorKey :: r.configs[k] == s.configs[k].(enabled := false)
    ensures forall k: SensorKey :: k !in r.timers
    ensures 1 <= |r.logs| <= LogCap && r.logs[0] == Entry(clock, DisabledAll)
    ensures Pushed(s.logs, r.logs, 13) && r.logs[13..] == Take(s.logs, LogCap - 13)
  {
    var each := SwitchEach(s, AllKeys, false, clock);
    forall k: SensorKey
      ensures each.configs[k] == s.configs[k].(enabled := false) && k !in each.timers
    {
      AllKeysComplete(k);
      SwitchEachSwitched(s, AllKeys, false, clock, k);
    }
    SwitchEachLogged(s, AllKeys, false, clock);
    var r := Log(each, clock, DisabledAll);
    PushedTrans(s.logs, each.logs, r.logs, 12, 1, 13);
    PushedTail(s.logs, r.logs, 13);
    r
  }

  // ------------------------------------------------------------ readings

  /** `tick(key)` at time `nowMs`, with `u` the value `Math.random()`
      returned: only the key's reading changes, to a value in the key's
      range with the key's unit. */
  function Tick(s: Sensors, key: SensorKey, u: real, nowMs: int): (r: Sensors)
    requires 0.0 <= u < 1.0
    ensures key in r.readings && r.readings[key].unit == Unit(key) && r.readings[key].timestamp == nowMs
    ensures Low(key) <= r.readings[key].value < High(key)
    ensures forall k | k != key :: (k in r.readings <==> k in s.readings) && (k in s.readings ==> r.readings[k] == s.readings[k])
    ensures r.configs == s.configs && r.timers == s.timers && r.logs == s.logs
  {
    var lo, hi := Low(key), High(key);
    s.(readings := s.readings[key := Reading(lo + u * (hi - lo), Unit(key), nowMs)])
  }
}
