/** The progress meter page (`HumanmeterComponent`): the encouragement for a
    percent, the effect that celebrates and announces progress, and the
    handlers that forward to the store.  Confetti, speech and sound are
    events in the result rather than side effects. */
module Meter {
  import opened Wrappers
  import Store

  const StartNow := "Start now"
  const GoodStart := "Good start keep going"
  const NiceWork := "Nice work may Allah bless you"
  const OnThePath := "Mashallah you are on the path of khayr"
  const AlmostThere := "Almost there stay patient"
  const Complete := "You are from the people of Jannah inshaAllah"

  /** The messages in the order of rising progress. */
  const Messages: seq<string> := [StartNow, GoodStart, NiceWork, OnThePath, AlmostThere, Complete]

  /** Which of the six bands a percent falls in; every integer has one. */
  function Band(p: int): (b: nat)
    ensures b < |Messages|
    ensures b == 0 <==> p == 0
    ensures b == 1 <==> p != 0 && p < 25
    ensures b == 2 <==> 25 <= p < 50
    ensures b == 3 <==> 50 <= p < 75
    ensures b == 4 <==> 75 <= p < 100
    ensures b == 5 <==> p >= 100
  {
    if p == 0 then 0
    else if p < 25 then 1
    else if p < 50 then 2
    else if p < 75 then 3
    else if p < 100 then 4
    else 5
  }

  /** `encouragement()`: the message for the band the percent falls in. */
  function Encouragement(p: int): (m: string)
    ensures m in Messages
    ensures p == 0 ==> m == StartNow
    ensures (p < 0 || 0 < p < 25) ==> m == GoodStart
    ensures 25 <= p < 50 ==> m == NiceWork
    ensures 50 <= p < 75 ==> m == OnThePath
    ensures 75 <= p < 100 ==> m == AlmostThere
    ensures p >= 100 ==> m == Complete
  {
    Messages[Band(p)]
  }

  lemma MessagesDistinct()
    ensures forall i, j | 0 <= i < j < |Messages| :: Messages[i] != Messages[j]
  {
    var lens := seq(|Messages|, i requires 0 <= i < |Messages| => |Messages[i]|);
    assert lens == [9, 21, 29, 38, 25, 44];
  }

  /** Over the percents the store can produce, more progress never gives an
      earlier message, and each message belongs to exactly one band. */
  lemma EncouragementMonotone(p: int, q: int)
    requires 0 <= p <= q <= 100
    ensures Band(p) <= Band(q)
    ensures forall i, j | 0 <= i < |Messages| && 0 <= j < |Messages| ::
      Messages[i] == Encouragement(p) && Messages[j] == Encouragement(q) ==> i <= j
    ensures Encouragement(p) == Encouragement(q) <==> Band(p) == Band(q)
  {
    MessagesDistinct();
  }

  // ------------------------------------------------------------ the effect

  /** What one run of the effect did: whether it fired confetti, what it
      announced, and the remembered percent afterwards. */
  datatype Run = Run(burst: bool, announced: Option<int>, lastPct: int)

  const Unseen := -1

  /** One run of the constructor's effect on percent `p`, with `lastPct` the
      value remembered from the run before. */
  function Effect(lastPct: int, p: int): (r: Run)
    ensures r.burst <==> p == 100 && lastPct != 100
    ensures r.announced.Some? <==> p != lastPct
    ensures r.announced.Some? ==> r.announced.value == p
    ensures r.lastPct == p
  {
    Run(p == 100 && lastPct != 100, if p != lastPct then Some(p) else None, p)
  }

  /** The runs for a sequence of percents observed one after another,
      starting from the remembered `last`. */
  function Runs(last: int, ps: seq<int>): (rs: seq<Run>)
    ensures |rs| == |ps|
    ensures |ps| > 0 ==> rs[0] == Effect(last, ps[0])
    ensures forall i | 0 < i < |ps| :: rs[i] == Effect(ps[i - 1], ps[i])
    decreases |ps|
  {
    if |ps| == 0 then []
    else
      var rest := Runs(ps[0], ps[1..]);
      assert forall i | 1 < i < |ps| :: rest[i - 1] == Effect(ps[i - 1], ps[i]) by {
        forall i | 1 < i < |ps|
          ensures rest[i - 1] == Effect(ps[i - 1], ps[i])
        {
          assert ps[1..][i - 2] == ps[i - 1] && ps[1..][i - 1] == ps[i];
        }
      }
      [Effect(last, ps[0])] + rest
  }

  /** The percent seen before position `i`; the component starts from -1. */
  function Previous(ps: seq<int>, i: nat): int
    requires i < |ps|
  {
    if i == 0 then Unseen else ps[i - 1]
  }

  /** What a run on `p` after `prev` must do: confetti exactly when `p`
      steps into 100, an announcement of `p` exactly when it changed, and
      `p` remembered afterwards. */
  predicate Reacts(r: Run, prev: int, p: int) {
    && (r.burst <==> p == 100 && prev != 100)
    && (r.announced.Some? <==> p != prev)
    && (r.announced.Some? ==> r.announced.value == p)
    && r.lastPct == p
  }

  lemma {:induction false} RunsFrom(last: int, ps: seq<int>)
    ensures forall i | 0 <= i < |ps| ::
      Reacts(Runs(last, ps)[i], if i == 0 then last else ps[i - 1], ps[i])
    decreases |ps|
  {
    if |ps| > 0 {
      RunsFrom(ps[0], ps[1..]);
      var rs := Runs(last, ps);
      forall i | 0 <= i < |ps|
        ensures Reacts(rs[i], if i == 0 then last else ps[i - 1], ps[i])
      {
        if i > 0 {
          assert rs[i] == Runs(ps[0], ps[1..])[i - 1];
          assert ps[1..][i - 1] == ps[i];
          assert (if i - 1 == 0 then ps[0] else ps[1..][i - 2]) == ps[i - 1];
        }
      }
    }
  }

  /** From a fresh component: confetti exactly on each step into 100, an
      announcement exactly on each change (so always on the first run of a
      real percent), and the remembered value is always the latest percent. */
  lemma RunsFromStart(ps: seq<int>)
    ensures forall i | 0 <= i < |ps| :: Reacts(Runs(Unseen, ps)[i], Previous(ps, i), ps[i])
    ensures |ps| > 0 && ps[0] >= 0 ==> Runs(Unseen, ps)[0].announced == Some(ps[0])
  {
    RunsFrom(Unseen, ps);
    forall i | 0 <= i < |ps|
      ensures Reacts(Runs(Unseen, ps)[i], Previous(ps, i), ps[i])
    {
    }
  }

  /** Staying at 100 never fires the confetti again. */
  lemma StayingFullNoBurst(ps: seq<int>, i: nat)
    requires 0 < i < |ps| && ps[i - 1] == 100 && ps[i] == 100
    ensures !Runs(Unseen, ps)[i].burst && Runs(Unseen, ps)[i].announced.None?
  {
    RunsFromStart(ps);
  }

  // ------------------------------------------------------------ the handlers

  /** `beep(intensity)` plays a sound only for a non-zero intensity. */
  predicate Beeps(intensity: int) {
    intensity != 0
  }

  /** `toggle(id)`: toggle the deed, then beep unless the mute preference is on. */
  function Toggle(s: Store.Store, id: string): (r: (Store.Store, int))
    ensures r.0 == Store.Toggle(s, id)
    ensures !Beeps(r.1) <==> s.prefs.mute == Some(true)
  {
    var t := Store.Toggle(s, id);
    (t, if t.prefs.mute == Some(true) then 0 else 1)
  }

  /** `setMute(val)`: only the mute preference changes. */
  function SetMute(s: Store.Store, val: bool): (r: Store.Store)
    ensures r.prefs.mute == Some(val)
    ensures r.prefs.nickname == s.prefs.nickname && r.prefs.colorBlind == s.prefs.colorBlind
    ensures r.deeds == s.deeds && r.percent == s.percent && r.history == s.history
  {
    Store.SetPref(s, Store.Prefs(None, Some(val), None))
  }

  /** `setColorBlind(val)`: only the colour-blind preference changes. */
  function SetColorBlind(s: Store.Store, val: bool): (r: Store.Store)
    ensures r.prefs.colorBlind == Some(val)
    ensures r.prefs.nickname == s.prefs.nickname && r.prefs.mute == s.prefs.mute
    ensures r.deeds == s.deeds && r.percent == s.percent && r.history == s.history
  {
    Store.SetPref(s, Store.Prefs(None, None, Some(val)))
  }

  /** `reset()`: a reset that records the day in the history. */
  function Reset(s: Store.Store, isoNow: string): (r: Store.Store)
    ensures r == Store.ResetDay(s, true, isoNow)
    ensures Store.Fresh(s) ==> r.history[0].percent == s.percent && r.percent == 0
  {
    Store.ResetDay(s, true, isoNow)
  }

  /** Muting silences the next toggle, and unmuting makes it beep again. */
  lemma MuteSilencesToggle(s: Store.Store, val: bool, id: string)
    ensures Beeps(Toggle(SetMute(s, val), id).1) <==> !val
  {
  }
}
