/** The deed checklist store (`StoreService`): the day's deeds, the derived
    percent, the preferences and a short history of earlier days.  Storage
    is abstracted: what `load` finds is passed in, already parsed. */
module Store {
  import opened Wrappers
  import opened Rounding

  /** A deed of the checklist; `caption` is the record's `label` field, a
      word Dafny reserves. */
  datatype Deed = Deed(id: string, caption: string, points: int, done: bool)

  datatype HistoryEntry = HistoryEntry(date: string, percent: int)

  /** `Partial<Prefs>`: a field is None when the key is absent. */
  datatype Prefs = Prefs(nickname: Option<string>, mute: Option<bool>, colorBlind: Option<bool>)

  datatype Store = Store(deeds: seq<Deed>, percent: int, prefs: Prefs, history: seq<HistoryEntry>)

  /** `totalPoints`, used when the deeds' points sum to zero. */
  const FallbackTotal := 100
  const HistoryCap := 7
  const NoPrefs := Prefs(None, None, None)

  // ------------------------------------------------------------ the percent

  function TotalPoints(ds: seq<Deed>): int {
    if |ds| == 0 then 0 else ds[0].points + TotalPoints(ds[1..])
  }

  function DonePoints(ds: seq<Deed>): int {
    if |ds| == 0 then 0 else (if ds[0].done then ds[0].points else 0) + DonePoints(ds[1..])
  }

  function Clamp(x: int): int {
    if x < 0 then 0 else if x > 100 then 100 else x
  }

  /** `computePercent()`: the done points as a share of the total, rounded
      and clamped into [0, 100]; a zero total counts as 100 points.  With a
      negative total the share is the quotient of the negated sums. */
  function ComputePercent(ds: seq<Deed>): (r: int)
    ensures 0 <= r <= 100
    ensures TotalPoints(ds) == 0 ==> r == Clamp(DonePoints(ds))
    ensures TotalPoints(ds) != 0 ==>
      var t := if TotalPoints(ds) > 0 then TotalPoints(ds) else -TotalPoints(ds);
      var d := if TotalPoints(ds) > 0 then DonePoints(ds) else -DonePoints(ds);
      && (d <= 0 ==> r == 0)
      && (d >= t ==> r == 100)
      && (0 <= d <= t ==> 2 * t * r <= 200 * d + t < 2 * t * (r + 1))
  {
    var total, done := TotalPoints(ds), DonePoints(ds);
    var q := Round(100 * done, if total == 0 then FallbackTotal else total);
    PercentOfSums(done, total);
    Clamp(q)
  }

  /** The rounded share of done points in the total, before clamping: the
      done points themselves for a zero total, and otherwise at most 0 for
      no share, at least 100 for the whole, and the rounded percentage in
      between, the signs of both sums flipped when the total is negative. */
  lemma PercentOfSums(done: int, total: int)
    ensures total == 0 ==> Round(100 * done, FallbackTotal) == done
    ensures total != 0 ==>
      var t := if total > 0 then total else -total;
      var d := if total > 0 then done else -done;
      var q := Round(100 * done, total);
      && (d <= 0 ==> q <= 0)
      && (d >= t ==> q >= 100)
      && (0 <= d <= t ==> 0 <= q <= 100 && 2 * t * q <= 200 * d + t < 2 * t * (q + 1))
  {
    if total == 0 {
      RoundDivUnique(100 * done, FallbackTotal, done);
    } else {
      var t := if total > 0 then total else -total;
      var d := if total > 0 then done else -done;
      assert Round(100 * done, total) == RoundDiv(100 * d, t);
      RoundPercent(d, t);
    }
  }

  lemma {:induction false} DoneWithinTotal(ds: seq<Deed>)
    requires forall i | 0 <= i < |ds| :: ds[i].points >= 0
    ensures 0 <= DonePoints(ds) <= TotalPoints(ds)
  {
    if |ds| > 0 {
      DoneWithinTotal(ds[1..]);
    }
  }

  predicate AllDone(ds: seq<Deed>) {
    forall i | 0 <= i < |ds| :: ds[i].done
  }

  predicate NoneDone(ds: seq<Deed>) {
    forall i | 0 <= i < |ds| :: !ds[i].done
  }

  lemma {:induction false} AllDonePoints(ds: seq<Deed>)
    requires AllDone(ds)
    ensures DonePoints(ds) == TotalPoints(ds)
  {
    if |ds| > 0 {
      AllDonePoints(ds[1..]);
    }
  }

  lemma {:induction false} NoneDonePoints(ds: seq<Deed>)
    requires NoneDone(ds)
    ensures DonePoints(ds) == 0
  {
    if |ds| > 0 {
      NoneDonePoints(ds[1..]);
    }
  }

  /** With a positive total, a day with every deed done is at 100%. */
  lemma AllDoneIsFull(ds: seq<Deed>)
    requires TotalPoints(ds) > 0 && AllDone(ds)
    ensures ComputePercent(ds) == 100
  {
    AllDonePoints(ds);
    var t := TotalPoints(ds);
    RoundDivUnique(100 * t, t, 100);
  }

  /** A day with no deed done is at 0%, whatever the points. */
  lemma NoneDoneIsEmpty(ds: seq<Deed>)
    requires NoneDone(ds)
    ensures ComputePercent(ds) == 0
  {
    NoneDonePoints(ds);
    var t := TotalPoints(ds);
    if t > 0 {
      RoundDivUnique(0, t, 0);
    } else if t < 0 {
      RoundDivUnique(0, -t, 0);
    } else {
      RoundDivUnique(0, FallbackTotal, 0);
    }
  }

  // ------------------------------------------------------------ the deeds

  /** The deed list with `done` flipped on every deed carrying `id` and every
      other deed as it was. */
  function ToggleDeeds(ds: seq<Deed>, id: string): (r: seq<Deed>)
    ensures |r| == |ds|
    ensures forall i | 0 <= i < |ds| ::
      && r[i].id == ds[i].id && r[i].caption == ds[i].caption && r[i].points == ds[i].points
      && r[i].done == (if ds[i].id == id then !ds[i].done else ds[i].done)
  {
    seq(|ds|, i requires 0 <= i < |ds| => if ds[i].id == id then ds[i].(done := !ds[i].done) else ds[i])
  }

  /** The deed list with every deed marked not done. */
  function ClearDone(ds: seq<Deed>): (r: seq<Deed>)
    ensures |r| == |ds| && NoneDone(r)
    ensures forall i | 0 <= i < |ds| :: r[i] == ds[i].(done := false)
  {
    seq(|ds|, i requires 0 <= i < |ds| => ds[i].(done := false))
  }

  /** Toggling the same id twice gives the list back. */
  lemma ToggleTwice(ds: seq<Deed>, id: string)
    ensures ToggleDeeds(ToggleDeeds(ds, id), id) == ds
  {
  }

  lemma {:induction false} ToggleKeepsTotal(ds: seq<Deed>, id: string)
    ensures TotalPoints(ToggleDeeds(ds, id)) == TotalPoints(ds)
  {
    if |ds| > 0 {
      ToggleKeepsTotal(ds[1..], id);
      assert ToggleDeeds(ds, id)[1..] == ToggleDeeds(ds[1..], id);
    }
  }

  lemma {:induction false} ToggleOnRaisesDone(ds: seq<Deed>, id: string)
    requires forall i | 0 <= i < |ds| :: ds[i].points >= 0
    requires forall i | 0 <= i < |ds| && ds[i].id == id :: !ds[i].done
    ensures DonePoints(ToggleDeeds(ds, id)) >= DonePoints(ds)
  {
    if |ds| > 0 {
      ToggleOnRaisesDone(ds[1..], id);
      assert ToggleDeeds(ds, id)[1..] == ToggleDeeds(ds[1..], id);
    }
  }

  /** Ticking deeds that were not done never lowers the percent. */
  lemma TickingNeverLowersPercent(ds: seq<Deed>, id: string)
    requires forall i | 0 <= i < |ds| :: ds[i].points >= 0
    requires forall i | 0 <= i < |ds| && ds[i].id == id :: !ds[i].done
    ensures ComputePercent(ToggleDeeds(ds, id)) >= ComputePercent(ds)
  {
    var ts := ToggleDeeds(ds, id);
    ToggleKeepsTotal(ds, id);
    ToggleOnRaisesDone(ds, id);
    DoneWithinTotal(ds);
    var total := if TotalPoints(ds) == 0 then FallbackTotal else TotalPoints(ds);
    RoundDivMonotone(100 * DonePoints(ds), 100 * DonePoints(ts), total);
  }

  // ------------------------------------------------------------ the defaults

  const DefaultIds: seq<string> :=
    ["prayer", "quran", "parents", "sadaqah", "help", "adhkar", "truth", "patience", "gratitude", "purity"]

  const DefaultCaptions: seq<string> :=
    ["Prayers on time", "Quran reading", "Kindness to parents", "Sadaqah", "Helping others",
     "Morning/Evening adhkar", "Truthfulness", "Patience", "Gratitude", "Purity/Wudu"]

  /** The ten deeds of `initDefault()`: each worth ten points, none done. */
  function DefaultDeeds(): seq<Deed> {
    seq(10, i requires 0 <= i < 10 => Deed(DefaultIds[i], DefaultCaptions[i], 10, false))
  }

  lemma {:induction false} UniformTotal(ds: seq<Deed>, v: int)
    requires forall i | 0 <= i < |ds| :: ds[i].points == v
    ensures TotalPoints(ds) == v * |ds|
  {
    if |ds| > 0 {
      UniformTotal(ds[1..], v);
    }
  }

  /** No two default deeds share an id. */
  lemma DefaultsDistinct()
    ensures |DefaultDeeds()| == 10
    ensures forall i, j | 0 <= i < j < 10 :: DefaultDeeds()[i].id != DefaultDeeds()[j].id
  {
    var ids := DefaultIds;
    assert forall i | 0 <= i < 10 :: |ids[i]| >= 4;
    assert forall i, j | 0 <= i < j < 10 :: |ids[i]| != |ids[j]| || ids[i][0] != ids[j][0] || ids[i][1] != ids[j][1];
  }

  /** The defaults hold 100 points in all and start the day at 0%. */
  lemma DefaultsStartEmpty()
    ensures TotalPoints(DefaultDeeds()) == 100
    ensures NoneDone(DefaultDeeds())
    ensures ComputePercent(DefaultDeeds()) == 0
  {
    var ds := DefaultDeeds();
    UniformTotal(ds, 10);
    NoneDoneIsEmpty(ds);
  }

  // ------------------------------------------------------------ the operations

  /** The percent signal agrees with the deeds, as after every public call. */
  predicate Fresh(s: Store) {
    s.percent == ComputePercent(s.deeds)
  }

  function WithDeeds(s: Store, ds: seq<Deed>): (r: Store)
    ensures Fresh(r) && r.deeds == ds
    ensures r.prefs == s.prefs && r.history == s.history
  {
    s.(deeds := ds, percent := ComputePercent(ds))
  }

  /** `initDefault()`: the default deeds, none done, at 0%. */
  function InitDefault(s: Store): (r: Store)
    ensures Fresh(r) && r.deeds == DefaultDeeds() && r.percent == 0
    ensures r.prefs == s.prefs && r.history == s.history
  {
    DefaultsStartEmpty();
    WithDeeds(s, DefaultDeeds())
  }

  /** `toggle(id)`: flip `done` on exactly the deeds with that id. */
  function Toggle(s: Store, id: string): (r: Store)
    ensures Fresh(r) && r.prefs == s.prefs && r.history == s.history
    ensures |r.deeds| == |s.deeds|
    ensures forall i | 0 <= i < |s.deeds| ::
      && r.deeds[i].id == s.deeds[i].id && r.deeds[i].caption == s.deeds[i].caption
      && r.deeds[i].points == s.deeds[i].points
      && r.deeds[i].done == (if s.deeds[i].id == id then !s.deeds[i].done else s.deeds[i].done)
  {
    WithDeeds(s, ToggleDeeds(s.deeds, id))
  }

  /** `pushTodayToHistory()`: today's date (the first ten characters of the
      ISO timestamp `isoNow`) and the current percent go in front, and the
      list is cut to seven entries. */
  function PushToday(s: Store, isoNow: string): (r: Store)
    ensures |r.history| == if |s.history| < HistoryCap then |s.history| + 1 else HistoryCap
    ensures r.history[0] == HistoryEntry(if |isoNow| <= 10 then isoNow else isoNow[..10], s.percent)
    ensures r.history[1..] == if |s.history| < HistoryCap then s.history else s.history[..HistoryCap - 1]
    ensures r.deeds == s.deeds && r.percent == s.percent && r.prefs == s.prefs
  {
    var date := if |isoNow| <= 10 then isoNow else isoNow[..10];
    var all := [HistoryEntry(date, s.percent)] + s.history;
    var kept := if |all| <= HistoryCap then all else all[..HistoryCap];
    assert kept[1..] == if |s.history| < HistoryCap then s.history else s.history[..HistoryCap - 1];
    s.(history := kept)
  }

  /** `resetDay(persistHistory)`: optionally record the day, then clear
      every `done` flag and keep everything else about the deeds. */
  function ResetDay(s: Store, persistHistory: bool, isoNow: string): (r: Store)
    ensures Fresh(r) && r.percent == 0 && r.prefs == s.prefs
    ensures |r.deeds| == |s.deeds|
    ensures forall i | 0 <= i < |s.deeds| :: r.deeds[i] == s.deeds[i].(done := false)
    ensures persistHistory ==> r.history == PushToday(s, isoNow).history
    ensures !persistHistory ==> r.history == s.history
  {
    var h := if persistHistory then PushToday(s, isoNow) else s;
    NoneDoneIsEmpty(ClearDone(h.deeds));
    WithDeeds(h, ClearDone(h.deeds))
  }

  /** With the percent up to date, a reset records the day's percent as it
      was before the flags were cleared. */
  lemma ResetRecordsDay(s: Store, isoNow: string)
    requires Fresh(s)
    ensures ResetDay(s, true, isoNow).history[0].percent == ComputePercent(s.deeds)
    ensures |ResetDay(s, true, isoNow).history| <= HistoryCap
  {
  }

  /** The preferences with the update spread over them: every key present
      in `update` wins, every other key is kept. */
  function Merge(p: Prefs, update: Prefs): (r: Prefs)
    ensures r.nickname == if update.nickname.Some? then update.nickname else p.nickname
    ensures r.mute == if update.mute.Some? then update.mute else p.mute
    ensures r.colorBlind == if update.colorBlind.Some? then update.colorBlind else p.colorBlind
  {
    Prefs(if update.nickname.Some? then update.nickname else p.nickname,
          if update.mute.Some? then update.mute else p.mute,
          if update.colorBlind.Some? then update.colorBlind else p.colorBlind)
  }

  /** Applying an update twice is applying it once, and two updates in a row
      are the one update that merges them. */
  lemma MergeLaws(p: Prefs, u: Prefs, w: Prefs)
    ensures Merge(Merge(p, u), u) == Merge(p, u)
    ensures Merge(Merge(p, u), w) == Merge(p, Merge(u, w))
    ensures Merge(p, NoPrefs) == p
  {
  }

  /** `setPref(update)`: merge the update into the preferences. */
  function SetPref(s: Store, update: Prefs): (r: Store)
    ensures r.prefs == Merge(s.prefs, update)
    ensures r.deeds == s.deeds && r.percent == s.percent && r.history == s.history
  {
    s.(prefs := Merge(s.prefs, update))
  }

  /** `load()` followed by the constructor's percent: a saved non-empty deed
      list is kept as it is, anything else (nothing saved, unreadable, an
      empty list) gives the defaults; missing preferences and history start
      empty.  `saved*` is what local storage held, None when it was absent or
      could not be parsed. */
  function Load(savedDeeds: Option<seq<Deed>>, savedPrefs: Option<Prefs>,
                savedHistory: Option<seq<HistoryEntry>>): (r: Store)
    ensures Fresh(r)
    ensures savedDeeds.Some? && |savedDeeds.value| > 0 ==> r.deeds == savedDeeds.value
    ensures !(savedDeeds.Some? && |savedDeeds.value| > 0) ==> r.deeds == DefaultDeeds() && r.percent == 0
    ensures r.prefs == savedPrefs.ValueOr(NoPrefs)
    ensures r.history == savedHistory.ValueOr([])
  {
    var start := Store([], 0, NoPrefs, []);
    var withDeeds :=
      if savedDeeds.Some? && |savedDeeds.value| > 0 then start.(deeds := savedDeeds.value)
      else InitDefault(start);
    WithDeeds(withDeeds.(prefs := savedPrefs.ValueOr(NoPrefs), history := savedHistory.ValueOr([])),
              withDeeds.deeds)
  }
}
