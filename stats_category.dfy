/** StatsCategory.getActiveTracks as the source runs it: two nested loops
    that push onto local lists, and pushes of the SRM and marathon match
    records onto the caller's own `subTracks` array, which the call reuses
    in place whenever it exists. */
module StatsCategory {
  import opened Options
  import opened Subtracks
  import opened Ordering
  import opened Selector

  /** A JavaScript array of subtrack records. `push` changes it in place,
      so every holder of the reference sees the new element. */
  class SubtrackArray {
    var items: seq<Subtrack>

    constructor (items: seq<Subtrack>)
      ensures this.items == items
    {
      this.items := items;
    }

    method Push(s: Subtrack)
      modifies this
      ensures items == old(items) + [s]
    {
      items := items + [s];
    }
  }

  /** One `stats[track]` as the component receives it: `subTracks` is a
      reference to an array (None when undefined). */
  datatype TrackStats = TrackStats(
    subTracks: Option<SubtrackArray>,
    srm: Option<Subtrack>,
    marathonMatch: Option<Subtrack>,
    fulfillment: Option<int>)

  type Stats = map<Track, TrackStats>

  /** The `stats` prop: one statistics object, or an array of them. */
  datatype StatsProp = Single(stats: Stats) | Many(list: seq<Stats>)

  /** The prop itself, or its first element when it is an array. An empty
      array yields undefined, which every guard on `stats` treats as an
      object with no tracks. */
  function EffectiveStats(p: StatsProp): Stats {
    match p
    case Single(s) => s
    case Many(list) => if |list| > 0 then list[0] else map[]
  }

  /** The arrays the statistics object refers to. */
  function ArraysOf(stats: Stats): set<SubtrackArray> {
    set t | t in stats && stats[t].subTracks.Some? :: stats[t].subTracks.value
  }

  function ArrayOf(ts: TrackStats): set<SubtrackArray> {
    if ts.subTracks.Some? then {ts.subTracks.value} else {}
  }

  /** No two tracks share one `subTracks` array. */
  predicate Unshared(stats: Stats) {
    forall t1, t2 :: t1 in stats && t2 in stats && t1 != t2
      && stats[t1].subTracks.Some? && stats[t2].subTracks.Some?
      ==> stats[t1].subTracks.value != stats[t2].subTracks.value
  }

  /** The value of one track record in the current heap. */
  function Snapshot(ts: TrackStats): TrackData
    reads ArrayOf(ts)
  {
    TrackData(
      if ts.subTracks.Some? then Some(ts.subTracks.value.items) else None,
      ts.srm, ts.marathonMatch, ts.fulfillment)
  }

  /** The value of the whole statistics object in the current heap. */
  function View(stats: Stats): StatsData
    reads ArraysOf(stats)
  {
    map t | t in stats :: Snapshot(stats[t])
  }

  /** A track record after one call: its existing array holds the SRM and
      marathon match records at its end; a missing array stays missing. */
  function Grown(d: TrackData): TrackData {
    if d.subTracks.Some? then d.(subTracks := Some(d.subTracks.value + Appended(d))) else d
  }

  /** The statistics object after one call: every walked track is grown,
      copilot is left alone. */
  function GrowWalked(stats: StatsData): StatsData {
    map t | t in stats :: if t == COPILOT then stats[t] else Grown(stats[t])
  }

  /** Gathering the candidates of one walked track: the list to filter is the
      track's own array when it has one, else a fresh empty array; SRM and
      then marathon match are pushed onto it. */
  method GatherSubtracks(rec: Option<TrackStats>) returns (subTracks: SubtrackArray)
    modifies if rec.Some? then ArrayOf(rec.value) else {}
    ensures rec.Some? && rec.value.subTracks.Some? ==> subTracks == rec.value.subTracks.value
    ensures rec.None? || rec.value.subTracks.None? ==> fresh(subTracks)
    ensures rec.Some? ==> Snapshot(rec.value) == Grown(old(Snapshot(rec.value)))
    ensures subTracks.items == CandidatesOf(if rec.Some? then Some(old(Snapshot(rec.value))) else None)
  {
    ghost var d := if rec.Some? then Some(Snapshot(rec.value)) else None;
    if rec.Some? && rec.value.subTracks.Some? {
      subTracks := rec.value.subTracks.value;
    } else {
      subTracks := new SubtrackArray([]);
    }
    ghost var base := subTracks.items;
    assert base == if d.Some? then d.value.subTracks.GetOr([]) else [];
    if rec.Some? && rec.value.srm.Some? {
      subTracks.Push(rec.value.srm.value.(name := SRM_NAME));
    }
    if rec.Some? && rec.value.marathonMatch.Some? {
      subTracks.Push(rec.value.marathonMatch.value.(name := MARATHON_MATCH_NAME));
    }
    assert d.Some? ==> subTracks.items == base + Appended(d.value);
    if rec.Some? && rec.value.subTracks.None? {
      assert Snapshot(rec.value) == d.value;
    }
  }

  /** The `forEach` over the gathered list that pushes a marked copy of every kept record. */
  method FilterActive(items: seq<Subtrack>, hasMM: bool) returns (active: seq<Subtrack>)
    ensures active == KeepActive(items, hasMM)
  {
    active := [];
    for j := 0 to |items|
      invariant active == KeepActive(items[..j], hasMM)
    {
      assert items[..j + 1] == items[..j] + [items[j]];
      if Kept(items[j], hasMM) {
        active := active + [MarkActive(items[j])];
      }
    }
    assert items[..|items|] == items;
  }

  /** The body of the `forEach` over one walked track. */
  method CollectTrack(track: Track, rec: Option<TrackStats>, hasMM: bool) returns (entry: seq<ActiveTrack>)
    modifies if rec.Some? then ArrayOf(rec.value) else {}
    ensures rec.Some? ==> Snapshot(rec.value) == Grown(old(Snapshot(rec.value)))
    ensures entry == EntryOf(track, if rec.Some? then Some(old(Snapshot(rec.value))) else None, hasMM)
  {
    var subTracks := GatherSubtracks(rec);
    var active := FilterActive(subTracks.items, hasMM);
    if |active| > 0 {
      entry := [ActiveTrack(track, SortByWinsRating(active))];
    } else {
      entry := [];
    }
  }

  /** Track `t` is among the first `n` walked tracks. */
  predicate WalkedWithin(t: Track, n: nat) {
    1 <= Precedence(t) <= n
  }

  /** One turn of the walk over DEVELOP, DESIGN and DATA_SCIENCE: the
      first `done` tracks have been grown already, the next one is grown
      now, and every other track is still as it was on entry (`before`). */
  method WalkTrack(stats: Stats, done: nat, hasMM: bool, ghost before: StatsData)
      returns (entry: seq<ActiveTrack>)
    requires done < |WALKED| && Unshared(stats) && before.Keys == stats.Keys
    requires forall t :: t in stats && WalkedWithin(t, done) ==> Snapshot(stats[t]) == Grown(before[t])
    requires forall t :: t in stats && !WalkedWithin(t, done) ==> Snapshot(stats[t]) == before[t]
    modifies ArraysOf(stats)
    ensures entry == TrackEntry(before, WALKED[done], hasMM)
    ensures forall t :: t in stats && WalkedWithin(t, done + 1) ==> Snapshot(stats[t]) == Grown(before[t])
    ensures forall t :: t in stats && !WalkedWithin(t, done + 1) ==> Snapshot(stats[t]) == before[t]
  {
    var track := WALKED[done];
    assert Precedence(track) == done + 1;
    var rec := if track in stats then Some(stats[track]) else None;
    assert RecordOf(before, track) == if rec.Some? then Some(Snapshot(rec.value)) else None;
    entry := CollectTrack(track, rec, hasMM);
    WalkStep(track, done);
  }

  lemma SamePrecedenceSameTrack(a: Track, b: Track)
    requires Precedence(a) == Precedence(b)
    ensures a == b
  {
    match a
    case COPILOT =>
    case DEVELOP =>
    case DESIGN =>
    case DATA_SCIENCE =>
  }

  /** Track `track` is the one the walk reaches in step `done + 1`. */
  lemma WalkStep(track: Track, done: nat)
    requires Precedence(track) == done + 1
    ensures forall t :: WalkedWithin(t, done + 1) <==> t == track || WalkedWithin(t, done)
  {
    forall t ensures WalkedWithin(t, done + 1) <==> t == track || WalkedWithin(t, done) {
      if Precedence(t) == done + 1 {
        SamePrecedenceSameTrack(t, track);
      }
    }
  }

  /** The `forEach` over the walked tracks, DEVELOP, DESIGN and DATA_SCIENCE,
      collecting the entries of the tracks that keep something. */
  method WalkTracks(stats: Stats, hasMM: bool, ghost before: StatsData) returns (entries: seq<ActiveTrack>)
    requires Unshared(stats) && before.Keys == stats.Keys
    requires forall t :: t in stats ==> Snapshot(stats[t]) == before[t]
    modifies ArraysOf(stats)
    ensures entries == WalkedEntries(before, |WALKED|, hasMM)
    ensures forall t :: t in stats && t != COPILOT ==> Snapshot(stats[t]) == Grown(before[t])
    ensures COPILOT in stats ==> Snapshot(stats[COPILOT]) == before[COPILOT]
  {
    entries := [];
    for i := 0 to |WALKED|
      invariant entries == WalkedEntries(before, i, hasMM)
      invariant forall t :: t in stats && WalkedWithin(t, i) ==> Snapshot(stats[t]) == Grown(before[t])
      invariant forall t :: t in stats && !WalkedWithin(t, i) ==> Snapshot(stats[t]) == before[t]
    {
      var entry := WalkTrack(stats, i, hasMM, before);
      entries := entries + entry;
    }
  }

  /** getActiveTracks: the result is SelectTracks of the statistics object
      as it was on entry, and every walked track's existing `subTracks`
      array has grown by its SRM and marathon match records. */
  method GetActiveTracks(props: StatsProp, hasMM: bool) returns (activeTracks: seq<ActiveTrack>)
    requires Unshared(EffectiveStats(props))
    modifies ArraysOf(EffectiveStats(props))
    ensures activeTracks == SelectTracks(old(View(EffectiveStats(props))), hasMM)
    ensures View(EffectiveStats(props)) == GrowWalked(old(View(EffectiveStats(props))))
  {
    var stats := EffectiveStats(props);
    ghost var before := View(stats);
    activeTracks := [];
    if COPILOT in stats && Truthy(stats[COPILOT].fulfillment) {
      activeTracks := [ActiveTrack(COPILOT, [CopilotSubtrack(stats[COPILOT].fulfillment.value)])];
    }
    assert activeTracks == CopilotEntry(before);
    assert before.Keys == stats.Keys;
    var entries := WalkTracks(stats, hasMM, before);
    activeTracks := activeTracks + entries;
    GrownEverywhere(stats, before);
  }

  /** The pointwise facts WalkTracks leaves behind, read as one map. */
  lemma GrownEverywhere(stats: Stats, before: StatsData)
    requires before.Keys == stats.Keys
    requires forall t :: t in stats && t != COPILOT ==> Snapshot(stats[t]) == Grown(before[t])
    requires COPILOT in stats ==> Snapshot(stats[COPILOT]) == before[COPILOT]
    ensures View(stats) == GrowWalked(before)
  {
    var now := View(stats);
    assert now.Keys == GrowWalked(before).Keys;
    forall t | t in now ensures now[t] == GrowWalked(before)[t] {
    }
  }

  /** A second call sees a grown input: for a walked track whose
      `subTracks` array exists, the list it filters holds the SRM and
      marathon match records once more. */
  lemma RepeatedCallSeesRecordsAgain(stats: StatsData, t: Track)
    requires t != COPILOT && t in stats && stats[t].subTracks.Some?
    ensures Candidates(GrowWalked(stats), t) == Candidates(stats, t) + Appended(stats[t])
  {
  }

  /** When the prop is an array, only its first element matters. */
  lemma OnlyFirstRecordMatters(first: Stats, rest1: seq<Stats>, rest2: seq<Stats>)
    ensures EffectiveStats(Many([first] + rest1)) == EffectiveStats(Many([first] + rest2)) == first
  {
  }
}
