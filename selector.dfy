/** getActiveTracks as a function of a snapshot of the statistics object:
    which tracks are shown, in which order, and which subtracks each one
    lists. StatsCategory.GetActiveTracks is proved to compute it. */
module Selector {
  import opened Options
  import opened Subtracks
  import opened Ordering

  /** The value of one `stats[track]`: the `subTracks` array (None when it
      is undefined), the optional `SRM` and `MARATHON_MATCH` records and the
      copilot `fulfillment`. */
  datatype TrackData = TrackData(
    subTracks: Option<seq<Subtrack>>,
    srm: Option<Subtrack>,
    marathonMatch: Option<Subtrack>,
    fulfillment: Option<int>)

  /** A statistics object; a track that is undefined (or falsy) is absent. */
  type StatsData = map<Track, TrackData>

  /** One entry of the result: a track and the subtracks it lists. */
  datatype ActiveTrack = ActiveTrack(name: Track, subTracks: seq<Subtrack>)

  /** The tracks walked after copilot, in the order they are walked. */
  const WALKED: seq<Track> := [DEVELOP, DESIGN, DATA_SCIENCE]

  /** The place of a track in the result. */
  function Precedence(t: Track): nat {
    match t
    case COPILOT => 0
    case DEVELOP => 1
    case DESIGN => 2
    case DATA_SCIENCE => 3
  }

  /** The records pushed onto the subtrack list: SRM, then marathon match,
      each renamed. */
  function Appended(d: TrackData): seq<Subtrack> {
    (if d.srm.Some? then [d.srm.value.(name := SRM_NAME)] else [])
    + (if d.marathonMatch.Some? then [d.marathonMatch.value.(name := MARATHON_MATCH_NAME)] else [])
  }

  /** `stats[t]`, None when the track is absent. */
  function RecordOf(stats: StatsData, t: Track): Option<TrackData> {
    if t in stats then Some(stats[t]) else None
  }

  /** The list the filter walks for a track record: `subTracks` (or a
      fresh empty list) followed by the appended records. */
  function CandidatesOf(rec: Option<TrackData>): seq<Subtrack> {
    if rec.Some? then rec.value.subTracks.GetOr([]) + Appended(rec.value) else []
  }

  function Candidates(stats: StatsData, t: Track): seq<Subtrack> {
    CandidatesOf(RecordOf(stats, t))
  }

  /** A copy of the record with its `active` flag set. */
  function MarkActive(s: Subtrack): Subtrack {
    s.(active := true)
  }

  /** The kept records of `s`, in order, each marked active. */
  function KeepActive(s: seq<Subtrack>, hasMM: bool): (r: seq<Subtrack>)
    ensures |r| <= |s|
    ensures forall x :: x in r ==> x.active && Kept(x, hasMM)
    ensures forall x :: x in r ==> exists y :: y in s && Kept(y, hasMM) && x == MarkActive(y)
    ensures forall y :: y in s && Kept(y, hasMM) ==> MarkActive(y) in r
  {
    if s == [] then []
    else
      var init, last := s[..|s| - 1], s[|s| - 1];
      assert s == init + [last];
      KeepActive(init, hasMM) + (if Kept(last, hasMM) then [MarkActive(last)] else [])
  }

  lemma KeepActiveSnoc(s: seq<Subtrack>, x: Subtrack, hasMM: bool)
    ensures KeepActive(s + [x], hasMM)
      == KeepActive(s, hasMM) + (if Kept(x, hasMM) then [MarkActive(x)] else [])
  {
    assert (s + [x])[..|s|] == s;
  }

  /** The filter works record by record and keeps the order: filtering a
      concatenation filters each part. */
  lemma {:induction false} KeepActiveDistributes(a: seq<Subtrack>, b: seq<Subtrack>, hasMM: bool)
    ensures KeepActive(a + b, hasMM) == KeepActive(a, hasMM) + KeepActive(b, hasMM)
    decreases |b|
  {
    if b == [] {
      assert a + b == a;
    } else {
      var init, last := b[..|b| - 1], b[|b| - 1];
      var tail := if Kept(last, hasMM) then [MarkActive(last)] else [];
      calc {
        KeepActive(a + b, hasMM);
        { assert a + b == (a + init) + [last]; KeepActiveSnoc(a + init, last, hasMM); }
        KeepActive(a + init, hasMM) + tail;
        { KeepActiveDistributes(a, init, hasMM); }
        (KeepActive(a, hasMM) + KeepActive(init, hasMM)) + tail;
        KeepActive(a, hasMM) + (KeepActive(init, hasMM) + tail);
        { assert b == init + [last]; KeepActiveSnoc(init, last, hasMM); }
        KeepActive(a, hasMM) + KeepActive(b, hasMM);
      }
    }
  }

  /** The entry for a walked track: present only when something was kept,
      with the kept records in the order of `_.orderBy`. */
  function EntryOf(t: Track, rec: Option<TrackData>, hasMM: bool): seq<ActiveTrack> {
    var kept := KeepActive(CandidatesOf(rec), hasMM);
    if |kept| > 0 then [ActiveTrack(t, SortByWinsRating(kept))] else []
  }

  function TrackEntry(stats: StatsData, t: Track, hasMM: bool): seq<ActiveTrack> {
    EntryOf(t, RecordOf(stats, t), hasMM)
  }

  /** The one subtrack of the copilot entry: named COPILOT, holding only the
      fulfillment; it carries no `active` flag. */
  function CopilotSubtrack(fulfillment: int): Subtrack {
    Subtrack("COPILOT", None, NoSubmissions, None, None, Some(fulfillment), false)
  }

  /** The copilot entry: present when `stats.COPILOT.fulfillment` is truthy. */
  function CopilotEntry(stats: StatsData): seq<ActiveTrack> {
    if COPILOT in stats && Truthy(stats[COPILOT].fulfillment) then
      [ActiveTrack(COPILOT, [CopilotSubtrack(stats[COPILOT].fulfillment.value)])]
    else []
  }

  /** The entries of the first `n` walked tracks, in the order walked. */
  function WalkedEntries(stats: StatsData, n: nat, hasMM: bool): seq<ActiveTrack>
    requires n <= |WALKED|
  {
    if n == 0 then [] else WalkedEntries(stats, n - 1, hasMM) + TrackEntry(stats, WALKED[n - 1], hasMM)
  }

  /** The result of getActiveTracks on a statistics object. */
  function SelectTracks(stats: StatsData, hasMM: bool): seq<ActiveTrack> {
    CopilotEntry(stats) + WalkedEntries(stats, |WALKED|, hasMM)
  }

  /** `out` is `kept` put in the order of the comparator by a stable sort:
      a permutation, ordered, with records of equal keys in their order in
      `kept`. By Ordering.StableSortIsUnique there is exactly one such list. */
  ghost predicate StableSortOf(out: seq<Subtrack>, kept: seq<Subtrack>) {
    && multiset(out) == multiset(kept)
    && Ordered(out)
    && forall k :: WithKey(out, k) == WithKey(kept, k)
  }

  lemma SelectTracksPieces(stats: StatsData, hasMM: bool)
    ensures SelectTracks(stats, hasMM) ==
      CopilotEntry(stats) + TrackEntry(stats, DEVELOP, hasMM)
      + TrackEntry(stats, DESIGN, hasMM) + TrackEntry(stats, DATA_SCIENCE, hasMM)
  {
    var e1, e2, e3 := TrackEntry(stats, DEVELOP, hasMM), TrackEntry(stats, DESIGN, hasMM),
      TrackEntry(stats, DATA_SCIENCE, hasMM);
    assert WalkedEntries(stats, 1, hasMM) == e1;
    assert WalkedEntries(stats, 2, hasMM) == e1 + e2;
    assert WalkedEntries(stats, 3, hasMM) == e1 + e2 + e3;
    ConcatAssoc(CopilotEntry(stats), TrackEntry(stats, DEVELOP, hasMM),
      TrackEntry(stats, DESIGN, hasMM), TrackEntry(stats, DATA_SCIENCE, hasMM));
  }

  lemma ConcatAssoc<X>(a: seq<X>, b: seq<X>, c: seq<X>, d: seq<X>)
    ensures a + (b + c + d) == a + b + c + d
  {
  }

  lemma TrackEntryShape(stats: StatsData, t: Track, hasMM: bool)
    ensures |TrackEntry(stats, t, hasMM)| <= 1
    ensures forall a :: a in TrackEntry(stats, t, hasMM) ==> a.name == t
  {
  }

  predicate RankedTracks(r: seq<ActiveTrack>) {
    forall i, j :: 0 <= i < j < |r| ==> Precedence(r[i].name) < Precedence(r[j].name)
  }

  lemma RankedAppend(a: seq<ActiveTrack>, b: seq<ActiveTrack>, bound: nat)
    requires RankedTracks(a) && RankedTracks(b)
    requires forall x :: x in a ==> Precedence(x.name) < bound
    requires forall y :: y in b ==> Precedence(y.name) >= bound
    ensures RankedTracks(a + b)
    ensures forall x :: x in a + b ==> x in a || x in b
  {
    var s := a + b;
    forall i, j | 0 <= i < j < |s| ensures Precedence(s[i].name) < Precedence(s[j].name) {
      if j < |a| {
        assert s[i] == a[i] && s[j] == a[j];
      } else if i >= |a| {
        assert s[i] == b[i - |a|] && s[j] == b[j - |a|];
      } else {
        assert s[i] in a && s[j] in b;
      }
    }
  }

  /** The result lists copilot, development, design and data science in
      that order, each at most once. */
  lemma TracksInFixedOrder(stats: StatsData, hasMM: bool)
    ensures RankedTracks(SelectTracks(stats, hasMM))
  {
    var c := CopilotEntry(stats);
    WalkedRanked(stats, |WALKED|, hasMM);
    RankedAppend(c, WalkedEntries(stats, |WALKED|, hasMM), 1);
  }

  /** The first `n` walked tracks contribute entries in the walk's order,
      each named after one of those `n` tracks. */
  lemma {:induction false} WalkedRanked(stats: StatsData, n: nat, hasMM: bool)
    requires n <= |WALKED|
    ensures RankedTracks(WalkedEntries(stats, n, hasMM))
    ensures forall a :: a in WalkedEntries(stats, n, hasMM) ==> 1 <= Precedence(a.name) <= n
  {
    if n > 0 {
      var t := WALKED[n - 1];
      assert Precedence(t) == n;
      WalkedRanked(stats, n - 1, hasMM);
      TrackEntryShape(stats, t, hasMM);
      RankedAppend(WalkedEntries(stats, n - 1, hasMM), TrackEntry(stats, t, hasMM), n);
    }
  }

  /** Every entry of the result comes from one of the four pieces. */
  lemma InPieces(stats: StatsData, hasMM: bool, a: ActiveTrack)
    requires a in SelectTracks(stats, hasMM)
    ensures a.name == COPILOT ==> a in CopilotEntry(stats)
    ensures a.name != COPILOT ==> a in TrackEntry(stats, a.name, hasMM)
  {
    SelectTracksPieces(stats, hasMM);
    TrackEntryShape(stats, DEVELOP, hasMM);
    TrackEntryShape(stats, DESIGN, hasMM);
    TrackEntryShape(stats, DATA_SCIENCE, hasMM);
  }

  /** A walked track is listed exactly when at least one of its candidate
      records passes the filter. */
  lemma TrackShownIffSomethingKept(stats: StatsData, hasMM: bool, t: Track)
    requires t != COPILOT
    ensures (exists a :: a in SelectTracks(stats, hasMM) && a.name == t)
        <==> (exists y :: y in Candidates(stats, t) && Kept(y, hasMM))
  {
    if exists a :: a in SelectTracks(stats, hasMM) && a.name == t {
      var a :| a in SelectTracks(stats, hasMM) && a.name == t;
      ShownMeansSomethingKept(stats, hasMM, a);
    }
    if exists y :: y in Candidates(stats, t) && Kept(y, hasMM) {
      var y :| y in Candidates(stats, t) && Kept(y, hasMM);
      KeptMeansShown(stats, hasMM, t, y);
    }
  }

  lemma ShownMeansSomethingKept(stats: StatsData, hasMM: bool, a: ActiveTrack)
    requires a in SelectTracks(stats, hasMM) && a.name != COPILOT
    ensures exists y :: y in Candidates(stats, a.name) && Kept(y, hasMM)
  {
    var kept := KeepActive(Candidates(stats, a.name), hasMM);
    InPieces(stats, hasMM, a);
    assert kept[0] in kept;
  }

  lemma KeptMeansShown(stats: StatsData, hasMM: bool, t: Track, y: Subtrack)
    requires t != COPILOT && y in Candidates(stats, t) && Kept(y, hasMM)
    ensures ActiveTrack(t, SortByWinsRating(KeepActive(Candidates(stats, t), hasMM))) in SelectTracks(stats, hasMM)
  {
    var kept := KeepActive(Candidates(stats, t), hasMM);
    assert MarkActive(y) in kept;
    var a := ActiveTrack(t, SortByWinsRating(kept));
    assert a in TrackEntry(stats, t, hasMM);
    SelectTracksPieces(stats, hasMM);
    assert t == DEVELOP || t == DESIGN || t == DATA_SCIENCE;
  }

  /** The copilot entry is listed exactly when the copilot fulfillment is
      truthy (zero and undefined leave it out); it then comes first, with a
      single subtrack named COPILOT that carries the fulfillment. */
  lemma CopilotShownIffFulfillment(stats: StatsData, hasMM: bool)
    ensures (exists a :: a in SelectTracks(stats, hasMM) && a.name == COPILOT)
        <==> (COPILOT in stats && Truthy(stats[COPILOT].fulfillment))
    ensures COPILOT in stats && Truthy(stats[COPILOT].fulfillment) ==>
      SelectTracks(stats, hasMM)[0] ==
        ActiveTrack(COPILOT, [Subtrack("COPILOT", None, NoSubmissions, None, None, stats[COPILOT].fulfillment, false)])
  {
    if exists a :: a in SelectTracks(stats, hasMM) && a.name == COPILOT {
      var a :| a in SelectTracks(stats, hasMM) && a.name == COPILOT;
      InPieces(stats, hasMM, a);
    }
    if COPILOT in stats && Truthy(stats[COPILOT].fulfillment) {
      assert SelectTracks(stats, hasMM)[0] in SelectTracks(stats, hasMM);
    }
  }

  /** Each walked track lists exactly its kept records, marked active, in
      the order of a stable sort by wins and then rating. */
  lemma WalkedTrackContents(stats: StatsData, hasMM: bool, a: ActiveTrack)
    requires a in SelectTracks(stats, hasMM) && a.name != COPILOT
    ensures a.subTracks != []
    ensures StableSortOf(a.subTracks, KeepActive(Candidates(stats, a.name), hasMM))
    ensures forall x :: x in a.subTracks ==> x.active && Kept(x, hasMM)
  {
    InPieces(stats, hasMM, a);
    var kept := KeepActive(Candidates(stats, a.name), hasMM);
    forall x | x in a.subTracks ensures x.active && Kept(x, hasMM) {
      assert x in multiset(kept);
    }
  }

  /** DEVELOP_MARATHON_MATCH and COPILOT_POSTING are never listed. */
  lemma SuppressedNamesNeverShown(stats: StatsData, hasMM: bool)
    ensures forall a, x :: a in SelectTracks(stats, hasMM) && x in a.subTracks ==>
      x.name != DEVELOP_MARATHON_MATCH && x.name != COPILOT_POSTING
  {
    forall a, x | a in SelectTracks(stats, hasMM) && x in a.subTracks
      ensures x.name != DEVELOP_MARATHON_MATCH && x.name != COPILOT_POSTING
    {
      InPieces(stats, hasMM, a);
      if a.name != COPILOT {
        WalkedTrackContents(stats, hasMM, a);
      }
    }
  }

  /** With `hasMM`, a walked track that has a MARATHON_MATCH record is
      listed and lists a MARATHON MATCH subtrack, whatever its activity. */
  lemma MarathonMatchForced(stats: StatsData, hasMM: bool, t: Track)
    requires hasMM && t != COPILOT
    requires t in stats && stats[t].marathonMatch.Some?
    ensures exists a, x ::
              a in SelectTracks(stats, hasMM) && a.name == t && x in a.subTracks && x.name == MARATHON_MATCH_NAME
  {
    var d := stats[t];
    var y := d.marathonMatch.value.(name := MARATHON_MATCH_NAME);
    assert y in Appended(d);
    assert y in Candidates(stats, t);
    var kept := KeepActive(Candidates(stats, t), hasMM);
    assert MarkActive(y) in kept;
    var sorted := SortByWinsRating(kept);
    assert MarkActive(y) in multiset(sorted);
    var a := ActiveTrack(t, sorted);
    SelectTracksPieces(stats, hasMM);
    assert a in TrackEntry(stats, t, hasMM);
    assert t == DEVELOP || t == DESIGN || t == DATA_SCIENCE;
    assert a in SelectTracks(stats, hasMM);
    assert MarkActive(y) in a.subTracks;
  }
}
