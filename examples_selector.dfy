/** Worked instances of the selector: two development subtracks tied on
    wins are put in rating order, an empty statistics object shows nothing,
    and a nested submission count decides activity. */
module SelectorExamples {
  import opened Options
  import opened Subtracks
  import opened Ordering
  import opened Selector

  function Rated(name: string, wins: int, rating: int): Subtrack {
    Subtrack(name, Some(Rank(Some(rating))), NoSubmissions, Some(wins), None, None, false)
  }

  const CODE: Subtrack := Rated("CODE", 3, 1200)
  const F2F: Subtrack := Rated("F2F", 3, 1500)

  lemma BothKept(hasMM: bool)
    ensures KeepActive([CODE, F2F], hasMM) == [MarkActive(CODE), MarkActive(F2F)]
  {
    assert Kept(CODE, hasMM) && Kept(F2F, hasMM) by {
      assert HasPositiveRating(CODE) && HasPositiveRating(F2F);
      assert CODE.name != COPILOT_POSTING && CODE.name != DEVELOP_MARATHON_MATCH;
      assert F2F.name != COPILOT_POSTING && F2F.name != DEVELOP_MARATHON_MATCH;
    }
    assert [CODE][..0] == [];
    assert KeepActive([CODE], hasMM) == [MarkActive(CODE)];
    assert [CODE, F2F][..1] == [CODE];
  }

  lemma HigherRatingFirst()
    ensures SortByWinsRating([MarkActive(CODE), MarkActive(F2F)]) == [MarkActive(F2F), MarkActive(CODE)]
  {
    var c, f := MarkActive(CODE), MarkActive(F2F);
    assert [c, f][1..] == [f];
    assert SortByWinsRating([f]) == [f];
    assert Ahead(f, c);
    assert Insert(c, [f]) == [f, c];
  }

  lemma DevelopEntry(hasMM: bool)
    ensures TrackEntry(map[DEVELOP := TrackData(Some([CODE, F2F]), None, None, None)], DEVELOP, hasMM)
      == [ActiveTrack(DEVELOP, [MarkActive(F2F), MarkActive(CODE)])]
  {
    var stats := map[DEVELOP := TrackData(Some([CODE, F2F]), None, None, None)];
    assert Candidates(stats, DEVELOP) == [CODE, F2F];
    BothKept(hasMM);
    HigherRatingFirst();
  }

  /** CODE (3 wins, rating 1200) and F2F (3 wins, rating 1500) under
      DEVELOP: the only entry is DEVELOP, listing F2F before CODE, both
      marked active. */
  lemma DevelopTieBrokenByRating(hasMM: bool)
    ensures SelectTracks(map[DEVELOP := TrackData(Some([CODE, F2F]), None, None, None)], hasMM)
      == [ActiveTrack(DEVELOP, [MarkActive(F2F), MarkActive(CODE)])]
  {
    OnlyDevelopShown(map[DEVELOP := TrackData(Some([CODE, F2F]), None, None, None)], hasMM);
    DevelopEntry(hasMM);
  }

  /** With DEVELOP the only key, the result is DEVELOP's entry alone. */
  lemma OnlyDevelopShown(stats: StatsData, hasMM: bool)
    requires stats.Keys == {DEVELOP}
    ensures SelectTracks(stats, hasMM) == TrackEntry(stats, DEVELOP, hasMM)
  {
    assert DESIGN !in stats && DATA_SCIENCE !in stats && COPILOT !in stats;
    var e := TrackEntry(stats, DEVELOP, hasMM);
    assert WalkedEntries(stats, 1, hasMM) == e;
    assert WalkedEntries(stats, 2, hasMM) == e;
    assert WalkedEntries(stats, 3, hasMM) == e;
  }

  /** `{}` shows no track at all. */
  lemma EmptyStatsShowNothing(hasMM: bool)
    ensures SelectTracks(map[], hasMM) == []
  {
    SelectTracksPieces(map[], hasMM);
  }

  /** `submissions: { submissions: 0 }` is excluded, `{ submissions: 2 }`
      is included. */
  lemma NestedSubmissionsDecide(hasMM: bool)
    ensures !Kept(Subtrack("CODE", None, Nested(Some(0)), None, None, None, false), hasMM)
    ensures Kept(Subtrack("CODE", None, Nested(Some(2)), None, None, None, false), hasMM)
  {
    assert "CODE" != COPILOT_POSTING && "CODE" != MARATHON_MATCH_NAME && "CODE" != DEVELOP_MARATHON_MATCH;
  }
}
