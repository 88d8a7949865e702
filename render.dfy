/** The pure rules inside StatsCategory's render: the display name of a
    track (TRACK_NAMES), the link of a subtrack row, its label, and which of
    the Rating, Wins and Fulfillment badges the row shows. */
module Render {
  import opened Options
  import opened Subtracks
  import opened StringRules
  import opened Selector

  /** The key of a track in the statistics object and in links. */
  function TrackKey(t: Track): string {
    match t
    case COPILOT => "COPILOT"
    case DEVELOP => "DEVELOP"
    case DESIGN => "DESIGN"
    case DATA_SCIENCE => "DATA_SCIENCE"
  }

  /** TRACK_NAMES: the name shown in the heading of a track. */
  function TrackDisplayName(t: Track): string {
    match t
    case COPILOT => "COPILOT"
    case DATA_SCIENCE => "DATA SCIENCE"
    case DEVELOP => "DEVELOPMENT"
    case DESIGN => "DESIGN"
  }

  /** Each track has its own heading. */
  lemma DisplayNamesDistinct(t1: Track, t2: Track)
    ensures t1 != t2 ==> TrackDisplayName(t1) != TrackDisplayName(t2)
  {
    if t1 != t2 {
      assert |TrackDisplayName(t1)| != |TrackDisplayName(t2)|;
    }
  }

  /** Apart from DEVELOP, shown as DEVELOPMENT, the heading is the key with
      its underscore as a space. */
  lemma DisplayNameFromKey(t: Track)
    ensures t != DEVELOP ==> TrackDisplayName(t) == Spaced(TrackKey(t))
    ensures TrackDisplayName(DEVELOP) == TrackKey(DEVELOP) + "MENT"
  {
    match t
    case DATA_SCIENCE =>
      var r := Spaced(TrackKey(t));
      assert r[4] == ' ';
    case COPILOT =>
      NoUnderscoreUnchanged(TrackKey(t));
    case DESIGN =>
      NoUnderscoreUnchanged(TrackKey(t));
    case DEVELOP =>
  }

  // ---------------------------------------------------------------- links

  /** The `subTrack` query value: `name.replace(' ', '_')`, which rewrites
      the first space only. */
  function LinkSubTrack(name: string): (r: string)
    ensures |r| == |name|
    ensures forall i :: 0 <= i < |name| ==>
      r[i] == (if i == IndexOf(name, " ") then '_' else name[i])
  {
    var k := IndexOf(name, " ");
    var r := ReplaceFirst(name, " ", "_");
    assert k != -1 ==> r == name[..k] + "_" + name[k + 1..];
    r
  }

  /** The first space of the name is gone and every later one is kept, so a
      name with two spaces still has one in its link. */
  lemma LinkKeepsLaterSpaces(name: string, i: int, j: int)
    requires 0 <= i < j < |name| && name[i] == ' ' && name[j] == ' '
    ensures LinkSubTrack(name)[j] == ' '
    ensures ' ' in LinkSubTrack(name)
  {
    OccursAtChar(name, ' ', i);
    var k := IndexOf(name, " ");
    assert k != -1;
    assert k <= i;
  }

  /** A name without spaces is its own link value. */
  lemma LinkWithoutSpace(name: string)
    requires ' ' !in name
    ensures LinkSubTrack(name) == name
  {
    MissingCharNoOccurrence(name, " ", 0);
  }

  /** Two words joined by one space are linked joined by an underscore,
      as MARATHON MATCH is linked as MARATHON_MATCH. */
  lemma LinkOfTwoWords(a: string, b: string)
    requires ' ' !in a && ' ' !in b
    ensures LinkSubTrack(a + " " + b) == a + "_" + b
  {
    var name := a + " " + b;
    assert FirstAt(name, " ", |a|) by {
      OccursAtChar(name, ' ', |a|);
      forall j | 0 <= j < |a| ensures !OccursAt(name, " ", j) {
        OccursAtChar(name, ' ', j);
        assert name[j] == a[j];
      }
    }
    assert name[..|a|] == a && name[|a| + 1..] == b;
  }

  /** The path of the member's details page for the track, up to the
      `subTrack` query value. */
  function LinkPrefix(handle: string, t: Track): string {
    "/members/" + handle + "/details/?track=" + TrackKey(t) + "&subTrack="
  }

  /** `s` holds at least two spaces. */
  predicate HasTwoSpaces(s: string) {
    exists i, j :: 0 <= i < j < |s| && s[i] == ' ' && s[j] == ' '
  }

  /** Rewriting the first space removes every space from the link value
      exactly when the name has at most one. */
  lemma LinkSpaceIffTwoSpaces(name: string)
    ensures ' ' in LinkSubTrack(name) <==> HasTwoSpaces(name)
  {
    if HasTwoSpaces(name) {
      var i, j :| 0 <= i < j < |name| && name[i] == ' ' && name[j] == ' ';
      LinkKeepsLaterSpaces(name, i, j);
    }
    var r := LinkSubTrack(name);
    if ' ' in r {
      var j :| 0 <= j < |r| && r[j] == ' ';
      var k := IndexOf(name, " ");
      assert name[j] == ' ' && j != k;
      OccursAtChar(name, ' ', j);
      assert k != -1;
      OccursAtChar(name, ' ', k);
      assert k < j && name[k] == ' ';
    }
  }

  /** The only space the fixed parts of a link path can hold is one in the
      handle. */
  lemma PrefixSpace(handle: string, t: Track)
    ensures ' ' in LinkPrefix(handle, t) <==> ' ' in handle
  {
    assert ' ' !in TrackKey(t) by {
      match t
      case COPILOT =>
      case DEVELOP =>
      case DESIGN =>
      case DATA_SCIENCE =>
    }
  }

  /** The link of a row: the member's details page for the track, with the
      subtrack as the last query value. It holds no space exactly when the
      handle has none and the name has at most one, since only the first
      space of the name is rewritten. */
  function LinkTarget(handle: string, t: Track, name: string): (r: string)
    ensures |r| == |LinkPrefix(handle, t)| + |name|
    ensures r[..|LinkPrefix(handle, t)|] == LinkPrefix(handle, t)
    ensures r[|LinkPrefix(handle, t)|..] == LinkSubTrack(name)
    ensures ' ' !in r <==> ' ' !in handle && !HasTwoSpaces(name)
  {
    PrefixSpace(handle, t);
    LinkSpaceIffTwoSpaces(name);
    LinkPrefix(handle, t) + LinkSubTrack(name)
  }

  // --------------------------------------------------------------- labels

  const FIRST_2_FINISH: string := "FIRST_2_FINISH"
  const FIRST2FINISH: string := "FIRST2FINISH"

  /** Underscores become spaces. */
  function Spaced(s: string): string {
    ReplaceChar(s, '_', ' ')
  }

  lemma SpacedConcat(a: string, b: string)
    ensures Spaced(a + b) == Spaced(a) + Spaced(b)
  {
    var l, r := Spaced(a + b), Spaced(a) + Spaced(b);
    assert |l| == |r|;
    forall i | 0 <= i < |l| ensures l[i] == r[i] {
      if i < |a| {
        assert (a + b)[i] == a[i];
      } else {
        assert (a + b)[i] == b[i - |a|];
      }
    }
  }

  /** The label of a row: FIRST_2_FINISH is rewritten (first occurrence
      only), then every underscore becomes a space. */
  function Label(name: string): (r: string)
    ensures '_' !in r
    ensures |r| <= |name|
    ensures (forall k :: !OccursAt(name, FIRST_2_FINISH, k)) ==>
      |r| == |name| && forall i :: 0 <= i < |name| ==> r[i] == (if name[i] == '_' then ' ' else name[i])
  {
    Spaced(ReplaceFirst(name, FIRST_2_FINISH, FIRST2FINISH))
  }

  /** With FIRST_2_FINISH first at `k`, the label is the text before it
      with spaces, then FIRST2FINISH, then the rest with spaces. */
  lemma {:induction false} LabelAtFirst2Finish(name: string, k: int)
    requires FirstAt(name, FIRST_2_FINISH, k)
    ensures Label(name) == Spaced(name[..k]) + FIRST2FINISH + Spaced(name[k + 14..])
  {
    var before, after := name[..k], name[k + 14..];
    assert ReplaceFirst(name, FIRST_2_FINISH, FIRST2FINISH) == before + FIRST2FINISH + after by {
      assert |FIRST_2_FINISH| == 14;
    }
    SpacedConcat(before + FIRST2FINISH, after);
    SpacedConcat(before, FIRST2FINISH);
    NoUnderscoreUnchanged(FIRST2FINISH);
  }

  lemma NoUnderscoreUnchanged(s: string)
    requires '_' !in s
    ensures Spaced(s) == s
  {
    var r := Spaced(s);
    forall i | 0 <= i < |s| ensures r[i] == s[i] {
      assert s[i] in s;
    }
  }

  /** A pattern holding a character that `s` lacks does not occur in `s`. */
  lemma MissingCharNoOccurrence(s: string, pat: string, i: int)
    requires 0 <= i < |pat| && pat[i] !in s
    ensures forall k :: !OccursAt(s, pat, k)
  {
  }

  /** FIRST_2_FINISH is shown as FIRST2FINISH. */
  lemma LabelOfFirst2Finish()
    ensures Label(FIRST_2_FINISH) == FIRST2FINISH
  {
    var f := FIRST_2_FINISH;
    assert FirstAt(f, f, 0) by {
      assert f[0..14] == f;
    }
    LabelAtFirst2Finish(f, 0);
    assert Spaced([]) == [];
  }

  /** The order of the two rewrites matters: turning underscores into
      spaces first would leave nothing for the FIRST_2_FINISH rewrite to
      match, and the label would keep all fourteen characters. */
  lemma SpacingFirstWouldMissTheRewrite()
    ensures ReplaceFirst(Spaced(FIRST_2_FINISH), FIRST_2_FINISH, FIRST2FINISH) == Spaced(FIRST_2_FINISH)
    ensures Spaced(FIRST_2_FINISH) != Label(FIRST_2_FINISH)
  {
    var g := Spaced(FIRST_2_FINISH);
    MissingCharNoOccurrence(g, FIRST_2_FINISH, 5);
    assert |g| != |Label(FIRST_2_FINISH)| by {
      LabelOfFirst2Finish();
    }
  }

  /** A name without FIRST_2_FINISH just loses its underscores. */
  lemma LabelOfBugHunt()
    ensures Label("BUG_HUNT") == "BUG HUNT"
  {
    var b := Label("BUG_HUNT");
    assert b[3] == ' ';
  }

  /** The marathon match subtrack keeps its name as its label. */
  lemma LabelOfMarathonMatch()
    ensures Label(MARATHON_MATCH_NAME) == MARATHON_MATCH_NAME
  {
    var m := MARATHON_MATCH_NAME;
    assert '_' !in m;
    MissingCharNoOccurrence(m, FIRST_2_FINISH, 5);
    assert ReplaceFirst(m, FIRST_2_FINISH, FIRST2FINISH) == m;
    NoUnderscoreUnchanged(m);
  }

  // --------------------------------------------------------------- badges

  /** A badge of a row. A rating badge with no number is the blank shown
      in the "No Rating" case. */
  datatype Badge =
    | RatingBadge(rating: Option<int>, tag: string)
    | WinsBadge(wins: int)
    | FulfillmentBadge(percent: int)

  /** The record has a rank whose rating is defined. */
  predicate HasRating(s: Subtrack) {
    s.rank.Some? && s.rank.value.rating.Some?
  }

  /** The marathon match row of a member forced in by `hasMM` who has no
      challenges on it: its rating is blanked out. */
  predicate NoRatingCase(s: Subtrack, hasMM: bool) {
    s.name == MARATHON_MATCH_NAME && !Truthy(s.challenges) && hasMM
  }

  /** The badges of one row, in the order the row shows them. */
  function Badges(s: Subtrack, hasMM: bool): (b: seq<Badge>)
    ensures 1 <= |b| <= 2
    ensures |b| == 2 <==> HasRating(s) && Truthy(s.fulfillment)
    ensures b[0].RatingBadge? <==> HasRating(s)
    ensures b[0].WinsBadge? <==> !HasRating(s) && !Truthy(s.fulfillment)
    ensures b[|b| - 1].FulfillmentBadge? <==> Truthy(s.fulfillment)
    ensures b[0].WinsBadge? ==> b[0].wins == s.wins.GetOr(0)
    ensures b[|b| - 1].FulfillmentBadge? ==> b[|b| - 1].percent == s.fulfillment.value
    ensures b[0].RatingBadge? ==>
      b[0] == (if NoRatingCase(s, hasMM) then RatingBadge(None, "No Rating")
               else RatingBadge(s.rank.value.rating, "Rating"))
  {
    var rating :=
      if !HasRating(s) then []
      else if NoRatingCase(s, hasMM) then [RatingBadge(None, "No Rating")]
      else [RatingBadge(s.rank.value.rating, "Rating")];
    var wins :=
      if !HasRating(s) && !Truthy(s.fulfillment) then [WinsBadge(if Truthy(s.wins) then s.wins.value else 0)]
      else [];
    var fulfillment := if Truthy(s.fulfillment) then [FulfillmentBadge(s.fulfillment.value)] else [];
    rating + wins + fulfillment
  }

  /** A row never shows both a rating and a wins count, and the blank "No
      Rating" badge appears only on a forced marathon match row. */
  lemma BadgeExclusions(s: Subtrack, hasMM: bool, i: int, j: int)
    requires 0 <= i < |Badges(s, hasMM)| && 0 <= j < |Badges(s, hasMM)|
    ensures !(Badges(s, hasMM)[i].RatingBadge? && Badges(s, hasMM)[j].WinsBadge?)
    ensures Badges(s, hasMM)[i] == RatingBadge(None, "No Rating") ==>
      hasMM && s.name == MARATHON_MATCH_NAME && !Truthy(s.challenges)
  {
    var b := Badges(s, hasMM);
    if |b| == 2 {
      assert b[1].FulfillmentBadge?;
    }
  }

  /** The copilot entry of the selector renders as a single fulfillment
      badge carrying the member's fulfillment. */
  lemma CopilotRowShowsFulfillment(stats: StatsData, hasMM: bool)
    requires COPILOT in stats && Truthy(stats[COPILOT].fulfillment)
    ensures SelectTracks(stats, hasMM)[0].name == COPILOT
    ensures |SelectTracks(stats, hasMM)[0].subTracks| == 1
    ensures Badges(SelectTracks(stats, hasMM)[0].subTracks[0], hasMM)
      == [FulfillmentBadge(stats[COPILOT].fulfillment.value)]
  {
    var c := CopilotSubtrack(stats[COPILOT].fulfillment.value);
    assert SelectTracks(stats, hasMM)[0] == ActiveTrack(COPILOT, [c]);
    var b := Badges(c, hasMM);
    assert !HasRating(c);
    assert b == [FulfillmentBadge(stats[COPILOT].fulfillment.value)];
  }

  /** A rated marathon match record forced in by `hasMM` without any
      challenges shows the blank "No Rating" badge first; without `hasMM`
      it shows its rating. */
  lemma ForcedMarathonMatchRow(s: Subtrack)
    requires s.name == MARATHON_MATCH_NAME && HasRating(s) && !Truthy(s.challenges)
    ensures Badges(s, true)[0] == RatingBadge(None, "No Rating")
    ensures Badges(s, false)[0] == RatingBadge(s.rank.value.rating, "Rating")
  {
    assert Badges(s, true)[0].RatingBadge?;
    assert Badges(s, false)[0].RatingBadge?;
  }
}
