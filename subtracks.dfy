/** The statistics records of a member and the rules that decide whether a
    subtrack counts as active (index.jsx, isActiveSubtrack and isHidden). */
module Subtracks {
  import opened Options

  /** The keys of the statistics object that the component looks at. */
  datatype Track = COPILOT | DEVELOP | DESIGN | DATA_SCIENCE

  /** `rank`: an object whose `rating` may be undefined. */
  datatype Rank = Rank(rating: Option<int>)

  /** `submissions`: undefined, a plain number, or an object whose own
      `submissions` field may be undefined. */
  datatype Submissions =
    | NoSubmissions
    | Count(count: int)
    | Nested(submissions: Option<int>)

  /** One subtrack record. `active` is the flag the selector adds; a record
      that never received it has `active == false`. */
  datatype Subtrack = Subtrack(
    name: string,
    rank: Option<Rank>,
    submissions: Submissions,
    wins: Option<int>,
    challenges: Option<int>,
    fulfillment: Option<int>,
    active: bool)

  const COPILOT_POSTING: string := "COPILOT_POSTING"
  const DEVELOP_MARATHON_MATCH: string := "DEVELOP_MARATHON_MATCH"
  const SRM_NAME: string := "SRM"
  const MARATHON_MATCH_NAME: string := "MARATHON MATCH"

  /** The record has a rank whose rating is defined and positive. */
  predicate HasPositiveRating(s: Subtrack) {
    s.rank.Some? && s.rank.value.rating.Some? && s.rank.value.rating.value > 0
  }

  /** isActiveSubtrack: copilot postings never count; a positive rating
      does; otherwise the submission count decides, whether it is a plain
      number or nested one level down. */
  predicate IsActiveSubtrack(s: Subtrack) {
    if s.name == COPILOT_POSTING then false
    else if HasPositiveRating(s) then true
    else match s.submissions
      case Count(n) => n > 0
      case Nested(inner) => inner.Some? && inner.value > 0
      case NoSubmissions => false
  }

  /** isHidden: exactly one subtrack name is suppressed. */
  predicate IsHidden(s: Subtrack) {
    s.name == DEVELOP_MARATHON_MATCH
  }

  /** The filter of the selector: active and not hidden, or the marathon
      match entry when the `hasMM` flag forces it. */
  function Kept(s: Subtrack, hasMM: bool): (kept: bool)
    ensures s.name == COPILOT_POSTING ==> !kept
    ensures s.name == DEVELOP_MARATHON_MATCH ==> !kept
    ensures hasMM && s.name == MARATHON_MATCH_NAME ==> kept
    ensures !hasMM ==> (kept <==> IsActiveSubtrack(s) && !IsHidden(s))
  {
    (IsActiveSubtrack(s) && !IsHidden(s)) || (s.name == MARATHON_MATCH_NAME && hasMM)
  }

  /** The activity rule written as a disjunction of evidence, one disjunct
      per way a member can be active; it agrees with the early-return chain
      of IsActiveSubtrack on every record. */
  lemma ActivityByEvidence(s: Subtrack)
    ensures IsActiveSubtrack(s) <==>
      s.name != COPILOT_POSTING &&
      (HasPositiveRating(s)
       || (s.submissions.Count? && s.submissions.count > 0)
       || (s.submissions.Nested? && s.submissions.submissions.Some? && s.submissions.submissions.value > 0))
  {
  }

  /** The `active` flag plays no part in the filter, so marking a kept
      record keeps it kept. */
  lemma KeptIgnoresActiveFlag(s: Subtrack, hasMM: bool, flag: bool)
    ensures Kept(s.(active := flag), hasMM) == Kept(s, hasMM)
  {
  }
}
