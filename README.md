# StatsCategory in Dafny

This project models the active-track selector of the StatsCategory profile
component (`src/shared/components/ProfilePage/StatsCategory/index.jsx`) and the
small pure rules its `render` uses.

Given a member's statistics object, `getActiveTracks` builds the list of tracks
to show:

- COPILOT comes first, when its fulfillment is truthy. Its one subtrack carries that fulfillment.
- Then DEVELOP, DESIGN and DATA_SCIENCE follow, in that fixed order.
- Each walked track filters its `subTracks` list, with its SRM and MARATHON_MATCH records appended.
- The filter keeps a subtrack that is active and not hidden, or the marathon match entry when `hasMM` forces it.
- The filter marks each kept subtrack `active` and sorts them stably, descending by wins and then by rating.
- A track that keeps nothing is dropped.

The appending happens in place: when a track has a `subTracks` array, the
records are pushed onto the caller's own array, so every call grows the input.

The files:

- `options.dfy`: optional values for JavaScript fields that may be undefined, and JavaScript truthiness of numbers.
- `subtracks.dfy`: the subtrack record, `isActiveSubtrack`, `isHidden` and the filter condition `Kept`.
- `string_rules.dfy`: `String.prototype.replace` with a string pattern (first occurrence only), `indexOf`, and the global one-character replace `/_/g`.
- `ordering.dfy`: the two-key descending stable sort standing for `_.orderBy`. It is an insertion sort, proved ordered, a permutation and stable. It is also proved to be the only list with those three properties.
- `selector.dfy`: `SelectTracks`, the result of `getActiveTracks` as a function of the value of the statistics object, with the properties of that result.
- `stats_category.dfy`: `getActiveTracks` as the source runs it.
  - A `SubtrackArray` class stands for a JavaScript array shared by reference.
  - `GetActiveTracks` uses the source's two loops and pushes onto the caller's arrays.
  - It is proved to return `SelectTracks` of the input as it was on entry.
  - It is proved to leave every walked track's existing array grown by that track's SRM and marathon match records.
- `render.dfy`: TRACK_NAMES, the link of a subtrack row, its label, and the choice between the Rating, Wins and Fulfillment badges.
- `examples_selector.dfy`: worked instances of the selector.

`hasMM` is a parameter of every member that reads it, as the prop is.

## Model

| member | source | states |
|---|---|---|
| Subtracks.Kept | src/shared/components/ProfilePage/StatsCategory/index.jsx:90-94 | COPILOT_POSTING and DEVELOP_MARATHON_MATCH are never kept. With `hasMM`, MARATHON MATCH is always kept. Without `hasMM`, kept exactly when active and not hidden. |
| Subtracks.ActivityByEvidence | src/shared/components/ProfilePage/StatsCategory/index.jsx:32-43 | The early-return chain of isActiveSubtrack equals a disjunction. The name must not be COPILOT_POSTING, and the record needs a defined rating > 0, a numeric submissions > 0, or a nested submissions > 0. |
| Subtracks.KeptIgnoresActiveFlag | src/shared/components/ProfilePage/StatsCategory/index.jsx:91-92 | The `active` flag added to kept records plays no part in the filter. |
| StringRules.IndexFrom | src/shared/components/ProfilePage/StatsCategory/index.jsx:135 | The result is -1 or an occurrence at or after `from`, and no occurrence lies between `from` and the result. |
| StringRules.IndexOf | src/shared/components/ProfilePage/StatsCategory/index.jsx:135 | -1 exactly when the pattern never occurs; otherwise the first occurrence. |
| StringRules.ReplaceFirst | src/shared/components/ProfilePage/StatsCategory/index.jsx:143 | `replace` with a string pattern. With no occurrence the string is unchanged; otherwise only the first occurrence is rewritten. |
| StringRules.ReplaceChar | src/shared/components/ProfilePage/StatsCategory/index.jsx:143 | `replace(/c/g, d)`: same length, every `c` becomes `d`, every other character stays, and no `c` is left. |
| StringRules.OccursAtChar | src/shared/components/ProfilePage/StatsCategory/index.jsx:135 | A one-character pattern occurs at `k` exactly when that character is at `k`. |
| Ordering.Insert | src/shared/components/ProfilePage/StatsCategory/index.jsx:96-99 | Inserting one record adds exactly one element. |
| Ordering.InsertPermutes | src/shared/components/ProfilePage/StatsCategory/index.jsx:96-99 | Insertion adds exactly the inserted record to the multiset. |
| Ordering.InsertKeepsOrder | src/shared/components/ProfilePage/StatsCategory/index.jsx:96-99 | Inserting into an ordered list gives an ordered list. |
| Ordering.InsertWithKey | src/shared/components/ProfilePage/StatsCategory/index.jsx:96-99 | The inserted record goes in front of the records with its own keys, and every other key's subsequence is untouched. |
| Ordering.SortByWinsRating | src/shared/components/ProfilePage/StatsCategory/index.jsx:96-99 | The result is a permutation of the input and ordered by (wins, rating) descending. It is stable: records with equal keys keep their input order. |
| Ordering.OrderedByWinsThenRating | src/shared/components/ProfilePage/StatsCategory/index.jsx:96-99 | In an ordered list, defined wins never increase. Among equal wins, defined ratings never increase, with the rating key 0 when `rank` is missing. |
| Ordering.NeitherAheadMeansSameKey | src/shared/components/ProfilePage/StatsCategory/index.jsx:96-99 | Two records, neither ahead of the other, have equal sort keys. |
| Ordering.NotAheadTransitive | src/shared/components/ProfilePage/StatsCategory/index.jsx:96-99 | "Not ahead" is transitive, so the comparator is a strict weak order. |
| Ordering.OrderedDeterminedByKeys | src/shared/components/ProfilePage/StatsCategory/index.jsx:96-99 | Two ordered lists with the same per-key subsequences are equal. |
| Ordering.StableSortIsUnique | src/shared/components/ProfilePage/StatsCategory/index.jsx:96-99 | Every ordered list with the input's per-key subsequences is SortByWinsRating of the input. Any stable sort on these keys therefore gives the same result. |
| Selector.KeepActive | src/shared/components/ProfilePage/StatsCategory/index.jsx:90-94 | Every kept record is marked active and passes the filter, and comes from a record of the input. Every input record that passes is kept, marked. |
| Selector.KeepActiveDistributes | src/shared/components/ProfilePage/StatsCategory/index.jsx:90-94 | The filter goes record by record in order: filtering `a + b` is filtering `a` followed by filtering `b`. |
| Selector.TracksInFixedOrder | src/shared/components/ProfilePage/StatsCategory/index.jsx:69-100 | The result lists COPILOT, DEVELOP, DESIGN, DATA_SCIENCE in that order, each at most once. |
| Selector.WalkedRanked | src/shared/components/ProfilePage/StatsCategory/index.jsx:79-102 | After `n` walked tracks, the entries are in walk order and named after those `n` tracks only. |
| Selector.TrackShownIffSomethingKept | src/shared/components/ProfilePage/StatsCategory/index.jsx:95-100 | A walked track is listed if and only if some record of `subTracks ++ [SRM] ++ [MARATHON MATCH]` passes the filter. |
| Selector.CopilotShownIffFulfillment | src/shared/components/ProfilePage/StatsCategory/index.jsx:69-77 | COPILOT is listed if and only if its fulfillment is truthy (0 or undefined leaves it out). It then comes first, with one subtrack named COPILOT carrying that fulfillment. |
| Selector.WalkedTrackContents | src/shared/components/ProfilePage/StatsCategory/index.jsx:81-100 | A listed walked track is non-empty. Its subtracks are the kept records, marked active, in the order of a stable sort by wins and then rating. |
| Selector.SuppressedNamesNeverShown | src/shared/components/ProfilePage/StatsCategory/index.jsx:32-57 | No listed subtrack is named DEVELOP_MARATHON_MATCH or COPILOT_POSTING, whatever `hasMM` is. |
| Selector.MarathonMatchForced | src/shared/components/ProfilePage/StatsCategory/index.jsx:86-94 | With `hasMM`, a walked track that has a MARATHON_MATCH record is listed, and lists a MARATHON MATCH subtrack. |
| StatsCategory.SubtrackArray.Push | src/shared/components/ProfilePage/StatsCategory/index.jsx:84 | `push` appends one record to the shared array and changes nothing else. |
| StatsCategory.GatherSubtracks | src/shared/components/ProfilePage/StatsCategory/index.jsx:81-88 | The list to filter is the track's own array when it has one, else a fresh one. It holds the candidates of the record as it was. The track's record afterwards reads as Grown of its old value. |
| StatsCategory.FilterActive | src/shared/components/ProfilePage/StatsCategory/index.jsx:90-94 | The push loop computes KeepActive of the list. |
| StatsCategory.CollectTrack | src/shared/components/ProfilePage/StatsCategory/index.jsx:79-101 | One turn of the walk returns the track's entry, computed from the record as it was on entry, and grows the record. |
| StatsCategory.WalkTrack | src/shared/components/ProfilePage/StatsCategory/index.jsx:79-102 | One turn grows the next walked track. The tracks already walked stay grown, and all others stay as on entry. |
| StatsCategory.WalkTracks | src/shared/components/ProfilePage/StatsCategory/index.jsx:79-102 | The walk returns the walked tracks' entries of the input as it was on entry. Every walked track is then grown and COPILOT is untouched. |
| StatsCategory.GetActiveTracks | src/shared/components/ProfilePage/StatsCategory/index.jsx:60-105 | The result is SelectTracks of the input as it was on entry. Afterwards the input reads as GrowWalked of its old value: each walked track's existing `subTracks` array holds its SRM and marathon match records at its end. |
| StatsCategory.GrownEverywhere | src/shared/components/ProfilePage/StatsCategory/index.jsx:79-102 | The per-track facts the walk leaves behind amount to the whole object reading as GrowWalked of its old value. |
| StatsCategory.RepeatedCallSeesRecordsAgain | src/shared/components/ProfilePage/StatsCategory/index.jsx:81-88 | After one call, a walked track with an existing array offers its SRM and marathon match records a second time to the next call. |
| StatsCategory.OnlyFirstRecordMatters | src/shared/components/ProfilePage/StatsCategory/index.jsx:63-66 | When the prop is an array, only its first element is used. |
| Render.DisplayNamesDistinct | src/shared/components/ProfilePage/StatsCategory/index.jsx:18-23 | Different tracks have different headings. |
| Render.DisplayNameFromKey | src/shared/components/ProfilePage/StatsCategory/index.jsx:18-23 | Each heading is its key with the underscore as a space, except DEVELOP, which is shown as DEVELOPMENT. |
| Render.LinkSubTrack | src/shared/components/ProfilePage/StatsCategory/index.jsx:135 | The `subTrack` value has the name's length. It differs from the name only at the first space, which becomes `_`. |
| Render.LinkKeepsLaterSpaces | src/shared/components/ProfilePage/StatsCategory/index.jsx:135 | Spaces after the first one stay in the link value. |
| Render.LinkWithoutSpace | src/shared/components/ProfilePage/StatsCategory/index.jsx:135 | A name without spaces is its own link value. |
| Render.LinkOfTwoWords | src/shared/components/ProfilePage/StatsCategory/index.jsx:135 | Two space-free words joined by a space are linked joined by `_`, as MARATHON MATCH becomes MARATHON_MATCH. |
| Render.LinkSpaceIffTwoSpaces | src/shared/components/ProfilePage/StatsCategory/index.jsx:135 | The `subTrack` value contains a space exactly when the name has two or more spaces. |
| Render.PrefixSpace | src/shared/components/ProfilePage/StatsCategory/index.jsx:135 | The link's path up to the `subTrack` value contains a space exactly when the handle does. |
| Render.LinkTarget | src/shared/components/ProfilePage/StatsCategory/index.jsx:135 | The link is the member's details page for the track, and its last query value is the `subTrack` value. The link has no space exactly when the handle has none and the name has at most one. |
| Render.SpacedConcat | src/shared/components/ProfilePage/StatsCategory/index.jsx:143 | The global underscore replacement distributes over concatenation. |
| Render.NoUnderscoreUnchanged | src/shared/components/ProfilePage/StatsCategory/index.jsx:143 | Replacing underscores leaves a string without any unchanged. |
| Render.MissingCharNoOccurrence | src/shared/components/ProfilePage/StatsCategory/index.jsx:143 | A pattern containing a character the string lacks never occurs in it. |
| Render.Label | src/shared/components/ProfilePage/StatsCategory/index.jsx:143 | The label has no `_` and is no longer than the name. Without FIRST_2_FINISH, it is the name with every `_` as a space. |
| Render.LabelAtFirst2Finish | src/shared/components/ProfilePage/StatsCategory/index.jsx:143 | With FIRST_2_FINISH first at `k`: the part before it with spaces, then FIRST2FINISH, then the rest with spaces. |
| Render.LabelOfFirst2Finish | src/shared/components/ProfilePage/StatsCategory/index.jsx:143 | FIRST_2_FINISH is labelled FIRST2FINISH. |
| Render.SpacingFirstWouldMissTheRewrite | src/shared/components/ProfilePage/StatsCategory/index.jsx:143 | The order of the two replacements matters: replacing underscores first leaves nothing for the FIRST_2_FINISH rewrite to match. |
| Render.LabelOfBugHunt | src/shared/components/ProfilePage/StatsCategory/index.jsx:143 | BUG_HUNT is labelled BUG HUNT. |
| Render.LabelOfMarathonMatch | src/shared/components/ProfilePage/StatsCategory/index.jsx:143 | MARATHON MATCH keeps its name as its label. |
| Render.Badges | src/shared/components/ProfilePage/StatsCategory/index.jsx:146-186 | A row shows one or two badges. Rating exactly when `rank.rating` is defined, blanked as "No Rating" on a forced marathon match row without challenges. Wins (undefined as 0) exactly when there is no rating and no truthy fulfillment. Fulfillment exactly when it is truthy. |
| Render.BadgeExclusions | src/shared/components/ProfilePage/StatsCategory/index.jsx:146-172 | A row never shows both a rating and a wins count. The "No Rating" badge appears only with `hasMM`, on MARATHON MATCH, when challenges are falsy. |
| Render.CopilotRowShowsFulfillment | src/shared/components/ProfilePage/StatsCategory/index.jsx:69-77 | The copilot entry renders as one row with the single badge Fulfillment(fulfillment). |
| Render.ForcedMarathonMatchRow | src/shared/components/ProfilePage/StatsCategory/index.jsx:146-158 | A rated MARATHON MATCH without challenges shows "No Rating" with `hasMM` and its rating without. |
| SelectorExamples.DevelopTieBrokenByRating | src/shared/components/ProfilePage/StatsCategory/index.jsx:96-100 | CODE (3 wins, rating 1200) and F2F (3 wins, rating 1500) under DEVELOP give one DEVELOP entry listing F2F, then CODE, both active. |
| SelectorExamples.EmptyStatsShowNothing | src/shared/components/ProfilePage/StatsCategory/index.jsx:67-104 | An empty statistics object gives an empty list. |
| SelectorExamples.NestedSubmissionsDecide | src/shared/components/ProfilePage/StatsCategory/index.jsx:42 | A nested submissions count of 0 excludes a subtrack, and 2 includes it. |

## Left out

- React rendering is left out: the JSX tree, the icons, the styles, the `inModal` font tweaks, element keys and the `first` style of the first row.
  - The heading suffix `ACTIVITY` (lines 127-129) is not modelled. Of the heading, only TRACK_NAMES is.
  - Badges carry numbers. The `%` text formatting of the fulfillment badge is not modelled.
- `getRatingColor` is a call into code that is not part of this model. The colour of a rating badge is not modelled.
- A subtrack whose fulfillment is 0 makes React print a literal `0`, because `subtrack.fulfillment && …` evaluates to 0. Render.Badges shows no fulfillment badge for it and does not model that stray text.
- Numbers are mathematical integers. NaN, fractions and numeric strings are outside the model, and so are names that are not strings.
- Ordering.SortByWinsRating: how `_.orderBy` places an undefined key is not visible in the source. The model puts an undefined wins or rating ahead of every number in the descending order, the way lodash orders undefined last in ascending order. Every other ordering fact holds whatever that choice is.
- StatsCategory.GetActiveTracks requires that no two tracks share one `subTracks` array, which is always so for data parsed from JSON. With a shared array, JavaScript would push the records of two tracks onto one list. The model does not describe that case.
- A `stats` prop that is undefined, or an array whose first element is undefined, is modelled as an empty statistics object. Every test in the source (`stats && …`) treats the two alike.
- A track value that is falsy is modelled as an absent key. Keys other than the four tracks are not modelled, because the source never reads them.
- A `subTracks` value that is falsy is modelled as undefined (`|| []`).
- Within a record, only the fields the component reads are modelled: name, rank, submissions, wins, challenges and fulfillment. The other fields are carried along unread by the spreads in the source.
- PropTypes checks and default props are not modelled. `hasMM` is an explicit parameter instead.
