# Review moderation dashboard — Dafny model

This project models the core of a small Next.js application. The application lets a property manager moderate guest reviews that come from Hostaway. It has three parts.

- **The reviews API route** (`pages/api/reviews/hostaway.ts`) takes the Hostaway records held in a shared mock snapshot and normalises each one into a canonical `Review`. It answers `GET` with the normalised list. It answers `PATCH {id, approved}` by setting the flag on the first record with that id, in place, and writing the whole snapshot back to its file.
- **The dashboard** (`pages/index.tsx`) works on the reviews the API returns:
  - it builds the option lists of its selects, with each value once, in order of first occurrence;
  - it narrows the list by the four filters in a fixed order;
  - it sorts the list by the chosen option;
  - it toggles a review's approval locally;
  - it computes per-property statistics (an average rating and an approved count).
- **The public property page** (`components/PropertyReviews.tsx`) shows the approved reviews of one property. When there are none it shows an empty-state message.

Files:

- `wrappers.dfy` holds `Option`.
- `seqs.dfy` holds `Select` (JavaScript's `Array.prototype.filter`) and `Distinct` (`Array.from(new Set(...))`), with their laws.
- `hostaway.dfy` models the API route:
  - the record types and the normalisation;
  - the specification functions `IndexOf` and `SetApproved` for the PATCH;
  - the class `MockStore`, which holds the shared snapshot as an array that the handler's methods update in place.
- `dashboard.dfy` models the dashboard:
  - the filter chain is a method that reassigns `filtered` once per switched-on select;
  - the sort is an in-place stable insertion sort on an array;
  - the other parts are functions.
- `property_reviews.dfy` models the property page.

How the model follows the code:

- **Invalid dates fail the whole request.** `new Date(submittedAt).toISOString()` throws on an unparseable date. It runs inside the `map` over the whole batch (hostaway.ts:91). So the whole request fails, and a PATCH is never applied. `Normalize` returns `None` for the batch in that case, and `MockStore.Handle` answers `ServerError`. Dropping only that one record would be the per-record behaviour, but the code does not do that.
- **Timestamps are integers.** `submittedAt` is the instant the date string parses to, in milliseconds, or `None` for an invalid date. `Review.date` is the same instant. The ISO string round-trips to it through `getTime()`.
- **Missing ratings count as zero in the average.** The average divides the sum of `rating ?? 0` by the number of all the property's reviews (index.tsx:84). So a review without a rating counts as 0 and lowers the average. `MissingRatingCountsAsZero` states this for the case of a rating of 9 plus a missing rating: the average is 4.5. The model follows the code. An average over present ratings only, which would give 9.0, is not what index.tsx computes.
- **A rating of 0 never passes the minimum-rating filter.** The filter's test is `r.rating && r.rating >= t`, so a rating of 0 fails it like a missing rating does (`ZeroRatingNeverPasses`).
- **A PATCH makes the stored flag explicit.** After a PATCH the raw record's `approved` is always present (`Some(v)`). Approving and then unapproving restores the raw record only when its flag was present before (`SetApprovedRestores`). It restores the normalised view whenever the effective flag `approved ?? false` was the final value (`NormalizedToggleTwice`).
- **The local toggle can disagree with the server when ids repeat.** The dashboard's local toggle updates every review with the id. The server updates only the first record with that id. The two agree when ids are distinct (`LocalToggleMatchesServer`), and differ for two records sharing an id (`LocalToggleDivergesOnSharedId`).
- **The sort is modelled by its key.** The comparator at index.tsx:63-68 is, for every option, the difference of an integer key (`CompareIsKeyDifference`). Any option that is not one of the named three sorts by date, newest first. `Array.prototype.sort` is stable, so the model states three things about the result:
  - it is sorted by the key;
  - for every key value, the subsequence of reviews with that key is unchanged (`SameKeyRuns`);
  - as a consequence, the result is a permutation of the input (`KeyRunsPermutation`).

## Model

| member | source | states |
|---|---|---|
| Seqs.Select | pages/index.tsx:57-60 | `Array.prototype.filter`: no longer than its input, holding exactly the input's elements that satisfy the test; order kept (`SelectIsSubseq`) |
| Seqs.Distinct | pages/index.tsx:50-52 | `Array.from(new Set(s))` has exactly the values of `s`, each once |
| Seqs.DistinctFirstSeen | pages/index.tsx:50-52 | the distinct values appear in the order of their first occurrence in `s` |
| Hostaway.CategoriesOf | pages/api/reviews/hostaway.ts:88 | `categories` is the record's `reviewCategory`, or `[]` when it is missing |
| Hostaway.DeriveRating | pages/api/reviews/hostaway.ts:87 | a present overall rating wins, zero included; otherwise the first category's rating; absent exactly when neither exists |
| Hostaway.NormalizeRecord | pages/api/reviews/hostaway.ts:83-94 | a record normalises exactly when its date parses; then every field is mapped: channel "Hostaway", date the parsed instant, `approved` true only when the raw flag is present and true |
| Hostaway.Normalize | pages/api/reviews/hostaway.ts:83-94 | the batch normalises exactly when every date parses; then the result has the same length and each element is the record at the same position, normalised |
| Hostaway.NormalizeFields | pages/api/reviews/hostaway.ts:84-93 | each normalised review carries the id, names, text, status, categories, rating and flag of the raw record at its position |
| Hostaway.IndexOf | pages/api/reviews/hostaway.ts:102 | `findIndex`: -1 exactly when no record has the id, otherwise the first position holding it |
| Hostaway.SetApproved | pages/api/reviews/hostaway.ts:102-104 | only the record at `IndexOf` changes, and only its `approved`, to the requested value; an unknown id changes nothing |
| Hostaway.IndexOfAfterSet | pages/api/reviews/hostaway.ts:102-104 | a PATCH moves no id's first position |
| Hostaway.SetApprovedIdempotent | pages/api/reviews/hostaway.ts:100-104 | repeating a PATCH changes nothing more |
| Hostaway.SetApprovedLastWins | pages/api/reviews/hostaway.ts:100-104 | of two PATCHes of the same id, the second decides |
| Hostaway.SetApprovedRestores | pages/api/reviews/hostaway.ts:100-104 | setting `!a` then `a` restores the snapshot exactly when the id is unknown or the record's flag was present and equal to `a` |
| Hostaway.NormalizeAfterSet | pages/api/reviews/hostaway.ts:83-104 | after a PATCH the batch still normalises, and the view differs only in the `approved` of the first record with the id |
| Hostaway.NormalizeSetUnchanged | pages/api/reviews/hostaway.ts:93 | a PATCH that sets the flag a record already has in effect (`approved ?? false`) leaves the normalised view as it was |
| Hostaway.NormalizedToggleTwice | pages/api/reviews/hostaway.ts:93-104 | PATCHing `!a` then `a` restores the normalised view whenever the record's effective flag (`approved ?? false`) was `a` |
| Hostaway.MockStore.constructor | pages/api/reviews/hostaway.ts:4-6 | the snapshot starts as the file's contents, with nothing written |
| Hostaway.MockStore.FindIndex | pages/api/reviews/hostaway.ts:102 | the scan returns the first index holding the id, or -1, and agrees with `IndexOf` |
| Hostaway.MockStore.SetApprovedInPlace | pages/api/reviews/hostaway.ts:100-111 | the array in place becomes `SetApproved` of its old contents; the file is rewritten with the new contents exactly when the id was found |
| Hostaway.MockStore.Handle | pages/api/reviews/hostaway.ts:82-113 | an invalid date fails the request with no change; GET answers the normalised snapshot; PATCH applies `SetApproved` and answers success even for an unknown id; other methods get no reply |
| Dashboard.CategoryColumn | pages/index.tsx:51 | the `flatMap` holds exactly the category names that occur in some review |
| Dashboard.Properties | pages/index.tsx:50 | the property options are duplicate-free and are exactly the properties that occur |
| Dashboard.Categories | pages/index.tsx:51 | the category options are duplicate-free and are exactly the category names that occur |
| Dashboard.Channels | pages/index.tsx:52 | the channel options are duplicate-free and are exactly the channels that occur |
| Dashboard.OptionsFirstSeen | pages/index.tsx:50-52 | each option list is in order of first occurrence, not sorted |
| Dashboard.HostawayChannelsOnly | pages/index.tsx:52 | a non-empty normalised batch offers exactly one channel, "Hostaway" |
| Dashboard.Matches | pages/index.tsx:57-60 | definition of the four filter tests (property, `r.rating && r.rating >= t`, `categories.some`, channel); meaning stated by `PassesMeaning` and `ZeroRatingNeverPasses` |
| Dashboard.PassesMeaning | pages/index.tsx:57-60 | a review is shown exactly when it passes every switched-on select ("All" or no rating passes everything) |
| Dashboard.Narrow | pages/index.tsx:57-60 | each `if (...) filtered = filtered.filter(...)` step narrows the reviews passing the first n selects to those passing n + 1 |
| Dashboard.FilterChain | pages/index.tsx:56-60 | the four steps in the code's order keep exactly the reviews that pass every select, in their original order |
| Dashboard.ApplyFilters | pages/index.tsx:56-60 | the chain that reassigns `filtered` yields the reviews passing every select, in order |
| Dashboard.FiltersCommute | pages/index.tsx:57-60 | any two filters give the same list in either order |
| Dashboard.NoFilterKeepsAll | pages/index.tsx:56-60 | with every select on "All", nothing is filtered out |
| Dashboard.ZeroRatingNeverPasses | pages/index.tsx:58 | a review rated 0 fails every rating filter |
| Dashboard.OrderOf | pages/index.tsx:64-67 | definition of the `sortOption` dispatch, with every unknown option falling to date newest first; meaning stated by `SortedMeaning` |
| Dashboard.Compare | pages/index.tsx:63-68 | definition of the comparator, `rating ?? 0` and timestamp differences; meaning stated by `CompareIsKeyDifference` |
| Dashboard.CompareIsKeyDifference | pages/index.tsx:63-68 | the comparator is the difference of the option's sort keys |
| Dashboard.SortedMeaning | pages/index.tsx:63-68 | a sorted list has the comparator ≤ 0 for every pair in order: rating high to low, rating low to high, date old to new, and date new to old for any other option |
| Dashboard.KeyRunsPermutation | pages/index.tsx:63 | a reordering that keeps every run of equal keys is a permutation |
| Dashboard.SortInPlace | pages/index.tsx:63-68 | the array ends sorted by the key, and every run of equal keys keeps its members and their relative order (stability) |
| Dashboard.Query | pages/index.tsx:55-71 | the visible list is a permutation of the filtered reviews, sorted by the option, with equal keys in their original relative order |
| Dashboard.ToggleApprove | pages/index.tsx:79 | the local update keeps the length and the id at every position |
| Dashboard.ToggleApproveEffect | pages/index.tsx:79 | reviews with the id carry `!approved`; all others are unchanged |
| Dashboard.ToggleTwiceRestores | pages/index.tsx:79 | pressing the button twice restores the list |
| Dashboard.LocalToggleDivergesOnSharedId | pages/index.tsx:79 | two records sharing an id: after the PATCH the server's view differs from the dashboard's local update, which flips both |
| Dashboard.LocalToggleMatchesServer | pages/index.tsx:73-79 | with distinct ids, the local update equals the normalised snapshot after the PATCH the button sends |
| Dashboard.RatingTotal | pages/index.tsx:84 | definition of the `reduce` summing `rating ?? 0`; meaning stated by `AverageBounds` and `MissingRatingCountsAsZero` |
| Dashboard.Average | pages/index.tsx:84 | definition of the division by `propReviews.length \|\| 1`; meaning stated by `StatOf` and `AverageBounds` |
| Dashboard.StatOf | pages/index.tsx:83-86 | a property's average is the total of `rating ?? 0` over all its reviews divided by their number, and 0 when it has none; its approved count is exactly the number of its reviews that are approved |
| Dashboard.GroupNonEmpty | pages/index.tsx:84 | a property in the option list has at least one review, so the fallback divisor of 1 is never used |
| Dashboard.PropertyStats | pages/index.tsx:82-87 | one entry per property option, in the same order, each with a non-zero divisor, the average above and the exact number of approved reviews of that property |
| Dashboard.MissingRatingCountsAsZero | pages/index.tsx:84 | ratings 9 and missing for one property average to 4.5 |
| Dashboard.AverageBounds | pages/index.tsx:84 | an average lies between the smallest and the largest `rating ?? 0` it averages |
| PropertyReviews.ApprovedFor | components/PropertyReviews.tsx:20-22 | the page keeps exactly the reviews of its property that are approved |
| PropertyReviews.ApprovedForIsSubseq | components/PropertyReviews.tsx:20-22 | it keeps them in the API's order, unaltered |
| PropertyReviews.ApprovedForIdempotent | components/PropertyReviews.tsx:20-22 | filtering the kept list again changes nothing |
| PropertyReviews.Render | components/PropertyReviews.tsx:27-33 | definition of the branch between the empty-state message and the cards; meaning stated by `EmptyStateMeaning` |
| PropertyReviews.EmptyStateMeaning | components/PropertyReviews.tsx:27-33 | "No approved reviews yet." appears exactly when no review of the property is approved |
| PropertyReviews.ApprovedCountMatches | pages/index.tsx:85 | the dashboard's approved count for a property equals the number of reviews the property page shows |
| PropertyReviews.StatsCountMatches | pages/index.tsx:82-87 | the same equality holds for every entry of the dashboard's statistics |
| PropertyReviews.ApproveShows | components/PropertyReviews.tsx:20-22 | after a PATCH that approves, the page loses no review it showed and shows the approved record when it belongs to the property |
| PropertyReviews.UnapproveHides | components/PropertyReviews.tsx:20-22 | after a PATCH that unapproves, the page gains no review and no longer shows that record |

## Left out

- The Hostaway access-token and review requests (hostaway.ts:48-80) are not modelled. These are network calls. Their results are discarded and the snapshot is used on success and failure alike, so the model starts from the snapshot.
- The file system write (hostaway.ts:106-109) is the `file` field of `MockStore`, plus a count of writes. JSON serialisation and its formatting are not modelled.
- Date parsing and ISO formatting are not modelled. A date is an abstract instant in milliseconds, or absent when unparseable. `toLocaleDateString` on the page is display only.
- `averageRating.toFixed(1)` and the chart data are not modelled. The model keeps the exact real average. Rounding to one decimal is display formatting.
- Ratings are integers. JSON numbers may be fractional, which the model does not cover.
- React state, effects, rendering and the `fetch` calls between the components and the route are not modelled. The dashboard's `withApproved` copy is the identity on values.
- Concurrent requests on the shared snapshot are not modelled. Each `Handle` call runs alone.
- `GoogleReviews`, `PropertyMap` and the Google reviews route are not part of this model.
- Dashboard.ToggleApprove: its own contract states only length and ids. The effect on each review is stated by `ToggleApproveEffect`.
- Dashboard.SortInPlace: its contract states the sorted order and stability, not the permutation. The permutation follows from stability by `KeyRunsPermutation`, which `Query` applies.
