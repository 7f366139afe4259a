# SkillSwap matching and profile model

This Dafny project models the core of SkillSwap, a skill-exchange web
application, and proves properties of the model. SkillSwap users list the
skills they can teach and the skills they want to learn, and declare weekly
availability slots. The application then ranks the other users as candidate
partners.

The model covers:

- **The match scorer** (`lib/matching/algorithm.ts`), in modules `Schedule`,
  `AvailabilityOverlap`, `OverlapBound` and `Matching`. The scorer does four things:
  - it drops the focal user from the pool, by id;
  - it scores each remaining candidate: 70% skill complementarity and 30% availability overlap;
  - it drops candidates whose score is zero;
  - it sorts the rest by score, highest first.

  The overlap is computed day by day over the seven weekday names and summed
  over pairs of slots. It is an imperative method, `CalculateAvailabilityOverlap`,
  whose nested `forEach` callbacks are the methods `AddDayOverlap` and
  `AddRowOverlap`. That method is proved equal to a pairwise
  reference definition (`OverlapPercent`), and the ranking is stated in terms
  of that definition.
- **The profile form** (`components/dashboard/profile-form.tsx`), in modules
  `ProfileSchema` and `ProfileEditing`. The form is a class holding the field
  values and the two pending skill inputs. Its methods add and remove skills
  and add, remove and edit availability slots. Each method is tied to a pure
  function of the old state, and the lemmas are stated about those functions.
  The zod schema is `ProfileSchema.Validate`.
- **The profile completion meter** (`components/dashboard/profile-completion.tsx`),
  in module `ProfileCompletion`. It has four completion rules, a completed-step
  count and a rounded percentage.
- **The stored documents** (`lib/db/models/user.ts`, `lib/db/models/match.ts`),
  in modules `UserModel` and `MatchModel`. These cover:
  - the user shape and its defaults;
  - the five-entry `arrayLimit` validator;
  - the required slot paths;
  - the match status enumeration and its default;
  - the required score;
  - the pre-save hook that allows only exactly two users.

Scores are Dafny `real`s, which are exact rationals. The code applies only
`+`, `*`, `/`, `min` and `max` to integers, so the 0.7 and 0.3 weights and
every percentage are exact. Times are "HH:MM" strings of two digits, a colon
and two digits, read as `hours * 60 + minutes`.

To check the proofs, run `dafny verify *.dfy` (Dafny 4.11) in this directory.

Three properties one might expect do not hold of the code as written:

- **The overlap bound.** `availabilityOverlap` is commented as a percentage of overlap (lib/matching/algorithm.ts:10), so it might be expected to lie in [0, 100]. It does not in general. The code double-counts a schedule's self-overlapping slots, and a backward slot (end before start) shrinks the denominator. The bound is proved for schedules whose slots are all ordered and in which no two same-day slots of one schedule share a minute (`OverlapBound.OverlapPercentAtMostHundred`), and it can fail otherwise: two concrete schedules reach 200 and 800 (`DoubleBookedSlotGives200`, `BackwardSlotGives800`). The model keeps the code's behaviour.
- **The skill bound.** The skill score is commented as out of 100 (lib/matching/algorithm.ts:27). A teach skill listed twice is matched twice against a bound of one, so the score reaches 200 (`Matching.DuplicateTeachSkillGives200`). The bound holds for duplicate-free teach lists (`Matching.SkillScoreAtMostHundred`). With both hypotheses the match score lies in [0, 100] (`Matching.MatchScoreWithinHundred`).
- **The one-way case.** Suppose A teaches Python, B wants Python, and nothing else is listed. One might expect the normalising bound to be 0 and B to be dropped. The code computes the bound as min(1, 1) + min(0, 0) = 1, a skill score of 100 and a match score of 70, so B is kept (`Matching.OneWayMatchIsKept`).

## Model

| member | source | states |
|---|---|---|
| `UserModel.SkillIssuesExact` | lib/db/models/user.ts:34-43 | both skill lists are checked by `arrayLimit`; the document passes iff each has at most 5 entries, and a list's message `'<path> exceeds the limit of 5'` is reported exactly when that list is too long |
| `UserModel.ArrayLimit` | lib/db/models/user.ts:41-43 | the validator accepts a skill list iff it has at most 5 entries |
| `UserModel.SixTeachSkillsRejected` | lib/db/models/user.ts:34 | six teach skills are refused with the message `teachSkills exceeds the limit of 5` |
| `UserModel.CastSlot` | lib/db/models/user.ts:23-27 | a submitted slot is accepted iff day, startTime and endTime are all present and non-empty; it is then stored unchanged; otherwise every missing path, and only those, is reported |
| `UserModel.NewUser` | lib/db/models/user.ts:34-38 | a new user keeps its given identity fields, gets empty skill lists, no availability, an empty bio and `profileCompleted` false, and passes the skill validators |
| `MatchModel.ParseStatus` | lib/db/models/match.ts:15-17 | the enum accepts exactly the four status names, and an accepted string is the name of the status it parses to |
| `MatchModel.ParseStatusInvertsName` | lib/db/models/match.ts:15-17 | parsing a status's name gives the status back |
| `MatchModel.Save` | lib/db/models/match.ts:13-28 | a saved match holds exactly two users, the users given and the score given |
| `MatchModel.SaveGuardsUserCount` | lib/db/models/match.ts:23-28 | once validation passes, save fails iff the user list does not have length 2, with that count as the error; otherwise the record is the draft with its status defaulted |
| `MatchModel.SaveDefaultsToPending` | lib/db/models/match.ts:14-19 | a stored match always had a score; a missing status is stored as `pending` and a given one as the status it names |
| `MatchModel.SaveRejectsInvalid` | lib/db/models/match.ts:14-17 | a draft without a score, or with a status outside the enum, is refused by validation and the failing validator is reported |
| `Schedule.TimeToMinutes` | lib/matching/algorithm.ts:106-109 | a well-formed time converts to a natural number of minutes, at most 99 * 60 + 99 |
| `Schedule.TimeToMinutesOfFormat` | lib/matching/algorithm.ts:106-109 | reading a formatted "HH:MM" gives `HH * 60 + MM` back; the two fields are read exactly |
| `Schedule.FormatOfTimeFields` | lib/matching/algorithm.ts:106-109 | formatting the fields read from a time gives the original string back |
| `Schedule.TimeToMinutesInjective` | lib/matching/algorithm.ts:106-109 | on clock times (minute field below 60), equal minute counts mean equal strings |
| `Schedule.TotalAvailableMinutes` | lib/matching/algorithm.ts:111-117 | the declared total of a schedule lies within 6039 minutes per slot either way, negative totals included |
| `Schedule.TotalAppend` | lib/matching/algorithm.ts:111-117 | the total of two schedules laid end to end is the sum of their totals |
| `Schedule.TotalIgnoresDays` | lib/matching/algorithm.ts:111-117 | the total depends only on the times, not on the day names |
| `Schedule.TotalOfOrdered` | lib/matching/algorithm.ts:111-117 | when no slot ends before it starts, the total is not negative and at least any one slot's length |
| `Schedule.BackwardSlotGivesNegativeTotal` | lib/matching/algorithm.ts:111-117 | nothing guards against backward slots: Monday 17:00 to 09:00 totals -480 minutes |
| `AvailabilityOverlap.Intersection` | lib/matching/algorithm.ts:88-93 | two slots' intersection is positive iff both ranges are non-empty and each starts before the other ends, and it is at most either slot's length |
| `AvailabilityOverlap.PairOverlap` | lib/matching/algorithm.ts:70-93 | a pair of slots adds at most its intersection, and adds something only when both carry the same listed weekday name |
| `AvailabilityOverlap.OverlapMinutes` | lib/matching/algorithm.ts:73-96 | the pairwise sum of overlaps is 0 when either schedule is empty |
| `AvailabilityOverlap.SlotsOn` | lib/matching/algorithm.ts:75-76 | the day filter keeps only slots of the input with exactly that day name |
| `AvailabilityOverlap.SlotsOnCount` | lib/matching/algorithm.ts:75-76 | each slot with that day name is kept as often as it occurs in the input, and no other slot is kept |
| `AvailabilityOverlap.SlotsOnSubsequence` | lib/matching/algorithm.ts:75-76 | the kept slots keep their input order |
| `AvailabilityOverlap.OverlapPercent` | lib/matching/algorithm.ts:61-104 | the reference overlap percentage (0 on an empty schedule or a non-positive smaller total, else pairwise overlap over the smaller total times 100) is never negative |
| `AvailabilityOverlap.CalculateAvailabilityOverlap` | lib/matching/algorithm.ts:61-104 | the nested day, slot and slot loop with its running total returns exactly the reference percentage |
| `AvailabilityOverlap.AddDayOverlap` | lib/matching/algorithm.ts:79-95 | the loop over one day's first-user slots adds exactly the intersections of every pair of that day's slots |
| `AvailabilityOverlap.AddRowOverlap` | lib/matching/algorithm.ts:80-94 | the loop over the second user's slots adds exactly the positive intersections with one slot |
| `AvailabilityOverlap.OverlapPercentOfTotal` | lib/matching/algorithm.ts:98-103 | the loop's final step, the summed minutes over the smaller total times 100 (0 when that total is not positive), is the reference percentage |
| `AvailabilityOverlap.WeekdaysDistinct` | lib/matching/algorithm.ts:70 | the seven day names are pairwise distinct, so no slot is counted under two days |
| `AvailabilityOverlap.DayBucketing` | lib/matching/algorithm.ts:70-96 | summing day-filtered pairs over the seven weekdays equals the sum over all pairs of slots with the same listed weekday |
| `AvailabilityOverlap.PairOverlapSymmetric` | lib/matching/algorithm.ts:88-93 | one pair's overlap does not depend on which slot is first |
| `AvailabilityOverlap.OverlapMinutesSymmetric` | lib/matching/algorithm.ts:73-96 | the overlapping minutes of two schedules do not depend on their order |
| `AvailabilityOverlap.OverlapPercentSymmetric` | lib/matching/algorithm.ts:61-104 | the overlap percentage is symmetric in its two schedules |
| `AvailabilityOverlap.OverlapPercentZero` | lib/matching/algorithm.ts:65-67 | an empty schedule on either side, or a smaller total that is not positive, gives 0 |
| `AvailabilityOverlap.OverlapMinutesPositive` | lib/matching/algorithm.ts:88-93 | the overlapping minutes are positive iff some pair of same-weekday slots shares a minute |
| `AvailabilityOverlap.OverlapPercentPositive` | lib/matching/algorithm.ts:98-103 | the percentage is positive iff the smaller total is positive and some minutes overlap |
| `OverlapBound.IntersectionCountsSharedMinutes` | lib/matching/algorithm.ts:88-93 | the intersection of two slots is the number of whole minutes both cover |
| `OverlapBound.RowOverlapAtMostDuration` | lib/matching/algorithm.ts:79-95 | an ordered slot overlaps a schedule without self-overlap by at most its own length |
| `OverlapBound.OverlapMinutesAtMostTotal` | lib/matching/algorithm.ts:73-100 | the overlapping minutes never exceed the total of an ordered schedule, against one without self-overlap |
| `OverlapBound.OverlapPercentAtMostHundred` | lib/matching/algorithm.ts:98-103 | for ordered schedules without self-overlap the percentage is in [0, 100] |
| `OverlapBound.DoubleBookedSlotGives200` | lib/matching/algorithm.ts:79-103 | two identical Monday hours against one are counted twice: the percentage is 200 |
| `OverlapBound.BackwardSlotGives800` | lib/matching/algorithm.ts:98-116 | a backward Tuesday slot shrinks the denominator to 60 against 480 overlapping minutes: the percentage is 800 |
| `Matching.KeepIn` | lib/matching/algorithm.ts:18-25 | the includes-filter is no longer than its input and keeps exactly the entries that occur in the other list |
| `Matching.KeepInCount` | lib/matching/algorithm.ts:18-25 | each kept skill occurs as often as in the input, and skills not in the other list not at all |
| `Matching.KeepInSubsequence` | lib/matching/algorithm.ts:18-25 | the kept skills keep their input order |
| `Matching.KeepInOfDistinct` | lib/matching/algorithm.ts:18-30 | from a duplicate-free list the kept skills are duplicate-free and at most as many as the other list holds |
| `Matching.SkillComplementScore` | lib/matching/algorithm.ts:27-36 | the skill score is never negative |
| `Matching.SkillScoreZero` | lib/matching/algorithm.ts:27-36 | the skill score is 0 iff neither user can teach the other anything the other wants |
| `Matching.SkillScoreAtMostHundred` | lib/matching/algorithm.ts:27-36 | with duplicate-free teach lists the skill score is in [0, 100], and is 100 iff the match count reaches the bound |
| `Matching.DuplicateTeachSkillGives200` | lib/matching/algorithm.ts:18-36 | a teach skill listed twice is matched twice against a bound of 1: the skill score is 200 |
| `Matching.Evaluate` | lib/matching/algorithm.ts:16-56 | a candidate's result carries its id, a non-negative score and overlap, and exactly the skills each side can teach that the other wants |
| `Matching.MatchScorePositive` | lib/matching/algorithm.ts:44-45 | a candidate's score is never negative, and is positive iff some skill is complementary or the overlap is positive |
| `Matching.MatchScoreAtMostHundred` | lib/matching/algorithm.ts:44-45 | the weighted score is in [0, 100] whenever both sub-scores are at most 100 |
| `Matching.MatchScoreWithinHundred` | lib/matching/algorithm.ts:27-45 | with duplicate-free teach lists and ordered schedules without self-overlap, the match score is in [0, 100] |
| `Matching.OtherUsers` | lib/matching/algorithm.ts:15 | the id filter keeps exactly the pool members whose id differs from the focal user's |
| `Matching.OtherUsersCount` | lib/matching/algorithm.ts:15 | each pool member whose id differs from the focal user's is kept as often as it occurs in the pool, and no other member is kept |
| `Matching.OtherUsersSubsequence` | lib/matching/algorithm.ts:15 | the kept pool members keep their pool order |
| `Matching.ScoreAll` | lib/matching/algorithm.ts:16-56 | the map scores each candidate, position by position |
| `Matching.Positive` | lib/matching/algorithm.ts:57 | the score filter keeps exactly the results with a positive score |
| `Matching.PositiveCount` | lib/matching/algorithm.ts:57 | each result with a positive score is kept as often as it occurs, and no other result is kept |
| `Matching.PositiveSubsequence` | lib/matching/algorithm.ts:57 | the kept results keep their order |
| `Matching.InsertPermutation` | lib/matching/algorithm.ts:58 | inserting a result adds exactly that one occurrence |
| `Matching.InsertSorted` | lib/matching/algorithm.ts:58 | inserting into a list sorted highest first keeps it sorted |
| `Matching.SortByScore` | lib/matching/algorithm.ts:58 | the sort returns a permutation of its input, non-increasing in score |
| `Matching.CalculateMatchesMembers` | lib/matching/algorithm.ts:13-59 | a result is returned iff it is the evaluation of some pool candidate other than the focal user, with a positive score |
| `Matching.CalculateMatchesInvariants` | lib/matching/algorithm.ts:15-57 | no result is the focal user and every score is positive |
| `Matching.CalculateMatches` | lib/matching/algorithm.ts:13-59 | the output is a permutation of the surviving scored candidates, sorted highest score first |
| `Matching.SurvivorsAreQualifying` | lib/matching/algorithm.ts:14-57 | filtering out the focal user, scoring and dropping zero scores is one pass over the pool that keeps, in pool order, each other candidate's evaluation when it is positive |
| `Matching.CalculateMatchesPerCandidate` | lib/matching/algorithm.ts:13-59 | there is exactly one result per pool entry that is not the focal user and scores positively, and no other result |
| `Matching.CalculateMatchesLength` | lib/matching/algorithm.ts:14-15 | there are no more results than candidates, and at least one fewer when the focal user is in the pool |
| `Matching.PerfectPairScoresHundred` | lib/matching/algorithm.ts:13-59 | two users who each teach what the other wants, with one identical Monday 09:00-17:00 slot, score 100 for skills, overlap and match |
| `Matching.OneWayMatchIsKept` | lib/matching/algorithm.ts:27-57 | a one-way match has bound 1, skill score 100 and match score 70, and is returned |
| `ProfileSchema.Utf16Length` | components/dashboard/profile-form.tsx:29-34 | a string's JavaScript length lies between its character count and twice that |
| `ProfileSchema.Utf16LengthOfBasicPlane` | components/dashboard/profile-form.tsx:29-34 | below U+10000 the JavaScript length is the character count |
| `ProfileSchema.OneEmojiIsTwoUnits` | components/dashboard/profile-form.tsx:29-31 | a one-emoji name has length 2 and so meets the two-character minimum |
| `ProfileSchema.Issues` | components/dashboard/profile-form.tsx:28-48 | no two issues on the same field, each on one of the four fields (so at most four), and none iff every field check passes |
| `ProfileSchema.Validate` | components/dashboard/profile-form.tsx:28-48 | the values pass iff the name has length at least 2, the bio at most 500, and each skill list at most 5 entries; passing values are returned unchanged; otherwise each field's message is reported exactly when that field fails |
| `ProfileSchema.ShortNameReportedOnName` | components/dashboard/profile-form.tsx:29-31 | a name shorter than two basic-plane characters is reported on the name field |
| `ProfileEditing.TrimStart` | components/dashboard/profile-form.tsx:153 | leading trimming drops only white space and leaves a suffix that is empty or starts with a non-space |
| `ProfileEditing.TrimEnd` | components/dashboard/profile-form.tsx:153 | trailing trimming drops only white space and leaves a prefix that is empty or ends with a non-space |
| `ProfileEditing.BlankIffAllWhitespace` | components/dashboard/profile-form.tsx:153 | an input's trimmed form is empty iff the input is white space only |
| `ProfileEditing.AddOutcomeOf` | components/dashboard/profile-form.tsx:152-176 | an add request is ignored iff the input is white space only; refused as a duplicate iff it is listed already; refused as full iff it is new and 5 or more skills are listed; added otherwise |
| `ProfileEditing.AddSkillEffect` | components/dashboard/profile-form.tsx:153-175 | a refused request changes neither list nor input; an accepted one appends the raw input after the unchanged list and clears the input |
| `ProfileEditing.SkillsAfterAdd` | components/dashboard/profile-form.tsx:152-176 | the list after an add request is unchanged or extended by the input; a list of at most 5 skills stays at most 5, and a list of 5 or more is never changed |
| `ProfileEditing.AddSkillKeepsDistinct` | components/dashboard/profile-form.tsx:156-174 | adding never creates a duplicate |
| `ProfileEditing.AddSkillNeverBlank` | components/dashboard/profile-form.tsx:153-174 | adding never lists a white-space-only skill |
| `ProfileEditing.Without` | components/dashboard/profile-form.tsx:178-184 | removing a skill keeps exactly the other skills listed, so the skill is gone, and never lengthens the list |
| `ProfileEditing.WithoutSpec` | components/dashboard/profile-form.tsx:178-184 | removing a skill keeps every other skill as often as before and in order, and shortens the list by the skill's count |
| `ProfileEditing.WithoutKeepsDistinct` | components/dashboard/profile-form.tsx:178-184 | removing keeps a duplicate-free list duplicate-free |
| `ProfileEditing.DefaultSlotShape` | components/dashboard/profile-form.tsx:220-226 | the added slot is a well-formed Monday slot of 480 minutes |
| `ProfileEditing.DropIndex` | components/dashboard/profile-form.tsx:228-234 | removal by index shortens the list by one for an index in range and not at all otherwise, and keeps only listed slots |
| `ProfileEditing.DropIndexSpec` | components/dashboard/profile-form.tsx:228-234 | removal at an index in range drops exactly that slot; any other index leaves the list unchanged |
| `ProfileEditing.EnabledRemovalKeepsOne` | components/dashboard/profile-form.tsx:486-487 | removal through the button, enabled only while more than one slot is listed, never empties the list |
| `ProfileEditing.LoadedValues` | components/dashboard/profile-form.tsx:85-93 | loaded values always have at least one slot, keep a non-empty fetched availability, and take the fetched skill lists or empty ones |
| `ProfileEditing.InitialValuesValidation` | components/dashboard/profile-form.tsx:68-76 | the initial values fail validation without a session name and pass with a session name of length 2 or more |
| `ProfileEditing.ProfileForm.constructor` | components/dashboard/profile-form.tsx:56-76 | the form starts with the session name or "", an empty bio, empty skill lists, the default slot, and empty pending inputs |
| `ProfileEditing.ProfileForm.Load` | components/dashboard/profile-form.tsx:85-93 | loading replaces the field values by the normalised fetched profile |
| `ProfileEditing.ProfileForm.SelectTeachSkill` | components/dashboard/profile-form.tsx:333-336 | choosing a suggestion sets the pending teach skill |
| `ProfileEditing.ProfileForm.SelectLearnSkill` | components/dashboard/profile-form.tsx:389-392 | choosing a suggestion sets the pending learn skill |
| `ProfileEditing.ProfileForm.AddTeachSkill` | components/dashboard/profile-form.tsx:152-176 | reports the branch taken and leaves the teach list and pending input as the add functions give them |
| `ProfileEditing.ProfileForm.RemoveTeachSkill` | components/dashboard/profile-form.tsx:178-184 | the teach list becomes the list without the skill |
| `ProfileEditing.ProfileForm.AddLearnSkill` | components/dashboard/profile-form.tsx:186-210 | the learn-skill add follows the same rules on the learn list and its pending input |
| `ProfileEditing.ProfileForm.RemoveLearnSkill` | components/dashboard/profile-form.tsx:212-218 | the learn list becomes the list without the skill |
| `ProfileEditing.ProfileForm.AddAvailability` | components/dashboard/profile-form.tsx:220-226 | exactly one default slot is appended |
| `ProfileEditing.ProfileForm.RemoveAvailability` | components/dashboard/profile-form.tsx:228-234 | the availability becomes the list without the slot at the index |
| `ProfileEditing.ProfileForm.SetSlotDay` | components/dashboard/profile-form.tsx:434-437 | only the day of the edited slot changes |
| `ProfileEditing.ProfileForm.SetSlotStart` | components/dashboard/profile-form.tsx:460-463 | only the start time of the edited slot changes |
| `ProfileEditing.ProfileForm.SetSlotEnd` | components/dashboard/profile-form.tsx:473-476 | only the end time of the edited slot changes |
| `ProfileCompletion.Steps` | components/dashboard/profile-completion.tsx:29-34 | there are exactly four steps |
| `ProfileCompletion.StepMeaning` | components/dashboard/profile-completion.tsx:29-34 | basic information is complete iff name and bio are both non-empty; each other step iff its list is present and non-empty |
| `ProfileCompletion.CompletedStepsExact` | components/dashboard/profile-completion.tsx:36-37 | the count is the number of completed steps, between 0 and 4, and the total is 4 |
| `ProfileCompletion.CompletedSteps` | components/dashboard/profile-completion.tsx:36 | at most four steps are complete |
| `ProfileCompletion.CompletionPercentage` | components/dashboard/profile-completion.tsx:36-38 | the rounded percentage is 25 times the completed count, so it is one of 0, 25, 50, 75 and 100 |
| `ProfileCompletion.PercentageMonotone` | components/dashboard/profile-completion.tsx:36-38 | more completed steps never show a smaller percentage |
| `ProfileCompletion.StepwiseMonotone` | components/dashboard/profile-completion.tsx:29-38 | completing more of the steps never lowers the count or the percentage |
| `ProfileCompletion.MissingProfileIsZero` | components/dashboard/profile-completion.tsx:13-38 | with no profile (loading or failed fetch) no step is complete and the percentage is 0 |
| `ProfileCompletion.FullProfileIsHundred` | components/dashboard/profile-completion.tsx:29-38 | with every field non-empty all four steps are complete and the percentage is 100 |
| `ProfileCompletion.NewUserIsZero` | components/dashboard/profile-completion.tsx:29-38 | a newly created user's defaults complete no step and show 0 |

## Left out

- Network, authentication and notification I/O are not modelled. This covers the `fetch` calls, the next-auth session and its `update`, `toast`, and the submit handler (`components/dashboard/profile-form.tsx:78-150`). The session name and the fetched profile are parameters instead. The toasts are the `AddOutcome` result of the add methods.
- Rendering is not modelled: JSX, the tabs, the badges, and react-hook-form's own bookkeeping. The form state is the class's fields.
- Malformed times are not modelled. `timeToMinutes` on a time that is not "HH:MM" (giving `NaN` or a one-digit hour) lies outside the model: every time is required to be two digits, a colon and two digits. Hours above 23 are accepted, as in the code.
- Matching.CalculateMatches: it requires well-formed times of the focal user and of every other candidate, even for a pair where one schedule is empty and the code never parses the other. Entries with the focal user's id are not required to be well formed, since they are never scored.
- Floating point is not modelled. JavaScript numbers are IEEE doubles, while the model computes exact rationals. The completion percentage is exact in both.
- Matching.SortByScore: the order among equal scores follows the JavaScript sort, which the model does not fix. Only sortedness and permutation are stated.
- Mongoose behaviour is modelled only in part. The user's `email`, `name` and `googleId` required and unique checks are not modelled, nor are `image`, the timestamps, and the `required`/`ref` of the match's `users` array elements. Only the skill validators, the slot paths, the defaults, the match score, the status enum and the pre-save guard are modelled.
- ProfileEditing.ProfileForm.SetSlotDay, SetSlotStart and SetSlotEnd: the source writes into the shared slot object before calling `setValue`. The model states the resulting list, not the aliasing.
- ProfileEditing.LoadedValues: `Array.isArray` on a fetched value of the wrong type is modelled as `None`. The entries of a fetched list are taken to be strings and slots.
- OverlapBound.OverlapPercentAtMostHundred: the [0, 100] bound that the percentage comment at lib/matching/algorithm.ts:10 suggests is proved for ordered schedules without self-overlap, and can fail otherwise (`DoubleBookedSlotGives200`, `BackwardSlotGives800`).
- Matching.SkillScoreAtMostHundred: the proof of the bound assumes duplicate-free teach lists, and the bound can fail otherwise (`DuplicateTeachSkillGives200`).
- Matching.MatchScoreAtMostHundred: it is stated given the two sub-score bounds. `MatchScoreWithinHundred` states it under the hypotheses above.
- Matching.MatchScoreWithinHundred: the proof of the bound assumes duplicate-free teach lists and ordered schedules without self-overlap, for the reasons above.
- The rest of the repository is not part of this model: messaging, match accept and reject pages, page wrappers and the authentication routes.
