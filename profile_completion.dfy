/**
 * The profile completion meter: four completion rules evaluated on the fetched
 * profile (absent until it arrives), the number of rules met, and the rounded
 * percentage shown in the progress bar.
 */
module ProfileCompletion {
  import opened Wrappers
  import opened UserModel
  import opened Arith

  datatype Step = Step(name: string, completed: bool)

  /** `!!v` on an optional string: present and non-empty. */
  predicate Truthy(v: Option<string>)
  {
    v.Some? && v.value != ""
  }

  /** `Array.isArray(v) && v.length > 0`. */
  predicate NonEmptyList<T>(v: Option<seq<T>>)
  {
    v.Some? && |v.value| > 0
  }

  /** The four steps in display order, evaluated on the profile or on its absence. */
  function Steps(p: Option<FetchedProfile>): (steps: seq<Step>)
    ensures |steps| == 4
  {
    [ Step("Add your basic information", p.Some? && Truthy(p.value.name) && Truthy(p.value.bio)),
      Step("Add skills you can teach", p.Some? && NonEmptyList(p.value.teachSkills)),
      Step("Add skills you want to learn", p.Some? && NonEmptyList(p.value.learnSkills)),
      Step("Set your availability", p.Some? && NonEmptyList(p.value.availability)) ]
  }

  /** `steps.filter(step => step.completed).length`. */
  function CountCompleted(steps: seq<Step>): (n: nat)
    ensures n <= |steps|
  {
    if steps == [] then 0
    else CountCompleted(steps[..|steps| - 1]) + (if steps[|steps| - 1].completed then 1 else 0)
  }

  /** The number of completed steps, out of four. */
  function CompletedSteps(p: Option<FetchedProfile>): (n: nat)
    ensures n <= 4
  {
    CountCompleted(Steps(p))
  }

  function TotalSteps(p: Option<FetchedProfile>): nat
  {
    |Steps(p)|
  }

  /** `Math.round`: the nearest integer, halves rounded up. */
  function RoundHalfUp(x: real): int
  {
    (x + 0.5).Floor
  }

  /** The rounded percentage of completed steps: each completed step is worth exactly a quarter. */
  function CompletionPercentage(p: Option<FetchedProfile>): (r: int)
    ensures r == 25 * CompletedSteps(p)
    ensures r in {0, 25, 50, 75, 100}
  {
    var c := CompletedSteps(p);
    assert Percentage(c, TotalSteps(p)) == (25 * c) as real;
    RoundOfInteger(25 * c);
    RoundHalfUp(Percentage(c, TotalSteps(p)))
  }

  /** Each step is complete exactly when its fields are non-empty. */
  lemma StepMeaning(p: FetchedProfile)
    ensures Steps(Some(p))[0].completed <==>
      p.name.Some? && p.name.value != "" && p.bio.Some? && p.bio.value != ""
    ensures Steps(Some(p))[1].completed <==> p.teachSkills.Some? && p.teachSkills.value != []
    ensures Steps(Some(p))[2].completed <==> p.learnSkills.Some? && p.learnSkills.value != []
    ensures Steps(Some(p))[3].completed <==> p.availability.Some? && p.availability.value != []
  {
  }

  /** The count is the number of completed steps, listed one by one. */
  lemma CompletedStepsExact(p: Option<FetchedProfile>)
    ensures CompletedSteps(p) ==
      (if Steps(p)[0].completed then 1 else 0) + (if Steps(p)[1].completed then 1 else 0)
      + (if Steps(p)[2].completed then 1 else 0) + (if Steps(p)[3].completed then 1 else 0)
    ensures 0 <= CompletedSteps(p) <= 4 && TotalSteps(p) == 4
  {
    var s := Steps(p);
    assert s[..3][..2] == s[..2] && s[..2][..1] == s[..1] && s[..1][..0] == [];
    assert CountCompleted(s[..1]) == (if s[0].completed then 1 else 0);
    assert CountCompleted(s[..2]) == CountCompleted(s[..1]) + (if s[1].completed then 1 else 0);
    assert CountCompleted(s[..3]) == CountCompleted(s[..2]) + (if s[2].completed then 1 else 0);
  }

  lemma RoundOfInteger(n: int)
    ensures RoundHalfUp(n as real) == n
  {
  }

  /** More completed steps never show a smaller percentage. */
  lemma PercentageMonotone(p: Option<FetchedProfile>, q: Option<FetchedProfile>)
    requires CompletedSteps(p) <= CompletedSteps(q)
    ensures CompletionPercentage(p) <= CompletionPercentage(q)
  {
  }

  /** Completing a step that was open never lowers the count. */
  lemma StepwiseMonotone(p: Option<FetchedProfile>, q: Option<FetchedProfile>)
    requires forall i :: 0 <= i < 4 ==> Steps(p)[i].completed ==> Steps(q)[i].completed
    ensures CompletedSteps(p) <= CompletedSteps(q)
    ensures CompletionPercentage(p) <= CompletionPercentage(q)
  {
    CompletedStepsExact(p);
    CompletedStepsExact(q);
    PercentageMonotone(p, q);
  }

  /** While the profile is absent (loading, or the fetch failed), nothing is complete. */
  lemma MissingProfileIsZero()
    ensures CompletedSteps(None) == 0
    ensures CompletionPercentage(None) == 0
  {
    CompletedStepsExact(None);
  }

  /** All four steps complete shows 100. */
  lemma FullProfileIsHundred(p: FetchedProfile)
    requires Truthy(p.name) && Truthy(p.bio)
    requires NonEmptyList(p.teachSkills) && NonEmptyList(p.learnSkills) && NonEmptyList(p.availability)
    ensures CompletedSteps(Some(p)) == 4 && CompletionPercentage(Some(p)) == 100
  {
    CompletedStepsExact(Some(p));
  }

  /** The profile a stored user is served as. */
  function ProfileOf(u: User): FetchedProfile
  {
    FetchedProfile(Some(u.name), Some(u.bio), Some(u.teachSkills), Some(u.learnSkills), Some(u.availability))
  }

  /** A newly created user's defaults complete no step. */
  lemma NewUserIsZero(id: string, email: string, name: string, googleId: string)
    ensures CompletedSteps(Some(ProfileOf(NewUser(id, email, name, googleId)))) == 0
    ensures CompletionPercentage(Some(ProfileOf(NewUser(id, email, name, googleId)))) == 0
  {
    var p := Some(ProfileOf(NewUser(id, email, name, googleId)));
    CompletedStepsExact(p);
  }
}
