/**
 * The stored user document: the shape of a user and of its availability slots,
 * the defaults a new document receives and the validators its schema runs.
 */
module UserModel {
  import opened Wrappers

  /** One weekly recurring availability slot: a weekday name and two "HH:MM" wall-clock times. */
  datatype Slot = Slot(day: string, startTime: string, endTime: string)

  /** The fields of a user that the application reads. */
  datatype User = User(
    id: string,
    email: string,
    name: string,
    googleId: string,
    teachSkills: seq<string>,
    learnSkills: seq<string>,
    bio: string,
    availability: seq<Slot>,
    profileCompleted: bool)

  /** Largest number of entries a skill list may hold. */
  const SkillListLimit: nat := 5

  /** The `arrayLimit` validator attached to both skill lists: it accepts at most five entries. */
  predicate ArrayLimit(v: seq<string>): (ok: bool)
    ensures ok <==> |v| <= 5
  {
    |v| <= SkillListLimit
  }

  /** The validator's message `'{PATH} exceeds the limit of 5'` with the path filled in. */
  function LimitMessage(path: string): string
  {
    path + " exceeds the limit of 5"
  }

  /** Messages of the skill-list validators that fail on `u`, in schema order. */
  function SkillIssues(u: User): seq<string>
  {
    (if ArrayLimit(u.teachSkills) then [] else [LimitMessage("teachSkills")]) +
    (if ArrayLimit(u.learnSkills) then [] else [LimitMessage("learnSkills")])
  }

  /** Each skill list is checked on its own: a message names a list exactly when that list is too long. */
  lemma SkillIssuesExact(u: User)
    ensures SkillIssues(u) == [] <==> |u.teachSkills| <= 5 && |u.learnSkills| <= 5
    ensures LimitMessage("teachSkills") in SkillIssues(u) <==> |u.teachSkills| > 5
    ensures LimitMessage("learnSkills") in SkillIssues(u) <==> |u.learnSkills| > 5
  {
    assert LimitMessage("teachSkills")[0] != LimitMessage("learnSkills")[0];
  }

  /** A user with six skills to teach is refused, whatever else it holds. */
  lemma SixTeachSkillsRejected(u: User)
    requires |u.teachSkills| == 6
    ensures SkillIssues(u) != []
    ensures SkillIssues(u)[0] == "teachSkills exceeds the limit of 5"
  {
  }

  /** A slot as submitted, before the schema has checked that its paths are present. */
  datatype RawSlot = RawSlot(day: Option<string>, startTime: Option<string>, endTime: Option<string>)

  /** Mongoose's `required` check on a String path: the value is present and not the empty string. */
  predicate Present(v: Option<string>)
  {
    v.Some? && v.value != ""
  }

  /** The paths of `r` whose `required` check fails, in schema order. */
  function MissingPaths(r: RawSlot): seq<string>
  {
    (if Present(r.day) then [] else ["day"]) +
    (if Present(r.startTime) then [] else ["startTime"]) +
    (if Present(r.endTime) then [] else ["endTime"])
  }

  /** Casting a submitted slot to a schedule slot: it succeeds exactly when all three paths are present. */
  function CastSlot(r: RawSlot): (res: Result<Slot, seq<string>>)
    ensures res.Ok? <==> Present(r.day) && Present(r.startTime) && Present(r.endTime)
    ensures res.Ok? ==> r == RawSlot(Some(res.value.day), Some(res.value.startTime), Some(res.value.endTime))
    ensures res.Err? ==> ("day" in res.error <==> !Present(r.day))
    ensures res.Err? ==> ("startTime" in res.error <==> !Present(r.startTime))
    ensures res.Err? ==> ("endTime" in res.error <==> !Present(r.endTime))
  {
    var missing := MissingPaths(r);
    if missing == [] then Ok(Slot(r.day.value, r.startTime.value, r.endTime.value)) else Err(missing)
  }

  /**
   * A user document as first created: it keeps the identity it is given, every
   * path with a default gets it, and the skill validators pass.
   */
  function NewUser(id: string, email: string, name: string, googleId: string): (u: User)
    ensures u.id == id && u.email == email && u.name == name && u.googleId == googleId
    ensures u.teachSkills == [] && u.learnSkills == [] && u.availability == []
    ensures u.bio == "" && !u.profileCompleted
    ensures SkillIssues(u) == []
  {
    User(id, email, name, googleId, [], [], "", [], false)
  }

  /** A user profile as served to the client: any field may be missing. */
  datatype FetchedProfile = FetchedProfile(
    name: Option<string>,
    bio: Option<string>,
    teachSkills: Option<seq<string>>,
    learnSkills: Option<seq<string>>,
    availability: Option<seq<Slot>>)
}
