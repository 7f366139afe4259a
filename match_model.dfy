/**
 * The stored match document: its status enumeration with the default, the
 * required score, and the pre-save hook that insists on exactly two users.
 */
module MatchModel {
  import opened Wrappers

  /** The four values the `status` path accepts. */
  datatype Status = Pending | Accepted | Rejected | Completed

  /** The string stored for each status. */
  function StatusName(s: Status): string
  {
    match s
    case Pending => "pending"
    case Accepted => "accepted"
    case Rejected => "rejected"
    case Completed => "completed"
  }

  /** The enum validator: a string is accepted exactly when it names one of the four statuses. */
  function ParseStatus(v: string): (r: Option<Status>)
    ensures r.Some? ==> StatusName(r.value) == v
    ensures r.Some? <==> v in ["pending", "accepted", "rejected", "completed"]
  {
    if v == "pending" then Some(Pending)
    else if v == "accepted" then Some(Accepted)
    else if v == "rejected" then Some(Rejected)
    else if v == "completed" then Some(Completed)
    else None
  }

  /** Parsing inverts naming: the stored name of a status parses back to that status. */
  lemma ParseStatusInvertsName(s: Status)
    ensures ParseStatus(StatusName(s)) == Some(s)
  {
  }

  /** A match as handed to `save`, before defaults and validation. */
  datatype MatchDraft = MatchDraft(users: seq<string>, matchScore: Option<real>, status: Option<string>)

  /** A match as stored. */
  datatype MatchRecord = MatchRecord(users: seq<string>, matchScore: real, status: Status)

  /** One failing schema validator. */
  datatype MatchIssue = ScoreRequired | StatusNotInEnum(value: string)

  /** Why `save` refused the document: the schema validators failed, or the pre-save hook did. */
  datatype SaveError = ValidationFailed(issues: seq<MatchIssue>) | NotTwoUsers(count: nat)

  /** The status after the default is applied: a missing status becomes `pending`. */
  function StatusWithDefault(d: MatchDraft): Option<Status>
  {
    match d.status
    case None => Some(Pending)
    case Some(v) => ParseStatus(v)
  }

  /** The validators of the schema that fail on `d`, in schema order. */
  function Issues(d: MatchDraft): seq<MatchIssue>
  {
    (if d.matchScore.None? then [ScoreRequired] else []) +
    (if StatusWithDefault(d).None? then [StatusNotInEnum(d.status.value)] else [])
  }

  /**
   * Saving a draft: defaults are applied and the schema validators run first
   * (mongoose validates before it runs user pre-save hooks), then the hook
   * refuses any user list whose length is not 2.
   */
  function Save(d: MatchDraft): (res: Result<MatchRecord, SaveError>)
    ensures res.Ok? ==> |res.value.users| == 2 && res.value.users == d.users
    ensures res.Ok? ==> Some(res.value.matchScore) == d.matchScore
  {
    var issues := Issues(d);
    if issues != [] then Err(ValidationFailed(issues))
    else if |d.users| != 2 then Err(NotTwoUsers(|d.users|))
    else Ok(MatchRecord(d.users, d.matchScore.value, StatusWithDefault(d).value))
  }

  /** For a draft that passes the schema validators, save is refused exactly when it does not hold two users. */
  lemma SaveGuardsUserCount(d: MatchDraft)
    requires d.matchScore.Some?
    requires d.status.None? || ParseStatus(d.status.value).Some?
    ensures Save(d).Err? <==> |d.users| != 2
    ensures Save(d).Err? ==> Save(d).error == NotTwoUsers(|d.users|)
    ensures Save(d).Ok? ==> Save(d).value == MatchRecord(d.users, d.matchScore.value, StatusWithDefault(d).value)
  {
  }

  /** A stored match always records a score and one of the four statuses; without a given status it is pending. */
  lemma SaveDefaultsToPending(d: MatchDraft)
    requires Save(d).Ok?
    ensures d.matchScore.Some?
    ensures d.status.None? ==> Save(d).value.status == Pending
    ensures d.status.Some? ==> StatusName(Save(d).value.status) == d.status.value
  {
  }

  /** A draft without a score is refused by validation, and so is one whose status is not in the enum. */
  lemma SaveRejectsInvalid(d: MatchDraft)
    ensures d.matchScore.None? ==> Save(d) == Err(ValidationFailed(Issues(d))) && ScoreRequired in Issues(d)
    ensures d.status.Some? && ParseStatus(d.status.value).None? ==>
      Save(d).Err? && Save(d).error.ValidationFailed? && StatusNotInEnum(d.status.value) in Save(d).error.issues
  {
  }
}
