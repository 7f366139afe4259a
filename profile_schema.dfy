/**
 * The profile form's validation schema: the field values the form submits and
 * the checks the zod schema applies to them before submission.
 */
module ProfileSchema {
  import opened Wrappers
  import opened UserModel

  /** The values the profile form edits and submits. */
  datatype ProfileValues = ProfileValues(
    name: string,
    bio: string,
    teachSkills: seq<string>,
    learnSkills: seq<string>,
    availability: seq<Slot>)

  /** One validation failure: the field it is reported on and its message. */
  datatype Issue = Issue(path: string, message: string)

  const NameMinLength: nat := 2
  const BioMaxLength: nat := 500
  const SkillsMaxCount: nat := 5

  const NameMessage: string := "Name must be at least 2 characters."
  const BioMessage: string := "Bio cannot be longer than 500 characters."
  const SkillsMessage: string := "You can only add up to 5 skills."

  /** UTF-16 code units of one character: two for characters outside the Basic Multilingual Plane. */
  function Utf16Units(c: char): nat
  {
    if c as int >= 0x1_0000 then 2 else 1
  }

  /** A string's length as JavaScript counts it, in UTF-16 code units. */
  function Utf16Length(s: string): (n: nat)
    ensures |s| <= n <= 2 * |s|
  {
    if s == [] then 0 else Utf16Length(s[..|s| - 1]) + Utf16Units(s[|s| - 1])
  }

  /** Below U+10000 every character is one code unit, so the two lengths agree. */
  lemma {:induction false} Utf16LengthOfBasicPlane(s: string)
    requires forall i :: 0 <= i < |s| ==> s[i] as int < 0x1_0000
    ensures Utf16Length(s) == |s|
  {
    if s != [] {
      var init := s[..|s| - 1];
      assert forall i :: 0 <= i < |init| ==> init[i] == s[i];
      Utf16LengthOfBasicPlane(init);
    }
  }

  /** An emoji is one character but two code units, so a one-emoji name passes the two-character minimum. */
  lemma OneEmojiIsTwoUnits()
    ensures Utf16Length("\U{1F600}") == 2
  {
    assert "\U{1F600}"[..0] == [];
  }

  /** Every issue the schema reports, in schema order; `[]` means the values pass. */
  function Issues(v: ProfileValues): (r: seq<Issue>)
    ensures |r| <= 4
    ensures forall i :: i in r ==> i.path in ["name", "bio", "teachSkills", "learnSkills"]
    ensures forall i, j :: 0 <= i < j < |r| ==> r[i].path != r[j].path
    ensures r == [] <==>
      Utf16Length(v.name) >= NameMinLength && Utf16Length(v.bio) <= BioMaxLength
      && |v.teachSkills| <= SkillsMaxCount && |v.learnSkills| <= SkillsMaxCount
  {
    (if Utf16Length(v.name) < NameMinLength then [Issue("name", NameMessage)] else [])
    + (if Utf16Length(v.bio) > BioMaxLength then [Issue("bio", BioMessage)] else [])
    + (if |v.teachSkills| > SkillsMaxCount then [Issue("teachSkills", SkillsMessage)] else [])
    + (if |v.learnSkills| > SkillsMaxCount then [Issue("learnSkills", SkillsMessage)] else [])
  }

  /** Parses the values: they are returned unchanged when every check passes, otherwise all failures are. */
  function Validate(v: ProfileValues): (r: Result<ProfileValues, seq<Issue>>)
    ensures r.Ok? <==>
      Utf16Length(v.name) >= 2 && Utf16Length(v.bio) <= 500 && |v.teachSkills| <= 5 && |v.learnSkills| <= 5
    ensures r.Ok? ==> r.value == v
    ensures r.Err? ==> r.error != []
    ensures r.Err? ==>
      && (Issue("name", NameMessage) in r.error <==> Utf16Length(v.name) < 2)
      && (Issue("bio", BioMessage) in r.error <==> Utf16Length(v.bio) > 500)
      && (Issue("teachSkills", SkillsMessage) in r.error <==> |v.teachSkills| > 5)
      && (Issue("learnSkills", SkillsMessage) in r.error <==> |v.learnSkills| > 5)
  {
    var issues := Issues(v);
    IssuesReported(v);
    if issues == [] then Ok(v) else Err(issues)
  }

  /** Each field's issue is reported exactly when that field fails. */
  lemma IssuesReported(v: ProfileValues)
    ensures Issue("name", NameMessage) in Issues(v) <==> Utf16Length(v.name) < 2
    ensures Issue("bio", BioMessage) in Issues(v) <==> Utf16Length(v.bio) > 500
    ensures Issue("teachSkills", SkillsMessage) in Issues(v) <==> |v.teachSkills| > 5
    ensures Issue("learnSkills", SkillsMessage) in Issues(v) <==> |v.learnSkills| > 5
  {
    var n := if Utf16Length(v.name) < NameMinLength then [Issue("name", NameMessage)] else [];
    var b := if Utf16Length(v.bio) > BioMaxLength then [Issue("bio", BioMessage)] else [];
    var t := if |v.teachSkills| > SkillsMaxCount then [Issue("teachSkills", SkillsMessage)] else [];
    var l := if |v.learnSkills| > SkillsMaxCount then [Issue("learnSkills", SkillsMessage)] else [];
    assert Issues(v) == n + b + t + l;
    OnlyOnItsPath(n, b, t, l);
  }

  /** The four issue lists each hold at most their own field's issue, so membership in the whole is membership in the part. */
  lemma OnlyOnItsPath(n: seq<Issue>, b: seq<Issue>, t: seq<Issue>, l: seq<Issue>)
    requires n == [] || n == [Issue("name", NameMessage)]
    requires b == [] || b == [Issue("bio", BioMessage)]
    requires t == [] || t == [Issue("teachSkills", SkillsMessage)]
    requires l == [] || l == [Issue("learnSkills", SkillsMessage)]
    ensures Issue("name", NameMessage) in n + b + t + l <==> n != []
    ensures Issue("bio", BioMessage) in n + b + t + l <==> b != []
    ensures Issue("teachSkills", SkillsMessage) in n + b + t + l <==> t != []
    ensures Issue("learnSkills", SkillsMessage) in n + b + t + l <==> l != []
  {
    assert "teachSkills"[0] != "learnSkills"[0];
  }

  /** A failing name is reported on the name field alone, whatever the other fields hold. */
  lemma ShortNameReportedOnName(v: ProfileValues)
    requires |v.name| < 2 && forall i :: 0 <= i < |v.name| ==> v.name[i] as int < 0x1_0000
    ensures Validate(v).Err? && Issue("name", NameMessage) in Validate(v).error
  {
    Utf16LengthOfBasicPlane(v.name);
  }
}
