/**
 * The profile form's list editing: adding and removing teach and learn skills,
 * adding, removing and editing availability slots, and loading fetched values.
 * The pure functions say what each edit does to a list; the class holds the
 * form's state and its methods perform the edits in place.
 */
module ProfileEditing {
  import opened Wrappers
  import opened UserModel
  import opened SeqUtil
  import opened ProfileSchema
  import Schedule

  /** The characters `String.prototype.trim` removes: ECMAScript white space and line terminators. */
  predicate IsJsWhitespace(c: char)
  {
    c == '\U{9}' || c == '\U{A}' || c == '\U{B}' || c == '\U{C}' || c == '\U{D}' || c == ' '
    || c == '\U{A0}' || c == '\U{1680}' || ('\U{2000}' <= c <= '\U{200A}')
    || c == '\U{2028}' || c == '\U{2029}' || c == '\U{202F}' || c == '\U{205F}'
    || c == '\U{3000}' || c == '\U{FEFF}'
  }

  predicate AllWhitespace(s: string)
  {
    forall i :: 0 <= i < |s| ==> IsJsWhitespace(s[i])
  }

  /** Drops leading white space: what remains is a suffix that is empty or starts with a non-space. */
  function TrimStart(s: string): (r: string)
    ensures |r| <= |s| && r == s[|s| - |r|..]
    ensures forall i :: 0 <= i < |s| - |r| ==> IsJsWhitespace(s[i])
    ensures r != [] ==> !IsJsWhitespace(r[0])
  {
    if s != [] && IsJsWhitespace(s[0]) then
      var r := TrimStart(s[1..]);
      assert forall i :: 1 <= i < |s| ==> s[i] == s[1..][i - 1];
      r
    else s
  }

  /** Drops trailing white space: what remains is a prefix that is empty or ends with a non-space. */
  function TrimEnd(s: string): (r: string)
    ensures |r| <= |s| && r == s[..|r|]
    ensures forall i :: |r| <= i < |s| ==> IsJsWhitespace(s[i])
    ensures r != [] ==> !IsJsWhitespace(r[|r| - 1])
  {
    if s != [] && IsJsWhitespace(s[|s| - 1]) then
      var r := TrimEnd(s[..|s| - 1]);
      assert forall i :: 0 <= i < |s| - 1 ==> s[i] == s[..|s| - 1][i];
      r
    else s
  }

  function Trim(s: string): string
  {
    TrimEnd(TrimStart(s))
  }

  /** `!s.trim()`: the trimmed string is empty, hence falsy. */
  predicate IsBlank(s: string)
  {
    Trim(s) == ""
  }

  /** An input is blank exactly when it consists of white space only. */
  lemma BlankIffAllWhitespace(s: string)
    ensures IsBlank(s) <==> AllWhitespace(s)
  {
    var t := TrimStart(s);
    if t == [] {
      assert TrimEnd(t) == [];
    } else {
      assert s[|s| - |t|] == t[0];
    }
  }

  // ---------------------------------------------------------------- skills

  const MaxSkills: nat := 5

  /** Which branch an add request takes: the three early returns and the append. */
  datatype AddOutcome = IgnoredBlank | AlreadyAdded | LimitReached | Added

  /** Each branch of an add request, by the condition that selects it. */
  function AddOutcomeOf(skills: seq<string>, input: string): (r: AddOutcome)
    ensures r == IgnoredBlank <==> AllWhitespace(input)
    ensures r == AlreadyAdded <==> !AllWhitespace(input) && input in skills
    ensures r == LimitReached <==> !AllWhitespace(input) && input !in skills && |skills| >= 5
    ensures r == Added <==> !AllWhitespace(input) && input !in skills && |skills| < 5
  {
    BlankIffAllWhitespace(input);
    if IsBlank(input) then IgnoredBlank
    else if input in skills then AlreadyAdded
    else if |skills| >= MaxSkills then LimitReached
    else Added
  }

  /**
   * The skill list after an add request: unchanged or extended by the input. A
   * list of at most five skills stays at most five; a longer one never grows.
   */
  function SkillsAfterAdd(skills: seq<string>, input: string): (r: seq<string>)
    ensures r == skills || r == skills + [input]
    ensures |skills| <= 5 ==> |r| <= 5
    ensures |skills| >= 5 ==> r == skills
  {
    if AddOutcomeOf(skills, input) == Added then skills + [input] else skills
  }

  /** The pending input after an add request: cleared only when the skill was added. */
  function PendingAfterAdd(skills: seq<string>, input: string): string
  {
    if AddOutcomeOf(skills, input) == Added then "" else input
  }

  /** A rejected request changes nothing; an accepted one appends the raw input and clears it. */
  lemma AddSkillEffect(skills: seq<string>, input: string)
    ensures AddOutcomeOf(skills, input) != Added ==>
      SkillsAfterAdd(skills, input) == skills && PendingAfterAdd(skills, input) == input
    ensures AddOutcomeOf(skills, input) == Added ==>
      && |SkillsAfterAdd(skills, input)| == |skills| + 1
      && SkillsAfterAdd(skills, input)[..|skills|] == skills
      && SkillsAfterAdd(skills, input)[|skills|] == input
      && PendingAfterAdd(skills, input) == ""
  {
    if AddOutcomeOf(skills, input) == Added {
      assert (skills + [input])[..|skills|] == skills;
    }
  }

  /** Adds never introduce a duplicate. */
  lemma AddSkillKeepsDistinct(skills: seq<string>, input: string)
    requires Distinct(skills)
    ensures Distinct(SkillsAfterAdd(skills, input))
  {
    if AddOutcomeOf(skills, input) == Added {
      var r := skills + [input];
      forall i, j | 0 <= i < j < |r| ensures r[i] != r[j] {
        if j == |skills| {
          assert r[i] == skills[i];
        } else {
          assert r[i] == skills[i] && r[j] == skills[j];
        }
      }
    }
  }

  /** Adds never introduce a white-space-only skill. */
  lemma AddSkillNeverBlank(skills: seq<string>, input: string)
    requires forall s :: s in skills ==> !AllWhitespace(s)
    ensures forall s :: s in SkillsAfterAdd(skills, input) ==> !AllWhitespace(s)
  {
  }

  /** `skills.filter((s) => s !== skill)`. */
  function Without(skills: seq<string>, skill: string): (r: seq<string>)
    ensures |r| <= |skills|
    ensures forall s :: s in r <==> s in skills && s != skill
  {
    if skills == [] then []
    else (if skills[0] == skill then [] else [skills[0]]) + Without(skills[1..], skill)
  }

  /** Removal drops every occurrence of the skill, keeps every other skill as often as before, and keeps their order. */
  lemma {:induction false} WithoutSpec(skills: seq<string>, skill: string)
    ensures forall other :: other != skill ==> Count(Without(skills, skill), other) == Count(skills, other)
    ensures |Without(skills, skill)| == |skills| - Count(skills, skill)
    ensures Subsequence(Without(skills, skill), skills)
  {
    if skills != [] {
      var rest := Without(skills[1..], skill);
      WithoutSpec(skills[1..], skill);
      if skills[0] == skill {
        assert Without(skills, skill) == rest;
        SubsequenceOfTail(rest, skills);
      } else {
        var r := [skills[0]] + rest;
        assert Without(skills, skill) == r;
        assert r[1..] == rest;
        forall other | other != skill ensures Count(r, other) == Count(skills, other) {
          assert Count(r, other) == (if skills[0] == other then 1 else 0) + Count(rest, other);
        }
      }
    }
  }

  lemma SubsequenceOfTail(r: seq<string>, s: seq<string>)
    requires s != [] && Subsequence(r, s[1..])
    ensures Subsequence(r, s)
  {
  }

  /** Removing a skill keeps a list duplicate-free. */
  lemma WithoutKeepsDistinct(skills: seq<string>, skill: string)
    requires Distinct(skills)
    ensures Distinct(Without(skills, skill))
  {
    WithoutSpec(skills, skill);
    var r := Without(skills, skill);
    forall i, j | 0 <= i < j < |r| ensures r[i] != r[j] {
      if r[i] == r[j] {
        CountTwo(r, i, j);
        CountIn(skills, r[i]);
        DistinctCountOne(skills, r[i]);
      }
    }
  }

  lemma {:induction false} CountTwo(s: seq<string>, i: int, j: int)
    requires 0 <= i < j < |s| && s[i] == s[j]
    ensures Count(s, s[i]) >= 2
  {
    if i > 0 {
      CountTwo(s[1..], i - 1, j - 1);
    } else {
      CountIn(s[1..], s[i]);
      assert s[1..][j - 1] == s[j];
    }
  }

  lemma {:induction false} DistinctCountOne(s: seq<string>, x: string)
    requires Distinct(s)
    ensures Count(s, x) <= 1
  {
    if s != [] {
      DistinctCons(s[0], s[1..]);
      assert s == [s[0]] + s[1..];
      DistinctCountOne(s[1..], x);
      if s[0] == x {
        CountIn(s[1..], x);
      }
    }
  }

  // ---------------------------------------------------------- availability

  /** The slot a new availability row starts with. */
  const DefaultSlot: Slot := Slot("Monday", "09:00", "17:00")

  /** The default slot is a well-formed eight-hour Monday slot. */
  lemma DefaultSlotShape()
    ensures Schedule.WellFormedSlot(DefaultSlot)
    ensures DefaultSlot.day in Schedule.Weekdays
    ensures Schedule.Duration(DefaultSlot) == 480
  {
  }

  /** `availability.filter((_, i) => i !== index)`. */
  function DropIndex(av: seq<Slot>, index: int): (r: seq<Slot>)
    ensures |r| == if 0 <= index < |av| then |av| - 1 else |av|
    ensures forall s :: s in r ==> s in av
  {
    if av == [] then []
    else DropIndex(av[..|av| - 1], index) + (if |av| - 1 == index then [] else [av[|av| - 1]])
  }

  /** An index in range removes exactly that slot; any other index leaves the list as it is. */
  lemma {:induction false} DropIndexSpec(av: seq<Slot>, index: int)
    ensures 0 <= index < |av| ==> DropIndex(av, index) == av[..index] + av[index + 1..]
    ensures !(0 <= index < |av|) ==> DropIndex(av, index) == av
  {
    if av != [] {
      var init := av[..|av| - 1];
      var last := av[|av| - 1];
      DropIndexSpec(init, index);
      if index == |av| - 1 {
        assert DropIndex(av, index) == init;
        assert av[index + 1..] == [];
        assert av[..index] == init;
      } else if 0 <= index < |av| - 1 {
        assert DropIndex(av, index) == init[..index] + init[index + 1..] + [last];
        assert init[..index] == av[..index];
        assert init[index + 1..] + [last] == av[index + 1..];
      } else {
        assert DropIndex(av, index) == init + [last];
        assert init + [last] == av;
      }
    }
  }

  /** The remove button is enabled only while more than one slot is listed. */
  predicate RemoveEnabled(av: seq<Slot>)
  {
    |av| > 1
  }

  /** Removal through the enabled button never empties the list. */
  lemma EnabledRemovalKeepsOne(av: seq<Slot>, index: int)
    requires RemoveEnabled(av)
    ensures |DropIndex(av, index)| >= 1
  {
  }

  // ------------------------------------------------------------ loaded data

  /** `v || ""` on a string field. */
  function OrEmpty(v: Option<string>): string
  {
    if v.Some? then v.value else ""
  }

  /** The form values before any profile is fetched. */
  function InitialValues(sessionName: Option<string>): ProfileValues
  {
    ProfileValues(OrEmpty(sessionName), "", [], [], [DefaultSlot])
  }

  /** The form values a fetched profile is normalised to. */
  function LoadedValues(data: FetchedProfile): (v: ProfileValues)
    ensures v.availability != []
    ensures data.availability.Some? && data.availability.value != [] ==> v.availability == data.availability.value
    ensures v.teachSkills == (if data.teachSkills.Some? then data.teachSkills.value else [])
    ensures v.learnSkills == (if data.learnSkills.Some? then data.learnSkills.value else [])
  {
    ProfileValues(
      OrEmpty(data.name),
      OrEmpty(data.bio),
      if data.teachSkills.Some? then data.teachSkills.value else [],
      if data.learnSkills.Some? then data.learnSkills.value else [],
      if data.availability.Some? && data.availability.value != [] then data.availability.value else [DefaultSlot])
  }

  /** Without a session name the initial values fail on the name; with a name of two or more characters they pass. */
  lemma InitialValuesValidation(sessionName: Option<string>)
    ensures sessionName.None? ==> Validate(InitialValues(sessionName)).Err?
    ensures sessionName.Some? && Utf16Length(sessionName.value) >= 2 ==> Validate(InitialValues(sessionName)).Ok?
  {
  }

  // ------------------------------------------------------------------ form

  /** The profile form: its field values and the two pending skill inputs. */
  class ProfileForm {
    var name: string
    var bio: string
    var teachSkills: seq<string>
    var learnSkills: seq<string>
    var availability: seq<Slot>
    var newTeachSkill: string
    var newLearnSkill: string

    /** The values the form would submit. */
    function Values(): ProfileValues
      reads this
    {
      ProfileValues(name, bio, teachSkills, learnSkills, availability)
    }

    constructor (sessionName: Option<string>)
      ensures Values() == InitialValues(sessionName)
      ensures newTeachSkill == "" && newLearnSkill == ""
    {
      name := OrEmpty(sessionName);
      bio := "";
      teachSkills := [];
      learnSkills := [];
      availability := [DefaultSlot];
      newTeachSkill := "";
      newLearnSkill := "";
    }

    /** Replaces the field values by the normalised fetched profile; the pending inputs stay. */
    method Load(data: FetchedProfile)
      modifies this`name, this`bio, this`teachSkills, this`learnSkills, this`availability
      ensures Values() == LoadedValues(data)
    {
      name := OrEmpty(data.name);
      bio := OrEmpty(data.bio);
      teachSkills := if data.teachSkills.Some? then data.teachSkills.value else [];
      learnSkills := if data.learnSkills.Some? then data.learnSkills.value else [];
      availability := if data.availability.Some? && data.availability.value != [] then data.availability.value else [DefaultSlot];
    }

    method SelectTeachSkill(value: string)
      modifies this`newTeachSkill
      ensures newTeachSkill == value
    {
      newTeachSkill := value;
    }

    method SelectLearnSkill(value: string)
      modifies this`newLearnSkill
      ensures newLearnSkill == value
    {
      newLearnSkill := value;
    }

    /** Adds the pending teach skill unless it is blank, already listed, or the list is full. */
    method AddTeachSkill() returns (outcome: AddOutcome)
      modifies this`teachSkills, this`newTeachSkill
      ensures outcome == AddOutcomeOf(old(teachSkills), old(newTeachSkill))
      ensures teachSkills == SkillsAfterAdd(old(teachSkills), old(newTeachSkill))
      ensures newTeachSkill == PendingAfterAdd(old(teachSkills), old(newTeachSkill))
    {
      if IsBlank(newTeachSkill) {
        return IgnoredBlank;
      }
      if newTeachSkill in teachSkills {
        return AlreadyAdded;
      }
      if |teachSkills| >= MaxSkills {
        return LimitReached;
      }
      teachSkills := teachSkills + [newTeachSkill];
      newTeachSkill := "";
      return Added;
    }

    method RemoveTeachSkill(skill: string)
      modifies this`teachSkills
      ensures teachSkills == Without(old(teachSkills), skill)
    {
      teachSkills := Without(teachSkills, skill);
    }

    /** Adds the pending learn skill under the same rules as teach skills. */
    method AddLearnSkill() returns (outcome: AddOutcome)
      modifies this`learnSkills, this`newLearnSkill
      ensures outcome == AddOutcomeOf(old(learnSkills), old(newLearnSkill))
      ensures learnSkills == SkillsAfterAdd(old(learnSkills), old(newLearnSkill))
      ensures newLearnSkill == PendingAfterAdd(old(learnSkills), old(newLearnSkill))
    {
      if IsBlank(newLearnSkill) {
        return IgnoredBlank;
      }
      if newLearnSkill in learnSkills {
        return AlreadyAdded;
      }
      if |learnSkills| >= MaxSkills {
        return LimitReached;
      }
      learnSkills := learnSkills + [newLearnSkill];
      newLearnSkill := "";
      return Added;
    }

    method RemoveLearnSkill(skill: string)
      modifies this`learnSkills
      ensures learnSkills == Without(old(learnSkills), skill)
    {
      learnSkills := Without(learnSkills, skill);
    }

    method AddAvailability()
      modifies this`availability
      ensures availability == old(availability) + [DefaultSlot]
    {
      availability := availability + [DefaultSlot];
    }

    method RemoveAvailability(index: int)
      modifies this`availability
      ensures availability == DropIndex(old(availability), index)
    {
      availability := DropIndex(availability, index);
    }

    /** The day picker of row `index`: only that slot's day changes. */
    method SetSlotDay(index: nat, value: string)
      requires index < |availability|
      modifies this`availability
      ensures availability == old(availability)[index := old(availability)[index].(day := value)]
    {
      availability := availability[index := availability[index].(day := value)];
    }

    /** The start-time input of row `index`: only that slot's start time changes. */
    method SetSlotStart(index: nat, value: string)
      requires index < |availability|
      modifies this`availability
      ensures availability == old(availability)[index := old(availability)[index].(startTime := value)]
    {
      availability := availability[index := availability[index].(startTime := value)];
    }

    /** The end-time input of row `index`: only that slot's end time changes. */
    method SetSlotEnd(index: nat, value: string)
      requires index < |availability|
      modifies this`availability
      ensures availability == old(availability)[index := old(availability)[index].(endTime := value)]
    {
      availability := availability[index := availability[index].(endTime := value)];
    }
  }
}
