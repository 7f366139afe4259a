/**
 * The match scorer: for a focal user and a pool of candidates it drops the
 * focal user, scores every other candidate by skill complementarity (70%)
 * and availability overlap (30%), drops zero scores and sorts the rest by
 * score, highest first.
 */
module Matching {
  import opened UserModel
  import opened Schedule
  import opened AvailabilityOverlap
  import OverlapBound
  import opened SeqUtil
  import opened Arith

  /** One scored candidate. */
  datatype MatchResult = MatchResult(
    userId: string,
    matchScore: real,
    canTeach: seq<string>,
    canLearn: seq<string>,
    availabilityOverlap: real)

  /** Every time of the user's schedule is a well-formed "HH:MM" string. */
  predicate WellFormedUser(u: User)
  {
    WellFormedSchedule(u.availability)
  }

  // ---------------------------------------------------------------------------
  // Complementary skills.

  /** `xs.filter(s => ys.includes(s))`: the entries of `xs` that occur in `ys`, duplicates and order kept. */
  function KeepIn(xs: seq<string>, ys: seq<string>): (r: seq<string>)
    ensures |r| <= |xs|
    ensures forall s :: s in r <==> s in xs && s in ys
  {
    if xs == [] then [] else (if xs[0] in ys then [xs[0]] else []) + KeepIn(xs[1..], ys)
  }

  /** Each entry of `xs` that occurs in `ys` is kept as many times as it occurs in `xs`; no other entry is. */
  lemma {:induction false} KeepInCount(xs: seq<string>, ys: seq<string>, s: string)
    ensures Count(KeepIn(xs, ys), s) == if s in ys then Count(xs, s) else 0
  {
    if xs != [] {
      KeepInCount(xs[1..], ys, s);
      var head := if xs[0] in ys then [xs[0]] else [];
      CountAppend(head, KeepIn(xs[1..], ys), s);
    }
  }

  /** The kept entries appear in the order they have in `xs`. */
  lemma {:induction false} KeepInSubsequence(xs: seq<string>, ys: seq<string>)
    ensures Subsequence(KeepIn(xs, ys), xs)
  {
    if xs != [] {
      KeepInSubsequence(xs[1..], ys);
      var r := KeepIn(xs, ys);
      var t := KeepIn(xs[1..], ys);
      if xs[0] in ys {
        assert r == [xs[0]] + t;
        assert r[1..] == t;
      } else {
        assert r == t;
      }
    }
  }

  /** From a duplicate-free list, the kept entries are duplicate-free and no more numerous than `ys`. */
  lemma {:induction false} KeepInOfDistinct(xs: seq<string>, ys: seq<string>)
    requires Distinct(xs)
    ensures Distinct(KeepIn(xs, ys))
    ensures |KeepIn(xs, ys)| <= |ys|
  {
    if xs != [] {
      assert xs == [xs[0]] + xs[1..];
      DistinctCons(xs[0], xs[1..]);
      KeepInOfDistinct(xs[1..], ys);
      if xs[0] in ys {
        DistinctCons(xs[0], KeepIn(xs[1..], ys));
      }
    }
    DistinctLengthBound(KeepIn(xs, ys), ys);
  }

  /** Skills the focal user `u` can teach that candidate `c` wants to learn. */
  function CanTeach(u: User, c: User): seq<string>
  {
    KeepIn(u.teachSkills, c.learnSkills)
  }

  /** Skills candidate `c` can teach that the focal user `u` wants to learn. */
  function CanLearn(u: User, c: User): seq<string>
  {
    KeepIn(c.teachSkills, u.learnSkills)
  }

  /** The normalising bound: `min(|u teaches|, |c learns|) + min(|c teaches|, |u learns|)`. */
  function MaxPossibleSkillMatches(u: User, c: User): nat
  {
    Min(|u.teachSkills|, |c.learnSkills|) + Min(|c.teachSkills|, |u.learnSkills|)
  }

  /** Complementary skills found, as a percentage of the bound; 0 when the bound is 0. */
  function SkillComplementScore(u: User, c: User): (r: real)
    ensures r >= 0.0
  {
    var maxPossibleSkillMatches := MaxPossibleSkillMatches(u, c);
    var actualSkillMatches := |CanTeach(u, c)| + |CanLearn(u, c)|;
    if maxPossibleSkillMatches > 0 then
      PercentageSign(actualSkillMatches, maxPossibleSkillMatches);
      Percentage(actualSkillMatches, maxPossibleSkillMatches)
    else 0.0
  }

  /** The skill score is 0 exactly when neither user can teach the other anything the other wants. */
  lemma SkillScoreZero(u: User, c: User)
    ensures SkillComplementScore(u, c) == 0.0 <==> CanTeach(u, c) == [] && CanLearn(u, c) == []
  {
    var m := MaxPossibleSkillMatches(u, c);
    var n := |CanTeach(u, c)| + |CanLearn(u, c)|;
    if m > 0 {
      PercentageSign(n, m);
    } else {
      NoMatchesWithoutBound(u.teachSkills, c.learnSkills);
      NoMatchesWithoutBound(c.teachSkills, u.learnSkills);
    }
  }

  lemma NoMatchesWithoutBound(xs: seq<string>, ys: seq<string>)
    requires Min(|xs|, |ys|) == 0
    ensures KeepIn(xs, ys) == []
  {
  }

  /** With duplicate-free teach lists the skill score is at most 100, reached exactly when every possible match is made. */
  lemma SkillScoreAtMostHundred(u: User, c: User)
    requires Distinct(u.teachSkills) && Distinct(c.teachSkills)
    ensures 0.0 <= SkillComplementScore(u, c) <= 100.0
    ensures MaxPossibleSkillMatches(u, c) > 0 ==>
      (SkillComplementScore(u, c) == 100.0 <==> |CanTeach(u, c)| + |CanLearn(u, c)| == MaxPossibleSkillMatches(u, c))
  {
    KeepInOfDistinct(u.teachSkills, c.learnSkills);
    KeepInOfDistinct(c.teachSkills, u.learnSkills);
    var m := MaxPossibleSkillMatches(u, c);
    if m > 0 {
      PercentageAtMostHundred(|CanTeach(u, c)| + |CanLearn(u, c)|, m);
    }
  }

  /** A repeated teach skill is counted twice against a bound of one: the skill score reaches 200. */
  lemma DuplicateTeachSkillGives200()
    ensures var u := User("u", "", "", "", ["Python", "Python"], [], "", [], false);
      var c := User("c", "", "", "", [], ["Python"], "", [], false);
      CanTeach(u, c) == ["Python", "Python"] && SkillComplementScore(u, c) == 200.0
  {
    var u := User("u", "", "", "", ["Python", "Python"], [], "", [], false);
    var c := User("c", "", "", "", [], ["Python"], "", [], false);
    assert u.teachSkills[1..] == ["Python"] && ["Python"][1..] == [];
    assert MaxPossibleSkillMatches(u, c) == 1;
  }

  // ---------------------------------------------------------------------------
  // Scoring one candidate.

  /** Weights of the two sub-scores. */
  const SkillWeight: real := 0.7
  const AvailabilityWeight: real := 0.3

  /** The result the scorer builds for candidate `c`: its id, its weighted score and the skills exchanged. */
  function Evaluate(u: User, c: User): (r: MatchResult)
    requires WellFormedUser(u) && WellFormedUser(c)
    ensures r.userId == c.id
    ensures r.matchScore >= 0.0 && r.availabilityOverlap >= 0.0
    ensures forall s :: s in r.canTeach <==> s in u.teachSkills && s in c.learnSkills
    ensures forall s :: s in r.canLearn <==> s in c.teachSkills && s in u.learnSkills
  {
    var skillComplementScore := SkillComplementScore(u, c);
    var availabilityOverlap := OverlapPercent(u.availability, c.availability);
    MatchResult(
      c.id,
      skillComplementScore * SkillWeight + availabilityOverlap * AvailabilityWeight,
      CanTeach(u, c),
      CanLearn(u, c),
      availabilityOverlap)
  }

  /**
   * The score is never negative, and it is positive exactly when some skill is
   * complementary or the schedules overlap.
   */
  lemma MatchScorePositive(u: User, c: User)
    requires WellFormedUser(u) && WellFormedUser(c)
    ensures Evaluate(u, c).matchScore >= 0.0
    ensures Evaluate(u, c).matchScore > 0.0 <==>
      CanTeach(u, c) != [] || CanLearn(u, c) != [] || OverlapPercent(u.availability, c.availability) > 0.0
  {
    SkillScoreZero(u, c);
  }

  /** When both sub-scores are within [0, 100] so is the score (see SkillScoreAtMostHundred and OverlapPercentAtMostHundred). */
  lemma MatchScoreAtMostHundred(u: User, c: User)
    requires WellFormedUser(u) && WellFormedUser(c)
    requires SkillComplementScore(u, c) <= 100.0
    requires OverlapPercent(u.availability, c.availability) <= 100.0
    ensures 0.0 <= Evaluate(u, c).matchScore <= 100.0
  {
  }

  /**
   * The score is within [0, 100] when neither teach list repeats a skill and
   * each schedule has no backward slot and no two slots of one day that meet.
   */
  lemma MatchScoreWithinHundred(u: User, c: User)
    requires WellFormedUser(u) && WellFormedUser(c)
    requires Distinct(u.teachSkills) && Distinct(c.teachSkills)
    requires Ordered(u.availability) && OverlapBound.NoSelfOverlap(u.availability)
    requires Ordered(c.availability) && OverlapBound.NoSelfOverlap(c.availability)
    ensures 0.0 <= Evaluate(u, c).matchScore <= 100.0
  {
    SkillScoreAtMostHundred(u, c);
    OverlapBound.OverlapPercentAtMostHundred(u.availability, c.availability);
    MatchScoreAtMostHundred(u, c);
  }

  // ---------------------------------------------------------------------------
  // The pipeline: filter, map, filter, sort.

  /** The pool without the focal user (compared by id). */
  function OtherUsers(u: User, pool: seq<User>): (r: seq<User>)
    ensures |r| <= |pool|
    ensures forall c :: c in r <==> c in pool && c.id != u.id
  {
    if pool == [] then [] else (if pool[0].id != u.id then [pool[0]] else []) + OtherUsers(u, pool[1..])
  }

  /** Each pool member other than the focal user is kept as often as it occurs; the focal user's id is never kept. */
  lemma {:induction false} OtherUsersCount(u: User, pool: seq<User>, c: User)
    ensures Count(OtherUsers(u, pool), c) == if c.id != u.id then Count(pool, c) else 0
  {
    if pool != [] {
      OtherUsersCount(u, pool[1..], c);
      var head := if pool[0].id != u.id then [pool[0]] else [];
      CountAppend(head, OtherUsers(u, pool[1..]), c);
    }
  }

  /** The kept pool members keep their pool order. */
  lemma {:induction false} OtherUsersSubsequence(u: User, pool: seq<User>)
    ensures Subsequence(OtherUsers(u, pool), pool)
  {
    if pool != [] {
      OtherUsersSubsequence(u, pool[1..]);
      var r := OtherUsers(u, pool);
      var t := OtherUsers(u, pool[1..]);
      if pool[0].id != u.id {
        assert r == [pool[0]] + t;
        assert r[1..] == t;
      } else {
        assert r == t;
      }
    }
  }

  /** `cs.map(c => Evaluate(u, c))`. */
  function ScoreAll(u: User, cs: seq<User>): (r: seq<MatchResult>)
    requires WellFormedUser(u) && forall c :: c in cs ==> WellFormedUser(c)
    ensures |r| == |cs|
    ensures forall i :: 0 <= i < |cs| ==> r[i] == Evaluate(u, cs[i])
  {
    if cs == [] then [] else [Evaluate(u, cs[0])] + ScoreAll(u, cs[1..])
  }

  /** The results whose score is positive, in their order. */
  function Positive(rs: seq<MatchResult>): (r: seq<MatchResult>)
    ensures |r| <= |rs|
    ensures forall x :: x in r <==> x in rs && x.matchScore > 0.0
  {
    if rs == [] then [] else (if rs[0].matchScore > 0.0 then [rs[0]] else []) + Positive(rs[1..])
  }

  /** Each result with a positive score is kept as often as it occurs; no other result is kept. */
  lemma {:induction false} PositiveCount(rs: seq<MatchResult>, x: MatchResult)
    ensures Count(Positive(rs), x) == if x.matchScore > 0.0 then Count(rs, x) else 0
  {
    if rs != [] {
      PositiveCount(rs[1..], x);
      var head := if rs[0].matchScore > 0.0 then [rs[0]] else [];
      CountAppend(head, Positive(rs[1..]), x);
    }
  }

  /** The kept results keep their order. */
  lemma {:induction false} PositiveSubsequence(rs: seq<MatchResult>)
    ensures Subsequence(Positive(rs), rs)
  {
    if rs != [] {
      PositiveSubsequence(rs[1..]);
      var r := Positive(rs);
      var t := Positive(rs[1..]);
      if rs[0].matchScore > 0.0 {
        assert r == [rs[0]] + t;
        assert r[1..] == t;
      } else {
        assert r == t;
      }
    }
  }

  /** Non-increasing in score. */
  predicate SortedByScore(rs: seq<MatchResult>)
  {
    forall i, j :: 0 <= i < j < |rs| ==> rs[i].matchScore >= rs[j].matchScore
  }

  /** Inserts `r` into a list sorted by score, before the first entry with a score not above its own. */
  function Insert(r: MatchResult, rs: seq<MatchResult>): seq<MatchResult>
  {
    if rs == [] then [r]
    else if r.matchScore >= rs[0].matchScore then [r] + rs
    else [rs[0]] + Insert(r, rs[1..])
  }

  /** Inserting adds exactly one occurrence of `r` and nothing else. */
  lemma {:induction false} InsertPermutation(r: MatchResult, rs: seq<MatchResult>)
    ensures multiset(Insert(r, rs)) == multiset(rs) + multiset{r}
  {
    if rs != [] && r.matchScore < rs[0].matchScore {
      InsertPermutation(r, rs[1..]);
      assert rs == [rs[0]] + rs[1..];
    }
  }

  lemma SortedTail(rs: seq<MatchResult>)
    requires SortedByScore(rs) && rs != []
    ensures SortedByScore(rs[1..])
    ensures forall x :: x in rs[1..] ==> rs[0].matchScore >= x.matchScore
  {
    var tail := rs[1..];
    forall i, j | 0 <= i < j < |tail| ensures tail[i].matchScore >= tail[j].matchScore {
      assert tail[i] == rs[i + 1] && tail[j] == rs[j + 1];
    }
    forall x | x in tail ensures rs[0].matchScore >= x.matchScore {
      var m :| 0 <= m < |tail| && tail[m] == x;
      assert rs[m + 1] == x;
    }
  }

  lemma SortedCons(x: MatchResult, rs: seq<MatchResult>)
    requires SortedByScore(rs)
    requires forall y :: y in rs ==> x.matchScore >= y.matchScore
    ensures SortedByScore([x] + rs)
  {
    var out := [x] + rs;
    forall i, j | 0 <= i < j < |out| ensures out[i].matchScore >= out[j].matchScore {
      assert out[j] == rs[j - 1];
      if i > 0 {
        assert out[i] == rs[i - 1];
      } else {
        assert rs[j - 1] in rs;
      }
    }
  }

  /** Inserting into a sorted list keeps it sorted. */
  lemma {:induction false} InsertSorted(r: MatchResult, rs: seq<MatchResult>)
    requires SortedByScore(rs)
    ensures SortedByScore(Insert(r, rs))
  {
    if rs == [] {
    } else if r.matchScore >= rs[0].matchScore {
      SortedTail(rs);
      SortedCons(r, rs);
    } else {
      SortedTail(rs);
      InsertSorted(r, rs[1..]);
      InsertPermutation(r, rs[1..]);
      var ins := Insert(r, rs[1..]);
      forall y | y in ins ensures rs[0].matchScore >= y.matchScore {
        assert y in multiset(ins);
      }
      SortedCons(rs[0], ins);
    }
  }

  /**
   * `sort((a, b) => b.matchScore - a.matchScore)`: a permutation of the input,
   * highest score first; the order among equal scores is not specified.
   */
  function SortByScore(rs: seq<MatchResult>): (r: seq<MatchResult>)
    ensures multiset(r) == multiset(rs) && |r| == |rs|
    ensures SortedByScore(r)
  {
    if rs == [] then []
    else
      var sorted := SortByScore(rs[1..]);
      SortStep(rs, sorted);
      Insert(rs[0], sorted)
  }

  /** Inserting the head into the sorted tail sorts the whole list. */
  lemma SortStep(rs: seq<MatchResult>, sorted: seq<MatchResult>)
    requires rs != [] && multiset(sorted) == multiset(rs[1..]) && SortedByScore(sorted)
    ensures multiset(Insert(rs[0], sorted)) == multiset(rs) && |Insert(rs[0], sorted)| == |rs|
    ensures SortedByScore(Insert(rs[0], sorted))
  {
    var r := Insert(rs[0], sorted);
    InsertPermutation(rs[0], sorted);
    InsertSorted(rs[0], sorted);
    assert rs == [rs[0]] + rs[1..];
    assert |multiset(r)| == |r| && |multiset(rs)| == |rs|;
  }

  /** The users all have well-formed schedules. */
  predicate WellFormedPool(pool: seq<User>)
  {
    forall c :: c in pool ==> WellFormedUser(c)
  }

  /** The scored, positive candidates before sorting. Only the candidates other than the focal user are scored. */
  function Survivors(u: User, pool: seq<User>): seq<MatchResult>
    requires WellFormedUser(u) && WellFormedPool(OtherUsers(u, pool))
  {
    Positive(ScoreAll(u, OtherUsers(u, pool)))
  }

  /**
   * `calculateMatches(currentUser, potentialMatches)`: the surviving scored
   * candidates, each as often as it survives, sorted highest score first.
   */
  function CalculateMatches(u: User, pool: seq<User>): (r: seq<MatchResult>)
    requires WellFormedUser(u) && WellFormedPool(OtherUsers(u, pool))
    ensures multiset(r) == multiset(Survivors(u, pool)) && |r| == |Survivors(u, pool)|
    ensures SortedByScore(r)
  {
    SortByScore(Survivors(u, pool))
  }

  /**
   * Reference for the pipeline: one pass over the pool that evaluates each
   * candidate other than the focal user and keeps it when its score is positive.
   */
  function Qualifying(u: User, pool: seq<User>): seq<MatchResult>
    requires WellFormedUser(u) && WellFormedPool(OtherUsers(u, pool))
  {
    if pool == [] then []
    else
      assert forall c :: c in OtherUsers(u, pool[1..]) ==> c in OtherUsers(u, pool);
      var rest := Qualifying(u, pool[1..]);
      if pool[0].id != u.id && Evaluate(u, pool[0]).matchScore > 0.0 then [Evaluate(u, pool[0])] + rest
      else rest
  }

  /** Filtering, mapping and filtering again is the single pass, result for result, in pool order. */
  lemma {:induction false} SurvivorsAreQualifying(u: User, pool: seq<User>)
    requires WellFormedUser(u) && WellFormedPool(OtherUsers(u, pool))
    ensures Survivors(u, pool) == Qualifying(u, pool)
  {
    if pool != [] {
      var c := pool[0];
      var others := OtherUsers(u, pool[1..]);
      assert forall x :: x in others ==> x in OtherUsers(u, pool);
      SurvivorsAreQualifying(u, pool[1..]);
      if c.id != u.id {
        assert OtherUsers(u, pool) == [c] + others;
        SurvivorsCons(u, c, others);
      } else {
        assert OtherUsers(u, pool) == others;
      }
    }
  }

  lemma SurvivorsCons(u: User, c: User, cs: seq<User>)
    requires WellFormedUser(u) && WellFormedUser(c) && WellFormedPool(cs)
    ensures var r := Evaluate(u, c);
      Positive(ScoreAll(u, [c] + cs)) == (if r.matchScore > 0.0 then [r] else []) + Positive(ScoreAll(u, cs))
  {
    var scored := ScoreAll(u, [c] + cs);
    assert ([c] + cs)[1..] == cs;
    assert scored[0] == Evaluate(u, c) && scored[1..] == ScoreAll(u, cs);
  }

  /** There is one result per candidate that is not the focal user and scores positively, and no other. */
  lemma CalculateMatchesPerCandidate(u: User, pool: seq<User>)
    requires WellFormedUser(u) && WellFormedPool(OtherUsers(u, pool))
    ensures multiset(CalculateMatches(u, pool)) == multiset(Qualifying(u, pool))
    ensures |CalculateMatches(u, pool)| == |Qualifying(u, pool)|
  {
    SurvivorsAreQualifying(u, pool);
  }

  lemma ScoreAllMembers(u: User, cs: seq<User>, r: MatchResult)
    requires WellFormedUser(u) && WellFormedPool(cs)
    ensures r in ScoreAll(u, cs) <==> exists c :: c in cs && r == Evaluate(u, c)
  {
    var rs := ScoreAll(u, cs);
    if r in rs {
      var i :| 0 <= i < |rs| && rs[i] == r;
      assert cs[i] in cs;
    }
    if exists c :: c in cs && r == Evaluate(u, c) {
      var c :| c in cs && r == Evaluate(u, c);
      var i :| 0 <= i < |cs| && cs[i] == c;
      assert rs[i] == r;
    }
  }

  /** The results are exactly the positive-scoring evaluations of the candidates other than the focal user. */
  lemma CalculateMatchesMembers(u: User, pool: seq<User>, r: MatchResult)
    requires WellFormedUser(u) && WellFormedPool(OtherUsers(u, pool))
    ensures r in CalculateMatches(u, pool) <==>
      exists c :: c in pool && c.id != u.id && r == Evaluate(u, c) && r.matchScore > 0.0
  {
    var others := OtherUsers(u, pool);
    assert r in CalculateMatches(u, pool) <==> r in multiset(Survivors(u, pool));
    ScoreAllMembers(u, others, r);
  }

  /** No result is the focal user and every result has a positive score. */
  lemma CalculateMatchesInvariants(u: User, pool: seq<User>)
    requires WellFormedUser(u) && WellFormedPool(OtherUsers(u, pool))
    ensures forall r :: r in CalculateMatches(u, pool) ==> r.userId != u.id && r.matchScore > 0.0
  {
    forall r | r in CalculateMatches(u, pool) ensures r.userId != u.id && r.matchScore > 0.0 {
      CalculateMatchesMembers(u, pool, r);
    }
  }

  lemma {:induction false} OtherUsersShorter(u: User, pool: seq<User>)
    ensures u.id in (set c | c in pool :: c.id) ==> |OtherUsers(u, pool)| < |pool|
  {
    if pool != [] {
      OtherUsersShorter(u, pool[1..]);
      if pool[0].id != u.id && u.id in (set c | c in pool :: c.id) {
        var c :| c in pool && c.id == u.id;
        assert c in pool[1..];
        assert u.id in (set c | c in pool[1..] :: c.id);
      }
    }
  }

  /** There are never more results than candidates, and at least one fewer when the focal user is in the pool. */
  lemma CalculateMatchesLength(u: User, pool: seq<User>)
    requires WellFormedUser(u) && WellFormedPool(OtherUsers(u, pool))
    ensures |CalculateMatches(u, pool)| <= |pool|
    ensures (exists c :: c in pool && c.id == u.id) ==> |CalculateMatches(u, pool)| <= |pool| - 1
  {
    if exists c :: c in pool && c.id == u.id {
      var c :| c in pool && c.id == u.id;
      assert u.id in (set c | c in pool :: c.id);
      OtherUsersShorter(u, pool);
    }
  }

  // ---------------------------------------------------------------------------
  // Worked examples.

  /** Mutual teachers of each other's wish with one identical Monday slot score 100. */
  lemma PerfectPairScoresHundred()
    ensures var mon := Slot("Monday", "09:00", "17:00");
      var a := User("a", "", "", "", ["Python"], ["Guitar"], "", [mon], false);
      var b := User("b", "", "", "", ["Guitar"], ["Python"], "", [mon], false);
      WellFormedUser(a) && WellFormedUser(b)
      && SkillComplementScore(a, b) == 100.0
      && OverlapPercent(a.availability, b.availability) == 100.0
      && Evaluate(a, b).matchScore == 100.0
  {
    var mon := Slot("Monday", "09:00", "17:00");
    var a := User("a", "", "", "", ["Python"], ["Guitar"], "", [mon], false);
    var b := User("b", "", "", "", ["Guitar"], ["Python"], "", [mon], false);
    assert ["Python"][1..] == [] && ["Guitar"][1..] == [];
    assert CanTeach(a, b) == ["Python"] && CanLearn(a, b) == ["Guitar"];
    assert MaxPossibleSkillMatches(a, b) == 2;
    SampleTimes();
    assert StartMinutes(mon) == 540 && EndMinutes(mon) == 1020;
    assert PairOverlap(mon, mon) == 480;
    assert [mon][..0] == [];
    assert RowOverlap(mon, [mon]) == 480;
    assert OverlapMinutes([mon], [mon]) == 480;
    assert TotalAvailableMinutes([mon]) == 480;
  }

  /**
   * A one-way match still counts: `a` teaches Python, which `b` wants, and
   * nothing else is listed. The bound is min(1, 1) + min(0, 0) = 1, the skill
   * score 100 and the match score 70, so `b` is kept.
   */
  lemma OneWayMatchIsKept()
    ensures var a := User("a", "", "", "", ["Python"], [], "", [], false);
      var b := User("b", "", "", "", [], ["Python"], "", [], false);
      && MaxPossibleSkillMatches(a, b) == 1
      && SkillComplementScore(a, b) == 100.0
      && Evaluate(a, b).matchScore == 70.0
      && CalculateMatches(a, [b]) == [Evaluate(a, b)]
  {
    var a := User("a", "", "", "", ["Python"], [], "", [], false);
    var b := User("b", "", "", "", [], ["Python"], "", [], false);
    assert ["Python"][1..] == [];
    assert CanTeach(a, b) == ["Python"] && CanLearn(a, b) == [];
    var r := Evaluate(a, b);
    assert r.matchScore == 70.0;
    assert [b][1..] == [];
    assert OtherUsers(a, [b]) == [b];
    assert ScoreAll(a, [b]) == [r];
    assert Positive([r]) == [r];
  }
}
