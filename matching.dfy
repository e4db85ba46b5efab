/**
  The skill matcher: suggests active jobs to a job seeker by the share of each
  job's required skills the seeker has, best first, at most ten of them.
*/
module Matching {
  import opened Wrappers
  import opened UserModel
  import opened JobModel

  /** A job is suggested only if the seeker has at least this percentage of its skills. */
  const MinMatchPercent: nat := 30

  /** At most this many suggestions are returned. */
  const MaxSuggestions: nat := 10

  /** `set(skills)`. */
  function SkillSet(skills: seq<string>): set<string> {
    set s | s in skills
  }

  /** `job.required_skills or []`: a null column reads as the empty list. */
  function JobSkills(job: Job): seq<string> {
    job.requiredSkills.GetOr([])
  }

  /** `matched / required * 100`, as an exact rational rather than a float. */
  function Percentage(matched: nat, required: nat): (p: real)
    requires 0 < required
    ensures 0.0 <= p
    ensures matched <= required ==> p <= 100.0
    ensures p >= MinMatchPercent as real <==> matched * 100 >= MinMatchPercent * required
  {
    PercentageFacts(matched, required);
    (matched * 100) as real / required as real
  }

  lemma PercentageFacts(matched: nat, required: nat)
    requires 0 < required
    ensures var p := (matched * 100) as real / required as real;
      && 0.0 <= p
      && (matched <= required ==> p <= 100.0)
      && (p >= MinMatchPercent as real <==> matched * 100 >= MinMatchPercent * required)
  {
    var d := required as real;
    var m := (matched * 100) as real;
    DivAtLeast(m, d, 0.0);
    DivAtLeast(m, d, MinMatchPercent as real);
    assert (MinMatchPercent * required) as real == MinMatchPercent as real * d;
    if matched <= required {
      assert m <= 100.0 * d;
      DivAtMost(m, d, 100.0);
    }
  }

  lemma DivAtLeast(m: real, d: real, t: real)
    requires d > 0.0
    ensures m / d >= t <==> m >= t * d
  {
    var p := m / d;
    assert p * d == m;
    assert p * d - t * d == (p - t) * d;
    if p >= t {
      assert (p - t) * d >= 0.0;
    } else {
      assert (p - t) * d < 0.0;
    }
  }

  lemma DivAtMost(m: real, d: real, t: real)
    requires d > 0.0
    ensures m / d <= t <==> m <= t * d
  {
    var p := m / d;
    assert p * d == m;
    assert t * d - p * d == (t - p) * d;
    if p <= t {
      assert (t - p) * d >= 0.0;
    } else {
      assert (t - p) * d < 0.0;
    }
  }

  /** One entry of `scored_jobs`: the job, its score and the two skill sets. */
  datatype ScoredJob = ScoredJob(job: Job, score: real, matching: set<string>, missing: set<string>)

  /**
    The entry for a job with required skills: the skills the seeker has and lacks
    among them, and the percentage they have.
  */
  function Assess(userSkills: seq<string>, job: Job): (r: ScoredJob)
    requires JobSkills(job) != []
    ensures r.job == job
    ensures forall s :: s in r.matching <==> s in userSkills && s in JobSkills(job)
    ensures forall s :: s in r.missing <==> s in JobSkills(job) && s !in userSkills
    ensures r.matching + r.missing == SkillSet(JobSkills(job)) && r.matching !! r.missing
    ensures 0 < |SkillSet(JobSkills(job))| == |r.matching| + |r.missing|
    ensures r.score == Percentage(|r.matching|, |SkillSet(JobSkills(job))|)
    ensures 0.0 <= r.score <= 100.0
  {
    var userSet := SkillSet(userSkills);
    var jobSet := SkillSet(JobSkills(job));
    var matching := userSet * jobSet;
    var missing := jobSet - userSet;
    assert JobSkills(job)[0] in jobSet;
    assert jobSet == matching + missing && matching !! missing;
    ScoredJob(job, Percentage(|matching|, |jobSet|), matching, missing)
  }

  /** The jobs the first loop keeps: active, with required skills, and a score of at least 30. */
  predicate Qualifies(userSkills: seq<string>, job: Job) {
    job.isActive && JobSkills(job) != [] && Assess(userSkills, job).score >= MinMatchPercent as real
  }

  /** The threshold in integers: kept iff `|matching| * 100 >= 30 * |job skill set|`. */
  lemma QualifiesIffEnoughOverlap(userSkills: seq<string>, job: Job)
    ensures Qualifies(userSkills, job) <==>
      && job.isActive && JobSkills(job) != []
      && |SkillSet(userSkills) * SkillSet(JobSkills(job))| * 100 >= MinMatchPercent * |SkillSet(JobSkills(job))|
  {
    if job.isActive && JobSkills(job) != [] {
      var r := Assess(userSkills, job);
      assert r.matching == SkillSet(userSkills) * SkillSet(JobSkills(job));
    }
  }

  /** `scored_jobs` after the first loop over `jobs`, in the order of `jobs`. */
  function ScoreJobs(userSkills: seq<string>, jobs: seq<Job>): (r: seq<ScoredJob>)
    ensures |r| <= |jobs|
    ensures forall e :: e in r ==> e.job in jobs && Qualifies(userSkills, e.job) && e == Assess(userSkills, e.job)
    ensures forall j :: j in jobs && Qualifies(userSkills, j) ==> Assess(userSkills, j) in r
  {
    if jobs == [] then []
    else
      var init := jobs[..|jobs| - 1];
      var last := jobs[|jobs| - 1];
      assert jobs == init + [last];
      ScoreJobs(userSkills, init) + (if Qualifies(userSkills, last) then [Assess(userSkills, last)] else [])
  }

  /** One more iteration of the first loop appends the next job's entry if it qualifies. */
  lemma ScoreJobsStep(userSkills: seq<string>, jobs: seq<Job>, i: nat)
    requires i < |jobs|
    ensures ScoreJobs(userSkills, jobs[..i + 1]) == ScoreJobs(userSkills, jobs[..i]) +
      (if Qualifies(userSkills, jobs[i]) then [Assess(userSkills, jobs[i])] else [])
  {
    assert jobs[..i + 1][..i] == jobs[..i];
  }

  /** Non-increasing by score. */
  predicate SortedByScore(s: seq<ScoredJob>) {
    forall i, j :: 0 <= i < j < |s| ==> s[i].score >= s[j].score
  }

  /** Places `x` before the first element of `s` that does not score higher. */
  function InsertByScore(x: ScoredJob, s: seq<ScoredJob>): (r: seq<ScoredJob>)
    ensures |r| == |s| + 1
    ensures multiset(r) == multiset(s) + multiset{x}
  {
    if s == [] || x.score >= s[0].score then [x] + s
    else
      assert s == [s[0]] + s[1..];
      [s[0]] + InsertByScore(x, s[1..])
  }

  lemma ConsSorted(h: ScoredJob, t: seq<ScoredJob>)
    requires SortedByScore(t) && (t == [] || h.score >= t[0].score)
    ensures SortedByScore([h] + t)
  {
    var r := [h] + t;
    forall i, j | 0 <= i < j < |r| ensures r[i].score >= r[j].score {
      assert r[j] == t[j - 1];
      if i == 0 {
        assert t[0].score >= t[j - 1].score;
      } else {
        assert r[i] == t[i - 1];
      }
    }
  }

  lemma {:induction false} InsertKeepsSorted(x: ScoredJob, s: seq<ScoredJob>)
    requires SortedByScore(s)
    ensures SortedByScore(InsertByScore(x, s))
    ensures InsertByScore(x, s)[0] == x || (s != [] && InsertByScore(x, s)[0] == s[0])
  {
    if s == [] || x.score >= s[0].score {
      ConsSorted(x, s);
    } else {
      var tail := s[1..];
      assert SortedByScore(tail) by {
        forall i, j | 0 <= i < j < |tail| ensures tail[i].score >= tail[j].score {
          assert tail[i] == s[i + 1] && tail[j] == s[j + 1];
        }
      }
      InsertKeepsSorted(x, tail);
      assert tail != [] ==> s[0].score >= tail[0].score;
      ConsSorted(s[0], InsertByScore(x, tail));
    }
  }

  /**
    `scored_jobs.sort(key=score, reverse=True)`: Python's sort is stable, also when
    reversed, so this is an insertion sort that keeps ties in their first order.
  */
  function SortByScore(s: seq<ScoredJob>): (r: seq<ScoredJob>)
    ensures |r| == |s|
    ensures multiset(r) == multiset(s)
    ensures SortedByScore(r)
  {
    if s == [] then []
    else
      assert s == [s[0]] + s[1..];
      var rest := SortByScore(s[1..]);
      InsertKeepsSorted(s[0], rest);
      InsertByScore(s[0], rest)
  }

  /** The entries of `s` whose score is `v`, in their order in `s`. */
  function WithScore(s: seq<ScoredJob>, v: real): seq<ScoredJob> {
    if s == [] then [] else (if s[0].score == v then [s[0]] else []) + WithScore(s[1..], v)
  }

  lemma {:induction false} InsertKeepsTies(x: ScoredJob, s: seq<ScoredJob>, v: real)
    ensures WithScore(InsertByScore(x, s), v) == WithScore([x], v) + WithScore(s, v)
  {
    assert [x][1..] == [];
    if s == [] || x.score >= s[0].score {
      assert ([x] + s)[1..] == s;
    } else {
      InsertKeepsTies(x, s[1..], v);
      var r := [s[0]] + InsertByScore(x, s[1..]);
      assert r[1..] == InsertByScore(x, s[1..]);
    }
  }

  /** The sort is stable: among entries with equal scores, the order is that of the input. */
  lemma {:induction false} SortIsStable(s: seq<ScoredJob>, v: real)
    ensures WithScore(SortByScore(s), v) == WithScore(s, v)
  {
    if s != [] {
      var rest := SortByScore(s[1..]);
      assert SortByScore(s) == InsertByScore(s[0], rest);
      SortIsStable(s[1..], v);
      InsertKeepsTies(s[0], rest, v);
      assert [s[0]][1..] == [];
      assert WithScore([s[0]], v) == if s[0].score == v then [s[0]] else [];
    }
  }

  /**
   * The suggestions `jobs_for_me` returns: the first `MaxSuggestions` entries of
   * the ranking, each a qualifying active job with its assessment, best first.
   */
  function Suggestions(userSkills: seq<string>, jobs: seq<Job>): (r: seq<ScoredJob>)
    ensures |r| == (if |ScoreJobs(userSkills, jobs)| < MaxSuggestions
                    then |ScoreJobs(userSkills, jobs)| else MaxSuggestions)
    ensures r == SortByScore(ScoreJobs(userSkills, jobs))[..|r|]
    ensures SortedByScore(r)
    ensures forall e :: e in r ==>
      && e.job in jobs && e.job.isActive && JobSkills(e.job) != []
      && e == Assess(userSkills, e.job)
      && MinMatchPercent as real <= e.score <= 100.0
  {
    var k := if |ScoreJobs(userSkills, jobs)| < MaxSuggestions then |ScoreJobs(userSkills, jobs)| else MaxSuggestions;
    TopOfRanking(userSkills, jobs, k);
    SortByScore(ScoreJobs(userSkills, jobs))[..k]
  }

  /** The first `k` entries of the ranking are sorted, and each comes from `ScoreJobs`. */
  lemma TopOfRanking(userSkills: seq<string>, jobs: seq<Job>, k: nat)
    requires k <= |ScoreJobs(userSkills, jobs)|
    ensures SortedByScore(SortByScore(ScoreJobs(userSkills, jobs))[..k])
    ensures forall e :: e in SortByScore(ScoreJobs(userSkills, jobs))[..k] ==>
      && e.job in jobs && e.job.isActive && JobSkills(e.job) != []
      && e == Assess(userSkills, e.job)
      && MinMatchPercent as real <= e.score <= 100.0
  {
    var scored := ScoreJobs(userSkills, jobs);
    var top := SortByScore(scored)[..k];
    forall e | e in top
      ensures && e.job in jobs && e.job.isActive && JobSkills(e.job) != []
              && e == Assess(userSkills, e.job)
              && MinMatchPercent as real <= e.score <= 100.0
    {
      assert e in multiset(SortByScore(scored));
      assert e in scored;
    }
  }

  /** The first loop of `jobs_for_me`: collects the entry of every qualifying job, in order. */
  method ScoreActiveJobs(userSkills: seq<string>, jobs: seq<Job>) returns (scored: seq<ScoredJob>)
    ensures scored == ScoreJobs(userSkills, jobs)
  {
    scored := [];
    var i := 0;
    while i < |jobs|
      invariant 0 <= i <= |jobs|
      invariant scored == ScoreJobs(userSkills, jobs[..i])
    {
      var job := jobs[i];
      ScoreJobsStep(userSkills, jobs, i);
      if job.isActive && JobSkills(job) != [] {
        var entry := Assess(userSkills, job);
        if entry.score >= MinMatchPercent as real {
          scored := scored + [entry];
        }
      }
      i := i + 1;
    }
    assert jobs[..|jobs|] == jobs;
  }

  /** The second loop of `jobs_for_me`: the first `limit` entries of the sorted list. */
  method FirstEntries(sorted: seq<ScoredJob>, limit: nat) returns (result: seq<ScoredJob>)
    requires limit <= |sorted|
    ensures result == sorted[..limit]
  {
    result := [];
    var i := 0;
    while i < limit
      invariant 0 <= i <= limit
      invariant result == sorted[..i]
    {
      result := result + [sorted[i]];
      i := i + 1;
    }
  }

  /** The response of `jobs_for_me`. */
  datatype MatchResponse =
    | NotJobSeeker  // 403
    | NoSkills      // the "add skills" message with an empty `suggested_jobs`
    | Matches(userSkills: seq<string>, totalMatchesFound: nat, suggestedJobs: seq<ScoredJob>)

  /**
    `jobs_for_me` for `user`, where `jobs` is the job table in the order the database
    returns it (the `is_active` filter is applied row by row).
  */
  method JobsForMe(user: User, jobs: seq<Job>) returns (r: MatchResponse)
    ensures r.NotJobSeeker? <==> user.role != JobSeeker
    ensures r.NoSkills? <==> user.role == JobSeeker && SkillsOf(user) == []
    ensures r.Matches? ==>
      && r.userSkills == SkillsOf(user)
      && r.totalMatchesFound == |ScoreJobs(SkillsOf(user), jobs)|
      && r.suggestedJobs == Suggestions(SkillsOf(user), jobs)
  {
    if user.role != JobSeeker {
      return NotJobSeeker;
    }
    var userSkills := SkillsOf(user);
    if userSkills == [] {
      return NoSkills;
    }
    var scored := ScoreActiveJobs(userSkills, jobs);
    var sorted := SortByScore(scored);
    var limit := if |sorted| < MaxSuggestions then |sorted| else MaxSuggestions;
    var result := FirstEntries(sorted, limit);
    r := Matches(userSkills, |scored|, result);
  }

  /** The response of `skill_analysis`. */
  datatype SkillReport =
    | SkillsForbidden  // 403
    | SkillSummary(skillsCount: nat, skills: seq<string>, analysed: bool)

  /** `skill_analysis` for `user`: how many skills the profile lists, and which. */
  function SkillAnalysis(user: User): (r: SkillReport)
    ensures r.SkillsForbidden? <==> user.role != JobSeeker
    ensures r.SkillSummary? ==>
      && r.skills == SkillsOf(user)
      && r.skillsCount == |r.skills|
      && (r.analysed <==> r.skillsCount > 0)
  {
    if user.role != JobSeeker then SkillsForbidden
    else if SkillsOf(user) == [] then SkillSummary(0, [], false)
    else SkillSummary(|SkillsOf(user)|, SkillsOf(user), true)
  }
}
