/** The job endpoints: creation, the active toggle, search filters and "my jobs". */
module JobViews {
  import opened Wrappers
  import opened Responses
  import opened UserModel
  import opened JobModel
  import opened Store

  /** `perform_create`: the requesting user is recorded as the creator. */
  method PerformCreate(s: Store, actor: UserId, draft: JobDraft) returns (id: JobId)
    requires s.Valid() && actor in s.users
    modifies s
    ensures s.Valid()
    ensures id !in old(s.jobs) && s.jobs == old(s.jobs)[id := NewJob(draft, actor)]
    ensures id in MyJobs(s.jobs, actor)
    ensures s.users == old(s.users) && s.applications == old(s.applications)
  {
    id := s.CreateJob(NewJob(draft, actor));
  }

  /**
    `toggle_active`: negates `is_active` of one job and returns the new value; no
    ownership check. `get_object()` looks the job up in the queryset after the
    view's filter backends have applied the request's query string; `visible` is
    the set of ids that filtered queryset holds.
  */
  method ToggleActive(s: Store, visible: set<JobId>, pk: JobId) returns (r: Result<bool>)
    requires s.Valid()
    modifies s
    ensures s.Valid()
    ensures r.Err? <==> pk !in old(s.jobs) || pk !in visible
    ensures r.Err? ==> r.error == NotFound && unchanged(s)
    ensures r.Ok? ==>
      && s.jobs == old(s.jobs)[pk := old(s.jobs)[pk].(isActive := !old(s.jobs)[pk].isActive)]
      && r.value == s.jobs[pk].isActive
      && s.users == old(s.users) && s.applications == old(s.applications)
  {
    if pk !in s.jobs || pk !in visible {
      return Err(NotFound);
    }
    var job := s.jobs[pk];
    job := job.(isActive := !job.isActive);
    s.SaveJob(pk, job);
    return Ok(job.isActive);
  }

  /**
    Toggling a job twice restores the job table, and the two calls report opposite
    values. The same `visible` serves both calls: no filter of the view reads `is_active`.
  */
  method ToggleTwice(s: Store, visible: set<JobId>, pk: JobId) returns (first: Result<bool>, second: Result<bool>)
    requires s.Valid()
    modifies s
    ensures s.Valid()
    ensures s.jobs == old(s.jobs) && s.users == old(s.users) && s.applications == old(s.applications)
    ensures first.Ok? <==> second.Ok?
    ensures first.Ok? ==> second.value == !first.value
  {
    first := ToggleActive(s, visible, pk);
    second := ToggleActive(s, visible, pk);
  }

  /** `my_jobs`: the jobs whose creator is `actor`. */
  function MyJobs(jobs: map<JobId, Job>, actor: UserId): (r: set<JobId>)
    ensures forall j :: j in r <==> j in jobs && jobs[j].createdBy == actor
  {
    set j | j in jobs && jobs[j].createdBy == actor
  }

  /** ASCII lower-casing, the case folding of a case-insensitive `LIKE`. */
  function Lower(c: char): char {
    if 'A' <= c <= 'Z' then (c as int + 32) as char else c
  }

  function LowerString(s: string): (r: string)
    ensures |r| == |s| && forall i :: 0 <= i < |s| ==> r[i] == Lower(s[i])
  {
    seq(|s|, i requires 0 <= i < |s| => Lower(s[i]))
  }

  /** `needle` occurs in `hay` starting at position `i`. */
  predicate OccursAt(hay: string, needle: string, i: int) {
    0 <= i && i + |needle| <= |hay| && hay[i..i + |needle|] == needle
  }

  /** `needle` occurs in `hay` as a contiguous substring. */
  predicate Contains(hay: string, needle: string) {
    exists i :: 0 <= i <= |hay| - |needle| && OccursAt(hay, needle, i)
  }

  /** `field__icontains=value`. */
  predicate IContains(hay: string, needle: string) {
    Contains(LowerString(hay), LowerString(needle))
  }

  /** A query parameter that is present and not empty, so its filter applies. */
  predicate Given(p: Option<string>) {
    p.Some? && p.value != ""
  }

  /** The three extra filters of `search`, each applied only when its parameter is given. */
  predicate MatchesSearch(j: Job, location: Option<string>, jobType: Option<string>, category: Option<string>) {
    && (Given(location) ==> IContains(j.location, location.value))
    && (Given(jobType) ==> JobTypeName(j.jobType) == jobType.value)
    && (Given(category) ==> IContains(j.category, category.value))
  }

  /** `queryset.filter(...)`: the rows of `q` that satisfy `keep`, in their order. */
  function Where(q: seq<Job>, keep: Job -> bool): (r: seq<Job>)
    ensures |r| <= |q|
    ensures forall j :: j in r <==> j in q && keep(j)
  {
    if q == [] then []
    else
      assert q == [q[0]] + q[1..];
      (if keep(q[0]) then [q[0]] else []) + Where(q[1..], keep)
  }

  /**
    The custom part of `search`: `q` is the queryset the framework's filter backends
    return, narrowed by location, job type and category in turn.
  */
  function Search(q: seq<Job>, location: Option<string>, jobType: Option<string>, category: Option<string>)
    : (r: seq<Job>)
    ensures |r| <= |q|
    ensures forall j :: j in r <==> j in q && MatchesSearch(j, location, jobType, category)
  {
    var byLocation :=
      if Given(location) then var l := location.value; Where(q, (j: Job) => IContains(j.location, l)) else q;
    var byType :=
      if Given(jobType) then var t := jobType.value; Where(byLocation, (j: Job) => JobTypeName(j.jobType) == t) else byLocation;
    if Given(category) then var c := category.value; Where(byType, (j: Job) => IContains(j.category, c)) else byType
  }

  /** A `job_type` value that names none of the six choices finds nothing. */
  lemma UnknownJobTypeFindsNothing(q: seq<Job>, location: Option<string>, jobType: Option<string>, category: Option<string>)
    requires Given(jobType) && ParseJobType(jobType.value) == None
    ensures forall j :: j !in Search(q, location, jobType, category)
  {
  }

  /** The location and category filters do not depend on the case of ASCII letters in the query. */
  lemma SearchIgnoresCase(j: Job, location: string, jobType: Option<string>, category: string)
    ensures MatchesSearch(j, Some(LowerString(location)), jobType, Some(LowerString(category)))
        <==> MatchesSearch(j, Some(location), jobType, Some(category))
  {
    assert LowerString(LowerString(location)) == LowerString(location);
    assert LowerString(LowerString(category)) == LowerString(category);
    assert LowerString(location) == "" <==> location == "";
    assert LowerString(category) == "" <==> category == "";
  }
}
