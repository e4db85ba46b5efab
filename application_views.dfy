/**
  The application endpoints: role-scoped listing, creation with duplicate
  prevention, status updates, and the per-job listing for its owner.
*/
module ApplicationViews {
  import opened Wrappers
  import opened Responses
  import opened UserModel
  import opened JobModel
  import opened ApplicationModel
  import opened Store

  /** Whether `app` is for a job that `uid` created (`job__created_by=user`). */
  predicate OnJobOf(jobs: map<JobId, Job>, app: Application, uid: UserId) {
    app.job in jobs && jobs[app.job].createdBy == uid
  }

  /**
    `get_queryset`: the applications `actor` can reach. A seeker reaches their own;
    a recruiter or an admin reaches those on jobs they created; any other role none.
  */
  function Queryset(users: map<UserId, User>, jobs: map<JobId, Job>, apps: map<AppId, Application>, actor: UserId)
    : (r: set<AppId>)
    requires actor in users
    ensures r <= apps.Keys
    ensures users[actor].role == JobSeeker ==>
      forall a :: a in r <==> a in apps && apps[a].jobSeeker == actor
    ensures users[actor].role in {Recruiter, Admin} ==>
      forall a :: a in r <==> a in apps && OnJobOf(jobs, apps[a], actor)
    ensures users[actor].role == Unrecognised ==> r == {}
  {
    match users[actor].role
    case JobSeeker => set a | a in apps && apps[a].jobSeeker == actor
    case Recruiter => set a | a in apps && OnJobOf(jobs, apps[a], actor)
    case Admin => set a | a in apps && OnJobOf(jobs, apps[a], actor)
    case Unrecognised => {}
  }

  /** Each application is visible both to its seeker and to its job's (recruiter or admin) owner. */
  lemma BothPartiesSeeApplication(users: map<UserId, User>, jobs: map<JobId, Job>, apps: map<AppId, Application>, a: AppId)
    requires Integrity(users, jobs, apps) && a in apps
    ensures users[apps[a].jobSeeker].role == JobSeeker ==> a in Queryset(users, jobs, apps, apps[a].jobSeeker)
    ensures var owner := jobs[apps[a].job].createdBy;
      users[owner].role in {Recruiter, Admin} ==> a in Queryset(users, jobs, apps, owner)
  {
  }

  /** An admin reaches only the applications on jobs they created themselves. */
  lemma AdminReachesOnlyOwnJobs(users: map<UserId, User>, jobs: map<JobId, Job>, apps: map<AppId, Application>, actor: UserId, a: AppId)
    requires Integrity(users, jobs, apps) && actor in users && users[actor].role == Admin
    requires a in apps && jobs[apps[a].job].createdBy != actor
    ensures a !in Queryset(users, jobs, apps, actor)
  {
  }

  /**
    `perform_create` (the plain POST): no role check. The status, cover letter and
    resume URL are the validated request fields, each defaulted when left out.
  */
  method PerformCreate(s: Store, actor: UserId, jobId: JobId, status: Option<Status>,
                       coverLetter: Option<string>, resumeUrl: Option<string>)
    returns (r: Result<AppId>)
    requires s.Valid() && actor in s.users
    modifies s
    ensures s.Valid()
    ensures r == Err(NotFound) <==> !(jobId in old(s.jobs) && old(s.jobs)[jobId].isActive)
    ensures r == Err(AlreadyApplied) <==>
      jobId in old(s.jobs) && old(s.jobs)[jobId].isActive && HasApplied(old(s.applications), actor, jobId)
    ensures r.Err? ==> r.error in {NotFound, AlreadyApplied} && unchanged(s)
    ensures r.Ok? ==>
      && r.value !in old(s.applications)
      && s.applications == old(s.applications)[r.value := Application(actor, jobId, status.GetOr(DefaultStatus),
           coverLetter.GetOr(""), resumeUrl.GetOr(""), old(s.clock))]
      && s.users == old(s.users) && s.jobs == old(s.jobs)
  {
    if !(jobId in s.jobs && s.jobs[jobId].isActive) {
      return Err(NotFound);
    }
    if HasApplied(s.applications, actor, jobId) {
      return Err(AlreadyApplied);
    }
    var id := s.CreateApplication(actor, jobId, status.GetOr(DefaultStatus), coverLetter.GetOr(""), resumeUrl.GetOr(""));
    return Ok(id);
  }

  /**
    `update_status`: the application is looked up through the queryset, the status
    is validated before the permission check, and only `status` is overwritten.
  */
  method UpdateStatus(s: Store, actor: UserId, pk: AppId, newStatus: Option<string>)
    returns (r: Result<Application>)
    requires s.Valid() && actor in s.users
    modifies s
    ensures s.Valid()
    ensures r == Err(NotFound) <==> pk !in Queryset(old(s.users), old(s.jobs), old(s.applications), actor)
    ensures r == Err(InvalidStatus) <==>
      && pk in Queryset(old(s.users), old(s.jobs), old(s.applications), actor)
      && (newStatus == None || ParseStatus(newStatus.value) == None)
    ensures r == Err(Forbidden) <==>
      && pk in Queryset(old(s.users), old(s.jobs), old(s.applications), actor)
      && newStatus.Some? && ParseStatus(newStatus.value).Some?
      && actor != old(s.jobs)[old(s.applications)[pk].job].createdBy
      && old(s.users)[actor].role != Admin
    ensures r == Err(Forbidden) ==> old(s.users)[actor].role == JobSeeker
    ensures r.Err? ==> r.error in {NotFound, InvalidStatus, Forbidden} && unchanged(s)
    ensures r.Ok? ==>
      && newStatus.Some? && ParseStatus(newStatus.value).Some?
      && r.value == old(s.applications)[pk].(status := ParseStatus(newStatus.value).value)
      && s.applications == old(s.applications)[pk := r.value]
      && s.users == old(s.users) && s.jobs == old(s.jobs)
  {
    if pk !in Queryset(s.users, s.jobs, s.applications, actor) {
      return Err(NotFound);
    }
    var application := s.applications[pk];
    var parsed := if newStatus.Some? then ParseStatus(newStatus.value) else None;
    if parsed.None? {
      return Err(InvalidStatus);
    }
    if actor != s.jobs[application.job].createdBy && s.users[actor].role != Admin {
      return Err(Forbidden);
    }
    application := application.(status := parsed.value);
    s.SaveApplication(pk, application);
    return Ok(application);
  }

  /** `my_applications`: a seeker's own applications, newest first. */
  function MyApplications(users: map<UserId, User>, jobs: map<JobId, Job>, apps: map<AppId, Application>, actor: UserId)
    : (r: Result<seq<AppId>>)
    requires actor in users && DistinctTimes(apps)
    ensures r.Err? <==> users[actor].role != JobSeeker
    ensures r.Err? ==> r.error == Forbidden
    ensures r.Ok? ==>
      && (forall a :: a in r.value <==> a in apps && apps[a].jobSeeker == actor)
      && InNewestFirstOrder(apps, r.value)
  {
    if users[actor].role != JobSeeker then Err(Forbidden)
    else Ok(NewestFirst(apps, Queryset(users, jobs, apps, actor)))
  }

  /** The payload of `job_applications_detail`. */
  datatype JobApplications = JobApplications(jobTitle: string, totalApplications: nat, applications: seq<AppId>)

  /**
    `job_applications_detail`: the job id comes from the path, else from the query
    string; the job's creator or an admin gets all its applications and their count.
    A path id of 0 is falsy in Python and counts as absent.
  */
  function JobApplicationsDetail(users: map<UserId, User>, jobs: map<JobId, Job>, apps: map<AppId, Application>,
                                 actor: UserId, pathJobId: Option<JobId>, queryJobId: Option<JobId>)
    : (r: Result<JobApplications>)
    requires actor in users && DistinctTimes(apps)
    ensures var jobId := if pathJobId.Some? && pathJobId.value != 0 then pathJobId else queryJobId;
      && (r == Err(JobIdRequired) <==> jobId == None)
      && (r == Err(NotFound) <==> jobId.Some? && jobId.value !in jobs)
      && (r == Err(Forbidden) <==>
           jobId.Some? && jobId.value in jobs && actor != jobs[jobId.value].createdBy && users[actor].role != Admin)
      && (r.Err? ==> r.error in {JobIdRequired, NotFound, Forbidden})
      && (r.Ok? ==>
           && jobId.Some? && jobId.value in jobs
           && r.value.jobTitle == jobs[jobId.value].title
           && r.value.totalApplications == |r.value.applications|
           && (forall a :: a in r.value.applications <==> a in apps && apps[a].job == jobId.value)
           && InNewestFirstOrder(apps, r.value.applications))
  {
    var jobId := if pathJobId.Some? && pathJobId.value != 0 then pathJobId else queryJobId;
    if jobId.None? then Err(JobIdRequired)
    else if jobId.value !in jobs then Err(NotFound)
    else if actor != jobs[jobId.value].createdBy && users[actor].role != Admin then Err(Forbidden)
    else
      var ids := set a | a in apps && apps[a].job == jobId.value;
      Ok(JobApplications(jobs[jobId.value].title, |ids|, NewestFirst(apps, ids)))
  }

  /** A path id of 0 is answered as if the path had no id: from the query string, or with 400. */
  lemma PathZeroFallsBack(users: map<UserId, User>, jobs: map<JobId, Job>, apps: map<AppId, Application>,
                          actor: UserId, queryJobId: Option<JobId>)
    requires actor in users && DistinctTimes(apps)
    ensures JobApplicationsDetail(users, jobs, apps, actor, Some(0), queryJobId)
         == JobApplicationsDetail(users, jobs, apps, actor, None, queryJobId)
    ensures JobApplicationsDetail(users, jobs, apps, actor, Some(0), None) == Err(JobIdRequired)
  {
  }

  /**
    `apply_for_job`: checks the role, then that the job exists and is active, then
    that the seeker has not applied yet, and creates a `submitted` application.
  */
  method ApplyForJob(s: Store, actor: UserId, pk: JobId, coverLetter: Option<string>, resumeUrl: Option<string>)
    returns (r: Result<AppId>)
    requires s.Valid() && actor in s.users
    modifies s
    ensures s.Valid()
    ensures r == Err(Forbidden) <==> old(s.users)[actor].role != JobSeeker
    ensures r == Err(NotFound) <==>
      old(s.users)[actor].role == JobSeeker && !(pk in old(s.jobs) && old(s.jobs)[pk].isActive)
    ensures r == Err(AlreadyApplied) <==>
      && old(s.users)[actor].role == JobSeeker && pk in old(s.jobs) && old(s.jobs)[pk].isActive
      && HasApplied(old(s.applications), actor, pk)
    ensures r.Err? ==> r.error in {Forbidden, NotFound, AlreadyApplied} && unchanged(s)
    ensures r.Ok? ==>
      && r.value !in old(s.applications)
      && s.applications == old(s.applications)[r.value := Application(actor, pk, Submitted,
           coverLetter.GetOr(""), resumeUrl.GetOr(""), old(s.clock))]
      && (forall a :: a in old(s.applications) ==>
            old(s.applications)[a].appliedAt < s.applications[r.value].appliedAt)
      && s.users == old(s.users) && s.jobs == old(s.jobs)
  {
    if s.users[actor].role != JobSeeker {
      return Err(Forbidden);
    }
    if !(pk in s.jobs && s.jobs[pk].isActive) {
      return Err(NotFound);
    }
    if HasApplied(s.applications, actor, pk) {
      return Err(AlreadyApplied);
    }
    var id := s.CreateApplication(actor, pk, DefaultStatus, coverLetter.GetOr(""), resumeUrl.GetOr(""));
    return Ok(id);
  }

  /** Applying twice for the same job never yields two applications: the second call always fails. */
  method ApplyTwice(s: Store, actor: UserId, pk: JobId, coverLetter: Option<string>, resumeUrl: Option<string>)
    returns (first: Result<AppId>, second: Result<AppId>)
    requires s.Valid() && actor in s.users
    modifies s
    ensures s.Valid()
    ensures first.Ok? ==> second == Err(AlreadyApplied)
    ensures first.Err? ==> second == first
  {
    first := ApplyForJob(s, actor, pk, coverLetter, resumeUrl);
    second := ApplyForJob(s, actor, pk, coverLetter, resumeUrl);
  }
}
