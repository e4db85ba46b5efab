/**
  The database the views read and write: the user, job and application tables,
  with the foreign-key integrity and the cascades the record definitions declare.
*/
module Store {
  import opened Wrappers
  import opened UserModel
  import opened JobModel
  import opened ApplicationModel

  /** Every job's `created_by` is a stored user. */
  predicate JobsOwned(users: map<UserId, User>, jobs: map<JobId, Job>) {
    forall j :: j in jobs ==> jobs[j].createdBy in users
  }

  /** Every application's seeker and job are stored. */
  predicate ApplicationsLinked(users: map<UserId, User>, jobs: map<JobId, Job>, apps: map<AppId, Application>) {
    forall a :: a in apps ==> apps[a].jobSeeker in users && apps[a].job in jobs
  }

  /** The constraints the three tables keep together. */
  predicate Integrity(users: map<UserId, User>, jobs: map<JobId, Job>, apps: map<AppId, Application>) {
    && JobsOwned(users, jobs)
    && ApplicationsLinked(users, jobs, apps)
    && OneApplicationPerPair(apps)
    && DistinctTimes(apps)
  }

  /** The applications left when job `id` is deleted (the `job` cascade). */
  function ApplicationsWithoutJob(apps: map<AppId, Application>, id: JobId): map<AppId, Application> {
    map a | a in apps && apps[a].job != id :: apps[a]
  }

  /** The jobs left when user `uid` is deleted (the `created_by` cascade). */
  function JobsWithoutCreator(jobs: map<JobId, Job>, uid: UserId): map<JobId, Job> {
    map j | j in jobs && jobs[j].createdBy != uid :: jobs[j]
  }

  /**
    The applications left when user `uid` is deleted: those of the user (the
    `job_seeker` cascade) and those on the user's jobs (the `job` cascade) go.
  */
  function ApplicationsWithoutUser(jobs: map<JobId, Job>, apps: map<AppId, Application>, uid: UserId): map<AppId, Application> {
    map a | a in apps && apps[a].jobSeeker != uid && !(apps[a].job in jobs && jobs[apps[a].job].createdBy == uid) :: apps[a]
  }

  /** Deleting a job leaves no application pointing at it, and the constraints hold. */
  lemma DeleteJobKeepsIntegrity(users: map<UserId, User>, jobs: map<JobId, Job>, apps: map<AppId, Application>, id: JobId)
    requires Integrity(users, jobs, apps)
    ensures Integrity(users, jobs - {id}, ApplicationsWithoutJob(apps, id))
    ensures forall a :: a in ApplicationsWithoutJob(apps, id) ==> ApplicationsWithoutJob(apps, id)[a].job != id
    ensures forall a :: a in apps && apps[a].job != id ==> a in ApplicationsWithoutJob(apps, id)
  {
  }

  /** Deleting a user leaves no job or application pointing at them, and the constraints hold. */
  lemma DeleteUserKeepsIntegrity(users: map<UserId, User>, jobs: map<JobId, Job>, apps: map<AppId, Application>, uid: UserId)
    requires Integrity(users, jobs, apps)
    ensures Integrity(users - {uid}, JobsWithoutCreator(jobs, uid), ApplicationsWithoutUser(jobs, apps, uid))
    ensures forall j :: j in JobsWithoutCreator(jobs, uid) ==> JobsWithoutCreator(jobs, uid)[j].createdBy != uid
    ensures forall a :: a in ApplicationsWithoutUser(jobs, apps, uid) ==>
      ApplicationsWithoutUser(jobs, apps, uid)[a].jobSeeker != uid
  {
  }

  /**
    The tables, keyed by id. New ids come from counters, and `applied_at` from an
    abstract clock that moves forward on every insertion.
  */
  class Store {
    var users: map<UserId, User>
    var jobs: map<JobId, Job>
    var applications: map<AppId, Application>
    var nextJobId: JobId
    var nextApplicationId: AppId
    var clock: nat

    ghost predicate Valid()
      reads this
    {
      && Integrity(users, jobs, applications)
      && (forall j :: j in jobs ==> 0 < j < nextJobId)
      && (forall a :: a in applications ==> 0 < a < nextApplicationId && applications[a].appliedAt < clock)
      && 0 < nextJobId && 0 < nextApplicationId
    }

    /** A database holding `users` and no jobs or applications yet. */
    constructor (users: map<UserId, User>)
      ensures Valid()
      ensures this.users == users && jobs == map[] && applications == map[]
    {
      this.users := users;
      jobs := map[];
      applications := map[];
      nextJobId, nextApplicationId, clock := 1, 1, 0;
    }

    /** `Job.objects.create(...)`. */
    method CreateJob(job: Job) returns (id: JobId)
      requires Valid() && job.createdBy in users
      modifies this`jobs, this`nextJobId
      ensures Valid()
      ensures 0 < id && id !in old(jobs) && jobs == old(jobs)[id := job]
    {
      id := nextJobId;
      jobs := jobs[id := job];
      nextJobId := nextJobId + 1;
    }

    /** `job.save()` after changing its fields. */
    method SaveJob(id: JobId, job: Job)
      requires Valid() && id in jobs && job.createdBy in users
      modifies this`jobs
      ensures Valid()
      ensures jobs == old(jobs)[id := job]
    {
      jobs := jobs[id := job];
    }

    /** `job.delete()`: the job and the applications for it. */
    method DeleteJob(id: JobId)
      requires Valid() && id in jobs
      modifies this`jobs, this`applications
      ensures Valid()
      ensures jobs == old(jobs) - {id}
      ensures applications == ApplicationsWithoutJob(old(applications), id)
    {
      DeleteJobKeepsIntegrity(users, jobs, applications, id);
      applications := ApplicationsWithoutJob(applications, id);
      jobs := jobs - {id};
    }

    /** `user.save()` after changing its fields. */
    method SaveUser(id: UserId, user: User)
      requires Valid() && id in users
      modifies this`users
      ensures Valid()
      ensures users == old(users)[id := user]
    {
      users := users[id := user];
    }

    /** `user.delete()`: the user, their jobs, their applications and those on their jobs. */
    method DeleteUser(id: UserId)
      requires Valid() && id in users
      modifies this`users, this`jobs, this`applications
      ensures Valid()
      ensures users == old(users) - {id}
      ensures jobs == JobsWithoutCreator(old(jobs), id)
      ensures applications == ApplicationsWithoutUser(old(jobs), old(applications), id)
    {
      DeleteUserKeepsIntegrity(users, jobs, applications, id);
      applications := ApplicationsWithoutUser(jobs, applications, id);
      jobs := JobsWithoutCreator(jobs, id);
      users := users - {id};
    }

    /**
      `Application.objects.create(...)` once the view has checked that the pair is
      new: the check and the insert are one atomic step here.
    */
    method CreateApplication(seeker: UserId, job: JobId, status: Status, coverLetter: string, resumeUrl: string)
      returns (id: AppId)
      requires Valid() && seeker in users && job in jobs && !HasApplied(applications, seeker, job)
      modifies this`applications, this`nextApplicationId, this`clock
      ensures Valid()
      ensures 0 < id && id !in old(applications)
      ensures applications == old(applications)[id := Application(seeker, job, status, coverLetter, resumeUrl, old(clock))]
      ensures forall a :: a in old(applications) ==> old(applications)[a].appliedAt < applications[id].appliedAt
    {
      id := nextApplicationId;
      applications := applications[id := Application(seeker, job, status, coverLetter, resumeUrl, clock)];
      nextApplicationId := nextApplicationId + 1;
      clock := clock + 1;
    }

    /** `application.save()` after changing fields other than its seeker, job and timestamp. */
    method SaveApplication(id: AppId, app: Application)
      requires Valid() && id in applications
      requires app.jobSeeker == applications[id].jobSeeker && app.job == applications[id].job
      requires app.appliedAt == applications[id].appliedAt
      modifies this`applications
      ensures Valid()
      ensures applications == old(applications)[id := app]
    {
      applications := applications[id := app];
    }
  }
}
