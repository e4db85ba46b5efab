/** The admin endpoints: verifying recruiters, deleting users and jobs, creating jobs for others. */
module AdminViews {
  import opened Wrappers
  import opened Responses
  import opened UserModel
  import opened JobModel
  import opened ApplicationModel
  import opened Store

  /** `verify_recruiter`: sets `is_verified` on a stored recruiter and on nothing else. */
  method VerifyRecruiter(s: Store, id: UserId) returns (r: Result<User>)
    requires s.Valid()
    modifies s
    ensures s.Valid()
    ensures r.Err? <==> !(id in old(s.users) && old(s.users)[id].role == Recruiter)
    ensures r.Err? ==> r.error == NotFound && unchanged(s)
    ensures r.Ok? ==>
      && r.value == old(s.users)[id].(isVerified := true)
      && s.users == old(s.users)[id := r.value]
      && s.jobs == old(s.jobs) && s.applications == old(s.applications)
  {
    if !(id in s.users && s.users[id].role == Recruiter) {
      return Err(NotFound);
    }
    var recruiter := s.users[id].(isVerified := true);
    s.SaveUser(id, recruiter);
    return Ok(recruiter);
  }

  /** Verifying a recruiter again answers the same and changes nothing more. */
  method VerifyTwice(s: Store, id: UserId) returns (first: Result<User>, second: Result<User>)
    requires s.Valid()
    modifies s
    ensures s.Valid()
    ensures second == first
    ensures s.users == if first.Ok? then old(s.users)[id := first.value] else old(s.users)
    ensures s.jobs == old(s.jobs) && s.applications == old(s.applications)
  {
    first := VerifyRecruiter(s, id);
    ghost var afterOne := s.users;
    second := VerifyRecruiter(s, id);
    assert first.Ok? ==> afterOne[id := second.value] == afterOne;
  }

  /**
    `delete_user`: refuses a missing user and the admin's own account; otherwise the
    user goes, and with them their jobs and every application of theirs or on their jobs.
  */
  method DeleteUser(s: Store, actor: UserId, id: UserId) returns (r: Result<()>)
    requires s.Valid() && actor in s.users
    modifies s
    ensures s.Valid()
    ensures r == Err(NotFound) <==> id !in old(s.users)
    ensures r == Err(CannotDeleteSelf) <==> id in old(s.users) && id == actor
    ensures r.Err? ==> r.error in {NotFound, CannotDeleteSelf} && unchanged(s)
    ensures r.Ok? ==>
      && s.users == old(s.users) - {id}
      && s.jobs == JobsWithoutCreator(old(s.jobs), id)
      && s.applications == ApplicationsWithoutUser(old(s.jobs), old(s.applications), id)
      && (forall j :: j in s.jobs ==> s.jobs[j].createdBy != id)
      && (forall a :: a in s.applications ==> s.applications[a].jobSeeker != id)
  {
    if id !in s.users {
      return Err(NotFound);
    }
    if id == actor {
      return Err(CannotDeleteSelf);
    }
    DeleteUserKeepsIntegrity(s.users, s.jobs, s.applications, id);
    s.DeleteUser(id);
    return Ok(());
  }

  /**
    `admin_create_job`: the creator is `created_by_id` when the request names one,
    else the requesting admin; an unknown creator creates nothing.
  */
  method AdminCreateJob(s: Store, actor: UserId, draft: JobDraft, createdById: Option<UserId>)
    returns (r: Result<JobId>)
    requires s.Valid() && actor in s.users
    modifies s
    ensures s.Valid()
    ensures r.Err? <==> createdById.GetOr(actor) !in old(s.users)
    ensures r.Err? ==> r.error == UnknownCreator && unchanged(s)
    ensures r.Ok? ==>
      && r.value !in old(s.jobs)
      && s.jobs == old(s.jobs)[r.value := NewJob(draft, createdById.GetOr(actor))]
      && s.users == old(s.users) && s.applications == old(s.applications)
  {
    var creator := createdById.GetOr(actor);
    if creator !in s.users {
      return Err(UnknownCreator);
    }
    var id := s.CreateJob(NewJob(draft, creator));
    return Ok(id);
  }

  /** `admin_delete_job`: removes exactly that job and the applications for it; returns its title. */
  method AdminDeleteJob(s: Store, id: JobId) returns (r: Result<string>)
    requires s.Valid()
    modifies s
    ensures s.Valid()
    ensures r.Err? <==> id !in old(s.jobs)
    ensures r.Err? ==> r.error == NotFound && unchanged(s)
    ensures r.Ok? ==>
      && r.value == old(s.jobs)[id].title
      && s.jobs == old(s.jobs) - {id}
      && s.applications == ApplicationsWithoutJob(old(s.applications), id)
      && (forall a :: a in s.applications ==> s.applications[a].job != id)
      && s.users == old(s.users)
  {
    if id !in s.jobs {
      return Err(NotFound);
    }
    var title := s.jobs[id].title;
    s.DeleteJob(id);
    return Ok(title);
  }
}
