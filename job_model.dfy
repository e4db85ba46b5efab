/** The job posting record: its job-type choices, its defaults and its owner. */
module JobModel {
  import opened Wrappers
  import opened UserModel

  type JobId = nat

  /** The six `JOB_TYPES` choices. */
  datatype JobType = FullTime | PartTime | Contract | Remote | Hybrid | Onsite

  /** The value stored in the `job_type` column for each choice. */
  function JobTypeName(t: JobType): string {
    match t
    case FullTime => "full-time"
    case PartTime => "part-time"
    case Contract => "contract"
    case Remote => "remote"
    case Hybrid => "hybrid"
    case Onsite => "onsite"
  }

  /** The choice a stored or requested string names, if any. */
  function ParseJobType(name: string): (r: Option<JobType>)
    ensures r.Some? ==> JobTypeName(r.value) == name
    ensures r.None? ==> forall t: JobType :: JobTypeName(t) != name
  {
    if name == "full-time" then Some(FullTime)
    else if name == "part-time" then Some(PartTime)
    else if name == "contract" then Some(Contract)
    else if name == "remote" then Some(Remote)
    else if name == "hybrid" then Some(Hybrid)
    else if name == "onsite" then Some(Onsite)
    else None
  }

  /** Every choice is read back as itself: the names are distinct. */
  lemma ParseJobTypeName(t: JobType)
    ensures ParseJobType(JobTypeName(t)) == Some(t)
  {
  }

  datatype Job = Job(
    createdBy: UserId,                    // on_delete=CASCADE
    title: string,
    description: string,
    category: string,
    requiredSkills: Option<seq<string>>,  // a nullable JSON list
    salaryRange: string,
    location: string,
    jobType: JobType,
    isActive: bool)

  /** The validated fields of a job-creation request; `isActive` may be left out. */
  datatype JobDraft = JobDraft(
    title: string,
    description: string,
    category: string,
    requiredSkills: Option<seq<string>>,
    salaryRange: string,
    location: string,
    jobType: JobType,
    isActive: Option<bool>)

  /** The record saved for a draft and its creator; `is_active` defaults to true. */
  function NewJob(draft: JobDraft, creator: UserId): (j: Job)
    ensures j.createdBy == creator
    ensures j.isActive <==> draft.isActive != Some(false)
    ensures j.title == draft.title && j.description == draft.description
    ensures j.category == draft.category && j.requiredSkills == draft.requiredSkills
    ensures j.salaryRange == draft.salaryRange && j.location == draft.location
    ensures j.jobType == draft.jobType
  {
    Job(creator, draft.title, draft.description, draft.category, draft.requiredSkills,
        draft.salaryRange, draft.location, draft.jobType, draft.isActive.GetOr(true))
  }
}
