# Job-board core: skill matching, application lifecycle, admin and job mutations

This project models the logic of a Django job-board backend. The backend keeps
three tables: users (job seekers, recruiters, admins), job postings and
applications. The model covers:

- **the skill matcher** (`jobs_for_me`, `skill_analysis`). It scores every active
  job by the share of its required skills that the seeker has. It keeps jobs with
  at least 30 %, ranks them with a stable sort by descending score, and returns the
  top ten together with the count found before truncation;
- **the application lifecycle**. This is the role-scoped queryset, the two ways to
  create an application (both check for duplicates), the status update, and the two
  listings;
- **admin and job mutations**. This is verifying recruiters, deleting users and
  jobs (with their cascades), creating jobs (for oneself or on another user's
  behalf), toggling `is_active`, the extra search filters and "my jobs".

Layout, one module per source file:

- `UserModel`, `JobModel`, `ApplicationModel`: the records as datatypes. They hold
  the enums (`JobType`, `Status`) with their string keys, the defaults, and the
  `unique_together` and `-applied_at` ordering of applications.
- `Store`: the database. `class Store` holds the three tables as maps from id to
  record. Its invariant `Valid()` is referential integrity, one application per
  (seeker, job) pair, and distinct `applied_at` stamps. Its methods are the ORM
  operations the views call (`create`, `save`, `delete` with its cascades).
- `Matching`, `ApplicationViews`, `JobViews`, `AdminViews`: the views. Pure queries
  are functions over the tables. Each endpoint that writes is a module-level
  method that takes the database as a parameter `s: Store`, and its `ensures` gives every error case, the whole new state, and the
  preserved invariant.
- `Wrappers` (`Option`) and `Responses` (the error responses and `Result`).

Modelling choices:

- The match score is an exact rational (`real`): `|matching| * 100 / |job skills|`.
  The lemma `Matching.QualifiesIffEnoughOverlap` restates the 30 % test in integers.
  The source's float division, and its `round(..., 2)`, are not modelled. For skill
  lists of realistic length, different ratios give different doubles, and the exact
  ratio 3/10 gives exactly 30.0. So the float threshold and the float order
  agree with the exact ones.
- Python's `list.sort(key=..., reverse=True)` is stable, also when reversed. It is
  modelled by the function `Matching.SortByScore`, an insertion sort. Its contract
  proves the result is sorted and a permutation, and `SortIsStable` proves stability.
- The role column is a string. `Role` has the three known roles plus
  `Unrecognised`, so that the queryset's fallback branch (`Application.objects.none()`)
  is part of the model.
- `applied_at` is an abstract timestamp taken from a store clock that advances on
  every insertion. So the newest-first order is a strict order.
- The actor is an explicit user id that must be in the user table (the request is
  authenticated).

Behaviour of the code that the model keeps:

- `jobs_for_me` answers a non-seeker with 403.
- `apply_for_job` checks the role before it looks up the job.
- `toggle_active` has no ownership check.
- `perform_create` has no role check.
- `update_status` has an admin override, but the queryset hides from an admin every
  application on a job they did not create, so the lookup answers 404 first.
  `ApplicationViews.UpdateStatus` proves that `Forbidden` is only ever returned to a
  job seeker, and `AdminReachesOnlyOwnJobs` states the admin scope.
- The duplicate check runs before the insert, and the two are one atomic step.
- Job and application ids start at 1, as Django's auto-increment keys do. A path
  `job_id` of 0 is falsy in Python, so `job_applications_detail` then reads the
  query string, as `ApplicationViews.PathZeroFallsBack` states.

## Model

| member | source | states |
|---|---|---|
| `JobModel.ParseJobType` | jobs/models.py:5-12 | A string is accepted as a job type exactly when it is the key of one of the six choices, and it then names that choice. |
| `JobModel.ParseJobTypeName` | jobs/models.py:5-12 | Every job type is read back as itself, so the six keys are distinct. |
| `JobModel.NewJob` | jobs/models.py:14-22 | A new job records the given creator. It is active unless the request says `false` (the default is active). Every other field is the request's. |
| `ApplicationModel.ParseStatus` | applications/models.py:5-11 | A status value is valid exactly when it is one of the five keys, and it then names that status; any other string is rejected. |
| `ApplicationModel.ParseStatusName` | applications/models.py:5-11 | Every status is read back as itself. |
| `ApplicationModel.LabelsAreNotStatuses` | applications/models.py:5-11 | For each of the five statuses, its display label (the second element of its `STATUS_CHOICES` pair) is not accepted as a status value. |
| `ApplicationModel.NewestFirst` | applications/models.py:24 | The listing of a set of applications holds each of them exactly once, strictly newest `applied_at` first. |
| `Store.DeleteJobKeepsIntegrity` | applications/models.py:15 | Deleting a job removes exactly the applications for it; the rest stay, and integrity and uniqueness still hold. |
| `Store.DeleteUserKeepsIntegrity` | applications/models.py:14-15 | Deleting a user leaves no job they created (the `created_by` cascade of jobs/models.py:14) and no application of theirs; integrity still holds. |
| `Store.Store.CreateApplication` | applications/models.py:23 | An insertion of a new (seeker, job) pair keeps one application per pair. It stamps the application later than every existing one. |
| `Store.Store.DeleteJob` | applications/models.py:15 | `job.delete()` removes the job and the applications for it, and the store stays valid. |
| `Store.Store.DeleteUser` | applications/models.py:14-15 | `user.delete()` removes the user, their jobs, their applications and those on their jobs, and the store stays valid. |
| `Matching.Percentage` | matching/views.py:51-57 | The score lies between 0 and 100 and passes the 30 % test iff `matched * 100 >= 30 * required`. |
| `Matching.Assess` | matching/views.py:39-62 | The matching skills are those the seeker and the job both list. The missing skills are the job's that the seeker lacks. Together they partition the job's skill set. The score is their exact percentage, in [0, 100]. |
| `Matching.QualifiesIffEnoughOverlap` | matching/views.py:42-57 | A job is kept iff it is active, lists skills, and `\|overlap\| * 100 >= 30 * \|job skill set\|`. |
| `Matching.ScoreJobs` | matching/views.py:34-63 | The first loop keeps exactly the qualifying jobs. Each entry is that job's assessment, and there are no more entries than jobs. |
| `Matching.SortByScore` | matching/views.py:66 | The sorted list is a permutation of the scored list, in non-increasing score order. |
| `Matching.InsertKeepsSorted` | matching/views.py:66 | Inserting an entry into a list sorted by descending score keeps it sorted. |
| `Matching.SortIsStable` | matching/views.py:66 | Entries with equal scores keep their original relative order. |
| `Matching.TopOfRanking` | matching/views.py:71 | Every prefix of the ranking is sorted. It holds only active jobs with skills whose score lies in [30, 100]. |
| `Matching.FirstEntries` | matching/views.py:71-76 | The second loop's list is exactly the first `limit` entries of the sorted list. |
| `Matching.ScoreActiveJobs` | matching/views.py:37-63 | The first loop's list is exactly `ScoreJobs` of the seeker's skills and the job table. |
| `Matching.Suggestions` | matching/views.py:66-76 | The suggestions are the first min(10, count) entries of the ranking. They are sorted, and each is an active job with skills, its assessment and a score in [30, 100]. |
| `Matching.JobsForMe` | matching/views.py:14-82 | A non-seeker is refused. A seeker without skills gets no suggestions. Otherwise `user_skills` is the profile's list, `total_matches_found` is the count before truncation, and the suggestions are `Suggestions`. |
| `Matching.SkillAnalysis` | matching/views.py:85-109 | A non-seeker is refused. Otherwise the skills returned are the profile's (empty when null), `skills_count` is their number (0 when none), and the analysis flag is set iff there are skills. |
| `ApplicationViews.Queryset` | applications/views.py:17-25 | A seeker reaches exactly their own applications. A recruiter or admin reaches exactly those on jobs they created. Any other role reaches none. |
| `ApplicationViews.BothPartiesSeeApplication` | applications/views.py:17-25 | Every application is reachable by its seeker, and by its job's creator when that creator is a recruiter or admin. |
| `ApplicationViews.AdminReachesOnlyOwnJobs` | applications/views.py:22-23 | An admin does not reach applications on jobs created by someone else. |
| `ApplicationViews.PerformCreate` | applications/views.py:27-42 | Without any role check: a missing or inactive job gives not-found and an existing (seeker, job) pair gives already-applied, both changing nothing. Otherwise exactly one application is added, for that seeker and job, with the given or default fields. |
| `ApplicationViews.UpdateStatus` | applications/views.py:44-68 | An application outside the actor's queryset gives not-found. An invalid status is rejected next, before any permission check. A non-creator non-admin is then forbidden (only a seeker can get here). Errors change nothing. Success overwrites only that application's status. |
| `ApplicationViews.MyApplications` | applications/views.py:70-87 | A non-seeker is forbidden. A seeker gets exactly their own applications, newest first. |
| `ApplicationViews.JobApplicationsDetail` | applications/views.py:89-120 | The job id comes from the path when it is there and not 0, else from the query. A missing id gives bad-request, an unknown job not-found, and a non-owner non-admin forbidden. Otherwise every application for the job is returned newest first, and `total_applications` is their number. |
| `ApplicationViews.ApplyForJob` | applications/views.py:122-158 | Checks in this order. A non-seeker is forbidden. A missing or inactive job gives not-found. A repeat application is rejected. None of these changes anything. Otherwise exactly one `submitted` application is added, with cover letter and resume URL defaulting to `''`, and nothing else changes. |
| `ApplicationViews.PathZeroFallsBack` | applications/views.py:93-100 | A path id of 0 is answered exactly as a request without a path id, and with no query id either it gets bad-request. |
| `ApplicationViews.ApplyTwice` | applications/views.py:134-141 | A second identical application always fails: with already-applied after a success, with the same error otherwise. |
| `JobViews.PerformCreate` | jobs/views.py:19-20 | A created job records the requesting user as its creator and appears among their jobs; nothing else changes. |
| `JobViews.ToggleActive` | jobs/views.py:22-27 | A job that is missing, or that the filtered queryset does not hold, gives not-found and changes nothing. Otherwise only that job's `is_active` is negated, and the new value is returned. |
| `JobViews.ToggleTwice` | jobs/views.py:22-27 | Toggling twice restores every table, and the two calls return opposite values. |
| `JobViews.MyJobs` | jobs/views.py:53-55 | Exactly the jobs whose creator is the requesting user. |
| `JobViews.Where` | jobs/views.py:38-43 | A queryset filter keeps exactly the rows satisfying the condition. |
| `JobViews.Search` | jobs/views.py:29-43 | Keeps exactly the rows meeting every given filter: case-insensitive substring for location and category, exact match for job type. A missing or empty parameter filters nothing. |
| `JobViews.UnknownJobTypeFindsNothing` | jobs/views.py:40-41 | A `job_type` that names none of the six choices matches no job. |
| `JobViews.SearchIgnoresCase` | jobs/views.py:38-43 | Lower-casing the location and category parameters does not change which jobs match. |
| `AdminViews.VerifyRecruiter` | users/admin_views.py:14-32 | A missing id or a non-recruiter gives not-found and changes nothing. Otherwise only that user's `is_verified` becomes true. |
| `AdminViews.VerifyTwice` | users/admin_views.py:25-26 | Verifying twice answers the same as once and leaves the state of a single verification. |
| `AdminViews.DeleteUser` | users/admin_views.py:34-57 | A missing user gives not-found and self-deletion is refused, both changing nothing. Otherwise the user, their jobs, their applications and those on their jobs go, and nothing else. |
| `AdminViews.AdminCreateJob` | users/admin_views.py:59-77 | The creator is `created_by_id` when given, else the admin. An unknown creator creates nothing. Otherwise exactly one job is added. |
| `AdminViews.AdminDeleteJob` | users/admin_views.py:79-93 | A missing job gives not-found and changes nothing. Otherwise exactly that job and its applications go, and its title is returned. |

## Left out

- `JobViews.ToggleActive`: the filter backends' narrowing of the `get_object()` lookup (`JobFilter`'s fields, `search`, ordering) is an input, the set `visible` of ids the filtered queryset holds; how the query string computes that set is not modelled.
- Authentication, JWT tokens, passwords and the permission classes (`IsAuthenticated`, `IsAdminUser`, `IsAuthenticatedOrReadOnly`) are framework code. The actor is a given user id, and the admin endpoints are modelled for a caller the permission class let through.
- Serializers are left out as field validation and response shaping. Creation takes the validated fields as inputs (a `JobDraft`, an optional `Status`), so the 400 for invalid serializer data (also in `admin_create_job`) is not modelled.
- `round(match_score, 2)` and float arithmetic are not modelled: the score is an exact rational (see above).
- The order in which `list(set)` lists matching and missing skills is unspecified in Python; they are modelled as sets.
- The matcher's `Job.objects.filter(is_active=True)` order is the database's. `Matching.JobsForMe` takes the job table as a sequence in that order and applies the `is_active` filter row by row.
- Pagination in `my_applications`, `search` and `my_jobs` is not modelled.
- The `JobFilter`, search and ordering filter backends are django-filter and REST-framework code. `JobViews.Search` takes the queryset they return as its input.
- `created_at` and `updated_at` are not modelled. `applied_at` is an abstract clock value.
- Concurrency is not modelled: the duplicate check and the insert are one atomic step.
- Ids are natural numbers. Non-numeric ids are not modelled. The serializers' integer fields (`job_id`, `created_by_id`) would answer them with 400, and the `<int:...>` URL converters would not route them (404). Only `apply_for_job`'s `pk` and the `job_id` query parameter of `job_applications_detail` would reach a server error. An absent or empty `job_id` query parameter is modelled as `None`.
- users/models.py is not part of this model. The user record keeps only the fields the core reads or writes (email, name, role, skills, `is_verified`), and user registration is not modelled.
- `Role` compares only the three known role strings; other stored strings are merged into `Unrecognised`.
- `JobViews.Search`: `icontains` is modelled with ASCII case folding only. Unicode case folding is not.
- JSON columns holding something other than a list of strings (for `skills` or `required_skills`) are not modelled.
- A request that sends an explicit null cover letter or resume URL to `apply_for_job` is not modelled.
