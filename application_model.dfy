/**
  The application record: its five statuses, its default status, the uniqueness
  of (job seeker, job) and the newest-first default ordering.
*/
module ApplicationModel {
  import opened Wrappers
  import opened UserModel
  import opened JobModel

  type AppId = nat

  /** The five `STATUS_CHOICES`. */
  datatype Status = Submitted | Viewed | Shortlisted | Rejected | Hired

  /** A new application's status when none is given. */
  const DefaultStatus: Status := Submitted

  /** The value stored in the `status` column (the choice key, not its label). */
  function StatusName(st: Status): string {
    match st
    case Submitted => "submitted"
    case Viewed => "viewed"
    case Shortlisted => "shortlisted"
    case Rejected => "rejected"
    case Hired => "hired"
  }

  /** `name in dict(STATUS_CHOICES)`: the status a requested string names, if any. */
  function ParseStatus(name: string): (r: Option<Status>)
    ensures r.Some? ==> StatusName(r.value) == name
    ensures r.None? ==> forall st: Status :: StatusName(st) != name
  {
    if name == "submitted" then Some(Submitted)
    else if name == "viewed" then Some(Viewed)
    else if name == "shortlisted" then Some(Shortlisted)
    else if name == "rejected" then Some(Rejected)
    else if name == "hired" then Some(Hired)
    else None
  }

  /** Every status is read back as itself: the keys are distinct. */
  lemma ParseStatusName(st: Status)
    ensures ParseStatus(StatusName(st)) == Some(st)
  {
  }

  /** The human-readable label `STATUS_CHOICES` pairs with each status. */
  function StatusLabel(st: Status): string {
    match st
    case Submitted => "Submitted"
    case Viewed => "Viewed"
    case Shortlisted => "Shortlisted"
    case Rejected => "Rejected"
    case Hired => "Hired"
  }

  /** No display label is accepted as a status value; only the keys are. */
  lemma LabelsAreNotStatuses(st: Status)
    ensures ParseStatus(StatusLabel(st)) == None
  {
  }

  /**
    `applied_at` is an abstract timestamp taken from the store's clock; `updated_at`
    is not modelled.
  */
  datatype Application = Application(
    jobSeeker: UserId,  // on_delete=CASCADE
    job: JobId,         // on_delete=CASCADE
    status: Status,
    coverLetter: string,
    resumeUrl: string,
    appliedAt: nat)

  /** `unique_together = ['job_seeker', 'job']`. */
  predicate OneApplicationPerPair(apps: map<AppId, Application>) {
    forall a, b ::
      a in apps && b in apps && apps[a].jobSeeker == apps[b].jobSeeker && apps[a].job == apps[b].job
      ==> a == b
  }

  /** Whether `seeker` has applied for `job`. */
  predicate HasApplied(apps: map<AppId, Application>, seeker: UserId, job: JobId) {
    exists a :: a in apps && apps[a].jobSeeker == seeker && apps[a].job == job
  }

  /** No two applications carry the same timestamp. */
  predicate DistinctTimes(apps: map<AppId, Application>) {
    forall a, b :: a in apps && b in apps && apps[a].appliedAt == apps[b].appliedAt ==> a == b
  }

  /** `ordering = ['-applied_at']`: strictly newest first. */
  predicate InNewestFirstOrder(apps: map<AppId, Application>, s: seq<AppId>) {
    && (forall i :: 0 <= i < |s| ==> s[i] in apps)
    && (forall i, j :: 0 <= i < j < |s| ==> apps[s[j]].appliedAt < apps[s[i]].appliedAt)
  }

  predicate IsNewest(apps: map<AppId, Application>, ids: set<AppId>, a: AppId)
    requires ids <= apps.Keys && a in ids
  {
    forall b :: b in ids ==> apps[b].appliedAt <= apps[a].appliedAt
  }

  lemma {:induction false} NewestExists(apps: map<AppId, Application>, ids: set<AppId>)
    requires ids <= apps.Keys && ids != {}
    ensures exists a :: a in ids && IsNewest(apps, ids, a)
    decreases ids
  {
    var x :| x in ids;
    if ids == {x} {
      assert IsNewest(apps, ids, x);
    } else {
      var rest := ids - {x};
      NewestExists(apps, rest);
      var y :| y in rest && IsNewest(apps, rest, y);
      if apps[x].appliedAt <= apps[y].appliedAt {
        assert IsNewest(apps, ids, y);
      } else {
        assert IsNewest(apps, ids, x);
      }
    }
  }

  /** Prepending the newest of `ids` to an ordered listing of the others keeps the order. */
  lemma NewestBeforeRest(apps: map<AppId, Application>, ids: set<AppId>, a: AppId, rest: seq<AppId>)
    requires ids <= apps.Keys && a in ids && IsNewest(apps, ids, a) && DistinctTimes(apps)
    requires forall b :: b in rest <==> b in ids - {a}
    requires InNewestFirstOrder(apps, rest)
    ensures InNewestFirstOrder(apps, [a] + rest)
  {
    var r := [a] + rest;
    forall i, j | 0 <= i < j < |r| ensures apps[r[j]].appliedAt < apps[r[i]].appliedAt {
      assert r[j] == rest[j - 1] && r[j] in ids - {a};
      if i > 0 {
        assert r[i] == rest[i - 1];
      }
    }
  }

  /** The applications `ids`, listed in the default order. */
  function NewestFirst(apps: map<AppId, Application>, ids: set<AppId>): (r: seq<AppId>)
    requires ids <= apps.Keys
    requires DistinctTimes(apps)
    ensures |r| == |ids|
    ensures forall a :: a in r <==> a in ids
    ensures InNewestFirstOrder(apps, r)
    decreases ids
  {
    if ids == {} then []
    else
      NewestExists(apps, ids);
      var a :| a in ids && IsNewest(apps, ids, a);
      var rest := NewestFirst(apps, ids - {a});
      NewestBeforeRest(apps, ids, a, rest);
      [a] + rest
  }
}
