/**
  The user record, as far as the core reads it: the role it dispatches on, the
  skills the matcher compares, and the verification flag admins set.
*/
module UserModel {
  import opened Wrappers

  type UserId = nat

  /**
    The role column is a string compared by equality. The three roles the system
    knows, and `Unrecognised` for any other stored value, which the views treat as
    "none of the above".
  */
  datatype Role = JobSeeker | Recruiter | Admin | Unrecognised

  datatype User = User(
    email: string,
    fullName: string,
    role: Role,
    skills: Option<seq<string>>,  // a nullable JSON list
    isVerified: bool)

  /** `user.skills or []`: a null skills column reads as the empty list. */
  function SkillsOf(u: User): seq<string> {
    u.skills.GetOr([])
  }
}
