/** The outcomes the views send back: a payload, or one of the error responses. */
module Responses {

  /** Every error response of the core, with the HTTP status it is sent with. */
  datatype Error =
    | NotFound          // 404: the user, job or application is absent (or not visible)
    | Forbidden         // 403: the actor's role or ownership excludes the action
    | AlreadyApplied    // 400: an application for this (seeker, job) pair exists
    | InvalidStatus     // 400: the status is not one of the five application statuses
    | JobIdRequired     // 400: no job id in the path or the query string
    | CannotDeleteSelf  // 400: an admin tried to delete their own account
    | UnknownCreator    // 400: the user named as a job's creator does not exist

  datatype Result<+T> = Ok(value: T) | Err(error: Error)
}
