/** The login page's submit handler: a required check, then a length check,
    then `login`. */
module LoginPage {
  import opened Wrappers
  import opened Types
  import Text
  import UserStore

  const RequiredMessage := "Username is required"
  const TooShortMessage := "Username must be at least 3 characters"

  /** The form's error line and the user store after a submission, and
      whether the page navigates home. */
  datatype SubmitOutcome = SubmitOutcome(error: string, store: UserStore.UserState, navigateHome: bool)

  /** `handleSubmit`. The previous error is cleared first, so the outcome
      does not depend on it; `login` receives the raw input and trims it
      itself. */
  function HandleSubmit(username: string, s: UserStore.UserState, id: string, createdAt: string): (r: SubmitOutcome)
    ensures Text.IsBlank(username) ==> r == SubmitOutcome(RequiredMessage, s, false)
    ensures 1 <= |Text.Trim(username)| < 3 ==> r == SubmitOutcome(TooShortMessage, s, false)
    ensures |Text.Trim(username)| >= 3 <==> r.navigateHome
    ensures r.navigateHome ==>
      && r.error == ""
      && r.store == UserStore.Login(s, username, id, createdAt)
      && |r.store.user.value.username| >= 3
  {
    if Text.Trim(username) == [] then SubmitOutcome(RequiredMessage, s, false)
    else if |Text.Trim(username)| < 3 then SubmitOutcome(TooShortMessage, s, false)
    else SubmitOutcome("", UserStore.Login(s, username, id, createdAt), true)
  }

  /** The required check comes first: a blank name never gets the length
      message, although its trimmed length is below three. */
  lemma RequiredBeforeLength(username: string, s: UserStore.UserState, id: string, createdAt: string)
    requires Text.IsBlank(username)
    ensures |Text.Trim(username)| < 3
    ensures HandleSubmit(username, s, id, createdAt).error != TooShortMessage
  {
  }

  /** A successful submission leaves the store authenticated, with the profile
      and flag in agreement. */
  lemma SubmitSuccessAuthenticates(username: string, s: UserStore.UserState, id: string, createdAt: string)
    requires |Text.Trim(username)| >= 3
    ensures UserStore.AuthAgrees(HandleSubmit(username, s, id, createdAt).store)
    ensures HandleSubmit(username, s, id, createdAt).store.isAuthenticated
  {
  }
}
