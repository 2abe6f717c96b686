/** Worked examples on a small user sheet and permission sheet. */
module Scenarios {
  import opened Wrappers
  import opened Text
  import opened Sheet
  import opened Login
  import opened Api

  const Users := Table(["Cost_center", "password"], [["cc001", "secret1"]])
  const Grants := Table(["Cost_center", "A", "B"], [["cc001", "admin", "1MS"]])

  function LoginEvent(username: string, password: string): Event {
    Event("POST", Some(Payload("login", username, password)))
  }

  /** The exact credentials log in. */
  lemma ExactCredentialsLogIn()
    ensures StatusCode(Handle(LoginEvent("cc001", "secret1"), Backend(true, Some(Users), Some(Grants)))) == 200
  {
  }

  /** Usernames are compared case-sensitively: `CC001` is not the stored `cc001`. */
  lemma UpperCaseUsernameRejected()
    ensures Handle(LoginEvent("CC001", "secret1"), Backend(true, Some(Users), Some(Grants))) == LoginRejected
  {
    TrimFixesTrimmed("cc001");
    TrimFixesTrimmed("CC001");
    assert "cc001"[0] != "CC001"[0];
    assert !CredentialMatches(Users.headers, Users.rows[0], "CC001", "secret1");
  }
}
