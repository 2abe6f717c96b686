/** The credential check of the `login` action: `rows.find` over the user sheet with a
    predicate comparing the trimmed first two cells with the trimmed submitted values. */
module Login {
  import opened Wrappers
  import opened Text
  import opened Sheet

  /** The `rows.find` predicate: the row's first cell equals the username and its second cell
      equals the password, both sides trimmed, compared exactly (case matters). */
  predicate CredentialMatches(headers: seq<string>, row: Row, username: string, password: string) {
    Trim(Cell(headers, row, 0)) == Trim(username) && Trim(Cell(headers, row, 1)) == Trim(password)
  }

  /** The user row that logs the caller in: the first row whose credentials match, if any. */
  function FindUser(users: Table, username: string, password: string): (r: Option<nat>)
    ensures r.Some? <==>
      exists i :: 0 <= i < |users.rows| && CredentialMatches(users.headers, users.rows[i], username, password)
    ensures r.Some? ==>
      r.value < |users.rows| && CredentialMatches(users.headers, users.rows[r.value], username, password)
    ensures r.Some? ==>
      forall j :: 0 <= j < r.value ==> !CredentialMatches(users.headers, users.rows[j], username, password)
  {
    FindIndex(users.rows, row => CredentialMatches(users.headers, row, username, password))
  }

  /** Whitespace around the submitted username or password never changes the outcome of
      the credential check. */
  lemma {:induction false} LoginIgnoresSurroundingWhitespace(
    users: Table, username: string, password: string, a: string, b: string, c: string, d: string)
    requires AllSpace(a) && AllSpace(b) && AllSpace(c) && AllSpace(d)
    ensures FindUser(users, a + username + b, c + password + d) == FindUser(users, username, password)
  {
    TrimAbsorbs(a, username, b);
    TrimAbsorbs(c, password, d);
    FindIndexAgrees(users.rows,
      row => CredentialMatches(users.headers, row, a + username + b, c + password + d),
      row => CredentialMatches(users.headers, row, username, password));
  }

  /** An absent password cell reads as `''`: such a row admits only a password that is empty
      or all whitespace. */
  lemma {:induction false} AbsentPasswordCellAdmitsBlankOnly(
    headers: seq<string>, row: Row, username: string, password: string)
    requires |headers| < 2 || |row| < 2
    ensures CredentialMatches(headers, row, username, password)
        <==> Trim(Cell(headers, row, 0)) == Trim(username) && AllSpace(password)
  {
    TrimEmpty(password);
    TrimEmpty("");
  }
}
