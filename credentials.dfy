/** The single hard-coded administrator credential pair the site checks logins against. */
module Credentials {

  const AdminUsername: string := "admin"
  const AdminPassword: string := "batman267"

  /** Both values match the fixed pair exactly (case-sensitive, no trimming). */
  predicate IsAdmin(username: string, password: string) {
    username == AdminUsername && password == AdminPassword
  }
}
