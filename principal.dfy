/** The caller of a request as `authenticate` records it in `req.user`
    (src/middleware/auth.js:63-69): the user's id as a string, name,
    e-mail, role and status.  The record has no `_id` field. */
module Principal {
  datatype RequestUser = RequestUser(id: string, username: string, email: string, role: string, status: string)

  const Admin := "admin"
  const Faculty := "faculty"
  const Student := "student"
}
