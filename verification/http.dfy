/** The HTTP responses the handlers send: a status code and a JSON body. */
module Http {
  import opened Optional
  import opened Tables
  import opened Schema

  datatype Body =
    | StatusText                               // `res.sendStatus(code)`: the reason phrase only
    | Error(message: string)                   // `{ error: message }`
    | Session(token: string, userId: nat)      // `{ token, userId }`
    | GroupRows(groups: seq<Row<Group>>)
    | MemberRows(members: seq<Row<Member>>)
    | TaskRows(tasks: seq<Row<Task>>)
    | GroupCreated(id: nat, name: string, description: Option<string>)
    | MemberCreated(id: nat, name: string, groupId: nat)
    | TaskCreated(id: nat, memberId: nat, title: string, description: Option<string>,
                  dueDate: Option<string>, completed: bool)
    | Deleted(deleted: nat)                    // `{ deleted: this.changes }`
    | Updated(updated: nat)                    // `{ updated: this.changes }`

  datatype Response = Response(status: nat, body: Body)

  const Unauthorized := Response(401, StatusText)
  const Forbidden := Response(403, StatusText)
  const AccessDenied := Response(403, Error("Access denied"))
  const EmailExists := Response(400, Error("Email already exists"))
  const InvalidCredentials := Response(400, Error("Invalid credentials"))
  const ServerError := Response(500, Error("Server error"))

  function Ok(body: Body): Response {
    Response(200, body)
  }
}
