/**
 * The hosted identity and data service, seen through the administrative
 * client that server.js creates at start-up (server.js:26-41). The service
 * itself is not modelled: the client is given the answers the service will
 * return during one request, and it records every call made on it, in order,
 * so that properties such as "no update is attempted" can be stated.
 */
module AdminClient {

  /** A user record of the identity service: an opaque id and an email. */
  datatype User = User(id: string, email: string)

  /** The answer to `auth.admin.listUsers()` (server.js:166-171). */
  datatype Listing = ListError | Users(users: seq<User>)

  /** A row of the `app_config` table (server.js:79-81). */
  datatype Row = Row(key: string, value: string)

  /** The answer to `from('app_config').select('key, value')` (server.js:79-85). */
  datatype Query = QueryError | Rows(rows: seq<Row>)

  /** What the service answers to each call during one request. */
  datatype Answers = Answers(listing: Listing, updateSucceeds: bool, configQuery: Query)

  /** A call made to the service. */
  datatype Call =
    | ListUsers
    | UpdateUserById(id: string, password: string)
    | SelectConfig

  class Client {
    /**
     * Whether the client was created: false when the service key was absent
     * at start-up, where server.js leaves `supabaseAdmin` null.
     */
    const configured: bool
    const answers: Answers
    /** The calls made so far, oldest first. */
    var calls: seq<Call>

    constructor (configured: bool, answers: Answers)
      ensures this.configured == configured && this.answers == answers
      ensures calls == []
    {
      this.configured := configured;
      this.answers := answers;
      calls := [];
    }

    method ListUsers() returns (listing: Listing)
      requires configured
      modifies this
      ensures listing == answers.listing
      ensures calls == old(calls) + [Call.ListUsers]
    {
      listing := answers.listing;
      calls := calls + [Call.ListUsers];
    }

    method UpdateUserById(id: string, password: string) returns (ok: bool)
      requires configured
      modifies this
      ensures ok == answers.updateSucceeds
      ensures calls == old(calls) + [Call.UpdateUserById(id, password)]
    {
      ok := answers.updateSucceeds;
      calls := calls + [Call.UpdateUserById(id, password)];
    }

    method SelectConfig() returns (query: Query)
      requires configured
      modifies this
      ensures query == answers.configQuery
      ensures calls == old(calls) + [Call.SelectConfig]
    {
      query := answers.configQuery;
      calls := calls + [Call.SelectConfig];
    }
  }
}
