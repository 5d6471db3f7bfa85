/** The HTTP API as a whole: every route, the authentication middleware in
    front of the protected ones, and the properties that hold of any request. */
module Api {
  import opened Optional
  import opened Tables
  import opened Schema
  import opened Http
  import opened Header
  import opened Auth
  import opened Handlers
  import opened UserView

  datatype Route =
    | RegisterUser(email: Option<string>, password: Option<string>, hashed: string)   // POST /api/register
    | LoginUser(loginEmail: Option<string>, loginPassword: string)                       // POST /api/login
    | Protected(action: Action)

  /** A request: its `Authorization` header, if any, and its route with the
      path parameters and body fields. */
  datatype Request = Request(authorization: Option<string>, route: Route)

  /** The user a request acts for: the verified `req.user.userId` of a
      protected route; register and login act for nobody. */
  function Caller(c: Crypto, req: Request): Option<nat> {
    if req.route.Protected? && Authenticate(c, req.authorization).Admitted? then
      Some(Authenticate(c, req.authorization).user.userId)
    else None
  }

  /** Serves one request as one atomic transition. */
  function Serve(st: State, c: Crypto, req: Request): (res: (State, Response))
    requires Valid(st)
    ensures Valid(res.0)
    ensures req.route.Protected? && !Authenticate(c, req.authorization).Admitted? ==>
              res == (st, Refusal(Authenticate(c, req.authorization)))
    ensures req.route.Protected? ==> res.0.users == st.users
    ensures !req.route.Protected? ==>
              res.0.groups == st.groups && res.0.members == st.members && res.0.tasks == st.tasks
  {
    match req.route
    case RegisterUser(email, password, hashed) => Register(st, c, email, password, hashed)
    case LoginUser(email, password) => (st, Login(st, c, email, password))
    case Protected(a) =>
      match Authenticate(c, req.authorization)
      case Admitted(claims) => Handle(st, claims.userId, a)
      case Unauthorized => (st, Refusal(Unauthorized))
      case Forbidden => (st, Refusal(Forbidden))
  }

  /** The middleware's decision: a protected route without a usable token is
      answered 401, with a token that fails verification 403, and in both
      cases no table changes. */
  lemma GateDecides(st: State, c: Crypto, header: Option<string>, a: Action)
    requires Valid(st)
    ensures BearerToken(header).None? ==>
              Serve(st, c, Request(header, Protected(a))) == (st, Response(401, StatusText))
    ensures BearerToken(header).Some? && c.verify(BearerToken(header).value).None? ==>
              Serve(st, c, Request(header, Protected(a))) == (st, Response(403, StatusText))
    ensures Authenticate(c, header).Admitted? ==>
              Serve(st, c, Request(header, Protected(a))) == Handle(st, Authenticate(c, header).user.userId, a)
  {
  }

  /** Isolation: whatever request is served, the view of every user the
      request does not act for stays exactly as it was. */
  lemma ServeIsolated(st: State, c: Crypto, req: Request, u: nat)
    requires Valid(st)
    requires Caller(c, req) != Some(u)
    ensures ViewOf(Serve(st, c, req).0, u) == ViewOf(st, u)
  {
    var st' := Serve(st, c, req).0;
    if !req.route.Protected? {
      ViewIgnoresUsers(st, st', u);
    } else if Authenticate(c, req.authorization).Admitted? {
      HandleIsolated(st, Authenticate(c, req.authorization).user.userId, u, req.route.action);
    }
  }

  /** Non-interference: what a user is answered, and what that user sees
      afterwards, depend only on what the user saw before and on the id
      counters, never on other users' rows. */
  lemma NonInterference(st1: State, st2: State, u: nat, a: Action)
    requires Valid(st1) && Valid(st2)
    requires ViewOf(st1, u) == ViewOf(st2, u)
    requires IdsOf(st1) == IdsOf(st2)
    ensures Handle(st1, u, a).1 == Handle(st2, u, a).1
    ensures ViewOf(Handle(st1, u, a).0, u) == ViewOf(Handle(st2, u, a).0, u)
  {
    HandleRefines(st1, u, a);
    HandleRefines(st2, u, a);
  }

  /** The token a registration returns, sent back as `Bearer <token>`,
      gets the caller's requests served as the new user. */
  lemma RegisteredUserServed(st: State, c: Crypto, email: string, password: string, hashed: string,
                             a: Action)
    requires Valid(st) && Sound(c)
    requires !EmailTaken(st.users, email)
    ensures var (st', r) := Serve(st, c, Request(None, RegisterUser(Some(email), Some(password), hashed)));
            Serve(st', c, Request(Some("Bearer " + r.body.token), Protected(a)))
              == Handle(st', r.body.userId, a)
  {
    var (st', r) := Serve(st, c, Request(None, RegisterUser(Some(email), Some(password), hashed)));
    RegisteredTokenAdmitted(st, c, email, password, hashed);
  }
}
