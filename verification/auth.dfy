/** The authentication middleware and the two unauthenticated routes,
    register and login. bcrypt and jsonwebtoken are not modelled: their
    operations are the function values of a `Crypto`, and the one fact the
    server relies on, that a token it signed verifies to the claims it signed,
    is the predicate `Sound`, assumed only by the lemmas that need it. */
module Auth {
  import opened Optional
  import opened Header
  import opened Tables
  import opened Schema
  import opened Http

  /** The JWT payload `{ userId, email }`; it reaches handlers as `req.user`. */
  datatype Claims = Claims(userId: nat, email: string)

  /** `jwt.sign` and `jwt.verify` under the server's secret, and
      `bcrypt.compare(password, hash)`. */
  datatype Crypto = Crypto(sign: Claims -> string,
                           verify: string -> Option<Claims>,
                           compare: (string, string) -> bool)

  /** Signed tokens verify to what was signed, and are non-empty and free of
      spaces, as the compact JWT serialisation is. */
  ghost predicate Sound(c: Crypto) {
    forall cl :: c.verify(c.sign(cl)) == Some(cl) && c.sign(cl) != "" && ' ' !in c.sign(cl)
  }

  /** The outcome of `authenticateToken`. */
  datatype Gate = Unauthorized | Forbidden | Admitted(user: Claims)

  /** No token: 401. A token that does not verify: 403. Otherwise the
      handler runs with the verified claims as `req.user`. */
  function Authenticate(c: Crypto, header: Option<string>): (g: Gate)
    ensures g.Unauthorized? <==> BearerToken(header).None?
    ensures g.Forbidden? <==> BearerToken(header).Some? && c.verify(BearerToken(header).value).None?
    ensures g.Admitted? ==> c.verify(BearerToken(header).value) == Some(g.user)
  {
    match BearerToken(header)
    case None => Unauthorized
    case Some(token) =>
      match c.verify(token)
      case None => Forbidden
      case Some(claims) => Admitted(claims)
  }

  /** The response the middleware sends when it stops the request. */
  function Refusal(g: Gate): (r: Response)
    requires !g.Admitted?
    ensures g.Unauthorized? ==> r.status == 401
    ensures g.Forbidden? ==> r.status == 403
  {
    if g.Unauthorized? then Http.Unauthorized else Http.Forbidden
  }

  /** A header `<scheme> <token>` carrying a token the server signed admits
      exactly the signed claims. */
  lemma SignedTokenAdmitted(c: Crypto, scheme: string, claims: Claims)
    requires Sound(c)
    requires ' ' !in scheme
    ensures Authenticate(c, Some(scheme + " " + c.sign(claims))) == Admitted(claims)
  {
    SchemeAndToken(scheme, c.sign(claims));
  }

  /** A header with no space, such as a bare token without its scheme,
      is refused with 401 whatever it holds. */
  lemma BareTokenUnauthorized(c: Crypto, h: string)
    requires ' ' !in h
    ensures Authenticate(c, Some(h)) == Unauthorized
  {
    NoSpaceNoToken(h);
  }

  /** POST /api/register. bcrypt draws a random salt, so the hash it produced
      for `password` is the parameter `hashed`. A missing password makes
      bcrypt throw (500); any failed INSERT, a duplicate or a missing email,
      is reported as 400 "Email already exists". */
  function Register(st: State, c: Crypto, email: Option<string>, password: Option<string>,
                    hashed: string): (res: (State, Response))
    requires Valid(st)
    ensures Valid(res.0)
    ensures res.0.groups == st.groups && res.0.members == st.members && res.0.tasks == st.tasks
    ensures res.1.status == 200 <==> password.Some? && email.Some? && !EmailTaken(st.users, email.value)
    ensures res.1.status != 200 ==> res.0 == st
    ensures password.None? ==> res == (st, ServerError)
    ensures password.Some? && (email.None? || EmailTaken(st.users, email.value)) ==> res.1 == EmailExists
    ensures res.1.status == 200 ==>
              && res.1.body.Session?
              && var id := res.1.body.userId;
              && id !in st.users.rows && id > st.users.last
              && res.0.users == Table(st.users.rows[id := User(email.value, hashed)], id)
              && res.1.body.token == c.sign(Claims(id, email.value))
  {
    if password.None? then (st, ServerError)
    else if email.None? || EmailTaken(st.users, email.value) then (st, EmailExists)
    else
      var (users', id) := Insert(st.users, User(email.value, hashed));
      (st.(users := users'), Ok(Session(c.sign(Claims(id, email.value)), id)))
  }

  /** `SELECT * FROM users WHERE email = ?`: the matching rows in id order.
      A NULL email matches nothing. */
  function UsersWithEmail(users: Table<User>, email: Option<string>): (rs: seq<Row<User>>)
    requires users.Valid()
    ensures forall i :: 0 <= i < |rs| ==>
              rs[i].id in users.rows && users.rows[rs[i].id] == rs[i].rec && email == Some(rs[i].rec.email)
    ensures email.Some? && EmailTaken(users, email.value) ==> |rs| > 0
  {
    match email
    case None => []
    case Some(e) =>
      var m := map id | id in users.rows && users.rows[id].email == e :: users.rows[id];
      var rs := Listing(m, users.last);
      assert EmailTaken(users, e) ==> |rs| > 0 by {
        if EmailTaken(users, e) {
          var id :| id in users.rows && users.rows[id].email == e;
          assert Row(id, m[id]) in rs;
        }
      }
      rs
  }

  /** True when `email` and `password` are the credentials of user `id`. */
  predicate Credentials(st: State, c: Crypto, id: nat, email: Option<string>, password: string) {
    id in st.users.rows && email == Some(st.users.rows[id].email)
    && c.compare(password, st.users.rows[id].passwordHash)
  }

  /** POST /api/login. It changes no table. An unknown email and a wrong
      password get the very same response. */
  function Login(st: State, c: Crypto, email: Option<string>, password: string): (r: Response)
    requires Valid(st)
    ensures r.status == 200 <==> exists id :: Credentials(st, c, id, email, password)
    ensures r.status != 200 ==> r == InvalidCredentials
    ensures r.status == 200 ==>
              && r.body.Session?
              && Credentials(st, c, r.body.userId, email, password)
              && r.body.token == c.sign(Claims(r.body.userId, email.value))
  {
    var found := UsersWithEmail(st.users, email);
    if |found| == 0 then
      assert forall id :: Credentials(st, c, id, email, password) ==> EmailTaken(st.users, email.value);
      InvalidCredentials
    else
      var user := found[0];
      if !c.compare(password, user.rec.passwordHash) then
        assert forall id :: Credentials(st, c, id, email, password) ==> id == user.id;
        InvalidCredentials
      else
        assert Credentials(st, c, user.id, email, password);
        Ok(Session(c.sign(Claims(user.id, user.rec.email)), user.id))
  }

  /** Registering and then logging in with the same credentials succeeds as
      the same user. The two tokens need not be equal (jsonwebtoken stamps each
      with the second it was signed in), but both carry the same claims. */
  lemma RegisterThenLogin(st: State, c: Crypto, email: string, password: string, hashed: string)
    requires Valid(st)
    requires !EmailTaken(st.users, email)
    requires c.compare(password, hashed)
    ensures var (st', r) := Register(st, c, Some(email), Some(password), hashed);
            var l := Login(st', c, Some(email), password);
            && l.status == 200 && l.body.Session?
            && l.body.userId == r.body.userId
            && (Sound(c) ==> && c.verify(r.body.token) == Some(Claims(r.body.userId, email))
                             && c.verify(l.body.token) == Some(Claims(r.body.userId, email)))
  {
    var (st', r) := Register(st, c, Some(email), Some(password), hashed);
    assert Credentials(st', c, r.body.userId, Some(email), password);
  }

  /** The second registration of an email fails and leaves the users alone. */
  lemma RegisterTwice(st: State, c: Crypto, email: string, p1: string, h1: string, p2: string, h2: string)
    requires Valid(st)
    requires !EmailTaken(st.users, email)
    ensures var (st', r) := Register(st, c, Some(email), Some(p1), h1);
            && r.status == 200
            && Register(st', c, Some(email), Some(p2), h2) == (st', EmailExists)
  {
    var (st', r) := Register(st, c, Some(email), Some(p1), h1);
    assert st'.users.rows[r.body.userId].email == email;
  }

  /** The token a registration hands out admits its holder as the new user. */
  lemma RegisteredTokenAdmitted(st: State, c: Crypto, email: string, password: string, hashed: string)
    requires Valid(st) && Sound(c)
    requires !EmailTaken(st.users, email)
    ensures var (_, r) := Register(st, c, Some(email), Some(password), hashed);
            Authenticate(c, Some("Bearer " + r.body.token)) == Admitted(Claims(r.body.userId, email))
  {
    var (_, r) := Register(st, c, Some(email), Some(password), hashed);
    assert ' ' !in "Bearer" by {
      assert "Bearer" == ['B', 'e', 'a', 'r', 'e', 'r'];
    }
    SignedTokenAdmitted(c, "Bearer", Claims(r.body.userId, email));
    assert "Bearer " + r.body.token == "Bearer" + " " + r.body.token;
  }
}
