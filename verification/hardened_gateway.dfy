/** The later build of the gateway, `backend/dist/index.js`: the same create and
    lookup steps, plus the CORS origin check, the refusal to start without
    store credentials, the health route, and error messages that are replaced
    by generic ones when `NODE_ENV` is `production`. */
module HardenedGateway {
  import opened Base
  import Text
  import UriComponent
  import opened Gateway

  /** The origins the CORS check lets through. */
  const AllowedOrigins: seq<string> := [
    "http://localhost:5173",
    "http://localhost:3000",
    "https://basepayqr.vercel.app",
    "https://basepay-api.vercel.app"
  ]

  const InternalError := "Internal server error"
  const HealthyStatus := "healthy"

  /** `process.env.NODE_ENV === 'production'`. */
  predicate IsProduction(env: map<string, string>)
  {
    "NODE_ENV" in env && env["NODE_ENV"] == "production"
  }

  /** Some entry of `list` is a substring of `origin`. */
  function SomeEntryIn(list: seq<string>, origin: string): (b: bool)
    ensures b <==> exists i :: 0 <= i < |list| && Text.Contains(origin, list[i])
  {
    if |list| == 0 then false
    else Text.Contains(origin, list[0]) || SomeEntryIn(list[1..], origin)
  }

  /** The CORS `origin` callback: a request whose origin is falsy (no `Origin`
      header, or an empty one) is let through; otherwise the origin is let
      through when it CONTAINS one of the allowed origins, which is weaker than
      equality with one. */
  function CorsAllows(origin: Option<string>): (allowed: bool)
    ensures !Present(origin) ==> allowed
    ensures Present(origin) ==>
              (allowed <==> exists i :: 0 <= i < |AllowedOrigins| && exists k :: Text.OccursAt(origin.value, AllowedOrigins[i], k))
  {
    !Present(origin) || SomeEntryIn(AllowedOrigins, origin.value)
  }

  /** Each allowed origin passes. */
  lemma CorsAllowsListed(i: nat)
    requires i < |AllowedOrigins|
    ensures CorsAllows(Some(AllowedOrigins[i]))
  {
    assert Text.OccursAt(AllowedOrigins[i], AllowedOrigins[i], 0);
  }

  /** The check is containment, not equality: a look-alike host name that
      begins with an allowed origin passes too. */
  lemma CorsAllowsLookAlike()
    ensures CorsAllows(Some("https://basepayqr.vercel.app.example.net"))
  {
    var o := "https://basepayqr.vercel.app.example.net";
    assert o[0..|AllowedOrigins[2]|] == AllowedOrigins[2];
    assert Text.OccursAt(o, AllowedOrigins[2], 0);
  }

  /** An empty `Origin` header is falsy and passes, like a missing one. */
  lemma CorsAllowsEmptyOrigin()
    ensures CorsAllows(Some("")) && CorsAllows(None)
  {
  }

  /** A non-empty origin shorter than every allowed one cannot contain any of them. */
  lemma CorsRefusesShortOrigin(origin: string)
    requires 0 < |origin| < 21
    ensures !CorsAllows(Some(origin))
  {
  }

  /** The store credentials the server starts with. */
  datatype Credentials = Credentials(url: string, key: string)

  /** Start-up: `SUPABASE_URL || ''` and `SUPABASE_KEY || ''` must both be
      non-empty, or the process exits before any route exists. */
  function Startup(env: map<string, string>): (r: Result<Credentials, string>)
    ensures r.Ok? <==> "SUPABASE_URL" in env && env["SUPABASE_URL"] != "" && "SUPABASE_KEY" in env && env["SUPABASE_KEY"] != ""
    ensures r.Ok? ==> r.value == Credentials(env["SUPABASE_URL"], env["SUPABASE_KEY"])
    ensures r.Err? ==> r.error == "Supabase credentials not configured"
  {
    var url := if "SUPABASE_URL" in env then env["SUPABASE_URL"] else "";
    var key := if "SUPABASE_KEY" in env then env["SUPABASE_KEY"] else "";
    if url == "" || key == "" then Err("Supabase credentials not configured")
    else Ok(Credentials(url, key))
  }

  /** The message a catch clause writes: the generic text in production,
      otherwise the exception's own message. */
  function Disclosed(env: map<string, string>, generic: string, detail: string): (m: string)
    ensures IsProduction(env) ==> m == generic
    ensures !IsProduction(env) ==> m == detail
  {
    if IsProduction(env) then generic else detail
  }

  /** `createQRCode` as `backend/dist/index.js` writes it. */
  function Create(env: map<string, string>, db: seq<Record>, req: CreateRequest, store: StoreBehaviour): (o: Outcome)
    ensures CreateSteps(db, req, store).Responded? ==>
              o == Outcome(CreateSteps(db, req, store).response, CreateSteps(db, req, store).db)
    ensures CreateSteps(db, req, store).Raised? ==>
              && o.db == db && o.response.status == 500
              && o.response.body == ErrorBody(Disclosed(env, CreateFailed, CreateSteps(db, req, store).message))
    ensures IsProduction(env) ==> o == Gateway.Create(db, req, store)
  {
    match CreateSteps(db, req, store)
    case Responded(resp, db') => Outcome(resp, db')
    case Raised(m) => Outcome(Response(500, ErrorBody(Disclosed(env, CreateFailed, m))), db)
  }

  /** `getQRCode` as `backend/dist/index.js` writes it. */
  function Get(env: map<string, string>, db: seq<Record>, wallet: string, urlParam: string, fault: Option<StoreError>): (resp: Response)
    ensures GetSteps(db, wallet, urlParam, fault).Responded? ==> resp == GetSteps(db, wallet, urlParam, fault).response
    ensures GetSteps(db, wallet, urlParam, fault).Raised? ==>
              resp == Response(500, ErrorBody(Disclosed(env, FetchFailed, GetSteps(db, wallet, urlParam, fault).message)))
    ensures IsProduction(env) ==> resp == Gateway.Get(db, wallet, urlParam, fault)
  {
    match GetSteps(db, wallet, urlParam, fault)
    case Responded(r, _) => r
    case Raised(m) => Response(500, ErrorBody(Disclosed(env, FetchFailed, m)))
  }

  /** The catch-all error handler: always 500. */
  function GlobalError(env: map<string, string>, message: string): (resp: Response)
    ensures resp.status == 500
    ensures IsProduction(env) ==> resp.body == ErrorBody(InternalError)
    ensures !IsProduction(env) ==> resp.body == ErrorBody(message)
  {
    Response(500, ErrorBody(Disclosed(env, InternalError, message)))
  }

  /** `GET /api/health`: always 200 and healthy, stamped with the time given. */
  function Health(timestamp: string): (resp: Response)
    ensures resp.status == 200 && resp.body.HealthBody? && resp.body.status == HealthyStatus
    ensures resp.body.timestamp == timestamp
  {
    Response(200, HealthBody(HealthyStatus, timestamp))
  }

  /** In production no store or exception message reaches a client: every
      500 body is one of the fixed messages the handlers write. */
  lemma ProductionHidesDetails(env: map<string, string>, db: seq<Record>, req: CreateRequest, store: StoreBehaviour,
                               wallet: string, urlParam: string, fault: Option<StoreError>, message: string)
    requires IsProduction(env)
    ensures Create(env, db, req, store).response.status == 500 ==>
              Create(env, db, req, store).response.body.error in
                {SearchFailed, UrlCheckFailed, InsertFailedMessage, InsertEmptyMessage, CreateFailed}
    ensures Get(env, db, wallet, urlParam, fault).status == 500 ==>
              Get(env, db, wallet, urlParam, fault).body == ErrorBody(FetchFailed)
    ensures GlobalError(env, message).body == ErrorBody(InternalError)
  {
  }

  /** Outside production, an unexpected exception's message is passed through. */
  lemma DevelopmentDisclosesDetails(env: map<string, string>, wallet: string, fault: Option<StoreError>)
    requires !IsProduction(env)
    ensures Get(env, [], wallet, "%", fault) == Response(500, ErrorBody(UriMalformed))
  {
    assert UriComponent.Decode("%").None?;
  }
}
