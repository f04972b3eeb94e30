/** The record store gateway of `backend/src/index.ts`: the create and lookup
    handlers over the `qr_codes` table.

    The table is a sequence of records. Each single-row query
    (`.select('*').eq(…).single()`) is answered from the table's contents, except
    that the request's `StoreBehaviour` may make it fail instead; a query finds a
    row exactly when one row matches, and reports "no rows" (PostgREST's
    `PGRST116`) otherwise. A handler's try block either writes a response or
    raises an exception to its catch clause; the two builds of the server differ
    only in what that catch clause writes, so the try blocks are defined once here. */
module Gateway {
  import opened Base
  import UriComponent

  /** A stored row. Fields the request body left out are stored as absent. */
  datatype Record = Record(
    id: nat,
    walletAddress: Option<string>,
    websiteUrl: Option<string>,
    websiteName: string,
    memo: Option<string>,
    amount: string,
    qrData: Option<string>,
    createdAt: string)

  /** The JSON body of `POST /api/qr-codes`; a missing field is `None`. */
  datatype CreateRequest = CreateRequest(
    walletAddress: Option<string>,
    websiteUrl: Option<string>,
    websiteName: Option<string>,
    memo: Option<string>,
    amount: Option<string>,
    qrData: Option<string>)

  /** A store failure: reported in the query's `error` field, or thrown by the client. */
  datatype StoreError = Reported(message: string) | Thrown(message: string)

  /** The store's answer to a single-row query. */
  datatype Lookup = Found(record: Record) | NotFound | Failure(error: StoreError)

  /** The store's answer to `.insert([...]).select().single()`. */
  datatype InsertResult =
    | Inserted(id: nat, createdAt: string)
    | InsertFailed(error: StoreError)
    | InsertedNothing

  /** How the store behaves, beyond its contents, for the queries of one create request. */
  datatype StoreBehaviour = StoreBehaviour(
    searchFault: Option<StoreError>,
    urlCheckFault: Option<StoreError>,
    insert: InsertResult)

  /** The equality filters the handlers use, holding the text each `.eq(column, v)`
      sends: the filter `eq.${v}`. */
  datatype Query =
    | ByWalletAndUrl(wallet: string, url: string)
    | ByUrl(url: string)

  datatype Body =
    | RecordBody(record: Record)
    | ErrorBody(error: string)
    | HealthBody(status: string, timestamp: string)

  datatype Response = Response(status: nat, body: Body)

  /** What a handler's try block does: write a response (and leave the table
      as given), or raise an exception carrying a message to its catch clause. */
  datatype Handled = Responded(response: Response, db: seq<Record>) | Raised(message: string)

  /** A handler's visible effect: the response and the table afterwards. */
  datatype Outcome = Outcome(response: Response, db: seq<Record>)

  const NameRequired := "Website name is required"
  const QrMismatch := "QR data must match wallet address"
  const SearchFailed := "Database search error"
  const CombinationExists := "QR code already exists for this combination of wallet address and website URL"
  const UrlCheckFailed := "Database check error"
  const UrlTaken := "This website URL already has a QR code generated"
  const InsertFailedMessage := "Failed to create QR code entry"
  const InsertEmptyMessage := "Failed to retrieve created QR code"
  const CreateFailed := "Failed to create QR code"
  const NotFoundMessage := "QR code not found"
  const FetchFailed := "Failed to fetch QR code"
  /** The message of the `URIError` that `decodeURIComponent` throws. */
  const UriMalformed := "URI malformed"

  /** The filter text of `.eq(column, v)` for a request field: an absent field
      is interpolated as the word `undefined`. */
  function EqFilter(v: Option<string>): (t: string)
    ensures v.Some? ==> t == v.value
    ensures v.None? ==> t == "undefined"
  {
    if v.Some? then v.value else "undefined"
  }

  /** An equality filter matches a column holding exactly its text; a column
      left empty (SQL `NULL`) matches no equality filter. */
  predicate Matches(r: Record, q: Query)
  {
    match q
    case ByWalletAndUrl(w, u) => r.walletAddress == Some(w) && r.websiteUrl == Some(u)
    case ByUrl(u) => r.websiteUrl == Some(u)
  }

  /** The rows matching a query, in table order. */
  function Select(db: seq<Record>, q: Query): (rs: seq<Record>)
    ensures |rs| <= |db|
    ensures forall r :: r in rs ==> r in db && Matches(r, q)
    ensures |rs| == 0 <==> forall i :: 0 <= i < |db| ==> !Matches(db[i], q)
  {
    if |db| == 0 then []
    else
      var last := db[|db| - 1];
      Select(db[..|db| - 1], q) + (if Matches(last, q) then [last] else [])
  }

  /** `.single()`: the one matching row, "no rows" for zero or several matches,
      or the failure the store was scripted to produce. */
  function Single(db: seq<Record>, q: Query, fault: Option<StoreError>): (l: Lookup)
    ensures fault.Some? ==> l == Failure(fault.value)
    ensures fault.None? ==> (l.Found? <==> |Select(db, q)| == 1)
    ensures fault.None? && l.Found? ==> l.record == Select(db, q)[0] && l.record in db && Matches(l.record, q)
    ensures fault.None? && !l.Found? ==> l == NotFound
    ensures fault.None? && (forall i :: 0 <= i < |db| ==> !Matches(db[i], q)) ==> l == NotFound
  {
    if fault.Some? then Failure(fault.value)
    else
      var rs := Select(db, q);
      if |rs| == 1 then Found(rs[0]) else NotFound
  }

  /** No two rows share a `website_url`. Rows stored without one are not
      constrained: no equality filter ever finds them. */
  ghost predicate UniqueUrls(db: seq<Record>)
  {
    forall i, j :: 0 <= i < j < |db| && db[i].websiteUrl.Some? ==> db[i].websiteUrl != db[j].websiteUrl
  }

  /** Every row's `qr_data` equals its `wallet_address`. */
  ghost predicate QrMatchesWallet(db: seq<Record>)
  {
    forall i :: 0 <= i < |db| ==> db[i].qrData == db[i].walletAddress
  }

  /** The row the create handler inserts, with `amount || '0'`. */
  function NewRecord(req: CreateRequest, id: nat, createdAt: string): Record
    requires Present(req.websiteName)
  {
    Record(id, req.walletAddress, req.websiteUrl, req.websiteName.value, req.memo,
           OrElse(req.amount, "0"), req.qrData, createdAt)
  }

  /** The request passes both validations: a truthy `website_name`, and
      `qr_data === wallet_address`. */
  predicate Valid(req: CreateRequest)
  {
    Present(req.websiteName) && req.qrData == req.walletAddress
  }

  /** The filter of the first duplicate check: same wallet and same URL. */
  function CombinationQuery(req: CreateRequest): Query
  {
    ByWalletAndUrl(EqFilter(req.walletAddress), EqFilter(req.websiteUrl))
  }

  /** The filter of the second duplicate check: same URL. */
  function UrlQuery(req: CreateRequest): Query
  {
    ByUrl(EqFilter(req.websiteUrl))
  }

  /** The try block of `createQRCode`: validation, the two duplicate checks and
      the insert, each step short-circuiting. */
  function CreateSteps(db: seq<Record>, req: CreateRequest, store: StoreBehaviour): (h: Handled)
    ensures h.Responded? && h.response.status != 201 ==> h.db == db
    ensures h.Responded? && h.response.status == 201 ==>
              h.response.body.RecordBody? && h.db == db + [h.response.body.record]
    ensures !Present(req.websiteName) ==> h == Responded(Response(400, ErrorBody(NameRequired)), db)
    ensures Present(req.websiteName) && req.qrData != req.walletAddress ==>
              h == Responded(Response(400, ErrorBody(QrMismatch)), db)
    ensures h.Responded? && h.response.status == 201 ==>
              && Valid(req)
              && store.searchFault.None? && store.urlCheckFault.None?
              && Single(db, CombinationQuery(req), None) == NotFound
              && Single(db, UrlQuery(req), None) == NotFound
              && store.insert.Inserted?
              && h.response.body == RecordBody(NewRecord(req, store.insert.id, store.insert.createdAt))
    ensures Valid(req) && store.searchFault.Some? ==>
              match store.searchFault.value
              case Reported(_) => h == Responded(Response(500, ErrorBody(SearchFailed)), db)
              case Thrown(m) => h == Raised(m)
    ensures Valid(req) && store.searchFault.None? && Single(db, CombinationQuery(req), None).Found? ==>
              h == Responded(Response(409, ErrorBody(CombinationExists)), db)
    ensures Valid(req) && store.searchFault.None? && Single(db, CombinationQuery(req), None) == NotFound
            && store.urlCheckFault.Some? ==>
              match store.urlCheckFault.value
              case Reported(_) => h == Responded(Response(500, ErrorBody(UrlCheckFailed)), db)
              case Thrown(m) => h == Raised(m)
    ensures Valid(req) && store.searchFault.None? && Single(db, CombinationQuery(req), None) == NotFound
            && store.urlCheckFault.None? && Single(db, UrlQuery(req), None).Found? ==>
              h == Responded(Response(409, ErrorBody(UrlTaken)), db)
    ensures Valid(req) && store.searchFault.None? && store.urlCheckFault.None?
            && Single(db, CombinationQuery(req), None) == NotFound && Single(db, UrlQuery(req), None) == NotFound ==>
              match store.insert
              case InsertFailed(Reported(_)) => h == Responded(Response(500, ErrorBody(InsertFailedMessage)), db)
              case InsertFailed(Thrown(m)) => h == Raised(m)
              case InsertedNothing => h == Responded(Response(500, ErrorBody(InsertEmptyMessage)), db)
              case Inserted(id, at) =>
                h == Responded(Response(201, RecordBody(NewRecord(req, id, at))), db + [NewRecord(req, id, at)])
    ensures Valid(req) && store.searchFault.None? && store.urlCheckFault.None? && store.insert.Inserted?
            && (forall i :: 0 <= i < |db| ==> db[i].websiteUrl != Some(EqFilter(req.websiteUrl))) ==>
              var r := NewRecord(req, store.insert.id, store.insert.createdAt);
              h == Responded(Response(201, RecordBody(r)), db + [r])
    ensures h.Responded? && h.response.body == ErrorBody(UrlTaken) ==>
              h.response.status == 409 && exists i :: 0 <= i < |db| && db[i].websiteUrl == Some(EqFilter(req.websiteUrl))
  {
    if !Present(req.websiteName) then
      Responded(Response(400, ErrorBody(NameRequired)), db)
    else if req.qrData != req.walletAddress then
      Responded(Response(400, ErrorBody(QrMismatch)), db)
    else
      match Single(db, CombinationQuery(req), store.searchFault)
      case Failure(Reported(_)) => Responded(Response(500, ErrorBody(SearchFailed)), db)
      case Failure(Thrown(m)) => Raised(m)
      case Found(_) => Responded(Response(409, ErrorBody(CombinationExists)), db)
      case NotFound =>
        match Single(db, UrlQuery(req), store.urlCheckFault)
        case Failure(Reported(_)) => Responded(Response(500, ErrorBody(UrlCheckFailed)), db)
        case Failure(Thrown(m)) => Raised(m)
        case Found(_) => Responded(Response(409, ErrorBody(UrlTaken)), db)
        case NotFound =>
          match store.insert
          case InsertFailed(Reported(_)) => Responded(Response(500, ErrorBody(InsertFailedMessage)), db)
          case InsertFailed(Thrown(m)) => Raised(m)
          case InsertedNothing => Responded(Response(500, ErrorBody(InsertEmptyMessage)), db)
          case Inserted(id, at) =>
            var r := NewRecord(req, id, at);
            Responded(Response(201, RecordBody(r)), db + [r])
  }

  /** `createQRCode` as `backend/src/index.ts` writes it: an exception becomes a
      500 with a fixed message and leaves the table as it was. */
  function Create(db: seq<Record>, req: CreateRequest, store: StoreBehaviour): (o: Outcome)
    ensures o.response.status in {201, 400, 409, 500}
    ensures o.response.status != 201 ==> o.db == db
    ensures o.response.status == 201 <==>
              && Valid(req) && store.searchFault.None? && store.urlCheckFault.None?
              && Single(db, CombinationQuery(req), None) == NotFound && Single(db, UrlQuery(req), None) == NotFound
              && store.insert.Inserted?
    ensures o.response.status == 201 ==>
              && o.response.body == RecordBody(NewRecord(req, store.insert.id, store.insert.createdAt))
              && o.db == db + [o.response.body.record]
              && o.response.body.record.qrData == o.response.body.record.walletAddress
              && o.response.body.record.amount == OrElse(req.amount, "0")
    ensures Valid(req) && store.searchFault.None? && store.urlCheckFault.None? && store.insert.Inserted?
            && (forall i :: 0 <= i < |db| ==> db[i].websiteUrl != Some(EqFilter(req.websiteUrl))) ==>
              o.response == Response(201, RecordBody(NewRecord(req, store.insert.id, store.insert.createdAt)))
    ensures o.response.status == 500 ==>
              o.response.body.ErrorBody?
              && o.response.body.error in {SearchFailed, UrlCheckFailed, InsertFailedMessage, InsertEmptyMessage, CreateFailed}
    ensures CreateSteps(db, req, store).Raised? ==> o == Outcome(Response(500, ErrorBody(CreateFailed)), db)
  {
    match CreateSteps(db, req, store)
    case Responded(resp, db') => Outcome(resp, db')
    case Raised(_) => Outcome(Response(500, ErrorBody(CreateFailed)), db)
  }

  /** The lookup at the heart of `getQRCode`: the row matching both fields
      answers 200, "no rows" answers 404, and a store error is raised. */
  function LookupSteps(db: seq<Record>, wallet: string, url: string, fault: Option<StoreError>): (h: Handled)
    ensures h.Responded? ==> h.db == db
    ensures h.Responded? && h.response.status == 200 ==>
              h.response.body.RecordBody? && h.response.body.record in db
              && Matches(h.response.body.record, ByWalletAndUrl(wallet, url))
    ensures h.Responded? ==> h.response.status in {200, 404}
    ensures h.Responded? && h.response.status == 404 ==>
              fault.None? && h.response.body == ErrorBody(NotFoundMessage)
    ensures fault.None? && (forall i :: 0 <= i < |db| ==> !Matches(db[i], ByWalletAndUrl(wallet, url))) ==>
              h == Responded(Response(404, ErrorBody(NotFoundMessage)), db)
    ensures fault.Some? ==> h == Raised(fault.value.message)
  {
    match Single(db, ByWalletAndUrl(wallet, url), fault)
    case Found(r) => Responded(Response(200, RecordBody(r)), db)
    case NotFound => Responded(Response(404, ErrorBody(NotFoundMessage)), db)
    case Failure(e) => Raised(e.message)
  }

  /** The try block of `getQRCode`, given the route parameters as the handler
      receives them: the `website_url` parameter is decoded once more (a
      malformed escape raises `URIError`), then looked up. */
  function GetSteps(db: seq<Record>, wallet: string, urlParam: string, fault: Option<StoreError>): (h: Handled)
    ensures UriComponent.Decode(urlParam).None? ==> h == Raised(UriMalformed)
    ensures UriComponent.Decode(urlParam).Some? ==>
              h == LookupSteps(db, wallet, UriComponent.Decode(urlParam).value, fault)
  {
    match UriComponent.Decode(urlParam)
    case None => Raised(UriMalformed)
    case Some(url) => LookupSteps(db, wallet, url, fault)
  }

  /** `getQRCode` as `backend/src/index.ts` writes it. */
  function Get(db: seq<Record>, wallet: string, urlParam: string, fault: Option<StoreError>): (resp: Response)
    ensures resp.status in {200, 404, 500}
    ensures resp.status == 200 <==> GetSteps(db, wallet, urlParam, fault).Responded? && resp.body.RecordBody?
    ensures resp.status == 500 ==> resp.body == ErrorBody(FetchFailed)
    ensures resp.status == 200 ==>
              && resp.body.record in db
              && resp.body.record.walletAddress == Some(wallet)
              && resp.body.record.websiteUrl == UriComponent.Decode(urlParam)
    ensures resp.status == 404 <==>
              && UriComponent.Decode(urlParam).Some? && fault.None?
              && Single(db, ByWalletAndUrl(wallet, UriComponent.Decode(urlParam).value), None) == NotFound
  {
    match GetSteps(db, wallet, urlParam, fault)
    case Responded(resp, _) => resp
    case Raised(_) => Response(500, ErrorBody(FetchFailed))
  }

  // ----- The uniqueness invariant over sequential requests -----

  /** Selecting from a table with one more row adds that row when it matches. */
  lemma SelectAppend(db: seq<Record>, r: Record, q: Query)
    ensures Select(db + [r], q) == Select(db, q) + (if Matches(r, q) then [r] else [])
  {
    assert (db + [r])[..|db|] == db;
  }

  /** Under the invariant, at most one row has a given URL, and exactly one does
      precisely when some row has it. */
  lemma {:induction false} UrlSelectAtMostOne(db: seq<Record>, u: string)
    requires UniqueUrls(db)
    ensures |Select(db, ByUrl(u))| <= 1
    ensures |Select(db, ByUrl(u))| == 1 <==> exists i :: 0 <= i < |db| && db[i].websiteUrl == Some(u)
    decreases |db|
  {
    if |db| > 0 {
      var init, last := db[..|db| - 1], db[|db| - 1];
      assert db == init + [last];
      SelectAppend(init, last, ByUrl(u));
      UrlSelectAtMostOne(init, u);
      if last.websiteUrl == Some(u) {
        forall i | 0 <= i < |init|
          ensures !Matches(init[i], ByUrl(u))
        {
          assert db[i] == init[i];
        }
      } else {
        if exists i :: 0 <= i < |db| && db[i].websiteUrl == Some(u) {
          var i :| 0 <= i < |db| && db[i].websiteUrl == Some(u);
          assert i < |init| && init[i] == db[i];
        }
      }
    }
  }

  /** The wallet-and-URL filter never selects more rows than the URL filter. */
  lemma {:induction false} CombinationSelectNarrower(db: seq<Record>, w: string, u: string)
    ensures |Select(db, ByWalletAndUrl(w, u))| <= |Select(db, ByUrl(u))|
    decreases |db|
  {
    if |db| > 0 {
      var init, last := db[..|db| - 1], db[|db| - 1];
      assert db == init + [last];
      SelectAppend(init, last, ByUrl(u));
      SelectAppend(init, last, ByWalletAndUrl(w, u));
      CombinationSelectNarrower(init, w, u);
    }
  }

  /** A successful create keeps both table invariants: no URL twice, and
      `qr_data` equal to `wallet_address` in every row. Every other outcome
      leaves the table untouched. */
  lemma CreatePreservesInvariants(db: seq<Record>, req: CreateRequest, store: StoreBehaviour)
    requires UniqueUrls(db) && QrMatchesWallet(db)
    ensures UniqueUrls(Create(db, req, store).db)
    ensures QrMatchesWallet(Create(db, req, store).db)
  {
    var o := Create(db, req, store);
    if o.response.status == 201 {
      var h := CreateSteps(db, req, store);
      assert h.Responded? && h.response.status == 201;
      UrlSelectAtMostOne(db, EqFilter(req.websiteUrl));
      assert |Select(db, UrlQuery(req))| == 0;
      assert forall i :: 0 <= i < |db| ==> db[i].websiteUrl != Some(EqFilter(req.websiteUrl));
    }
  }

  /** One create request together with how the store behaves while serving it. */
  datatype Call = Call(req: CreateRequest, store: StoreBehaviour)

  /** The table after serving create requests one at a time, in order. */
  function Run(db: seq<Record>, calls: seq<Call>): seq<Record>
    decreases |calls|
  {
    if |calls| == 0 then db
    else Run(Create(db, calls[0].req, calls[0].store).db, calls[1..])
  }

  /** Served one after another, create requests never put two rows with the
      same URL into the table, and every row they add has `qr_data` equal to
      `wallet_address`. (Concurrent requests can interleave their checks and
      inserts; this is stated for sequential service only.) */
  lemma {:induction false} RunPreservesInvariants(db: seq<Record>, calls: seq<Call>)
    requires UniqueUrls(db) && QrMatchesWallet(db)
    ensures UniqueUrls(Run(db, calls)) && QrMatchesWallet(Run(db, calls))
    decreases |calls|
  {
    if |calls| > 0 {
      CreatePreservesInvariants(db, calls[0].req, calls[0].store);
      RunPreservesInvariants(Create(db, calls[0].req, calls[0].store).db, calls[1..]);
    }
  }

  /** A request without `website_url` is checked against the filter text
      `undefined`, which a row stored without a URL never matches: two such
      creates, from any wallets, are both accepted and both stored without a URL. */
  lemma AbsentUrlsNeverConflict(a: CreateRequest, sa: StoreBehaviour, b: CreateRequest, sb: StoreBehaviour)
    requires Valid(a) && Valid(b) && a.websiteUrl.None? && b.websiteUrl.None?
    requires sa.searchFault.None? && sa.urlCheckFault.None? && sa.insert.Inserted?
    requires sb.searchFault.None? && sb.urlCheckFault.None? && sb.insert.Inserted?
    ensures Create([], a, sa).response.status == 201
    ensures Create(Create([], a, sa).db, b, sb).response.status == 201
    ensures var db := Run([], [Call(a, sa), Call(b, sb)]);
            |db| == 2 && db[0].websiteUrl.None? && db[1].websiteUrl.None?
  {
    var db1 := Create([], a, sa).db;
    assert |db1| == 1 && db1[0].websiteUrl.None?;
    var db2 := Create(db1, b, sb).db;
    assert |db2| == 2 && db2[0] == db1[0] && db2[1].websiteUrl.None?;
    assert [Call(a, sa), Call(b, sb)][1..] == [Call(b, sb)];
    assert Run([], [Call(a, sa), Call(b, sb)]) == Run(db1, [Call(b, sb)]) == Run(db2, []);
  }

  /** Under the invariant and without store failures, a valid request is
      refused with 409 exactly when its URL is already in the table; the
      wallet-and-URL check only chooses the message, which names the
      combination exactly when the existing row also has the same wallet. */
  lemma ConflictIffUrlTaken(db: seq<Record>, req: CreateRequest, store: StoreBehaviour)
    requires UniqueUrls(db)
    requires Valid(req)
    requires store.searchFault.None? && store.urlCheckFault.None?
    ensures Create(db, req, store).response.status == 409 <==>
              exists i :: 0 <= i < |db| && db[i].websiteUrl == Some(EqFilter(req.websiteUrl))
    ensures Create(db, req, store).response.body == ErrorBody(CombinationExists) <==>
              exists i :: 0 <= i < |db| && db[i].websiteUrl == Some(EqFilter(req.websiteUrl))
                          && db[i].walletAddress == Some(EqFilter(req.walletAddress))
  {
    var w, u := EqFilter(req.walletAddress), EqFilter(req.websiteUrl);
    UrlSelectAtMostOne(db, u);
    CombinationSelectNarrower(db, w, u);
    var both := Select(db, ByWalletAndUrl(w, u));
    if exists i :: 0 <= i < |db| && db[i].websiteUrl == Some(u) && db[i].walletAddress == Some(w) {
      var i :| 0 <= i < |db| && db[i].websiteUrl == Some(u) && db[i].walletAddress == Some(w);
      assert Matches(db[i], ByWalletAndUrl(w, u));
      assert |both| == 1;
    }
  }

  /** Round trip through the handler: after a successful create of wallet `W`
      and URL `U` into a table that keeps the invariant, passing `W` and the
      encoding of `U` to `getQRCode` answers 200 with the created row. */
  lemma GetAfterCreate(db: seq<Record>, req: CreateRequest, store: StoreBehaviour, w: string, u: string)
    requires UniqueUrls(db)
    requires req.walletAddress == Some(w) && req.websiteUrl == Some(u)
    requires Create(db, req, store).response.status == 201
    ensures Get(Create(db, req, store).db, w, UriComponent.Encode(u), None)
            == Response(200, Create(db, req, store).response.body)
  {
    var o := Create(db, req, store);
    var rec := o.response.body.record;
    UriComponent.DecodeEncode(u);
    UrlSelectAtMostOne(db, u);
    assert |Select(db, ByUrl(u))| == 0;
    CombinationSelectNarrower(db, w, u);
    SelectAppend(db, rec, ByWalletAndUrl(w, u));
    assert Select(o.db, ByWalletAndUrl(w, u)) == [rec];
  }

  // ----- Routing: route parameters reach the handler already decoded -----

  /** `GET /api/qr-codes/:wallet_address/:website_url` end to end, as written.
      The router percent-decodes every route parameter before the handler runs
      (Express's parameter decoding), and `getQRCode` then decodes
      `website_url` a second time. `None` stands for the router refusing a
      segment it cannot decode, before any handler runs. */
  function FetchAsWritten(db: seq<Record>, wallet: string, segment: string, fault: Option<StoreError>): (r: Option<Response>)
    ensures r.Some? <==> UriComponent.Decode(segment).Some?
    ensures r.Some? ==> r.value == Get(db, wallet, UriComponent.Decode(segment).value, fault)
  {
    match UriComponent.Decode(segment)
    case None => None
    case Some(param) => Some(Get(db, wallet, param, fault))
  }

  /** The same route with the URL decoded exactly once: the router's decoding
      is the only one, and the handler looks the parameter up as it is. */
  function Fetch(db: seq<Record>, wallet: string, segment: string, fault: Option<StoreError>): (r: Option<Response>)
    ensures r.Some? <==> UriComponent.Decode(segment).Some?
    ensures r.Some? && r.value.status == 200 ==>
              r.value.body.RecordBody? && r.value.body.record in db
              && r.value.body.record.websiteUrl == UriComponent.Decode(segment)
              && r.value.body.record.walletAddress == Some(wallet)
    ensures r.Some? ==> r.value.status in {200, 404, 500}
  {
    match UriComponent.Decode(segment)
    case None => None
    case Some(url) =>
      match LookupSteps(db, wallet, url, fault)
      case Responded(resp, _) => Some(resp)
      case Raised(_) => Some(Response(500, ErrorBody(FetchFailed)))
  }

  /** The single decoding finds every created row: after a successful create of
      wallet `W` and URL `U`, requesting `W` and the encoding of `U` answers
      200 with the created row, whatever characters `U` holds. */
  lemma FetchAfterCreate(db: seq<Record>, req: CreateRequest, store: StoreBehaviour, w: string, u: string)
    requires UniqueUrls(db)
    requires req.walletAddress == Some(w) && req.websiteUrl == Some(u)
    requires Create(db, req, store).response.status == 201
    ensures Fetch(Create(db, req, store).db, w, UriComponent.Encode(u), None)
            == Some(Response(200, Create(db, req, store).response.body))
  {
    var o := Create(db, req, store);
    var rec := o.response.body.record;
    UriComponent.DecodeEncode(u);
    UrlSelectAtMostOne(db, u);
    CombinationSelectNarrower(db, w, u);
    SelectAppend(db, rec, ByWalletAndUrl(w, u));
    assert Select(o.db, ByWalletAndUrl(w, u)) == [rec];
  }

  /** Decoding twice loses every row whose URL itself decodes to something
      else (it holds a percent-escape): the route requested with the encoding
      of that URL answers 404 as written, and finds the row when the URL is
      decoded once. */
  lemma DoubleDecodeLoses(rec: Record, w: string, u: string, v: string)
    requires rec.walletAddress == Some(w) && rec.websiteUrl == Some(u)
    requires UriComponent.Decode(u) == Some(v) && v != u
    ensures FetchAsWritten([rec], w, UriComponent.Encode(u), None) == Some(Response(404, ErrorBody(NotFoundMessage)))
    ensures Fetch([rec], w, UriComponent.Encode(u), None) == Some(Response(200, RecordBody(rec)))
  {
    UriComponent.DecodeEncode(u);
    assert !Matches(rec, ByWalletAndUrl(w, v));
    assert Select([rec], ByWalletAndUrl(w, u)) == [rec];
  }

  /** A concrete instance: a row stored for the URL `x%20y` is requested
      with the encoding of that URL (`x%2520y`), which the router turns into
      `x%20y` and the handler into `x y`, so the lookup misses and the route
      answers 404, while decoding once finds the row. */
  lemma DoubleDecodeCounterexample(rec: Record)
    requires rec.walletAddress == Some("0xW") && rec.websiteUrl == Some("x%20y")
    ensures FetchAsWritten([rec], "0xW", UriComponent.Encode("x%20y"), None) == Some(Response(404, ErrorBody(NotFoundMessage)))
    ensures Fetch([rec], "0xW", UriComponent.Encode("x%20y"), None) == Some(Response(200, RecordBody(rec)))
  {
    UriComponent.SpaceExample();
    DoubleDecodeLoses(rec, "0xW", "x%20y", "x y");
  }
}
