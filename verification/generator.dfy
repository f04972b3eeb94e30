/** The generate flow of `frontend/src/components/QRCodeGenerator.tsx`: local
    validation, the lookup of an existing record, the payload, the bounded
    retry of the POST, and the choice of the message shown on failure.

    Browser and library calls are replaced by their outcomes: the URL parser by
    the host name it yields (or `None` when it throws), the numeric check on the
    amount by a boolean, and each HTTP exchange by a scripted reply. */
module Generator {
  import opened Base
  import Text
  import Numerals
  import Gateway

  // ----- Display name -----

  /** `toUpperCase` on one character, for the ASCII letters. */
  function AsciiUpper(c: char): (u: char)
    ensures 'a' <= c <= 'z' ==> u as int == c as int - 32
    ensures !('a' <= c <= 'z') ==> u == c
  {
    if 'a' <= c <= 'z' then (c as int - 32) as char else c
  }

  /** `s.charAt(0).toUpperCase() + s.slice(1)`. */
  function Capitalize(s: string): (r: string)
    ensures |r| == |s|
    ensures |s| > 0 ==> r[0] == AsciiUpper(s[0]) && r[1..] == s[1..]
  {
    if |s| == 0 then "" else [AsciiUpper(s[0])] + s[1..]
  }

  /** `name` is the capitalised first dot-separated label of `host`. */
  ghost predicate IsCapitalisedFirstLabel(name: string, host: string)
  {
    && |name| <= |host|
    && '.' !in name
    && (|name| < |host| ==> host[|name|] == '.')
    && (|name| > 0 ==> name[0] == AsciiUpper(host[0]) && name[1..] == host[1..|name|])
  }

  /** `extractWebsiteName` as written: the first occurrence of `www.` is removed
      from the host name WHEREVER it occurs, then the text before the first dot
      is kept and its first letter upper-cased; an unparseable URL gives
      `Unknown`. */
  function ExtractWebsiteName(host: Option<string>): (name: string)
    ensures host.None? ==> name == "Unknown"
    ensures host.Some? ==> IsCapitalisedFirstLabel(name, Text.ReplaceFirst(host.value, "www.", ""))
    ensures '.' !in name
  {
    match host
    case None => "Unknown"
    case Some(h) => Capitalize(Text.Before(Text.ReplaceFirst(h, "www.", ""), '.'))
  }

  /** The host name without a leading `www.`. */
  function StripLeadingWww(h: string): (r: string)
    ensures |h| >= 4 && h[..4] == "www." ==> r == h[4..]
    ensures !(|h| >= 4 && h[..4] == "www.") ==> r == h
  {
    if |h| >= 4 && h[..4] == "www." then h[4..] else h
  }

  /** The display name as evidently intended: only a leading `www.` is removed,
      so the name is the capitalised first label of the rest of the host name. */
  function WebsiteName(host: Option<string>): (name: string)
    ensures host.None? ==> name == "Unknown"
    ensures host.Some? ==> IsCapitalisedFirstLabel(name, StripLeadingWww(host.value))
    ensures '.' !in name
  {
    match host
    case None => "Unknown"
    case Some(h) => Capitalize(Text.Before(StripLeadingWww(h), '.'))
  }

  /** The first `www.` of a host name whose first label ends in `www` but
      has no `w` before that is the one ending the label. */
  lemma InnerWwwFound(p: string, rest: string)
    requires 'w' !in p
    ensures Text.IndexOf(p + "www." + rest, "www.") == Some(|p|)
  {
    var h := p + "www." + rest;
    assert h[|p|..|p| + 4] == "www.";
    assert Text.OccursAt(h, "www.", |p|);
    forall k | 0 <= k < |p|
      ensures !Text.OccursAt(h, "www.", k)
    {
      assert h[k] == p[k];
    }
  }

  /** When the first label is `p` followed by `www`, and `p` holds no `w`
      and no dot, the code as written removes that `www.` and joins the first
      two labels, while the intended name keeps the whole first label. */
  lemma InnerWwwDropped(p: string, rest: string)
    requires |p| > 0 && 'w' !in p && '.' !in p
    ensures ExtractWebsiteName(Some(p + "www." + rest)) == Capitalize(p + Text.Before(rest, '.'))
    ensures WebsiteName(Some(p + "www." + rest)) == Capitalize(p + "www")
  {
    InnerWwwJoinsLabels(p, rest);
    InnerWwwKeptInLabel(p, rest);
  }

  lemma InnerWwwJoinsLabels(p: string, rest: string)
    requires 'w' !in p && '.' !in p
    ensures Text.ReplaceFirst(p + "www." + rest, "www.", "") == p + rest
    ensures ExtractWebsiteName(Some(p + "www." + rest)) == Capitalize(p + Text.Before(rest, '.'))
  {
    var h := p + "www." + rest;
    InnerWwwFound(p, rest);
    assert h[..|p|] == p && h[|p| + 4..] == rest;
    Text.BeforeAppend(p, rest, '.');
  }

  lemma InnerWwwKeptInLabel(p: string, rest: string)
    requires |p| > 0 && 'w' !in p && '.' !in p
    ensures WebsiteName(Some(p + "www." + rest)) == Capitalize(p + "www")
  {
    var h := p + "www." + rest;
    assert h[0] == p[0];
    assert StripLeadingWww(h) == h;
    assert "www." == "www" + ['.'];
    Regroup(p, "www", rest);
    Text.BeforeFirst(p + "www", '.', rest);
  }

  /** Moving the dot after a label to the other side of the concatenation. */
  lemma Regroup(p: string, w: string, rest: string)
    ensures p + (w + ['.']) + rest == (p + w) + ['.'] + rest
  {
  }

  /** A concrete instance: for `mywww.example.com` the code as written shows
      `Myexample`, where the first label is `mywww`. */
  lemma InnerWwwCounterexample()
    ensures var h := "my" + "www." + ("example" + ['.'] + "com");
            && ExtractWebsiteName(Some(h)) == Capitalize("my" + "example")
            && WebsiteName(Some(h)) == Capitalize("my" + "www")
            && ExtractWebsiteName(Some(h)) != WebsiteName(Some(h))
  {
    InnerWwwDropped("my", "example" + ['.'] + "com");
    Text.BeforeFirst("example", '.', "com");
    assert Capitalize("my" + "example")[2] == 'e';
    assert Capitalize("my" + "www")[2] == 'w';
  }

  /** On a host name that starts with `www.` and holds no other `www.`, the
      code as written computes the intended name. */
  lemma LeadingWwwAgrees(rest: string)
    requires !Text.Contains(rest, "www.")
    ensures ExtractWebsiteName(Some("www." + rest)) == WebsiteName(Some("www." + rest))
  {
    var h := "www." + rest;
    assert Text.OccursAt(h, "www.", 0);
    assert Text.ReplaceFirst(h, "www.", "") == rest;
    assert h[..4] == "www." && h[4..] == rest;
  }

  /** A capitalised first label is empty exactly when the text it is taken
      from is empty or starts with a dot. */
  lemma CapitalisedLabelEmptyIff(t: string)
    ensures Capitalize(Text.Before(t, '.')) == "" <==> |t| == 0 || t[0] == '.'
  {
    if |t| > 0 && t[0] != '.' {
      assert |Text.Before(t, '.')| > 0;
    }
  }

  /** The name `extractWebsiteName` computes is empty exactly when the host
      name, less its first `www.`, is empty or starts with a dot (a URL such as
      `file:///x` parses with an empty host name). */
  lemma EmptyNameIff(h: string)
    ensures ExtractWebsiteName(Some(h)) == "" <==>
              var t := Text.ReplaceFirst(h, "www.", ""); |t| == 0 || t[0] == '.'
  {
    CapitalisedLabelEmptyIff(Text.ReplaceFirst(h, "www.", ""));
  }

  /** The name as written and the intended name are empty for the same host
      names: removing an inner `www.` never empties the first label. */
  lemma EmptyNamesAgree(h: string)
    ensures ExtractWebsiteName(Some(h)) == "" <==> WebsiteName(Some(h)) == ""
  {
    var r, t := Text.ReplaceFirst(h, "www.", ""), StripLeadingWww(h);
    CapitalisedLabelEmptyIff(r);
    CapitalisedLabelEmptyIff(t);
    match Text.IndexOf(h, "www.")
    case None =>
      assert !Text.OccursAt(h, "www.", 0);
      assert t == h;
    case Some(k) =>
      if k == 0 {
        assert h[..4] == "www.";
        assert r == h[4..];
      } else {
        assert !Text.OccursAt(h, "www.", 0);
        assert t == h;
        assert r[0] == h[0];
      }
  }

  // ----- Local validation -----

  const ConnectWallet := "Please connect your wallet first"
  const ApiMissing := "API URL not configured"
  const UrlRequired := "Website URL is required"
  const UrlInvalid := "Please enter a valid website URL"
  const MemoRequired := "Memo is required"
  const AmountInvalid := "Please enter a valid amount"

  /** The form fields as typed. */
  datatype Form = Form(websiteUrl: string, memo: string, amount: string)

  /** What the session and the browser contribute to one submit: the connected
      wallet's address, whether `VITE_API_URL` is set, the host name `new URL`
      yields for the typed URL (`None` when it throws), and whether the typed
      amount is a number that is not negative. */
  datatype Context = Context(
    wallet: Option<string>,
    apiConfigured: bool,
    host: Option<string>,
    amountAcceptable: bool)

  /** Every local check passes. */
  predicate LocallyValid(ctx: Context, form: Form)
  {
    && Present(ctx.wallet)
    && ctx.apiConfigured
    && form.websiteUrl != ""
    && ctx.host.Some?
    && HasNonWhitespace(form.memo)
    && (form.amount == "" || ctx.amountAcceptable)
  }

  /** The checks at the top of `generateQRCode`, in their order: the message of
      the first one that fails, or `None` when all pass. */
  function LocalCheck(ctx: Context, form: Form): (r: Option<string>)
    ensures r.None? <==> LocallyValid(ctx, form)
    ensures r.Some? ==> r.value in {ConnectWallet, ApiMissing, UrlRequired, UrlInvalid, MemoRequired, AmountInvalid}
    ensures r == Some(ConnectWallet) <==> !Present(ctx.wallet)
    ensures r == Some(ApiMissing) <==> Present(ctx.wallet) && !ctx.apiConfigured
    ensures r == Some(UrlRequired) <==> Present(ctx.wallet) && ctx.apiConfigured && form.websiteUrl == ""
    ensures r == Some(UrlInvalid) <==>
              Present(ctx.wallet) && ctx.apiConfigured && form.websiteUrl != "" && ctx.host.None?
    ensures r == Some(MemoRequired) <==>
              Present(ctx.wallet) && ctx.apiConfigured && form.websiteUrl != "" && ctx.host.Some?
              && !HasNonWhitespace(form.memo)
    ensures r == Some(AmountInvalid) <==>
              Present(ctx.wallet) && ctx.apiConfigured && form.websiteUrl != "" && ctx.host.Some?
              && HasNonWhitespace(form.memo) && form.amount != "" && !ctx.amountAcceptable
  {
    if !Present(ctx.wallet) then Some(ConnectWallet)
    else if !ctx.apiConfigured then Some(ApiMissing)
    else if form.websiteUrl == "" then Some(UrlRequired)
    else if ctx.host.None? then Some(UrlInvalid)
    else if !HasNonWhitespace(form.memo) then Some(MemoRequired)
    else if form.amount != "" && !ctx.amountAcceptable then Some(AmountInvalid)
    else None
  }

  // ----- HTTP exchanges as axios reports them -----

  /** The fields of a JSON response body the component reads. */
  datatype Json = Json(qrData: Option<string>, error: Option<string>)

  /** A response: its status and its body, `None` when the body is falsy. */
  datatype HttpResponse = HttpResponse(status: int, data: Option<Json>)

  /** One request's fate: a response arrived, or the request failed without
      one (network failure, timeout) with the given message. */
  datatype Exchange = Answered(response: HttpResponse) | Unanswered(message: string)

  /** An error caught by the component: its `message` and, for an HTTP error,
      the `response` it carries. */
  datatype ClientError = ClientError(message: string, response: Option<HttpResponse>)

  /** axios's default `validateStatus`. */
  predicate IsSuccessStatus(status: int)
  {
    200 <= status < 300
  }

  /** `err.response?.status === s`. */
  predicate HasStatus(e: ClientError, s: int)
  {
    e.response.Some? && e.response.value.status == s
  }

  /** `err.response?.data?.error`. */
  function ServerError(e: ClientError): (m: Option<string>)
    ensures m.Some? ==> e.response.Some? && e.response.value.data.Some?
  {
    if e.response.Some? && e.response.value.data.Some? then e.response.value.data.value.error else None
  }

  /** What `await axios.get(…)` or `await axios.post(…)` yields: the response
      for a 2xx status, otherwise the error it throws. */
  function Await(x: Exchange): (r: Result<HttpResponse, ClientError>)
    ensures r.Ok? <==> x.Answered? && IsSuccessStatus(x.response.status)
    ensures r.Ok? ==> r.value == x.response
    ensures r.Err? && x.Answered? ==>
              r.error == ClientError("Request failed with status code " + Numerals.IntToDecimal(x.response.status), Some(x.response))
    ensures x.Unanswered? ==> r == Err(ClientError(x.message, None))
  {
    match x
    case Unanswered(m) => Err(ClientError(m, None))
    case Answered(resp) =>
      if IsSuccessStatus(resp.status) then Ok(resp)
      else Err(ClientError("Request failed with status code " + Numerals.IntToDecimal(resp.status), Some(resp)))
  }

  // ----- Lookup of an existing record -----

  /** `checkExistingQRCode`: the body of a 2xx answer (`None` when falsy), `None`
      for a 404, and the error otherwise. */
  function CheckExisting(x: Exchange): (r: Result<Option<Json>, ClientError>)
    ensures r.Ok? <==> x.Answered? && (IsSuccessStatus(x.response.status) || x.response.status == 404)
    ensures r.Ok? && r.value.Some? <==> x.Answered? && IsSuccessStatus(x.response.status) && x.response.data.Some?
    ensures r.Ok? && r.value.Some? ==> r.value == x.response.data
    ensures r.Err? ==> !HasStatus(r.error, 404) && r.error == Await(x).error
  {
    match Await(x)
    case Ok(resp) => Ok(resp.data)
    case Err(e) => if HasStatus(e, 404) then Ok(None) else Err(e)
  }

  // ----- The payload -----

  /** The body of the POST: the wallet address twice (as owner and as QR
      content), the typed URL and memo, the display name `extractWebsiteName`
      computes, and the amount with `'0'` for an empty one. */
  function Payload(wallet: string, form: Form, host: Option<string>): (p: Gateway.CreateRequest)
    ensures p.qrData == p.walletAddress == Some(wallet)
    ensures p.websiteUrl == Some(form.websiteUrl) && p.memo == Some(form.memo)
    ensures p.websiteName == Some(ExtractWebsiteName(host))
    ensures p.amount.Some? && Truthy(p.amount.value)
    ensures form.amount != "" ==> p.amount == Some(form.amount)
  {
    Gateway.CreateRequest(Some(wallet), Some(form.websiteUrl), Some(ExtractWebsiteName(host)),
                          Some(form.memo), Some(OrElse(Some(form.amount), "0")), Some(wallet))
  }

  /** The payload always passes the server's equality check on `qr_data`, and
      it is refused with 400 exactly when the display name is empty (which,
      by `EmptyNamesAgree`, the intended name would be too); a stored record
      then has the typed amount, or `'0'`. */
  lemma PayloadMeetsServerChecks(wallet: string, form: Form, host: Option<string>,
                                 db: seq<Gateway.Record>, store: Gateway.StoreBehaviour)
    ensures var h := Gateway.CreateSteps(db, Payload(wallet, form, host), store);
            h.Responded? && h.response.status == 400 <==> ExtractWebsiteName(host) == ""
    ensures var o := Gateway.Create(db, Payload(wallet, form, host), store);
            o.response.status == 201 ==>
              o.response.body.record.amount == (if form.amount == "" then "0" else form.amount)
              && o.response.body.record.qrData == Some(wallet)
  {
  }

  // ----- One POST attempt and the retry loop -----

  const EmptyResponse := "Empty response from server"
  const MissingQrData := "Missing QR data in response"

  /** What one iteration of the retry loop's try block ends with: the QR data
      of the created record, or the error its catch clause receives. */
  datatype Attempt = Delivered(qrData: string) | Failed(error: ClientError)

  function PostAttempt(x: Exchange): (a: Attempt)
    ensures a.Delivered? <==>
              && x.Answered? && IsSuccessStatus(x.response.status)
              && x.response.data.Some? && Present(x.response.data.value.qrData)
    ensures a.Delivered? ==> a.qrData == x.response.data.value.qrData.value
    ensures a.Failed? && x.Answered? && IsSuccessStatus(x.response.status) ==>
              a.error.response.None?
              && a.error.message == (if x.response.data.None? then EmptyResponse else MissingQrData)
    ensures a.Failed? && !(x.Answered? && IsSuccessStatus(x.response.status)) ==> a.error == Await(x).error
  {
    match Await(x)
    case Err(e) => Failed(e)
    case Ok(resp) =>
      if resp.data.None? then Failed(ClientError(EmptyResponse, None))
      else if !Present(resp.data.value.qrData) then Failed(ClientError(MissingQrData, None))
      else Delivered(resp.data.value.qrData.value)
  }

  /** The catch clause starts another attempt only for a response with status 500. */
  predicate Retryable(a: Attempt)
  {
    a.Failed? && HasStatus(a.error, 500)
  }

  lemma RetryableIff(x: Exchange)
    ensures Retryable(PostAttempt(x)) <==> x.Answered? && x.response.status == 500
  {
  }

  const MaxRetries := 2
  const MaxAttempts := MaxRetries + 1

  /** The POST loop's result: the last attempt, how many POSTs were sent, and
      the delays (in milliseconds) waited between them. */
  datatype PostOutcome = PostOutcome(last: Attempt, attempts: nat, delays: seq<nat>)

  /** The loop as a recursion, from attempt `k` on, given one scripted
      exchange per possible attempt. */
  function RetryFrom(replies: seq<Exchange>, k: nat): (o: PostOutcome)
    requires |replies| == MaxAttempts && k < MaxAttempts
    ensures k < o.attempts <= MaxAttempts
    ensures |o.delays| == o.attempts - 1 - k
    decreases MaxAttempts - k
  {
    var a := PostAttempt(replies[k]);
    if Retryable(a) && k + 1 <= MaxRetries then
      var rest := RetryFrom(replies, k + 1);
      PostOutcome(rest.last, rest.attempts, [1000 * (k + 1)] + rest.delays)
    else PostOutcome(a, k + 1, [])
  }

  /** What a run of the loop must look like: every attempt but the last was
      answered with 500, the delay before attempt `i + 1` was `1000 * i`
      milliseconds, and the last attempt succeeded, failed otherwise than
      with 500, or used up the three attempts. */
  predicate RetryTrace(replies: seq<Exchange>, o: PostOutcome)
    requires |replies| == MaxAttempts
  {
    && 1 <= o.attempts <= MaxAttempts
    && |o.delays| == o.attempts - 1
    && (forall i :: 0 <= i < |o.delays| ==> o.delays[i] == 1000 * (i + 1))
    && (forall i :: 0 <= i < o.attempts - 1 ==> Retryable(PostAttempt(replies[i])))
    && o.last == PostAttempt(replies[o.attempts - 1])
    && (Retryable(o.last) ==> o.attempts == MaxAttempts)
  }

  /** A script admits only one run. */
  lemma RetryTraceUnique(replies: seq<Exchange>, o1: PostOutcome, o2: PostOutcome)
    requires |replies| == MaxAttempts
    requires RetryTrace(replies, o1) && RetryTrace(replies, o2)
    ensures o1 == o2
  {
    assert o1.attempts == o2.attempts;
    assert o1.delays == o2.delays;
  }

  /** The recursion produces a run of the loop. */
  lemma RetryFromIsTrace(replies: seq<Exchange>)
    requires |replies| == MaxAttempts
    ensures RetryTrace(replies, RetryFrom(replies, 0))
  {
    var a0, a1, a2 := PostAttempt(replies[0]), PostAttempt(replies[1]), PostAttempt(replies[2]);
    var o := RetryFrom(replies, 0);
    if !Retryable(a0) {
      assert o == PostOutcome(a0, 1, []);
    } else if !Retryable(a1) {
      assert RetryFrom(replies, 1) == PostOutcome(a1, 2, []);
      assert o == PostOutcome(a1, 2, [1000]);
    } else {
      assert RetryFrom(replies, 2) == PostOutcome(a2, 3, []);
      assert RetryFrom(replies, 1) == PostOutcome(a2, 3, [2000]);
      assert o == PostOutcome(a2, 3, [1000, 2000]);
    }
  }

  /** The `while (retryCount <= maxRetries)` loop: a POST per iteration, a
      successful one ends the loop, a 500 leads to another attempt after a
      delay while retries remain, and anything else ends it with that error. */
  method PostWithRetry(replies: seq<Exchange>) returns (o: PostOutcome)
    requires |replies| == MaxAttempts
    ensures RetryTrace(replies, o)
    ensures o == RetryFrom(replies, 0)
  {
    var retryCount := 0;
    var posts := 0;
    var delays: seq<nat> := [];
    while true
      invariant retryCount == posts <= MaxRetries
      invariant |delays| == posts
      invariant forall i :: 0 <= i < posts ==> delays[i] == 1000 * (i + 1)
      invariant forall i :: 0 <= i < posts ==> Retryable(PostAttempt(replies[i]))
      decreases MaxAttempts - posts
    {
      var a := PostAttempt(replies[posts]);
      posts := posts + 1;
      if a.Delivered? {
        o := PostOutcome(a, posts, delays);
        break;
      }
      if Retryable(a) {
        retryCount := retryCount + 1;
        if retryCount <= MaxRetries {
          delays := delays + [1000 * retryCount];
          continue;
        }
      }
      o := PostOutcome(a, posts, delays);
      break;
    }
    RetryFromIsTrace(replies);
    RetryTraceUnique(replies, o, RetryFrom(replies, 0));
  }

  // ----- The message shown on failure -----

  const UnableToSave := "Unable to save QR code. Please check your input and try again."
  const ServerBusy := "Server error. Please try again in a few moments."
  const GenerateFailed := "Failed to generate QR code. Please try again."

  /** The outer catch clause's choice of message: the store's insert failure,
      then a 500, then the server's own `error` text, then the error's
      message, then a default. */
  function ErrorMessage(e: ClientError): (m: string)
    ensures |m| > 0
    ensures ServerError(e) == Some(Gateway.InsertFailedMessage) ==> m == UnableToSave
    ensures ServerError(e) != Some(Gateway.InsertFailedMessage) && HasStatus(e, 500) ==> m == ServerBusy
    ensures ServerError(e) != Some(Gateway.InsertFailedMessage) && !HasStatus(e, 500) && Present(ServerError(e)) ==>
              m == ServerError(e).value
    ensures !HasStatus(e, 500) && !Present(ServerError(e)) ==>
              m == (if e.message != "" then e.message else GenerateFailed)
  {
    if ServerError(e) == Some(Gateway.InsertFailedMessage) then UnableToSave
    else if HasStatus(e, 500) then ServerBusy
    else if ServerError(e).Some? && ServerError(e).value != "" then ServerError(e).value
    else if e.message != "" then e.message
    else GenerateFailed
  }

  // ----- The whole submit -----

  /** The component state a submit leaves: the QR data shown, the error text,
      and the `loading` and `success` flags. */
  datatype Screen = Screen(qrData: Option<string>, error: string, loading: bool, success: bool)

  /** The requests a submit sends: lookups, POSTs, and the delays between POSTs. */
  datatype Traffic = Traffic(lookups: nat, posts: nat, delays: seq<nat>)

  datatype Submitted = Submitted(screen: Screen, traffic: Traffic)

  /** `generateQRCode`, given the QR data shown before, the answer to the
      lookup, and one scripted answer per possible POST. */
  function Generate(ctx: Context, form: Form, shown: Option<string>, existing: Exchange, replies: seq<Exchange>): (s: Submitted)
    requires |replies| == MaxAttempts
    ensures !s.screen.loading
    ensures s.screen.success <==> s.screen.error == ""
    ensures !s.screen.success ==> s.screen.qrData == shown
    ensures LocalCheck(ctx, form).Some? ==>
              s == Submitted(Screen(shown, LocalCheck(ctx, form).value, false, false), Traffic(0, 0, []))
    ensures LocalCheck(ctx, form).None? ==> s.traffic.lookups == 1
    ensures s.traffic.posts > 0 ==> CheckExisting(existing) == Ok(None)
    ensures CheckExisting(existing).Ok? && CheckExisting(existing).value.Some? && LocallyValid(ctx, form) ==>
              s.screen.success && s.screen.qrData == CheckExisting(existing).value.value.qrData && s.traffic.posts == 0
    ensures LocallyValid(ctx, form) && CheckExisting(existing).Err? ==>
              s == Submitted(Screen(shown, ErrorMessage(CheckExisting(existing).error), false, false), Traffic(1, 0, []))
    ensures LocallyValid(ctx, form) && CheckExisting(existing) == Ok(None) ==>
              s.traffic.posts == RetryFrom(replies, 0).attempts > 0 && s.traffic.delays == RetryFrom(replies, 0).delays
    ensures s.traffic.posts <= MaxAttempts && |s.traffic.delays| == Max(s.traffic.posts - 1, 0)
    ensures forall i :: 0 <= i < |s.traffic.delays| ==> s.traffic.delays[i] == 1000 * (i + 1)
    ensures forall i :: 0 <= i < s.traffic.posts - 1 ==> Retryable(PostAttempt(replies[i]))
    ensures s.traffic.posts > 0 ==> s.screen.success == RetryFrom(replies, 0).last.Delivered?
    ensures s.traffic.posts > 0 && RetryFrom(replies, 0).last.Delivered? ==>
              s.screen.qrData == Some(RetryFrom(replies, 0).last.qrData)
    ensures s.traffic.posts > 0 && RetryFrom(replies, 0).last.Failed? ==>
              s.screen.error == ErrorMessage(RetryFrom(replies, 0).last.error)
  {
    RetryFromIsTrace(replies);
    match LocalCheck(ctx, form)
    case Some(m) => Submitted(Screen(shown, ErrorMessage(ClientError(m, None)), false, false), Traffic(0, 0, []))
    case None =>
      match CheckExisting(existing)
      case Err(e) => Submitted(Screen(shown, ErrorMessage(e), false, false), Traffic(1, 0, []))
      case Ok(Some(j)) => Submitted(Screen(j.qrData, "", false, true), Traffic(1, 0, []))
      case Ok(None) =>
        var o := RetryFrom(replies, 0);
        match o.last
        case Delivered(q) => Submitted(Screen(Some(q), "", false, true), Traffic(1, o.attempts, o.delays))
        case Failed(e) => Submitted(Screen(shown, ErrorMessage(e), false, false), Traffic(1, o.attempts, o.delays))
  }

  /** A reply with the given status and server error text. */
  function ErrorReply(status: int, error: string): Exchange
  {
    Answered(HttpResponse(status, Some(Json(None, Some(error)))))
  }

  /** Two 500s and then a created record: three POSTs, waits of one and two
      seconds, and the record's QR data on screen. */
  lemma RecoversAfterTwoServerErrors(ctx: Context, form: Form, shown: Option<string>, q: string)
    requires LocallyValid(ctx, form) && q != ""
    ensures var replies := [ErrorReply(500, "x"), ErrorReply(500, "x"),
                            Answered(HttpResponse(201, Some(Json(Some(q), None))))];
            Generate(ctx, form, shown, ErrorReply(404, Gateway.NotFoundMessage), replies)
              == Submitted(Screen(Some(q), "", false, true), Traffic(1, 3, [1000, 2000]))
  {
    var replies := [ErrorReply(500, "x"), ErrorReply(500, "x"),
                    Answered(HttpResponse(201, Some(Json(Some(q), None))))];
    RetryFromIsTrace(replies);
  }

  /** A refusal other than 500 is not retried: one POST, and the server's
      message on screen. */
  lemma ConflictNotRetried(ctx: Context, form: Form, shown: Option<string>, rest: seq<Exchange>)
    requires LocallyValid(ctx, form) && |rest| == MaxAttempts - 1
    ensures Generate(ctx, form, shown, ErrorReply(404, Gateway.NotFoundMessage),
                     [ErrorReply(409, Gateway.UrlTaken)] + rest)
              == Submitted(Screen(shown, Gateway.UrlTaken, false, false), Traffic(1, 1, []))
  {
    var replies := [ErrorReply(409, Gateway.UrlTaken)] + rest;
    assert replies[0] == ErrorReply(409, Gateway.UrlTaken);
  }

  /** When the store keeps failing the insert, all three POSTs are spent and the
      insert-failure text is shown, not the generic 500 one. */
  lemma InsertFailureExhaustsRetries(ctx: Context, form: Form, shown: Option<string>)
    requires LocallyValid(ctx, form)
    ensures var r := ErrorReply(500, Gateway.InsertFailedMessage);
            Generate(ctx, form, shown, ErrorReply(404, Gateway.NotFoundMessage), [r, r, r])
              == Submitted(Screen(shown, UnableToSave, false, false), Traffic(1, 3, [1000, 2000]))
  {
    var r := ErrorReply(500, Gateway.InsertFailedMessage);
    RetryFromIsTrace([r, r, r]);
  }
}
