/** The retrieval flow of `frontend/src/components/QRCodeRetrieval.tsx`: the
    e-mail check, and `payFeeAndRetrieveQR`, which pays a fee of one USDC to the
    admin wallet and then asks the server for the QR code.

    The wallet calls (signer, `transfer`, `tx.wait()`) are replaced by their
    outcome, and the GET by a scripted exchange. */
module Retrieval {
  import opened Base
  import Generator

  // ----- The e-mail check -----

  /** A character `[^\s@]` matches. */
  predicate Plain(c: char)
  {
    !IsWhitespace(c) && c != '@'
  }

  predicate AllPlain(s: string)
  {
    forall k :: 0 <= k < |s| ==> Plain(s[k])
  }

  /** `s` matches `/^[^\s@]+@[^\s@]+\.[^\s@]+$/`: it is a non-empty plain run,
      an `@` at `i`, a non-empty plain run, a `.` at `j`, and a non-empty plain run. */
  ghost predicate MatchesEmailRegex(s: string)
  {
    exists i, j :: 0 < i && i + 1 < j && j + 1 < |s| && s[i] == '@' && s[j] == '.'
                   && AllPlain(s[..i]) && AllPlain(s[i + 1..j]) && AllPlain(s[j + 1..])
  }

  /** The domain part has a `.` that is neither its first nor its last character. */
  predicate HasInnerDot(d: string)
  {
    exists j :: 1 <= j < |d| - 1 && d[j] == '.'
  }

  /** The position of the first `c` in `s`. */
  function FirstIndex(s: string, c: char): (r: Option<nat>)
    ensures r.Some? ==> r.value < |s| && s[r.value] == c && c !in s[..r.value]
    ensures r.None? ==> c !in s
  {
    if |s| == 0 then None
    else if s[0] == c then Some(0)
    else match FirstIndex(s[1..], c)
      case None => None
      case Some(k) => assert s[..k + 1] == [s[0]] + s[1..][..k]; Some(k + 1)
  }

  /** `validateEmail`: a non-empty local part before the first `@`, a domain
      part after it with an inner dot, and no white space or second `@`
      anywhere. Holds exactly when the regular expression matches. */
  function ValidateEmail(s: string): (ok: bool)
    ensures ok <==> MatchesEmailRegex(s)
  {
    match FirstIndex(s, '@')
    case None =>
      false
    case Some(i) =>
      var ok := 0 < i && AllPlain(s[..i]) && AllPlain(s[i + 1..]) && HasInnerDot(s[i + 1..]);
      EmailRegexIff(s, i);
      ok
  }

  /** The `@` the regular expression matches is the first one. */
  lemma FirstAtIsMatched(s: string, i: nat, i': nat)
    requires i < |s| && s[i] == '@' && '@' !in s[..i]
    requires i' < |s| && s[i'] == '@' && AllPlain(s[..i'])
    ensures i == i'
  {
  }

  /** A match of the regular expression passes the split check. */
  lemma EmailRegexSplits(s: string, i: nat)
    requires i < |s| && s[i] == '@' && '@' !in s[..i]
    requires MatchesEmailRegex(s)
    ensures 0 < i && AllPlain(s[..i]) && AllPlain(s[i + 1..]) && HasInnerDot(s[i + 1..])
  {
    var i', j :| 0 < i' && i' + 1 < j && j + 1 < |s| && s[i'] == '@' && s[j] == '.'
                 && AllPlain(s[..i']) && AllPlain(s[i' + 1..j]) && AllPlain(s[j + 1..]);
    FirstAtIsMatched(s, i, i');
    SplitAt(s, i + 1, j);
    PlainAroundDot(s[i + 1..j], s[j + 1..]);
    assert s[i + 1..][j - i - 1] == '.';
  }

  /** A suffix is the run before position `j`, the character at `j`, and the rest. */
  lemma SplitAt(s: string, lo: nat, j: nat)
    requires lo <= j < |s|
    ensures s[lo..] == s[lo..j] + [s[j]] + s[j + 1..]
  {
  }

  /** Two plain runs joined by a dot make a plain run. */
  lemma PlainAroundDot(a: string, b: string)
    requires AllPlain(a) && AllPlain(b)
    ensures AllPlain(a + ['.'] + b)
  {
    var t := a + ['.'] + b;
    forall k | 0 <= k < |t|
      ensures Plain(t[k])
    {
      if k < |a| {
        assert t[k] == a[k];
      } else if k > |a| {
        assert t[k] == b[k - |a| - 1];
      }
    }
  }

  /** A string passing the split check matches the regular expression. */
  lemma SplitMatchesEmailRegex(s: string, i: nat)
    requires i < |s| && s[i] == '@'
    requires 0 < i && AllPlain(s[..i]) && AllPlain(s[i + 1..]) && HasInnerDot(s[i + 1..])
    ensures MatchesEmailRegex(s)
  {
    var d := s[i + 1..];
    var j' :| 1 <= j' < |d| - 1 && d[j'] == '.';
    var j := i + 1 + j';
    assert s[i + 1..j] == d[..j'];
    assert s[j + 1..] == d[j' + 1..];
    assert AllPlain(s[i + 1..j]) && AllPlain(s[j + 1..]);
  }

  /** The regular expression's match, split at the first `@`. */
  lemma EmailRegexIff(s: string, i: nat)
    requires i < |s| && s[i] == '@' && '@' !in s[..i]
    ensures MatchesEmailRegex(s) <==>
              0 < i && AllPlain(s[..i]) && AllPlain(s[i + 1..]) && HasInnerDot(s[i + 1..])
  {
    if MatchesEmailRegex(s) {
      EmailRegexSplits(s, i);
    }
    if 0 < i && AllPlain(s[..i]) && AllPlain(s[i + 1..]) && HasInnerDot(s[i + 1..]) {
      SplitMatchesEmailRegex(s, i);
    }
  }

  /** An accepted address has no white space and exactly one `@`. */
  lemma AcceptedEmailShape(s: string)
    requires ValidateEmail(s)
    ensures forall k :: 0 <= k < |s| ==> !IsWhitespace(s[k])
    ensures exists i :: 0 < i < |s| - 1 && s[i] == '@' && forall k :: 0 <= k < |s| && s[k] == '@' ==> k == i
  {
    var i := FirstIndex(s, '@').value;
    var d := s[i + 1..];
    forall k | 0 <= k < |s|
      ensures !IsWhitespace(s[k]) && (s[k] == '@' ==> k == i)
    {
      if k < i {
        assert s[k] == s[..i][k];
      } else if k > i {
        assert s[k] == d[k - i - 1];
      }
    }
    assert HasInnerDot(d);
  }

  /** A worked example. */
  lemma EmailExamples()
    ensures ValidateEmail("a@b.c")
    ensures !ValidateEmail("a@b.")
    ensures !ValidateEmail("a b@c.d")
  {
    var s := "a@b.c";
    assert s[..1] == "a" && s[2..3] == "b" && s[4..] == "c";
    assert 0 < 1 && 1 + 1 < 3 && 3 + 1 < |s| && s[1] == '@' && s[3] == '.'
           && AllPlain(s[..1]) && AllPlain(s[1 + 1..3]) && AllPlain(s[3 + 1..]);
    var t := "a@b.";
    assert FirstIndex(t, '@') == Some(1);
    var u := "a b@c.d";
    assert FirstIndex(u, '@') == Some(3);
    assert !Plain(u[..3][1]);
  }

  // ----- Paying the fee and fetching the code -----

  const ConnectWallet := "Please connect your wallet first"
  const AdminMissing := "Admin wallet not configured"
  const InvalidEmail := "Please enter a valid email address"
  const NothingFound := "No QR code found"
  const RetrieveFailed := "Failed to retrieve QR code"

  /** One USDC in base units: `parseUnits("1.0", 6)`. */
  const FeeUnits: nat := 1_000_000

  /** `paymentStatus`. */
  datatype Status = Pending | Processing | Completed | Failed

  /** The outcome of the payment steps: creating the browser provider or
      getting its signer failed before any transfer was asked for (no injected
      wallet, account access refused); the transfer was asked for but refused
      or not confirmed; or it was confirmed. */
  datatype Payment =
    | SignerUnavailable(error: Generator.ClientError)
    | TransferRejected(error: Generator.ClientError)
    | Confirmed

  /** A token transfer the wallet was asked to sign. */
  datatype Transfer = Transfer(to: string, amount: nat)

  /** The component state: status, error text, `loading`, and the record shown. */
  datatype Screen = Screen(status: Status, error: string, loading: bool, record: Option<Generator.Json>)

  /** What one submit does: the state it leaves, the statuses it sets in
      order, the transfers it requests, and the lookups it sends. */
  datatype Retrieved = Retrieved(screen: Screen, statuses: seq<Status>, transfers: seq<Transfer>, lookups: nat)

  /** The catch clause's message: `err.response?.data?.error || err.message ||`
      the default. */
  function FailureMessage(e: Generator.ClientError): (m: string)
    ensures |m| > 0
    ensures Present(Generator.ServerError(e)) ==> m == Generator.ServerError(e).value
    ensures !Present(Generator.ServerError(e)) && e.message != "" ==> m == e.message
  {
    OrElse(Generator.ServerError(e), if e.message != "" then e.message else RetrieveFailed)
  }

  /** `payFeeAndRetrieveQR`, given the screen before, the connected wallet,
      `VITE_ADMIN_WALLET_ADDRESS`, the typed address, the payment's outcome
      and the server's answer to the lookup. */
  function PayFeeAndRetrieve(before: Screen, wallet: Option<string>, admin: Option<string>, email: string,
                             payment: Payment, lookup: Generator.Exchange): (r: Retrieved)
    ensures !Present(wallet) ==>
              r == Retrieved(before.(error := ConnectWallet), [], [], 0)
    ensures Present(wallet) && !Present(admin) ==>
              r == Retrieved(before.(error := AdminMissing), [], [], 0)
    ensures Present(wallet) && Present(admin) ==>
              && !r.screen.loading
              && |r.statuses| >= 2 && r.statuses[0] == Processing
              && r.screen.status == r.statuses[|r.statuses| - 1]
              && r.screen.status in {Completed, Failed}
              && (r.screen.status == Completed <==> r.screen.error == "")
    ensures !ValidateEmail(email) && Present(wallet) && Present(admin) ==>
              r == Retrieved(Screen(Failed, InvalidEmail, false, before.record), [Processing, Failed], [], 0)
    ensures |r.transfers| > 0 ==> r.transfers == [Transfer(admin.value, FeeUnits)]
    ensures |r.transfers| > 0 <==>
              Present(wallet) && Present(admin) && ValidateEmail(email) && !payment.SignerUnavailable?
    ensures Present(wallet) && Present(admin) && ValidateEmail(email) && payment.SignerUnavailable? ==>
              r == Retrieved(Screen(Failed, FailureMessage(payment.error), false, before.record), [Processing, Failed], [], 0)
    ensures Completed in r.statuses <==>
              Present(wallet) && Present(admin) && ValidateEmail(email) && payment.Confirmed?
    ensures r.lookups > 0 ==> r.lookups == 1 && r.statuses[..2] == [Processing, Completed]
    ensures |r.statuses| > 0 && r.screen.status == Completed ==> r.screen.record.Some? && r.lookups == 1
  {
    if !Present(wallet) then Retrieved(before.(error := ConnectWallet), [], [], 0)
    else if !Present(admin) then Retrieved(before.(error := AdminMissing), [], [], 0)
    else if !ValidateEmail(email) then
      Retrieved(Screen(Failed, FailureMessage(Generator.ClientError(InvalidEmail, None)), false, before.record),
                [Processing, Failed], [], 0)
    else
      var pay := [Transfer(admin.value, FeeUnits)];
      match payment
      case SignerUnavailable(e) =>
        Retrieved(Screen(Failed, FailureMessage(e), false, before.record), [Processing, Failed], [], 0)
      case TransferRejected(e) =>
        Retrieved(Screen(Failed, FailureMessage(e), false, before.record), [Processing, Failed], pay, 0)
      case Confirmed =>
        match Generator.Await(lookup)
        case Err(e) =>
          Retrieved(Screen(Failed, FailureMessage(e), false, before.record), [Processing, Completed, Failed], pay, 1)
        case Ok(resp) =>
          match resp.data
          case None =>
            Retrieved(Screen(Failed, NothingFound, false, before.record), [Processing, Completed, Failed], pay, 1)
          case Some(j) =>
            Retrieved(Screen(Completed, "", false, Some(j)), [Processing, Completed], pay, 1)
  }

  /** The status moves only along pending/failed/completed → processing →
      completed | failed, and completed → failed: a confirmed payment whose
      lookup fails ends as failed although the fee was paid. */
  predicate StatusStep(from: Status, to: Status)
  {
    || to == Processing
    || (from == Processing && (to == Completed || to == Failed))
    || (from == Completed && to == Failed)
  }

  lemma StatusesFollowMachine(before: Screen, wallet: Option<string>, admin: Option<string>, email: string,
                              payment: Payment, lookup: Generator.Exchange)
    ensures var r := PayFeeAndRetrieve(before, wallet, admin, email, payment, lookup);
            |r.statuses| > 0 ==>
              && StatusStep(before.status, r.statuses[0])
              && forall i :: 0 < i < |r.statuses| ==> StatusStep(r.statuses[i - 1], r.statuses[i])
  {
  }

  /** A paid fee with a failing lookup: completed, then failed, with the
      server's message shown. */
  lemma PaidButLookupFailed(before: Screen, w: string, admin: string, email: string)
    requires w != "" && admin != "" && ValidateEmail(email)
    ensures PayFeeAndRetrieve(before, Some(w), Some(admin), email, Confirmed,
                              Generator.ErrorReply(404, "QR code not found"))
            == Retrieved(Screen(Failed, "QR code not found", false, before.record),
                         [Processing, Completed, Failed], [Transfer(admin, FeeUnits)], 1)
  {
  }

  /** `disabled={loading || !validateEmail(formData.email)}`. */
  function SubmitDisabled(loading: bool, email: string): (disabled: bool)
    ensures !disabled <==> !loading && MatchesEmailRegex(email)
  {
    loading || !ValidateEmail(email)
  }

  /** A submit from the enabled button that gets past the wallet checks asks
      for the fee exactly when a signer is obtained: the e-mail check inside
      the flow cannot stop it. */
  lemma EnabledSubmitRequestsFee(before: Screen, wallet: Option<string>, admin: Option<string>, email: string,
                                 payment: Payment, lookup: Generator.Exchange)
    requires !SubmitDisabled(before.loading, email)
    requires Present(wallet) && Present(admin)
    ensures !payment.SignerUnavailable? ==>
              PayFeeAndRetrieve(before, wallet, admin, email, payment, lookup).transfers == [Transfer(admin.value, FeeUnits)]
    ensures payment.SignerUnavailable? ==>
              PayFeeAndRetrieve(before, wallet, admin, email, payment, lookup).transfers == []
  {
  }
}
