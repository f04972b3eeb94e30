# BasePay in Dafny

BasePay lets a merchant turn a wallet address and a website into a payment QR
code. Its backend keeps one record per website in the `qr_codes` table. The
React client creates and looks up those records, pays a retrieval fee in USDC
on Base, and keeps the wallet on the Base network. This project models the
decision logic of both sides as pure functions over immutable data, and proves
what that logic promises.

Modules follow the program's files:

- `Gateway` (`gateway.dfy`): `createQRCode` and `getQRCode` of
  `backend/src/index.ts`.
  - The table is a `seq<Record>`.
  - A single-row query finds a row exactly when one row matches.
  - An equality filter on a field the request left out has the text
    `undefined`, so it never matches a row stored without that field.
  - A scripted `StoreBehaviour` makes a query or the insert fail.
  - It proves that creates served one after another never store two rows with
    the same `website_url`, and that a created row is found again through the
    percent-encoded route.
- `HardenedGateway` (`hardened_gateway.dfy`): the later build in
  `backend/dist/index.js`. It adds the CORS origin callback, the start-up
  credential guard, the health route, and error text masked when `NODE_ENV` is
  `production`.
- `UriComponent` (`uri_component.dfy`): `encodeURIComponent` and
  `decodeURIComponent`, with UTF-8. Decoding undoes encoding for every string.
- `Generator` (`generator.dfy`): `generateQRCode` of `QRCodeGenerator.tsx`.
  That is the local checks, `extractWebsiteName`, `checkExistingQRCode`, the
  payload, the bounded retry of the POST (a loop method and a recursive
  reference), and the precedence of error messages.
- `Retrieval` (`retrieval.dfy`): `validateEmail`, proved equivalent to its
  regular expression, and the status machine of `payFeeAndRetrieveQR` in
  `QRCodeRetrieval.tsx`.
- `Abi` (`abi.dfy`): `USDC_ABI.encodeFunctionData` of `abi.ts`. Call data for
  the ERC-20 `transfer` and `balanceOf` calls is laid out as the Ethereum
  Contract ABI Specification prescribes: a 4-byte selector, then 32-byte
  words. It comes with a decoder and the round trip.
- `Network`, `NetworkCheck`, `WalletConnect` (`network.dfy`,
  `network_check.dfy`, `wallet_connect.dfy`):
  - the chain-id helpers of `network.ts`, including `parseInt(…, 16)`;
  - the callback decision of `NetworkCheck.tsx`;
  - the view selection, dropdown, login and switch handlers of
    `WalletConnect.tsx`.
- `EnvCheck` (`env_check.dfy`): the report of `backend/src/test-env.ts`.
- `Base`, `Text` and `Numerals` hold the JavaScript notions these rely on:
  - truthiness, `o || d`, and `\s`;
  - `indexOf`, `replace`, `split(c)[0]`, `padStart` and `slice`;
  - `toString(16)`, `toString()`, and reading hexadecimal digits.

Foreign calls are replaced by their outcomes, passed in as parameters:

- the Supabase client;
- Privy's `login`, `logout` and session;
- `window.ethereum` requests;
- ethers' transfer and `tx.wait()`;
- axios exchanges;
- the `URL` constructor (reduced to the host name it yields, or `None` when it
  throws);
- `Number(...)` on the amount (reduced to a boolean).

## Model

| member | source | states |
|---|---|---|
| Gateway.Single | backend/src/index.ts:71-76 | A `.single()` query answers the scripted failure if there is one. Otherwise it finds a row exactly when one row matches the filter, and that row is the match. Zero matches or several give "no rows" |
| Gateway.CreateSteps | backend/src/index.ts:57-132 | The create steps short-circuit in the source's order, with one outcome stated per branch. A falsy `website_name` gives 400 "Website name is required". `qr_data !== wallet_address` then gives 400. A search error gives 500 "Database search error" when reported and is raised when thrown. A wallet-and-URL match gives 409 "combination". A URL-check error gives 500 "Database check error" or is raised. A URL-only match gives 409 "already has a QR code". An insert error gives 500 "Failed to create QR code entry" or is raised, and an empty insert answer gives 500 "Failed to retrieve created QR code". A valid, fault-free request whose URL no row holds, with a successful insert, gets 201 with the row built from the request, appended to the table. A 201 happens in no other case |
| Gateway.Create | backend/src/index.ts:56-137 | The status is always 201, 400, 409 or 500. It is 201 exactly when the request is valid, neither check fails or finds a row, and the insert succeeds. In particular a valid, fault-free request whose URL no row holds gets 201 when the insert succeeds. Any status but 201 leaves the table unchanged. A 201 appends exactly the returned row, built from the request, whose `qr_data` equals its `wallet_address` and whose amount is the request's `amount`, or `'0'` when that is falsy. Every 500 carries one of the five fixed texts, and an exception gives "Failed to create QR code" |
| Gateway.LookupSteps | backend/src/index.ts:144-157 | A 200 returns a stored row matching wallet and URL. When no row matches and the store does not fail, the answer is 404 "QR code not found". A 404 only happens without a store failure. A store failure is raised |
| Gateway.GetSteps | backend/src/index.ts:141-157 | A `website_url` parameter that does not decode raises `URIError`. Otherwise the decoded URL is looked up |
| Gateway.Get | backend/src/index.ts:139-164 | The status is 200, 404 or 500. A 200 carries a stored row with the requested wallet and the decoded URL. A 404 happens exactly when the parameter decodes, the store does not fail, and the store does not find exactly one matching row. A 500 always says "Failed to fetch QR code" |
| Gateway.UrlSelectAtMostOne | backend/src/index.ts:90-105 | When no present URL is stored twice, the URL filter selects at most one row, and exactly one precisely when some row has that URL |
| Gateway.CombinationSelectNarrower | backend/src/index.ts:71-105 | The wallet-and-URL filter never selects more rows than the URL filter alone, so the first duplicate check is subsumed by the second |
| Gateway.CreatePreservesInvariants | backend/src/index.ts:71-132 | A create keeps the table's two invariants: no present `website_url` appears twice, and every row's `qr_data` equals its `wallet_address` |
| Gateway.RunPreservesInvariants | backend/src/index.ts:56-137 | Any sequence of creates served one at a time keeps both invariants |
| Gateway.ConflictIffUrlTaken | backend/src/index.ts:83-105 | Take a valid request with no store failures, on a table with unique URLs. It gets 409 exactly when a row holds the URL its filter names. The message names the combination exactly when that row also has the same wallet |
| Gateway.AbsentUrlsNeverConflict | backend/src/index.ts:83-111 | Two valid creates without a `website_url`, from any wallets, are both answered 201 when the store does not fail, and both rows are stored without a URL: the filter text `undefined` never matches them |
| Gateway.GetAfterCreate | backend/src/index.ts:142-149 | After a successful create of wallet W and URL U, the handler called with W and the encoding of U answers 200 with the created row |
| Gateway.FetchAsWritten | backend/src/index.ts:142 | The route as written: the router decodes the segment, then the handler decodes it again. A segment the router cannot decode never reaches the handler |
| Gateway.DoubleDecodeLoses | backend/src/index.ts:142-156 | Take a stored URL that itself decodes to something else. Requested through its encoding, the route as written answers 404, while decoding once finds the row |
| Gateway.DoubleDecodeCounterexample | backend/src/index.ts:142-156 | For a row stored under `x%20y`, the encoded request `x%2520y` gets 404 as written and 200 with one decoding |
| Gateway.Fetch | backend/src/index.ts:139-168 | The route with one decoding. A 200 carries a stored row whose URL is the decoded segment and whose wallet is the requested one |
| Gateway.FetchAfterCreate | backend/src/index.ts:142-149 | With one decoding, after a successful create of W and U, requesting W and the encoding of U answers 200 with the created row, whatever characters U holds |
| HardenedGateway.SomeEntryIn | backend/dist/index.js:91 | `allowedOrigins.some(allowed => origin.includes(allowed))` holds exactly when some entry occurs in the origin |
| HardenedGateway.CorsAllows | backend/dist/index.js:83-98 | A request whose origin is falsy, missing or empty, is allowed. Otherwise an origin is allowed exactly when some listed origin occurs inside it as a substring |
| HardenedGateway.CorsAllowsEmptyOrigin | backend/dist/index.js:91 | An empty `Origin` header is allowed, like a missing one |
| HardenedGateway.CorsAllowsListed | backend/dist/index.js:83-91 | Every listed origin is allowed |
| HardenedGateway.CorsAllowsLookAlike | backend/dist/index.js:91 | `https://basepayqr.vercel.app.example.net` is allowed: the check is containment, not equality |
| HardenedGateway.CorsRefusesShortOrigin | backend/dist/index.js:83-96 | A non-empty origin shorter than every listed one is refused |
| HardenedGateway.Startup | backend/dist/index.js:104-110 | Start-up goes on exactly when both `SUPABASE_URL` and `SUPABASE_KEY` are non-empty, with those credentials. Otherwise it stops with "Supabase credentials not configured" |
| HardenedGateway.Disclosed | backend/dist/index.js:188-190 | The catch clause writes the generic text in production and the exception's own message otherwise |
| HardenedGateway.Create | backend/dist/index.js:112-193 | The responses are those of the shared create steps. A raised exception gives 500 with the masked or disclosed message and leaves the table. In production it equals the first build's handler |
| HardenedGateway.Get | backend/dist/index.js:194-224 | The responses are those of the shared lookup steps. A raised error gives 500 with the masked or disclosed message. In production it equals the first build's handler |
| HardenedGateway.GlobalError | backend/dist/index.js:235-242 | The global handler always answers 500, with "Internal server error" in production and the error's message otherwise |
| HardenedGateway.Health | backend/dist/index.js:226-228 | The health route always answers 200 with status `healthy` and the given timestamp |
| HardenedGateway.ProductionHidesDetails | backend/dist/index.js:185-242 | In production every 500 body is one of the handlers' fixed messages, never a store or exception message |
| HardenedGateway.DevelopmentDisclosesDetails | backend/dist/index.js:196-197 | Outside production, a malformed parameter `%` gives 500 with the `URIError` message "URI malformed" |
| UriComponent.Utf8RoundTrip | backend/src/index.ts:142 | Decoding the UTF-8 bytes of any code point gives it back |
| UriComponent.DecodeEncodeChar | frontend/src/components/QRCodeGenerator.tsx:57 | Decoding the encoding of one character followed by any text yields the character in front of the decoding of that text |
| UriComponent.DecodeEncode | backend/src/index.ts:142 | `decodeURIComponent(encodeURIComponent(s)) == s` for every string |
| UriComponent.EncodeConcat | frontend/src/components/QRCodeGenerator.tsx:57 | Encoding distributes over concatenation |
| UriComponent.EncodeUnreserved | frontend/src/components/QRCodeGenerator.tsx:57 | A string of unreserved characters is encoded unchanged |
| UriComponent.SpaceExample | frontend/src/components/QRCodeGenerator.tsx:57 | `x y` encodes to `x%20y`, and `x%20y` decodes to `x y` |
| Generator.Capitalize | frontend/src/components/QRCodeGenerator.tsx:48 | `charAt(0).toUpperCase() + slice(1)` keeps the length, upper-cases the first character and keeps the rest |
| Generator.ExtractWebsiteName | frontend/src/components/QRCodeGenerator.tsx:44-52 | `extractWebsiteName` as written. An unparseable URL gives "Unknown". Otherwise the result is the capitalised first label of the host name after its first `www.` is removed, wherever that `www.` is. The result never holds a dot |
| Generator.WebsiteName | frontend/src/components/QRCodeGenerator.tsx:44-52 | The intended name: the capitalised first label of the host name without a leading `www.`, "Unknown" for an unparseable URL, and never a dot |
| Generator.InnerWwwDropped | frontend/src/components/QRCodeGenerator.tsx:47 | When the first label is `p` followed by `www` (with no `w` or dot in `p`), the name as written joins `p` to the second label, while the intended name keeps the label whole |
| Generator.InnerWwwCounterexample | frontend/src/components/QRCodeGenerator.tsx:47 | For `mywww.example.com` the name as written is `Myexample`, while the intended one is `Mywww` |
| Generator.LeadingWwwAgrees | frontend/src/components/QRCodeGenerator.tsx:47 | When the host name starts with `www.` and holds no other `www.`, the name as written is the intended one |
| Generator.EmptyNameIff | frontend/src/components/QRCodeGenerator.tsx:47-48 | The name `extractWebsiteName` computes is empty exactly when the host name, less its first `www.`, is empty or starts with a dot |
| Generator.EmptyNamesAgree | frontend/src/components/QRCodeGenerator.tsx:47-48 | The name as written is empty exactly when the intended name is |
| Generator.LocalCheck | frontend/src/components/QRCodeGenerator.tsx:82-107 | No message exactly when every local check passes. Each message is one of the six fixed texts. Each is given exactly when the checks before it pass and its own check fails, in the order wallet, API URL, URL present, URL parses, memo, amount |
| Generator.Await | frontend/src/components/QRCodeGenerator.tsx:56-58 | axios yields the response exactly for an answered 2xx request. Otherwise it throws "Request failed with status code N" carrying the response, or the network error |
| Generator.CheckExisting | frontend/src/components/QRCodeGenerator.tsx:54-66 | The lookup yields the record for a 2xx answer with a body and nothing for a 404. Every other failure is rethrown, and never as a 404 |
| Generator.Payload | frontend/src/components/QRCodeGenerator.tsx:128-136 | The payload has `qr_data` and `wallet_address` both equal to the wallet, the typed URL and memo, the display name `extractWebsiteName` computes, and a truthy amount equal to the typed amount or `'0'` |
| Generator.PayloadMeetsServerChecks | frontend/src/components/QRCodeGenerator.tsx:128-136 | The server answers the payload with 400 exactly when the name `extractWebsiteName` computes is empty. A stored row has the typed amount or `'0'`, and the wallet as `qr_data` |
| Generator.PostAttempt | frontend/src/components/QRCodeGenerator.tsx:153-182 | One attempt delivers exactly when a 2xx answer carries a body with truthy `qr_data`. A 2xx answer without a body fails with "Empty response from server", and one without `qr_data` fails with "Missing QR data in response". Anything else fails with axios's error |
| Generator.RetryableIff | frontend/src/components/QRCodeGenerator.tsx:211-220 | Only an answer with status 500 leads to another attempt |
| Generator.RetryFrom | frontend/src/components/QRCodeGenerator.tsx:148-222 | The loop sends at most three POSTs, with one delay between each two of them |
| Generator.RetryTraceUnique | frontend/src/components/QRCodeGenerator.tsx:148-222 | A script of replies admits only one run of the loop |
| Generator.RetryFromIsTrace | frontend/src/components/QRCodeGenerator.tsx:148-222 | The recursive reference is a run of the loop. Every attempt but the last was answered 500, the delay before retry k is 1000·k ms, and the last attempt succeeded, failed otherwise than with 500, or used up the three attempts |
| Generator.PostWithRetry | frontend/src/components/QRCodeGenerator.tsx:148-224 | The `while (retryCount <= maxRetries)` loop produces exactly the run the reference describes |
| Generator.ErrorMessage | frontend/src/components/QRCodeGenerator.tsx:239-249 | The message is chosen in this order: the insert-failure text gives "Unable to save…", then a 500 gives "Server error…", then the server's `error` text, then `err.message`, then the default. It is never empty |
| Generator.Generate | frontend/src/components/QRCodeGenerator.tsx:75-255 | The submit as a whole. `loading` ends false, and success holds exactly when no error is shown. A local failure shows its message and sends nothing. Otherwise exactly one lookup is sent. A failed lookup shows the message chosen for its error. A found record is shown without any POST. After a 404 lookup the POSTs and delays are those of the retry reference: every POST but the last got 500, and the k-th delay is 1000·k ms. The delivered `qr_data` is shown, or the message chosen for the last error |
| Generator.RecoversAfterTwoServerErrors | frontend/src/components/QRCodeGenerator.tsx:211-217 | Two 500s and then a created record give three POSTs, waits of 1000 and 2000 ms, and the record's QR data |
| Generator.ConflictNotRetried | frontend/src/components/QRCodeGenerator.tsx:211-220 | A 409 is not retried: one POST, and the server's message is shown |
| Generator.InsertFailureExhaustsRetries | frontend/src/components/QRCodeGenerator.tsx:201-242 | A store that keeps failing the insert uses all three POSTs and shows the insert-failure text, not the generic 500 one |
| Retrieval.FirstIndex | frontend/src/components/QRCodeRetrieval.tsx:31 | The first position of a character, or its absence |
| Retrieval.ValidateEmail | frontend/src/components/QRCodeRetrieval.tsx:30-33 | The split check holds exactly when `/^[^\s@]+@[^\s@]+\.[^\s@]+$/` matches |
| Retrieval.EmailRegexIff | frontend/src/components/QRCodeRetrieval.tsx:31 | At the first `@`, the regular expression matches exactly when the local part is a non-empty plain run and the domain part is a plain run with an inner dot |
| Retrieval.AcceptedEmailShape | frontend/src/components/QRCodeRetrieval.tsx:30-33 | An accepted address has no white space and exactly one `@`, which is neither first nor last |
| Retrieval.EmailExamples | frontend/src/components/QRCodeRetrieval.tsx:31 | `a@b.c` is accepted; `a@b.` and `a b@c.d` are refused |
| Retrieval.FailureMessage | frontend/src/components/QRCodeRetrieval.tsx:93 | The message is the server's truthy `error`, else a non-empty `err.message`, else the default. It is never empty |
| Retrieval.PayFeeAndRetrieve | frontend/src/components/QRCodeRetrieval.tsx:40-97 | With no wallet or no admin wallet, only the error text changes. Otherwise `processing` is set first, `loading` ends false, and the status ends completed (with no error) or failed. An invalid e-mail fails with no transfer. A provider or signer that cannot be obtained fails with its message and no transfer. The fee transfer of 1,000,000 units to the admin wallet is requested exactly when the e-mail is valid and a signer is obtained. `completed` is reached exactly when the payment is confirmed, and the lookup follows it |
| Retrieval.StatusesFollowMachine | frontend/src/components/QRCodeRetrieval.tsx:54-92 | The status moves only from any status to processing, from processing to completed or failed, and from completed to failed |
| Retrieval.PaidButLookupFailed | frontend/src/components/QRCodeRetrieval.tsx:70-93 | A confirmed fee with a 404 lookup passes through completed, ends failed, and shows the server's message |
| Retrieval.SubmitDisabled | frontend/src/components/QRCodeRetrieval.tsx:155 | The button is enabled exactly when not loading and the e-mail matches the regular expression |
| Retrieval.EnabledSubmitRequestsFee | frontend/src/components/QRCodeRetrieval.tsx:57-71 | A submit from the enabled button that passes the wallet checks requests the fee transfer exactly when a signer is obtained; the e-mail check inside the flow cannot stop it |
| Abi.AddressDigits | frontend/src/constants/abi.ts:9 | `address.slice(2)` is the address less its first two characters |
| Abi.EncodeFunctionData | frontend/src/constants/abi.ts:6-15 | Any name other than `transfer` or `balanceOf` gives an error naming the function. `transfer` starts with `0xa9059cbb` and holds at least two words. `balanceOf` is `0x70a08231`, 24 zeros and the address digits |
| Abi.DecodeTransfer | frontend/src/constants/abi.ts:9 | Whatever decodes is 138 characters, starts with the selector, and holds an address and an amount below 16^64 |
| Abi.PaddedWord | frontend/src/constants/abi.ts:9 | Left-padding the hex of a number below 16^n to n digits adds zeros only, and the word reads back as the number |
| Abi.AmountWord | frontend/src/constants/abi.ts:9 | The amount word is 64 hex digits that read back as the amount |
| Abi.AddressWord | frontend/src/constants/abi.ts:9 | The address word is 24 zeros followed by the 40 address digits |
| Abi.TransferRoundTrip | frontend/src/constants/abi.ts:9 | For an address and an amount below 16^64, the `transfer` data is 138 characters and decodes back to that address and amount |
| Abi.TransferAmountWord | frontend/src/constants/abi.ts:9 | For any address, the last 64 digits of the `transfer` data read back as the amount |
| Abi.LongAddressNotTruncated | frontend/src/constants/abi.ts:9 | Padding never truncates: an address of more than 64 digits is written whole, and the data grows longer than 138 |
| Abi.NegativeAmountUndecodable | frontend/src/constants/abi.ts:9 | A negative amount is written with a minus sign, and the data no longer decodes |
| Abi.BalanceOfLayout | frontend/src/constants/abi.ts:10-11 | For an address, the `balanceOf` data is 74 characters: the selector, 24 zeros, and the address digits |
| Numerals.ToHex | frontend/src/constants/abi.ts:9 | `toString(16)` of a natural number gives lower-case digits with no leading zero |
| Numerals.ParseHexOfToHex | frontend/src/utils/network.ts:49 | Reading back the hex digits that `toString(16)` writes gives the number |
| Numerals.ParseHexLeadingZeros | frontend/src/constants/abi.ts:9 | Leading zeros do not change the value of hex digits |
| Text.ReplaceFirst | frontend/src/components/QRCodeGenerator.tsx:47 | `replace` with a string pattern replaces only the first occurrence, and returns the text unchanged without one |
| Text.Before | frontend/src/components/QRCodeGenerator.tsx:47 | `split('.')[0]` is the longest prefix without a dot, ended by a dot or by the end of the text |
| Text.PadStart | frontend/src/constants/abi.ts:9 | `padStart` reaches the larger of the two lengths, keeps the text as its suffix, and only prepends the pad character |
| Network.BaseChainIdHexValue | frontend/src/utils/network.ts:1-12 | `` `0x${BASE_CHAIN_ID.toString(16)}` `` is `0x2105` |
| Network.SwitchToBaseMainnet | frontend/src/utils/network.ts:3-41 | With no provider it raises "No ethereum provider found" and sends nothing. Otherwise it first requests the switch to `0x2105`. It asks to add the Base Mainnet chain, with its currency, RPC and explorer, exactly when the switch is refused with 4902. It succeeds exactly when the switch or that add succeeds. "Failed to add…" and "Failed to switch…" are each raised exactly in their case |
| Network.TrimStart | frontend/src/utils/network.ts:49 | The leading white space that `parseInt` skips |
| Network.HexRun | frontend/src/utils/network.ts:49 | The longest prefix of hex digits, which is all that `parseInt` reads |
| Network.ParseInt16OfHex | frontend/src/utils/network.ts:48-49 | `parseInt('0x' + n.toString(16), 16) == n`, whatever non-digit text follows |
| Network.ParseInt16LeadingZeros | frontend/src/utils/network.ts:49 | A zero-padded id reads as the same number |
| Network.GetCurrentChainId | frontend/src/utils/network.ts:43-50 | With no provider it raises "No ethereum provider found". A failing request raises its error. Otherwise the result is the parsed id |
| Network.IsBaseMainnet | frontend/src/utils/network.ts:52-59 | Never raises. It is true exactly when a provider exists and the chain id reads as 8453 |
| Network.BaseRecognised | frontend/src/utils/network.ts:12-55 | A wallet answering with the id as the client writes it is recognised as Base |
| NetworkCheck.CheckNetwork | frontend/src/components/NetworkCheck.tsx:12-71 | With callbacks that never throw: exactly one callback, and `isCheckingNetwork` ends false. With no provider: invalid, with no request. An id equal to `0x2105` gives valid, with the read only. Valid holds exactly when the id equals the literal, the switch succeeds, or a 4902 refusal is followed by a successful add. A switch is requested only for another id |
| NetworkCheck.WrongChainMatchesSwitchHelper | frontend/src/components/NetworkCheck.tsx:24-61 | On a wrong chain the component sends the same switch request as `switchToBaseMainnet`, asks to add the chain in the same cases, and calls valid exactly when that helper raises nothing. Its add request names the native currency `ETH` where the helper's names it `Ethereum`, and is otherwise the same |
| NetworkCheck.StringCompareDisagrees | frontend/src/components/NetworkCheck.tsx:24-30 | The component compares strings while `isBaseMainnet` compares numbers. A zero-padded Base id is Base for `isBaseMainnet`, yet the component requests a switch |
| WalletConnect.FormatAddress | frontend/src/components/WalletConnect.tsx:49-51 | The result is the first six characters, `...`, and the last four (fewer for a short address) |
| WalletConnect.FormatWalletAddress | frontend/src/components/WalletConnect.tsx:49-51 | A 42-character address is shown in 13 characters, keeping `0x`, its first four digits and its last four |
| WalletConnect.Render | frontend/src/components/WalletConnect.tsx:53-117 | The views have a precedence. The connect view shows exactly when the session lacks authentication or an address. Otherwise "Checking network…" shows while checking, then the switch button on a wrong network, then the address with the dropdown state |
| WalletConnect.CheckNetwork | frontend/src/components/WalletConnect.tsx:12-19 | The check runs only for an authenticated session with an address. It sets checking, then stores `isBaseMainnet`'s answer and clears checking |
| WalletConnect.AfterCheck | frontend/src/components/WalletConnect.tsx:12-19 | The check never touches the dropdown, and without a connected wallet it changes nothing |
| WalletConnect.CheckDecidesView | frontend/src/components/WalletConnect.tsx:12-117 | While checking, the wallet sees "Checking network…". Afterwards it sees the address exactly when on Base, and the switch button exactly when not |
| WalletConnect.BaseWalletSeesAddress | frontend/src/components/WalletConnect.tsx:12-124 | A wallet answering `0x2105` ends on the address view |
| WalletConnect.DisconnectedNeverChecks | frontend/src/components/WalletConnect.tsx:13-53 | Without a connected wallet, the state stays and the connect view shows |
| WalletConnect.FirstRenderShowsSwitch | frontend/src/components/WalletConnect.tsx:7-9 | Before the first check, a connected wallet sees the switch button, since the flags start false |
| WalletConnect.Toggle | frontend/src/components/WalletConnect.tsx:120 | A click flips the dropdown and nothing else |
| WalletConnect.ToggleTwice | frontend/src/components/WalletConnect.tsx:120 | Two clicks restore the state |
| WalletConnect.ToggleShowsDropdown | frontend/src/components/WalletConnect.tsx:117-147 | On the address view a click opens or closes the dropdown shown |
| WalletConnect.Disconnect | frontend/src/components/WalletConnect.tsx:138-141 | Logging out ends the session and closes the dropdown, leaving the network flags |
| WalletConnect.DisconnectShowsConnect | frontend/src/components/WalletConnect.tsx:138-141 | After a disconnect, the connect view shows and no check runs |
| WalletConnect.HandleLogin | frontend/src/components/WalletConnect.tsx:40-47 | The attempt is always logged first. A refusal adds "Login failed:" with the error and keeps the session; it is never raised |
| WalletConnect.RefusedLoginStaysOnConnect | frontend/src/components/WalletConnect.tsx:40-53 | A refused login leaves the user on the connect view |
| WalletConnect.HandleNetworkSwitch | frontend/src/components/WalletConnect.tsx:32-38 | It sends the helper's requests and logs at most one line, exactly when the helper fails. It never raises |
| WalletConnect.SwitchLogsHelperError | frontend/src/components/WalletConnect.tsx:32-38 | The logged error is the one `switchToBaseMainnet` raises |
| EnvCheck.StatusLines | backend/src/test-env.ts:18-31 | One status line per variable, in order |
| EnvCheck.Report | backend/src/test-env.ts:13-40 | The report has the header, one line per required variable in the order PORT, NODE_ENV, SUPABASE_URL, SUPABASE_KEY, FRONTEND_URL, then the summary header. The summary is the failure text exactly when some variable is missing |
| EnvCheck.Scan | backend/src/test-env.ts:16-31 | The `forEach` writes the status lines in order, and `missingVars` ends true exactly when some variable is undefined or empty |
| EnvCheck.RunCheck | backend/src/test-env.ts:13-40 | The script's output is the report, and its flag says whether a variable is missing |
| EnvCheck.SummariesDiffer | backend/src/test-env.ts:36-40 | The two summary lines differ |
| EnvCheck.MissingLineIff | backend/src/test-env.ts:20-22 | A variable's line reports it missing exactly when it is undefined or empty |
| EnvCheck.SecretHidden | backend/src/test-env.ts:24-26 | The report does not depend on the value of a set `SUPABASE_KEY` |
| EnvCheck.OthersShown | backend/src/test-env.ts:27-28 | The line of every other set variable ends with its value |

## Left out

- Express, cors, helmet and `express.json` wiring, `app.listen`, dotenv loading, and winston or console logging. These are framework plumbing and I/O. Only the decisions they carry are modelled.
- The rate limiter of `backend/dist/index.js` (lines 77-81). It depends on library counters and a time window.
- The Supabase client. It is replaced by a table and scripted failures.
  - A `.single()` query is "found" exactly when one row matches.
  - With several matches PostgREST answers `PGRST116` as it does for none, and the code treats both as "no rows". The model does the same.
- Concurrent creates. The check-then-insert race is not modelled. The uniqueness invariant is stated for requests served one at a time.
- Privy, ethers, `window.ethereum` and `tx.wait()`. These are foreign calls, replaced by their outcomes.
- `Number(...)`/`isNaN` on the amount, and `parseUnits`. These are floating point and library code. The amount check is a boolean, and the fee is the constant 1,000,000.
- The `URL` constructor. It is replaced by the host name it yields or its failure.
- Generator.AsciiUpper: `toUpperCase` is modelled for ASCII letters only. Other characters are left unchanged, which differs from JavaScript for non-ASCII letters.
- `setTimeout`. Only the delay values are kept, as data.
- The `chainChanged` listeners of `NetworkCheck.tsx` and `WalletConnect.tsx`. They re-run the same check, and each run is modelled.
- The early return of `QRCodeGenerator.tsx` when `VITE_API_URL` is unset (lines 18-32). This is a rendering branch. The check inside `generateQRCode` is modelled.
- JSX rendering, QR SVG generation, `downloadQR` and styling. The views are reduced to their kind and text.
- `frontend/src/App.tsx` is not part of this model. It holds only provider configuration and layout.
- `backend/dist/test-env.js` is not part of this model. It is a compiled copy of `backend/src/test-env.ts`.
- The e-mail keyed GET of `QRCodeRetrieval.tsx` (line 77). Neither backend build has a route for it, so only the client side is modelled: its answer is a scripted exchange.
- The Keccak-256 derivation of the selectors. They are taken as constants.
- Network.ParseInt16: `parseInt` returns a double, which loses precision above 2^53. The model reads digits as an unbounded integer. Chain ids are far below that.
- Retrieval.StatusesFollowMachine: a described state machine of pending → processing → completed | failed omits one edge that the code has. When the lookup after a confirmed payment fails, the status goes from completed to failed. The model follows the code and includes that edge.
- The `qr_codes` schema. Whether the table accepts a row without `website_url` or `wallet_address` is a schema matter. The insert's outcome is scripted, so such a refusal is an insert error.
- The corrected display name is not sent. The payload carries the name as written, as the program sends it, and `Generator.WebsiteName` is stated beside it.
- NetworkCheck.CheckNetwork: the callbacks are taken as actions that never throw. A throwing `onNetworkValid` inside the `try` would be followed by `onNetworkInvalid` (or, after a 4902 refusal, by an add request and a second `onNetworkValid`), so two callbacks would be made.
- Abi.EncodeFunctionData: the amount is taken as an integer, a BigInt or a Number that is a safe integer. A fractional or larger Number, or a string (whose `toString` ignores the radix), is written differently.
- JavaScript strings are sequences of UTF-16 code units, while the model's strings hold Unicode scalar values. A lone surrogate cannot be written, so the `URIError` that `encodeURIComponent` throws on one is not modelled. Neither is the counting of `length`, `slice` and `padStart` in code units for characters outside the Basic Multilingual Plane.
- Gateway.FetchAsWritten: assumes the router percent-decodes route parameters before the handler runs. Express does this.

## Findings

| source | as written | input that shows it | evidently intended | confidence | as-written member | corrected member |
|---|---|---|---|---|---|---|
| backend/src/index.ts:142 | The handler calls `decodeURIComponent` on a route parameter that the router has already decoded, so the URL is decoded twice | A row stored for `x%20y`, requested as `encodeURIComponent('x%20y')` = `x%2520y`: the handler looks up `x y` and answers 404 | The URL is decoded once, so every created row is found through the encoded route | not executed | Gateway.FetchAsWritten, Gateway.DoubleDecodeLoses, Gateway.DoubleDecodeCounterexample | Gateway.Fetch, Gateway.FetchAfterCreate |
| frontend/src/components/QRCodeGenerator.tsx:47 | `hostname.replace('www.', '')` removes the first `www.` wherever it is, not only a leading one | `https://mywww.example.com` gives the name `Myexample` | Only a leading `www.` is removed, giving `Mywww` | not executed | Generator.ExtractWebsiteName, Generator.InnerWwwDropped, Generator.InnerWwwCounterexample | Generator.WebsiteName, Generator.LeadingWwwAgrees, Generator.EmptyNamesAgree |
