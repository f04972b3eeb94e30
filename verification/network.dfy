/** The chain helpers of `frontend/src/utils/network.ts`: the Base chain id in
    the `0x`-prefixed hexadecimal form wallets use (EIP-695 `eth_chainId`), the
    switch-or-add decision of `switchToBaseMainnet`, and the reading of the
    current chain id with `parseInt(…, 16)`.

    The wallet provider (`window.ethereum`) is replaced by whether it exists
    and by its answers to the requests. */
module Network {
  import opened Base
  import Text
  import opened Numerals

  /** `BASE_CHAIN_ID`. */
  const BaseChainId: nat := 8453

  /** `` `0x${BASE_CHAIN_ID.toString(16)}` ``. */
  const BaseChainIdHex: string := "0x" + ToHex(BaseChainId)

  /** The provider error code for a chain the wallet does not know. */
  const UnrecognizedChain: int := 4902

  const NoProvider := "No ethereum provider found"
  const AddFailed := "Failed to add Base network to wallet"
  const SwitchFailed := "Failed to switch to Base network"

  lemma BaseChainIdHexValue()
    ensures BaseChainIdHex == "0x2105"
  {
    assert ToHex(2) == "2";
    assert ToHex(33) == "21";
    assert ToHex(528) == "210";
  }

  /** The parameters of a `wallet_addEthereumChain` request (EIP-3085). */
  datatype ChainParams = ChainParams(
    chainId: string,
    chainName: string,
    currencyName: string,
    currencySymbol: string,
    decimals: nat,
    rpcUrls: seq<string>,
    blockExplorerUrls: seq<string>)

  /** The chain `switchToBaseMainnet` asks the wallet to add. */
  const BaseMainnetParams := ChainParams(BaseChainIdHex, "Base Mainnet", "Ethereum", "ETH", 18,
                                         ["https://mainnet.base.org"], ["https://basescan.org"])

  /** A request sent to the wallet. */
  datatype WalletRequest = SwitchChain(chainId: string) | AddChain(params: ChainParams) | ReadChainId

  /** The wallet's answer to a switch or add request: done, or an error with
      its `code` (absent when the error has no numeric code). */
  datatype WalletReply = Done | Refused(code: Option<int>)

  /** The requests sent and the error raised, if any. */
  datatype Attempted = Attempted(requests: seq<WalletRequest>, error: Option<string>)

  predicate IsUnrecognizedChain(reply: WalletReply)
  {
    reply == Refused(Some(UnrecognizedChain))
  }

  /** `switchToBaseMainnet`: a switch request; a 4902 refusal leads to an add
      request, and any failure raises one of two fixed messages. */
  function SwitchToBaseMainnet(hasProvider: bool, switchReply: WalletReply, addReply: WalletReply): (r: Attempted)
    ensures !hasProvider ==> r == Attempted([], Some(NoProvider))
    ensures hasProvider ==> 1 <= |r.requests| <= 2 && r.requests[0] == SwitchChain(BaseChainIdHex)
    ensures |r.requests| == 2 <==> hasProvider && IsUnrecognizedChain(switchReply)
    ensures |r.requests| == 2 ==> r.requests[1] == AddChain(BaseMainnetParams)
    ensures r.error.None? <==>
              hasProvider && (switchReply.Done? || (IsUnrecognizedChain(switchReply) && addReply.Done?))
    ensures r.error == Some(AddFailed) <==> hasProvider && IsUnrecognizedChain(switchReply) && addReply.Refused?
    ensures r.error == Some(SwitchFailed) <==> hasProvider && switchReply.Refused? && !IsUnrecognizedChain(switchReply)
  {
    if !hasProvider then Attempted([], Some(NoProvider))
    else match switchReply
      case Done => Attempted([SwitchChain(BaseChainIdHex)], None)
      case Refused(code) =>
        if code == Some(UnrecognizedChain) then
          var sent := [SwitchChain(BaseChainIdHex), AddChain(BaseMainnetParams)];
          match addReply
          case Done => Attempted(sent, None)
          case Refused(_) => Attempted(sent, Some(AddFailed))
        else Attempted([SwitchChain(BaseChainIdHex)], Some(SwitchFailed))
  }

  // ----- parseInt(s, 16) -----

  /** `s` without its leading white space. */
  function TrimStart(s: string): (r: string)
    ensures |r| <= |s| && r == s[|s| - |r|..]
    ensures forall k :: 0 <= k < |s| - |r| ==> IsWhitespace(s[k])
    ensures |r| > 0 ==> !IsWhitespace(r[0])
  {
    if |s| > 0 && IsWhitespace(s[0]) then TrimStart(s[1..]) else s
  }

  /** The longest prefix of `s` made of hexadecimal digits. */
  function HexRun(s: string): (r: string)
    ensures |r| <= |s| && r == s[..|r|]
    ensures AllHex(r)
    ensures |r| < |s| ==> !IsHexDigit(s[|r|])
  {
    if |s| > 0 && IsHexDigit(s[0]) then [s[0]] + HexRun(s[1..]) else ""
  }

  /** `parseInt(s, 16)`, with `None` standing for `NaN`: leading white space
      is skipped, then a sign, then a `0x` or `0X` prefix, and the value is
      that of the longest run of hexadecimal digits that follows. */
  function ParseInt16(s: string): (r: Option<int>)
  {
    var t := TrimStart(s);
    var negative := |t| > 0 && t[0] == '-';
    var u := if |t| > 0 && (t[0] == '-' || t[0] == '+') then t[1..] else t;
    var v := if |u| >= 2 && u[0] == '0' && (u[1] == 'x' || u[1] == 'X') then u[2..] else u;
    var d := HexRun(v);
    if |d| == 0 then None
    else
      var value: int := ParseHex(d);
      Some(if negative then -value else value)
  }

  /** A run of digits followed by a non-digit is read up to the non-digit. */
  lemma HexRunOf(d: string, tail: string)
    requires AllHex(d)
    requires |tail| == 0 || !IsHexDigit(tail[0])
    ensures HexRun(d + tail) == d
  {
    var s := d + tail;
    assert s[..|d|] == d && (|tail| > 0 ==> s[|d|] == tail[0]);
  }

  /** Text starting with `0x` and no white space or sign reads as its digits. */
  lemma ParseInt16Prefixed(v: string)
    ensures ParseInt16("0x" + v) == if |HexRun(v)| == 0 then None else Some(ParseHex(HexRun(v)))
  {
    var s := "0x" + v;
    assert TrimStart(s) == s;
    assert s[2..] == v;
  }

  /** `0x` and a run of digits, followed by a non-digit, reads as the digits' value. */
  lemma ParseInt16OfDigits(d: string, tail: string)
    requires |d| > 0 && AllHex(d)
    requires |tail| == 0 || !IsHexDigit(tail[0])
    ensures ParseInt16("0x" + (d + tail)) == Some(ParseHex(d))
  {
    HexRunOf(d, tail);
    ParseInt16Prefixed(d + tail);
  }

  /** Reading back what the client writes gives the number: parse(format(n)) == n,
      whatever non-digit text follows. */
  lemma ParseInt16OfHex(n: nat, tail: string)
    requires |tail| == 0 || !IsHexDigit(tail[0])
    ensures ParseInt16("0x" + (ToHex(n) + tail)) == Some(n)
  {
    ParseHexOfToHex(n);
    ParseInt16OfDigits(ToHex(n), tail);
  }

  /** Leading zeros do not change what is read. */
  lemma ParseInt16LeadingZeros(k: nat, n: nat)
    ensures ParseInt16("0x" + (Text.Repeat('0', k) + ToHex(n))) == Some(n)
  {
    var z := Text.Repeat('0', k) + ToHex(n);
    ParseHexOfToHex(n);
    ParseHexLeadingZeros(k, ToHex(n));
    ParseInt16OfDigits(z, "");
    assert z + "" == z;
  }

  /** The answer to `eth_chainId`: a string, or the error the request throws. */
  datatype ChainIdAnswer = ChainId(value: string) | ReadFailed(message: string)

  /** `getCurrentChainId`: the parsed chain id (`None` for `NaN`), or the error raised. */
  function GetCurrentChainId(hasProvider: bool, answer: ChainIdAnswer): (r: Result<Option<int>, string>)
    ensures !hasProvider ==> r == Err(NoProvider)
    ensures hasProvider && answer.ReadFailed? ==> r == Err(answer.message)
    ensures hasProvider && answer.ChainId? ==> r == Ok(ParseInt16(answer.value))
  {
    if !hasProvider then Err(NoProvider)
    else match answer
      case ReadFailed(m) => Err(m)
      case ChainId(s) => Ok(ParseInt16(s))
  }

  /** `isBaseMainnet`: never raises; true exactly when the chain id reads as 8453. */
  function IsBaseMainnet(hasProvider: bool, answer: ChainIdAnswer): (onBase: bool)
    ensures onBase <==> hasProvider && answer.ChainId? && ParseInt16(answer.value) == Some(BaseChainId)
  {
    match GetCurrentChainId(hasProvider, answer)
    case Ok(id) => id == Some(BaseChainId)
    case Err(_) => false
  }

  /** A wallet on Base, answering with the id as the client writes it, is recognised. */
  lemma BaseRecognised()
    ensures IsBaseMainnet(true, ChainId(BaseChainIdHex))
  {
    ParseInt16OfHex(BaseChainId, "");
    assert ToHex(BaseChainId) + "" == ToHex(BaseChainId);
  }
}
