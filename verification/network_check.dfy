/** `checkNetwork` of `frontend/src/components/NetworkCheck.tsx`: reads the
    chain id, compares it as a string with `'0x2105'`, and on a mismatch asks
    the wallet to switch (and to add the chain on error 4902), calling exactly
    one of the two callbacks. */
module NetworkCheck {
  import opened Base
  import Text
  import Numerals
  import opened Network

  /** The chain id the component compares with and requests, written out. */
  const BaseChainIdLiteral := "0x2105"

  /** The chain the component asks the wallet to add: as in `switchToBaseMainnet`,
      except that the native currency is named `ETH` rather than `Ethereum`. */
  const ComponentBaseParams := ChainParams(BaseChainIdLiteral, "Base Mainnet", "ETH", "ETH", 18,
                                           ["https://mainnet.base.org"], ["https://basescan.org"])

  /** Which callback the check calls. */
  datatype Callback = OnValid | OnInvalid

  /** What one check does: the callbacks called in order, the wallet requests
      sent, and `isCheckingNetwork` at the end. */
  datatype Checked = Checked(callbacks: seq<Callback>, requests: seq<WalletRequest>, checking: bool)

  /** `checkNetwork`, given whether a provider exists and the wallet's answers
      to the chain id read and the switch and add requests. */
  function CheckNetwork(hasProvider: bool, answer: ChainIdAnswer, switchReply: WalletReply, addReply: WalletReply): (c: Checked)
    ensures |c.callbacks| == 1 && !c.checking
    ensures !hasProvider ==> c == Checked([OnInvalid], [], false)
    ensures hasProvider ==> |c.requests| >= 1 && c.requests[0] == ReadChainId
    ensures hasProvider && answer == ChainId(BaseChainIdLiteral) ==> c == Checked([OnValid], [ReadChainId], false)
    ensures c.callbacks == [OnValid] <==>
              hasProvider && answer.ChainId?
              && (answer.value == BaseChainIdLiteral || switchReply.Done? || (IsUnrecognizedChain(switchReply) && addReply.Done?))
    ensures |c.requests| > 1 ==> answer.ChainId? && answer.value != BaseChainIdLiteral
  {
    if !hasProvider then Checked([OnInvalid], [], false)
    else match answer
      case ReadFailed(_) => Checked([OnInvalid], [ReadChainId], false)
      case ChainId(id) =>
        if id != BaseChainIdLiteral then
          var switch := [ReadChainId, SwitchChain(BaseChainIdLiteral)];
          match switchReply
          case Done => Checked([OnValid], switch, false)
          case Refused(code) =>
            if code == Some(UnrecognizedChain) then
              var add := switch + [AddChain(ComponentBaseParams)];
              match addReply
              case Done => Checked([OnValid], add, false)
              case Refused(_) => Checked([OnInvalid], add, false)
            else Checked([OnInvalid], switch, false)
        else Checked([OnValid], [ReadChainId], false)
  }

  /** On a wrong chain the component takes the same decisions as
      `switchToBaseMainnet`: after the read it sends the same switch request,
      asks to add the chain in the same cases, and calls the valid callback
      exactly when that helper raises nothing. The add request itself differs
      from the helper's in the name of the native currency only. */
  lemma WrongChainMatchesSwitchHelper(id: string, switchReply: WalletReply, addReply: WalletReply)
    requires id != BaseChainIdLiteral
    ensures var c := CheckNetwork(true, ChainId(id), switchReply, addReply);
            var a := SwitchToBaseMainnet(true, switchReply, addReply);
            && |c.requests| == 1 + |a.requests|
            && c.requests[1] == a.requests[0]
            && (|a.requests| == 2 ==>
                  && c.requests[2] == AddChain(a.requests[1].params.(currencyName := "ETH"))
                  && c.requests[2] != a.requests[1])
            && (c.callbacks == [OnValid] <==> a.error.None?)
  {
    BaseChainIdHexValue();
    assert "ETH" != "Ethereum" by {
      assert |"ETH"| != |"Ethereum"|;
    }
  }

  /** The chain id with `k` leading zeros. */
  function ZeroPaddedBaseId(k: nat): (id: string)
    ensures |id| == 2 + k + |Numerals.ToHex(BaseChainId)|
  {
    "0x" + (Text.Repeat('0', k) + Numerals.ToHex(BaseChainId))
  }

  /** `isBaseMainnet` reads a zero-padded id as Base. */
  lemma PaddedIdIsBase(k: nat)
    ensures IsBaseMainnet(true, ChainId(ZeroPaddedBaseId(k)))
  {
    ParseInt16LeadingZeros(k, BaseChainId);
  }

  /** A padded id is longer than the literal, so the two strings differ. */
  lemma PaddedIdDiffers(k: nat)
    requires k > 0
    ensures ZeroPaddedBaseId(k) != BaseChainIdLiteral
  {
    BaseChainIdHexValue();
    assert |Numerals.ToHex(BaseChainId)| == 4 by {
      assert |"0x" + Numerals.ToHex(BaseChainId)| == |BaseChainIdHex|;
    }
  }

  /** Any id other than the literal makes the component request a switch. */
  lemma MismatchRequestsSwitch(id: string, switchReply: WalletReply, addReply: WalletReply)
    requires id != BaseChainIdLiteral
    ensures var c := CheckNetwork(true, ChainId(id), switchReply, addReply);
            |c.requests| >= 2 && c.requests[1] == SwitchChain(BaseChainIdLiteral)
  {
  }

  /** The component's string comparison and `isBaseMainnet`'s numeric one
      disagree: a chain id written with leading zeros is Base for
      `isBaseMainnet`, yet the component asks the wallet to switch. */
  lemma StringCompareDisagrees(k: nat, switchReply: WalletReply, addReply: WalletReply)
    requires k > 0
    ensures IsBaseMainnet(true, ChainId(ZeroPaddedBaseId(k)))
    ensures var c := CheckNetwork(true, ChainId(ZeroPaddedBaseId(k)), switchReply, addReply);
            |c.requests| >= 2 && c.requests[1] == SwitchChain(BaseChainIdLiteral)
  {
    PaddedIdIsBase(k);
    PaddedIdDiffers(k);
    MismatchRequestsSwitch(ZeroPaddedBaseId(k), switchReply, addReply);
  }
}
