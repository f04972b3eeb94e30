/** `USDC_ABI.encodeFunctionData` of `frontend/src/constants/abi.ts`: the call
    data of the two ERC-20 calls (EIP-20) the client needs, written as the
    Contract ABI Specification lays it out — a four-byte function selector,
    then each argument as a 32-byte word in hexadecimal, left-padded with
    zeros. The selectors are taken as given constants. */
module Abi {
  import opened Base
  import Text
  import opened Numerals

  /** The selector of `transfer(address,uint256)`. */
  const TransferSelector := "0xa9059cbb"
  /** The selector of `balanceOf(address)`. */
  const BalanceOfSelector := "0x70a08231"

  /** Hexadecimal digits in one 32-byte word. */
  const WordDigits: nat := 64

  /** `args[0].slice(2)`: the address without its `0x`. */
  function AddressDigits(address: string): (d: string)
    ensures |d| == Max(|address| - 2, 0)
    ensures |address| >= 2 ==> address == address[..2] + d
  {
    Text.Drop(address, 2)
  }

  /** `encodeFunctionData(functionName, [address, amount])`: the `transfer`
      and `balanceOf` layouts, and an error naming any other function. */
  function EncodeFunctionData(functionName: string, address: string, amount: int): (r: Result<string, string>)
    ensures r.Err? <==> functionName != "transfer" && functionName != "balanceOf"
    ensures r.Err? ==> r.error == "Function " + functionName + " not supported"
    ensures functionName == "transfer" ==>
              |r.value| >= 10 + 2 * WordDigits && r.value[..10] == TransferSelector
    ensures functionName == "balanceOf" ==>
              |r.value| == 34 + |AddressDigits(address)| && r.value[..10] == BalanceOfSelector
              && r.value[34..] == AddressDigits(address)
  {
    if functionName == "transfer" then
      Ok(TransferSelector + Text.PadStart(AddressDigits(address), WordDigits, '0')
                          + Text.PadStart(IntToHex(amount), WordDigits, '0'))
    else if functionName == "balanceOf" then
      Ok(BalanceOfSelector + Text.Repeat('0', 24) + AddressDigits(address))
    else Err("Function " + functionName + " not supported")
  }

  /** An address as the wallet gives it: `0x` and forty hexadecimal digits. */
  predicate IsAddress(address: string)
  {
    |address| == 42 && address[..2] == "0x" && AllHex(address[2..])
  }

  /** Every character of `s` is `0`. */
  predicate AllZeros(s: string)
  {
    forall k :: 0 <= k < |s| ==> s[k] == '0'
  }

  /** The arguments of a `transfer` call. */
  datatype TransferArgs = TransferArgs(to: string, amount: nat)

  /** Reads `transfer` call data back: the selector, an address word whose
      first 24 digits are zeros, and an amount word. */
  function DecodeTransfer(data: string): (r: Option<TransferArgs>)
    ensures r.Some? ==> |data| == 10 + 2 * WordDigits && data[..10] == TransferSelector
    ensures r.Some? ==> IsAddress(r.value.to) && r.value.amount < Pow16(WordDigits)
  {
    if |data| == 10 + 2 * WordDigits && data[..10] == TransferSelector && AllHex(data[10..])
       && AllZeros(data[10..34])
    then
      assert forall k :: 0 <= k < 40 ==> data[34..74][k] == data[10..][24 + k];
      assert forall k :: 0 <= k < 64 ==> data[74..][k] == data[10..][64 + k];
      Some(TransferArgs("0x" + data[34..74], ParseHex(data[74..])))
    else None
  }

  /** Left-padding the digits of a number below `16^n` to `n` characters
      adds zeros only, and the word reads back as the number. */
  lemma {:induction false} PaddedWord(amount: nat, n: nat)
    requires 1 <= n && amount < Pow16(n)
    ensures var w := Text.PadStart(ToHex(amount), n, '0');
            |w| == n && AllHex(w) && ParseHex(w) == amount
  {
    var h := ToHex(amount);
    ToHexLength(amount, n);
    Text.PadStartShorter(h, n, '0');
    ParseHexOfToHex(amount);
    ParseHexLeadingZeros(n - |h|, h);
  }

  /** The word of a non-negative amount below `16^64`: 64 digits that read
      back as the amount. */
  lemma AmountWord(amount: nat)
    requires amount < Pow16(WordDigits)
    ensures var w := Text.PadStart(IntToHex(amount), WordDigits, '0');
            |w| == WordDigits && AllHex(w) && ParseHex(w) == amount
  {
    PaddedWord(amount, WordDigits);
  }

  /** The word of an address: 24 zeros and its forty digits. */
  lemma AddressWord(address: string)
    requires IsAddress(address)
    ensures var w := Text.PadStart(AddressDigits(address), WordDigits, '0');
            w == Text.Repeat('0', 24) + address[2..] && AllHex(w)
  {
    var d := AddressDigits(address);
    var w := Text.PadStart(d, WordDigits, '0');
    assert |w| == 64 && w[24..] == d;
    assert w == Text.Repeat('0', 24) + d;
    ParseHexLeadingZeros(24, d);
  }

  /** Two words of hexadecimal digits make a run of them. */
  lemma AllHexConcat(a: string, b: string)
    requires AllHex(a) && AllHex(b)
    ensures AllHex(a + b)
  {
    assert forall k :: 0 <= k < |a + b| ==> (a + b)[k] == if k < |a| then a[k] else b[k - |a|];
  }

  /** Call data made of the selector and two well-formed words decodes to
      the address and amount they hold. */
  lemma DecodeTransferWords(a: string, b: string)
    requires |a| == WordDigits && |b| == WordDigits && AllHex(a) && AllHex(b)
    requires AllZeros(a[..24])
    ensures DecodeTransfer(TransferSelector + a + b) == Some(TransferArgs("0x" + a[24..], ParseHex(b)))
  {
    WordSlices(TransferSelector, a, b);
    AllHexConcat(a, b);
  }

  /** The pieces of a selector followed by two words. */
  lemma WordSlices(x: string, a: string, b: string)
    requires |x| == 10 && |a| == WordDigits && |b| == WordDigits
    ensures var data := x + a + b;
            && |data| == 10 + 2 * WordDigits
            && data[..10] == x && data[10..] == a + b
            && data[10..34] == a[..24] && data[34..74] == a[24..] && data[74..] == b
  {
    var data := x + a + b;
    assert data[..10] == x;
    assert data[10..] == a + b;
    assert data[10..34] == (a + b)[..24];
    assert data[34..74] == (a + b)[24..64];
  }

  /** The `transfer` encoding of an address and a non-negative amount below
      `16^64` is 138 characters long, and reading it back gives the address
      and the amount. */
  lemma TransferRoundTrip(address: string, amount: nat)
    requires IsAddress(address) && amount < Pow16(WordDigits)
    ensures |EncodeFunctionData("transfer", address, amount).value| == 138
    ensures DecodeTransfer(EncodeFunctionData("transfer", address, amount).value) == Some(TransferArgs(address, amount))
  {
    var a := Text.PadStart(AddressDigits(address), WordDigits, '0');
    var b := Text.PadStart(IntToHex(amount), WordDigits, '0');
    AmountWord(amount);
    AddressWord(address);
    assert AllZeros(a[..24]) && a[24..] == address[2..];
    DecodeTransferWords(a, b);
    assert "0x" + address[2..] == address;
  }

  /** The amount word holds the amount: the last 64 digits read back as it. */
  lemma TransferAmountWord(address: string, amount: nat)
    requires amount < Pow16(WordDigits)
    ensures var data := EncodeFunctionData("transfer", address, amount).value;
            AllHex(Text.TakeLast(data, WordDigits)) && ParseHex(Text.TakeLast(data, WordDigits)) == amount
  {
    AmountWord(amount);
    var b := Text.PadStart(IntToHex(amount), WordDigits, '0');
    Text.TakeLastOfConcat(TransferSelector + Text.PadStart(AddressDigits(address), WordDigits, '0'), b);
  }

  /** Padding never truncates: an address of more than 64 digits is written
      whole, which shifts the amount word and breaks the layout. */
  lemma LongAddressNotTruncated(address: string, amount: int)
    requires |AddressDigits(address)| > WordDigits
    ensures EncodeFunctionData("transfer", address, amount).value ==
              TransferSelector + AddressDigits(address) + Text.PadStart(IntToHex(amount), WordDigits, '0')
    ensures |EncodeFunctionData("transfer", address, amount).value| > 10 + 2 * WordDigits
  {
  }

  /** A negative amount is written with a minus sign, which is not a
      hexadecimal digit, so the call data does not decode. */
  lemma NegativeAmountUndecodable(address: string, amount: int)
    requires amount < 0
    ensures DecodeTransfer(EncodeFunctionData("transfer", address, amount).value).None?
  {
    var h := IntToHex(amount);
    var b := Text.PadStart(h, WordDigits, '0');
    var k := |b| - |h|;
    assert b[k..][0] == h[0] == '-';
    var x := TransferSelector + Text.PadStart(AddressDigits(address), WordDigits, '0');
    MinusBlocksHex(x, b, k);
  }

  /** Text whose tail holds a `-` after the selector is not call data. */
  lemma MinusBlocksHex(x: string, b: string, k: nat)
    requires |x| >= 10 && k < |b| && b[k] == '-'
    ensures DecodeTransfer(x + b).None?
  {
    var data := x + b;
    if |data| == 10 + 2 * WordDigits {
      assert data[10..][|x| - 10 + k] == '-';
    }
  }

  /** `balanceOf` of an address is 74 characters: the selector, 24 zeros and
      the forty address digits. */
  lemma BalanceOfLayout(address: string)
    requires IsAddress(address)
    ensures var data := EncodeFunctionData("balanceOf", address, 0).value;
            |data| == 74 && data[10..34] == Text.Repeat('0', 24) && "0x" + data[34..] == address
  {
    var data := EncodeFunctionData("balanceOf", address, 0).value;
    assert data[34..] == AddressDigits(address);
  }
}
