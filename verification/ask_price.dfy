/**
 * The ask-price modal's pure pieces: the typing filter, the amount error, currency resolution,
 * the ask record sent to the media contract, the block-explorer link and the button predicate.
 */
module AskPrice {
  import opened Wrappers
  import opened Text
  import opened Js

  const InitialCurrency: string := "xxx"
  const DefaultExplorer: string := "https://etherscan.io"
  const TxPath: string := "/tx/"
  const ProcessingMessage: string := "processing..."
  const CanceledMessage: string := "canceled."
  const FailureMessage: string := "Something went wrong. Please try again later."
  const InvalidAmountMessage: string := "Invalid amount"
  const MinAsk: real := 0.01
  const MaxAsk: real := 999999999.0

  /** Wrapped-native token addresses (elided in the source as written). */
  const WethOnChain4: string := "0xc..."
  const WethElsewhere: string := "0xC..."
  const WbnbOnChain97: string := "0xa..."
  const WbnbElsewhere: string := "0xb..."

  /** The filter `handleAskChange` applies before storing a typed ask. */
  predicate AcceptsAsk(i: Input) {
    (i.number.Some? && MinAsk <= i.number.value <= MaxAsk) || i.text in ZeroLiterals
  }

  /** `handleAskChange`: the new `asking` state. */
  function HandleAskChange(asking: Option<Input>, i: Input): (r: Option<Input>)
    ensures ((i.number.Some? && MinAsk <= i.number.value <= MaxAsk) ||
             i.text == "" || i.text == "0" || i.text == "0." || i.text == "0.0") ==> r == Some(i)
    ensures ((i.number.None? || i.number.value < MinAsk || i.number.value > MaxAsk) &&
             i.text != "" && i.text != "0" && i.text != "0." && i.text != "0.0") ==> r == asking
  {
    if AcceptsAsk(i) then Some(i) else asking
  }

  /** Away from zero, a typed ask is stored exactly when its value lies in [0.01, 999999999]. */
  lemma AskStoredIffInRange(asking: Option<Input>, i: Input, x: real)
    requires ReadsZeroLiterals(i)
    requires i.number == Some(x) && x != 0.0
    ensures MinAsk <= x <= MaxAsk ==> HandleAskChange(asking, i) == Some(i)
    ensures !(MinAsk <= x <= MaxAsk) ==> HandleAskChange(asking, i) == asking
  {
  }

  /** What can be stored reads as 0 or as a value in range; non-numeric text is never stored. */
  lemma StoredAskIsZeroOrInRange(asking: Option<Input>, i: Input)
    requires ReadsZeroLiterals(i)
    requires HandleAskChange(asking, i) != asking
    ensures i.number.Some? && (i.number.value == 0.0 || MinAsk <= i.number.value <= MaxAsk)
  {
  }

  /** The boundary cases of the typing filter. */
  lemma AskFilterExamples(asking: Option<Input>)
    requires asking.None?
    ensures HandleAskChange(asking, Input("0.009", Some(0.009))) == None
    ensures HandleAskChange(asking, Input("0.01", Some(0.01))).Some?
    ensures HandleAskChange(asking, Input("999999999", Some(999999999.0))).Some?
    ensures HandleAskChange(asking, Input("1000000000", Some(1000000000.0))) == None
    ensures HandleAskChange(asking, Input("", Some(0.0))).Some?
    ensures HandleAskChange(asking, Input("abc", None)) == None
    ensures HandleAskChange(asking, Input("0.00", Some(0.0))) == None
    ensures HandleAskChange(asking, Input("00", Some(0.0))) == None
  {
  }

  /** The `errorMsg` effect: `Number(asking) > 0 || asking === null` clears it, anything else is invalid. */
  function AmountError(asking: Option<Input>): (e: Option<string>)
    ensures e.None? <==> asking.None? || (asking.value.number.Some? && asking.value.number.value > 0.0)
    ensures e.Some? ==> e.value == InvalidAmountMessage
  {
    if asking.None? then None
    else if asking.value.number.Some? && asking.value.number.value > 0.0 then None
    else Some(InvalidAmountMessage)
  }

  /** The literal zero strings are storable while typing, but flagged as an invalid amount. */
  lemma ZeroLiteralsStoredButFlagged(asking: Option<Input>, i: Input)
    requires ReadsZeroLiterals(i) && i.text in ZeroLiterals
    ensures HandleAskChange(asking, i) == Some(i)
    ensures AmountError(Some(i)) == Some(InvalidAmountMessage)
  {
  }

  /** A stored ask carries no amount error exactly when it lies in range. */
  lemma StoredAskErrorIffOutOfRange(asking: Option<Input>, i: Input)
    requires ReadsZeroLiterals(i) && AcceptsAsk(i)
    ensures AmountError(Some(i)).None? <==> i.number.Some? && MinAsk <= i.number.value <= MaxAsk
  {
  }

  /** `getAddress` for the selected currency symbol; `tokenAddressOf` is `getTokenAddress`. */
  function GetAddress(currency: string, chainId: int, tokenAddressOf: int -> string): (a: string)
    ensures currency == "XXX" ==> a == tokenAddressOf(chainId)
    ensures currency == "wETH" ==> a == (if chainId == 4 then WethOnChain4 else WethElsewhere)
    ensures currency == "wBNB" ==> a == (if chainId == 97 then WbnbOnChain97 else WbnbElsewhere)
    ensures currency != "XXX" && currency != "wETH" && currency != "wBNB" ==> a == ""
  {
    if currency == "XXX" then tokenAddressOf(chainId)
    else if currency == "wETH" then (if chainId == 4 then WethOnChain4 else WethElsewhere)
    else if currency == "wBNB" then (if chainId == 97 then WbnbOnChain97 else WbnbElsewhere)
    else ""
  }

  /** The symbols `getAddress` knows on a chain, as a table. */
  function CurrencyTable(chainId: int, tokenAddressOf: int -> string): map<string, string> {
    map[
      "XXX" := tokenAddressOf(chainId),
      "wETH" := if chainId == 4 then WethOnChain4 else WethElsewhere,
      "wBNB" := if chainId == 97 then WbnbOnChain97 else WbnbElsewhere]
  }

  /** `getAddress` is a lookup in the table with "" for every symbol it does not list. */
  lemma GetAddressIsTableLookup(currency: string, chainId: int, tokenAddressOf: int -> string)
    ensures var table := CurrencyTable(chainId, tokenAddressOf);
      GetAddress(currency, chainId, tokenAddressOf) == (if currency in table then table[currency] else "")
  {
  }

  /**
   * An unknown symbol silently resolves to "", including the initial `'xxx'` (lower case, unlike the
   * `'XXX'` option); a known symbol never does while the platform token address is non-empty.
   */
  lemma UnknownCurrencyResolvesEmpty(currency: string, chainId: int, tokenAddressOf: int -> string)
    requires tokenAddressOf(chainId) != ""
    ensures GetAddress(currency, chainId, tokenAddressOf) == "" <==> currency !in {"XXX", "wETH", "wBNB"}
    ensures GetAddress(InitialCurrency, chainId, tokenAddressOf) == ""
  {
  }

  /** The wrapped-native address depends on the chain: chain 4 differs from chain 1, chain 97 from 56. */
  lemma WrappedNativeDependsOnChain(tokenAddressOf: int -> string)
    ensures GetAddress("wETH", 4, tokenAddressOf) != GetAddress("wETH", 1, tokenAddressOf)
    ensures GetAddress("wBNB", 97, tokenAddressOf) != GetAddress("wBNB", 56, tokenAddressOf)
  {
  }

  /** The ask sent to `setAsk`. */
  datatype AskData = AskData(amount: int, currency: string, sellOnShare: int)

  /** `askData` as `setAskingPrice` builds it; `wei` is `parseAndWei`. */
  function BuildAskData(asking: Option<Input>, currency: string, chainId: int,
                        tokenAddressOf: int -> string, wei: string -> int): (d: AskData)
    ensures d.sellOnShare == 0
    ensures asking.None? ==> d.amount == wei("0")
    ensures asking.Some? ==> d.amount == wei(asking.value.text)
    ensures d.currency == GetAddress(currency, chainId, tokenAddressOf)
  {
    var source := if asking.Some? then asking.value.text else NatToDecimal(0);
    AskData(wei(source), GetAddress(currency, chainId, tokenAddressOf), 0)
  }

  /** `scanLinks[chainId] ? scanLinks[chainId] : 'https://etherscan.io'` */
  function ExplorerBase(scanLinks: map<int, string>, chainId: int): (base: string)
    ensures |base| > 0
    ensures chainId in scanLinks && scanLinks[chainId] != "" ==> base == scanLinks[chainId]
    ensures !(chainId in scanLinks && scanLinks[chainId] != "") ==> base == DefaultExplorer
  {
    if chainId in scanLinks && scanLinks[chainId] != "" then scanLinks[chainId] else DefaultExplorer
  }

  /** `txLink + transactionHash` */
  function HashMessage(base: string, hash: string): string {
    base + TxPath + hash
  }

  /** `updatedMsg?.startsWith(base)`: the message is shown as a link to the explorer. */
  predicate ShowsLink(updatedMsg: Option<string>, base: string) {
    updatedMsg.Some? && StartsWith(updatedMsg.value, base)
  }

  /** `updatedMsg.split('/tx/')[1]`, the hash the link text displays (`None` for `undefined`). */
  function ShownHash(msg: string): Option<string> {
    var parts := Split(msg, TxPath);
    if |parts| >= 2 then Some(parts[1]) else None
  }

  /** `base.split('//')[1].split('.')[0]`, the explorer's name in the link text (`None` where it throws). */
  function ExplorerName(base: string): Option<string> {
    var parts := Split(base, "//");
    if |parts| >= 2 then Some(Split(parts[1], ".")[0]) else None
  }

  /**
   * A hash message is always shown as a link, and the link text shows exactly the hash, as long as
   * "/tx/" appears neither in the hash nor before the path the message appends.
   */
  lemma HashMessageShowsHash(base: string, hash: string)
    requires IndexOf(base + "/tx", TxPath).None?
    requires IndexOf(hash, TxPath).None?
    ensures ShowsLink(Some(HashMessage(base, hash)), base)
    ensures ShownHash(HashMessage(base, hash)) == Some(hash)
  {
    assert TxPath[..|TxPath| - 1] == "/tx";
    SplitAtFirstSeparator(base, TxPath, hash);
    assert Split(hash, TxPath) == [hash];
    assert HashMessage(base, hash)[..|base|] == base;
  }

  /**
   * The link text names the explorer by the host label after "//": for a base of the form
   * scheme + "//" + name + "." + rest, it is `name`.
   */
  lemma ExplorerNameIsHostLabel(scheme: string, name: string, rest: string)
    requires IndexOf(scheme + "/", "//").None?
    requires IndexOf(name + "." + rest, "//").None?
    requires IndexOf(name, ".").None?
    ensures ExplorerName(scheme + "//" + name + "." + rest) == Some(name)
  {
    assert "//"[..1] == "/";
    SplitAtFirstSeparator(scheme, "//", name + "." + rest);
    assert Split(name + "." + rest, "//") == [name + "." + rest];
    assert scheme + "//" + (name + "." + rest) == scheme + "//" + name + "." + rest;
    assert "."[..0] == "";
    assert name + "" == name;
    SplitAtFirstSeparator(name, ".", rest);
  }

  /** Under the default explorer every hash without "/tx/" in it is displayed intact. */
  lemma DefaultExplorerShowsHash(hash: string)
    requires IndexOf(hash, TxPath).None?
    ensures ShownHash(HashMessage(DefaultExplorer, hash)) == Some(hash)
  {
    AbsentByEnds("https://etherscan.io/tx", TxPath);
    assert DefaultExplorer + "/tx" == "https://etherscan.io/tx";
    HashMessageShowsHash(DefaultExplorer, hash);
  }

  /** The fixed progress and cancel messages are plain text under any http(s) explorer base. */
  lemma FixedMessagesAreText(base: string)
    requires StartsWith(base, "http")
    ensures !ShowsLink(Some(ProcessingMessage), base)
    ensures !ShowsLink(Some(CanceledMessage), base)
  {
    assert base[0] == 'h';
  }

  /** The Submit/Close button's `disabled`; `updatedMsg?.startsWith()` looks for the text "undefined". */
  function ButtonDisabled(errorMsg: Option<string>, asking: Option<Input>, updatedMsg: Option<string>): (disabled: bool)
    ensures errorMsg.Some? ==> disabled
    ensures asking.None? ==> disabled
    ensures updatedMsg.None? ==> (disabled <==> errorMsg.Some? || asking.None?)
    ensures updatedMsg.Some? ==>
      (disabled <==> errorMsg.Some? || asking.None? ||
                     (|updatedMsg.value| >= 9 && updatedMsg.value[..9] == "undefined"))
  {
    errorMsg.Some? || asking.None? || (updatedMsg.Some? && StartsWith(updatedMsg.value, "undefined"))
  }

  datatype ButtonAction = Submit | Close

  /** `updatedMsg ? onDismiss : setAskingPrice`, and the matching label. */
  function ButtonActionOf(updatedMsg: Option<string>): (a: ButtonAction)
    ensures a == Close <==> updatedMsg.Some? && updatedMsg.value != ""
  {
    if TruthyString(updatedMsg) then Close else Submit
  }

  /** None of the messages the modal writes makes the "undefined" test fire, so the button is disabled only by errors. */
  lemma UndefinedTestNeverFires(base: string, hash: string, errorMsg: Option<string>, asking: Option<Input>)
    requires |base| > 0 && base[0] != 'u'
    ensures ButtonDisabled(errorMsg, asking, Some(ProcessingMessage)) <==> errorMsg.Some? || asking.None?
    ensures ButtonDisabled(errorMsg, asking, Some(CanceledMessage)) <==> errorMsg.Some? || asking.None?
    ensures ButtonDisabled(errorMsg, asking, Some(HashMessage(base, hash))) <==> errorMsg.Some? || asking.None?
  {
    assert HashMessage(base, hash)[0] == base[0];
    assert ProcessingMessage[0] == 'p' && CanceledMessage[0] == 'c';
  }
}
