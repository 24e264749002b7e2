/**
 * The auction-listing modal: form state, the field-change handler, the approval check, the two
 * buttons and the approve / create handlers. Contract calls are abstracted as outcomes handed in
 * by the caller: what `getApproved` answered, whether `approve(...).send` succeeded, what
 * `estimateGas` returned and whether `createAuction(...).send` succeeded.
 */
module CreateAuction {
  import opened Wrappers
  import opened Text
  import opened Js

  /** The curator argument of every auction this modal creates. */
  const ZeroAddress: string := "0x0000000000000000000000000000000000000000"
  const InitialCurrency: string := "0x5........"
  const InitialDuration: nat := 30 * 60

  datatype Nft = Nft(tokenId: string, contractAddress: string)

  datatype Form = Form(
    price: Value,
    currency: string,
    resPError: bool,
    currError: bool,
    duration: Value,
    approved: bool,
    processing: bool)

  const Initial: Form := Form(Num(0), InitialCurrency, false, false, Num(InitialDuration), false, false)

  /** The whole test a typed currency address must pass: a "0x" prefix and 42 characters. */
  predicate AddressShaped(text: string) {
    StartsWith(text, "0x") && |text| == 42
  }

  /** `onChange(kind)(e)` with `e.target.value` read as `value`. */
  function OnChange(s: Form, kind: string, value: Input): (t: Form)
    ensures kind == "duration" ==> t == s.(duration := Str(value))
    ensures kind == "price" ==> t == s.(price := Str(value), resPError := false)
    ensures kind != "duration" && kind != "price" ==>
      && (!t.currError <==> |value.text| == 42 && value.text[0] == '0' && value.text[1] == 'x')
      && t.currency == (if t.currError then s.currency else value.text)
      && t == s.(currency := t.currency, currError := t.currError)
  {
    if kind == "duration" then s.(duration := Str(value))
    else if kind == "price" then s.(price := Str(value), resPError := false)
    else if AddressShaped(value.text) then s.(currency := value.text, currError := false)
    else s.(currError := true)
  }

  /** The currency test never looks past the prefix: any 40 characters after "0x" pass. */
  lemma CurrencyCheckIgnoresHexDigits(s: Form, kind: string, tail: string)
    requires kind != "duration" && kind != "price"
    requires |tail| == 40
    ensures OnChange(s, kind, Input("0x" + tail, None)).currency == "0x" + tail
    ensures !OnChange(s, kind, Input("0x" + tail, None)).currError
  {
  }

  /** `if (nft && chainId)`: a chain id of 0 or none at all is falsy. */
  predicate ChainTruthy(chainId: Option<int>) {
    chainId.Some? && chainId.value != 0
  }

  /**
   * `checkApprove`, where `answer` is what `getApproved(nft.tokenId)` returned (`None` when the
   * call rejected) and `auctionHouseOf` is `getAuctionHouseAddress`.
   */
  function CheckApprove(s: Form, nft: Option<Nft>, chainId: Option<int>,
                        auctionHouseOf: Option<int> -> string, answer: Option<string>): (t: Form)
    ensures t == s.(approved := t.approved)
    ensures !(nft.Some? && ChainTruthy(chainId)) ==> t == s
    ensures s.approved ==> t.approved
    ensures t.approved <==>
      s.approved ||
      (nft.Some? && ChainTruthy(chainId) && answer.Some? &&
       |answer.value| == |auctionHouseOf(chainId)| &&
       forall i :: 0 <= i < |answer.value| ==> LowerChar(answer.value[i]) == LowerChar(auctionHouseOf(chainId)[i]))
  {
    if nft.Some? && ChainTruthy(chainId) then
      match answer
      case None => s
      case Some(account) =>
        SameIgnoringCaseCharwise(account, auctionHouseOf(chainId));
        if ToLower(account) == ToLower(auctionHouseOf(chainId)) then s.(approved := true) else s
    else s
  }

  /** A checksummed answer matches the lower-case auction-house address. */
  lemma CheckApproveIgnoresCase(s: Form, nft: Nft, chainId: int, auctionHouseOf: Option<int> -> string)
    requires chainId != 0
    requires auctionHouseOf(Some(chainId)) == "0xabcdef"
    ensures CheckApprove(s, Some(nft), Some(chainId), auctionHouseOf, Some("0xABCdef")).approved
  {
  }

  /** The Approve button's `disabled` expression. */
  predicate ApproveDisabled(s: Form) {
    s.currError || s.resPError || StrictlyZero(s.duration) || |s.currency| == 0 ||
    AtMostZero(s.price) || s.processing
  }

  /** The Create Auction button's `disabled` expression. */
  predicate CreateDisabled(s: Form) {
    s.currError || s.resPError || StrictlyZero(s.duration) || |s.currency| == 0 ||
    |ToJsString(s.price)| == 0 || s.processing
  }

  /** The conditions both buttons share. */
  predicate SharedBlockers(s: Form) {
    s.currError || s.resPError || StrictlyZero(s.duration) || |s.currency| == 0 || s.processing
  }

  /**
   * The two buttons differ only in their price test: Approve refuses a price that reads as at most
   * zero, Create refuses only a price field left empty, so a negative or zero reserve is let through.
   */
  lemma ButtonsDifferOnlyInPriceTest(s: Form)
    ensures ApproveDisabled(s) <==> SharedBlockers(s) || AtMostZero(s.price)
    ensures CreateDisabled(s) <==> SharedBlockers(s) || (s.price.Str? && s.price.input.text == "")
    ensures !SharedBlockers(s) && s.price == Str(Input("-5", Some(-5.0))) ==>
      ApproveDisabled(s) && !CreateDisabled(s)
  {
  }

  datatype Button = ApproveButton(disabled: bool) | CreateButton(disabled: bool)

  /** `approved ? <Create Auction> : <Approve Auction>` */
  function OfferedButton(s: Form): (b: Button)
    ensures b.CreateButton? <==> s.approved
    ensures b.ApproveButton? ==> (b.disabled <==> ApproveDisabled(s))
    ensures b.CreateButton? ==> (b.disabled <==> CreateDisabled(s))
  {
    if s.approved then CreateButton(CreateDisabled(s)) else ApproveButton(ApproveDisabled(s))
  }

  /** `approve(spender, tokenId).send({ from })` */
  datatype ApproveCall = ApproveCall(spender: string, tokenId: string, from: Option<string>)

  /** One run of a handler: the form while the call is outstanding, the call made, the form afterwards. */
  datatype ApproveRun = ApproveRun(during: Form, call: ApproveCall, after: Form)

  /** `handleApprove`, where `succeeded` is the outcome of the `approve` transaction. */
  function HandleApprove(s: Form, nft: Nft, chainId: Option<int>, account: Option<string>,
                         auctionHouseOf: Option<int> -> string, succeeded: bool): (r: ApproveRun)
    ensures r.during.processing && !r.after.processing
    ensures r.during == s.(processing := true)
    ensures r.call.spender == auctionHouseOf(chainId) && r.call.tokenId == nft.tokenId && r.call.from == account
    ensures r.after.approved <==> s.approved || succeeded
    ensures r.after == s.(approved := r.after.approved, processing := false)
  {
    var during := s.(processing := true);
    var call := ApproveCall(auctionHouseOf(chainId), nft.tokenId, account);
    var after := if succeeded then during.(approved := true) else during;
    ApproveRun(during, call, after.(processing := false))
  }

  /** The arguments of `createAuction(...)`, in the contract's order. */
  datatype AuctionCall = AuctionCall(
    tokenId: string,
    tokenContract: string,
    duration: Value,
    reservePrice: int,
    curator: string,
    curatorFeePercentage: int,
    currency: string)

  /** A request to the auction house: the gas estimate, then the transaction itself. */
  datatype AuctionRequest =
    | EstimateGas(call: AuctionCall, from: Option<string>)
    | Send(call: AuctionCall, from: Option<string>, gas: nat)

  datatype CreateRun = CreateRun(during: Form, requests: seq<AuctionRequest>, dismissals: nat, after: Form)

  /**
   * `handleCreateAuction`, where `wei` is `parseAndWei`, `gas` is what `estimateGas` returned
   * (`None` when it threw) and `sent` is the outcome of `send`.
   */
  function HandleCreateAuction(s: Form, nft: Nft, account: Option<string>, wei: string -> int,
                               gas: Option<nat>, sent: bool): (r: CreateRun)
    ensures r.during.processing && !r.after.processing
    ensures r.during == s.(processing := true) && r.after == s.(processing := false)
    ensures 1 <= |r.requests| <= 2 && r.requests[0].EstimateGas? && r.requests[0].from == account
    ensures r.requests[0].call ==
      AuctionCall(nft.tokenId, nft.contractAddress, s.duration, wei(ToJsString(s.price)), ZeroAddress, 0, s.currency)
    ensures |r.requests| == 2 <==> gas.Some?
    ensures |r.requests| == 2 ==> r.requests[1] == Send(r.requests[0].call, account, gas.value)
    ensures r.dismissals == 1 <==> gas.Some? && sent
    ensures r.dismissals <= 1
  {
    var during := s.(processing := true);
    var call := AuctionCall(nft.tokenId, nft.contractAddress, s.duration, wei(ToJsString(s.price)),
                            ZeroAddress, 0, s.currency);
    match gas
    case None => CreateRun(during, [EstimateGas(call, account)], 0, s.(processing := false))
    case Some(g) =>
      CreateRun(during, [EstimateGas(call, account), Send(call, account, g)],
                if sent then 1 else 0, s.(processing := false))
  }
}
