# Listing modals: a Dafny model

This project models the decision and state logic of the two listing modals of the marketplace
front end:

- **Create Auction** (`components/CreateAuctionModal/index.tsx`). It covers the field-change handler,
  the `getApproved` check against the auction house, and the choice between the Approve and Create
  Auction buttons with their `disabled` predicates. It also covers the approve and create-auction
  handlers, with their `processing` flag and their calls to the contracts.
- **Set Asking Price** (`components/AskPriceModal/index.tsx`). It covers the typing filter for the
  price, the amount-error effect, and the resolution of a currency symbol to a token address. It
  also covers the `askData` record, the block-explorer link, and how the events of the `setAsk`
  transaction fold into `updatedMsg`, `errorMsg`, `processing` and the `updateAskPrice` callback.

Contract calls are not executed. Each becomes an outcome the caller supplies:

- what `getApproved` answered (`None` when the call rejected);
- whether `approve(...).send` succeeded;
- what `estimateGas` returned;
- whether `createAuction(...).send` succeeded;
- for `setAsk`, a sequence of events: hash, error, confirmation, and the promise resolving or rejecting.

`getApproved` and `approve` are the ERC-721 calls of EIP-721 ("Specification" section).
JavaScript's `Number()` parsing is floating point and is not modelled. A typed value is an
`Input`: its text plus its numeric reading, with `None` for NaN. `ReadsZeroLiterals` pins the
strings `""`, `"0"`, `"0."` and `"0.0"` to 0.

Modules, one per file:

| module | file | role |
|---|---|---|
| `Wrappers` | wrappers.dfy | `Option` |
| `Text` | text.dfy | `startsWith`, ASCII `toLowerCase`, `indexOf`, `split`/`join`, `String(n)` |
| `Js` | js.dfy | typed inputs, state values (initial number or typed string), `<= 0`, `=== 0`, truthiness |
| `CreateAuction` | create_auction.dfy | auction form state, handlers, buttons |
| `AuctionSession` | auction_session.dfy | the auction modal over a sequence of events |
| `AskPrice` | ask_price.dfy | ask filter, amount error, currency resolution, ask record, explorer link, button |
| `AskSession` | ask_session.dfy | the ask modal over a sequence of user and transaction events |

Behaviour of the code that the model keeps on purpose:

- The currency check tests only the `"0x"` prefix and the length 42. It never checks for hex digits.
- The initial currency `'xxx'` is lower case. It does not match the `'XXX'` case, so it resolves to `""`.
- Every unknown symbol resolves to `""`. None is rejected.
- Nothing sets `approved` back to false.
- A successful approval sets `approved` at once. The approval is not re-queried.
- As wired, no edit reaches the form (see Findings). A token that is already approved still gets
  the Create Auction button, and the auction is created with the reserve `parseAndWei("0")`.
- `priceRef <= 0` is false for a price that reads as NaN, so a non-numeric price enables Approve.
- The Create button tests only that the price text is non-empty. It accepts a zero or negative reserve.
- After any edit, the price and duration are strings. So `duration === 0` never holds after an edit.
- The `errorMsg` effect depends on `errorMsg` itself. So the failure text written by the error
  listener is replaced by the amount error at once.
- When the `send` promise rejects, the awaited call throws, so `setProcessing(false)` never runs.
  The modal stays processing, and its input and currency select stay disabled.
- `updatedMsg?.startsWith()` has no argument. It tests for the prefix `"undefined"`, which no message
  the modal writes has.
- There is no busy state that rejects a second call, no cancel state, and no guard for a terminal
  state. A second submission is prevented only because the button turns into Close and because
  disabled controls ignore clicks and edits.

A cleaner design could use an explicit transaction state machine. It could also reject unknown
currencies, check addresses for hex digits, and re-query approval after a successful approve.
Where such a design differs from the code, the model follows the code.

## Model

| member | source | states |
|---|---|---|
| CreateAuction.OnChange | components/CreateAuctionModal/index.tsx:35-55 | A duration edit replaces only the duration. A price edit stores the typed value, clears `resPError` and changes nothing else. Any other kind of edit stores the text as the currency and clears `currError` exactly when the text has 42 characters and starts with "0x". Otherwise it sets `currError` and keeps the old currency. |
| CreateAuction.CurrencyCheckIgnoresHexDigits | components/CreateAuctionModal/index.tsx:45-53 | Any 40 characters after "0x" pass the currency check. No hex digit is checked. |
| CreateAuction.CheckApprove | components/CreateAuctionModal/index.tsx:93-101 | The check does nothing without an nft and a non-zero chain id. Otherwise `approved` becomes true exactly when the `getApproved` answer equals the auction-house address, compared character by character ignoring ASCII case. The check never sets `approved` to false and changes no other field. |
| CreateAuction.CheckApproveIgnoresCase | components/CreateAuctionModal/index.tsx:97 | A mixed-case answer matches the lower-case auction-house address. |
| CreateAuction.ButtonsDifferOnlyInPriceTest | components/CreateAuctionModal/index.tsx:179-197 | Both buttons share the blockers `currError`, `resPError`, `duration === 0`, an empty currency and `processing`. Approve adds "price reads as at most 0". Create adds only "price text empty", so a price of -5 disables Approve but not Create. |
| CreateAuction.OfferedButton | components/CreateAuctionModal/index.tsx:174-201 | The Create Auction button is shown exactly when `approved` holds, and the Approve button otherwise. Each is disabled exactly by its own predicate. |
| CreateAuction.HandleApprove | components/CreateAuctionModal/index.tsx:103-117 | `processing` is true while the approve call is outstanding and false afterwards. The call approves the auction house for the token, sent from the account. Afterwards `approved` is the old value or'ed with success. A failure leaves it unchanged. Nothing else changes. |
| CreateAuction.HandleCreateAuction | components/CreateAuctionModal/index.tsx:57-91 | The gas estimate and the send carry the same arguments: token, contract, duration, `parseAndWei(String(price))`, the zero-address curator, fee 0 and the currency. The send happens only if the estimate returned, and it uses that gas. `onDismiss` is called exactly once on success and never on failure. `processing` is true during the calls and false afterwards, and no other field changes. |
| AuctionSession.Step | components/CreateAuctionModal/index.tsx:119-201 | Under the wiring as written an edit changes nothing. Under the direct wiring it is `onChange` applied to the form. A re-check is `checkApprove` with the modal's nft and chain id. An Approve click runs `handleApprove` and records its call exactly when the form is unapproved and Approve is enabled. A Create click runs `handleCreateAuction` and records its requests and dismissals exactly when the form is approved and Create is enabled. Otherwise a click changes nothing. |
| AuctionSession.ApprovalNeverRevoked | components/CreateAuctionModal/index.tsx:93-117 | Once approved, the form stays approved after any sequence of events. |
| AuctionSession.CreateOnlyWhenApproved | components/CreateAuctionModal/index.tsx:174-201 | An event that sends auction requests is a Create click on an approved form whose Create button is enabled. An event that sends an approval is an Approve click on an unapproved form whose Approve button is enabled. |
| AuctionSession.RequestsLeaveApproved | components/CreateAuctionModal/index.tsx:174-189 | A run that sends an auction request ends with the form approved. |
| AuctionSession.ApprovalHasTurningPoint | components/CreateAuctionModal/index.tsx:93-117 | If a run starts unapproved and ends approved, some event of it is a successful approve or a re-check whose answer matched, and that event is the step where `approved` went from false to true. |
| AuctionSession.AuctionRequiresApproval | components/CreateAuctionModal/index.tsx:174-201 | If a sequence of events sends an auction request, either the form was approved at the start, or some event approved it and was the very step that turned `approved` on. That event is a successful approve or a re-check whose answer matched. An ignored click does not satisfy this. |
| AuctionSession.RequestsWellFormed | components/CreateAuctionModal/index.tsx:62-83 | Across a session, every auction request has the zero-address curator and fee 0. Every send directly follows an estimate of the same call from the same account. |
| AuctionSession.IdleBetweenEvents | components/CreateAuctionModal/index.tsx:57-117 | Both handlers reset `processing` in `finally`, so between events the form is never processing. |
| AuctionSession.AsWrittenNeverApproves | components/CreateAuctionModal/index.tsx:131-160 | With the controls wired as written, the price stays 0 and no approval is ever sent, whatever the events. |
| AuctionSession.AsWrittenAuctionsAtZeroReserve | components/CreateAuctionModal/index.tsx:57-91 | With the controls wired as written, a token the auction house already holds approval for is still auctioned. A matching re-check followed by a Create click sends an estimate and then a send whose reserve is `parseAndWei("0")`, and the modal is dismissed once. |
| AuctionSession.DirectWiringApproves | components/CreateAuctionModal/index.tsx:35-44 | With the handler wired to the controls, take an unapproved form with none of the shared blockers. A price edit that does not read as at most 0, including a non-numeric one, enables Approve. The following click sends exactly one approval, and `approved` becomes its outcome. |
| AuctionSession.DirectWiringApprovesFromStart | components/CreateAuctionModal/index.tsx:35-44 | From the initial form, typing the price 5 and clicking Approve sends one approval and sets `approved`. |
| Text.SplitThenJoin | components/AskPriceModal/index.tsx:169 | The model of `split` loses nothing: joining the pieces with the separator gives back the original string. |
| Text.DecimalRoundTrip | components/AskPriceModal/index.tsx:70 | The model of `String(n)` for a whole number is its decimal numeral: reading the digits back gives `n`. |
| Js.EmptyStringFormOnlyFromEmptyEdit | components/CreateAuctionModal/index.tsx:184 | `String(priceRef)` is empty only for a price edit that left the field empty. The initial number 0 prints as "0". |
| AskPrice.HandleAskChange | components/AskPriceModal/index.tsx:34-45 | The typed input is stored exactly when its numeric reading lies in [0.01, 999999999] or its text is one of "", "0", "0." and "0.0". Otherwise `asking` keeps its old value. |
| AskPrice.AskStoredIffInRange | components/AskPriceModal/index.tsx:34-45 | A typed ask whose value is not 0 is stored when it lies in [0.01, 999999999]. Otherwise `asking` is unchanged. |
| AskPrice.StoredAskIsZeroOrInRange | components/AskPriceModal/index.tsx:34-45 | Whatever the filter stores reads as 0 or as a value in [0.01, 999999999]. Non-numeric text is never stored. |
| AskPrice.AskFilterExamples | components/AskPriceModal/index.tsx:34-45 | "0.009" and "1000000000" are refused. "0.01", "999999999" and "" are stored. "abc" is refused. "0.00" and "00" read as 0 but are refused, since only the four listed zero strings pass. |
| AskPrice.AmountError | components/AskPriceModal/index.tsx:103-113 | The amount error is null exactly when `asking` is null or reads as a number greater than 0. Otherwise it is 'Invalid amount'. |
| AskPrice.ZeroLiteralsStoredButFlagged | components/AskPriceModal/index.tsx:36-42 | "", "0", "0." and "0.0" are always stored, and each is flagged 'Invalid amount'. |
| AskPrice.StoredAskErrorIffOutOfRange | components/AskPriceModal/index.tsx:103-113 | For a stored ask, the amount error is null exactly when the value lies in [0.01, 999999999]. |
| AskPrice.GetAddress | components/AskPriceModal/index.tsx:51-67 | 'XXX' resolves to `getTokenAddress(chainId)`. 'wETH' resolves to the chain-4 address on chain 4 and to the other address elsewhere. 'wBNB' resolves to the chain-97 address on chain 97 and to the other address elsewhere. Every other symbol resolves to "". |
| AskPrice.GetAddressIsTableLookup | components/AskPriceModal/index.tsx:51-67 | `getAddress` is a lookup in the table {XXX: `getTokenAddress(chainId)`, wETH: chain 4 or other, wBNB: chain 97 or other}, with "" for any symbol not in the table. |
| AskPrice.UnknownCurrencyResolvesEmpty | components/AskPriceModal/index.tsx:51-67 | While the platform token address is non-empty, the address is "" exactly for a symbol other than XXX, wETH and wBNB. The initial 'xxx' is one such symbol. |
| AskPrice.WrappedNativeDependsOnChain | components/AskPriceModal/index.tsx:57-64 | wETH resolves differently on chain 4 and on chain 1. wBNB resolves differently on chain 97 and on chain 56. |
| AskPrice.BuildAskData | components/AskPriceModal/index.tsx:70-76 | `sellOnShare` is always 0. The amount is `parseAndWei` of the typed text, or of "0" when `asking` is null. The currency is the resolved address. |
| AskPrice.ExplorerBase | components/AskPriceModal/index.tsx:31 | The base is `scanLinks[chainId]` when that is present and non-empty, and "https://etherscan.io" otherwise. It is never empty. |
| AskPrice.HashMessageShowsHash | components/AskPriceModal/index.tsx:157-171 | A hash message `base + "/tx/" + hash` is shown as a link, and its text shows exactly the hash, provided "/tx/" does not appear in the hash or in `base + "/tx"`. So the base must not contain "/tx/" and must not end in "/tx". With the base "a/tx" the text would show "tx/" followed by the hash. |
| AskPrice.DefaultExplorerShowsHash | components/AskPriceModal/index.tsx:31-32 | Under the default explorer, every hash without "/tx/" in it is shown intact in the link text. |
| AskPrice.ExplorerNameIsHostLabel | components/AskPriceModal/index.tsx:169 | Take a base of the form scheme + "//" + name + "." + rest. Suppose "//" occurs neither in `scheme + "/"` nor in `name + "." + rest`, and `name` has no ".". Then the link text names the explorer `name`. Without the first two conditions the first split takes another "//": the base "a//b//x.y" names "b", not "x". |
| AskPrice.FixedMessagesAreText | components/AskPriceModal/index.tsx:157 | Under an http(s) base, 'processing...' and 'canceled.' are shown as plain text, not as links. |
| AskPrice.ButtonActionOf | components/AskPriceModal/index.tsx:190-193 | The button is Close (`onDismiss`) exactly when `updatedMsg` is a non-empty string. Otherwise it is Submit (`setAskingPrice`). |
| AskPrice.ButtonDisabled | components/AskPriceModal/index.tsx:189 | The button is disabled whenever `errorMsg` is set or `asking` is null. With no message it is disabled only then. With a message it is also disabled when the message begins with "undefined". |
| AskPrice.UndefinedTestNeverFires | components/AskPriceModal/index.tsx:189 | Take a non-empty explorer base whose first character is not 'u'. Then for 'processing...', 'canceled.' and every hash message on that base, the button is disabled exactly when `errorMsg` is set or `asking` is null. The argument-less `startsWith` never fires for them. |
| AskSession.Callback | components/AskPriceModal/index.tsx:34-194 | Each event's effect is given with everything it leaves alone. A typed ask goes through `handleAskChange`, and a picked currency is stored. Both are ignored while processing. A disabled button ignores clicks. An enabled Close click calls `onDismiss` once and changes nothing else. An enabled Submit click sends exactly one `setAsk`, sets 'processing...' and `processing`, and records a pending submission of the current ask. No other event sends, dismisses or calls `updateAskPrice`. Transaction events before any send change nothing. A hash event only writes `txLink + hash`. An error event only writes the failure text and 'canceled.', so it leaves `processing` set. A confirmation only marks the submission heard, and calls `updateAskPrice` with the captured ask the first time. Resolving a pending send clears `errorMsg` and `processing`. Rejecting one only marks it rejected. Neither writes `updatedMsg`, so the link stays shown. |
| AskSession.Effect | components/AskPriceModal/index.tsx:103-113 | When `errorMsg` or `asking` changed, the effect resets `errorMsg` to the amount error of `asking`. It touches no other field. When neither changed, the effect does not run and the state is left as it is. |
| AskSession.StartSatisfiesInv | components/AskPriceModal/index.tsx:25-29 | The initial state has no ask, no error, no message and no transaction, and it satisfies the session invariant. |
| AskSession.ModalMessageIsTruthy | components/AskPriceModal/index.tsx:190-193 | Every message the modal writes is non-empty, so once one is shown the button is Close. |
| AskSession.StepKeepsInv | components/AskPriceModal/index.tsx:69-101 | Every event keeps the invariant. At most one transaction is sent, for a stored positive ask, with `sellOnShare` 0. The message stays one the modal writes. `processing` holds exactly while a sent transaction is not resolved, and edits stay blocked meanwhile. `updateAskPrice` is called at most once, with the captured ask. It has been called exactly when the submission is marked as having heard a confirmation, and by `Callback` only a TxConfirmation event sets that mark. |
| AskSession.SessionGuarantees | components/AskPriceModal/index.tsx:69-113 | From the initial state, over any event sequence: at most one `setAsk` is sent, `updateAskPrice` is called at most once, and `errorMsg` equals the amount error. Any update reports a positive ask whose text gave the amount that was sent. |
| AskSession.SubmittedAskInRange | components/AskPriceModal/index.tsx:69-76 | Under the usual reading of the zero strings, the ask that was sent lies in [0.01, 999999999]. |
| AskSession.SubmitStartsProcessing | components/AskPriceModal/index.tsx:69-83 | An enabled Submit click sets 'processing...' and `processing`, and sends exactly one `setAsk` carrying the ask record built from the current ask and currency. |
| AskSession.CloseNeverResubmits | components/AskPriceModal/index.tsx:188-194 | Once a message is shown, a click never sends another transaction. It can only dismiss. |
| AskSession.HashEventShowsLink | components/AskPriceModal/index.tsx:88-92 | A hash event sets the message to `txLink + hash`, which is shown as a link. |
| AskSession.ErrorEventCancels | components/AskPriceModal/index.tsx:84-87 | An error event sets the message to 'canceled.'. The failure text is immediately replaced by the amount error, which is null while the submitted ask is pending. |
| AskSession.UpdateNeedsConfirmation | components/AskPriceModal/index.tsx:93-96 | `updateAskPrice` is called only in answer to a confirmation event. |
| AskSession.RejectionKeepsProcessing | components/AskPriceModal/index.tsx:81-100 | After the send promise rejects, the modal stays processing and its ask stays unchanged, whatever events follow. |
| AskSession.ResolutionEndsProcessing | components/AskPriceModal/index.tsx:97-100 | The promise resolving clears `processing`, and rejecting does not. |
| AskSession.OnlyResolutionEndsProcessing | components/AskPriceModal/index.tsx:79-100 | While processing, any sequence of events without the promise resolving leaves the modal processing. |
| AskSession.FailureLeavesProcessing | components/AskPriceModal/index.tsx:84-100 | An error event followed by the rejected promise leaves the modal processing and showing 'canceled.'. |

## Findings

| source | as written | input that shows it | evidently intended | confidence | as-written member | corrected member |
|---|---|---|---|---|---|---|
| components/CreateAuctionModal/index.tsx:134-160 | The duration select, price input and currency select each get `() => onChange(kind)`. This creates the handler and discards it without passing the event, so no edit reaches the state. | Type 5 as the reserve price. The price stays 0, so `priceRef <= 0` keeps Approve disabled. | `onChange={onChange(kind)}`, which hands the event to the handler. | high; not executed | AuctionSession.AsWrittenNeverApproves | AuctionSession.DirectWiringApproves |

`AuctionSession.Step` takes the wiring as a parameter. The session lemmas whose names begin with
`AsWritten` or `DirectWiring` are about one wiring. The others hold for both.

## Left out

- hooks/useMediaContract.ts builds a web3 provider and contract from an environment variable and an ABI file. It is pure I/O.
- The RPCs (`estimateGas`, `send`, `call`, `getApproved`, `approve`, `setAsk`, `createAuction`) and their promise and event machinery are not modelled. Each becomes an outcome parameter or an event in a sequence.
- `parseAndWei`, `getTokenAddress`, `getAuctionHouseAddress` and `scanLinks` are opaque. They are parameters: functions, or a map for `scanLinks`. `parseAndWei` is taken to be total.
- The auction-house contract object from `getAuctionHouse(web3, chainId)` is dropped. An `AuctionRequest` does not record which contract it targets. The call is taken not to throw, so `HandleCreateAuction` always reaches the gas estimate.
- `timeData`, the duration options, is not modelled. A duration edit may store any text.
- JavaScript's `Number()` is not modelled. An input carries its numeric reading instead.
- `toLowerCase` is modelled on ASCII letters only. Addresses are ASCII.
- The token-address literals in the source are elided (`'0xc...'`, `'0x5....'`). The model keeps them as distinct constants, and it takes a picked currency as arbitrary text.
- JSX layout, i18n `t(...)`, toasts, `console` logging, the "New asking price" line and the modal's own close control are not modelled.
- React's asynchrony and batching are not modelled. Each auction handler runs to completion within one event, so `processing` is observable only in a run's `during` state. Ask-transaction events arrive in any order given.
- The effect's `catch` branch ('Bid not allowed at this time') is not modelled. `Number` does not throw on a string or on null, so the branch cannot run.
- `onDismiss` is taken to be provided. The modal's title reads `nft.title`, so a mounted modal always has an `nft`. The handlers therefore take one, and only `checkApprove` tests for its absence.
- Changes of the `nft` and `chainId` props during a session are not modelled. The effect that re-runs `checkApprove` is a `Recheck` event with fixed props.
- The props declare `chainID: string`, but the component reads `chainId`. The model takes a numeric chain id, as the `=== 4` and `=== 97` tests expect.
