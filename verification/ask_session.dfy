/**
 * The ask-price modal over time. User events (typing, picking a currency, clicking the button)
 * and the events of the one `setAsk(...).send(...)` transaction (hash, error, confirmation, and the
 * promise resolving or rejecting) are applied in the order given; any order is allowed. After each
 * callback the `errorMsg` effect runs if `errorMsg` or `asking` changed.
 */
module AskSession {
  import opened Wrappers
  import opened Text
  import opened Js
  import opened AskPrice

  datatype Settlement = Pending | Resolved | Rejected

  /** The transaction `setAskingPrice` sent, with the `asking` value its callbacks captured. */
  datatype Submission = Submission(asking: Option<Input>, confirmationHeard: bool, settlement: Settlement)

  datatype Modal = Modal(
    asking: Option<Input>,
    currency: string,
    errorMsg: Option<string>,
    updatedMsg: Option<string>,
    processing: bool,
    tx: Option<Submission>)

  /** `setAsk(mediaId, askData).send({ from: owner })` */
  datatype SetAskCall = SetAskCall(mediaId: string, data: AskData, from: string)

  /** The modal plus what it has sent and called: `setAsk` transactions, `updateAskPrice` and `onDismiss`. */
  datatype Session = Session(modal: Modal, calls: seq<SetAskCall>, updates: seq<Option<Input>>, dismissals: nat)

  /** Props and opaque helpers: `getTokenAddress`, `parseAndWei` and the `scanLinks` table. */
  datatype Env = Env(
    mediaId: string,
    owner: string,
    chainId: int,
    scanLinks: map<int, string>,
    tokenAddressOf: int -> string,
    wei: string -> int)

  datatype Event =
    | AskTyped(input: Input)
    | CurrencyPicked(symbol: string)
    | ButtonClicked
    | TxHash(hash: string)
    | TxError
    | TxConfirmation
    | TxResolved
    | TxRejected

  const Start: Session := Session(Modal(None, InitialCurrency, None, None, false, None), [], [], 0)

  function BaseOf(env: Env): string {
    ExplorerBase(env.scanLinks, env.chainId)
  }

  /** What the handler or listener for `e` does; a disabled control ignores its event. */
  function Callback(env: Env, s: Session, e: Event): (t: Session)
    // What can be sent out: at most one `setAsk`, only from an enabled Submit.
    ensures s.calls <= t.calls && |t.calls| <= |s.calls| + 1
    ensures |t.calls| > |s.calls| ==>
      && e == ButtonClicked
      && ButtonActionOf(s.modal.updatedMsg) == Submit
      && !ButtonDisabled(s.modal.errorMsg, s.modal.asking, s.modal.updatedMsg)
      && t.modal.updatedMsg == Some(ProcessingMessage) && t.modal.processing
      && t.modal.tx == Some(Submission(s.modal.asking, false, Pending))
    ensures t.updates != s.updates ==>
      && e == TxConfirmation && s.modal.tx.Some? && !s.modal.tx.value.confirmationHeard
      && t.updates == s.updates + [s.modal.tx.value.asking]
    ensures t.dismissals != s.dismissals ==>
      && e == ButtonClicked
      && !ButtonDisabled(s.modal.errorMsg, s.modal.asking, s.modal.updatedMsg)
      && ButtonActionOf(s.modal.updatedMsg) == Close
      && t.dismissals == s.dismissals + 1
    // The controls: a disabled control ignores its event.
    ensures (e.AskTyped? || e.CurrencyPicked?) && s.modal.processing ==> t == s
    ensures e.AskTyped? && !s.modal.processing ==>
      t == s.(modal := s.modal.(asking := HandleAskChange(s.modal.asking, e.input)))
    ensures e.CurrencyPicked? && !s.modal.processing ==> t == s.(modal := s.modal.(currency := e.symbol))
    ensures e == ButtonClicked && ButtonDisabled(s.modal.errorMsg, s.modal.asking, s.modal.updatedMsg) ==> t == s
    ensures (e == ButtonClicked && !ButtonDisabled(s.modal.errorMsg, s.modal.asking, s.modal.updatedMsg) &&
             ButtonActionOf(s.modal.updatedMsg) == Close) ==> t == s.(dismissals := s.dismissals + 1)
    ensures (e == ButtonClicked && !ButtonDisabled(s.modal.errorMsg, s.modal.asking, s.modal.updatedMsg) &&
             ButtonActionOf(s.modal.updatedMsg) == Submit) ==>
      && |t.calls| == |s.calls| + 1
      && t.modal == s.modal.(updatedMsg := Some(ProcessingMessage), processing := true,
                             tx := Some(Submission(s.modal.asking, false, Pending)))
      && t.updates == s.updates && t.dismissals == s.dismissals
    // The transaction's listeners, each with everything it leaves alone.
    ensures s.modal.tx.None? && !e.AskTyped? && !e.CurrencyPicked? && e != ButtonClicked ==> t == s
    ensures s.modal.tx.Some? && e.TxHash? ==>
      t == s.(modal := s.modal.(updatedMsg := Some(BaseOf(env) + TxPath + e.hash)))
    ensures s.modal.tx.Some? && e == TxError ==>
      t == s.(modal := s.modal.(errorMsg := Some(FailureMessage), updatedMsg := Some(CanceledMessage)))
    ensures s.modal.tx.Some? && e == TxConfirmation ==>
      && t.modal == s.modal.(tx := Some(s.modal.tx.value.(confirmationHeard := true)))
      && t.calls == s.calls && t.dismissals == s.dismissals
      && t.updates == s.updates + (if s.modal.tx.value.confirmationHeard then [] else [s.modal.tx.value.asking])
    ensures s.modal.tx.Some? && e == TxResolved ==>
      if s.modal.tx.value.settlement == Pending
      then t == s.(modal := s.modal.(errorMsg := None, processing := false,
                                     tx := Some(s.modal.tx.value.(settlement := Resolved))))
      else t == s
    ensures s.modal.tx.Some? && e == TxRejected ==>
      if s.modal.tx.value.settlement == Pending
      then t == s.(modal := s.modal.(tx := Some(s.modal.tx.value.(settlement := Rejected))))
      else t == s
  {
    var m := s.modal;
    match e
    case AskTyped(i) =>
      if m.processing then s else s.(modal := m.(asking := HandleAskChange(m.asking, i)))
    case CurrencyPicked(symbol) =>
      if m.processing then s else s.(modal := m.(currency := symbol))
    case ButtonClicked =>
      if ButtonDisabled(m.errorMsg, m.asking, m.updatedMsg) then s
      else if ButtonActionOf(m.updatedMsg) == Close then s.(dismissals := s.dismissals + 1)
      else
        var data := BuildAskData(m.asking, m.currency, env.chainId, env.tokenAddressOf, env.wei);
        s.(modal := m.(updatedMsg := Some(ProcessingMessage), processing := true,
                       tx := Some(Submission(m.asking, false, Pending))),
           calls := s.calls + [SetAskCall(env.mediaId, data, env.owner)])
    case TxHash(h) =>
      if m.tx.None? then s else s.(modal := m.(updatedMsg := Some(HashMessage(BaseOf(env), h))))
    case TxError =>
      if m.tx.None? then s
      else s.(modal := m.(errorMsg := Some(FailureMessage), updatedMsg := Some(CanceledMessage)))
    case TxConfirmation =>
      if m.tx.None? || m.tx.value.confirmationHeard then s
      else s.(modal := m.(tx := Some(m.tx.value.(confirmationHeard := true))),
              updates := s.updates + [m.tx.value.asking])
    case TxResolved =>
      if m.tx.None? || m.tx.value.settlement != Pending then s
      else s.(modal := m.(errorMsg := None, processing := false, tx := Some(m.tx.value.(settlement := Resolved))))
    case TxRejected =>
      if m.tx.None? || m.tx.value.settlement != Pending then s
      else s.(modal := m.(tx := Some(m.tx.value.(settlement := Rejected))))
  }

  /** The `errorMsg` effect, re-run when `errorMsg` or `asking` changed. */
  function Effect(before: Modal, after: Modal): (m: Modal)
    ensures m == after.(errorMsg := m.errorMsg)
    ensures after.errorMsg != before.errorMsg || after.asking != before.asking ==> m.errorMsg == AmountError(after.asking)
    ensures after.errorMsg == before.errorMsg && after.asking == before.asking ==> m == after
  {
    if after.errorMsg != before.errorMsg || after.asking != before.asking
    then after.(errorMsg := AmountError(after.asking))
    else after
  }

  function Step(env: Env, s: Session, e: Event): Session {
    var t := Callback(env, s, e);
    t.(modal := Effect(s.modal, t.modal))
  }

  function Run(env: Env, s: Session, evs: seq<Event>): Session
    decreases |evs|
  {
    if |evs| == 0 then s else Run(env, Step(env, s, evs[0]), evs[1..])
  }

  /** The messages the modal writes into `updatedMsg`. */
  predicate ModalMessage(base: string, msg: string) {
    msg == ProcessingMessage || msg == CanceledMessage || StartsWith(msg, base + TxPath)
  }

  /** What holds of every session reachable from `Start`. */
  predicate Inv(env: Env, s: Session) {
    var m := s.modal;
    && m.errorMsg == AmountError(m.asking)
    && (m.asking.Some? ==> AcceptsAsk(m.asking.value))
    && |s.calls| <= 1
    && (m.tx.Some? <==> |s.calls| == 1)
    && (m.tx.None? ==> m.updatedMsg.None? && !m.processing && |s.updates| == 0)
    && (m.tx.Some? ==> m.updatedMsg.Some? && ModalMessage(BaseOf(env), m.updatedMsg.value))
    && (m.processing <==> m.tx.Some? && m.tx.value.settlement != Resolved)
    && (m.processing ==> m.asking == m.tx.value.asking)
    && |s.updates| <= 1
    && (m.tx.Some? ==>
          var tx := m.tx.value;
          && tx.asking.Some? && AcceptsAsk(tx.asking.value)
          && tx.asking.value.number.Some? && tx.asking.value.number.value > 0.0
          && s.calls[0].data.amount == env.wei(tx.asking.value.text)
          && s.calls[0].data.sellOnShare == 0
          && s.calls[0].mediaId == env.mediaId && s.calls[0].from == env.owner
          && (|s.updates| == 1 <==> tx.confirmationHeard)
          && (|s.updates| == 1 ==> s.updates[0] == tx.asking))
  }

  lemma StartSatisfiesInv(env: Env)
    ensures Inv(env, Start)
  {
  }

  /** A message the modal writes is never empty, so once one is shown the button is Close. */
  lemma ModalMessageIsTruthy(env: Env, msg: string)
    requires ModalMessage(BaseOf(env), msg)
    ensures ButtonActionOf(Some(msg)) == Close
  {
  }

  lemma StepKeepsInv(env: Env, s: Session, e: Event)
    requires Inv(env, s)
    ensures Inv(env, Step(env, s, e))
  {
  }

  lemma {:induction false} RunKeepsInv(env: Env, s: Session, evs: seq<Event>)
    requires Inv(env, s)
    ensures Inv(env, Run(env, s, evs))
    decreases |evs|
  {
    if |evs| > 0 {
      StepKeepsInv(env, s, evs[0]);
      RunKeepsInv(env, Step(env, s, evs[0]), evs[1..]);
    }
  }

  /**
   * Over any sequence of events: at most one `setAsk` transaction is sent, and only for a positive
   * ask with no share on resale; `updateAskPrice` is called at most once, with the ask that was sent;
   * and `errorMsg` always ends up as the amount error of `asking`, so the transaction-failure text
   * never outlives the effect that follows it.
   */
  lemma SessionGuarantees(env: Env, evs: seq<Event>)
    ensures var t := Run(env, Start, evs);
      && |t.calls| <= 1
      && |t.updates| <= 1
      && t.modal.errorMsg == AmountError(t.modal.asking)
      && (|t.calls| == 1 ==> t.calls[0].data.sellOnShare == 0)
      && (|t.updates| == 1 ==>
            && |t.calls| == 1
            && t.updates[0].Some? && t.updates[0].value.number.Some? && t.updates[0].value.number.value > 0.0
            && t.calls[0].data.amount == env.wei(t.updates[0].value.text))
  {
    StartSatisfiesInv(env);
    RunKeepsInv(env, Start, evs);
  }

  /** Under the usual reading of the zero strings, the ask that reaches the chain lies in [0.01, 999999999]. */
  lemma SubmittedAskInRange(env: Env, s: Session)
    requires Inv(env, s) && s.modal.tx.Some?
    requires ReadsZeroLiterals(s.modal.tx.value.asking.value)
    ensures var n := s.modal.tx.value.asking.value.number.value; MinAsk <= n <= MaxAsk
  {
  }

  /** Clicking Submit writes the progress message, marks the modal processing and sends the ask. */
  lemma SubmitStartsProcessing(env: Env, s: Session)
    requires Inv(env, s)
    requires ButtonActionOf(s.modal.updatedMsg) == Submit
    requires !ButtonDisabled(s.modal.errorMsg, s.modal.asking, s.modal.updatedMsg)
    ensures var t := Step(env, s, ButtonClicked);
      && t.modal.updatedMsg == Some(ProcessingMessage)
      && t.modal.processing
      && t.calls == s.calls + [SetAskCall(env.mediaId,
           BuildAskData(s.modal.asking, s.modal.currency, env.chainId, env.tokenAddressOf, env.wei), env.owner)]
  {
  }

  /** Once a message is shown the button is Close: clicking it dismisses and never sends again. */
  lemma CloseNeverResubmits(env: Env, s: Session)
    requires Inv(env, s) && s.modal.updatedMsg.Some?
    ensures Step(env, s, ButtonClicked).calls == s.calls
    ensures Step(env, s, ButtonClicked).dismissals <= s.dismissals + 1
  {
  }

  /** A hash event replaces the message with the transaction's explorer link. */
  lemma HashEventShowsLink(env: Env, s: Session, h: string)
    requires s.modal.tx.Some?
    ensures Step(env, s, TxHash(h)).modal.updatedMsg == Some(HashMessage(BaseOf(env), h))
    ensures ShowsLink(Step(env, s, TxHash(h)).modal.updatedMsg, BaseOf(env))
  {
  }

  /**
   * An error event shows "canceled."; the failure text it writes into `errorMsg` is replaced at once
   * by the amount error, which is none for the positive ask that was submitted.
   */
  lemma ErrorEventCancels(env: Env, s: Session)
    requires Inv(env, s) && s.modal.tx.Some?
    ensures Step(env, s, TxError).modal.updatedMsg == Some(CanceledMessage)
    ensures Step(env, s, TxError).modal.errorMsg == AmountError(s.modal.asking)
    ensures s.modal.processing ==> Step(env, s, TxError).modal.errorMsg.None?
  {
  }

  /** `updateAskPrice` is only called in answer to a confirmation event. */
  lemma {:induction false} UpdateNeedsConfirmation(env: Env, s: Session, evs: seq<Event>)
    ensures |Run(env, s, evs).updates| > |s.updates| ==> exists k :: 0 <= k < |evs| && evs[k] == TxConfirmation
    decreases |evs|
  {
    if |evs| > 0 {
      var t := Step(env, s, evs[0]);
      UpdateNeedsConfirmation(env, t, evs[1..]);
      if |Run(env, t, evs[1..]).updates| > |t.updates| {
        var k :| 0 <= k < |evs[1..]| && evs[1..][k] == TxConfirmation;
        assert evs[k + 1] == TxConfirmation;
      } else if |t.updates| > |s.updates| {
        assert evs[0] == TxConfirmation;
      }
    }
  }

  /**
   * A rejected send skips the `setProcessing(false)` that follows the awaited promise, so the modal
   * stays processing, with its input and currency select disabled, whatever happens next.
   */
  lemma {:induction false} RejectionKeepsProcessing(env: Env, s: Session, evs: seq<Event>)
    requires Inv(env, s)
    requires s.modal.tx.Some? && s.modal.tx.value.settlement == Rejected
    ensures Run(env, s, evs).modal.processing
    ensures Run(env, s, evs).modal.asking == s.modal.asking
    decreases |evs|
  {
    if |evs| > 0 {
      StepKeepsInv(env, s, evs[0]);
      RejectionKeepsProcessing(env, Step(env, s, evs[0]), evs[1..]);
    }
  }

  /** Only the promise resolving ends processing: no other event, in any number, clears it. */
  lemma {:induction false} OnlyResolutionEndsProcessing(env: Env, s: Session, evs: seq<Event>)
    requires Inv(env, s) && s.modal.processing
    requires forall k :: 0 <= k < |evs| ==> evs[k] != TxResolved
    ensures Run(env, s, evs).modal.processing
    decreases |evs|
  {
    if |evs| > 0 {
      var t := Step(env, s, evs[0]);
      StepKeepsInv(env, s, evs[0]);
      assert t.modal.processing;
      OnlyResolutionEndsProcessing(env, t, evs[1..]);
    }
  }

  /** The usual failure, an error event and then the rejected promise, leaves the modal processing. */
  lemma FailureLeavesProcessing(env: Env, s: Session)
    requires Inv(env, s) && s.modal.processing
    ensures Run(env, s, [TxError, TxRejected]).modal.processing
    ensures Run(env, s, [TxError, TxRejected]).modal.updatedMsg == Some(CanceledMessage)
  {
  }

  /** Resolution is what ends processing: the promise resolving clears it. */
  lemma ResolutionEndsProcessing(env: Env, s: Session)
    requires Inv(env, s) && s.modal.tx.Some? && s.modal.tx.value.settlement == Pending
    ensures !Step(env, s, TxResolved).modal.processing
    ensures Step(env, s, TxRejected).modal.processing
  {
  }
}
