/**
 * The auction modal over time: a sequence of user edits, approval re-checks and button clicks
 * applied in order. Each handler runs to completion within one event; a click on a button that is
 * disabled, or that the modal does not currently show, does nothing.
 */
module AuctionSession {
  import opened Wrappers
  import opened Text
  import opened Js
  import opened CreateAuction

  /**
   * How the three controls reach `onChange`. In the markup each control is given
   * `() => onChange(kind)`, which builds the handler and throws it away without passing the
   * event (`AsWritten`); `Direct` is `onChange(kind)` itself.
   */
  datatype Wiring = AsWritten | Direct

  /** The modal's props and the opaque helpers it calls. */
  datatype Env = Env(
    nft: Nft,
    chainId: Option<int>,
    account: Option<string>,
    auctionHouseOf: Option<int> -> string,
    wei: string -> int)

  datatype Event =
    | Edit(kind: string, value: Input)
    | Recheck(answer: Option<string>)
    | ClickApprove(succeeded: bool)
    | ClickCreate(gas: Option<nat>, sent: bool)

  /** The form plus everything the modal has sent out so far. */
  datatype Session = Session(form: Form, approvals: seq<ApproveCall>, requests: seq<AuctionRequest>, dismissals: nat)

  const Start: Session := Session(Initial, [], [], 0)

  /**
   * One event. Edits reach `onChange` only under `Direct`; a re-check is `checkApprove`; a click
   * runs its handler exactly when that button is the one shown and it is enabled.
   */
  function Step(w: Wiring, env: Env, s: Session, e: Event): (t: Session)
    ensures e.Edit? && w == AsWritten ==> t == s
    ensures e.Edit? && w == Direct ==> t == s.(form := OnChange(s.form, e.kind, e.value))
    ensures e.Recheck? ==>
      t == s.(form := CheckApprove(s.form, Some(env.nft), env.chainId, env.auctionHouseOf, e.answer))
    ensures e.ClickApprove? && (s.form.approved || ApproveDisabled(s.form)) ==> t == s
    ensures e.ClickApprove? && !s.form.approved && !ApproveDisabled(s.form) ==>
      var r := HandleApprove(s.form, env.nft, env.chainId, env.account, env.auctionHouseOf, e.succeeded);
      t == s.(form := r.after, approvals := s.approvals + [r.call])
    ensures e.ClickCreate? && (!s.form.approved || CreateDisabled(s.form)) ==> t == s
    ensures e.ClickCreate? && s.form.approved && !CreateDisabled(s.form) ==>
      var r := HandleCreateAuction(s.form, env.nft, env.account, env.wei, e.gas, e.sent);
      t == s.(form := r.after, requests := s.requests + r.requests, dismissals := s.dismissals + r.dismissals)
  {
    match e
    case Edit(kind, value) =>
      if w == Direct then s.(form := OnChange(s.form, kind, value)) else s
    case Recheck(answer) =>
      s.(form := CheckApprove(s.form, Some(env.nft), env.chainId, env.auctionHouseOf, answer))
    case ClickApprove(succeeded) =>
      var b := OfferedButton(s.form);
      if b.ApproveButton? && !b.disabled then
        var r := HandleApprove(s.form, env.nft, env.chainId, env.account, env.auctionHouseOf, succeeded);
        s.(form := r.after, approvals := s.approvals + [r.call])
      else s
    case ClickCreate(gas, sent) =>
      var b := OfferedButton(s.form);
      if b.CreateButton? && !b.disabled then
        var r := HandleCreateAuction(s.form, env.nft, env.account, env.wei, gas, sent);
        s.(form := r.after, requests := s.requests + r.requests, dismissals := s.dismissals + r.dismissals)
      else s
  }

  function Run(w: Wiring, env: Env, s: Session, evs: seq<Event>): Session
    decreases |evs|
  {
    if |evs| == 0 then s else Run(w, env, Step(w, env, s, evs[0]), evs[1..])
  }

  /** An event that can turn the approved flag on. */
  predicate Approves(env: Env, e: Event) {
    || (e.ClickApprove? && e.succeeded)
    || (e.Recheck? && e.answer.Some? && ChainTruthy(env.chainId) &&
        SameIgnoringCase(e.answer.value, env.auctionHouseOf(env.chainId)))
  }

  lemma StepApproval(w: Wiring, env: Env, s: Session, e: Event)
    ensures s.form.approved ==> Step(w, env, s, e).form.approved
    ensures Step(w, env, s, e).form.approved ==> s.form.approved || Approves(env, e)
  {
  }

  /** Nothing in the modal ever sets the approved flag back to false. */
  lemma {:induction false} ApprovalNeverRevoked(w: Wiring, env: Env, s: Session, evs: seq<Event>)
    requires s.form.approved
    ensures Run(w, env, s, evs).form.approved
    decreases |evs|
  {
    if |evs| > 0 {
      StepApproval(w, env, s, evs[0]);
      ApprovalNeverRevoked(w, env, Step(w, env, s, evs[0]), evs[1..]);
    }
  }

  /** A step that sends auction requests starts from an approved form, with Create enabled. */
  lemma CreateOnlyWhenApproved(w: Wiring, env: Env, s: Session, e: Event)
    ensures |Step(w, env, s, e).requests| > |s.requests| ==>
      e.ClickCreate? && s.form.approved && !CreateDisabled(s.form)
    ensures |Step(w, env, s, e).approvals| > |s.approvals| ==>
      e.ClickApprove? && !s.form.approved && !ApproveDisabled(s.form)
  {
  }

  /** Sending auction requests leaves the form approved. */
  lemma {:induction false} RequestsLeaveApproved(w: Wiring, env: Env, s: Session, evs: seq<Event>)
    ensures |Run(w, env, s, evs).requests| > |s.requests| ==> Run(w, env, s, evs).form.approved
    decreases |evs|
  {
    if |evs| > 0 {
      var t := Step(w, env, s, evs[0]);
      CreateOnlyWhenApproved(w, env, s, evs[0]);
      StepApproval(w, env, s, evs[0]);
      RequestsLeaveApproved(w, env, t, evs[1..]);
      if t.form.approved {
        ApprovalNeverRevoked(w, env, t, evs[1..]);
      }
    }
  }

  /** If a run ends approved from an unapproved form, some approving event is the step that turned the flag on. */
  lemma {:induction false} ApprovalHasTurningPoint(w: Wiring, env: Env, s: Session, evs: seq<Event>)
    requires !s.form.approved && Run(w, env, s, evs).form.approved
    ensures exists k :: (0 <= k < |evs| && Approves(env, evs[k]) &&
      !Run(w, env, s, evs[..k]).form.approved && Run(w, env, s, evs[..k + 1]).form.approved)
    decreases |evs|
  {
    var t := Step(w, env, s, evs[0]);
    StepApproval(w, env, s, evs[0]);
    assert evs[..1][1..] == [];
    assert Run(w, env, s, evs[..1]) == t;
    assert evs[..0] == [];
    if !t.form.approved {
      ApprovalHasTurningPoint(w, env, t, evs[1..]);
      var k :| 0 <= k < |evs[1..]| && Approves(env, evs[1..][k]) &&
        !Run(w, env, t, evs[1..][..k]).form.approved && Run(w, env, t, evs[1..][..k + 1]).form.approved;
      assert evs[..k + 1][0] == evs[0] && evs[..k + 1][1..] == evs[1..][..k];
      assert evs[..k + 2][0] == evs[0] && evs[..k + 2][1..] == evs[1..][..k + 1];
      assert Approves(env, evs[k + 1]);
    }
  }

  /**
   * An auction is only ever requested after the form was approved: either it started approved, or
   * some approving event of the sequence (a successful approve, or a re-check whose answer matched)
   * is the very step that turned the flag on.
   */
  lemma AuctionRequiresApproval(w: Wiring, env: Env, s: Session, evs: seq<Event>)
    ensures |Run(w, env, s, evs).requests| > |s.requests| ==>
      s.form.approved ||
      exists k :: (0 <= k < |evs| && Approves(env, evs[k]) &&
        !Run(w, env, s, evs[..k]).form.approved && Run(w, env, s, evs[..k + 1]).form.approved)
  {
    if |Run(w, env, s, evs).requests| > |s.requests| && !s.form.approved {
      RequestsLeaveApproved(w, env, s, evs);
      ApprovalHasTurningPoint(w, env, s, evs);
    }
  }

  /**
   * As written, an already-approved token is still auctioned: its price was never edited, so the
   * reserve sent is `parseAndWei("0")`.
   */
  lemma AsWrittenAuctionsAtZeroReserve(env: Env, answer: string, g: nat)
    requires ChainTruthy(env.chainId) && answer == env.auctionHouseOf(env.chainId)
    ensures var t := Run(AsWritten, env, Start, [Recheck(Some(answer)), ClickCreate(Some(g), true)]);
      |t.requests| == 2 && t.requests[1].Send? && t.requests[1].call.reservePrice == env.wei("0") &&
      t.dismissals == 1
  {
    var evs := [Recheck(Some(answer)), ClickCreate(Some(g), true)];
    var s1 := Step(AsWritten, env, Start, evs[0]);
    assert s1.form == Initial.(approved := true);
    assert NatToDecimal(0) == "0";
    assert !CreateDisabled(s1.form);
    var r := HandleCreateAuction(s1.form, env.nft, env.account, env.wei, Some(g), true);
    var s2 := Step(AsWritten, env, s1, evs[1]);
    assert s2.requests == r.requests && s2.dismissals == 1;
    assert evs[1..] == [ClickCreate(Some(g), true)];
    assert evs[1..][1..] == [];
    assert Run(AsWritten, env, s2, []) == s2;
    assert Run(AsWritten, env, s1, evs[1..]) == s2;
  }

  /** Every request carries the zero curator and no fee, and every send repeats the estimated call. */
  predicate WellFormedRequests(rs: seq<AuctionRequest>) {
    && (forall i :: 0 <= i < |rs| ==> rs[i].call.curator == ZeroAddress && rs[i].call.curatorFeePercentage == 0)
    && (forall i :: 0 <= i < |rs| && rs[i].Send? ==>
          i > 0 && rs[i - 1].EstimateGas? && rs[i - 1].call == rs[i].call && rs[i - 1].from == rs[i].from)
  }

  lemma {:induction false} RequestsWellFormed(w: Wiring, env: Env, s: Session, evs: seq<Event>)
    requires WellFormedRequests(s.requests)
    ensures WellFormedRequests(Run(w, env, s, evs).requests)
    decreases |evs|
  {
    if |evs| > 0 {
      var t := Step(w, env, s, evs[0]);
      assert WellFormedRequests(t.requests) by {
        if evs[0].ClickCreate? && t != s {
          var r := HandleCreateAuction(s.form, env.nft, env.account, env.wei, evs[0].gas, evs[0].sent);
          assert t.requests == s.requests + r.requests;
        }
      }
      RequestsWellFormed(w, env, t, evs[1..]);
    }
  }

  /** Between events no handler is running, so the form is never left processing. */
  lemma {:induction false} IdleBetweenEvents(w: Wiring, env: Env, s: Session, evs: seq<Event>)
    requires !s.form.processing
    ensures !Run(w, env, s, evs).form.processing
    decreases |evs|
  {
    if |evs| > 0 {
      IdleBetweenEvents(w, env, Step(w, env, s, evs[0]), evs[1..]);
    }
  }

  /**
   * As written, the controls never deliver their value: the price stays at its initial 0, the
   * Approve button stays disabled, and no approval is ever sent from the modal.
   */
  lemma {:induction false} AsWrittenNeverApproves(env: Env, s: Session, evs: seq<Event>)
    requires s.form.price == Num(0) && |s.approvals| == 0
    ensures Run(AsWritten, env, s, evs).form.price == Num(0)
    ensures |Run(AsWritten, env, s, evs).approvals| == 0
    decreases |evs|
  {
    if |evs| > 0 {
      AsWrittenNeverApproves(env, Step(AsWritten, env, s, evs[0]), evs[1..]);
    }
  }

  /**
   * With the handler wired directly, a price edit that does not read as at most zero enables
   * Approve on an otherwise unblocked form, and the click sends exactly one approval.
   */
  lemma DirectWiringApproves(env: Env, s: Session, v: Input, ok: bool)
    requires !s.form.approved && !SharedBlockers(s.form)
    requires v.number.None? || v.number.value > 0.0
    ensures var t := Run(Direct, env, s, [Edit("price", v), ClickApprove(ok)]);
      |t.approvals| == |s.approvals| + 1 && t.form.approved == ok
  {
    var evs := [Edit("price", v), ClickApprove(ok)];
    var s1 := Step(Direct, env, s, evs[0]);
    assert !ApproveDisabled(s1.form);
    var s2 := Step(Direct, env, s1, evs[1]);
    assert evs[1..] == [ClickApprove(ok)] && evs[1..][1..] == [];
    assert Run(Direct, env, s1, evs[1..]) == s2;
  }

  /** From the initial form, typing 5 and clicking Approve sends the approval and sets `approved`. */
  lemma DirectWiringApprovesFromStart(env: Env)
    ensures var t := Run(Direct, env, Start, [Edit("price", Input("5", Some(5.0))), ClickApprove(true)]);
      |t.approvals| == 1 && t.form.approved
  {
  }
}
