/** The submission orchestrator of the page: `onSubmit`, the one-shot `submitZap2Once`,
    the two iframe load handlers and the 1200 ms fallback timer, as a state machine
    over events. The text form (phase 1) and the upload form (phase 2) are posted
    into two hidden iframes; phase 2 goes out when iframe 1 finishes loading or when
    the fallback timer fires, whichever comes first, and iframe 2 finishing its load
    completes the submission. */
module Submission {
  import opened Options
  import opened Text
  import opened Properties
  import opened Admission
  import opened Payload
  import opened FormState

  const NoLoanMessage: string := "Please select a loan type before submitting."
  /** "Submitting", U+2026 HORIZONTAL ELLIPSIS, " please wait." */
  const SubmittingMessage: string := "Submitting\U{2026} please wait."
  const DoneMessage: string := "Your form has been submitted for review, " + "we will send an update shortly."

  /** The page's state: the form, the React state the handlers set (`status`,
      `leadId`, `createdAt`, `isSubmitting`, `isSubmitted`), the three refs
      (`submittedRef`, `zap2SubmittedRef`, `zap2FallbackRef`), the timers the page has
      armed and not yet seen fire or cleared, the hidden fields of the upload form,
      and the two logs of what has been posted. Timer handles are positive, as the
      browser's are. */
  datatype State = State(
    ui: Ui,
    status: string, leadId: string, createdAt: string,
    isSubmitting: bool, isSubmitted: bool,
    submitted: bool, zap2Submitted: bool, fallback: Option<nat>,
    armed: set<nat>, nextTimer: nat,
    form2: FileFields,
    sent1: seq<LeadFields>, sent2: seq<FileFields>)

  /** The page before any interaction. */
  const Init: State := State(Start, "", "", "", false, false, false, false, None, {}, 1,
                             FileFields("", "", ""), [], [])

  /** `files` is what the upload form's file inputs hold when the button is pressed
      (`None` when the form is not rendered); the two lead-source strings are read
      from the text form; `uuid` and `createdAt` stand for `uuid()` and
      `new Date().toISOString()`. */
  datatype Event =
    | UiEdit(edit: Edit)
    | Submit(files: Option<seq<FileInput>>, heardAbout: string, heardAboutOther: string,
             uuid: string, createdAt: string)
    | Phase1Loaded
    | TimerFired(handle: nat)
    | Phase2Loaded

  /** `isSubmitted || isSubmitting`, which disables most controls. */
  predicate Locked(s: State)
  {
    s.isSubmitted || s.isSubmitting
  }

  /** `submitZap2Once`: posts the upload form the first time only. */
  function SubmitZap2Once(s: State): (r: State)
    ensures r.zap2Submitted
    ensures s.zap2Submitted ==> r == s
    ensures !s.zap2Submitted ==> r.sent2 == s.sent2 + [s.form2]
    ensures r.sent1 == s.sent1 && r.ui == s.ui
  {
    if s.zap2Submitted then s
    else s.(zap2Submitted := true, sent2 := s.sent2 + [s.form2])
  }

  /** `clearTimeout(zap2FallbackRef.current); zap2FallbackRef.current = null`, when set. */
  function ClearFallback(s: State): (r: State)
    ensures r.fallback == None
    ensures forall h :: h in r.armed <==> h in s.armed && s.fallback != Some(h)
    ensures r.(armed := s.armed, fallback := s.fallback) == s
  {
    if s.fallback.Some? then s.(armed := s.armed - {s.fallback.value}, fallback := None) else s
  }

  /** `onSubmit`: the loan-type check, then the file check, then the one-shot guard;
      only then the fields are written, phase 1 is posted and the fallback armed. */
  function OnSubmit(s: State, files: Option<seq<FileInput>>, heardAbout: string, heardAboutOther: string,
                    uuid: string, createdAt: string): (r: State)
    ensures r.ui == s.ui && r.sent2 == s.sent2
    ensures s.sent1 <= r.sent1 && |r.sent1| <= |s.sent1| + 1
    ensures r.sent1 != s.sent1 ==>
              s.ui.loan.Some? && ValidateZap2Files(files) == Accepted && !s.submitted && !s.isSubmitting
              && r.sent1 == s.sent1 + [LeadPayload(s.ui.loan.value, s.ui.hasMulti, s.ui.properties,
                                                   heardAbout, heardAboutOther, uuid, createdAt)]
  {
    if s.ui.loan.None? then s.(status := NoLoanMessage)
    else
      match ValidateZap2Files(files)
      case Rejected(v) => s.(status := Message(v))
      case Accepted =>
        if s.submitted || s.isSubmitting then s
        else Commit(s, s.ui.loan.value, heardAbout, heardAboutOther, uuid, createdAt)
  }

  /** The part of `onSubmit` past its three checks: write the fields, post phase 1,
      re-arm the fallback. */
  function Commit(s: State, code: LoanCode, heardAbout: string, heardAboutOther: string,
                  uuid: string, createdAt: string): (r: State)
    ensures r.ui == s.ui && r.sent2 == s.sent2 && r.submitted && !r.zap2Submitted
    ensures r.sent1 == s.sent1 + [LeadPayload(code, s.ui.hasMulti, s.ui.properties,
                                              heardAbout, heardAboutOther, uuid, createdAt)]
    ensures r.fallback == Some(s.nextTimer) && s.nextTimer in r.armed
  {
    var lead := LeadPayload(code, s.ui.hasMulti, s.ui.properties, heardAbout, heardAboutOther, uuid, createdAt);
    var h := s.nextTimer;
    State(s.ui, SubmittingMessage, lead.leadId, createdAt,
          true, s.isSubmitted,
          true, false, Some(h),
          ClearFallback(s).armed + {h}, h + 1,
          FilePayload(code, uuid),
          s.sent1 + [lead], s.sent2)
  }

  /** `onLoad2`: the submission is complete and the fallback is cleared. */
  function OnLoad2(s: State): (r: State)
    ensures r.isSubmitted && !r.isSubmitting && r.status == DoneMessage && r.fallback == None
    ensures r.sent1 == s.sent1 && r.sent2 == s.sent2 && r.submitted == s.submitted
  {
    ClearFallback(s).(isSubmitting := false, isSubmitted := true, status := DoneMessage)
  }

  /** A timer that fires calls `submitZap2Once`; a cleared timer never fires. */
  function OnTimer(s: State, h: nat): (r: State)
    ensures h !in s.armed ==> r == s
    ensures h !in r.armed
    ensures r.sent1 == s.sent1 && r.ui == s.ui
    ensures s.sent2 <= r.sent2 && |r.sent2| <= |s.sent2| + 1
  {
    if h in s.armed then SubmitZap2Once(s.(armed := s.armed - {h})) else s
  }

  function Step(s: State, e: Event): (r: State)
    ensures s.sent1 <= r.sent1 && |r.sent1| <= |s.sent1| + 1
    ensures s.sent2 <= r.sent2 && |r.sent2| <= |s.sent2| + 1
    ensures UiInv(s.ui) ==> UiInv(r.ui)
  {
    match e
    case UiEdit(edit) => s.(ui := Apply(s.ui, edit, Locked(s)))
    case Submit(files, heardAbout, heardAboutOther, uuid, createdAt) =>
      OnSubmit(s, files, heardAbout, heardAboutOther, uuid, createdAt)
    case Phase1Loaded => SubmitZap2Once(s)
    case TimerFired(h) => OnTimer(s, h)
    case Phase2Loaded => OnLoad2(s)
  }

  function Run(s: State, es: seq<Event>): State
    decreases |es|
  {
    if |es| == 0 then s else Run(Step(s, es[0]), es[1..])
  }

  /** An iframe only finishes loading after something was posted into it, and the
      submit button, the only caller of `onSubmit`, is rendered only until the
      submission is complete. Its `disabled={isSubmitting}` is not a refusal here: a
      second click can land before React re-renders, which is what `submittedRef`
      guards against. */
  predicate Enabled(s: State, e: Event)
  {
    (e.Phase1Loaded? ==> |s.sent1| > 0) && (e.Phase2Loaded? ==> |s.sent2| > 0)
    && (e.Submit? ==> !s.isSubmitted)
  }

  predicate Feasible(s: State, es: seq<Event>)
    decreases |es|
  {
    |es| == 0 || (Enabled(s, es[0]) && Feasible(Step(s, es[0]), es[1..]))
  }

  /** What every feasible run keeps true. */
  predicate Inv(s: State)
  {
    UiInv(s.ui)
    && |s.sent1| <= 1 && (s.submitted <==> |s.sent1| == 1)
    && |s.sent2| <= |s.sent1|
    && (s.zap2Submitted <==> |s.sent2| == 1)
    && (forall h :: h in s.armed ==> s.fallback == Some(h))
    && (!s.submitted ==> s.fallback == None && !s.isSubmitting && !s.isSubmitted)
    && (s.isSubmitted ==> |s.sent2| == 1 && s.status == DoneMessage && s.armed == {})
    && (s.submitted ==> Locked(s) && s.ui.loan.Some? && s.sent1[0].loanType == CodeName(s.ui.loan.value))
    && (s.submitted ==> s.form2.leadId == s.sent1[0].leadId && s.form2.loanType == s.sent1[0].loanType
                        && s.leadId == s.sent1[0].leadId)
    && (|s.sent2| == 1 ==> s.sent2[0] == s.form2)
  }

  lemma InitInv()
    ensures Inv(Init)
  {
  }

  lemma SubmitKeepsInv(s: State, files: Option<seq<FileInput>>, heardAbout: string, heardAboutOther: string,
                       uuid: string, createdAt: string)
    requires Inv(s) && !s.isSubmitted
    ensures Inv(OnSubmit(s, files, heardAbout, heardAboutOther, uuid, createdAt))
  {
    if s.ui.loan.Some? && ValidateZap2Files(files) == Accepted && !s.submitted && !s.isSubmitting {
      var code := s.ui.loan.value;
      PayloadsAgree(code, s.ui.hasMulti, s.ui.properties, heardAbout, heardAboutOther, uuid, createdAt);
    }
  }

  lemma StepKeepsInv(s: State, e: Event)
    requires Inv(s) && Enabled(s, e)
    ensures Inv(Step(s, e))
  {
    match e
    case Submit(files, heardAbout, heardAboutOther, uuid, createdAt) =>
      SubmitKeepsInv(s, files, heardAbout, heardAboutOther, uuid, createdAt);
    case _ =>
  }

  lemma {:induction false} RunKeepsInv(s: State, es: seq<Event>)
    requires Inv(s) && Feasible(s, es)
    ensures Inv(Run(s, es))
    decreases |es|
  {
    if |es| > 0 {
      StepKeepsInv(s, es[0]);
      RunKeepsInv(Step(s, es[0]), es[1..]);
    }
  }

  /** However the user clicks and whatever order the loads and the timer come in,
      the page posts at most one lead and at most one upload, and the upload carries
      the lead's id and loan type. */
  lemma OneLeadOneUpload(es: seq<Event>)
    requires Feasible(Init, es)
    ensures var r := Run(Init, es);
            |r.sent1| <= 1 && |r.sent2| <= 1
            && (|r.sent2| == 1 ==> |r.sent1| == 1 && r.sent2[0].leadId == r.sent1[0].leadId
                                   && r.sent2[0].loanType == r.sent1[0].loanType)
  {
    InitInv();
    RunKeepsInv(Init, es);
  }

  /** Nothing is posted before a loan type is chosen and the files pass the check,
      and never a second time. */
  lemma SendNeedsChecks(s: State, files: Option<seq<FileInput>>, heardAbout: string, heardAboutOther: string,
                        uuid: string, createdAt: string)
    requires Inv(s)
    ensures var r := OnSubmit(s, files, heardAbout, heardAboutOther, uuid, createdAt);
            |r.sent1| > |s.sent1| <==> s.ui.loan.Some? && ValidateZap2Files(files) == Accepted && !s.submitted
  {
  }

  /** A repeated press with a loan type and acceptable files is ignored entirely. */
  lemma RepeatIgnored(s: State, files: Option<seq<FileInput>>, heardAbout: string, heardAboutOther: string,
                      uuid: string, createdAt: string)
    requires s.submitted && s.ui.loan.Some? && ValidateZap2Files(files) == Accepted
    ensures OnSubmit(s, files, heardAbout, heardAboutOther, uuid, createdAt) == s
  {
  }

  /** A rejected press changes the status line and nothing else, whatever its
      identifier and clock. */
  lemma RejectionOnlyReports(s: State, files: Option<seq<FileInput>>, heardAbout: string, heardAboutOther: string,
                             uuid: string, createdAt: string)
    requires s.ui.loan.None? || ValidateZap2Files(files).Rejected?
    ensures var r := OnSubmit(s, files, heardAbout, heardAboutOther, uuid, createdAt);
            r.(status := s.status) == s
            && r.status == (if s.ui.loan.None? then NoLoanMessage else Message(ValidateZap2Files(files).violation))
  {
  }

  /** Once the lead is out, the fallback timer posts the upload even if iframe 1
      never loads. */
  lemma FallbackDelivers(s: State, h: nat)
    requires Inv(s) && h in s.armed
    ensures var r := Step(s, TimerFired(h));
            |r.sent2| == 1 && r.sent2[0] == s.form2
  {
  }

  /** Once the lead is out, iframe 1 loading posts the upload unless it is out already. */
  lemma LoadDelivers(s: State)
    requires Inv(s) && s.submitted
    ensures var r := Step(s, Phase1Loaded);
            |r.sent2| == 1 && r.sent2[0] == s.form2
  {
  }

  /** Completion: iframe 2 loading marks the submission done, clears the fallback so
      that no timer is left to fire, and posts nothing. */
  lemma CompletionSettles(s: State, h: nat)
    requires Inv(s) && |s.sent2| > 0
    ensures var r := Step(s, Phase2Loaded);
            r.isSubmitted && !r.isSubmitting && r.status == DoneMessage
            && r.armed == {} && r.sent1 == s.sent1 && r.sent2 == s.sent2
            && Step(r, TimerFired(h)) == r
  {
  }

  /** After completion the button is gone, so no press can happen; and `onLoad2`
      keeps `submittedRef` set, so even a press would post nothing. */
  lemma NoResubmitAfterCompletion(s: State, files: Option<seq<FileInput>>, heardAbout: string,
                                  heardAboutOther: string, uuid: string, createdAt: string)
    requires Inv(s) && |s.sent2| > 0
    ensures var done := Step(s, Phase2Loaded);
            var r := Step(done, Submit(files, heardAbout, heardAboutOther, uuid, createdAt));
            !Enabled(done, Submit(files, heardAbout, heardAboutOther, uuid, createdAt))
            && r.sent1 == s.sent1 && r.sent2 == s.sent2
  {
    var done := Step(s, Phase2Loaded);
    assert done.submitted && done.ui == s.ui && done.sent1 == s.sent1 && done.sent2 == s.sent2;
  }

  /** Completion is final: every event the page can still see leaves it complete,
      showing the completion message, with nothing further posted. */
  lemma CompletionIsFinal(s: State, e: Event)
    requires Inv(s) && s.isSubmitted && Enabled(s, e)
    ensures var r := Step(s, e);
            r.isSubmitted && r.status == DoneMessage && r.sent1 == s.sent1 && r.sent2 == s.sent2
  {
  }

  /** The same for any feasible run that starts from a completed page. */
  lemma {:induction false} CompletedRunIsFinal(s: State, es: seq<Event>)
    requires Inv(s) && s.isSubmitted && Feasible(s, es)
    ensures var r := Run(s, es);
            r.isSubmitted && r.status == DoneMessage && r.sent1 == s.sent1 && r.sent2 == s.sent2
    decreases |es|
  {
    if |es| > 0 {
      CompletionIsFinal(s, es[0]);
      StepKeepsInv(s, es[0]);
      CompletedRunIsFinal(Step(s, es[0]), es[1..]);
    }
  }

  /** An upload is only ever posted while the page is locked, before and after the
      step that posts it. The file inputs are disabled by `isSubmitted || isSubmitting`
      and a form's submission leaves disabled controls out, so the upload carries its
      hidden fields and no file. */
  lemma UploadWhileLocked(s: State, e: Event)
    requires Inv(s) && Enabled(s, e)
    ensures |Step(s, e).sent2| > |s.sent2| ==> Locked(s) && Locked(Step(s, e))
  {
    match e
    case Phase1Loaded =>
      assert s.submitted;
    case TimerFired(h) =>
      if h in s.armed {
        assert s.fallback == Some(h);
      }
    case _ =>
  }

  /** Why the load events must follow the posts: were iframe 1 to report a load
      before the lead is posted, the upload would go out twice, first with the
      hidden fields as they stood before the press, without a lead id, and again,
      after the press, from the timer. */
  lemma EarlyLoadUploadsTwice(s: State, files: Option<seq<FileInput>>, heardAbout: string,
                              heardAboutOther: string, uuid: string, createdAt: string)
    requires Inv(s) && !s.submitted && s.ui.loan.Some? && ValidateZap2Files(files) == Accepted
    ensures !Enabled(s, Phase1Loaded)
    ensures var r := Step(Step(Step(s, Phase1Loaded), Submit(files, heardAbout, heardAboutOther, uuid, createdAt)),
                          TimerFired(s.nextTimer));
            |r.sent2| == 2 && r.sent2[0] == s.form2 && r.sent2[1].leadId == LeadIdPrefix + uuid
  {
    var s1 := Step(s, Phase1Loaded);
    var s2 := Step(s1, Submit(files, heardAbout, heardAboutOther, uuid, createdAt));
    SubmitCommits(s1, files, heardAbout, heardAboutOther, uuid, createdAt);
    FiredTimerSendsPhase2(s2, s.nextTimer);
  }

  /** With nothing in flight and valid input, a submit is a commit. */
  lemma SubmitCommits(s: State, files: Option<seq<FileInput>>, heardAbout: string,
                      heardAboutOther: string, uuid: string, createdAt: string)
    requires !s.submitted && !s.isSubmitting && s.ui.loan.Some? && ValidateZap2Files(files) == Accepted
    ensures var r := Step(s, Submit(files, heardAbout, heardAboutOther, uuid, createdAt));
            r.sent2 == s.sent2 && !r.zap2Submitted && s.nextTimer in r.armed
            && r.form2.leadId == LeadIdPrefix + uuid
  {
  }

  /** An armed timer posts phase 2 unless it was already posted. */
  lemma FiredTimerSendsPhase2(s: State, h: nat)
    requires h in s.armed && !s.zap2Submitted
    ensures Step(s, TimerFired(h)).sent2 == s.sent2 + [s.form2]
  {
  }
}
