/** The same handlers written as the page writes them: one mutable page state,
    updated statement by statement in the order of the handlers, with early
    returns; each handler is shown to perform exactly one step of the state
    machine in `Submission`. */
module Page {
  import opened Options
  import opened Properties
  import opened Admission
  import opened Payload
  import opened FormState
  import opened Submission

  class Orchestrator {
    /** The form, the React state and the refs of the page, and what it has posted. */
    var page: State

    constructor ()
      ensures page == Init
    {
      page := Init;
    }

    method Edit(e: FormState.Edit)
      modifies this
      ensures page == Step(old(page), UiEdit(e))
    {
      page := page.(ui := Apply(page.ui, e, page.isSubmitted || page.isSubmitting));
    }

    method ClearFallbackTimer()
      modifies this
      ensures page == ClearFallback(old(page))
    {
      if page.fallback.Some? {
        page := page.(armed := page.armed - {page.fallback.value});
        page := page.(fallback := None);
      }
    }

    method SubmitZap2Once()
      modifies this
      ensures page == Submission.SubmitZap2Once(old(page))
    {
      if page.zap2Submitted {
        return;
      }
      page := page.(zap2Submitted := true);
      page := page.(sent2 := page.sent2 + [page.form2]);
    }

    method OnSubmit(files: Option<seq<FileInput>>, heardAbout: string, heardAboutOther: string,
                    uuid: string, now: string)
      modifies this
      ensures page == Step(old(page), Submit(files, heardAbout, heardAboutOther, uuid, now))
    {
      if page.ui.loan.None? {
        page := page.(status := NoLoanMessage);
        return;
      }
      var fileCheck := ValidateZap2Files(files);
      if fileCheck.Rejected? {
        page := page.(status := Message(fileCheck.violation));
        return;
      }
      if page.submitted || page.isSubmitting {
        return;
      }
      Commit(page.ui.loan.value, heardAbout, heardAboutOther, uuid, now);
    }

    method Commit(code: LoanCode, heardAbout: string, heardAboutOther: string, uuid: string, now: string)
      modifies this
      ensures page == Submission.Commit(old(page), code, heardAbout, heardAboutOther, uuid, now)
    {
      var before := page;
      page := page.(submitted := true, isSubmitting := true);
      var lead := LeadPayload(code, page.ui.hasMulti, page.ui.properties, heardAbout, heardAboutOther, uuid, now);
      page := page.(leadId := lead.leadId, createdAt := now);
      page := page.(form2 := FilePayload(code, uuid));
      page := page.(status := SubmittingMessage);
      page := page.(zap2Submitted := false);
      ClearFallbackTimer();
      assert page.armed == ClearFallback(before).armed;
      page := page.(sent1 := page.sent1 + [lead]);
      var h := page.nextTimer;
      page := page.(armed := page.armed + {h}, fallback := Some(h), nextTimer := h + 1);
    }

    method OnLoad1()
      modifies this
      ensures page == Step(old(page), Phase1Loaded)
    {
      SubmitZap2Once();
    }

    method OnFallbackTimer(h: nat)
      modifies this
      ensures page == Step(old(page), TimerFired(h))
    {
      if h !in page.armed {
        return;
      }
      page := page.(armed := page.armed - {h});
      SubmitZap2Once();
    }

    method OnLoad2()
      modifies this
      ensures page == Step(old(page), Phase2Loaded)
    {
      page := page.(isSubmitting := false, isSubmitted := true);
      page := page.(status := DoneMessage);
      ClearFallbackTimer();
    }
  }
}
