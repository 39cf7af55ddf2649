/** The form's own state (the chosen loan type, the multiple-properties answer and
    the list of properties) and the edits the page makes to it: `onLoanChange`, the
    multiple-properties toggle, and the add, remove and field-edit controls. A
    control the page hides or disables is an edit that changes nothing. */
module FormState {
  import opened Options
  import opened Text
  import opened Properties
  import opened Payload

  datatype Ui = Ui(loan: Option<LoanCode>, hasMulti: bool, properties: seq<Property>)

  /** The state of a freshly loaded page. */
  const Start: Ui := Ui(None, false, [])

  datatype Edit =
    | LoanChanged(value: string)
    | MultiChosen(yes: bool, uuid1: string, uuid2: string)
    | Added(uuid: string)
    | Removed(idx: int)
    | Updated(idx: int, key: PropertyKey, val: string)

  /** `showMultiToggle`: the toggle is shown only for a loan type that supports
      several properties. */
  predicate ShowMultiToggle(ui: Ui)
  {
    ui.loan.Some? && MultiSupported(ui.loan.value)
  }

  /** The property cards are rendered when a loan type is chosen and the answer is yes. */
  predicate ShowProperties(ui: Ui)
  {
    ui.loan.Some? && ui.hasMulti
  }

  /** What the page keeps true of its state: a yes answer only for a loan type that
      supports it, no properties behind a no answer, and no property holding a value
      for a field its loan type does not offer. */
  predicate UiInv(ui: Ui)
  {
    (ui.hasMulti ==> ShowMultiToggle(ui))
    && (!ui.hasMulti ==> ui.properties == [])
    && (forall i, k :: 0 <= i < |ui.properties| && Value(ui.properties[i], k) != "" ==> k in PropertyFieldList(ui.loan))
  }

  /** One edit. `locked` is `isSubmitted || isSubmitting`: it disables the loan-type
      menu, the toggle and the add and remove buttons, but not the field inputs. */
  function Apply(ui: Ui, e: Edit, locked: bool): (r: Ui)
    ensures UiInv(ui) ==> UiInv(r)
    ensures locked && !e.Updated? ==> r == ui
    ensures r.loan != ui.loan ==> e.LoanChanged? && r.properties == [] && !r.hasMulti
  {
    match e
    case LoanChanged(value) =>
      if locked then ui else Ui(FindLoan(value), false, [])
    case MultiChosen(yes, u1, u2) =>
      if locked || !ShowMultiToggle(ui) then ui
      else
        var r := Ui(ui.loan, yes, SetMulti(yes, ui.properties, u1, u2));
        assert forall i, k :: 0 <= i < |r.properties| ==> Value(r.properties[i], k) == "" || r.properties[i] == ui.properties[i];
        r
    case Added(uuid) =>
      if locked || !ShowProperties(ui) then ui
      else
        var r := ui.(properties := AddProperty(ui.properties, uuid));
        assert forall i :: 0 <= i < |ui.properties| ==> r.properties[i] == ui.properties[i];
        r
    case Removed(idx) =>
      if locked || !ShowProperties(ui) then ui
      else
        RemoveIsSlice(ui.properties, idx);
        var r := ui.(properties := RemoveProperty(ui.properties, idx));
        assert forall i :: 0 <= i < |r.properties| ==>
          r.properties[i] == ui.properties[if 0 <= idx <= i then i + 1 else i];
        r
    case Updated(idx, key, val) =>
      if !ShowProperties(ui) || !(0 <= idx < |ui.properties|) || key !in PropertyFieldList(ui.loan) then ui
      else ui.(properties := UpdateProperty(ui.properties, idx, key, val))
  }

  /** On any page state the page can reach, the `multiActive` gate is the answer to
      the toggle: a yes is never dropped for want of support. */
  lemma GateIsAnswer(ui: Ui)
    requires UiInv(ui) && ui.loan.Some?
    ensures MultiActive(ui.hasMulti, ui.loan.value) <==> ui.hasMulti
  {
  }

  /** On any page state the page can reach, `properties_count` is the number of
      properties the page holds: the gate never hides a property from the count. */
  lemma CountIsListLength(ui: Ui, heardAbout: string, heardAboutOther: string, uuid: string, createdAt: string)
    requires UiInv(ui) && ui.loan.Some?
    ensures LeadPayload(ui.loan.value, ui.hasMulti, ui.properties, heardAbout, heardAboutOther, uuid, createdAt).propertiesCount
            == NatToString(|ui.properties|)
  {
  }

  /** The vacancy field is printed by the text block but offered by no form, so on
      any reachable page state no property has it. */
  lemma VacancyNeverSet(ui: Ui, i: nat)
    requires UiInv(ui) && i < |ui.properties|
    ensures Value(ui.properties[i], VacancyPct) == ""
  {
    if Value(ui.properties[i], VacancyPct) != "" {
      FieldListMembers(ui.loan, VacancyPct);
      assert false;
    }
  }

  /** Choosing another loan type always starts over: no yes answer, no properties. */
  lemma LoanChangeResets(ui: Ui, value: string)
    ensures var r := Apply(ui, LoanChanged(value), false);
            r.loan == FindLoan(value) && !r.hasMulti && r.properties == []
  {
  }
}
