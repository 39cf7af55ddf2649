/** The hidden fields `onSubmit` writes into the two forms: the lead fields of the
    text submission (phase 1) and the fields that tag the file upload (phase 2),
    including the `multiActive` gate on the properties payload. */
module Payload {
  import opened Options
  import opened Text
  import opened Properties
  import opened TextBlock
  import opened JsCodec
  import Utf8
  import Base64

  const LeadIdPrefix: string := "lead_"
  /** The value of the `status` field of every lead. */
  const AwaitingApproval: string := "awaiting_owner_approval"
  const OwnerEmail: string := "jashton@ashtonaisolutions.com"

  /** The hidden fields of the text form, one per field name
      (`lead_id`, `created_at`, `loan_type`, `loan_type_label`, `status`,
      `owner_email`, `heard_about`, `heard_about_other`, `has_multiple_properties`,
      `properties_count`, `properties_json`). */
  datatype LeadFields = LeadFields(
    leadId: string, createdAt: string, loanType: string, loanTypeLabel: string,
    status: string, ownerEmail: string, heardAbout: string, heardAboutOther: string,
    hasMultipleProperties: string, propertiesCount: string, propertiesJson: string)

  /** The hidden fields of the upload form (`lead_id`, `loan_type`, `loan_type_label`). */
  datatype FileFields = FileFields(leadId: string, loanType: string, loanTypeLabel: string)

  /** `hasMulti && MULTI_SUPPORTED.includes(loan.code)`. */
  predicate MultiActive(hasMulti: bool, code: LoanCode)
  {
    hasMulti && MultiSupported(code)
  }

  /** `String(b)`. */
  function BoolText(b: bool): (r: string)
    ensures r == "true" <==> b
  {
    if b then "true" else "false"
  }

  /** The properties text that is base64-encoded into `properties_json`: the text
      block when the gate is open, nothing otherwise. */
  function PropertiesText(hasMulti: bool, code: LoanCode, props: seq<Property>): (r: string)
    ensures r == "" <==> !MultiActive(hasMulti, code) || |props| == 0
  {
    if MultiActive(hasMulti, code) then BuildPropertiesTextBlock(code, props) else ""
  }

  /** The lead fields of one submission, for a chosen loan type, the form's
      properties, the two lead-source inputs, a fresh identifier and the clock. */
  function LeadPayload(code: LoanCode, hasMulti: bool, props: seq<Property>,
                       heardAbout: string, heardAboutOther: string,
                       uuid: string, createdAt: string): (r: LeadFields)
    ensures StartsWith(r.leadId, LeadIdPrefix) && Strip(r.leadId, LeadIdPrefix) == uuid
    ensures FindLoan(r.loanType) == Some(code) && r.loanTypeLabel == LoanLabel(code)
    ensures r.status == AwaitingApproval && r.ownerEmail == OwnerEmail
    ensures r.createdAt == createdAt
  {
    FindLoanIff(CodeName(code), code);
    assert (LeadIdPrefix + uuid)[..|LeadIdPrefix|] == LeadIdPrefix;
    var active := MultiActive(hasMulti, code);
    LeadFields(
      LeadIdPrefix + uuid, createdAt, CodeName(code), LoanLabel(code),
      AwaitingApproval, OwnerEmail, heardAbout, heardAboutOther,
      BoolText(active),
      NatToString(if active then |props| else 0),
      ToBase64Utf8(PropertiesText(hasMulti, code, props)))
  }

  /** The upload form's fields for the same submission. */
  function FilePayload(code: LoanCode, uuid: string): (r: FileFields)
    ensures StartsWith(r.leadId, LeadIdPrefix) && Strip(r.leadId, LeadIdPrefix) == uuid
    ensures FindLoan(r.loanType) == Some(code) && r.loanTypeLabel == LoanLabel(code)
  {
    FindLoanIff(CodeName(code), code);
    assert (LeadIdPrefix + uuid)[..|LeadIdPrefix|] == LeadIdPrefix;
    FileFields(LeadIdPrefix + uuid, CodeName(code), LoanLabel(code))
  }

  /** The upload is filed under the lead it belongs to: both forms carry the same
      lead id and loan type. */
  lemma PayloadsAgree(code: LoanCode, hasMulti: bool, props: seq<Property>,
                      heardAbout: string, heardAboutOther: string, uuid: string, createdAt: string)
    ensures var l := LeadPayload(code, hasMulti, props, heardAbout, heardAboutOther, uuid, createdAt);
            var f := FilePayload(code, uuid);
            l.leadId == f.leadId && l.loanType == f.loanType && l.loanTypeLabel == f.loanTypeLabel
  {
  }

  /** With the gate closed (no multiple properties, or a loan type that does not
      support them) the properties payload is neutral: "false", "0" and the empty
      text, whatever properties the form still holds. */
  lemma NeutralPayload(code: LoanCode, hasMulti: bool, props: seq<Property>,
                       heardAbout: string, heardAboutOther: string, uuid: string, createdAt: string)
    requires !MultiActive(hasMulti, code)
    ensures var l := LeadPayload(code, hasMulti, props, heardAbout, heardAboutOther, uuid, createdAt);
            l.hasMultipleProperties == "false" && l.propertiesCount == "0" && l.propertiesJson == ""
  {
    EmptyPayload();
  }

  /** The base64 payload is empty exactly when the text it carries is. */
  lemma PayloadEmptyIff(text: string)
    ensures ToBase64Utf8(text) == "" <==> text == ""
  {
    if text == "" {
      EmptyPayload();
    } else {
      assert |Utf8.Encode(text)| >= 1;
      assert |Base64.Encode(Utf8.Encode(text))| >= 4;
    }
  }

  /** `properties_json` is empty exactly when the gate is closed or there are no
      properties. */
  lemma PropertiesJsonEmptyIff(code: LoanCode, hasMulti: bool, props: seq<Property>,
                               heardAbout: string, heardAboutOther: string, uuid: string, createdAt: string)
    ensures LeadPayload(code, hasMulti, props, heardAbout, heardAboutOther, uuid, createdAt).propertiesJson == ""
            <==> !MultiActive(hasMulti, code) || |props| == 0
  {
    PayloadEmptyIff(PropertiesText(hasMulti, code, props));
  }

  /** With the gate open, the receiver recovers the submission's properties from
      the fields: `properties_count` reads back as their number, and decoding
      `properties_json` (base64, then UTF-8, then the text block) gives every
      property's printed fields, in order, provided no value spans lines. */
  lemma PayloadCarriesProperties(code: LoanCode, hasMulti: bool, props: seq<Property>,
                                 heardAbout: string, heardAboutOther: string, uuid: string, createdAt: string)
    requires MultiActive(hasMulti, code)
    requires SingleLineValues(props)
    ensures var l := LeadPayload(code, hasMulti, props, heardAbout, heardAboutOther, uuid, createdAt);
            l.hasMultipleProperties == "true"
            && ParseDigits(l.propertiesCount) == |props|
            && FromBase64Utf8(l.propertiesJson).Some?
            && DecodePropertiesTextBlock(FromBase64Utf8(l.propertiesJson).value) == Some(Visible(code, props))
  {
    var text := BuildPropertiesTextBlock(code, props);
    PayloadRoundTrip(text);
    RoundTrip(code, props);
    NatToStringRoundTrip(|props|);
  }
}
