# Alpine Commercial Funding intake page, modelled in Dafny

The page (`src/App.tsx`) is a single React component through which a borrower
describes a loan request and uploads supporting documents. It posts two HTML forms
into hidden iframes:

- the *lead* form, with the answers and a set of hidden fields;
- the *upload* form, with file inputs and three hidden fields that tie it to the lead. Its file inputs are disabled while the page is locked, and every upload goes out while it is locked, so the post carries the hidden fields but no file (`Submission.UploadWhileLocked`).

This project models the logic behind those two posts:

- **File admission.** `hasAllowedExtension`, `isAllowedFile` and `validateZap2Files`: type policy, per-file ceiling and aggregate ceiling, with the exact rejection messages (`admission.dfy`).
- **Loan types and property fields.** `LOAN_TYPES`, `MULTI_SUPPORTED`, `propertyFieldList`, the category filter of `PropertyField`, and the property edits `addProperty`, `removeProperty`, `updateProperty` and the multiple-properties toggle (`properties.dfy`).
- **The properties text block.** `buildPropertiesTextBlock`, with a reader for it and a round-trip proof (`textblock.dfy`).
- **The base64 transport.** `toBase64Utf8`, i.e. `btoa(unescape(encodeURIComponent(s)))`, proved equal to base64 (section 4 of RFC 4648) of UTF-8 (RFC 3629) and lossless (`jscodec.dfy`, `utf8.dfy`, `base64.dfy`).
- **The hidden fields.** The fields `onSubmit` writes, including the `multiActive` gate on `properties_json` and `properties_count` (`payload.dfy`).
- **The page state.** The page's form state and the edits the controls make, with the disabled and hidden controls as no-ops (`form.dfy`).
- **The submission orchestrator.** `onSubmit`, `submitZap2Once`, the two iframe `load` handlers and the 1200 ms fallback timer, as a state machine over events with an invariant for every feasible run (`submission.dfy`). The same machine is also written as a class whose methods update the page state statement by statement (`page.dfy`).

Support modules: `options.dfy` (`Option`), `bytes.dfy` (octets) and `text.dfy` (`join`/`split` on newlines, `startsWith`, ASCII lower-casing, `String(n)`).

Conventions of the model:

- Strings are sequences of Unicode scalar values, i.e. well-formed text.
- `uuid()` and `new Date().toISOString()` are parameters of the events that use them.
- A file is a name, a MIME type and a size in bytes.
- An upload form is a list of file inputs, each a list of files. `None` stands for the form not being rendered.

## Model

| member | source | states |
|---|---|---|
| Admission.AdmissionRule | src/App.tsx:272-277 | a file is admitted exactly when its MIME type is one of the thirteen listed types, or starts with `image/` in any letter case, or its name ends in a listed extension; the octet-stream branch admits nothing more |
| Admission.ExtensionRule | src/App.tsx:268-271 | the extension test is case-insensitive: a name passes exactly when some suffix of it, lower-cased, is one of the fifteen allowed extensions |
| Admission.CheckFile | src/App.tsx:287-297 | one file against the running total, checked in source order: an unsupported type is reported whatever its size; an admitted file over 9.5 MiB is reported as too large whatever the total; the total is reported only for an admitted file within 9.5 MiB that takes the total over 30 MiB; otherwise no violation |
| Admission.AcceptedIffNoViolation | src/App.tsx:278-301 | the upload form is accepted exactly when every file, taken in order across the inputs, passes against the sizes of the files before it |
| Admission.FirstViolationWins | src/App.tsx:284-299 | when files before the k-th all pass and the k-th fails, the form is rejected with the k-th file's violation |
| Admission.AcceptedIff | src/App.tsx:278-301 | acceptance in closed form: every file admitted and within the per-file ceiling, and the combined size within 30 MiB |
| Admission.MessageInjective | src/App.tsx:288-297 | the three rejection messages never coincide for different violations or different file names |
| Admission.ValidateZap2FilesLoop | src/App.tsx:278-301 | the nested loop with early returns computes the same verdict as the recursive definition |
| Admission.ExampleScanner | src/App.tsx:272-277 | a scanner's `SCAN.TIF` sent as `application/octet-stream` is admitted through its upper-case extension |
| Admission.ExampleMalware | src/App.tsx:288-290 | `malware.exe` of an executable type is rejected as unsupported, under its own name |
| Admission.ExampleSizes | src/App.tsx:281-293 | a 10 MiB file is too large; a 9 MiB file and a file of exactly 9.5 MiB are accepted |
| Admission.ExampleAggregate | src/App.tsx:284-297 | three 11 MiB files are refused for the first file's size; four 9 MiB files spread over three inputs are refused for the total |
| Properties.FindLoanIff | src/App.tsx:402-405 | the loan-type menu value finds a loan type exactly when it is that type's code |
| Properties.FieldListMembers | src/App.tsx:115-126 | a field is offered exactly when it is a general field other than `vacancy_pct`, a DSCR field for a DSCR loan, or a bridge field for a bridge loan |
| Properties.FieldListDistinct | src/App.tsx:115-126 | no field is offered twice |
| Properties.ShownFieldsAreFieldList | src/App.tsx:351-358 | the category filter of `PropertyField` hides nothing from the field list; DSCR-only and bridge-only fields are exactly those whose names start with `dscr_` and `bridge_` |
| Properties.RemoveIsSlice | src/App.tsx:411 | removing drops exactly the entry at the index and keeps the others in order; an index outside the list removes nothing |
| Properties.RemoveUndoesAdd | src/App.tsx:410-411 | removing the property just added restores the list |
| Properties.UpdateProperty | src/App.tsx:412-414 | an edit sets one field of one property, keeps that property's id, and changes no other field or property |
| Properties.UpdateLastWins | src/App.tsx:412-414 | a later edit of the same field overrides an earlier one |
| Properties.UpdateCommutes | src/App.tsx:412-414 | edits of different fields or properties commute |
| Properties.SetMulti | src/App.tsx:565-568 | answering yes on an empty list starts it with two blank properties; yes on a non-empty list keeps it; no clears it |
| Properties.SetMultiIdempotent | src/App.tsx:565-568 | giving the same answer twice changes nothing the second time |
| Properties.EditsKeepIds | src/App.tsx:408-414 | every edit keeps every property id prefixed with `prop_` |
| TextBlock.BuildPropertiesTextBlock | src/App.tsx:210-249 | the block is empty exactly when there are no properties; otherwise it opens with the header line and ends with a newline |
| TextBlock.PrintOrder | src/App.tsx:236-245 | a DSCR field is printed only for a DSCR loan and a bridge field only for a bridge loan |
| TextBlock.PrintOrderAgrees | src/App.tsx:115-125 | for every loan type, the block prints exactly the fields the form offers for it (`propertyFieldList`), plus `vacancy_pct`; so each reserved trio is printed for its own loan type |
| TextBlock.LabelsFitLabel | src/App.tsx:218-245 | no printed label holds a colon or a line break, and no two fields share a label |
| TextBlock.RoundTrip | src/App.tsx:210-249 | reading the block back gives, property by property, every field the loan type prints that the property has filled in, provided no value spans lines |
| TextBlock.NewlineCollision | src/App.tsx:226-243 | a renovation scope holding a line break and a timeline line is sent as the very text of a property with a real timeline, so the two cannot be told apart |
| JsCodec.ToBase64Utf8 | src/App.tsx:251-253 | for well-formed text, the `encodeURIComponent`, `unescape`, `btoa` chain never throws and yields base64 of the UTF-8 bytes |
| JsCodec.PayloadRoundTrip | src/App.tsx:251-253 | base64-decoding and then UTF-8-decoding the payload gives the original text back |
| JsCodec.PayloadShape | src/App.tsx:251-253 | the payload has 4 * ceil(n / 3) characters for n UTF-8 bytes, all from the base64 alphabet or `=` |
| Utf8.RoundTrip | src/App.tsx:251-253 | UTF-8 decoding inverts UTF-8 encoding |
| Base64.RoundTrip | src/App.tsx:251-253 | base64 decoding inverts base64 encoding |
| Payload.LeadPayload | src/App.tsx:441-465 | the lead id is `lead_` followed by the fresh identifier; the loan type reads back as the chosen loan; status and owner e-mail are the fixed values |
| Payload.PayloadsAgree | src/App.tsx:450-470 | the lead form and the upload form carry the same lead id, loan type and label |
| Payload.NeutralPayload | src/App.tsx:441-465 | with the gate closed the properties fields are `false`, `0` and empty, whatever properties the form holds |
| Payload.PropertiesJsonEmptyIff | src/App.tsx:446-465 | `properties_json` is empty exactly when the gate is closed or there are no properties |
| Payload.PayloadCarriesProperties | src/App.tsx:441-465 | with the gate open, `properties_count` reads back as the number of properties, and `properties_json` decodes to their printed fields |
| FormState.Apply | src/App.tsx:400-414 | every edit keeps the page state consistent; a disabled control changes nothing; changing the loan type clears the answer and the properties |
| FormState.GateIsAnswer | src/App.tsx:441 | on every reachable page state the `multiActive` gate equals the yes or no answer |
| FormState.CountIsListLength | src/App.tsx:462-463 | on every reachable page state `properties_count` is the number of properties the page holds |
| FormState.VacancyNeverSet | src/App.tsx:115-126 | no reachable property holds a vacancy value, because no form offers that field |
| FormState.LoanChangeResets | src/App.tsx:402-407 | choosing a loan type selects it and starts over with no properties |
| Submission.OnSubmit | src/App.tsx:425-506 | a press posts the lead only with a loan type chosen, files accepted and no submission made; the lead posted is the payload of the current form |
| Submission.SubmitZap2Once | src/App.tsx:416-423 | the upload is posted the first time only |
| Submission.Step | src/App.tsx:416-519 | the two post logs only grow, by at most one entry per event |
| Submission.StepKeepsInv | src/App.tsx:416-519 | every feasible event keeps the orchestrator invariant |
| Submission.OneLeadOneUpload | src/App.tsx:425-519 | in any feasible run the page posts at most one lead and at most one upload, and the upload carries the lead's id and loan type |
| Submission.SendNeedsChecks | src/App.tsx:427-438 | a press posts the lead exactly when a loan type is chosen, the files pass and nothing was submitted before |
| Submission.RepeatIgnored | src/App.tsx:436-437 | a repeated press with acceptable files changes nothing |
| Submission.RejectionOnlyReports | src/App.tsx:427-434 | a press without a loan type or with rejected files changes only the status line, to the matching message |
| Submission.FallbackDelivers | src/App.tsx:504-505 | once the lead is out, the fallback timer firing posts the upload even if iframe 1 never loads |
| Submission.LoadDelivers | src/App.tsx:513 | once the lead is out, iframe 1 loading posts the upload |
| Submission.CompletionSettles | src/App.tsx:514-519 | iframe 2 loading marks the submission done, leaves no timer to fire and posts nothing |
| Submission.NoResubmitAfterCompletion | src/App.tsx:669-685 | after completion the button is no longer rendered, so no press can happen; and since `submittedRef` stays set, a press would post nothing anyway |
| Submission.CompletionIsFinal | src/App.tsx:514-519 | once iframe 2 has loaded, every event the page can still see leaves it complete, showing the completion message, with nothing further posted |
| Submission.CompletedRunIsFinal | src/App.tsx:669-685 | the same over any feasible run that starts from a completed page: the completion text stays and the two posts are all there is |
| Submission.UploadWhileLocked | src/App.tsx:416-423 | a step that posts the upload starts and ends with the page locked (`isSubmitting` or `isSubmitted`), the state in which the file inputs are disabled |
| Submission.EarlyLoadUploadsTwice | src/App.tsx:416-423 | were iframe 1 to report a load before the lead is posted, the upload would go out twice |
| Page.Orchestrator.Edit | src/App.tsx:402-414 | running a control's handler on the page state performs exactly that edit's step of the machine |
| Page.Orchestrator.ClearFallbackTimer | src/App.tsx:499 | clearing a pending fallback timer disarms its handle and forgets it, and does nothing when none is pending |
| Page.Orchestrator.SubmitZap2Once | src/App.tsx:416-423 | the once-only upload, written with its early return, performs exactly the machine's upload step |
| Page.Orchestrator.OnSubmit | src/App.tsx:425-437 | the press handler, with its three guards and early returns in source order, performs exactly the press step |
| Page.Orchestrator.Commit | src/App.tsx:438-506 | the statements after the guards (ids, hidden fields, status, timer reset, lead post, fallback timer) leave the page where the press step does |
| Page.Orchestrator.OnLoad1 | src/App.tsx:513 | the iframe 1 load handler performs exactly the machine's load step |
| Page.Orchestrator.OnFallbackTimer | src/App.tsx:505 | a fired timer acts only while its handle is armed, and then performs the upload step |
| Page.Orchestrator.OnLoad2 | src/App.tsx:514-519 | the iframe 2 load handler performs exactly the completion step |

## Left out

- Rendering, styling, the theme (`src/theme.ts`) and the shared types (`src/types.ts`) are not part of this model. Neither are the document and field catalogs, nor `PrettyField`.
- The DOM plumbing is not modelled: `setOrReplaceHidden`, `captureFilesManifest`, the `files_manifest` field and `form.submit()`. A post is modelled as an entry in a log of sent field sets.
- The visible answers of the lead form are not modelled; only its hidden fields are.
- The files of the upload post are not modelled; only its hidden fields are. The upload is always posted while the page is locked (`Submission.UploadWhileLocked`). At that point the file inputs are disabled (`disabled={isSubmitted || isSubmitting}`), and the HTML form submission algorithm leaves disabled controls out. So the page as written sends the hidden fields and the `files_manifest` field, but no file.
- The querystring backup copies the same values into the forms' action URLs. It is not modelled, because it adds no decision.
- `uuid()` and `new Date().toISOString()` are not modelled; they are event parameters. `Math.random` and the clock do not appear.
- Real timers and the 1200 ms delay are not modelled. A fired timer is an event naming its handle, and only a handle still armed takes effect.
- React's asynchronous state updates are not modelled. `isSubmitting` is read as already set, which the guard makes harmless because `submittedRef` is set synchronously.
- A load of iframe 1 before any post, such as a blank initial load, is not modelled. `Submission.EarlyLoadUploadsTwice` shows what it would do.
- The upload form's hidden fields before the press are not tracked: the model holds the fields last written by `onSubmit`. React renders `loan_type` and `loan_type_label` from the current choice even before the press. In a feasible run no upload is posted before the press, so this only affects what `Submission.EarlyLoadUploadsTwice` shows for its first upload.
- A load of iframe 2 before the upload is posted is not modelled either. It would run `onLoad2` and show the completion text with nothing uploaded.
- The submit button's `disabled={isSubmitting}` is not modelled as a refusal, because a second click can arrive before React re-renders; `submittedRef` is what stops it. The button's removal once `isSubmitted` is set is modelled: no press happens after completion.
- Text holding a lone UTF-16 surrogate is not modelled, because a Dafny `char` is a scalar value. Such a property value, sent with the gate open, makes `encodeURIComponent` throw `URIError` inside `onSubmit`. That happens after `submittedRef` and `isSubmitting` are set and before anything is posted, so the page stays locked with nothing sent.
- Lower-casing is ASCII only. `toLowerCase` also folds non-ASCII letters, which can matter for a file name but never for the listed extensions.
- File sizes are unbounded naturals. `9.5 * 1024 * 1024` is exactly 9 961 472, so no floating point is involved.
- Properties.UpdateProperty: requires the index to be in range. The page only edits rendered properties, and `FormState.Apply` ignores any other index.
- TextBlock.BuildPropertiesTextBlock: takes a loan type rather than `LoanCode | ""`. It is only called once a loan type is chosen.
- The fallback message `"One or more files are invalid."` is not modelled. It is unreachable because every rejection carries a message.
- Three files of 11 MiB each are never rejected in aggregate: the per-file ceiling of 9.5 MiB rejects the first of them as too large (`Admission.ExampleAggregate`), and an aggregate rejection needs files that each pass, such as four of 9 MiB.
- Property inputs are never disabled. After completion their card is dimmed and ignores the pointer (`pointerEvents: "none"`), but an input can still be reached and edited from the keyboard. The model therefore accepts field edits in every state; they cannot change what was already posted.
