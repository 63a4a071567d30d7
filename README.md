# DocumentUpload — a verified model of the upload widget

`DocumentUpload` is a React component. It accepts one file, picked or dropped. It validates
the file against a size bound (4.5 MiB = 4,718,592 bytes, inclusive) and a four-entry MIME
allow-list, in that order. It then shows either a preview row (a thumbnail for image types,
a document glyph otherwise, plus the file name) or an error message. The file can be removed,
and Submit is blocked while no file is shown.

The model has three modules:

- `Validation` (validation.dfy) holds the constants, the candidate file record, the two
  rejection reasons with their fixed messages, and the decision `Validate`.
- `Selection` (selection.dfy) holds the component's four state fields as a value
  (`errorMessage`, `filePreviewVisible`, `filePreviewContent`, `fileName`). It defines each
  handler as a function on that value and the invariant those handlers keep. It also defines
  the three-way view of the fields (empty, file selected, file rejected). Lemmas cover single
  handler calls and arbitrary sequences of user actions.
- `Widget` (widget.dfy) holds the class `DocumentUpload`, whose fields are the four state
  variables. Its handlers assign the fields one at a time, as the component does, and each is
  proved to produce exactly the state the matching `Selection` function describes. The hidden
  `<input type="file">` is a `FileInput` object the component holds a handle to; removing a
  file clears its value.

The preview content is a tag: `NoPreview`, `Image(url)` or `Generic`. The object URL the
browser would create for an image is an opaque `ObjectUrl` passed to `HandleFiles`. The
`alert` calls of the submit handler become a returned `SubmitOutcome` (`Blocked` or
`Submitted`), and each outcome carries its notice text. React's state setters are modelled as
plain assignments in program order.

Two behaviours of the code are worth stating:

- The remove handler never writes `errorMessage`. Its Delete control is rendered only while a
  preview is visible, and then the error is empty, so every removal a user can make returns
  the widget to its mount state (`Selection.RemoveFileEffect`). Called while a rejection is
  shown, the handler would keep the reason (`Selection.PhaseTransitions`).
- Object URLs are never revoked, neither when superseded nor on removal.

## Model

| member | source | states |
|---|---|---|
| `Validation.Validate` | my-react-app/src/components/DocumentUpload.jsx:92-102 | a file larger than 4,718,592 bytes is rejected as oversize whatever its type; a file within the bound with a type outside the allow-list is rejected as unsupported; a file is accepted exactly when it is within the bound and its type is on the list |
| `Validation.Rejection.Message` | my-react-app/src/components/DocumentUpload.jsx:93-99 | each rejection has its own fixed, non-empty message, and the two messages identify the two reasons |
| `Validation.BoundaryFilesAccepted` | my-react-app/src/components/DocumentUpload.jsx:4-5 | sizes 0 and exactly 4,718,592 pass for every allowed type; one byte more is oversize |
| `Validation.AcceptedImageIffNotPdf` | my-react-app/src/components/DocumentUpload.jsx:104-110 | among accepted files, the type starts with "image/" exactly when it is not application/pdf, i.e. exactly for image/jpeg, image/jpg and image/png |
| `Selection.GeneratePreview` | my-react-app/src/components/DocumentUpload.jsx:104-110 | an accepted file always gets a preview; it is a thumbnail exactly when the type starts with "image/", and the thumbnail shows the object URL created for that file |
| `Selection.ResetFilePreview` | my-react-app/src/components/DocumentUpload.jsx:112-116 | the preview is hidden and the name and preview content are cleared; the error message is unchanged |
| `Selection.HandleFiles` | my-react-app/src/components/DocumentUpload.jsx:78-90 | an empty list leaves the state unchanged; otherwise a preview is visible, and the error is empty, exactly when the first file is accepted (details in `AcceptFirstFile`, `RejectFirstFile`, `OnlyFirstFileMatters`) |
| `Selection.HandleRemoveFile` | my-react-app/src/components/DocumentUpload.jsx:118-121 | the preview is hidden and the name and preview content are cleared; the error message is unchanged (idempotence and the return to the mount state in `RemoveFileEffect`) |
| `Selection.SubmitOutcome.Notice` | my-react-app/src/components/DocumentUpload.jsx:124-129 | each outcome has a non-empty notice, and the "Please select a document for upload." notice is given exactly when submission is blocked |
| `Selection.HandleSubmit` | my-react-app/src/components/DocumentUpload.jsx:123-130 | submit is blocked exactly when no preview is visible |
| `Selection.InitialValid` | my-react-app/src/components/DocumentUpload.jsx:73-76 | the mount state satisfies the invariant, and submitting there is blocked |
| `Selection.UploadScenarios` | my-react-app/src/components/DocumentUpload.jsx:78-110 | from the mount state, a 2 MiB PNG named id.png is shown with a thumbnail, a 5 MiB PDF gets the size message, a 1 MiB text/plain file gets the format message, and a small PDF gets the glyph |
| `Selection.AcceptFirstFile` | my-react-app/src/components/DocumentUpload.jsx:80-85 | when the first file is accepted, the preview becomes visible, the name is that file's name, the error is cleared, and the preview is a thumbnail iff the type starts with "image/" and the glyph otherwise |
| `Selection.RejectFirstFile` | my-react-app/src/components/DocumentUpload.jsx:86-116 | when the first file is rejected, the preview is hidden, the name and preview are cleared, and the error holds the rejection's message |
| `Selection.OnlyFirstFileMatters` | my-react-app/src/components/DocumentUpload.jsx:79-80 | files after the first never affect the outcome, and an empty list leaves every field unchanged |
| `Selection.RemoveFileEffect` | my-react-app/src/components/DocumentUpload.jsx:112-121 | removing twice is the same as removing once, and removing while a file is shown (the only time the Delete control exists) returns the widget to its mount state |
| `Selection.HandlersPreserveInv` | my-react-app/src/components/DocumentUpload.jsx:78-121 | picking files and removing a file both keep the invariant: visible implies no error and a real preview; hidden implies no name and no preview; the error is empty or one of the two messages |
| `Selection.PhaseRoundTrip` | my-react-app/src/components/DocumentUpload.jsx:73-76 | under the invariant, the four fields and the three-way view (empty / selected / rejected) determine each other, so the widget is always in exactly one phase |
| `Selection.PhaseTransitions` | my-react-app/src/components/DocumentUpload.jsx:78-121 | an accepted file moves any phase to Selected with that file; a rejection moves any phase to Rejected with its reason; removal turns Selected into Empty and keeps Rejected |
| `Selection.RunPreservesInv` | my-react-app/src/components/DocumentUpload.jsx:73-130 | after any sequence of picks, removals and submits from a state satisfying the invariant, the invariant still holds |
| `Selection.RunShowsLastAccepted` | my-react-app/src/components/DocumentUpload.jsx:78-121 | after any sequence of actions, a file is shown exactly when the last pick or removal was a pick whose first file was accepted, and then its name is shown with no error; without such an action the state is unchanged |
| `Widget.FileInput.constructor` | my-react-app/src/components/DocumentUpload.jsx:165-171 | the hidden input starts with no retained value |
| `Widget.DocumentUpload.constructor` | my-react-app/src/components/DocumentUpload.jsx:73-76 | the component mounts with no error, no visible preview, no preview content and no name, which satisfies the invariant |
| `Widget.DocumentUpload.ValidateFile` | my-react-app/src/components/DocumentUpload.jsx:92-102 | returns true exactly when `Validate` accepts; on a rejection it writes the reason's message to the error field, and otherwise leaves the field alone |
| `Widget.DocumentUpload.ResetFilePreview` | my-react-app/src/components/DocumentUpload.jsx:112-116 | hides the preview and clears name and preview content, leaving the error message unchanged |
| `Widget.DocumentUpload.HandleFiles` | my-react-app/src/components/DocumentUpload.jsx:78-90 | keeps the invariant and leaves exactly the state `Selection.HandleFiles` gives for the old state |
| `Widget.DocumentUpload.HandleRemoveFile` | my-react-app/src/components/DocumentUpload.jsx:118-121 | keeps the invariant, leaves exactly the state `Selection.HandleRemoveFile` gives, and clears the input control's value |
| `Widget.DocumentUpload.HandleSubmit` | my-react-app/src/components/DocumentUpload.jsx:123-130 | changes nothing; reports Blocked with "Please select a document for upload." exactly when no preview is visible, and Submitted with "Documents submitted successfully!" otherwise |

## Left out

- Styling (the styled-components definitions) and the JSX tree are presentation only. In the
  code, after a rejection the drop prompt and the error text are shown together, because the
  prompt depends only on `filePreviewVisible` and the error only on `errorMessage`.
- The drag-over and drag-leave handlers only stop the browser's default behaviour and never
  touch state. The drop and change handlers both call `handleFiles`, which is modelled.
- Clicking the drop zone calls `click()` on the hidden input to open the file picker. This is
  a browser action with no state change, so it is not modelled. The Delete control sits inside
  the drop zone and does not stop the click from propagating, so a removal is followed by the
  picker opening; that too changes no state.
- The sequences of actions in `Selection.Run` allow a removal in every state, although the
  Delete control exists only while a preview is visible. The lemmas over sequences therefore
  cover more sequences than a user can produce.
- The document-type dropdown has no logic.
- `URL.createObjectURL` is a browser call. Its result is the `url` parameter of
  `HandleFiles`. The code never revokes these URLs, so release is not modelled.
- `alert` is a browser call. It is replaced by the returned `SubmitOutcome`. What submission
  would do beyond the notice is empty in the code.
- React batches state updates and re-renders. Updates are modelled as immediate, in program
  order, which gives the same final state for every handler here.
- `maxSize` is computed in floating point as 4.5 × 1024 × 1024. The product is exactly
  4,718,592, so the model uses that integer, with sizes as natural numbers.
