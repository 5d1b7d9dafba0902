# Employee credential enrollment, modelled in Dafny

This project models the enrollment core of the buskoguard admin client.
When a new employee is created, a five-step wizard runs in order:

1. it creates the user account;
2. it creates the employee record;
3. it writes a freshly generated identifier to a contactless card through an ACR122U reader on a serial port, then records the identifier;
4. it optionally samples the employee's face with the camera, derives a face identifier and records it;
5. it ends on a review.

Three more pieces are modelled:

- the department form;
- the login/logout token store;
- the shared constants (endpoint paths, step values and titles, sort options).

The model follows the JavaScript's own structure:

- **Pure code becomes functions with lemmas.** This covers frame construction and checksum, hexadecimal conversion, identifier derivation, form rules, date formatting and request building.
- **Code that updates objects becomes classes.** Their methods state the whole new state. This covers the NFC reader singleton, the face-recognition service, each wizard step's React state, the modal and the auth token store.
- **Loops become `while` loops with invariants.** There are three:
  - the serial read loop;
  - the hex-to-bytes loop over a `Uint8Array`;
  - the polling interval, modelled as a loop over its ticks.

The model treats external effects as follows:

- **Hardware, the browser and the server are inputs.** This covers the serial port, the camera, the face detector's answer on each tick, the random bytes, the server's replies, and `JSON.stringify`/`JSON.parse`.
- **Effects are logged.** Posted requests and the callbacks a step makes on the wizard (`onUpdate`, `onComplete`) go into sequence fields. The modal replays a callback with `Dispatch`.

Where the written design of this system and the code disagree, the model follows the code:

- **Sector authentication.** The design has authentication fail with an error when the card does not answer with the success marker. In `writeToCard` the authentication answer is read and ignored (`NfcService.NfcReader.WriteToCard`).
- **Success marker.** The design's marker is the two bytes `0x90 0x00`. `sendCommand` stops reading as soon as the second-to-last byte received is `0x90`, whatever the last byte is. `writeToCard` judges the write by that same single byte.
- **No timeout.** The design bounds every read with a timeout. `sendCommand` reads until the marker is seen or the stream ends, and has no timeout, so a card that answers without the marker on a port that stays open leaves it waiting for ever (see Findings).
- **Frame contents.** The design builds a frame from a command code and a payload. `createAPDU` ignores its command argument, so both frames `writeToCard` sends are the same six bytes `FF CA 00 00 00 35`. The card data is never transmitted. `writeToCard`'s boolean verdict is then ignored by the NFC step.
- **Releasing resources.** The design releases the serial link and the camera on every exit path. The NFC step never disconnects the reader. The face step stops the camera only after a successful save, and on unmount. Its error paths keep the stream.
- **The polling guard.** The design counts samples while scanning and cancels the loop on error. As written, the interval's guard compares a stale `status` that is never `'scanning'`, so it never passes (see Findings).

## Model

| member | source | states |
|---|---|---|
| Apdu.ChecksumAppend | src/services/nfc.service.js:51-53 | the XOR checksum of a concatenation is the XOR of the two parts' checksums |
| Apdu.ChecksumBase | src/services/nfc.service.js:51-53 | the checksum of no bytes is 0 and of a single byte is that byte |
| Apdu.CreateApdu | src/services/nfc.service.js:55-62 | the frame is the fixed header, the payload length truncated to a byte, the payload, and a checksum byte that makes the XOR of the whole frame zero; the command argument plays no part |
| NfcService.NfcReader.AuthCommand | src/services/nfc.service.js:94 | the authentication frame is the empty-payload frame whatever the sector and key |
| NfcService.NfcReader.WriteCommand | src/services/nfc.service.js:98 | the write frame is the empty-payload frame whatever the block and data |
| Apdu.EmptyFrame | src/services/nfc.service.js:56-62 | every frame built without data, whatever the command, is exactly `FF CA 00 00 00 35` |
| Apdu.SingleByteErrorDetected | src/services/nfc.service.js:51-62 | changing any single byte of a frame to a different value makes its XOR non-zero, so the checksum detects it |
| Text.PadStart | src/services/nfc.service.js:37 | the result has at least the requested width, ends with the input, and is the input prefixed by fill characters only |
| Hex.ByteToHexDigits | src/services/nfc.service.js:37 | a byte renders as exactly two lower-case hex digits whose values are its high and low nibble |
| Hex.ByteToHex | src/services/nfc.service.js:37 | `toString(16).padStart(2, '0')` of a byte is two lower-case hex digits |
| Hex.ByteArrayToHex | src/services/nfc.service.js:35-39 | the rendering has two characters per byte |
| Hex.ByteArrayToHexAt | src/services/nfc.service.js:35-39 | characters `2i` and `2i+1` of the rendering are the two digits of byte `i` |
| Hex.ByteArrayToHexLower | src/services/nfc.service.js:35-39 | every character of the rendering is a lower-case hex digit |
| Hex.HexToBytes | src/services/nfc.service.js:42-48 | the result has one byte per two characters of the input, a trailing odd character being dropped |
| Hex.ParseInt16Reads | src/services/nfc.service.js:45 | `parseInt(s, 16)` is NaN on an empty or blank text, negative only after a leading `-`, and on a text starting with a non-zero digit the value of its leading run of hex digits |
| Hex.ToUint8 | src/services/nfc.service.js:45 | storing into a `Uint8Array` turns NaN into 0 and keeps every other value modulo 256, leaving a byte unchanged |
| Hex.HexToBytesAt | src/services/nfc.service.js:45 | byte `i` is the `Uint8Array` conversion of `parseInt` of characters `2i` and `2i+1` in radix 16, NaN becoming 0 and values wrapping modulo 256 |
| Hex.ParseTwoDigits | src/services/nfc.service.js:45 | `parseInt` of two hex digits is `16·hi + lo` |
| Hex.HexPairAt | src/services/nfc.service.js:35-39 | characters `2i` and `2i+1` of the rendering are the high and low digit of byte `i` |
| Hex.HexPairRoundTrip | src/services/nfc.service.js:35-48 | parsing pair `i` of a rendered byte sequence gives back byte `i` |
| Hex.HexRoundTrip | src/services/nfc.service.js:35-48 | `hexToByteArray(byteArrayToHex(b)) == b` for every byte sequence |
| NfcService.NfcReader.constructor | src/services/nfc.service.js:4-8 | a new reader holds no port, is not connected and has written nothing |
| NfcService.NfcReader.Connect | src/services/nfc.service.js:10-32 | connected, returning true, exactly when a port is granted and opens; otherwise the fixed connection-failure message, with the granted port (and its stream) kept but the flag unchanged |
| NfcService.NfcReader.Disconnect | src/services/nfc.service.js:110-115 | closes only a connected port; the flag drops only when the close succeeds, and a failed close propagates |
| NfcService.NfcReader.SendCommand | src/services/nfc.service.js:64-90 | without a connected port, the not-connected error and nothing written; a rejected `write` is thrown on with nothing written or read; otherwise the command is written once, the chunks up to the marker or the stream's end are consumed, and the result is `ReadOutcome` of the stream: their concatenation, the stream's error, or no answer ever on a silent port |
| NfcService.ChunksReadFromStops | src/services/nfc.service.js:78-83 | the read loop stops at the first chunk after which the marker is visible, or at the end of the stream, and not before |
| NfcService.ChunksReadStops | src/services/nfc.service.js:78-83 | the same, from the first chunk |
| NfcService.ReadOutcome | src/services/nfc.service.js:77-85 | an answer is the concatenation of exactly the chunks read; an error is the stream's own; a stream that says `done` always gives an answer |
| NfcService.ReadHangsIff | src/services/nfc.service.js:78-83 | the read never settles exactly when the port stays silent and no prefix of the chunks shows the marker; once the marker is delivered the stream's end plays no part |
| NfcService.SilentCardHangs | src/services/nfc.service.js:78-83 | a card answering `6A 82` on a port that stays open leaves the read waiting for ever |
| NfcService.SilentCardTimesOut | src/services/nfc.service.js:78-83 | a read bounded in time always settles, agrees with the unbounded read whenever that settles, and turns the silent card into a timeout error |
| NfcService.Verdict | src/services/nfc.service.js:99-101 | an answered exchange gives whether its second-to-last byte is `0x90`; an error or a wait that never ends passes through |
| NfcService.WriteOutcome | src/services/nfc.service.js:92-102 | at most two frames, all the empty-payload frame; a failed first write sends nothing; the second frame goes out exactly when the first write and its read succeed; an answer needs both exchanges to settle; a wait that never ends needs a silent port; a stream that closes always lets both writes answer |
| NfcService.NfcReader.WriteToCard | src/services/nfc.service.js:92-102 | without a connection, the not-connected error and nothing written; otherwise the result, the frames written and the chunks left are those of `WriteOutcome`, so an error in either exchange is thrown on and the verdict is read from the second exchange alone |
| NfcService.NfcReader.HexToByteArray | src/services/nfc.service.js:42-48 | the array the loop fills equals `HexToBytes(hex)` |
| NfcService.GenerateNfcId | src/services/nfc.service.js:104-108 | the identifier is `NFC-` followed by 16 lower-case hex characters |
| NfcService.NfcIdDecodes | src/services/nfc.service.js:104-108 | the hex part of an identifier decodes back to the eight random bytes |
| NfcService.NfcIdInjective | src/services/nfc.service.js:104-108 | different random bytes give different identifiers |
| FaceService.Fragment | src/services/face.service.js:45 | a component contributes one or two characters, a prefix of the hex rendering of `abs(n·100)`, the whole rendering when it is shorter than two |
| FaceService.GenerateFaceId | src/services/face.service.js:42-47 | the identifier starts with `FACE-` |
| FaceService.FragmentsLength | src/services/face.service.js:44-46 | the fragments take between one and two characters per component |
| FaceService.FaceIdLength | src/services/face.service.js:42-47 | the identifier's length is between `5 + n` and `5 + 2n` for `n` components |
| FaceService.FaceIdAppend | src/services/face.service.js:44-46 | components are rendered in order: one more component appends its fragment and changes nothing before it |
| FaceService.FaceIdIgnoresSign | src/services/face.service.js:45 | negating every component leaves the identifier unchanged |
| FaceService.FragmentsIgnoreSign | src/services/face.service.js:45 | negating every component leaves the fragments unchanged |
| FaceService.FaceRecognitionService.constructor | src/services/face.service.js:5-8 | not initialized, no stream |
| FaceService.FaceRecognitionService.Initialize | src/services/face.service.js:10-20 | nothing to do once initialized; otherwise success exactly when all three model loads succeed, the flag set exactly on success, and a failure reported as one of the failed loads |
| FaceService.FaceRecognitionService.StartVideo | src/services/face.service.js:22-31 | the granted stream replaces the held one without stopping it; a refusal propagates and changes nothing |
| FaceService.FaceRecognitionService.StopVideo | src/services/face.service.js:49-54 | the held stream, if any, is stopped once and forgotten; with none held nothing happens |
| NfcEnrollment.ActionFor | src/components/employee/steps/NFCSetupStep.jsx:84-144 | the continue button is shown exactly on success, no button exactly while connecting or writing, and a retry on error |
| NfcEnrollment.EncodeAscii | src/components/employee/steps/NFCSetupStep.jsx:51 | for an ASCII string, one byte per character equal to its code |
| NfcEnrollment.NfcIdIsAscii | src/components/employee/steps/NFCSetupStep.jsx:47-51 | every character of a generated identifier is ASCII |
| NfcEnrollment.NfcUrl | src/components/employee/steps/NFCSetupStep.jsx:58 | the update path exists exactly when the session holds a non-null employee |
| Json.NestedProperty | src/components/employee/steps/NFCSetupStep.jsx:58 | `data.outer.inner` throws exactly when the outer value is missing or null; otherwise it is found exactly when the outer value is an object with that field, and is then that field |
| NfcEnrollment.NfcSetupStep.constructor | src/components/employee/steps/NFCSetupStep.jsx:28-31 | initial status, no error, no identifier |
| NfcEnrollment.NfcSetupStep.ConnectReader | src/components/employee/steps/NFCSetupStep.jsx:33-42 | ready when the reader connects, otherwise error with the reader's message; a granted port becomes the reader's port with its chunks and stream end, while a refused grant leaves the reader's port, chunks and stream end as they were; no card write, request or callback |
| NfcEnrollment.NfcSetupStep.HandleWriteNfc | src/components/employee/steps/NFCSetupStep.jsx:44-73 | the identifier is always kept; without a connection, the not-connected error and no request; otherwise the frames of `WriteOutcome` are written; an error from the card exchange gives error with its message and no request; an exchange that never settles leaves the step writing; an answered one continues as `SaveNfcId` does |
| NfcEnrollment.NfcSetupStep.SaveNfcId | src/components/employee/steps/NFCSetupStep.jsx:57-71 | a missing or `null` employee gives error with the `TypeError` message and no request; otherwise `{nfc_id}` is posted to the employee's update path, a rejection giving error with its message and success handing `{nfcId}` to the wizard; the identifier is kept |
| NfcEnrollment.EncodeNfcId | src/components/employee/steps/NFCSetupStep.jsx:51 | the encoding has twenty bytes, byte `i` being the code of character `i` of the identifier |
| NfcEnrollment.NfcSetupStep.Press | src/components/employee/steps/NFCSetupStep.jsx:84-144 | connecting and writing show no button; connect and retry leave exactly the state `ConnectReader` promises (`ConnectEffect`: ready exactly when the port is granted and opens, the reader's port, chunks and stream end, nothing posted); the write button leaves exactly the state `HandleWriteNfc` promises (`WriteEffect`: the new identifier, the frames written, and the error, hanging, rejected and saved outcomes); only the success button completes the step, towards the face step |
| FaceEnrollment.Average | src/components/employee/steps/FaceSetupStep.jsx:67-69 | each component is the mean of the two descriptors' components |
| FaceEnrollment.Tick | src/components/employee/steps/FaceSetupStep.jsx:59-72 | a tick counts one sample exactly when the guard passes and a face is detected, and then holds a descriptor; otherwise it changes nothing |
| FaceEnrollment.Feed | src/components/employee/steps/FaceSetupStep.jsx:59-72 | the count never decreases and never passes ten from at most ten; with the guard failing nothing changes |
| FaceEnrollment.RunTicks | src/components/employee/steps/FaceSetupStep.jsx:59-72 | the interval's loop over the ticks ends in the state `Feed` gives, keeping a descriptor exactly when something was counted |
| FaceEnrollment.FeedCount | src/components/employee/steps/FaceSetupStep.jsx:62-72 | with the guard passing, the count after a run of ticks is the number of detections, capped at ten |
| FaceEnrollment.FeedKeepsAccumulator | src/components/employee/steps/FaceSetupStep.jsx:63-72 | the accumulator holds a descriptor exactly when something was counted, and the count never decreases |
| FaceEnrollment.StaleGuardAccumulatesNothing | src/components/employee/steps/FaceSetupStep.jsx:59 | with the guard failing, no tick changes anything |
| FaceEnrollment.ThreeSamples | src/components/employee/steps/FaceSetupStep.jsx:63-70 | three samples give `((v1+v2)/2+v3)/2` per component: the first is kept and each later one is averaged in, so later samples weigh more |
| FaceEnrollment.FaceUrl | src/components/employee/steps/FaceSetupStep.jsx:104 | the update path exists exactly when the session holds a non-null employee |
| FaceEnrollment.ActionFor | src/components/employee/steps/FaceSetupStep.jsx:142-242 | skip only on the initial screen with the box unchecked, continue only on success, retry only on error, no button while preparing, scanning or processing |
| FaceEnrollment.FaceSetupStep.constructor | src/components/employee/steps/FaceSetupStep.jsx:16-21 | initial status, box unchecked, no interval |
| FaceEnrollment.FaceSetupStep.SetWantsFaceRecognition | src/components/employee/steps/FaceSetupStep.jsx:155-159 | only the checkbox changes |
| FaceEnrollment.FaceSetupStep.StartFaceRecognition | src/components/employee/steps/FaceSetupStep.jsx:32-52 | the models are initialised exactly when already loaded or all three loads succeed; scanning with a fresh interval and camera stream exactly when the models load and the camera is granted, the guard being the status at the click; otherwise the initialisation error with the stream kept |
| FaceEnrollment.FaceSetupStep.ProcessDetection | src/components/employee/steps/FaceSetupStep.jsx:98-120 | the derived identifier is posted for the employee; only a successful save stops the camera and hands `{faceId}` to the wizard; every failure gives the same saving error and keeps the stream |
| FaceEnrollment.FaceSetupStep.RunDetection | src/components/employee/steps/FaceSetupStep.jsx:54-96 | the counter and accumulator end as the fold of the ticks; below ten samples the interval keeps running and nothing else changes; at ten it is cleared, the identifier of the accumulated descriptor is posted when the session has an employee, and the step succeeds exactly when the save does, stopping the camera and handing over the identifier; otherwise the saving error with the camera kept |
| FaceEnrollment.FaceSetupStep.Press | src/components/employee/steps/FaceSetupStep.jsx:164-242 | skip and continue complete the step towards the review; start and retry leave exactly the state `StartFaceRecognition` promises (`StartEffect`: scanning exactly when the models load and the camera is granted, with a fresh interval, no sample counted and the new stream); the button that starts them shows only on the initial and error screens, so a scan a press starts has a guard that is never scanning, the premise of `ScanFromButtonNeverCounts`; no other button makes a callback |
| FaceEnrollment.FaceSetupStep.Unmount | src/components/employee/steps/FaceSetupStep.jsx:23-30 | the camera is stopped and the interval cleared, whatever the status |
| FaceEnrollment.ScanFromButtonNeverCounts | src/components/employee/steps/FaceSetupStep.jsx:59 | a scan started from the initial or error screen never counts a detection |
| FaceEnrollment.TenDetectionsSuffice | src/components/employee/steps/FaceSetupStep.jsx:88-92 | with the guard passing, ten detections reach the threshold with a descriptor accumulated |
| Wizard.InitialEmployeeData | src/components/employee/CreateEmployeeModal.jsx:15-20 | the session starts with `user`, `employee`, `nfcId` and `faceId` all null |
| Wizard.MergeKeepsSessionKeys | src/components/employee/CreateEmployeeModal.jsx:38-43 | merging step data never loses a session key |
| Json.Spread | src/components/employee/CreateEmployeeModal.jsx:39-42 | `{...base, ...over}` has both key sets, the later object's values winning |
| Wizard.IndexOf | src/components/employee/CreateEmployeeModal.jsx:83-85 | the first position of the value, or -1 when absent |
| Wizard.IndexOfStep | src/components/employee/CreateEmployeeModal.jsx:83-85 | every step's value is found at the step's position |
| Wizard.CompletedIffEarlier | src/components/employee/CreateEmployeeModal.jsx:82-85 | a step shows as completed exactly when it comes before the current one, and never while active |
| Wizard.ExactlyOneActive | src/components/employee/CreateEmployeeModal.jsx:82 | exactly one step is active, the current one |
| Wizard.ConnectorsBetweenSteps | src/components/employee/CreateEmployeeModal.jsx:100 | a connector is drawn after every step but the last |
| Wizard.CreateEmployeeModal.constructor | src/components/employee/CreateEmployeeModal.jsx:13-20 | the wizard opens on the user step with the empty session |
| Wizard.CreateEmployeeModal.CurrentStepInfo | src/components/employee/CreateEmployeeModal.jsx:50 | the header's title and description for the current step are never empty |
| Wizard.CreateEmployeeModal.UpdateEmployeeData | src/components/employee/CreateEmployeeModal.jsx:38-43 | the session becomes the spread of the old session and the step data; the step is unchanged |
| Wizard.CreateEmployeeModal.HandleStepComplete | src/components/employee/CreateEmployeeModal.jsx:45-47 | the current step becomes the named one and the session is unchanged |
| Wizard.CreateEmployeeModal.OnOpenChange | src/components/employee/CreateEmployeeModal.jsx:54-60 | closing calls `onClose` once; opening does nothing |
| Wizard.CreateEmployeeModal.Dispatch | src/components/employee/CreateEmployeeModal.jsx:38-47 | an update callback merges data, a completion moves the step |
| Http.ErrorField | src/components/employee/steps/UserInfoStep.jsx:58 | `error.response?.data?.field` is undefined exactly when there is no body, the body is not an object, or it lacks the field |
| Http.ErrorText | src/components/employee/steps/UserInfoStep.jsx:58 | the field's text when it is truthy, otherwise the fallback; never empty when the fallback is not |
| Json.TruthyTextNonEmpty | src/components/employee/steps/UserInfoStep.jsx:58 | a truthy value's text is never empty |
| FormRules.FieldError | src/components/employee/steps/UserInfoStep.jsx:96-150 | no error exactly when the value satisfies every rule, `minLength` counting UTF-16 code units; otherwise the message is one of the field's own rule messages |
| FormRules.Utf16Length | src/components/employee/steps/UserInfoStep.jsx:131-134 | a text's JavaScript length lies between its number of characters and twice that, and equals it when no character lies outside the Basic Multilingual Plane |
| FormRules.FirstIndex | src/components/employee/steps/UserInfoStep.jsx:116 | the first position of the character, or -1 when absent |
| FormRules.LastIndex | src/components/employee/steps/UserInfoStep.jsx:116 | the last position of the character, or -1 when absent |
| FormRules.EmailMatchesIff | src/components/employee/steps/UserInfoStep.jsx:116 | the split-based email test agrees with the regular expression on every string |
| UserInfoForm.FormErrorsEmptyIff | src/components/employee/steps/UserInfoStep.jsx:76-150 | no error exactly when every field satisfies its rules |
| UserInfoForm.FormValidIff | src/components/employee/steps/UserInfoStep.jsx:78-150 | the form is valid exactly when both names are present, the username and email are well formed, the password is at least eight UTF-16 code units long, and the confirmation equals it |
| UserInfoForm.AstralPasswordLongEnough | src/components/employee/steps/UserInfoStep.jsx:131-134 | four characters outside the Basic Multilingual Plane pass the eight-character password rule |
| UserInfoForm.MismatchReported | src/components/employee/steps/UserInfoStep.jsx:31-34 | a confirmation that differs from the password is always reported: with the required message when empty, with the mismatch message otherwise |
| UserInfoForm.CreateUserBodyRoundTrip | src/components/employee/steps/UserInfoStep.jsx:41-53 | the account body decodes back to the whole form, `confirm_password` being the confirmation; it has eight fields and `is_employee` is true |
| UserInfoForm.CreateUserBody | src/components/employee/steps/UserInfoStep.jsx:41-53 | the account body is an object of text and boolean fields whose `is_employee` is true |
| UserInfoForm.PostedEmailPassesBoth | src/components/employee/steps/UserInfoStep.jsx:110-120 | an email that reaches the post is both a valid address for the browser and a match of the form's expression |
| HtmlEmail.JoinSplit | src/components/employee/steps/UserInfoStep.jsx:112 | splitting a domain at its dots and joining the pieces back gives the domain |
| HtmlEmail.SplitJoin | src/components/employee/steps/UserInfoStep.jsx:112 | pieces without dots are found again by splitting their join |
| HtmlEmail.DomainIff | src/components/employee/steps/UserInfoStep.jsx:112 | the split-at-dots decision accepts a domain exactly when it is some non-empty list of labels joined with dots |
| HtmlEmail.HtmlEmailValidIff | src/components/employee/steps/UserInfoStep.jsx:112 | deciding at the first `@` accepts exactly what the grammar does: some `@` after a non-empty local part, followed by a domain |
| HtmlEmail.DomainShape | src/components/employee/steps/UserInfoStep.jsx:112 | a domain starts and ends with a letter or digit and every dot sits between two letters or digits |
| HtmlEmail.DoubleDotRefused | src/components/employee/steps/UserInfoStep.jsx:112 | the browser refuses `a@b..cd` |
| HtmlEmail.LeadingHyphenRefused | src/components/employee/steps/UserInfoStep.jsx:112 | the browser refuses `a@-x.cd` |
| HtmlEmail.PatternLetsThroughBrowserRefuses | src/components/employee/steps/UserInfoStep.jsx:110-120 | `a@b..cd` and `a@-x.cd` match the form's expression yet the browser refuses them, so for these the page's handler never runs |
| HtmlEmail.DotlessDomainPassesBrowserOnly | src/components/employee/steps/UserInfoStep.jsx:110-120 | `a@b` passes the browser but not the form's expression, so validation reports it |
| UserInfoForm.UserInfoStep.constructor | src/components/employee/steps/UserInfoStep.jsx:15-29 | empty form, not loading, no error |
| UserInfoForm.UserInfoStep.Submit | src/components/employee/steps/UserInfoStep.jsx:36-65 | a non-empty email the browser refuses (the field is `type="email"` at line 112 and the form has no `noValidate`) changes nothing at all, not even the field errors; otherwise an invalid form posts nothing; a valid one posts the account body; success hands `{user}` to the wizard and moves to the employee step; a rejection shows the server's `message` or the fallback, never an empty text |
| EmployeeInfoForm.BeforeIsDayOrder | src/components/employee/steps/EmployeeInfoStep.jsx:202 | comparing dates field by field agrees with comparing their day numbers |
| EmployeeInfoForm.BirthDateWindow | src/components/employee/steps/EmployeeInfoStep.jsx:202 | every selectable birth date lies between 1940-01-01 and today, and every day after 1940-01-01 up to today is selectable, whichever side of UTC the browser is on |
| EmployeeInfoForm.HireDateWindow | src/components/employee/steps/EmployeeInfoStep.jsx:229-230 | a hire date is selectable exactly when it is not after today |
| EmployeeInfoForm.FormatDateRoundTrip | src/components/employee/steps/EmployeeInfoStep.jsx:68-69 | a formatted date parses back to itself |
| EmployeeInfoForm.FormatDateLength | src/components/employee/steps/EmployeeInfoStep.jsx:68-69 | a date with a four-digit year formats to ten characters with dashes at 4 and 7 |
| EmployeeInfoForm.FormatDate | src/components/employee/steps/EmployeeInfoStep.jsx:68-69 | a formatted date has at least ten characters, with the two dashes three and six characters from the end for a month and day below 100 |
| Text.ZeroPaddedDecimal | src/components/employee/steps/EmployeeInfoStep.jsx:68-69 | a zero-padded decimal still reads as its number |
| Text.DecimalRoundTrip | src/components/employee/steps/EmployeeInfoStep.jsx:68-69 | the decimal rendering of a number reads back as that number |
| EmployeeInfoForm.FormValidIff | src/components/employee/steps/EmployeeInfoStep.jsx:105-111 | the form is valid exactly when the employee id is present and uses capitals, digits and dashes only |
| EmployeeInfoForm.BuildRequest | src/components/employee/steps/EmployeeInfoStep.jsx:65-70 | a request is built exactly when the session's user is present and both dates are set |
| EmployeeInfoForm.RequestKeepsForm | src/components/employee/steps/EmployeeInfoStep.jsx:65-66 | the request carries every form field unchanged |
| EmployeeInfoForm.RequestUserId | src/components/employee/steps/EmployeeInfoStep.jsx:67 | `user_id` is sent exactly when the session user has a `user_id` field |
| EmployeeInfoForm.RequestDates | src/components/employee/steps/EmployeeInfoStep.jsx:68-69 | both dates are sent as `yyyy-MM-dd` text that parses back to the chosen days |
| EmployeeInfoForm.EmployeeInfoStep.constructor | src/components/employee/steps/EmployeeInfoStep.jsx:20-34 | no departments yet, not loading, no error |
| EmployeeInfoForm.EmployeeInfoStep.FetchDepartments | src/components/employee/steps/EmployeeInfoStep.jsx:44-58 | one GET of the departments path; success stores the reply's data, failure shows the loading error and keeps the list |
| EmployeeInfoForm.EmployeeInfoStep.Submit | src/components/employee/steps/EmployeeInfoStep.jsx:60-89 | an invalid form posts nothing; a valid one with a user posts the request; success hands `{employee}` to the wizard and moves to the NFC step; a session without a user or a missing date posts nothing and shows the fallback; a rejection shows the server's `message` or the fallback |
| EmployeeInfoForm.EmployeeInfoStep.SendBasicInfo | src/components/employee/steps/EmployeeInfoStep.jsx:72-88 | the request is posted to the basic-information path; success hands `{employee}` to the wizard and moves to the NFC step; a rejection shows the server's `message` or the fallback; loading ends either way |
| EmployeeInfoForm.EmployeeInfoStep.Back | src/components/employee/steps/EmployeeInfoStep.jsx:242 | the back button returns to the user step |
| EmployeeInfoForm.DefaultsNeverPost | src/components/employee/steps/EmployeeInfoStep.jsx:60-70 | submitting the default form posts nothing: validation reports only the required employee number, and without a picked birth date the request cannot be built either |
| Constants.Position | src/config/constants.js:41-47 | each step's position in the creation order |
| Constants.CreationStepValues | src/config/constants.js:41-47 | the step values in declaration order, one per step |
| Constants.StepValuesDistinct | src/config/constants.js:41-47 | the five step values are distinct |
| Constants.StepTitle | src/config/constants.js:49-70 | every step has a title entry, with a non-empty title and description |
| Constants.StepTitlesKeys | src/config/constants.js:49-70 | the title table's keys are exactly the step values |
| Constants.ActivatePath | src/config/constants.js:19 | the path starts with `/employee-management/` followed by the identifier, and has the length of the three parts |
| Constants.DeactivatePath | src/config/constants.js:20 | the path starts with `/employee-management/` followed by the identifier, and has the length of the three parts |
| Constants.SetNfcPath | src/config/constants.js:21 | the path starts with `/employee-management/` followed by the identifier, and has the length of the three parts |
| Constants.SetFaceIdPath | src/config/constants.js:22 | the path starts with `/employee-management/` followed by the identifier, and has the length of the three parts |
| Constants.UpdateNfcPath | src/config/constants.js:88 | the path starts with `/employees/` followed by the identifier, and has the length of the three parts |
| Constants.UpdateFacePath | src/config/constants.js:89 | the path starts with `/employees/` followed by the identifier, and has the length of the three parts |
| Constants.DepartmentDetailPath | src/config/constants.js:96 | the path starts with `/departments/` followed by the identifier, and has the length of the three parts |
| Constants.DepartmentStatsPath | src/config/constants.js:97 | the path starts with `/departments/` followed by the identifier, and has the length of the three parts |
| Constants.ActivationPathsShareResource | src/config/constants.js:19-20 | activation and deactivation paths share the prefix `/employee-management/<id>/` and differ only in their last segment |
| Constants.ActivateNeverDeactivate | src/config/constants.js:19-20 | no activation path equals a deactivation path |
| Constants.SetPathsDiffer | src/config/constants.js:21-22 | the set-NFC and set-face paths never coincide |
| Constants.UpdateNfcInjective | src/config/constants.js:88 | different ids give different NFC update paths |
| Constants.UpdateFaceInjective | src/config/constants.js:89 | different ids give different face update paths |
| Constants.UpdatePathsDiffer | src/config/constants.js:88-89 | an NFC update path is never a face update path |
| Constants.DepartmentPathsNest | src/config/constants.js:95-97 | a department's detail and statistics paths extend the list path |
| Constants.SortOptionsPairUp | src/config/constants.js:106-115 | the options come in pairs, each sort field ascending and then descending (prefixed `-`) |
| Constants.SortValuesDistinct | src/config/constants.js:106-115 | the sort values are distinct |
| Constants.PositionsDistinct | src/config/constants.js:72-83 | the ten employee positions are distinct |
| DepartmentForm.FormValidIff | src/components/department/DepartmentDialog.jsx:49-55 | valid exactly when the name is at least two UTF-16 code units long; an empty name reports the required message, a one-unit name the length message |
| DepartmentForm.AstralNameAccepted | src/components/department/DepartmentDialog.jsx:49-55 | a name made of one character outside the Basic Multilingual Plane is accepted |
| DepartmentForm.DefaultValues | src/components/department/DepartmentDialog.jsx:23-28 | the given department, or an empty name and description |
| DepartmentForm.EmptyDefaultsRefused | src/components/department/DepartmentDialog.jsx:23-28 | submitting the empty defaults is refused with the required message |
| DepartmentForm.Mode | src/components/department/DepartmentDialog.jsx:21 | a missing mode means `create` |
| DepartmentForm.Title | src/components/department/DepartmentDialog.jsx:40 | the creation title exactly when the mode, after its default, is `create` |
| DepartmentForm.SubmitCaption | src/components/department/DepartmentDialog.jsx:76 | the creation caption exactly when the mode, after its default, is `create` |
| DepartmentForm.TitleAndCaptionAgree | src/components/department/DepartmentDialog.jsx:40 | title and button caption both read as creation exactly when the mode is absent or `create` |
| DepartmentForm.SubmittedValues | src/components/department/DepartmentDialog.jsx:23-31 | `onSubmit` receives the default values with `name` and `description` replaced by what was typed; every other key of `initialData` is passed along unchanged |
| DepartmentForm.EditPassesId | src/components/department/DepartmentDialog.jsx:23-31 | editing a department hands its `id` back to the parent unchanged |
| DepartmentForm.Submit | src/components/department/DepartmentDialog.jsx:30-44 | an invalid form calls nothing; a valid one calls `onSubmit` first, with the submitted values, and `onClose` exactly when it resolves, its rejection propagating |
| DepartmentForm.ValidNameCloses | src/components/department/DepartmentDialog.jsx:49-55 | a valid name submits and then closes |
| Json.Property | src/services/auth.service.js:14 | reading a property throws exactly on null; it is found exactly when the value is an object with that key, and is then the object's own field |
| Auth.AuthService.GetCurrentUser | src/services/auth.service.js:55-59 | null when no user or an empty one is stored, otherwise the parsed stored text |
| Auth.AuthService.IsAuthenticated | src/services/auth.service.js:61-63 | the truthiness of the stored token: authenticated exactly when a non-empty token is stored |
| Auth.AuthService.constructor | src/services/auth.service.js:5 | the service starts over the given storage with no request issued |
| Auth.AuthService.Login | src/services/auth.service.js:6-28 | posts the credentials; a truthy access token stores token and refresh token as text, the user as `JSON.stringify` of it (or `undefined`), and a truthy employee id, leaves other keys alone and authenticates; any other outcome leaves the store unchanged, rejections carrying the server's `error` or the fixed message |
| Auth.AuthService.Logout | src/services/auth.service.js:30-53 | the four session keys are removed and nothing else; no request is sent; afterwards not authenticated |

## Left out

- The Web Serial API, `getUserMedia`, `crypto.getRandomValues`, face-api model loading and `detectSingleFace` are inputs. The models receive the granted port, its chunks and how its stream behaves after them (it says `done`, it fails with an error, or it stays silent), how each `write` ends, the camera's answer, the eight random bytes, each load's outcome and the detector's answer per tick.
- The serial streams' locks (`getWriter`/`getReader`/`releaseLock`) are left out; they do not change what is written or read.
- Timers, promise interleaving and React re-rendering are left out. The polling interval is a loop over its ticks, and each handler runs to completion, so overlapping asynchronous ticks of the interval are not modelled.
- The video element, its metadata wait and `play()`, and the canvas drawing of the detection box are left out. They change no state the model tracks. A missing video element would also stop the guard, which the model does not track.
- Floating point is left out: descriptor components are exact reals. `Math.abs(x).toString(16)` is a `render` parameter, known only to give a non-empty string.
- The `Authorization` headers, and the token read from `localStorage` for them, are left out: requests carry a URL and a body only.
- `console.error` logging is left out.
- JSON values have no arrays. The departments reply is kept whole, and the department select's rendering of it is left out.
- `JSON.stringify` and `JSON.parse` are parameters.
- `src/config/employeeCreationSteps.js`, which the wizard imports, is not part of this model. Its steps and titles are taken to be those of `src/config/constants.js`.
- The review step `ReviewStep.jsx` is not part of this model. Neither is the `refreshToken` endpoint, which no core function calls.
- The page `src/pages/Departments.jsx`, which mounts the department dialog, is not part of this model. The dialog's `initialData` is the value it had when the dialog first rendered, because the form reads its default values only once. Whether a later edit pre-fills the dialog is therefore not modelled.
- NfcService.NfcReader.Connect: the exact exception `requestPort` or `open` throws is not modelled, because `connect` replaces it with the fixed message.
- NfcService.GenerateNfcId: takes the eight random bytes as an argument (requires length 8) rather than drawing them, because randomness is an input.
- NfcEnrollment.NfcSetupStep.HandleWriteNfc: takes the same eight random bytes, for the same reason.
- FaceService.FaceRecognitionService.Initialize: reports the first failed load in argument order, whereas `Promise.all` rejects with whichever load fails first in time; the model has no timing.
- EmployeeInfoForm.FormatDateLength: stated for years below 10000 only, where `yyyy` gives exactly four digits.
- EmployeeInfoForm.FormatDate: the dash positions are stated for a month and day below 100 only, since `Date` does not bound its fields and a longer month or day pushes them.
- Auth.AuthService.Logout: the `TypeError` assumes a bundler that binds the missing named import `axiosConfig` (`src/services/auth.service.js:3`) to `undefined`. Under native ES modules the import is a link error and the module never loads, which the model does not cover. `Login` relies on the same binding, where `undefined` is simply no configuration.
- UserInfoForm.UserInfoStep.Submit: the email is the value after the browser's sanitisation, which removes line breaks and strips leading and trailing whitespace. A browser that accepts a non-ASCII domain by converting it to its ASCII form is not modelled: the model refuses any domain outside letters, digits, hyphens and dots.
- The browser's own validity check is modelled for the email field only. The other inputs carry no native constraint: the rules are given to `register` and the password fields are `type="password"` only.
- EmployeeInfoForm.BirthDateWindow: the time zone enters only as whether it is east of UTC, since `new Date('1940-01-01')` is UTC midnight and the date picker compares local days.

## Findings

| source | as written | input that shows it | evidently intended | confidence | as-written member | corrected member |
|---|---|---|---|---|---|---|
| src/components/employee/steps/FaceSetupStep.jsx:59 | the interval callback tests the `status` of the render whose button started the scan, which is `'initial'` or `'error'`, never `'scanning'` | any run of ticks, for instance ten ticks on which a face is detected: nothing is counted, no identifier is derived and the step stays scanning | count the detections while the step is scanning, and derive the identifier after ten | not executed | FaceEnrollment.ScanFromButtonNeverCounts | FaceEnrollment.TenDetectionsSuffice |
| src/services/nfc.service.js:78-83 | the read loop awaits `reader.read()` with no time bound until the marker is seen or the stream ends | a card answering `6A 82` on a port that then stays open: the exchange never settles and the NFC step stays writing | bound each read in time, so a silent card ends in an error | not executed | NfcService.SilentCardHangs | NfcService.SilentCardTimesOut |
