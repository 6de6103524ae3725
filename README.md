# Patient app screens — a Dafny model

This project models the logic behind five parts of a React Native patient app:

- **OTP screen**: a six-box one-time-code entry. Typed text is cut down to its digits. A paste of several digits fills every box. The focus moves forward on a digit and back on backspace. A 30-second countdown gates "resend", and "verify" is allowed only for a complete code while no verification is under way.
- **Manual registration screen**: twelve form fields, and a validator. The validator asks for eight required fields and checks the email and phone patterns. Height and weight inputs keep only digits and dots, and the nationality and emirate pick-lists are modelled.
- **Doctor consultation screen**: a fixed list of four doctors, narrowed by a category tab and a search text. Both comparisons are case-insensitive substring tests.
- **Dropdown field**: the height of its option list, whether it opens above or below the field, and its open/closed state after each handler.
- **Bottom tab bar**: it hides the centre button's route and splits the remaining tabs two to the left and the rest to the right. It finds the focused tab by key, decides whether pressing a tab navigates, and sizes the white fill under the bar.

Modules:

- `Text` models the JavaScript string operations the screens rely on:
  - `replace` with a negated character class;
  - `trim`;
  - `toLowerCase`;
  - `includes`;
  - `join`.
- `OtpVerification`, `ManualEntry`, `DoctorConsultation`, `FieldDropdown` and `BottomTabs` follow the source files of the same names.

State that the source updates in place is modelled as classes:

- `OtpEntry` holds its six boxes in an array that is written box by box.
- `RegistrationForm` holds the form and the error map.
- `Dropdown` holds the open flag, the list height and the side the list opens on.

Each handler is a method whose postcondition gives the new state in terms of the old one, through the pure functions beside it. Lemmas prove what the screens promise, including:

- a pasted code reads back as its first six digits;
- the code has six characters exactly when every box is filled;
- the countdown label reads back as the timer;
- the validator's error map holds exactly the fields with an error, each with its message, and the form passes exactly when the required fields are non-blank and both patterns match;
- typing more search text never brings a doctor back, and the result keeps the list order;
- with unique keys, at most one tab is focused, and a press navigates exactly when the tab is unfocused and the event was not prevented.

One property of the doctor list is worth knowing. The "Paediatrics" category tab lists nobody, whatever the search text. The only paediatric doctor's specialty is spelt "Pediatrician", which does not contain "paediatrics" (`DoctorConsultation.PaediatricsListsNobody`).

## Model

| member | source | states |
|---|---|---|
| Text.Keep | src/screens/OtpVerification.jsx:50 | removing every character outside a class keeps exactly the characters in the class, in order, each as often as in the input, and never lengthens the text |
| Text.KeepIdempotent | src/screens/ManualEntry.jsx:202 | applying the same character-class filter twice gives the same text as applying it once |
| Text.KeepFixedPoint | src/screens/ManualEntry.jsx:202 | the filter leaves a text unchanged exactly when every character of it is in the class |
| Text.Trim | src/screens/ManualEntry.jsx:64-71 | `trim` strips leading whitespace and then trailing whitespace; what it leaves is pinned down by `Text.TrimShape` |
| Text.TrimShape | src/screens/ManualEntry.jsx:64-71 | the trimmed text is the part of the value between a blank prefix and a blank suffix, and it neither starts nor ends with whitespace |
| Text.TrimEmptyIffBlank | src/screens/ManualEntry.jsx:64-71 | a value trims to the empty string exactly when every character of it is JavaScript whitespace |
| Text.Lower | src/screens/DoctorConsultation.jsx:79-81 | lower-casing keeps the length, leaves no capital A-Z, turns each capital into its own lower-case letter and leaves every other character unchanged |
| Text.Includes | src/screens/DoctorConsultation.jsx:79-81 | `includes` holds when some position of the text starts an exact copy of the searched text |
| Text.IncludesEmpty | src/screens/DoctorConsultation.jsx:80-81 | every text includes the empty text |
| Text.IncludesTransitive | src/screens/DoctorConsultation.jsx:80-81 | if `a` includes `b` and `b` includes `c`, then `a` includes `c` |
| Text.LowerIncludes | src/screens/DoctorConsultation.jsx:79-81 | lower-casing both sides keeps an occurrence of one text in another |
| OtpVerification.EmptyBoxes | src/screens/OtpVerification.jsx:31 | the initial buffer has six boxes, all empty |
| OtpVerification.DigitsOnly | src/screens/OtpVerification.jsx:50 | the sanitised value holds exactly the digits of the typed text, in order and with their multiplicities |
| OtpVerification.DigitsOnlyIdempotent | src/screens/OtpVerification.jsx:50 | sanitising twice is sanitising once |
| OtpVerification.PastedBoxes | src/screens/OtpVerification.jsx:53-57 | a paste leaves six boxes, each empty or holding one digit |
| OtpVerification.PasteRoundTrip | src/screens/OtpVerification.jsx:52-58 | joining the boxes after a paste gives back the first six pasted digits, or all of them if there are fewer |
| OtpVerification.Join | src/screens/OtpVerification.jsx:44 | `join('')` concatenates the boxes in order; its length and contents are given by `JoinLength` and `PasteRoundTrip` |
| OtpVerification.IsComplete | src/screens/OtpVerification.jsx:45 | every box is non-empty and trims to exactly one character |
| OtpVerification.IsButtonDisabled | src/screens/OtpVerification.jsx:46 | the verify button is disabled when the code is incomplete or a verification is loading |
| OtpVerification.JoinLength | src/screens/OtpVerification.jsx:44 | the code has one digit per non-empty box, and only digits |
| OtpVerification.CompleteIffAllDigits | src/screens/OtpVerification.jsx:45 | a valid buffer is complete exactly when every box holds one digit |
| OtpVerification.CodeLengthIffComplete | src/screens/OtpVerification.jsx:44-45 | on a valid buffer, the code has six characters exactly when the buffer is complete |
| OtpVerification.TickValue | src/screens/OtpVerification.jsx:40 | one tick never raises the timer, strictly lowers a positive one and leaves 0 at 0; the exact step `t - 1` follows from `TickManyValue` with one tick |
| OtpVerification.TickScheduled | src/screens/OtpVerification.jsx:39 | the interval is set up only while the timer is positive |
| OtpVerification.TickManyValue | src/screens/OtpVerification.jsx:38-42 | after `n` ticks the timer is `t - n`, stopping at 0 |
| OtpVerification.CountdownEnds | src/screens/OtpVerification.jsx:38-42 | a countdown from 30 reaches 0, and then no further tick is scheduled |
| OtpVerification.DecimalString | src/screens/OtpVerification.jsx:161 | `String(n)` is a non-empty string of digits |
| OtpVerification.DecimalRoundTrip | src/screens/OtpVerification.jsx:161 | reading `String(n)` back as a decimal number gives `n` |
| OtpVerification.PadStart | src/screens/OtpVerification.jsx:161 | `padStart` gives the requested width, or the original length when that is already wider |
| OtpVerification.ResendLabel | src/screens/OtpVerification.jsx:161 | the countdown label is `00:` followed by the timer padded to two digits with zeros; its shape is proved by `ResendLabelReadsBack` |
| OtpVerification.ResendLabelReadsBack | src/screens/OtpVerification.jsx:159-161 | for every timer value below 100, the label is `00:` plus two digits that read back as the timer |
| OtpVerification.OtpEntry.constructor | src/screens/OtpVerification.jsx:31-33 | the screen starts with empty boxes, no focus, a 30-second countdown and no loading |
| OtpVerification.OtpEntry.Code | src/screens/OtpVerification.jsx:44 | the screen's code has at most six characters, all digits, and exactly six when the boxes are complete |
| OtpVerification.OtpEntry.Tap | src/screens/OtpVerification.jsx:138-150 | touching a box gives it the focus and changes nothing else |
| OtpVerification.OtpEntry.HandleChange | src/screens/OtpVerification.jsx:48-72 | with more than one digit, the buffer becomes the pasted buffer and the focus goes to the box of the last pasted digit (at most the sixth box); otherwise only the touched box is written, and the focus moves on when a digit lands in a box before the last one |
| OtpVerification.OtpEntry.WritePaste | src/screens/OtpVerification.jsx:55-57 | box `i` receives the `i`-th digit, or the empty string past the last digit |
| OtpVerification.OtpEntry.HandleKeyPress | src/screens/OtpVerification.jsx:74-78 | backspace on an empty box other than the first moves the focus back one box; nothing is written |
| OtpVerification.OtpEntry.Tick | src/screens/OtpVerification.jsx:38-42 | one interval firing moves the timer by `TickValue`; the boxes, focus and loading flag are unchanged |
| OtpVerification.OtpEntry.HandleResend | src/screens/OtpVerification.jsx:80-86 | nothing changes while the timer runs; at 0 the boxes are emptied, the first box is focused and the timer restarts at 30 |
| OtpVerification.OtpEntry.BeginVerify | src/screens/OtpVerification.jsx:88-91 | verification starts exactly when the button is enabled (complete code, not loading), and then sets loading |
| OtpVerification.OtpEntry.FinishVerify | src/screens/OtpVerification.jsx:96-105 | when the call returns, loading stops and the app moves to the `BottomNav` route |
| ManualEntry.EmailPattern | src/screens/ManualEntry.jsx:73 | the email regular expression: a non-empty run without whitespace or `@`, one `@`, a non-empty run, a dot and a non-empty run, covering the whole text |
| ManualEntry.PhonePattern | src/screens/ManualEntry.jsx:75 | the phone regular expression: 6 to 20 characters, each a digit, `+`, `-`, whitespace or a parenthesis |
| ManualEntry.FieldError | src/screens/ManualEntry.jsx:62-75 | the message a field ends with: the pattern message for a non-empty email or contact that fails its pattern, otherwise the "required" message for a blank field, otherwise none |
| ManualEntry.EmailPatternIffShape | src/screens/ManualEntry.jsx:73 | the email pattern matches exactly when the text is local part, one `@`, a domain with an inner dot, and no whitespace or second `@` anywhere |
| ManualEntry.IsEmptyAfterTrim | src/screens/ManualEntry.jsx:64-71 | `!value.trim()` holds exactly for blank values |
| ManualEntry.CheckRequired | src/screens/ManualEntry.jsx:64-71 | one "required" check adds the field's message exactly when the field is blank, and changes no other entry |
| ManualEntry.RequiredErrors | src/screens/ManualEntry.jsx:63-71 | after the eight checks, exactly the blank required fields have their "required" message |
| ManualEntry.BuildErrors | src/screens/ManualEntry.jsx:62-75 | the error map's keys are exactly the fields with an error; a failing email or phone pattern on a non-empty value overrides the "required" message |
| ManualEntry.AcceptedIff | src/screens/ManualEntry.jsx:62-78 | the form passes exactly when all eight required fields are non-blank, the email has the shape of an address and the contact matches the phone pattern |
| ManualEntry.BlankContactStaysRequired | src/screens/ManualEntry.jsx:67-75 | a whitespace-only contact of 6 to 20 characters passes the phone pattern, so it keeps "Contact is required" |
| ManualEntry.BlankEmailIsInvalid | src/screens/ManualEntry.jsx:71-73 | a non-empty, whitespace-only email ends with "Enter a valid email" |
| ManualEntry.OptionalFieldsIgnored | src/screens/ManualEntry.jsx:55-78 | the Emirates ID, height, weight and medical fields never affect validation |
| ManualEntry.SanitizeMeasure | src/screens/ManualEntry.jsx:202 | the height or weight keeps exactly the digits and dots of the typed text, in order and with their multiplicities |
| ManualEntry.SanitizeMeasureIdempotent | src/screens/ManualEntry.jsx:215 | sanitising a sanitised measurement changes nothing |
| ManualEntry.RegistrationForm.constructor | src/screens/ManualEntry.jsx:35-53 | the screen starts with twelve empty fields, both lists closed and no errors |
| ManualEntry.RegistrationForm.EditText | src/screens/ManualEntry.jsx:129 | typing into a free-text input sets that field only |
| ManualEntry.RegistrationForm.EditHeight | src/screens/ManualEntry.jsx:202 | the height becomes the sanitised text; nothing else changes |
| ManualEntry.RegistrationForm.EditWeight | src/screens/ManualEntry.jsx:215 | the weight becomes the sanitised text; nothing else changes |
| ManualEntry.RegistrationForm.ToggleNationality | src/screens/ManualEntry.jsx:156 | pressing the field flips the nationality list |
| ManualEntry.RegistrationForm.SelectNationality | src/screens/ManualEntry.jsx:166 | choosing an option stores it and closes the list; the nationality is always empty or one of the options |
| ManualEntry.RegistrationForm.ToggleEmirate | src/screens/ManualEntry.jsx:255 | pressing the field flips the emirate list |
| ManualEntry.RegistrationForm.SelectEmirate | src/screens/ManualEntry.jsx:265 | choosing an option stores it and closes the list; the emirate is always empty or one of the options |
| ManualEntry.RegistrationForm.Validate | src/screens/ManualEntry.jsx:62-78 | the stored error map has exactly the failing fields with their messages, and the result is true exactly when the form is accepted |
| ManualEntry.WithText | src/screens/ManualEntry.jsx:129-314 | each free-text input's setter replaces its own field and no other |
| ManualEntry.RegistrationForm.OnComplete | src/screens/ManualEntry.jsx:80-89 | validation runs and stores exactly the failing fields with their messages; the whole form is handed on exactly when it is accepted, otherwise nothing is |
| DoctorConsultation.MatchesCategory | src/screens/DoctorConsultation.jsx:78-79 | the "All" tab, or a specialty that contains the tab name, both lower-cased |
| DoctorConsultation.MatchesSearch | src/screens/DoctorConsultation.jsx:80-81 | the lower-cased search text occurs in the lower-cased name or specialty |
| DoctorConsultation.FilterDoctors | src/screens/DoctorConsultation.jsx:77-83 | the result keeps the list order and lists a doctor exactly when the doctor matches the category and the search; it is empty exactly when no doctor matches |
| DoctorConsultation.EmptySearchMatches | src/screens/DoctorConsultation.jsx:80-81 | an empty search matches every doctor |
| DoctorConsultation.AllAndEmptyKeepsEverything | src/screens/DoctorConsultation.jsx:77-83 | the "All" tab with an empty search lists every doctor, in order |
| DoctorConsultation.InitialListing | src/screens/DoctorConsultation.jsx:25-83 | the first tab is "All", and the first view lists the four doctors in their original order |
| DoctorConsultation.NarrowerSearch | src/screens/DoctorConsultation.jsx:80-81 | a doctor that matches a search text also matches every text the search contains |
| DoctorConsultation.FilterThroughCoarser | src/screens/DoctorConsultation.jsx:77-83 | filtering by a coarser search and then a finer one equals filtering by the finer one |
| DoctorConsultation.FilterMonotone | src/screens/DoctorConsultation.jsx:77-83 | extending the search text gives an order-preserving sub-list of the previous result |
| DoctorConsultation.PaediatricsListsNobody | src/screens/DoctorConsultation.jsx:28-83 | the last tab is "Paediatrics", and it lists no doctor, whatever the search |
| DoctorConsultation.NoPaediatrics | src/screens/DoctorConsultation.jsx:79 | a specialty with no "p" followed by "a" does not include "paediatrics" once lower-cased |
| FieldDropdown.DropdownHeight | src/components/FieldDropdown.jsx:27-32 | the list is 44 per option plus 8, capped at 208 from five options on |
| FieldDropdown.DropdownHeightMonotone | src/components/FieldDropdown.jsx:27-32 | more options never make the list shorter |
| FieldDropdown.Placement | src/components/FieldDropdown.jsx:34-52 | the list opens above exactly when the field was measured, the room below is less than the list height plus 50, and the room above is more; otherwise it opens below |
| FieldDropdown.Dropdown.constructor | src/components/FieldDropdown.jsx:17-19 | the dropdown starts closed, with no height, opening below |
| FieldDropdown.Dropdown.Close | src/components/FieldDropdown.jsx:90-99 | closing leaves the list closed with no height |
| FieldDropdown.Dropdown.Toggle | src/components/FieldDropdown.jsx:55-81 | an open list closes and keeps its side; a closed list takes the side `Placement` picks and opens at the computed height |
| FieldDropdown.Dropdown.Select | src/components/FieldDropdown.jsx:83-87 | the chosen option is reported, and the list ends closed |
| FieldDropdown.Dropdown.OutsidePress | src/components/FieldDropdown.jsx:102-106 | a press outside closes an open list and leaves a closed one unchanged |
| BottomTabs.VisibleRoutes | src/navigation/BottomTabs.jsx:84 | the tabs keep the route order, and none of them is the centre button's route |
| BottomTabs.VisibleRoutesMembers | src/navigation/BottomTabs.jsx:84 | a route gets a tab exactly when it is a route of the state and is not `QuickAction` |
| BottomTabs.VisibleRoutesNoHidden | src/navigation/BottomTabs.jsx:84 | without a `QuickAction` route, every route gets a tab, in order |
| BottomTabs.VisibleRoutesIdempotent | src/navigation/BottomTabs.jsx:84 | filtering out the hidden route twice is filtering once |
| BottomTabs.VisibleRoutesDropsOne | src/navigation/BottomTabs.jsx:84 | with exactly one hidden route, the tabs are all the other routes, in order |
| BottomTabs.LeftTabs | src/navigation/BottomTabs.jsx:97 | the left group has two tabs, or all of them when there are fewer |
| BottomTabs.RightTabs | src/navigation/BottomTabs.jsx:105 | the right group has the tabs after the second, or none |
| BottomTabs.TabsPartition | src/navigation/BottomTabs.jsx:95-106 | the left and right groups together are exactly the visible tabs, in order, and the right group is non-empty only when the left one is full |
| BottomTabs.AppTabLayout | src/navigation/BottomTabs.jsx:69-105 | with the app's five routes, whatever their keys, Home and Booking sit left of the centre button and Inbox and Profile right of it |
| BottomTabs.FindIndexByKey | src/navigation/BottomTabs.jsx:129 | the index is the first route with the key, or -1 when no route has it |
| BottomTabs.IsFocused | src/navigation/BottomTabs.jsx:129-130 | a route is focused when the position found for its key is the state's index |
| BottomTabs.FocusedIffIndex | src/navigation/BottomTabs.jsx:129-130 | with unique keys, the route at position `i` is focused exactly when `i` is the state's index |
| BottomTabs.AtMostOneFocused | src/navigation/BottomTabs.jsx:129-130 | with unique keys, at most one route is focused |
| BottomTabs.PressTab | src/navigation/BottomTabs.jsx:132-135 | a press navigates to the tab's route exactly when the tab is not focused and no listener prevented the default |
| BottomTabs.BottomFillHeight | src/navigation/BottomTabs.jsx:91 | the fill is the larger of the bottom inset and 20 |

## Left out

- Rendering, styles, images and icons are not modelled. This covers the `TAB_ICONS` lookup, active and inactive icons, opacity, border colours and the watermark. The model covers the state that drives them.
- Navigation calls become results:
  - `FinishVerify` returns the route name;
  - `OnComplete` returns the submitted form;
  - `PressTab` returns the navigation outcome.
- Back, cancel, skip, the centre button's `navigate('QuickAction')` and the tab long-press event change no modelled state, so they are not modelled.
- Clocks and timers are not modelled. The one-second `setInterval` is the `Tick` method, fired by the caller. Cancelling the interval on re-render is not modelled.
- `OtpVerification.OtpEntry.BeginVerify`: the two-second delay in `handleVerify` is not modelled. The asynchronous handler is split into `BeginVerify` (the guard, then loading) and `FinishVerify` (the success path).
- The `catch` branch of `handleVerify` only logs, and nothing in the simulated call throws, so it is not modelled.
- Focus is modelled as the index of the focused box, or -1 for none.
  - `focus()` on a missing ref and the keyboard's own focus handling are not modelled.
  - `Tap` stands for the user touching a box.
- The `maxLength={1}` prop of each box is not modelled. `HandleChange` accepts any text, which covers everything the handler can receive, including a paste.
- The OTP screen's phone number parameter and its fallback are display only.
- Text is modelled as sequences of Unicode characters, not UTF-16 code units. The regular expressions are stated over characters. `\d` is the ASCII digits, and `\s` and `trim` are JavaScript's whitespace and line-terminator set.
- `Text.Lower`: only the ASCII letters A–Z are folded. `toLowerCase` also folds other capitals, and not always to a character of the same script: the Kelvin sign U+212A becomes `k`. The doctor search text is typed by the user, so a search with such characters can give a different list in the app than in the model. For example, searching for U+212A lists Dr. Adam Kael in the app but nobody in the model.
- The dropdown's height and opacity animations are not modelled. Each handler goes straight to the state its animation callback leaves.
  - `measureInWindow` is an input: the `Measurement` parameter, absent when the field has no container.
  - The window height is a parameter, and geometry is exact real arithmetic rather than floating point.
- The dropdown's unmount effect (`src/components/FieldDropdown.jsx:108-115`) only clears a flag on an unmounting component, so it is not modelled.
- `BottomTabs.PressTab`: the `tabPress` event is emitted by the navigator's listeners. Its only effect on the decision, `defaultPrevented`, is a parameter.
- The doctors' avatar images, the booking buttons and the category tab widgets are not modelled. The filter takes the selected category and the search text as inputs.
- The other screens are not part of this model: login, first screen, home, services list, account creation, and the camera-based Emirates ID and passport scans.
