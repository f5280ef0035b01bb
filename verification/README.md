# Contact section dispatch, in Dafny

This project models the logic of the portfolio's contact section
(`src/components/Contact.tsx`), which hands a message to whatever the visitor's
device can send it with:

- **Environment.** Two helpers classify the host from `navigator` and
  `window`: `isMobileDevice` searches the user agent for mobile tokens, and
  `isWebView` combines several regular-expression heuristics with
  `navigator.standalone`.
- **Three actions, one priority order.** "Start a project", "schedule a call"
  and the contact form each build a URI. Mail-sending actions try three
  routes in order:
  - a native URI in the same tab on mobile (`mailto:` or `sms:`);
  - Gmail's compose page in a new window inside a webview;
  - a `mailto:` URI through `openMailClient` on desktop. This opens a new
    window and falls back to a same-tab navigation when the browser returns
    no window.
- **The form.** It validates three fields and shows an error text per field.
  On a keystroke it clears the edited field's error. After a successful
  dispatch it goes through a "sending" state, then a "thank you" state, then
  back to idle.

Modules:

- `Wrappers`: the `Option` type.
- `Text`: ECMAScript whitespace and `trim`, word characters, and ASCII case
  folding for the `/i` patterns.
- `Environment`:
  - the host is a record with the fields both classifiers read;
  - each regular expression is written out as the set of positions where it
    can match.
- `UriEncoding`:
  - `encodeURIComponent` over Unicode scalar values, with UTF-8 and
    upper-case `%XX` escapes, following section 2.1 of RFC 3986;
  - the matching decoder, with a proof that decoding undoes encoding.
- `UriSyntax`: cutting at a delimiter, joining and splitting, and
  `key=value` parameter lists.
- `UriCompose`:
  - the four URIs the page builds: `mailto:` (RFC 6068), the Gmail compose
    link, `sms:` (RFC 5724) and `wa.me`;
  - for each one, a reader that parses the URI back;
  - round-trip lemmas proving that every reader recovers the recipient and
    the exact decoded texts.
- `Dispatch`:
  - the router: a pure function from the classified environment, the user
    action, and the host's answer to `window.open`, to the list of host
    calls made, in order;
  - the page's constants are a `Site` record. `ContactSite` holds the
    values the page ships with.
- `ContactForm`: `validateForm`, `handleInputChange`, and the state changes
  of `handleSubmit`.

The host is an oracle. A new-window open reports whether a window came back
(`popupOpened`), and the model records the calls instead of performing them.

## Model

| member | source | states |
|---|---|---|
| Text.TrimEmptyIffBlank | src/components/Contact.tsx:136-139 | `!x.trim()` holds exactly when every character of `x` is ECMAScript whitespace or a line terminator |
| Environment.Classify | src/components/Contact.tsx:7-26 | without `navigator` neither classifier fires and the Apple test is false; without `window` no webview; an Apple user agent is always a mobile one |
| Environment.AppleTokenIsMobileToken | src/components/Contact.tsx:201 | every user agent the `/iphone\|ipad\|ipod/i` test accepts also passes `isMobileDevice`'s token test, so the Apple SMS form is only chosen on mobile |
| Environment.IosClauseIsMobile | src/components/Contact.tsx:18 | the iOS webview pattern can only match a user agent that holds a mobile token |
| Environment.ChromeMobileClauseIsMobile | src/components/Contact.tsx:21 | the `Version/… Chrome/… Mobile` clause can only match a user agent that holds the `mobile` token |
| Environment.MobileWithoutSafariIsMobile | src/components/Contact.tsx:23 | the generic "Mobile without Safari" clause implies the `mobile` token |
| Environment.WvMarkerIsWvToken | src/components/Contact.tsx:19-20 | a `; wv)` marker always contains a `\bwv\b` match, so the second Android clause adds nothing to the first |
| Environment.WebViewBranchOnlyByWvOrStandalone | src/components/Contact.tsx:13-26 | on a non-mobile host, `isWebView` holds exactly when `navigator` and `window` exist and either the case-sensitive `wv` word occurs or `standalone` is truthy |
| Environment.DesktopUserAgent | src/components/Contact.tsx:7-26 | a user agent with no mobile token and no `wv` word, with `standalone` not truthy, is a plain desktop browser |
| Environment.IPhoneWebKitWithoutSafari | src/components/Contact.tsx:18 | "iPhone" as a word followed later on the same line by "AppleWebKit", with no "Safari", is classified as both a webview and a mobile device |
| UriEncoding.Encode | src/components/Contact.tsx:35-37 | the output contains only unreserved characters and `%`, and is never shorter than the input |
| UriEncoding.EncodedHasNoDelimiters | src/components/Contact.tsx:153 | an encoded value contains none of the delimiters `?`, `&`, `=`, `#`, `/`, `:`, `;`, `@`, `+`, space, CR or LF, so it cannot end a URI field early |
| UriEncoding.DecodeEncode | src/components/Contact.tsx:35-37 | decoding the encoded text gives back the text exactly |
| UriEncoding.EncodeIdentityIffUnreserved | src/components/Contact.tsx:153 | encoding leaves a text unchanged exactly when every character is unreserved |
| UriEncoding.DecodeFirstOfEncodeChar | src/components/Contact.tsx:35-37 | the escapes of one character decode to that character and use up exactly its escapes, whatever follows |
| UriSyntax.CutAt | src/components/Contact.tsx:39 | cutting at the first delimiter fails exactly when the delimiter is absent; otherwise the text is head, delimiter, tail, with no delimiter in the head |
| UriSyntax.Split | src/components/Contact.tsx:34-38 | the pieces hold no separator and join back to the text |
| UriSyntax.SplitJoin | src/components/Contact.tsx:34-38 | `join('&')` followed by a split on `&` gives back separator-free pieces |
| UriSyntax.ParamsOfPairs | src/components/Contact.tsx:34-38 | a joined list of `key=value` pairs, with no `&` or `=` in the keys and no `&` in the values, parses back to the same pairs |
| UriCompose.ReadEncodedParams | src/components/Contact.tsx:34-38 | a non-empty list of plain keys with encoded values reads back to the original keys and texts |
| UriCompose.MailtoShape | src/components/Contact.tsx:153 | a `mailto:` URI is `mailto:`, the address as given, `?`, then `subject` and `body` written as encoded `key=value` pairs joined by `&` |
| UriCompose.GmailComposeShape | src/components/Contact.tsx:34-39 | a compose link is the mailbox address, `#inbox?`, then `compose=new`, `to`, `su` and `body` written as encoded pairs joined by `&` |
| UriCompose.SmsShape | src/components/Contact.tsx:201-205 | an `sms:` URI is the number, then `&` in the Apple form or `?` otherwise, then the encoded `body=` parameter |
| UriCompose.MailtoRoundTrip | src/components/Contact.tsx:153 | a `mailto:` URI reads back to its address, subject and body exactly when the address has no `?`. The reader keeps the address as written: it neither stops at a `#` nor percent-decodes the address |
| UriCompose.GmailComposeRoundTrip | src/components/Contact.tsx:34-39 | the compose link reads back to `compose=new` followed by the recipient, subject and body, in that order and decoded exactly |
| UriCompose.GmailParamsInFragment | src/components/Contact.tsx:39 | the part of the compose link before `#` is the fixed mailbox address and has no query, so all parameters are in the fragment |
| UriCompose.SmsRoundTrip | src/components/Contact.tsx:201-205 | for a number with no `?` and no `&`, an `sms:` URI reads back to its number and exact body. The separator is `&` in the Apple form and `?` otherwise, and the URI contains `?` exactly when it is not the Apple form |
| UriCompose.WhatsAppRoundTrip | src/components/Contact.tsx:175 | for a number with no `?`, the `wa.me` link reads back to its number and its exact `text` parameter |
| Dispatch.ContactSiteWellFormed | src/components/Contact.tsx:149-193 | the shipped address and phone numbers contain no `?`, and the SMS number contains no `&`, the delimiters at which the readers end those fields |
| Dispatch.OpenMailClient | src/components/Contact.tsx:44-51 | one new-window open of the URI, then a same-tab navigation to the same URI exactly when no window came back |
| Dispatch.OpenGmailCompose | src/components/Contact.tsx:29-41 | one new-window open, whose link reads back to the recipient, subject and body |
| Dispatch.Deliver | src/components/Contact.tsx:155-164 | mobile: only the native URI in the current tab. Webview: one new window whose link reads back to the message. Desktop: a `mailto:` open that reads back to the message, with the fallback navigation exactly when no window came back |
| Dispatch.StartProjectActions | src/components/Contact.tsx:148-165 | every route carries the owner's address with the quotation subject and body, read back exactly, in one or two host calls |
| Dispatch.ScheduleCallActions | src/components/Contact.tsx:168-178 | one new-window open in every environment, of a link that reads back to the call number and exact message |
| Dispatch.SubmitActions | src/components/Contact.tsx:190-214 | mobile: an `sms:` URI in the current tab that reads back to the entered values, using the Apple form on Apple user agents. Webview and desktop: Gmail or `mailto:` links that read back to the owner's address, the form subject and the entered values |
| Dispatch.DeliverPriority | src/components/Contact.tsx:155-164 | the strategy seen in the host calls is the one the priority order picks, and every call is a same-tab navigation exactly on mobile |
| Dispatch.DeliverPopup | src/components/Contact.tsx:46-50 | the answer to `window.open` changes the strategy chain's calls exactly on desktop |
| Dispatch.RouteIsDeliver | src/components/Contact.tsx:196-214 | the two mail-sending actions are the strategy chain applied to their own native URI, subject and body; "schedule a call" is not |
| Dispatch.RoutePriority | src/components/Contact.tsx:155-164 | for both mail-sending actions: one or two host calls, the strategy seen is the one the priority order picks, and all calls are same-tab navigations exactly on mobile |
| Dispatch.PopupMattersOnlyForMailClient | src/components/Contact.tsx:44-51 | the host's answer to the new-window open changes an action's calls exactly when the action sends mail on desktop |
| Dispatch.GmailRouteOnlyByWvOrStandalone | src/components/Contact.tsx:13-26 | the Gmail route is taken exactly on non-mobile hosts with both globals that have the `wv` word or a truthy `standalone`; the iOS, Chrome Mobile and "Mobile without Safari" clauses never decide it |
| ContactForm.Utf16Length | src/components/Contact.tsx:140 | the length in UTF-16 code units lies between the number of characters and twice that number |
| ContactForm.Utf16LengthIsCountForBmp | src/components/Contact.tsx:140 | the length equals the number of characters exactly when no character lies outside the Basic Multilingual Plane |
| ContactForm.EmailShapedIsNotBlank | src/components/Contact.tsx:137-138 | an address the pattern accepts is never blank, so "Email is invalid" and "Email is required" are disjoint |
| ContactForm.FieldError | src/components/Contact.tsx:136-140 | Name: the error text is present exactly when the name is blank. Email: blank, or no `\S+@\S+\.\S+` match in the untrimmed value. Message: blank, or under ten UTF-16 units untrimmed. Each present text is the source's wording |
| ContactForm.ValidateForm | src/components/Contact.tsx:133-144 | each field is a key of the error map exactly when its check fails, holding that field's error text |
| ContactForm.ValidIff | src/components/Contact.tsx:143 | the form is valid exactly when the name is not blank, the address matches the pattern, and the message is not blank and is at least ten units long |
| ContactForm.ValidationIsPerField | src/components/Contact.tsx:136-140 | changing one field leaves the presence and the text of every other field's error unchanged |
| ContactForm.PaddedShortMessagePasses | src/components/Contact.tsx:139-140 | `"    hi    "` passes the message check: blankness is judged trimmed and the length untrimmed |
| ContactForm.PaddedAddressPasses | src/components/Contact.tsx:138 | `" a@b.c "` passes the untrimmed, unanchored address test |
| ContactForm.DotBeforeAtFails | src/components/Contact.tsx:138 | a text with a single `@` and no `.` after it never matches the address pattern |
| ContactForm.DotOnlyBeforeAtExample | src/components/Contact.tsx:138 | `a.b@c` gets "Email is invalid" |
| ContactForm.AllFieldsFail | src/components/Contact.tsx:135-142 | when all three checks fail, the map is exactly the three error texts |
| ContactForm.ThreeErrorsExample | src/components/Contact.tsx:136-140 | an empty name, `a@b` and `short` get "Name is required", "Email is invalid" and the ten-character message, and nothing else |
| ContactForm.NoFieldFails | src/components/Contact.tsx:143 | when no check fails the error map is empty |
| ContactForm.ValidExample | src/components/Contact.tsx:133-144 | `Jane`, `jane@x.com` and a twenty-character message are valid |
| ContactForm.InputChange | src/components/Contact.tsx:224-228 | only the edited field changes, and it takes the new value. No error key is added or removed. Afterwards the edited field shows no error, and every other field's error text is kept |
| ContactForm.InputChangeIdempotent | src/components/Contact.tsx:224-228 | typing the same value into the same field twice is the same as typing it once |
| ContactForm.Submit | src/components/Contact.tsx:184-222 | an invalid form is rejected, with the new error map as the only change. A valid one makes exactly the calls of `Dispatch.SubmitActions`: on mobile one same-tab `sms:` navigation; in a webview one new-window Gmail open; on desktop a new-window `mailto:` open with the same-tab fallback exactly when no window came back; each URI reads back to the entered values. It shows the sending state with errors cleared, then ends thanked with an empty form |
| ContactForm.SuccessTimeout | src/components/Contact.tsx:221 | the thank-you banner goes away and nothing else changes |
| ContactForm.RejectionIsStable | src/components/Contact.tsx:186 | submitting a rejected form again, unchanged, is rejected with the same errors |
| ContactForm.EditingClearsOnlyThatError | src/components/Contact.tsx:224-228 | after a rejection, editing one field hides that field's error, and another field shows an error exactly when its check failed |
| ContactForm.SubmissionCycleReturnsToInitial | src/components/Contact.tsx:217-221 | a valid submission followed by the banner's timeout returns the form to its initial state, whatever it held before |

## Behaviour worth noting

- **Encoding of the address.** The `mailto:` address is written unencoded; only the subject and body are percent-encoded there, and the Gmail link encodes its `to` parameter. `UriCompose.MailtoRoundTrip` shows the consequence: a `mailto:` URI reads back only when its address has no `?`.
- **Message length.** The error text says "at least 10 characters", but the code compares the untrimmed `length`, which counts UTF-16 code units (`ContactForm.Utf16Length`). So a short message padded with spaces passes, and a character outside the Basic Multilingual Plane (most emoji) counts as two.
- **End of a submission.** A dispatched submission always ends in the thanked state; no path leads from the sending state straight back to idle.

## Left out

- The JSX, the animations, the contact cards and the social links: presentation only.
- The browser's handling of the `type="email"` input (src/components/Contact.tsx:374-379, inside the form opened at line 353): value sanitization strips line breaks and surrounding whitespace, and constraint validation can stop the `submit` event before `handleSubmit` runs. Neither is modelled. `ContactForm.Submit`, `ContactForm.FieldError` and the address examples (`PaddedAddressPasses`, `DotOnlyBeforeAtExample`, `ThreeErrorsExample`) describe `handleSubmit` and `validateForm` as written, on whatever value reaches them; some of those values, such as `" a@b.c "` or `"x y@a.b"`, a real email field would not hold or would not submit.
- `handleDownloadResume` and `RESUME_DRIVE_LINK`: this is a single `window.open` of a constant link, outside the dispatch and form logic.
- The durations of the two timers (1500 ms and 4000 ms): only the states before and after each timer fires are modelled. Input that arrives while a submission is in flight is not modelled. The page prevents a second submission only by disabling the button.
- A user agent that is `undefined`: `isMobileDevice` would test the string "undefined". That string holds no mobile token, so the verdict is the same as for the empty string the model uses.
- Lone UTF-16 surrogates: strings are sequences of Unicode scalar values. The model's `Encode` therefore never meets the input for which `encodeURIComponent` throws a `URIError`.
- The regular expressions are modelled only for the patterns the page uses. They are written as match-position predicates, not as a general regex engine.
- Whether the host really delivers the message (a mail app or SMS app opening, a popup blocker) is an input (`popupOpened`) or lies outside the model.
- Dispatch.StartProjectActions: requires `WellFormed(site)`. The page's constants meet it (`ContactSiteWellFormed`), and a site whose address held `?` would not round-trip.
- Dispatch.SubmitActions: requires `WellFormed(site)`, for the same reason.
- Dispatch.ScheduleCallActions: requires `WellFormed(site)`, for the same reason.
