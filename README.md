# TDental front end, modelled in Dafny

TDental is a dental clinic's marketing site: a Next.js/React application plus the
static site it replaced, whose behaviour lives in one script. Nearly all of it is markup
and copy. This project models the parts that carry logic and proves what they promise:

- the appointment modal, in both versions:
  - the React one, with its provider, its trigger button, the keydown handler and its
    Tab focus trap, the overlay handlers, the `[isOpen]` effects and the guarded submit;
  - the legacy one, with `addEventOnElem`, the navigation toggle, the scroll threshold,
    the hide timer, `trapFocus`, open/close and the submit sequence;
- the contact, newsletter and call-back forms: their validators, their
  `idle / submitting / success / error` machines and their feedback lines;
- the header: active-link matching, the sticky bar, the mobile menu and its class names;
- the small string helpers: doctor labels, the image-path prefix, the sitemap URLs and
  the team anchors of the about page.

One module per source file, plus four shared modules:

- `Wrappers`: `Option` and `Result`;
- `Text`: the JavaScript string operations, with `trim` over the ECMAScript white-space
  set, `split`/`join` on one character, and `length` in UTF-16 code units;
- `Dom`: the focused element, the body's `modal-open` class, and an event's
  `defaultPrevented` flag;
- `FocusTrap`: the two Tab-trap versions as pure functions.

How the code becomes Dafny:

- Code that updates state in place becomes a class with `modifies` clauses. This covers
  React state, refs and the script's module-level variables.
- Pure expressions become functions.
- A React re-render that changes `isOpen` is one commit step, which runs the effects'
  cleanups and then the effects. `CommitAsWritten` runs the effects in the order they are
  declared. `Commit` saves the focused element before moving focus, which is the order
  the effects evidently intend (finding 1 below); the rest of the model uses `Commit`.
- The legacy hide timer comes in the same two halves (finding 4 below).
  `SetContainerHiddenAsWritten`, `CloseAsWritten` and `KeyDownAsWritten` follow the script.
  `SetContainerHidden`, `Close` and `KeyDown` cancel the pending timer first.
- Each timer becomes a pending field and a separate completion method: the 600 ms and
  500 ms submit delays, the 400 ms hide timer and the animation frame.
- DOM elements are numbers. The focusable elements of a modal are a sequence of
  distinct numbers in document order.
- Environment variables and the scroll position are parameters.

## Model

| member | source | states |
|---|---|---|
| AppointmentModal.DisplayName | src/components/modals/AppointmentModal.tsx:183 | the trimmed `full_name` when it is not blank, and "there" when it is missing or blank, so the name is never empty |
| AppointmentModal.DisplayNameTrimmed | src/components/modals/AppointmentModal.tsx:183 | the display name has no white space at either end, so trimming it again changes nothing |
| AppointmentModal.DisplayNameKeepsTrimmed | src/components/modals/AppointmentModal.tsx:183 | a non-empty name without white space at its ends is shown exactly as typed |
| AppointmentModal.ThanksMessageInjective | src/components/modals/AppointmentModal.tsx:199-201 | two names give the same thank-you line only if they are the same name |
| AppointmentModal.SubmitLabel | src/components/modals/AppointmentModal.tsx:411-413 | the button reads "Sending..." exactly when it is disabled, that is while submitting |
| AppointmentModal.ContainerActiveIffOpen | src/components/modals/AppointmentModal.tsx:211-213 | the container carries the class `active` exactly while the modal is open |
| AppointmentModal.OpenFocus | src/components/modals/AppointmentModal.tsx:117-127 | opening remembers the element that had focus before, and then focuses the default target if there is one |
| AppointmentModal.OpenFocusAsWritten | src/components/modals/AppointmentModal.tsx:45-127 | with the effects in their declared order, opening focuses the default target first and then remembers the focused element, so the remembered element is that target whenever there is one |
| AppointmentModal.CloseFocus | src/components/modals/AppointmentModal.tsx:117-124 | closing focuses the remembered element if there is one, and then forgets it |
| AppointmentModal.AsWrittenForgetsTrigger | src/components/modals/AppointmentModal.tsx:45-127 | with the effects in their declared order, the element remembered at open is the modal's own default target, never the trigger |
| AppointmentModal.AsWrittenOpenCloseLosesTrigger | src/components/modals/AppointmentModal.tsx:45-127 | as written, opening from the focused trigger and closing again leaves focus on the modal's name input, not on the trigger |
| AppointmentModal.OpenCloseRestoresFocus | src/components/modals/AppointmentModal.tsx:117-127 | opening and then closing gives focus back to the element that held it before, and leaves nothing remembered |
| AppointmentModal.AppointmentModal.constructor | src/components/modals/AppointmentModal.tsx:33-39 | a fresh modal is closed and idle, with no feedback and nothing remembered; its invariant, kept by every method, includes that the feedback paragraph is visible (`data-visible`, line 420) exactly when it has text |
| AppointmentModal.AppointmentModal.Commit | src/components/modals/AppointmentModal.tsx:45-143 | the corrected half of finding 1: a change of `isOpen` installs or removes the key handler and the body class; opening saves the focused element and then focuses the default target (`OpenFocus`); closing restores focus (`CloseFocus`) and resets the form state and the feedback; no change does nothing |
| AppointmentModal.AppointmentModal.CommitAsWritten | src/components/modals/AppointmentModal.tsx:45-143 | the effects in their declared order: the same handler, body-class and reset effects as `Commit`, but opening leaves focus and memory as `OpenFocusAsWritten` says |
| AppointmentModal.AppointmentModal.HandleKeyDown | src/components/modals/AppointmentModal.tsx:72-115 | without the handler, and for keys other than Escape and Tab, nothing changes; Escape prevents the default and closes; Tab follows `FocusTrap.ReactTab` |
| AppointmentModal.AppointmentModal.HandleOverlayClick | src/components/modals/AppointmentModal.tsx:145-152 | a click closes the modal exactly when its target is the overlay itself |
| AppointmentModal.AppointmentModal.HandleOverlayKeyDown | src/components/modals/AppointmentModal.tsx:154-166 | Enter or Space on the overlay itself prevents the default and closes; anything else changes nothing |
| AppointmentModal.AppointmentModal.HandleSubmit | src/components/modals/AppointmentModal.tsx:168-183 | a submit while submitting changes nothing; otherwise the state becomes `submitting`, the feedback is cleared and the display name is read |
| AppointmentModal.AppointmentModal.CompleteSubmit | src/components/modals/AppointmentModal.tsx:185-206 | after the wait the state is `success`, the feedback thanks the display name, and the default field has focus |
| AppointmentModal.AppointmentModal.CompleteSubmitAsWritten | src/components/modals/AppointmentModal.tsx:185-189 | as written, the wait ends in a thrown error: the state stays `submitting` and the feedback stays empty |
| AppointmentModal.AsWrittenSubmitNeverSucceeds | src/components/modals/AppointmentModal.tsx:168-201 | as written, a submission leaves the state `submitting` and the button reading "Sending..." |
| AppointmentModal.SubmitRound | src/components/modals/AppointmentModal.tsx:168-206 | with both corrections, the form captured before the wait (finding 2) and focus saved before it moves (finding 1): one round goes submitting, then success with the thanks line, then idle on close with focus back on the trigger |
| FocusTrap.ReactTab | src/components/modals/AppointmentModal.tsx:88-107 | the default is prevented exactly for Shift+Tab on the first or Tab on the last focusable; focus then wraps to the other end and otherwise stays put |
| FocusTrap.LegacyTrapFocus | scripts/dentelo-website/assets/js/script.js:98-115 | keys other than Tab, and a missing modal, change nothing |
| FocusTrap.TrapVersionsAgree | scripts/dentelo-website/assets/js/script.js:98-115 | on every Tab press the legacy `trapFocus` and the React handler do the same thing |
| FocusTrap.Press | src/components/modals/AppointmentModal.tsx:88-107 | from any focusable, one Tab or Shift+Tab leaves focus on a focusable of the modal |
| FocusTrap.PressRotates | src/components/modals/AppointmentModal.tsx:88-107 | Tab moves one step forward and Shift+Tab one step back, with the two ends joined |
| FocusTrap.PressesForward | src/components/modals/AppointmentModal.tsx:88-107 | away from the end, k Tab presses move focus k places forward |
| FocusTrap.PressesBackward | src/components/modals/AppointmentModal.tsx:88-107 | away from the start, k Shift+Tab presses move focus k places back |
| FocusTrap.FullCycleReturns | src/components/modals/AppointmentModal.tsx:88-107 | as many presses of one key as there are focusables bring focus back to where it started |
| AppointmentModalContext.ModalContext.constructor | src/contexts/AppointmentModalContext.tsx:27 | `isOpen` starts false |
| AppointmentModalContext.ModalContext.Open | src/contexts/AppointmentModalContext.tsx:29 | `open` makes `isOpen` true |
| AppointmentModalContext.ModalContext.Close | src/contexts/AppointmentModalContext.tsx:30 | `close` makes `isOpen` false |
| AppointmentModalContext.ModalContext.Toggle | src/contexts/AppointmentModalContext.tsx:31 | `toggle` negates `isOpen` |
| AppointmentModalContext.UseAppointmentModal | src/contexts/AppointmentModalContext.tsx:50-59 | the hook returns the provider's value, and is an error without a provider |
| AppointmentModalContext.OpenTwice | src/contexts/AppointmentModalContext.tsx:29 | a second `open` changes nothing |
| AppointmentModalContext.CloseTwice | src/contexts/AppointmentModalContext.tsx:30 | a second `close` changes nothing |
| AppointmentModalContext.ToggleTwice | src/contexts/AppointmentModalContext.tsx:31 | two toggles bring `isOpen` back |
| BookAppointmentButton.ButtonType | src/components/common/BookAppointmentButton.tsx:20 | the type is `button` unless another one is passed |
| BookAppointmentButton.Click | src/components/common/BookAppointmentButton.tsx:30-34 | the caller's `onClick` runs first; `open` follows, and the modal is open, exactly when the default was not prevented |
| BookAppointmentButton.ClickOnClosedModal | src/components/common/BookAppointmentButton.tsx:30-34 | a click opens a closed modal exactly when no caller handler prevented the default, and always when there is no handler |
| ContactForm.IsValid | src/components/forms/ContactForm.tsx:91-109 | the loop's verdict is `ContactValid`: all four required fields non-blank after trimming, and an `@` in the trimmed email |
| ContactForm.ContactValid | src/components/forms/ContactForm.tsx:91-109 | a valid form has all four required fields, and its email contains an `@` |
| ContactForm.BlankRequiredRejected | src/components/forms/ContactForm.tsx:99-104 | a required field that is missing or all white space makes the form invalid |
| ContactForm.OptionalFieldsIgnored | src/components/forms/ContactForm.tsx:92-97 | setting any field other than the four required ones never changes the verdict |
| ContactForm.CapitalizeAll | src/components/forms/ContactForm.tsx:77 | every part is capitalised, in place, and no part is added or lost |
| ContactForm.DoctorLabelWords | src/components/forms/ContactForm.tsx:73-79 | for an id without spaces, the label's words are exactly the capitalised dash-separated parts, as many words as parts |
| ContactForm.DoctorLabel | src/components/forms/ContactForm.tsx:75-78 | each dash becomes one space and each character is kept or upper-cased, so the label is exactly as long as the id |
| ContactForm.TwoPartLabel | src/components/forms/ContactForm.tsx:76-78 | a two-part id gives its two capitalised parts joined by one space |
| ContactForm.HowardHolmesLabel | src/components/forms/ContactForm.tsx:73-79 | `howard-holmes` is offered as `Howard Holmes` |
| ContactForm.FeedbackDistinguishesStates | src/components/forms/ContactForm.tsx:114-124 | each state has its own feedback line, and the line is empty exactly when idle |
| ContactForm.Feedback | src/components/forms/ContactForm.tsx:114-124 | the feedback line is empty exactly when the form is idle |
| ContactForm.ContactFormState.constructor | src/components/forms/ContactForm.tsx:112 | the form starts idle |
| ContactForm.ContactFormState.Submit | src/components/forms/ContactForm.tsx:130-141 | an invalid form goes to `error` and keeps its values; a valid one goes to `success` and every field is emptied |
| ContactForm.ContactFormState.Input | src/components/forms/ContactForm.tsx:161-165 | an input stores the value and brings the state back to `idle` |
| NewsletterSignup.ShortAddressRejected | src/components/forms/NewsletterSignup.tsx:40-44 | a trimmed address of three characters or fewer is refused, even with an `@` |
| NewsletterSignup.ValidEmail | src/components/forms/NewsletterSignup.tsx:40-44 | a missing address is refused, and an accepted one contains an `@` and is at least two characters long after trimming |
| NewsletterSignup.ThreeCharacterAddressRejected | src/components/forms/NewsletterSignup.tsx:44 | `a@b` is refused |
| NewsletterSignup.PaddingIgnored | src/components/forms/NewsletterSignup.tsx:40-42 | white space around an address never changes the verdict |
| NewsletterSignup.PlainAddressAccepted | src/components/forms/NewsletterSignup.tsx:44 | an unpadded address of four or more characters with an `@` is accepted |
| NewsletterSignup.FeedbackDistinguishesStates | src/components/forms/NewsletterSignup.tsx:17-27 | the three states show three different lines, and only idle shows nothing |
| NewsletterSignup.Feedback | src/components/forms/NewsletterSignup.tsx:17-27 | the feedback line is empty exactly when the form is idle |
| NewsletterSignup.FormClassName | src/components/forms/NewsletterSignup.tsx:29 | a non-empty class name is kept at the front of the form's class and followed by a space |
| NewsletterSignup.FormClassNameShape | src/components/forms/NewsletterSignup.tsx:29 | the class always ends in `hero-form`, and is exactly that when no class name, or an empty one, is given |
| NewsletterSignup.FormCarriesBothClasses | src/components/forms/NewsletterSignup.tsx:29 | a class name without spaces stays a class of its own beside `hero-form` |
| NewsletterSignup.NewsletterForm.constructor | src/components/forms/NewsletterSignup.tsx:15 | the form starts idle with an empty field |
| NewsletterSignup.NewsletterForm.Submit | src/components/forms/NewsletterSignup.tsx:36-53 | an invalid address shows the error and stays in the field; a valid one shows the thanks and the field is reset |
| NewsletterSignup.NewsletterForm.Input | src/components/forms/NewsletterSignup.tsx:66-70 | typing stores the value and brings the state back to `idle` |
| HeroCallBackForm.CallBackMessage | src/components/sections/home/HeroCallBackForm.tsx:26-30 | a non-empty address appears in the thank-you line at a fixed place; with none the line is the generic one |
| HeroCallBackForm.CallBackMessageInjective | src/components/sections/home/HeroCallBackForm.tsx:26-30 | different addresses give different thank-you lines |
| HeroCallBackForm.ButtonLabel | src/components/sections/home/HeroCallBackForm.tsx:49-50 | the button reads "Sending..." exactly when it is disabled, that is while submitting |
| HeroCallBackForm.CallBackForm.constructor | src/components/sections/home/HeroCallBackForm.tsx:7-10 | the form starts idle with no feedback; its invariant, kept by every method, includes that the feedback line is visible (`data-visible`, line 56) exactly when it has text |
| HeroCallBackForm.CallBackForm.Submit | src/components/sections/home/HeroCallBackForm.tsx:12-22 | a submit while submitting changes nothing; otherwise the status is `submitting`, the feedback is cleared and the trimmed address is read |
| HeroCallBackForm.CallBackForm.Type | src/components/sections/home/HeroCallBackForm.tsx:22-43 | typing into `email_address` sets the field that the next submit reads, and leaves the status, the feedback and any pending request alone |
| HeroCallBackForm.CallBackForm.Complete | src/components/sections/home/HeroCallBackForm.tsx:24-32 | when the timer fires the status is `success`, the line thanks the address read at submit, and the field is reset |
| HeroCallBackForm.CallBackForm.CompleteAsWritten | src/components/sections/home/HeroCallBackForm.tsx:24-31 | as written, status and feedback are set but the reset throws, so the address stays in the field |
| HeroCallBackForm.AsWrittenKeepsAddress | src/components/sections/home/HeroCallBackForm.tsx:12-32 | as written, the address is still in the field after a successful request |
| HeroCallBackForm.RequestRound | src/components/sections/home/HeroCallBackForm.tsx:12-32 | one request is `submitting` on a "Sending..." button (a second submit is ignored), then `success` with the trimmed address thanked and the field empty |
| Header.HashLinksNeverActive | src/components/layout/Header.tsx:131-134 | an in-page `#` link is never active on a path |
| Header.IsActive | src/components/layout/Header.tsx:131-134 | Home is active only on `/` itself; every other link is active exactly on the paths that start with its `href`, and an active link is always a prefix of the path |
| Header.HomeAndContactActive | src/components/layout/Header.tsx:20-26 | Home is active exactly on `/`, and Contact on `/contact` and every path that starts with it |
| Header.AtMostOneActive | src/components/layout/Header.tsx:130-134 | on any path at most one of the five links is active |
| Header.HeaderBottomClassNames | src/components/layout/Header.tsx:74-80 | the class is `header-bottom active` when sticky and `header-bottom` otherwise, so it carries `active` exactly when sticky |
| Header.NavbarClasses | src/components/layout/Header.tsx:126 | the navbar keeps its two classes and carries `active` exactly while the menu is open |
| Header.ToggleAndLinkClasses | src/components/layout/Header.tsx:140-156 | the toggle carries `active` exactly while the menu is open, and a link exactly while it is active |
| Header.HeaderState.constructor | src/components/layout/Header.tsx:54-72 | on mount the sticky flag reflects the scroll position and the menu is closed |
| Header.HeaderState.ToggleMenu | src/components/layout/Header.tsx:159 | the toggle negates `isMenuOpen` and changes nothing else |
| Header.HeaderState.OnScroll | src/components/layout/Header.tsx:58-59 | a scroll sets the sticky flag from the threshold and leaves the menu alone |
| Header.HeaderState.Navigate | src/components/layout/Header.tsx:70-72 | a change of path closes the menu, and the same path leaves it as it was |
| Header.MenuClosesOnNavigation | src/components/layout/Header.tsx:70-72 | after opening the menu and moving to another path, `aria-expanded` is false and the navbar has no `active` |
| LegacyScript.Listeners.AddEventOnElem | scripts/dentelo-website/assets/js/script.js:9-19 | the listener is added to every element the target stands for (none, one, or each of a collection) and to nothing else |
| LegacyScript.AttachTwice | scripts/dentelo-website/assets/js/script.js:9-19 | attaching the same callback twice is attaching it once, on exactly the target's elements |
| LegacyScript.LegacyNav.constructor | scripts/dentelo-website/assets/js/script.js:27-29 | the navbar, its toggler, the header and the back-to-top button start without `active` |
| LegacyScript.LegacyNav.ToggleNav | scripts/dentelo-website/assets/js/script.js:31-34 | the navbar and its toggler flip together and stay equal |
| LegacyScript.LegacyNav.CloseNav | scripts/dentelo-website/assets/js/script.js:38-41 | both navigation classes are removed |
| LegacyScript.LegacyNav.OnScroll | scripts/dentelo-website/assets/js/script.js:54-62 | the header and back-to-top are active exactly from 100 pixels of scrolling |
| LegacyScript.LegacyDisplayName | scripts/dentelo-website/assets/js/script.js:190-192 | the trimmed name when the field is present and not blank, and "there" when it is missing or blank |
| LegacyScript.DisplayNamesAgree | scripts/dentelo-website/assets/js/script.js:190-193 | the legacy script greets the same name as the React modal for every `full_name` value |
| LegacyScript.LegacyModal.constructor | scripts/dentelo-website/assets/js/script.js:70-81 | the container starts hidden and inactive, with no timer and nothing remembered |
| LegacyScript.LegacyModal.SetContainerHiddenAsWritten | scripts/dentelo-website/assets/js/script.js:83-96 | as written, hiding adds a timer and overwrites the reference to any pending one; showing cancels only the referenced timer |
| LegacyScript.LegacyModal.SetContainerHidden | scripts/dentelo-website/assets/js/script.js:83-96 | the corrected half of finding 4: with the pending timer cancelled first, showing leaves no hide pending and removes `hidden`, and hiding leaves exactly one, the referenced one |
| LegacyScript.LegacyModal.FireHideTimer | scripts/dentelo-website/assets/js/script.js:85-88 | a firing hide timer sets `hidden`, clears the reference and removes itself from the pending ones; the rest, feedback, button, form and focus, is unchanged |
| LegacyScript.LegacyModal.AnimationFrame | scripts/dentelo-website/assets/js/script.js:121-123 | a pending frame makes the container `active` and is used up; nothing else changes |
| LegacyScript.LegacyModal.Open | scripts/dentelo-website/assets/js/script.js:117-137 | without a modal nothing changes; otherwise the container is shown with no hide pending, `active` is requested, the focused element is saved, the feedback is cleared and the default target focused |
| LegacyScript.LegacyModal.Close | scripts/dentelo-website/assets/js/script.js:139-147 | `closeModal` over the corrected `SetContainerHidden` (finding 4): `active` and `modal-open` are removed, exactly one hide is pending, and the saved element, if any, gets focus back |
| LegacyScript.LegacyModal.CloseAsWritten | scripts/dentelo-website/assets/js/script.js:139-147 | as written, every close adds one more pending hide timer and keeps the older ones; `active` and `modal-open` go, focus goes back to the saved element, and the feedback, button and form are unchanged |
| LegacyScript.LegacyModal.KeyDown | scripts/dentelo-website/assets/js/script.js:160-169 | the keydown listener over the corrected close (finding 4): an inactive container ignores keys; Escape closes it: `active` and `modal-open` go, the referenced hide timer is cancelled and one new one started, focus goes back to the saved element, and `hidden`, the feedback, the button and the form are unchanged; every other key goes to `trapFocus` |
| LegacyScript.LegacyModal.KeyDownAsWritten | scripts/dentelo-website/assets/js/script.js:160-169 | as written: an inactive container ignores keys; Escape calls `closeModal` as written, so one more hide timer is pending and the older ones stay, `active` and `modal-open` go, focus goes back to the saved element, and `hidden`, the feedback, the button and the form are unchanged; every other key goes to `trapFocus` |
| LegacyScript.LegacyModal.Submit | scripts/dentelo-website/assets/js/script.js:181-189 | the button is disabled and reads "Sending...", and a submit timer starts, with no guard against a second submit |
| LegacyScript.LegacyModal.ResetForm | scripts/dentelo-website/assets/js/script.js:195 | the form reset empties the name field |
| LegacyScript.LegacyModal.TypeName | scripts/dentelo-website/assets/js/script.js:190-191 | typing into `full_name` sets the field the submit timer reads, where the form has one, and changes nothing else |
| LegacyScript.LegacyModal.ShowThanks | scripts/dentelo-website/assets/js/script.js:203-211 | the button is enabled with "Submit Request" and the thank-you line is shown, where the page has them |
| LegacyScript.LegacyModal.CompleteSubmit | scripts/dentelo-website/assets/js/script.js:189-217 | a firing submit timer thanks the name read from the form, resets the form, re-enables the button and focuses the default target |
| LegacyScript.AsWrittenDoubleCloseHidesOpenModal | scripts/dentelo-website/assets/js/script.js:83-96 | as written, two closes and then an open leave an active modal that the orphaned timer hides |
| LegacyScript.DoubleCloseThenOpen | scripts/dentelo-website/assets/js/script.js:83-96 | with the pending timer cancelled first, the same clicks leave an active, visible modal with no hide pending |
| LegacyScript.LegacySubmitRound | scripts/dentelo-website/assets/js/script.js:181-217 | one submission shows "Sending..." on a disabled button, then "Submit Request" on an enabled one and a visible thank-you line greeting the typed name |
| ImageLoader.Load | src/lib/imageLoader.ts:3-10 | an `http` source comes back unchanged, any other one behind the base path, and the source is always a suffix of the result |
| ImageLoader.NoBasePathIdentity | src/lib/imageLoader.ts:4-10 | without a base path every source comes back unchanged |
| ImageLoader.PrefixIsBasePath | src/lib/imageLoader.ts:6-10 | what is put in front of the source is the base path, or nothing for `http` sources |
| Sitemap.BaseUrl | src/app/sitemap.ts:4 | the configured URL is used unless it is unset or empty, and then the local development server is |
| Sitemap.EntriesFor | src/app/sitemap.ts:8-11 | one entry per route, in order, each URL the base followed by the route |
| Sitemap.SitemapShape | src/app/sitemap.ts:6-11 | five entries in route order, each starting with the base URL |
| Sitemap.DistinctRoutesDistinctUrls | src/app/sitemap.ts:8-11 | distinct routes give distinct URLs under any base |
| Sitemap.UrlsDistinct | src/app/sitemap.ts:6-11 | no page is listed twice |
| AboutPage.TeamMembers | src/app/about/page.tsx:65-68 | one team member per doctor, in order, with the doctor's fields unchanged and the anchor added |
| AboutPage.AnchorWithoutFragment | src/app/about/page.tsx:67 | a link without `#` gives the anchor `team-<id>` |
| AboutPage.AnchorIsFragment | src/app/about/page.tsx:67 | a link with `#` gives the text between the first `#` and the next one, or the end |
| AboutPage.Anchor | src/app/about/page.tsx:67 | a link without `#` gives `team-<id>`, and the anchor taken from a link with `#` never contains `#` itself |
| AboutPage.TrailingHashGivesEmptyAnchor | src/app/about/page.tsx:67 | a trailing `#` gives the empty anchor, not the fallback |
| AboutPage.HowardAnchor | src/app/about/page.tsx:67 | `/about#team-howard` gives the anchor `team-howard` |
| Text.TrimIsSlice | src/components/forms/ContactForm.tsx:100 | `trim` cuts only white space from the two ends and leaves none there |
| Text.TrimEmptyIff | src/components/forms/ContactForm.tsx:100-101 | a value trims to empty exactly when it is all white space |
| Text.Trim | src/components/forms/ContactForm.tsx:100 | the result is no longer than the input, and is empty or has no white space at either end |
| Text.Utf16Length | src/components/forms/NewsletterSignup.tsx:44 | `length` counts between one and two code units per character |
| Text.Split | src/components/forms/ContactForm.tsx:76 | `split` gives at least one part, none containing the separator, and joining them back gives the input |
| Text.SplitJoin | src/components/forms/ContactForm.tsx:76-78 | splitting a join of separator-free parts gives the parts back |
| Text.Capitalize | src/components/forms/ContactForm.tsx:77 | the first character is upper-cased and the rest is kept |
| Text.UpperChar | src/components/forms/ContactForm.tsx:77 | `toUpperCase` maps each ASCII lower-case letter to its upper-case letter and keeps every other character |
| Dom.Document.Focus | src/components/modals/AppointmentModal.tsx:102-106 | `focus()` makes the element the focused one and leaves the body class alone |
| Dom.Document.SetBodyModalOpen | src/components/modals/AppointmentModal.tsx:47-67 | adding or removing `modal-open` on the body sets the flag to the requested value and leaves focus alone |
| Dom.KeyboardEvent.PreventDefault | src/components/modals/AppointmentModal.tsx:101-105 | `preventDefault()` on a key event leaves `defaultPrevented` set |
| Dom.MouseEvent.PreventDefault | src/components/common/BookAppointmentButton.tsx:30-34 | a caller's `preventDefault()` on the click leaves `defaultPrevented` set, the flag the button reads before opening |

## Left out

- Dates: the minimum date of the date input and the sitemap's `lastModified` depend on the
  clock and the time zone.
- HTML constraint validation (`required`, the phone pattern, the time range): the browser
  enforces it, not the code.
- The appointment form's fields other than the name are not modelled. In the React modal the
  name read from `FormData` is the `fullName` parameter of `HandleSubmit`; in the legacy
  script it is the `nameField` that `TypeName` sets and `ResetForm` empties. The React
  modal's `reset()` of the captured form at AppointmentModal.tsx:189 is not modelled,
  since the React model has no form fields.
- The page render itself is not modelled: styling, icons, portals, whether the modal is
  mounted, and the static markup and copy.
- React's render batching, and handlers that read state from an earlier render, are not
  modelled. Each state change is a separate step.
- The order in which one element's listeners run is not modelled. `Listeners` is a set, as
  `addEventListener` ignores a repeated registration.
- `FormData` with several values under one name is not modelled. A field is one string,
  or missing.
- The scroll position is a `real`. Environment variables are `Option<string>`
  parameters.
- Dom.Document.Focus: `focus()` always succeeds in the model. A browser ignores it on an
  element that is not rendered, for instance inside a container that is already `hidden`.
  So in finding 1 the part that holds in any case is that focus does not go back to the
  trigger; `AsWrittenOpenCloseLosesTrigger` names the modal's input as where it lands only
  because `focus()` always succeeds.
- AppointmentModal.AppointmentModal.HandleSubmit: one pending submission is modelled at a
  time. A submission still waiting when the modal closes is overwritten by the next one,
  since the close resets the state to idle and the guard lets the next submit through. In
  the source both 600 ms waits run, so the first name is thanked briefly before the second.
- AppointmentModal.AppointmentModal.HandleSubmit, LegacyScript.LegacyModal.Submit,
  ContactForm.ContactFormState.Submit, NewsletterSignup.NewsletterForm.Submit,
  HeroCallBackForm.CallBackForm.Submit, LegacyScript.LegacyModal.Open: these take no
  event, so their `event.preventDefault()` is not modelled. The native form submission and
  the link navigation that the source cancels are not modelled either. The key and overlay
  handlers do take an event, because their callers read `defaultPrevented`.
- FocusTrap.Press: the focusable list is fixed when the modal is built. Both trap handlers
  query `querySelectorAll` again on every key press, and `button:not([disabled])` leaves
  out the submit button while it is disabled. So during a submission the cycle lemmas still
  count that button. The React handler's first and last elements, the close button and the phone link, are the
  same either way.
- LegacyScript.LegacyModal: the unguarded `modal.querySelector("#input-date")` at
  script.js:171 throws on a page whose container has no `[data-modal]`. The submit listener
  is then never installed. The model has `Submit` do nothing without a modal, which matches,
  but it does not model the throw.
- LegacyScript.LegacyNav: `toggleNav` and the scroll listener (script.js:31-34, 54-62)
  throw on a page without the navbar, the header or the back-to-top element. The model
  assumes all four elements exist.
- LegacyScript.LegacyModal.AnimationFrame: a frame requested by an open and run after a
  close re-adds `active` to the closed container. The model allows that order but claims
  nothing about it.
- Text.UpperChar: `toUpperCase` is modelled for the ASCII letters only. Other letters are
  left as they are.
- Text.Utf16Length: characters outside the Basic Multilingual Plane count twice, as in
  JavaScript. NewsletterSignup.ShortAddressRejected assumes every character is in the
  Basic Multilingual Plane.
- FocusTrap.Press: when the handler does not wrap, the browser's own Tab move is assumed to
  go to the next or previous element of the focusable list. The source does not say this.
  Only the cycle lemmas use it.

## Findings

| source | as written | input that shows it | evidently intended | confidence | as-written member | corrected member |
|---|---|---|---|---|---|---|
| src/components/modals/AppointmentModal.tsx:45-127 | the effect declared first focuses `[data-focus-default]` before the later effect saves `document.activeElement`, so the saved element is the modal's own input | open the modal from a button that has focus, then close it: focus does not go back to the button (in the model it lands on the full-name input) | save the element that had focus, then move focus into the modal, as the legacy script does at script.js:126-135 | medium, not executed | AppointmentModal.AsWrittenForgetsTrigger | AppointmentModal.OpenCloseRestoresFocus |
| src/components/modals/AppointmentModal.tsx:185-201 | `event.currentTarget.reset()` runs after the `await`, when React has already set `currentTarget` to null, so it throws and `success` is never set | submit the appointment form once: the button stays disabled on "Sending..." until the modal is closed | capture the form element before the wait and reset it afterwards | high, not executed | AppointmentModal.AsWrittenSubmitNeverSucceeds | AppointmentModal.SubmitRound |
| src/components/sections/home/HeroCallBackForm.tsx:31 | the timer callback calls `event.currentTarget.reset()` after the handler has returned, when `currentTarget` is null, so the reset throws | submit `ann@example.com`: the thanks line appears but the address stays in the field | reset the form captured when the submit was handled | high, not executed | HeroCallBackForm.AsWrittenKeepsAddress | HeroCallBackForm.RequestRound |
| scripts/dentelo-website/assets/js/script.js:83-96 | `setContainerHidden(true)` overwrites `hideModalTimer` without clearing a pending timer, so a second close during the fade-out orphans the first timer | close the modal twice within 400 ms, then open it again: the orphaned timer fires and hides the open modal | clear any pending hide timer before starting a new one | medium, not executed | LegacyScript.AsWrittenDoubleCloseHidesOpenModal | LegacyScript.DoubleCloseThenOpen |
