# BRS Photo Creator — a Dafny model of its screen logic

The app is a React Native front end. Its root layout switches between twelve
pages, keeps a hand-rolled back stack, and routes the hardware back button
through a fixed priority order. Around that sit a few pieces of sequential
logic: the phone-number and one-time-code sign-in screens, the paginated video
list, the overlay editor's gesture arithmetic and the skip-video pop-up's
countdown. This project models each of them as immutable state plus pure
transition functions, and proves the properties those screens promise.

Modules. Each of the first five follows one part of the source; `Session` spans
the two sign-in screens and the layout's `Logout`:

- `Navigation` (`navigation.dfy`) models `app/_layout.tsx`. It covers the page
  enum, the state (current page, history, drawer, splash), `navigateTo`,
  `goBack`, the back handler, the splash finish, the menu button, tabs and
  drawer, and an event-driven `Run`. It proves the layout invariant: the pages
  on the stack and the current page never repeat back to back.
- `Session` (`session.dfy`) models `app/login.tsx`, `app/otp.tsx` and the
  layout's `Logout`. Each handler returns the ordered list of effects it
  performs: storage writes, alerts, the request, loading changes and page
  changes. `ApplyAll` interprets that list against the app state. The server's
  answer is an input.
- `VideoPagination` (`video_pagination.dfy`) models `app/videos.tsx`.
- `OverlayEditor` (`overlay_editor.dfy`) models the transform arithmetic of
  `app/edit-image-generate.tsx`.
- `VideoPopup` (`video_popup.dfy`) models `components/VideoPopup.tsx`.
- `JsText` (`js_text.dfy`) models no source file. It holds the JavaScript
  built-ins the others depend on:
  `String.prototype.trim` and the decimal printing of numbers.

Behaviour of the code that the model keeps as written:

- The login screen is handed `navigateTo`, so a successful send pushes the
  login page onto the history. The code screen is handed the raw page setter,
  so a successful verification does not push anything. After signing in, the
  dashboard therefore has the login page directly beneath it
  (`Session.SignInEndToEnd`).
- The code does not clamp the overlay image's drag, does not bound the pinch
  scale, has no crop-shape cycling, and does not choose the first page from a
  stored session flag: the first page is the dashboard, behind the splash.
- The skip delay constant is `0` in the code (a 15000 ms value is commented
  out). The countdown therefore starts from, and is reset to, 0 seconds.
- The sign-in screens cannot be reached in the code as it stands:
  - no code navigates to the login page;
  - the only `navigateTo('login')` is the in-page splash's finish callback
    (`app/_layout.tsx:167`), which renders only on the `SplashScreen` page,
    and nothing sets that page;
  - `Logout`, which would show the login page, is defined in the layout but
    no rendered control calls it.

  The `Session` lemmas describe those screens as they would behave if shown.
  They are reachable in the model only because `Navigation.Event.Screen(p)`
  lets a mounted screen request any page.

## Model

| member | source | states |
|---|---|---|
| Navigation.Initial | app/_layout.tsx:56-59 | the app starts with the splash over the dashboard, an empty history and the drawer closed |
| Navigation.InitialWellFormed | app/_layout.tsx:56-59 | the first render satisfies the layout invariant, so every run from it does |
| Navigation.NavigateTo | app/_layout.tsx:68-73 | re-entering the current page changes nothing; any other target becomes current and the old page is appended to the history; drawer and splash untouched |
| Navigation.GoBack | app/_layout.tsx:75-82 | on an empty history nothing changes; otherwise the last entry becomes current and exactly that entry is removed |
| Navigation.BackAction | app/_layout.tsx:86-112 | priority: open drawer is closed (handled, stack untouched); else one goBack (handled); else on the dashboard an exit prompt with no state change (handled); else unhandled with no change |
| Navigation.SplashFinished | app/_layout.tsx:124-128 | finishing the splash hides it and shows the dashboard, keeping history and drawer |
| Navigation.PressMenu | app/_layout.tsx:156-159 | the menu button flips the drawer only where the header is drawn (not on login/otp, not under the splash) |
| Navigation.PressTab | app/_layout.tsx:219-231 | a tab press is navigateTo for the five tab pages where the tab bar is drawn, and otherwise nothing |
| Navigation.PressDrawerItem | app/_layout.tsx:250-268 | a drawer entry navigates to its page and closes the drawer; nothing happens when the drawer is not shown |
| Navigation.PressBackdrop | app/_layout.tsx:270-274 | tapping the backdrop closes the drawer |
| Navigation.Step | app/_layout.tsx:86-274 | under the splash only the back button and the splash timer act; the splash never returns; only the back button shortens the history, every other event keeps it or pushes exactly one page |
| Navigation.StepKeepsWellFormed | app/_layout.tsx:68-128 | every layout event keeps history+current free of back-to-back repeats, and keeps the stack empty and the drawer shut while the splash is up |
| Navigation.RunKeepsWellFormed | app/_layout.tsx:68-128 | any sequence of layout events from a well-formed state (e.g. the first render) stays well formed |
| Navigation.NavigateThenBack | app/_layout.tsx:68-82 | navigating to a different page and then going back restores the original state exactly |
| Navigation.NavigateAllPushes | app/_layout.tsx:68-73 | n changing navigations push exactly the n pages that were left, in order, and make the last target current |
| Navigation.NavigateAllThenBackAll | app/_layout.tsx:68-82 | n changing navigations undone by n back steps return to the starting page and history |
| Navigation.DrawerWinsOverHistory | app/_layout.tsx:86-95 | with the drawer open and a non-empty history a back press only closes the drawer |
| JsText.TrimStart | app/login.tsx:17 | the result is the suffix of the input that starts at its first non-whitespace character, and all dropped characters are whitespace |
| JsText.TrimEnd | app/login.tsx:17 | the result is the prefix of the input that ends at its last non-whitespace character, and all dropped characters are whitespace |
| JsText.Trim | app/login.tsx:17 | the trimmed text neither starts nor ends with whitespace, and is empty exactly when the input is all whitespace |
| JsText.TrimCharacterised | app/login.tsx:17 | trim returns exactly the core of any split of the input into whitespace, a core that neither starts nor ends with whitespace, and whitespace |
| JsText.TrimIdempotent | app/login.tsx:17 | trimming twice equals trimming once |
| Session.AcceptsIffTenDigits | app/login.tsx:19 | the guard as written (UTF-16 length 10 and the digit pattern) accepts exactly the strings of ten ASCII digits |
| Session.SendOtp | app/login.tsx:16-48 | a press while loading does nothing; a number that is not ten digits after trimming gives exactly the "Invalid Number" alert; a valid one turns loading on, sends the trimmed number, and ends by turning loading off |
| Session.SendOtpRejects | app/login.tsx:17-22 | a number that is not ten digits after trimming yields exactly the "Invalid Number" alert: no request, and loading, storage and page unchanged |
| Session.NineDigitsNeverRequested | app/login.tsx:17-22 | a nine-digit number never causes a request |
| Session.SendOtpRequestsTrimmed | app/login.tsx:17-31 | a valid number causes exactly one request, issued right after loading is set, and its body carries the trimmed number |
| Session.ValidPressFinal | app/login.tsx:24-47 | after a valid press, success stores the number and pushes the code page; a failure answer or a thrown error leaves the state unchanged; loading ends false |
| Session.SendOtpFinal | app/login.tsx:33-47 | for every valid raw input the end state is as in ValidPressFinal, with the number stored trimmed |
| Session.SendOtpLoadingWhileInFlight | app/login.tsx:24-47 | for every valid press, loading is true after every effect from the first to the second-to-last, and false at the end |
| Session.ValidPressAlerts | app/login.tsx:35-44 | a valid press shows exactly one kind of alert: "OTP Sent" on success, otherwise "Error" with the server's or the error's message, or the matching default when that message is empty |
| Session.OrDefault | app/login.tsx:40-44 | JavaScript `||` on strings: an empty message gives the default text, a non-empty one is kept as is |
| Session.Verify | app/otp.tsx:15-22 | the page changes iff the code is exactly "1234"; any other code gives only the "Invalid OTP" alert; it never calls navigateTo |
| Session.VerifyOutcome | app/otp.tsx:16-21 | verification succeeds iff the code equals "1234" exactly; success stores isLoggedIn="true" and sets the page to dashboard without touching the history; failure is the "Invalid OTP" alert alone and changes nothing |
| Session.VerifyStoresBeforeLeaving | app/otp.tsx:16-18 | the session flag is stored while the code page is still current |
| Session.VerifyRejectsPaddedCode | app/otp.tsx:16 | " 1234" is rejected and changes nothing |
| Session.Logout | app/_layout.tsx:133-140 | logout removes both session keys, clears the history, ends on the login page, and writes nothing |
| Session.LogoutOutcome | app/_layout.tsx:133-140 | logout empties the history, shows the login page, removes exactly the isLoggedIn and phoneNumber keys and keeps every other stored value |
| Session.SignInEndToEnd | app/_layout.tsx:167-215 | valid number, accepting server, then the demo code: login→otp→dashboard, both keys stored, and the login page left on top of the history |
| Session.SignInKeepsWellFormed | app/otp.tsx:17-18 | signing in from a well-formed layout keeps the no-repeat invariant although the code screen skips navigateTo |
| VideoPagination.Slice | app/videos.tsx:27 | JavaScript slice: bounds cut to the length, empty when they cross, an ordinary subsequence when in range |
| VideoPagination.Initial | app/videos.tsx:8-19 | the list starts as the first min(10, n) videos with no load pending |
| VideoPagination.LoadMore | app/videos.tsx:22-25 | reaching the end is ignored when everything is shown or a load is pending; otherwise a load is scheduled |
| VideoPagination.LoadCompleted | app/videos.tsx:26-30 | a completed load clears the pending flag; with no pending load nothing happens |
| VideoPagination.LoadCompletedAppendsNextBlock | app/videos.tsx:9-28 | a completed load appends exactly the next min(5, remaining) videos, at least one |
| VideoPagination.LoadCompletedKeepsValid | app/videos.tsx:27-28 | a completed load keeps the rendered list a prefix of the videos |
| VideoPagination.RunKeepsPrefix | app/videos.tsx:19-31 | under any order of scroll and timer events the rendered list stays a prefix of the videos, so it never outgrows them, and it only grows |
| VideoPagination.RoundsShowPrefix | app/videos.tsx:8-31 | after k completed loads from mount exactly the first min(10+5k, n) videos are shown |
| VideoPagination.MountedBeforeFetch | app/videos.tsx:18-19 | a list mounted before the fetch finished starts empty, which is a prefix of whatever arrives |
| OverlayEditor.Initial | app/edit-image-generate.tsx:28-38 | the editor starts at scale 1, image at (100,100), text at (50,50), label "Your text", editor and label sizes 0, no image height |
| OverlayEditor.Clamp | app/edit-image-generate.tsx:101-102 | the clamped value is never negative, is at most the limit when the limit is non-negative, is 0 when it is negative, and is unchanged when already in range |
| OverlayEditor.ClampIsNearest | app/edit-image-generate.tsx:101-102 | the clamped value is the point of [0, limit] nearest to the requested one |
| OverlayEditor.ClampIdempotent | app/edit-image-generate.tsx:101-102 | clamping twice equals clamping once |
| OverlayEditor.DragImageStart | app/edit-image-generate.tsx:71-74 | the image pan remembers the image position at gesture start |
| OverlayEditor.DragImageActive | app/edit-image-generate.tsx:75-78 | the image moves to exactly start plus translation, with no clamping, and nothing else changes |
| OverlayEditor.ImageDragsCompose | app/edit-image-generate.tsx:70-78 | two successive pans move the image by the sum of their translations |
| OverlayEditor.ImageDragReachesAnyPoint | app/edit-image-generate.tsx:75-78 | a pan can place the image at any point |
| OverlayEditor.PinchStart | app/edit-image-generate.tsx:82-84 | the pinch remembers the scale at gesture start |
| OverlayEditor.PinchActive | app/edit-image-generate.tsx:85-87 | the scale becomes exactly start scale times the gesture factor, and nothing else changes |
| OverlayEditor.PinchesCompose | app/edit-image-generate.tsx:81-87 | successive pinches multiply the scale |
| OverlayEditor.PinchUnbounded | app/edit-image-generate.tsx:86 | a factor of 10 from the initial scale gives scale 10 |
| OverlayEditor.DragTextStart | app/edit-image-generate.tsx:92-95 | the text pan remembers the label position at gesture start |
| OverlayEditor.DragTextActive | app/edit-image-generate.tsx:96-103 | the label position is never negative, stays within editor-minus-text where that is non-negative, and equals start plus translation when that is in range |
| OverlayEditor.TextDragPinsToEdges | app/edit-image-generate.tsx:101-102 | per axis: dragging past the left/top edge gives 0, past the right/bottom edge gives exactly editor-minus-text, and a label larger than the editor on an axis is pinned to 0 there |
| OverlayEditor.TextDragRepeatStable | app/edit-image-generate.tsx:96-102 | repeating an update with the same translation leaves the label in place |
| OverlayEditor.TextPinnedToTopUntilImageLoads | app/edit-image-generate.tsx:31-154 | before a base image has loaded the editor's height is 0, so every vertical drag leaves the label at the top |
| OverlayEditor.LabelChanged | app/edit-image-generate.tsx:42-46 | a changed label resets the measured text size to zero and keeps positions, scale and editor sizes; an unchanged label changes nothing |
| OverlayEditor.LabelRoundTripForgetsSize | app/edit-image-generate.tsx:42-46 | changing the label and changing it back keeps every position but leaves the label box 0 x 0 |
| OverlayEditor.BaseImageLoaded | app/edit-image-generate.tsx:149-154 | image height and editor height both become the width-scaled height, which keeps the image's aspect ratio |
| OverlayEditor.TextStaysOverImage | app/edit-image-generate.tsx:101-153 | after the base image loads, a label that fits vertically stays within the image's height under any text pan |
| VideoPopup.Initial | components/VideoPopup.tsx:14-18 | on first render the pop-up and button are hidden, the bar is empty and the countdown holds the reset value |
| VideoPopup.Mounted | components/VideoPopup.tsx:20-34 | mounting shows the pop-up and installs the interval |
| VideoPopup.AnimationDone | components/VideoPopup.tsx:25-31 | the end of the bar animation shows the skip button |
| VideoPopup.Tick | components/VideoPopup.tsx:34-42 | a tick above 1 counts down by one; at 1 or below it yields 0 and clears the interval; a cleared interval changes nothing |
| VideoPopup.Close | components/VideoPopup.tsx:47-52 | close hides the pop-up and button, empties the bar and resets the countdown to SKIP_DURATION/1000 |
| VideoPopup.CloseRestoresInitial | components/VideoPopup.tsx:14-52 | after close, everything displayed is as on first render |
| VideoPopup.TicksClosedForm | components/VideoPopup.tsx:34-42 | n ticks from a running count r ≥ 0 leave max(r−n, 0), and the interval runs only while n = 0 or n < r |
| VideoPopup.TicksStopped | components/VideoPopup.tsx:36-38 | once the interval is cleared no number of ticks changes anything |
| VideoPopup.RemainingNeverNegative | components/VideoPopup.tsx:16-52 | starting from a non-negative count, no event sequence makes it negative |
| JsText.NatToDecimal | components/VideoPopup.tsx:78 | a number prints as ASCII digits that parse back to it, start with '0' only for zero, and have one digit exactly below ten |
| VideoPopup.Padded | components/VideoPopup.tsx:78 | the shown seconds start with '0' iff the count is below 10, have two characters for 0..99, and parse back to the count |
| VideoPopup.FooterShown | components/VideoPopup.tsx:76-86 | the skip button shows iff showButton; otherwise the countdown line shows; never both |

## Left out

- The four data providers (`context/*.tsx`) and the detail-screen fetches are left out. They are HTTP wrappers with a loading flag.
- The presentational screens are left out: dashboard, schemes, city prides, image generation and select image. The only part of them used is their `navigateTo` calls, modelled as `Navigation.Event.Screen`.
- The selected scheme and image identifiers are left out. They are plain setters passed to the screens.
- `clearLocalStorage` is left out. It is defined in the layout but never used.
- The exit dialog's "Exit" choice (`BackHandler.exitApp`) is left out. It is a platform call; the model only records that the prompt was shown.
- Alerts, the HTTP request and storage are modelled only as effects or as a map value. The request is not sent, and alert text is only recorded.
- Session.SendOtpFinal: does not model an exception thrown by the storage write after a successful reply. A thrown error is modelled only as a failed request.
- Session.SendOtp: treats a press and the server's answer as one step. In the source the back button and other events stay live while the request is in flight. The answer then calls the `navigateTo` captured at press time, which still sees the login page as current. A press, a back press and then a successful answer can therefore push the login page twice in a row, which breaks the layout invariant. The model does not capture this interleaving.
- Session.Verify: treats the storage write and the page change as one step. It does not model a rejected `setItem`, which in the source leaves the code page showing, nor events arriving between the write and the page change.
- The login input's `maxLength` of 10 is left out. The handler is modelled for any typed string.
- Timers are modelled as discrete events: the splash timeout, the video list's one-second delay, the countdown interval and the bar animation. Real time and the clearing of timers on unmount are not modelled.
- VideoPagination.LoadCompleted: takes the current video list. The source's timer callback uses the list captured when the load was scheduled; the two agree because the provider fetches once.
- Image picking, view capture and sharing in the editor are left out. They are foreign platform calls. So are the animated-style plumbing and the bar's intermediate values.
- OverlayEditor.BaseImageLoaded: requires a non-zero natural width. JavaScript would compute Infinity or NaN there, which real numbers cannot express. The arithmetic is over exact reals, so the aspect-ratio equality holds for the program only up to double rounding. For example, width 360 and a 100 x 153 image give a product of 55080.00000000001, not 55080.
- OverlayEditor.TextStaysOverImage: the clamp and the bound are computed over exact reals, so for the program they hold only up to double rounding. For example, an editor height of 6/7 and a label height of 0.3 give a clamped bottom edge one unit in the last place above the editor height.
- Navigation.Step: runs the back handler for every hardware back press. In the source, the dashboard always renders the skip-video pop-up, and its `Modal` is visible from mount until it is closed. While it is visible, Android delivers the back press to the Modal's `onRequestClose`, which is not set, and the layout's `BackHandler` listener is not called. On a freshly shown dashboard a back press therefore does nothing: no goBack and no exit prompt. The model allows these extra steps, so its invariants still hold, but it does not model the pop-up blocking the back button.
- OverlayEditor.EditorLaidOut and OverlayEditor.TextLaidOut are plain setters for the measured sizes. They carry no contract.
