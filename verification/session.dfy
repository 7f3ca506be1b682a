/**
 Signing in and out: the phone-number screen (`handleSendOTP`), the code
 screen (`handleVerify`) and the layout's `Logout`. Each handler is modelled as
 the ordered list of effects it performs; `ApplyAll` interprets such a list
 against the app state (layout navigation, the key-value store and the login
 screen's `loading` flag). Alerts and the network request change no state here;
 the server's answer is an input of the handler.
 */
module Session {
  import opened Navigation
  import JsText

  /** The persisted key-value store. */
  type Storage = map<string, string>

  const PhoneNumberKey: string := "phoneNumber"
  const IsLoggedInKey: string := "isLoggedIn"
  /** The one code the code screen accepts. */
  const DemoOtp: string := "1234"

  datatype App = App(nav: Nav, storage: Storage, loginLoading: bool)

  /** The server's answer to the send-code request: a JSON body with its
      `success` flag and `message` (empty when absent), or a thrown error. */
  datatype Reply = Replied(success: bool, message: string) | Threw(message: string)

  datatype Effect =
    | SetItem(key: string, value: string)
    | RemoveItem(key: string)
    | ShowAlert(title: string, message: string)
    | PostSendOtp(mobile: string)
    | SetLoading(on: bool)
    | Navigate(page: Page)       // the layout's `navigateTo`
    | SetPage(page: Page)        // the layout's raw page setter
    | ClearHistory

  function Apply(a: App, e: Effect): App {
    match e
    case SetItem(k, v) => a.(storage := a.storage[k := v])
    case RemoveItem(k) => a.(storage := a.storage - {k})
    case ShowAlert(_, _) => a
    case PostSendOtp(_) => a
    case SetLoading(b) => a.(loginLoading := b)
    case Navigate(p) => a.(nav := NavigateTo(a.nav, p))
    case SetPage(p) => a.(nav := a.nav.(current := p))
    case ClearHistory => a.(nav := a.nav.(history := []))
  }

  /** The state after performing `es` in order. */
  function ApplyAll(a: App, es: seq<Effect>): App
    decreases |es|
  {
    if es == [] then a else ApplyAll(Apply(a, es[0]), es[1..])
  }

  /** ApplyAll over a concatenation is sequential composition. */
  lemma {:induction false} ApplyAllAppend(a: App, xs: seq<Effect>, ys: seq<Effect>)
    ensures ApplyAll(a, xs + ys) == ApplyAll(ApplyAll(a, xs), ys)
    decreases |xs|
  {
    if xs == [] {
      assert xs + ys == ys;
    } else {
      assert (xs + ys)[1..] == xs[1..] + ys;
      ApplyAllAppend(Apply(a, xs[0]), xs[1..], ys);
    }
  }

  /** Performing the first effect of a list, then the rest. */
  lemma ApplyAllCons(a: App, e: Effect, es: seq<Effect>)
    ensures ApplyAll(a, [e] + es) == ApplyAll(Apply(a, e), es)
  {
    assert ([e] + es)[1..] == es;
  }

  /** Performing one more effect of a list. */
  lemma ApplyAllStep(a: App, es: seq<Effect>, k: nat)
    requires k < |es|
    ensures ApplyAll(a, es[..k + 1]) == Apply(ApplyAll(a, es[..k]), es[k])
  {
    assert es[..k + 1] == es[..k] + [es[k]];
    ApplyAllAppend(a, es[..k], [es[k]]);
  }

  /** JavaScript's `x || fallback` on a string: the empty string is falsy. */
  function OrDefault(s: string, fallback: string): (r: string)
    ensures r != [] <== fallback != []
    ensures s == [] ==> r == fallback
    ensures s != [] ==> r == s
  {
    if s == [] then fallback else s
  }

  /** Length in UTF-16 code units, which is what a JavaScript string's
      `length` counts. */
  function Utf16Length(s: string): nat
    decreases |s|
  {
    if s == [] then 0 else (if s[0] as int > 0xFFFF then 2 else 1) + Utf16Length(s[1..])
  }

  /** The regular expression `^\d{10}$` (no flags): exactly ten characters
      that are all ASCII digits. It runs on UTF-16 code units, but a character
      outside the basic plane becomes two surrogates, neither of them a digit,
      so matching per character gives the same answer. This is also what a
      valid phone number is. */
  predicate IsValidPhone(t: string) {
    |t| == 10 && JsText.AllDigits(t)
  }

  /** The guard of `handleSendOTP` as written: the string's `length` (code
      units) must be 10 and the pattern must match. */
  predicate SourceAcceptsNumber(t: string) {
    !(Utf16Length(t) != 10 || !IsValidPhone(t))
  }

  lemma {:induction false} DigitsAreSingleUnits(s: string)
    requires JsText.AllDigits(s)
    ensures Utf16Length(s) == |s|
    decreases |s|
  {
    if s != [] {
      assert JsText.AllDigits(s[1..]) by {
        assert forall k :: 0 <= k < |s| - 1 ==> s[1..][k] == s[k + 1];
      }
      DigitsAreSingleUnits(s[1..]);
    }
  }

  /** The guard as written accepts exactly the ten-digit strings. */
  lemma AcceptsIffTenDigits(t: string)
    ensures SourceAcceptsNumber(t) <==> IsValidPhone(t)
  {
    if JsText.AllDigits(t) {
      DigitsAreSingleUnits(t);
    }
  }

  /** `handleSendOTP` against the server answer `reply`. The button is disabled
      while a request is in flight, so a press then does nothing. */
  function SendOtp(a: App, raw: string, reply: Reply): (es: seq<Effect>)
    ensures a.loginLoading ==> es == []
    ensures !a.loginLoading && !IsValidPhone(JsText.Trim(raw)) ==>
      es == [ShowAlert("Invalid Number", "Phone number must be exactly 10 digits.")]
    ensures !a.loginLoading && IsValidPhone(JsText.Trim(raw)) ==>
      && 4 <= |es|
      && es[0] == SetLoading(true) && es[1] == PostSendOtp(JsText.Trim(raw))
      && es[|es| - 1] == SetLoading(false)
  {
    if a.loginLoading then []
    else
      var t := JsText.Trim(raw);
      AcceptsIffTenDigits(t);
      if !SourceAcceptsNumber(t) then
        [ShowAlert("Invalid Number", "Phone number must be exactly 10 digits.")]
      else
        ValidPress(t, reply)
  }

  /** A press with an accepted number: loading on, the request carrying the
      trimmed number, the reaction to the answer, loading off (`finally`). */
  function ValidPress(t: string, reply: Reply): (es: seq<Effect>)
    ensures 4 <= |es| && es[0] == SetLoading(true) && es[1] == PostSendOtp(t)
    ensures es[|es| - 1] == SetLoading(false)
  {
    [SetLoading(true), PostSendOtp(t)] + SendOtpOutcome(t, reply) + [SetLoading(false)]
  }

  /** What the `try`/`catch` body does once the server has answered. */
  function SendOtpOutcome(t: string, reply: Reply): seq<Effect> {
    match reply
    case Replied(true, _) =>
      [SetItem(PhoneNumberKey, t), ShowAlert("OTP Sent", "Please check your phone for OTP."), Navigate(Otp)]
    case Replied(false, m) =>
      [ShowAlert("Error", OrDefault(m, "Failed to send OTP"))]
    case Threw(m) =>
      [ShowAlert("Error", OrDefault(m, "Something went wrong while sending OTP"))]
  }

  predicate Requests(es: seq<Effect>) {
    exists i :: 0 <= i < |es| && es[i].PostSendOtp?
  }

  /** A number that is not ten digits once trimmed only raises the alert: no
      request, no loading change, no storage write, no page change. */
  lemma SendOtpRejects(a: App, raw: string, reply: Reply)
    requires !a.loginLoading && !IsValidPhone(JsText.Trim(raw))
    ensures SendOtp(a, raw, reply) == [ShowAlert("Invalid Number", "Phone number must be exactly 10 digits.")]
    ensures !Requests(SendOtp(a, raw, reply))
    ensures ApplyAll(a, SendOtp(a, raw, reply)) == a
  {
    ApplyAlertOnly(a, "Invalid Number", "Phone number must be exactly 10 digits.");
  }

  /** A lone alert changes no state. */
  lemma ApplyAlertOnly(a: App, title: string, message: string)
    ensures ApplyAll(a, [ShowAlert(title, message)]) == a
  {
    assert [ShowAlert(title, message)][1..] == [];
  }

  /** An accepted number produces the valid-press effect list for the
      trimmed number. */
  lemma SendOtpAccepts(a: App, raw: string, reply: Reply)
    requires !a.loginLoading && IsValidPhone(JsText.Trim(raw))
    ensures SendOtp(a, raw, reply) == ValidPress(JsText.Trim(raw), reply)
  {
    AcceptsIffTenDigits(JsText.Trim(raw));
  }

  /** A valid number is sent, trimmed, in exactly one request: the second
      effect, right after loading is switched on. */
  lemma SendOtpRequestsTrimmed(a: App, raw: string, reply: Reply)
    requires !a.loginLoading && IsValidPhone(JsText.Trim(raw))
    ensures var es := SendOtp(a, raw, reply);
      && Requests(es)
      && forall i :: 0 <= i < |es| && es[i].PostSendOtp? ==> i == 1 && es[i].mobile == JsText.Trim(raw)
  {
    SendOtpAccepts(a, raw, reply);
    ValidPressRequestsOnce(JsText.Trim(raw), reply);
  }

  /** A valid press issues exactly one request, as its second effect. */
  lemma ValidPressRequestsOnce(t: string, reply: Reply)
    ensures var es := ValidPress(t, reply);
      && Requests(es)
      && forall i :: 0 <= i < |es| && es[i].PostSendOtp? ==> i == 1 && es[i].mobile == t
  {
    var es := ValidPress(t, reply);
    assert es[1].PostSendOtp?;
  }

  /** `es` shows the alert `title`/`message`, and no other alert. */
  predicate OnlyAlert(es: seq<Effect>, title: string, message: string) {
    && (exists i :: 0 <= i < |es| && es[i] == ShowAlert(title, message))
    && (forall i :: 0 <= i < |es| && es[i].ShowAlert? ==> es[i] == ShowAlert(title, message))
  }

  /** The one alert a valid press shows, for each kind of answer: the success
      notice, the server's message or the failure default, or the error's
      message or the error default. */
  lemma ValidPressAlerts(t: string, reply: Reply)
    ensures reply.Replied? && reply.success ==>
      OnlyAlert(ValidPress(t, reply), "OTP Sent", "Please check your phone for OTP.")
    ensures reply.Replied? && !reply.success ==>
      OnlyAlert(ValidPress(t, reply), "Error", OrDefault(reply.message, "Failed to send OTP"))
    ensures reply.Threw? ==>
      OnlyAlert(ValidPress(t, reply), "Error", OrDefault(reply.message, "Something went wrong while sending OTP"))
  {
    var es := ValidPress(t, reply);
    match reply
    case Replied(true, _) =>
      assert es == [SetLoading(true), PostSendOtp(t), SetItem(PhoneNumberKey, t),
        ShowAlert("OTP Sent", "Please check your phone for OTP."), Navigate(Otp), SetLoading(false)];
      assert es[3].ShowAlert?;
    case Replied(false, m) =>
      assert es == [SetLoading(true), PostSendOtp(t), ShowAlert("Error", OrDefault(m, "Failed to send OTP")),
        SetLoading(false)];
      assert es[2].ShowAlert?;
    case Threw(m) =>
      assert es == [SetLoading(true), PostSendOtp(t),
        ShowAlert("Error", OrDefault(m, "Something went wrong while sending OTP")), SetLoading(false)];
      assert es[2].ShowAlert?;
  }

  /** The state after a valid press, for each kind of answer. */
  lemma ValidPressFinal(a: App, t: string, reply: Reply)
    requires !a.loginLoading
    ensures var r := ApplyAll(a, ValidPress(t, reply));
      && !r.loginLoading
      && (reply.Replied? && reply.success ==>
            r.nav == NavigateTo(a.nav, Otp) && r.storage == a.storage[PhoneNumberKey := t])
      && (!(reply.Replied? && reply.success) ==> r == a)
  {
    var start := [SetLoading(true), PostSendOtp(t)];
    var out := SendOtpOutcome(t, reply);
    assert ValidPress(t, reply) == (start + out) + [SetLoading(false)];
    ApplyAllAppend(a, start + out, [SetLoading(false)]);
    ApplyAllAppend(a, start, out);
    var b := a.(loginLoading := true);
    assert ApplyAll(a, start) == b by {
      ApplyAllCons(a, SetLoading(true), [PostSendOtp(t)]);
      ApplyAllCons(b, PostSendOtp(t), []);
      assert [PostSendOtp(t)] == [PostSendOtp(t)] + [];
      assert start == [SetLoading(true)] + [PostSendOtp(t)];
    }
    OutcomeState(b, t, reply);
    var c := ApplyAll(b, out);
    assert ApplyAll(c, [SetLoading(false)]) == c.(loginLoading := false) by {
      ApplyAllCons(c, SetLoading(false), []);
      assert [SetLoading(false)] == [SetLoading(false)] + [];
    }
  }

  /** The reaction to the answer: on success the number is stored and the code
      page pushed; otherwise only an alert, which changes no state. */
  lemma OutcomeState(a: App, t: string, reply: Reply)
    ensures reply.Replied? && reply.success ==>
      ApplyAll(a, SendOtpOutcome(t, reply))
        == a.(storage := a.storage[PhoneNumberKey := t], nav := NavigateTo(a.nav, Otp))
    ensures !(reply.Replied? && reply.success) ==> ApplyAll(a, SendOtpOutcome(t, reply)) == a
  {
    if reply.Replied? && reply.success {
      var alert := ShowAlert("OTP Sent", "Please check your phone for OTP.");
      var e2: seq<Effect> := [Navigate(Otp)];
      var e1 := [alert] + e2;
      var s1 := a.(storage := a.storage[PhoneNumberKey := t]);
      assert SendOtpOutcome(t, reply) == [SetItem(PhoneNumberKey, t)] + e1;
      ApplyAllCons(a, SetItem(PhoneNumberKey, t), e1);
      ApplyAllCons(s1, alert, e2);
      ApplyAllCons(s1, Navigate(Otp), []);
      assert e2 == [Navigate(Otp)] + [];
    } else {
      var alert := SendOtpOutcome(t, reply)[0];
      assert SendOtpOutcome(t, reply) == [alert] && alert.ShowAlert?;
      ApplyAlertOnly(a, alert.title, alert.message);
    }
  }

  /** The state once a valid press has been handled: on success the number is
      stored trimmed and the code page is pushed; on a failure answer or a
      thrown error nothing changes. Loading ends off either way. */
  lemma SendOtpFinal(a: App, raw: string, reply: Reply)
    requires !a.loginLoading && IsValidPhone(JsText.Trim(raw))
    ensures var r := ApplyAll(a, SendOtp(a, raw, reply));
      && !r.loginLoading
      && (reply.Replied? && reply.success ==>
            r.nav == NavigateTo(a.nav, Otp) && r.storage == a.storage[PhoneNumberKey := JsText.Trim(raw)])
      && (!(reply.Replied? && reply.success) ==> r == a)
  {
    SendOtpAccepts(a, raw, reply);
    ValidPressFinal(a, JsText.Trim(raw), reply);
  }

  lemma {:induction false} LoadingHeld(a: App, es: seq<Effect>, k: nat)
    requires 1 <= k < |es| && es[0] == SetLoading(true)
    requires forall i :: 1 <= i < |es| - 1 ==> !es[i].SetLoading?
    ensures ApplyAll(a, es[..k]).loginLoading
    decreases k
  {
    ApplyAllStep(a, es, k - 1);
    if k > 1 {
      LoadingHeld(a, es, k - 1);
    } else {
      assert es[..0] == [];
    }
  }

  /** For every valid press `loading` is true from the moment the request is
      issued until the last effect, which turns it off again. */
  lemma SendOtpLoadingWhileInFlight(a: App, raw: string, reply: Reply)
    requires !a.loginLoading && IsValidPhone(JsText.Trim(raw))
    ensures var es := SendOtp(a, raw, reply);
      && (forall k :: 1 <= k < |es| ==> ApplyAll(a, es[..k]).loginLoading)
      && !ApplyAll(a, es).loginLoading
  {
    SendOtpAccepts(a, raw, reply);
    ValidPressLoading(a, JsText.Trim(raw), reply);
  }

  lemma ValidPressLoading(a: App, t: string, reply: Reply)
    requires !a.loginLoading
    ensures var es := ValidPress(t, reply);
      && (forall k :: 1 <= k < |es| ==> ApplyAll(a, es[..k]).loginLoading)
      && !ApplyAll(a, es).loginLoading
  {
    var es := ValidPress(t, reply);
    assert forall i :: 1 <= i < |es| - 1 ==> !es[i].SetLoading?;
    forall k | 1 <= k < |es| ensures ApplyAll(a, es[..k]).loginLoading {
      LoadingHeld(a, es, k);
    }
    ValidPressFinal(a, t, reply);
  }

  /** `handleVerify`: the typed code is compared with the demo code exactly, no
      trimming. On a match the session flag is written and the raw page setter
      (not `navigateTo`) shows the dashboard. */
  function Verify(a: App, code: string): (es: seq<Effect>)
    ensures code != DemoOtp ==> es == [ShowAlert("Error", "Invalid OTP")]
    ensures (exists i :: 0 <= i < |es| && es[i].SetPage?) <==> code == DemoOtp
    ensures forall i :: 0 <= i < |es| ==> !es[i].Navigate?
  {
    if code == DemoOtp then
      var es := [SetItem(IsLoggedInKey, "true"), SetPage(Dashboard)];
      assert es[1].SetPage?;
      es
    else [ShowAlert("Error", "Invalid OTP")]
  }

  /** Verification succeeds exactly for the demo code; success stores the flag
      and changes only the current page (the history is not pushed); failure
      changes nothing. */
  lemma VerifyOutcome(a: App, code: string)
    ensures var r := ApplyAll(a, Verify(a, code));
      && (code == DemoOtp ==>
            r.storage == a.storage[IsLoggedInKey := "true"]
            && r.nav == a.nav.(current := Dashboard) && r.loginLoading == a.loginLoading)
      && (code != DemoOtp ==> r == a)
    ensures code != DemoOtp ==> Verify(a, code) == [ShowAlert("Error", "Invalid OTP")]
  {
    var es := Verify(a, code);
    ApplyAllStep(a, es, 0);
    if code == DemoOtp {
      ApplyAllStep(a, es, 1);
      assert es[..2] == es;
    } else {
      assert es[..1] == es;
    }
  }

  /** The flag is stored while the code page is still shown: the write comes
      before the page change. */
  lemma VerifyStoresBeforeLeaving(a: App)
    ensures var es := Verify(a, DemoOtp);
      && IsLoggedInKey in ApplyAll(a, es[..1]).storage
      && ApplyAll(a, es[..1]).storage[IsLoggedInKey] == "true"
      && ApplyAll(a, es[..1]).nav == a.nav
  {
    ApplyAllStep(a, Verify(a, DemoOtp), 0);
  }

  /** A code with a leading space is refused although it contains the demo code. */
  lemma VerifyRejectsPaddedCode(a: App)
    ensures ApplyAll(a, Verify(a, " 1234")) == a
  {
    VerifyOutcome(a, " 1234");
  }

  /** The layout's `Logout`: both session keys removed, an alert, the history
      cleared and the login page shown. */
  function Logout(a: App): (es: seq<Effect>)
    ensures RemoveItem(IsLoggedInKey) in es && RemoveItem(PhoneNumberKey) in es
    ensures ClearHistory in es && es[|es| - 1] == SetPage(Login)
    ensures forall i :: 0 <= i < |es| ==> !es[i].SetItem? && !es[i].Navigate?
  {
    [ RemoveItem(IsLoggedInKey), RemoveItem(PhoneNumberKey),
      ShowAlert("Success", "Logged out successfully"), ClearHistory, SetPage(Login) ]
  }

  /** After logout only the two session keys are gone from the store, the
      history is empty and the login page is current; drawer and splash flags
      are kept. */
  lemma LogoutOutcome(a: App)
    ensures var r := ApplyAll(a, Logout(a));
      && r.nav.history == [] && r.nav.current == Login
      && r.nav.drawerOpen == a.nav.drawerOpen && r.nav.showSplash == a.nav.showSplash
      && r.storage.Keys == a.storage.Keys - {IsLoggedInKey, PhoneNumberKey}
      && (forall k :: k in r.storage ==> r.storage[k] == a.storage[k])
      && r.loginLoading == a.loginLoading
  {
    LogoutState(a);
  }

  /** The state after logout, effect by effect. */
  lemma LogoutState(a: App)
    ensures ApplyAll(a, Logout(a)) ==
      a.(storage := a.storage - {IsLoggedInKey} - {PhoneNumberKey},
         nav := a.nav.(history := [], current := Login))
  {
    var keys := [RemoveItem(IsLoggedInKey), RemoveItem(PhoneNumberKey)];
    var rest := [ShowAlert("Success", "Logged out successfully"), ClearHistory, SetPage(Login)];
    assert Logout(a) == keys + rest;
    ApplyAllAppend(a, keys, rest);
    LogoutRemovesKeys(a);
    LogoutLeaves(ApplyAll(a, keys));
  }

  lemma LogoutRemovesKeys(a: App)
    ensures ApplyAll(a, [RemoveItem(IsLoggedInKey), RemoveItem(PhoneNumberKey)])
      == a.(storage := a.storage - {IsLoggedInKey} - {PhoneNumberKey})
  {
    var e1: seq<Effect> := [RemoveItem(PhoneNumberKey)];
    ApplyAllCons(a, RemoveItem(IsLoggedInKey), e1);
    ApplyAllCons(a.(storage := a.storage - {IsLoggedInKey}), RemoveItem(PhoneNumberKey), []);
    assert e1 == [RemoveItem(PhoneNumberKey)] + [];
    assert [RemoveItem(IsLoggedInKey), RemoveItem(PhoneNumberKey)] == [RemoveItem(IsLoggedInKey)] + e1;
  }

  lemma LogoutLeaves(a: App)
    ensures ApplyAll(a, [ShowAlert("Success", "Logged out successfully"), ClearHistory, SetPage(Login)])
      == a.(nav := a.nav.(history := [], current := Login))
  {
    var e2: seq<Effect> := [SetPage(Login)];
    var e1 := [ClearHistory] + e2;
    var s1 := a.(nav := a.nav.(history := []));
    ApplyAllCons(a, ShowAlert("Success", "Logged out successfully"), e1);
    ApplyAllCons(a, ClearHistory, e2);
    ApplyAllCons(s1, SetPage(Login), []);
    assert e2 == [SetPage(Login)] + [];
    assert [ShowAlert("Success", "Logged out successfully"), ClearHistory, SetPage(Login)]
      == [ShowAlert("Success", "Logged out successfully")] + e1;
  }

  /** Sign-in from the login page with a valid number, an accepting server and
      the demo code ends on the dashboard with both keys stored. Because the
      login screen was handed `navigateTo`, the login page stays on the history
      stack; the code screen's raw setter pushes nothing. */
  lemma SignInEndToEnd(a: App, raw: string, reply: Reply)
    requires a.nav.current == Login && !a.loginLoading
    requires IsValidPhone(JsText.Trim(raw)) && reply.Replied? && reply.success
    ensures var b := ApplyAll(a, SendOtp(a, raw, reply));
      var c := ApplyAll(b, Verify(b, DemoOtp));
      && b.nav.current == Otp
      && c.nav.current == Dashboard
      && c.nav.history == a.nav.history + [Login]
      && IsLoggedInKey in c.storage && c.storage[IsLoggedInKey] == "true"
      && PhoneNumberKey in c.storage && c.storage[PhoneNumberKey] == JsText.Trim(raw)
  {
    SendOtpAccepts(a, raw, reply);
    SignInFrom(a, JsText.Trim(raw), reply);
  }

  /** Sign-in for an already trimmed number `t`. */
  lemma SignInFrom(a: App, t: string, reply: Reply)
    requires a.nav.current == Login && !a.loginLoading
    requires reply.Replied? && reply.success
    ensures var b := ApplyAll(a, ValidPress(t, reply));
      var c := ApplyAll(b, Verify(b, DemoOtp));
      && b.nav == NavigateTo(a.nav, Otp)
      && c.nav == a.nav.(history := a.nav.history + [Login], current := Dashboard)
      && IsLoggedInKey in c.storage && c.storage[IsLoggedInKey] == "true"
      && PhoneNumberKey in c.storage && c.storage[PhoneNumberKey] == t
  {
    ValidPressFinal(a, t, reply);
    VerifyOutcome(ApplyAll(a, ValidPress(t, reply)), DemoOtp);
  }

  /** Sign-in from a well-formed layout leaves it well formed, although the
      code screen sets the page without pushing: the login page pushed on the
      way in sits between the older history and the dashboard. */
  lemma SignInKeepsWellFormed(a: App, raw: string, reply: Reply)
    requires WellFormed(a.nav) && !a.nav.showSplash
    requires a.nav.current == Login && !a.loginLoading
    requires IsValidPhone(JsText.Trim(raw)) && reply.Replied? && reply.success
    ensures var b := ApplyAll(a, SendOtp(a, raw, reply));
      WellFormed(ApplyAll(b, Verify(b, DemoOtp)).nav)
  {
    SendOtpAccepts(a, raw, reply);
    SignInFrom(a, JsText.Trim(raw), reply);
    SignInKeepsNoRepeats(a.nav);
  }

  /** Replacing the current login page by the dashboard after pushing it keeps
      the trail free of back-to-back repeats. */
  lemma SignInKeepsNoRepeats(s: Nav)
    requires WellFormed(s) && !s.showSplash && s.current == Login
    ensures WellFormed(s.(history := s.history + [Login], current := Dashboard))
  {
    var hs := s.history + [Login, Dashboard];
    assert s.(history := s.history + [Login], current := Dashboard).history + [Dashboard] == hs;
    forall i | 0 <= i < |hs| - 1 ensures hs[i] != hs[i + 1] {
      if i < |hs| - 2 {
        assert hs[i] == (s.history + [s.current])[i];
        assert hs[i + 1] == (s.history + [s.current])[i + 1];
      }
    }
  }

  /** A press with a nine-digit number never reaches the network. */
  lemma NineDigitsNeverRequested(a: App, raw: string, reply: Reply)
    requires |JsText.Trim(raw)| == 9
    ensures !Requests(SendOtp(a, raw, reply))
  {
    if !a.loginLoading {
      SendOtpRejects(a, raw, reply);
    }
  }
}
