/**
 The skip-video pop-up: a one-second countdown, a progress animation whose end
 reveals the skip button, and the close action that resets both. The interval
 and the animation are reduced to discrete events.
 */
module VideoPopup {
  import JsText

  /** The skip delay in milliseconds, as configured (zero: skippable at once). */
  const SkipDurationMs: nat := 0
  /** Seconds the countdown starts from and is reset to. */
  const ResetSeconds: int := SkipDurationMs / 1000

  /** `progress` is the animated bar (0 empty, 1 full); `intervalRunning`
      says whether the one-second interval is still installed. */
  datatype Popup = Popup(
    showPopup: bool,
    showButton: bool,
    remaining: int,
    intervalRunning: bool,
    progress: real)

  /** State on first render, before the mount effect has run. */
  function Initial(): (p: Popup)
    ensures !p.showPopup && !p.showButton && p.remaining == ResetSeconds
    ensures !p.intervalRunning && p.progress == 0.0
  {
    Popup(false, false, ResetSeconds, false, 0.0)
  }

  /** The mount effect: show the pop-up, start the bar and the interval. */
  function Mounted(p: Popup): (r: Popup)
    ensures r.showPopup && r.intervalRunning
    ensures r.showButton == p.showButton && r.remaining == p.remaining && r.progress == p.progress
  {
    p.(showPopup := true, intervalRunning := true)
  }

  /** The progress animation finished: the bar is full and the skip button shows. */
  function AnimationDone(p: Popup): (r: Popup)
    ensures r.showButton && r.progress == 1.0
    ensures r.showPopup == p.showPopup && r.remaining == p.remaining
    ensures r.intervalRunning == p.intervalRunning
  {
    p.(showButton := true, progress := 1.0)
  }

  /** One firing of the interval: count down by one second, or, from one
      second or less, land on zero and clear the interval. A cleared interval
      no longer fires. */
  function Tick(p: Popup): (r: Popup)
    ensures p.intervalRunning ==> r.remaining >= 0
    ensures !p.intervalRunning ==> r == p
    ensures p.intervalRunning && p.remaining > 1 ==>
      r.remaining == p.remaining - 1 && r.intervalRunning
    ensures p.intervalRunning && p.remaining <= 1 ==>
      r.remaining == 0 && !r.intervalRunning
    ensures r.showPopup == p.showPopup && r.showButton == p.showButton && r.progress == p.progress
  {
    if !p.intervalRunning then p
    else if p.remaining <= 1 then p.(remaining := 0, intervalRunning := false)
    else p.(remaining := p.remaining - 1)
  }

  /** `handleClosePopup`: hide the pop-up and the button, empty the bar and
      reset the countdown. The interval is left as it is. */
  function Close(p: Popup): (r: Popup)
    ensures !r.showPopup && !r.showButton && r.progress == 0.0
    ensures r.remaining == SkipDurationMs / 1000
    ensures r.intervalRunning == p.intervalRunning
  {
    p.(showPopup := false, showButton := false, progress := 0.0, remaining := ResetSeconds)
  }

  /** Closing puts every displayed part back as it was on first render; only
      the interval's state is carried over. */
  lemma CloseRestoresInitial(p: Popup)
    ensures Close(p).(intervalRunning := false) == Initial()
    ensures Mounted(Close(p)).(intervalRunning := false) == Initial().(showPopup := true)
  {
  }

  function Ticks(p: Popup, n: nat): Popup
    decreases n
  {
    if n == 0 then p else Ticks(Tick(p), n - 1)
  }

  function Max(a: int, b: int): int {
    if a >= b then a else b
  }

  /** From a running countdown at `r >= 0`, `n` firings leave `max(r - n, 0)`
      seconds, and the interval is still installed only while more than zero
      seconds remain to count (or before the first firing). */
  lemma {:induction false} TicksClosedForm(p: Popup, n: nat)
    requires p.intervalRunning && p.remaining >= 0
    ensures Ticks(p, n).remaining == Max(p.remaining - n, 0)
    ensures Ticks(p, n).intervalRunning <==> (n == 0 || n < p.remaining)
    decreases n
  {
    if n > 0 {
      var q := Tick(p);
      if p.remaining <= 1 {
        TicksStopped(q, n - 1);
      } else {
        TicksClosedForm(q, n - 1);
      }
    }
  }

  /** Once the interval is cleared, further firings change nothing. */
  lemma {:induction false} TicksStopped(p: Popup, n: nat)
    requires !p.intervalRunning
    ensures Ticks(p, n) == p
    decreases n
  {
    if n > 0 {
      TicksStopped(Tick(p), n - 1);
    }
  }

  datatype Event = Mount | AnimationEnd | IntervalFired | SkipPressed

  /** The skip button only exists while it is shown. */
  function Step(p: Popup, e: Event): Popup {
    match e
    case Mount => Mounted(p)
    case AnimationEnd => AnimationDone(p)
    case IntervalFired => Tick(p)
    case SkipPressed => if p.showButton then Close(p) else p
  }

  function Run(p: Popup, es: seq<Event>): Popup
    decreases |es|
  {
    if es == [] then p else Run(Step(p, es[0]), es[1..])
  }

  /** Starting from a non-negative count, no sequence of events ever makes the
      displayed count negative. */
  lemma {:induction false} RemainingNeverNegative(p: Popup, es: seq<Event>)
    requires p.remaining >= 0
    ensures Run(p, es).remaining >= 0
    decreases |es|
  {
    if es != [] {
      RemainingNeverNegative(Step(p, es[0]), es[1..]);
    }
  }

  /** The seconds as the template prints them: a leading "0" below ten. */
  function Padded(n: int): (r: string)
    ensures |r| >= 2
    ensures r[0] == '0' <==> n < 10
    ensures 0 <= n < 100 ==> |r| == 2
    ensures n >= 0 ==> JsText.AllDigits(r) && JsText.ParseDigits(r) == n
  {
    if n < 10 then
      var r := "0" + JsText.IntToDecimal(n);
      assert n >= 0 ==> JsText.AllDigits(r) && JsText.ParseDigits(r) == n by {
        if n >= 0 { JsText.ParseLeadingZero(JsText.IntToDecimal(n)); }
      }
      r
    else JsText.IntToDecimal(n)
  }

  /** What sits under the progress bar: exactly one of the countdown line and
      the skip button. */
  datatype Footer = CountdownText(line: string) | SkipButton

  function FooterShown(p: Popup): (f: Footer)
    ensures f.SkipButton? <==> p.showButton
    ensures f.CountdownText? ==> f.line == "Skip video in " + Padded(p.remaining) + " seconds"
  {
    if !p.showButton then CountdownText("Skip video in " + Padded(p.remaining) + " seconds")
    else SkipButton
  }
}
