/**
  The read-aloud page: two flags (`isPlaying`, `isPaused`), a highlighted token
  index, an interval timer that moves the highlight one token per tick, and
  the speech driver it commands. Ticks are abstract events, not time. Each
  button handler, each tick, each platform callback and each change of the
  text is a pure transition on `Page`.
 */
module TextReaderPage {
  import opened JsRuntime
  import Tokenizer
  import T = TtsService

  /** The interval timer: cleared, or running with its own private token counter. */
  datatype Timer = Off | Running(counter: int)

  datatype Page = Page(
    text: string,
    isPlaying: bool,
    isPaused: bool,
    currentWordIdx: int,
    timer: Timer,
    tts: T.Driver)

  datatype Button = PlayButton | PauseButton | ResumeButton | StopButton

  /** The highlighted units: `text.split(/(\s+)/)`. */
  function Words(text: string): (ws: seq<string>)
    ensures |ws| >= 1
  {
    Tokenizer.Split(text)
  }

  /** Neither playing nor paused. */
  predicate Idle(p: Page) {
    !p.isPlaying && !p.isPaused
  }

  /** Mounting with `text`: initial state, then the text effect stops the driver. */
  function Mount(text: string, tts: T.Driver): (p: Page)
    ensures Idle(p) && p.currentWordIdx == -1 && p.timer == Off
    ensures p.text == text && p.tts == T.Stop(tts)
  {
    Page(text, false, false, -1, Off, T.Stop(tts))
  }

  /** `play`: highlight the first token, speak the whole text, start ticking from 0. */
  function Play(p: Page): (r: Page)
    ensures r.isPlaying && !r.isPaused
    ensures r.currentWordIdx == 0 && r.timer == Running(0)
    ensures r.tts == T.Speak(p.tts, p.text, T.NoOptions)
    ensures r.text == p.text
  {
    Page(p.text, true, false, 0, Running(0), T.Speak(p.tts, p.text, T.NoOptions))
  }

  /** `pause`: flags to paused, driver paused, timer cleared; the highlight stays put. */
  function Pause(p: Page, ios: bool): (r: Page)
    ensures !r.isPlaying && r.isPaused
    ensures r.currentWordIdx == p.currentWordIdx && r.timer == Off
    ensures r.tts == T.Pause(p.tts, ios) && r.text == p.text
  {
    p.(isPaused := true, isPlaying := false, tts := T.Pause(p.tts, ios), timer := Off)
  }

  /** `resume`: flags to playing, driver resumed, ticking restarts from the current highlight. */
  function Resume(p: Page, ios: bool): (r: Page)
    ensures r.isPlaying && !r.isPaused
    ensures r.currentWordIdx == p.currentWordIdx && r.timer == Running(p.currentWordIdx)
    ensures r.tts == T.Resume(p.tts, ios) && r.text == p.text
  {
    p.(isPaused := false, isPlaying := true, tts := T.Resume(p.tts, ios), timer := Running(p.currentWordIdx))
  }

  /** `stop`: idle, no highlight, driver stopped, timer cleared. */
  function Stop(p: Page): (r: Page)
    ensures Idle(r) && r.currentWordIdx == -1 && r.timer == Off
    ensures r.tts == T.Stop(p.tts) && r.text == p.text
  {
    Page(p.text, false, false, -1, Off, T.Stop(p.tts))
  }

  /**
    One timer tick. The state updater moves the highlight to `prev + 1` unless
    that is past the last token, in which case it keeps `prev` and clears the
    timer; the timer's own counter is then advanced and the timer cleared once
    it reaches the token count. Without a running timer nothing happens.
   */
  function Tick(p: Page): (r: Page)
    ensures r.text == p.text && r.tts == p.tts && r.isPlaying == p.isPlaying && r.isPaused == p.isPaused
    ensures p.timer == Off ==> r == p
  {
    match p.timer
    case Off => p
    case Running(c) =>
      var n := |Words(p.text)|;
      var atEnd := p.currentWordIdx + 1 >= n;
      var next := if atEnd then p.currentWordIdx else p.currentWordIdx + 1;
      var c' := c + 1;
      p.(currentWordIdx := next, timer := if atEnd || c' >= n then Off else Running(c'))
  }

  /** The effect on `[isPlaying, isPaused]`: when idle, drop the highlight and clear the timer. */
  function IdleEffect(p: Page): (r: Page)
    ensures Idle(p) ==> r.currentWordIdx == -1 && r.timer == Off
    ensures !Idle(p) ==> r == p
    ensures r.text == p.text && r.tts == p.tts && r.isPlaying == p.isPlaying && r.isPaused == p.isPaused
  {
    if Idle(p) then p.(currentWordIdx := -1, timer := Off) else p
  }

  /**
    The effect on `[text]`: a new text resets the page to idle with no
    highlight and stops the driver; the same text leaves the page alone.
   */
  function SetText(p: Page, text: string): (r: Page)
    ensures r.text == text
    ensures text != p.text ==> Idle(r) && r.currentWordIdx == -1 && r.timer == Off && r.tts == T.Stop(p.tts)
    ensures text == p.text ==> r == p
  {
    if text == p.text then p else Page(text, false, false, -1, Off, T.Stop(p.tts))
  }

  /** The unmount cleanup runs `stop`; what remains afterwards is the driver. */
  function Unmount(p: Page): (d: T.Driver)
    ensures !d.isPlaying && d == Stop(p).tts
  {
    Stop(p).tts
  }

  /** A platform callback reaches only the driver; the page's own flags do not follow it. */
  function SpeechCallback(p: Page, e: T.SpeechEvent): (r: Page)
    ensures r.tts == T.OnEvent(p.tts, e)
    ensures r.(tts := p.tts) == p
  {
    p.(tts := T.OnEvent(p.tts, e))
  }

  /** The buttons rendered: Play when idle, Pause when playing, Resume when paused, Stop when either. */
  function Offered(p: Page): (bs: set<Button>)
    ensures PlayButton in bs <==> Idle(p)
    ensures PauseButton in bs <==> p.isPlaying
    ensures ResumeButton in bs <==> p.isPaused
    ensures StopButton in bs <==> p.isPlaying || p.isPaused
  {
    (if Idle(p) then {PlayButton} else {})
    + (if p.isPlaying then {PauseButton} else {})
    + (if p.isPaused then {ResumeButton} else {})
    + (if p.isPlaying || p.isPaused then {StopButton} else {})
  }

  /** Pressing a button runs its handler, then the idle effect; a button that is not rendered cannot be pressed. */
  function Press(p: Page, b: Button, ios: bool): (r: Option<Page>)
    ensures r.Some? <==> b in Offered(p)
  {
    if b !in Offered(p) then None
    else
      var q := match b
        case PlayButton => Play(p)
        case PauseButton => Pause(p, ios)
        case ResumeButton => Resume(p, ios)
        case StopButton => Stop(p);
      Some(IdleEffect(q))
  }

  /** Everything that can happen to a mounted page. */
  datatype Event = Pressed(button: Button) | Ticked | Callback(e: T.SpeechEvent) | TextSet(text: string)

  function Step(p: Page, ev: Event, ios: bool): Page {
    match ev
    case Pressed(b) => (match Press(p, b, ios) case Some(q) => q case None => p)
    case Ticked => Tick(p)
    case Callback(e) => SpeechCallback(p, e)
    case TextSet(t) => IdleEffect(SetText(p, t))
  }

  function Run(p: Page, evs: seq<Event>, ios: bool): Page
    decreases |evs|
  {
    if |evs| == 0 then p else Run(Step(p, evs[0], ios), evs[1..], ios)
  }

  /**
    The page invariant: never both playing and paused; the highlight is -1
    exactly when idle and otherwise a token index; a running timer belongs to
    a playing page and its private counter equals the highlight; the driver's
    defaults are in range.
   */
  ghost predicate Inv(p: Page) {
    && !(p.isPlaying && p.isPaused)
    && (Idle(p) ==> p.currentWordIdx == -1 && p.timer == Off)
    && (!Idle(p) ==> 0 <= p.currentWordIdx < |Words(p.text)|)
    && (p.timer.Running? ==> p.isPlaying && p.timer.counter == p.currentWordIdx)
    && T.Valid(p.tts)
  }

  /** The phase the controls reflect. */
  datatype Phase = IdlePhase | PlayingPhase | PausedPhase

  function PhaseOf(p: Page): Phase {
    if p.isPlaying then PlayingPhase else if p.isPaused then PausedPhase else IdlePhase
  }

  lemma MountInv(text: string, tts: T.Driver)
    requires T.Valid(tts)
    ensures Inv(Mount(text, tts))
  {
  }

  /** The handlers never leave both flags set, whatever state they start from. */
  lemma HandlersExclusive(p: Page, ios: bool)
    ensures !(Play(p).isPlaying && Play(p).isPaused)
    ensures !(Pause(p, ios).isPlaying && Pause(p, ios).isPaused)
    ensures !(Resume(p, ios).isPlaying && Resume(p, ios).isPaused)
    ensures !(Stop(p).isPlaying && Stop(p).isPaused)
  {
  }

  /** `play` ignores an earlier paused position: it starts at 0 and speaks the whole text. */
  lemma PlayIgnoresPausedPosition(p: Page, q: Page)
    requires p.text == q.text && p.tts == q.tts
    ensures Play(p) == Play(q)
    ensures Play(p).tts.calls[|Play(p).tts.calls| - 1] == T.SpeakCall(p.text, T.EffectiveOptions(p.tts, T.NoOptions))
  {
  }

  /** A pause followed by a resume keeps the highlight and restarts ticking from it. */
  lemma PauseThenResume(p: Page, ios: bool)
    ensures Resume(Pause(p, ios), ios).currentWordIdx == p.currentWordIdx
    ensures Resume(Pause(p, ios), ios).timer == Running(p.currentWordIdx)
    ensures Resume(Pause(p, ios), ios).isPlaying
  {
  }

  /**
    Off iOS the driver ignores both pause and resume, so pausing and resuming
    leaves the speech engine exactly as it was while the highlight restarts.
   */
  lemma NonIosPauseResumeLeavesDriver(p: Page)
    ensures Resume(Pause(p, false), false).tts == p.tts
  {
  }

  /** The idle effect changes nothing on a page satisfying the invariant. */
  lemma IdleEffectNoOp(p: Page)
    requires Inv(p)
    ensures IdleEffect(p) == p
  {
  }

  /** A tick moves the highlight to the next token, or keeps it at the last one and clears the timer. */
  lemma TickAdvancesOrStops(p: Page)
    requires Inv(p) && p.timer.Running?
    ensures var n := |Words(p.text)|;
      && (p.currentWordIdx + 1 < n ==> Tick(p).currentWordIdx == p.currentWordIdx + 1)
      && (p.currentWordIdx + 1 >= n ==> Tick(p).currentWordIdx == n - 1 && Tick(p).timer == Off)
  {
  }

  lemma TickInv(p: Page)
    requires Inv(p)
    ensures Inv(Tick(p))
  {
  }

  lemma PressInv(p: Page, b: Button, ios: bool)
    requires Inv(p)
    ensures Press(p, b, ios).Some? ==> Inv(Press(p, b, ios).value)
  {
    var n := |Words(p.text)|;
    assert n >= 1;
    if b in Offered(p) {
      T.OperationsKeepValid(p.tts, p.text, T.NoOptions, ios, T.Started, 0.0);
    }
  }

  /**
    The controls allow only Idle -> Playing (Play), Playing -> Paused (Pause),
    Paused -> Playing (Resume) and Playing or Paused -> Idle (Stop).
   */
  lemma PressTransitions(p: Page, b: Button, ios: bool)
    requires Inv(p) && Press(p, b, ios).Some?
    ensures var before, after := PhaseOf(p), PhaseOf(Press(p, b, ios).value);
      || (b == PlayButton && before == IdlePhase && after == PlayingPhase)
      || (b == PauseButton && before == PlayingPhase && after == PausedPhase)
      || (b == ResumeButton && before == PausedPhase && after == PlayingPhase)
      || (b == StopButton && before != IdlePhase && after == IdlePhase)
  {
  }

  lemma StepInv(p: Page, ev: Event, ios: bool)
    requires Inv(p)
    ensures Inv(Step(p, ev, ios))
  {
    match ev
    case Pressed(b) => PressInv(p, b, ios);
    case Ticked => TickInv(p);
    case Callback(e) => T.OperationsKeepValid(p.tts, p.text, T.NoOptions, ios, e, 0.0);
    case TextSet(t) => T.OperationsKeepValid(p.tts, p.text, T.NoOptions, ios, T.Started, 0.0);
  }

  /**
    On every page reachable from a mount, the flags are exclusive, the
    highlight is -1 whenever idle and never passes the last token.
   */
  lemma {:induction false} RunInv(p: Page, evs: seq<Event>, ios: bool)
    requires Inv(p)
    ensures Inv(Run(p, evs, ios))
    decreases |evs|
  {
    if |evs| > 0 {
      StepInv(p, evs[0], ios);
      RunInv(Step(p, evs[0], ios), evs[1..], ios);
    }
  }

  /** `k` consecutive ticks. */
  function Ticks(p: Page, k: nat): Page
    decreases k
  {
    if k == 0 then p else Ticks(Tick(p), k - 1)
  }

  /** `k` ticks after the highlight is at `i` with the timer running, it is at `i + k`, stopping at the last token. */
  lemma {:induction false} TicksFromRunning(p: Page, k: nat)
    requires Inv(p) && p.timer.Running?
    ensures var n := |Words(p.text)|;
      Ticks(p, k).currentWordIdx == if p.currentWordIdx + k < n then p.currentWordIdx + k else n - 1
    decreases k
  {
    if k > 0 {
      var q := Tick(p);
      TickInv(p);
      if q.timer.Running? {
        TicksFromRunning(q, k - 1);
      } else {
        TicksWhenOff(q, k - 1);
      }
    }
  }

  lemma {:induction false} TicksWhenOff(p: Page, k: nat)
    requires p.timer == Off
    ensures Ticks(p, k) == p
    decreases k
  {
    if k > 0 {
      TicksWhenOff(Tick(p), k - 1);
    }
  }

  /** After `play` and `k` ticks the highlight is on token `min(k, n - 1)`. */
  lemma PlayThenTicks(p: Page, k: nat)
    requires T.Valid(p.tts)
    ensures var n := |Words(p.text)|;
      Ticks(Play(p), k).currentWordIdx == if k < n then k else n - 1
  {
    T.OperationsKeepValid(p.tts, p.text, T.NoOptions, false, T.Started, 0.0);
    TicksFromRunning(Play(p), k);
  }
}
