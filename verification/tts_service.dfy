/**
  The speech driver: a single owner of the platform's speech engine that keeps
  an `isPlaying` flag, stores a clamped default rate and pitch, and forwards
  speak/stop/pause/resume to the platform. The platform is not modelled; every
  command the driver issues to it is appended to `calls`, so "touches the
  platform" means "appends to `calls`". Whether the device runs iOS is a
  boolean parameter.
 */
module TtsService {
  import opened JsRuntime

  const DefaultRate: real := 0.75
  const DefaultPitch: real := 1.0
  const MinRate: real := 0.1
  const MaxRate: real := 1.0
  const MinPitch: real := 0.5
  const MaxPitch: real := 2.0
  const Language: string := "en-US"

  /** What the driver hands to the platform's `speak`. */
  datatype SpeechOptions = SpeechOptions(language: string, pitch: real, rate: real, voice: Option<string>)

  /** The optional per-call options of `speak`. */
  datatype CallOptions = CallOptions(rate: Option<real>, pitch: Option<real>, voice: Option<string>)

  const NoOptions: CallOptions := CallOptions(None, None, None)

  /** A command issued to the platform speech engine. */
  datatype PlatformCall = SpeakCall(text: string, options: SpeechOptions) | StopCall | PauseCall | ResumeCall

  /** The lifecycle callbacks the platform invokes. */
  datatype SpeechEvent = Started | Done | Stopped | Failed

  /** A voice as the platform lists it. */
  datatype Voice = Voice(identifier: string, name: string, language: string)

  datatype Driver = Driver(isPlaying: bool, rate: real, pitch: real, calls: seq<PlatformCall>)

  /** The driver as constructed: idle, rate 0.75, pitch 1.0, nothing issued yet. */
  const Initial: Driver := Driver(false, DefaultRate, DefaultPitch, [])

  /** The stored defaults lie in their documented ranges. */
  predicate Valid(d: Driver) {
    MinRate <= d.rate <= MaxRate && MinPitch <= d.pitch <= MaxPitch
  }

  function Min(a: real, b: real): real { if a < b then a else b }
  function Max(a: real, b: real): real { if a < b then b else a }

  /** `Math.max(lo, Math.min(hi, x))`. */
  function Clamp(lo: real, hi: real, x: real): (r: real)
    requires lo <= hi
    ensures lo <= r <= hi
    ensures lo <= x <= hi ==> r == x
    ensures x < lo ==> r == lo
    ensures hi < x ==> r == hi
  {
    Max(lo, Min(hi, x))
  }

  /** `stop`: only a playing driver tells the platform to stop; afterwards nothing is playing. */
  function Stop(d: Driver): (r: Driver)
    ensures !r.isPlaying
    ensures r.rate == d.rate && r.pitch == d.pitch
    ensures d.isPlaying ==> r.calls == d.calls + [StopCall]
    ensures !d.isPlaying ==> r == d
  {
    if d.isPlaying then d.(isPlaying := false, calls := d.calls + [StopCall]) else d
  }

  /**
    The options `speak` passes on: a truthy per-call rate or pitch wins over the
    stored default and is passed unclamped; the voice is set only when truthy.
   */
  function EffectiveOptions(d: Driver, o: CallOptions): (s: SpeechOptions)
    ensures s.language == Language
    ensures (o.rate.Some? && o.rate.value != 0.0) ==> s.rate == o.rate.value
    ensures (o.rate.None? || o.rate.value == 0.0) ==> s.rate == d.rate
    ensures (o.pitch.Some? && o.pitch.value != 0.0) ==> s.pitch == o.pitch.value
    ensures (o.pitch.None? || o.pitch.value == 0.0) ==> s.pitch == d.pitch
    ensures s.voice.Some? <==> (o.voice.Some? && o.voice.value != "")
    ensures s.voice.Some? ==> s.voice == o.voice
  {
    SpeechOptions(
      Language,
      NumberOr(o.pitch, d.pitch),
      NumberOr(o.rate, d.rate),
      if o.voice.Some? && o.voice.value != "" then o.voice else None)
  }

  /**
    `speak`: stops whatever is playing, then issues one speak command for the
    whole text and marks the driver playing. The stored defaults are untouched.
   */
  function Speak(d: Driver, text: string, o: CallOptions): (r: Driver)
    ensures r.isPlaying
    ensures r.rate == d.rate && r.pitch == d.pitch
    ensures r.calls == Stop(d).calls + [SpeakCall(text, EffectiveOptions(d, o))]
  {
    var s := Stop(d);
    s.(isPlaying := true, calls := s.calls + [SpeakCall(text, EffectiveOptions(d, o))])
  }

  /** `pause`: reaches the platform only on iOS while playing, and never changes `isPlaying`. */
  function Pause(d: Driver, ios: bool): (r: Driver)
    ensures r.isPlaying == d.isPlaying && r.rate == d.rate && r.pitch == d.pitch
    ensures r.calls != d.calls <==> d.isPlaying && ios
    ensures r.calls != d.calls ==> r.calls == d.calls + [PauseCall]
  {
    if d.isPlaying && ios then d.(calls := d.calls + [PauseCall]) else d
  }

  /** `resume`: reaches the platform on iOS whatever `isPlaying` is, and does nothing elsewhere. */
  function Resume(d: Driver, ios: bool): (r: Driver)
    ensures r.isPlaying == d.isPlaying && r.rate == d.rate && r.pitch == d.pitch
    ensures r.calls != d.calls <==> ios
    ensures ios ==> r.calls == d.calls + [ResumeCall]
  {
    if ios then d.(calls := d.calls + [ResumeCall]) else d
  }

  /** The platform callbacks: `onStart` marks playing; `onDone`, `onStopped` and `onError` mark idle. */
  function OnEvent(d: Driver, e: SpeechEvent): (r: Driver)
    ensures r.isPlaying <==> e == Started
    ensures r.rate == d.rate && r.pitch == d.pitch && r.calls == d.calls
  {
    d.(isPlaying := e == Started)
  }

  /** `setSpeechRate`: stores the value clamped into [0.1, 1.0]. */
  function SetSpeechRate(d: Driver, rate: real): (r: Driver)
    ensures MinRate <= r.rate <= MaxRate
    ensures MinRate <= rate <= MaxRate ==> r.rate == rate
    ensures rate < MinRate ==> r.rate == MinRate
    ensures MaxRate < rate ==> r.rate == MaxRate
    ensures r.isPlaying == d.isPlaying && r.pitch == d.pitch && r.calls == d.calls
  {
    d.(rate := Clamp(MinRate, MaxRate, rate))
  }

  /** `setSpeechPitch`: stores the value clamped into [0.5, 2.0]. */
  function SetSpeechPitch(d: Driver, pitch: real): (r: Driver)
    ensures MinPitch <= r.pitch <= MaxPitch
    ensures MinPitch <= pitch <= MaxPitch ==> r.pitch == pitch
    ensures pitch < MinPitch ==> r.pitch == MinPitch
    ensures MaxPitch < pitch ==> r.pitch == MaxPitch
    ensures r.isPlaying == d.isPlaying && r.rate == d.rate && r.calls == d.calls
  {
    d.(pitch := Clamp(MinPitch, MaxPitch, pitch))
  }

  /** `getSpeechRate`: the stored default rate, in range on a valid driver. */
  function GetSpeechRate(d: Driver): (rate: real)
    ensures Valid(d) ==> MinRate <= rate <= MaxRate
  {
    d.rate
  }

  /** `getSpeechPitch`: the stored default pitch, in range on a valid driver. */
  function GetSpeechPitch(d: Driver): (pitch: real)
    ensures Valid(d) ==> MinPitch <= pitch <= MaxPitch
  {
    d.pitch
  }

  /** `getIsPlaying`: the flag as the commands and callbacks left it. */
  function GetIsPlaying(d: Driver): (playing: bool)
    ensures playing <==> d.isPlaying
  {
    d.isPlaying
  }

  /** `getAvailableVoices`: the platform's list, or an empty list when the platform call fails. */
  function GetAvailableVoices(platform: Result<seq<Voice>, Thrown>): (r: seq<Voice>)
    ensures platform.Ok? ==> r == platform.value
    ensures platform.Err? ==> r == []
  {
    match platform
    case Ok(voices) => voices
    case Err(_) => []
  }

  /** `isSpeechAvailable`: the platform's answer, or false when the platform call fails. */
  function IsSpeechAvailable(platform: Result<bool, Thrown>): (r: bool)
    ensures r <==> platform.Ok? && platform.value
  {
    platform.Ok? && platform.value
  }

  /** The getters start at 0.75 and 1.0 and the initial driver is idle. */
  lemma InitialGetters()
    ensures GetSpeechRate(Initial) == 0.75 && GetSpeechPitch(Initial) == 1.0
    ensures !GetIsPlaying(Initial) && Valid(Initial)
  {
  }

  /** The getters return what the last setter stored; the other setting is untouched. */
  lemma GettersSeeSetters(d: Driver, x: real)
    ensures GetSpeechRate(SetSpeechRate(d, x)) == Clamp(MinRate, MaxRate, x)
    ensures GetSpeechPitch(SetSpeechRate(d, x)) == GetSpeechPitch(d)
    ensures GetSpeechPitch(SetSpeechPitch(d, x)) == Clamp(MinPitch, MaxPitch, x)
    ensures GetSpeechRate(SetSpeechPitch(d, x)) == GetSpeechRate(d)
  {
  }

  /** Setting the same value twice is setting it once. */
  lemma SettersIdempotent(d: Driver, x: real)
    ensures SetSpeechRate(SetSpeechRate(d, x), x) == SetSpeechRate(d, x)
    ensures SetSpeechPitch(SetSpeechPitch(d, x), x) == SetSpeechPitch(d, x)
  {
  }

  /** Storing back what a getter returned changes nothing on a valid driver. */
  lemma SetGetRoundTrip(d: Driver)
    requires Valid(d)
    ensures SetSpeechRate(d, GetSpeechRate(d)) == d
    ensures SetSpeechPitch(d, GetSpeechPitch(d)) == d
  {
  }

  /** A second stop is a no-op: it neither changes state nor reaches the platform. */
  lemma StopIdempotent(d: Driver)
    ensures Stop(Stop(d)) == Stop(d)
  {
  }

  /**
    At most one utterance: when `speak` finds the driver playing, the speak
    command follows a stop command directly; when it finds the driver idle, it
    issues the speak command alone.
   */
  lemma SpeakStopsFirst(d: Driver, text: string, o: CallOptions)
    ensures d.isPlaying ==> Speak(d, text, o).calls == d.calls + [StopCall, SpeakCall(text, EffectiveOptions(d, o))]
    ensures !d.isPlaying ==> Speak(d, text, o).calls == d.calls + [SpeakCall(text, EffectiveOptions(d, o))]
  {
  }

  /** Per-call options affect only the utterance: the stored defaults after `speak` do not depend on them. */
  lemma PerCallOptionsDoNotPersist(d: Driver, text: string, o1: CallOptions, o2: CallOptions)
    ensures GetSpeechRate(Speak(d, text, o1)) == GetSpeechRate(Speak(d, text, o2))
    ensures GetSpeechPitch(Speak(d, text, o1)) == GetSpeechPitch(Speak(d, text, o2))
  {
  }

  /** Every driver operation keeps the stored defaults in range. */
  lemma OperationsKeepValid(d: Driver, text: string, o: CallOptions, ios: bool, e: SpeechEvent, x: real)
    requires Valid(d)
    ensures Valid(Stop(d)) && Valid(Speak(d, text, o)) && Valid(Pause(d, ios)) && Valid(Resume(d, ios))
    ensures Valid(OnEvent(d, e)) && Valid(SetSpeechRate(d, x)) && Valid(SetSpeechPitch(d, x))
  {
  }

  /** The flag `getIsPlaying` reports: set by speak and by the start callback, cleared by stop and the other callbacks. */
  lemma IsPlayingFollowsDriver(d: Driver, text: string, o: CallOptions, ios: bool, e: SpeechEvent)
    ensures GetIsPlaying(Speak(d, text, o)) && !GetIsPlaying(Stop(d))
    ensures GetIsPlaying(OnEvent(d, e)) <==> e == Started
    ensures GetIsPlaying(Pause(d, ios)) == GetIsPlaying(d) && GetIsPlaying(Resume(d, ios)) == GetIsPlaying(d)
  {
  }
}
