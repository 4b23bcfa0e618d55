/**
 * The keydown router of universal-video-controller/content.js (`handleKeyDown`
 * and `dispatchNativeKeyEvent`) as a pure function from the key, the event's
 * target, the host name and the active video's playback state to an outcome.
 * Controller.HandleKeyDown performs the same steps on the objects and is proved
 * to agree with `Route`.
 */
module Router {
  import opened Wrappers
  import opened Keys

  /** The playback fields of the active `<video>` that the handler reads or writes. */
  datatype Playback = Playback(
    paused: bool,
    muted: bool,
    currentTime: real,
    volume: real,
    duration: real)

  /** The event target, as far as the text-entry guard looks at it. */
  datatype Target = Target(tagName: string, isContentEditable: bool)

  /** The keydown event `dispatchNativeKeyEvent` builds and sends to `window`. */
  datatype NativeKeyEvent = KeyDown(key: string, bubbles: bool, cancelable: bool)

  /** The foreign fullscreen call a handled `f` makes in the generic mode. */
  datatype FullscreenCall = NoCall | RequestFullscreen | ExitFullscreen

  /**
   * What one keydown leads to: nothing (the event passes through untouched),
   * one synthesized key for the site's own player, or a change to the video
   * with the feedback text to show.
   */
  datatype Outcome =
    | PassThrough
    | Remapped(event: NativeKeyEvent)
    | Performed(video: Playback, feedback: string, fullscreen: FullscreenCall)

  /** A handled key gets preventDefault, stopPropagation and stopImmediatePropagation. */
  predicate Handled(o: Outcome)
  {
    !o.PassThrough?
  }

  /** Keys typed into an `<input>`, a `<textarea>` or an editable element are never intercepted. */
  predicate IsTextEntry(t: Target)
  {
    t.tagName == "INPUT" || t.tagName == "TEXTAREA" || t.isContentEditable
  }

  /** `dispatchNativeKeyEvent(key)`: a bubbling, cancelable keydown carrying `key`. */
  function NativeKeyDown(key: string): (e: NativeKeyEvent)
    ensures e.key == key && e.bubbles && e.cancelable
  {
    KeyDown(key, true, true)
  }

  // ---------------------------------------------------------------------------
  // Feedback texts
  // ---------------------------------------------------------------------------

  const PlayText: string := "▶ Play"
  const PauseText: string := "❚❚ Pause"
  const MutedText: string := "? Muted"
  const UnmutedText: string := "🔊 Unmuted"
  const EnterFullscreenText: string := "⛶ Enter Fullscreen"
  const ExitFullscreenText: string := "Exit Fullscreen"

  /** The decimal digits of `n`, most significant first, without leading zeros. */
  function DecimalDigits(n: nat): (r: string)
    ensures |r| > 0
    ensures forall i :: 0 <= i < |r| ==> '0' <= r[i] <= '9'
    decreases n
  {
    (if n < 10 then "" else DecimalDigits(n / 10)) + [('0' as int + n % 10) as char]
  }

  /** A JavaScript number that happens to be an integer, as a template literal writes it. */
  function IntegerText(i: int): (r: string)
    ensures |r| > 0
    ensures (r[0] == '-') <==> i < 0
    ensures i >= 0 ==> '0' <= r[0] <= '9'
  {
    if i < 0 then "-" + DecimalDigits(-i) else DecimalDigits(i)
  }

  /** `Math.round`: the nearest integer, halves rounded up. */
  function Round(x: real): (r: int)
    ensures x - 0.5 < r as real <= x + 0.5
  {
    (x + 0.5).Floor
  }

  /** `Volume: <percent>%`, the percentage rounded to an integer. */
  function VolumeText(volume: real): (r: string)
    ensures |r| > 9 && r[..8] == "Volume: " && r[|r| - 1] == '%'
    ensures volume >= 0.0 ==> r[8] != '-'
  {
    "Volume: " + IntegerText(Round(volume * 100.0)) + "%"
  }

  /** `« 5s`, `5s »`, `« 10s`, `10s »` for the relative seeks. */
  function SeekText(seconds: int): (r: string)
    ensures |r| > 2
    ensures (r[0] == '«') <==> seconds < 0
    ensures seconds >= 0 ==> r[|r| - 1] == '»'
  {
    if seconds < 0 then "« " + IntegerText(-seconds) + "s" else IntegerText(seconds) + "s »"
  }

  function Min(x: real, y: real): real { if x <= y then x else y }
  function Max(x: real, y: real): real { if x >= y then x else y }

  // ---------------------------------------------------------------------------
  // The two modes
  // ---------------------------------------------------------------------------

  /** What one case of the generic switch does to the video's playback fields. */
  function Apply(a: Action, p: Playback): (q: Playback)
    ensures q.duration == p.duration
  {
    match a
    case TogglePlay => p.(paused := !p.paused)
    case SeekBy(seconds) => p.(currentTime := p.currentTime + seconds as real)
    case ToggleMute => p.(muted := !p.muted)
    case ToggleFullscreen => p
    case VolumeUp => p.(volume := Min(1.0, p.volume + 0.05))
    case VolumeDown => p.(volume := Max(0.0, p.volume - 0.05))
    case SeekToTenths(digit) => p.(currentTime := p.duration * (digit as real / 10.0))
  }

  /**
   * The feedback text one case sets, from the state before (`p`) and after
   * the change. `key` is the event's own key, which the digit case prints.
   */
  function FeedbackFor(a: Action, key: string, p: Playback, fullscreenActive: bool): (t: string)
    ensures t != []
  {
    var q := Apply(a, p);
    match a
    case TogglePlay => if p.paused then PlayText else PauseText
    case SeekBy(seconds) => SeekText(seconds)
    case ToggleMute => if q.muted then MutedText else UnmutedText
    case ToggleFullscreen => if !fullscreenActive then EnterFullscreenText else ExitFullscreenText
    case VolumeUp => VolumeText(q.volume)
    case VolumeDown => VolumeText(q.volume)
    case SeekToTenths(digit) => "Seek to " + key + "0%"
  }

  /** The fullscreen call one case makes: only `f` makes one, and which depends on the current state. */
  function FullscreenCallFor(a: Action, fullscreenActive: bool): (c: FullscreenCall)
    ensures c != NoCall <==> a == ToggleFullscreen
  {
    if a != ToggleFullscreen then NoCall
    else if !fullscreenActive then RequestFullscreen
    else ExitFullscreen
  }

  /** One case of the generic switch: the new playback state, the feedback text and the fullscreen call. */
  function Perform(a: Action, key: string, p: Playback, fullscreenActive: bool): (o: Outcome)
    ensures o.Performed? && o.feedback != []
    ensures o.video.duration == p.duration
  {
    Performed(Apply(a, p), FeedbackFor(a, key, p, fullscreenActive), FullscreenCallFor(a, fullscreenActive))
  }

  /** The Netflix branch: the remap switch, then one synthesized key or nothing. */
  function RemapOutcome(lowered: string): (o: Outcome)
    ensures o.Remapped? <==> lowered in RemapTable
    ensures o.Remapped? ==> o.event == KeyDown(RemapTable[lowered], true, true)
    ensures !o.Performed?
  {
    RemapKeyIsTable(lowered);
    match RemapKey(lowered)
    case Some(native) => Remapped(NativeKeyDown(native))
    case None => PassThrough
  }

  /** The generic branch: the action switch, then the action applied to the video. */
  function GenericOutcome(key: string, p: Playback, fullscreenActive: bool): (o: Outcome)
    ensures o.Performed? <==> ToLower(key) in GenericTable
    ensures o.Performed? ==> o.feedback != [] && o.video.duration == p.duration
    ensures !o.Remapped?
  {
    ActionForIsTable(ToLower(key));
    match ActionFor(ToLower(key))
    case Some(a) => Perform(a, key, p, fullscreenActive)
    case None => PassThrough
  }

  /**
   * `handleKeyDown`: the text-entry guard, the no-active-video guard, then the
   * remap table on a Netflix host and the generic table everywhere else.
   */
  function Route(key: string, target: Target, host: string, video: Option<Playback>,
                 fullscreenActive: bool): (o: Outcome)
    ensures IsTextEntry(target) || video.None? ==> o == PassThrough
    ensures Handled(o) <==>
      && !IsTextEntry(target)
      && video.Some?
      && ToLower(key) in (if ModeOf(host) == NetflixRemap then RemapTable.Keys else GenericTable.Keys)
    ensures o.Remapped? ==>
      && ModeOf(host) == NetflixRemap
      && o.event == KeyDown(RemapTable[ToLower(key)], true, true)
    ensures o.Performed? ==>
      && ModeOf(host) == Generic
      && o.feedback != []
      && o.video.duration == video.value.duration
  {
    if IsTextEntry(target) then PassThrough
    else if video.None? then PassThrough
    else if ModeOf(host) == NetflixRemap then RemapOutcome(ToLower(key))
    else GenericOutcome(key, video.value, fullscreenActive)
  }

  // ---------------------------------------------------------------------------
  // Properties of the generic mode
  // ---------------------------------------------------------------------------

  /** Past the two guards, the generic mode applies the generic switch to the video. */
  lemma GenericRoute(key: string, target: Target, host: string, p: Playback, fs: bool)
    requires !IsTextEntry(target) && ModeOf(host) == Generic
    ensures Route(key, target, host, Some(p), fs) == GenericOutcome(key, p, fs)
  {
  }

  /** `s` and `k` toggle `paused`, and say which way they went. */
  lemma PlayPauseToggles(key: string, target: Target, host: string, p: Playback, fs: bool)
    requires !IsTextEntry(target) && ModeOf(host) == Generic
    requires ToLower(key) == "s" || ToLower(key) == "k"
    ensures Route(key, target, host, Some(p), fs) ==
      Performed(p.(paused := !p.paused), if p.paused then PlayText else PauseText, NoCall)
  {
    GenericRoute(key, target, host, p, fs);
  }

  /** The four texts of the relative seeks. */
  lemma SeekTexts()
    ensures SeekText(-5) == "« 5s" && SeekText(5) == "5s »"
    ensures SeekText(-10) == "« 10s" && SeekText(10) == "10s »"
  {
    assert IntegerText(5) == "5";
    assert DecimalDigits(1) == "1";
    assert IntegerText(10) == "10";
  }

  /** `a`, `d`, `j`, `l` shift `currentTime` by −5, +5, −10, +10 and change nothing else. */
  lemma RelativeSeeks(key: string, target: Target, host: string, p: Playback, fs: bool)
    requires !IsTextEntry(target) && ModeOf(host) == Generic
    ensures ToLower(key) == "a" ==>
      Route(key, target, host, Some(p), fs) == Performed(p.(currentTime := p.currentTime - 5.0), "« 5s", NoCall)
    ensures ToLower(key) == "d" ==>
      Route(key, target, host, Some(p), fs) == Performed(p.(currentTime := p.currentTime + 5.0), "5s »", NoCall)
    ensures ToLower(key) == "j" ==>
      Route(key, target, host, Some(p), fs) == Performed(p.(currentTime := p.currentTime - 10.0), "« 10s", NoCall)
    ensures ToLower(key) == "l" ==>
      Route(key, target, host, Some(p), fs) == Performed(p.(currentTime := p.currentTime + 10.0), "10s »", NoCall)
  {
    GenericRoute(key, target, host, p, fs);
    var lowered := ToLower(key);
    SeekTexts();
    if lowered == "a" {
      assert ActionFor(lowered) == Some(SeekBy(-5));
    } else if lowered == "d" {
      assert ActionFor(lowered) == Some(SeekBy(5));
    } else if lowered == "j" {
      assert ActionFor(lowered) == Some(SeekBy(-10));
    } else if lowered == "l" {
      assert ActionFor(lowered) == Some(SeekBy(10));
    }
  }

  /** `m` toggles `muted` and reports the new state. */
  lemma MuteToggles(key: string, target: Target, host: string, p: Playback, fs: bool)
    requires !IsTextEntry(target) && ModeOf(host) == Generic
    requires ToLower(key) == "m"
    ensures Route(key, target, host, Some(p), fs) ==
      Performed(p.(muted := !p.muted), if p.muted then UnmutedText else MutedText, NoCall)
  {
    GenericRoute(key, target, host, p, fs);
  }

  /** `f` asks to enter fullscreen when nothing is fullscreen, and to leave it otherwise. */
  lemma FullscreenToggles(key: string, target: Target, host: string, p: Playback, fs: bool)
    requires !IsTextEntry(target) && ModeOf(host) == Generic
    requires ToLower(key) == "f"
    ensures Route(key, target, host, Some(p), fs) ==
      if fs then Performed(p, ExitFullscreenText, ExitFullscreen)
      else Performed(p, EnterFullscreenText, RequestFullscreen)
  {
    GenericRoute(key, target, host, p, fs);
  }

  /** Past the guards, in the generic mode, a key bound to `a` performs `a`. */
  lemma RouteOfAction(a: Action, key: string, target: Target, host: string, p: Playback, fs: bool)
    requires !IsTextEntry(target) && ModeOf(host) == Generic
    requires ActionFor(ToLower(key)) == Some(a)
    ensures Route(key, target, host, Some(p), fs) == Perform(a, key, p, fs)
  {
    GenericRoute(key, target, host, p, fs);
  }

  /** Digit `d` seeks to `d` tenths of the duration and reports `Seek to d0%`. */
  lemma DigitSeeks(key: string, d: nat, target: Target, host: string, p: Playback, fs: bool)
    requires !IsTextEntry(target) && ModeOf(host) == Generic
    requires d < 10 && key == [('0' as int + d) as char]
    ensures Route(key, target, host, Some(p), fs) ==
      Performed(p.(currentTime := p.duration * (d as real / 10.0)), "Seek to " + key + "0%", NoCall)
  {
    assert ToLower(key) == key;
    DigitAction(d);
    RouteOfAction(SeekToTenths(d), key, target, host, p, fs);
  }

  /**
   * The volume keys clamp: `ArrowUp` never leaves the volume above 1,
   * `ArrowDown` never below 0, and a volume in [0, 1] stays in [0, 1].
   */
  lemma VolumeClamped(key: string, target: Target, host: string, p: Playback, fs: bool)
    requires !IsTextEntry(target) && ModeOf(host) == Generic
    requires ToLower(key) == "arrowup" || ToLower(key) == "arrowdown"
    ensures var o := Route(key, target, host, Some(p), fs);
      && o.Performed?
      && o.video == p.(volume := o.video.volume)
      && o.feedback == VolumeText(o.video.volume)
      && o.fullscreen == NoCall
      && (ToLower(key) == "arrowup" ==> o.video.volume == Min(1.0, p.volume + 0.05) <= 1.0)
      && (ToLower(key) == "arrowdown" ==> o.video.volume == Max(0.0, p.volume - 0.05) >= 0.0)
      && (0.0 <= p.volume <= 1.0 ==> 0.0 <= o.video.volume <= 1.0)
  {
    if ToLower(key) == "arrowup" {
      assert ActionFor(ToLower(key)) == Some(VolumeUp);
      RouteOfAction(VolumeUp, key, target, host, p, fs);
    } else {
      assert ActionFor(ToLower(key)) == Some(VolumeDown);
      RouteOfAction(VolumeDown, key, target, host, p, fs);
    }
  }

  lemma ClampSteps(v: real, k: real)
    ensures Min(1.0, Min(1.0, v + 0.05 * k) + 0.05) == Min(1.0, v + 0.05 * (k + 1.0))
    ensures Max(0.0, Max(0.0, v - 0.05 * k) - 0.05) == Max(0.0, v - 0.05 * (k + 1.0))
  {
  }

  /**
   * The playback state after `n` keydowns of a key bound to `a`, each of
   * which, by `RouteOfAction`, applies `a` to the state the previous one left.
   */
  function Repeated(a: Action, p: Playback, n: nat): Playback
  {
    if n == 0 then p else Apply(a, Repeated(a, p, n - 1))
  }

  /** `n` presses of `ArrowUp` raise the volume by `n` steps of 0.05, capped at 1. */
  lemma {:induction false} VolumeUpRepeated(p: Playback, n: nat)
    requires 0.0 <= p.volume <= 1.0
    ensures Repeated(VolumeUp, p, n).volume == Min(1.0, p.volume + 0.05 * n as real)
  {
    if n > 0 {
      VolumeUpRepeated(p, n - 1);
      ClampSteps(p.volume, (n - 1) as real);
    }
  }

  /** `n` presses of `ArrowDown` lower the volume by `n` steps of 0.05, floored at 0. */
  lemma {:induction false} VolumeDownRepeated(p: Playback, n: nat)
    requires 0.0 <= p.volume <= 1.0
    ensures Repeated(VolumeDown, p, n).volume == Max(0.0, p.volume - 0.05 * n as real)
  {
    if n > 0 {
      VolumeDownRepeated(p, n - 1);
      ClampSteps(p.volume, (n - 1) as real);
    }
  }

  /** A volume in [0, 1] stays in [0, 1] under any number of presses of either volume key. */
  lemma VolumeStaysInRange(a: Action, p: Playback, n: nat)
    requires a == VolumeUp || a == VolumeDown
    requires 0.0 <= p.volume <= 1.0
    ensures 0.0 <= Repeated(a, p, n).volume <= 1.0
  {
    if a == VolumeUp {
      VolumeUpRepeated(p, n);
    } else {
      VolumeDownRepeated(p, n);
    }
  }

  /** Pressing `ArrowUp` 25 times from silence ends at full volume, not above it. */
  lemma VolumeUpFromSilence(p: Playback)
    requires p.volume == 0.0
    ensures Repeated(VolumeUp, p, 25).volume == 1.0
  {
    VolumeUpRepeated(p, 25);
  }

  /** Key `3` on a 200 s video seeks to 60 s and reports 30%. */
  lemma SeekToThirtyPercent(target: Target, host: string, p: Playback, fs: bool)
    requires !IsTextEntry(target) && ModeOf(host) == Generic
    requires p.duration == 200.0
    ensures Route("3", target, host, Some(p), fs) ==
      Performed(p.(currentTime := 60.0), "Seek to 30%", NoCall)
  {
    DigitSeeks("3", 3, target, host, p, fs);
  }

  // ---------------------------------------------------------------------------
  // Properties of the remap mode
  // ---------------------------------------------------------------------------

  /**
   * On a Netflix host each bound key is replaced by exactly one synthesized,
   * bubbling, cancelable keydown; the video is never touched.
   */
  lemma NetflixRemaps(key: string, target: Target, host: string, p: Playback, fs: bool)
    requires !IsTextEntry(target) && ModeOf(host) == NetflixRemap
    ensures var o := RemapOutcome(ToLower(key));
      && Route(key, target, host, Some(p), fs) == o
      && (ToLower(key) in {"s", "k"} ==> o == Remapped(KeyDown(" ", true, true)))
      && (ToLower(key) in {"a", "j"} ==> o == Remapped(KeyDown("ArrowLeft", true, true)))
      && (ToLower(key) in {"d", "l"} ==> o == Remapped(KeyDown("ArrowRight", true, true)))
      && (ToLower(key) == "m" ==> o == Remapped(KeyDown("m", true, true)))
      && (ToLower(key) == "f" ==> o == Remapped(KeyDown("f", true, true)))
      && (ToLower(key) !in RemapTable ==> o == PassThrough)
  {
  }

  /** Key `k` on Netflix: one synthesized space, the play state left to the site. */
  lemma NetflixKIsSpace(target: Target, host: string, p: Playback, fs: bool)
    requires !IsTextEntry(target)
    requires host == "www.netflix.com"
    ensures Route("k", target, host, Some(p), fs) == Remapped(KeyDown(" ", true, true))
  {
    assert OccursAt(host, NetflixDomain, 4);
    assert ToLower("k") == "k";
  }

  /** On Netflix a key whose name is longer than one character is never remapped. */
  lemma LongKeyPasses(key: string, target: Target, host: string, p: Playback, fs: bool)
    requires !IsTextEntry(target) && ModeOf(host) == NetflixRemap
    requires |key| > 1
    ensures Route(key, target, host, Some(p), fs) == PassThrough
  {
    NetflixRemaps(key, target, host, p, fs);
    assert |ToLower(key)| > 1;
    assert forall k :: k in RemapTable ==> |k| == 1;
  }

  /** On Netflix `m` and `f` are remapped to a keydown of the same key. */
  lemma SelfRemapped(key: string, target: Target, host: string, p: Playback, fs: bool)
    requires !IsTextEntry(target) && ModeOf(host) == NetflixRemap
    requires key == "m" || key == "f"
    ensures RemapKey(key) == Some(key)
    ensures Route(key, target, host, Some(p), fs) == Remapped(NativeKeyDown(key))
  {
    assert ToLower(key) == key;
    NetflixRemaps(key, target, host, p, fs);
  }

  /** On Netflix a space is not remapped. */
  lemma SpacePasses(target: Target, host: string, p: Playback, fs: bool)
    requires !IsTextEntry(target) && ModeOf(host) == NetflixRemap
    ensures Route(" ", target, host, Some(p), fs) == PassThrough
  {
    assert ToLower(" ") == " ";
    NetflixRemaps(" ", target, host, p, fs);
  }

  /**
   * The synthesized keydown goes to `window`, where the capture listener
   * sees it again with `window` as its target (no tag, not editable). On
   * Netflix the remap table sends `m` and `f` to themselves, so each
   * dispatch of those two is remapped again into the same dispatch; the
   * other three native keys pass through to the site.
   */
  lemma NativeKeysReenter(host: string, p: Playback, fs: bool)
    requires ModeOf(host) == NetflixRemap
    ensures var w := Target("", false);
      && Route("m", w, host, Some(p), fs) == Remapped(NativeKeyDown("m"))
      && Route("f", w, host, Some(p), fs) == Remapped(NativeKeyDown("f"))
      && Route(" ", w, host, Some(p), fs) == PassThrough
      && Route("ArrowLeft", w, host, Some(p), fs) == PassThrough
      && Route("ArrowRight", w, host, Some(p), fs) == PassThrough
  {
    var w := Target("", false);
    SelfRemapped("m", w, host, p, fs);
    SelfRemapped("f", w, host, p, fs);
    SpacePasses(w, host, p, fs);
    LongKeyPasses("ArrowLeft", w, host, p, fs);
    LongKeyPasses("ArrowRight", w, host, p, fs);
  }
}
