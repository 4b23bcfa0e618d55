/**
 * The script's mutable state and its three entry points in
 * universal-video-controller/content.js: the tracker tick that `init`
 * installs with `setInterval`, `showFeedback`, and `handleKeyDown`, which
 * performs on the live objects what `Router.Route` computes.
 *
 * The browser's timer queue is part of the state: `setTimeout` adds an entry
 * under a fresh handle, `clearTimeout` removes one, and `FireTimer` runs a
 * pending entry. Which pending timer fires next is the caller's choice.
 */
module Controller {
  import opened Wrappers
  import opened Keys
  import opened Router
  import opened Page
  import Scanner
  import Selector

  /** The tracker's period, and the delays of the two hide callbacks, in milliseconds. */
  const ScanInterval: nat := 2000
  const IndicatorHideDelay: nat := 3000
  const FeedbackHideDelay: nat := 600

  /** What a pending `setTimeout` callback does when it runs. */
  datatype TimerAction = HideIndicator | HideFeedback

  datatype Timeout = Timeout(delay: nat, action: TimerAction)

  /** A `setTimeout` handle; browsers hand out positive integers. */
  type TimerHandle = nat

  /** The object-valued parent of `v`, as a frame. */
  function ParentOf(v: VideoElement?): set<object>
    reads v
  {
    if v != null && v.parent != null then {v.parent} else {}
  }

  /** The fullscreen calls a call record gains. */
  function FullscreenLog(c: FullscreenCall): seq<FullscreenCall>
  {
    if c == NoCall then [] else [c]
  }

  /**
   * One case of the generic switch on `video`: the playback fields and the
   * feedback text are those `Perform` computes, and so is the Fullscreen API
   * call, which the caller makes.
   */
  method PerformAction(video: VideoElement, action: Action, key: string, fullscreenActive: bool)
    returns (text: string, call: FullscreenCall)
    modifies video
    ensures var o := Perform(action, key, old(video.State()), fullscreenActive);
      video.State() == o.video && text == o.feedback && call == o.fullscreen
    ensures video.parent == old(video.parent)
  {
    ghost var p := video.State();
    call := NoCall;
    match action {
    case TogglePlay =>
      if video.paused {
        video.paused := false;
        text := PlayText;
      } else {
        video.paused := true;
        text := PauseText;
      }
    case SeekBy(seconds) =>
      video.currentTime := video.currentTime + seconds as real;
      text := SeekText(seconds);
    case ToggleMute =>
      video.muted := !video.muted;
      text := if video.muted then MutedText else UnmutedText;
    case ToggleFullscreen =>
      if !fullscreenActive {
        call := RequestFullscreen;
        text := EnterFullscreenText;
      } else {
        call := ExitFullscreen;
        text := ExitFullscreenText;
      }
    case VolumeUp =>
      video.volume := Min(1.0, video.volume + 0.05);
      text := VolumeText(video.volume);
    case VolumeDown =>
      video.volume := Max(0.0, video.volume - 0.05);
      text := VolumeText(video.volume);
    case SeekToTenths(digit) =>
      var percentage := digit as real / 10.0;
      video.currentTime := video.duration * percentage;
      text := "Seek to " + key + "0%";
    }
    assert video.State() == Apply(action, p);
    assert text == FeedbackFor(action, key, p, fullscreenActive);
  }

  // ---------------------------------------------------------------------------
  // The timer queue
  // ---------------------------------------------------------------------------

  /** Whether a hide of the feedback display is pending. */
  predicate FeedbackHidePending(timers: map<TimerHandle, Timeout>)
  {
    exists h :: h in timers && timers[h].action == HideFeedback
  }

  /**
   * Every pending timer has a handle already handed out; the only pending
   * indicator hide is the one `indicatorTimeout` names; a visible indicator
   * has that hide pending; and a visible feedback display has some hide
   * pending.
   */
  predicate TimersConsistent(timers: map<TimerHandle, Timeout>, next: TimerHandle,
                             indicatorTimeout: Option<TimerHandle>,
                             indicatorVisible: bool, feedbackVisible: bool)
  {
    && next >= 1
    && (forall h :: h in timers ==> 1 <= h < next)
    && (indicatorTimeout.Some? ==> 1 <= indicatorTimeout.value < next)
    && (forall h :: h in timers && timers[h].action == HideIndicator ==> indicatorTimeout == Some(h))
    && (indicatorTimeout.Some? && indicatorTimeout.value in timers ==>
          timers[indicatorTimeout.value].action == HideIndicator)
    && (indicatorVisible ==> indicatorTimeout.Some? && indicatorTimeout.value in timers)
    && (feedbackVisible ==> FeedbackHidePending(timers))
  }

  /** `if (indicatorTimeout) clearTimeout(indicatorTimeout)`. */
  function ClearPrevious(timers: map<TimerHandle, Timeout>, handle: Option<TimerHandle>): (r: map<TimerHandle, Timeout>)
    ensures handle.Some? ==> handle.value !in r
    ensures forall h :: h in r <==> h in timers && handle != Some(h)
  {
    if handle.Some? then timers - {handle.value} else timers
  }

  /** Showing the indicator again: the old hide is cancelled and one fresh hide is pending. */
  lemma IndicatorRescheduled(timers: map<TimerHandle, Timeout>, next: TimerHandle,
                             indicatorTimeout: Option<TimerHandle>, indicatorVisible: bool, feedbackVisible: bool)
    requires TimersConsistent(timers, next, indicatorTimeout, indicatorVisible, feedbackVisible)
    ensures TimersConsistent(ClearPrevious(timers, indicatorTimeout)[next := Timeout(IndicatorHideDelay, HideIndicator)],
                             next + 1, Some(next), true, feedbackVisible)
  {
    var cleared := ClearPrevious(timers, indicatorTimeout);
    var after := cleared[next := Timeout(IndicatorHideDelay, HideIndicator)];
    if feedbackVisible {
      var w :| w in timers && timers[w].action == HideFeedback;
      assert w in cleared && after[w] == timers[w];
    }
  }

  /** Showing feedback adds one pending feedback hide. */
  lemma FeedbackScheduled(timers: map<TimerHandle, Timeout>, next: TimerHandle,
                          indicatorTimeout: Option<TimerHandle>, indicatorVisible: bool, feedbackVisible: bool)
    requires TimersConsistent(timers, next, indicatorTimeout, indicatorVisible, feedbackVisible)
    ensures TimersConsistent(timers[next := Timeout(FeedbackHideDelay, HideFeedback)],
                             next + 1, indicatorTimeout, indicatorVisible, true)
  {
    var after := timers[next := Timeout(FeedbackHideDelay, HideFeedback)];
    assert after[next].action == HideFeedback;
  }

  /** A timer that runs leaves the queue and hides what it was scheduled to hide. */
  lemma TimerFired(timers: map<TimerHandle, Timeout>, next: TimerHandle, h: TimerHandle,
                   indicatorTimeout: Option<TimerHandle>, indicatorVisible: bool, feedbackVisible: bool)
    requires TimersConsistent(timers, next, indicatorTimeout, indicatorVisible, feedbackVisible)
    requires h in timers
    ensures TimersConsistent(timers - {h}, next, indicatorTimeout,
                             indicatorVisible && timers[h].action != HideIndicator,
                             feedbackVisible && timers[h].action != HideFeedback)
  {
    if feedbackVisible && timers[h].action != HideFeedback {
      var w :| w in timers && timers[w].action == HideFeedback;
      assert w in timers - {h};
    }
  }

  /** A keydown event as the handler sees it, with the three suppression flags. */
  class KeyEvent {
    const key: string
    const target: Target
    var defaultPrevented: bool
    var propagationStopped: bool
    var immediatePropagationStopped: bool

    constructor (key: string, target: Target)
      ensures this.key == key && this.target == target
      ensures !defaultPrevented && !propagationStopped && !immediatePropagationStopped
    {
      this.key := key;
      this.target := target;
      defaultPrevented, propagationStopped, immediatePropagationStopped := false, false, false;
    }

    /** `preventDefault`, `stopPropagation` and `stopImmediatePropagation`. */
    method Suppress()
      modifies this
      ensures defaultPrevented && propagationStopped && immediatePropagationStopped
    {
      defaultPrevented, propagationStopped, immediatePropagationStopped := true, true, true;
    }
  }

  class Controller {
    /** The module globals `activeVideo` and `lastActiveVideo`. */
    var activeVideo: VideoElement?
    var lastActiveVideo: VideoElement?
    /** The indicator element's opacity (`'1'` is visible) and the global `indicatorTimeout`. */
    var indicatorVisible: bool
    var indicatorTimeout: Option<TimerHandle>
    /** The feedback display: its parent element, its text and its opacity. */
    var feedbackParent: ParentElement?
    var feedbackText: string
    var feedbackVisible: bool
    /** The browser's pending timeouts and the next handle it will hand out. */
    var timers: map<TimerHandle, Timeout>
    var nextHandle: TimerHandle
    /** The events dispatched on `window`, and the fullscreen calls made, in order. */
    var dispatched: seq<NativeKeyEvent>
    var fullscreenCalls: seq<FullscreenCall>

    function Tracking(): (VideoElement?, VideoElement?)
      reads this
    {
      (activeVideo, lastActiveVideo)
    }

    function IndicatorState(): (bool, Option<TimerHandle>)
      reads this
    {
      (indicatorVisible, indicatorTimeout)
    }

    function FeedbackState(): (ParentElement?, string, bool)
      reads this
    {
      (feedbackParent, feedbackText, feedbackVisible)
    }

    function TimerState(): (map<TimerHandle, Timeout>, TimerHandle)
      reads this
    {
      (timers, nextHandle)
    }

    function WindowLog(): (seq<NativeKeyEvent>, seq<FullscreenCall>)
      reads this
    {
      (dispatched, fullscreenCalls)
    }

    /** Between two calls the tracker has copied the active video into `lastActiveVideo`, and the timers are consistent. */
    predicate Valid()
      reads this
    {
      && lastActiveVideo == activeVideo
      && TimersConsistent(timers, nextHandle, indicatorTimeout, indicatorVisible, feedbackVisible)
    }

    /** `init`: the indicator and the feedback display exist, hidden, and no video is tracked. */
    constructor ()
      ensures Valid()
      ensures activeVideo == null && !indicatorVisible && indicatorTimeout.None?
      ensures feedbackParent == null && !feedbackVisible
      ensures timers == map[] && nextHandle == 1 && dispatched == [] && fullscreenCalls == []
    {
      activeVideo, lastActiveVideo := null, null;
      indicatorVisible, indicatorTimeout := false, None;
      feedbackParent, feedbackText, feedbackVisible := null, "", false;
      timers, nextHandle := map[], 1;
      dispatched, fullscreenCalls := [], [];
    }

    // -------------------------------------------------------------------------
    // The tracker
    // -------------------------------------------------------------------------

    /**
     * One run of the `setInterval` callback, given what `findMainVideo`
     * returned. A newly found video shows the indicator, cancels the previous
     * indicator hide and schedules a fresh one; the same video as last time
     * leaves the indicator and the timers alone; no video hides the indicator
     * at once and leaves the pending hide, if any, in place.
     */
    method Tick(found: VideoElement?)
      requires Valid()
      modifies this
      ensures Valid()
      ensures activeVideo == found && lastActiveVideo == found
      ensures found != null && found != old(lastActiveVideo) ==>
        && indicatorVisible
        && indicatorTimeout == Some(old(nextHandle))
        && timers == ClearPrevious(old(timers), old(indicatorTimeout))[old(nextHandle) := Timeout(IndicatorHideDelay, HideIndicator)]
        && nextHandle == old(nextHandle) + 1
      ensures found != null && found == old(lastActiveVideo) ==>
        IndicatorState() == old(IndicatorState()) && TimerState() == old(TimerState())
      ensures found == null ==>
        && !indicatorVisible && indicatorTimeout == old(indicatorTimeout)
        && TimerState() == old(TimerState())
      ensures FeedbackState() == old(FeedbackState()) && WindowLog() == old(WindowLog())
    {
      activeVideo := found;
      if activeVideo != null {
        if lastActiveVideo != activeVideo {
          IndicatorRescheduled(timers, nextHandle, indicatorTimeout, indicatorVisible, feedbackVisible);
          indicatorVisible := true;
          timers := ClearPrevious(timers, indicatorTimeout);
          var handle := nextHandle;
          timers := timers[handle := Timeout(IndicatorHideDelay, HideIndicator)];
          nextHandle := nextHandle + 1;
          indicatorTimeout := Some(handle);
        }
        lastActiveVideo := activeVideo;
      } else {
        indicatorVisible := false;
        lastActiveVideo := null;
      }
    }

    /**
     * The whole interval callback: `activeVideo = findMainVideo()` on the
     * current page, then the tracker step. `elements` maps each scanned
     * video to its element.
     */
    method TickOnPage(page: seq<Node>, elements: map<VideoId, VideoElement>)
      requires Valid()
      requires forall v :: v in Scanner.Collect(page) ==> v.id in elements
      modifies this
      ensures Valid()
      ensures var m := Selector.SelectMain(Scanner.Collect(page));
        var f := if m.Some? then elements[m.value.id] else null;
        && activeVideo == f && lastActiveVideo == f
        && (f != null && f != old(lastActiveVideo) ==>
              && indicatorVisible
              && indicatorTimeout == Some(old(nextHandle))
              && timers == ClearPrevious(old(timers), old(indicatorTimeout))[old(nextHandle) := Timeout(IndicatorHideDelay, HideIndicator)]
              && nextHandle == old(nextHandle) + 1)
        && (f != null && f == old(lastActiveVideo) ==>
              IndicatorState() == old(IndicatorState()) && TimerState() == old(TimerState()))
        && (f == null ==>
              && !indicatorVisible
              && indicatorTimeout == old(indicatorTimeout)
              && TimerState() == old(TimerState()))
      ensures FeedbackState() == old(FeedbackState()) && WindowLog() == old(WindowLog())
    {
      var main := Selector.FindMainVideo(page);
      var found: VideoElement? := null;
      if main.Some? {
        found := elements[main.value.id];
      }
      Tick(found);
    }

    /** A pending timeout runs its callback and leaves the queue. */
    method FireTimer(h: TimerHandle)
      requires Valid() && h in timers
      modifies this
      ensures Valid()
      ensures timers == old(timers) - {h} && nextHandle == old(nextHandle)
      ensures old(timers)[h].action == HideIndicator ==>
        !indicatorVisible && feedbackVisible == old(feedbackVisible)
      ensures old(timers)[h].action == HideFeedback ==>
        !feedbackVisible && indicatorVisible == old(indicatorVisible)
      ensures Tracking() == old(Tracking()) && indicatorTimeout == old(indicatorTimeout)
      ensures feedbackParent == old(feedbackParent) && feedbackText == old(feedbackText)
      ensures WindowLog() == old(WindowLog())
    {
      var action := timers[h].action;
      TimerFired(timers, nextHandle, h, indicatorTimeout, indicatorVisible, feedbackVisible);
      timers := timers - {h};
      match action
      case HideIndicator =>
        indicatorVisible := false;
      case HideFeedback =>
        feedbackVisible := false;
    }

    // -------------------------------------------------------------------------
    // Feedback
    // -------------------------------------------------------------------------

    /**
     * `showFeedback(text)`: with an active video that has a parent, move the
     * display under that parent when it is elsewhere (making a statically
     * positioned parent relative first), show `text`, and schedule a hide in
     * 600 ms. An earlier pending hide is not cancelled.
     */
    method ShowFeedback(text: string)
      requires Valid()
      modifies this, ParentOf(activeVideo)
      ensures Valid()
      ensures old(activeVideo) == null || old(activeVideo.parent) == null ==>
        FeedbackState() == old(FeedbackState()) && TimerState() == old(TimerState())
      ensures old(activeVideo) != null && old(activeVideo.parent) != null ==>
        var parent := old(activeVideo.parent);
        && feedbackParent == parent
        && feedbackText == text
        && feedbackVisible
        && timers == old(timers)[old(nextHandle) := Timeout(FeedbackHideDelay, HideFeedback)]
        && nextHandle == old(nextHandle) + 1
        && parent.position ==
             (if old(feedbackParent) != parent && old(parent.position) == Static then Relative
              else old(parent.position))
      ensures Tracking() == old(Tracking()) && IndicatorState() == old(IndicatorState())
      ensures WindowLog() == old(WindowLog())
    {
      if activeVideo == null {
        return;
      }
      var parent := activeVideo.parent;
      if parent == null {
        return;
      }
      if feedbackParent != parent {
        if parent.position == Static {
          parent.position := Relative;
        }
        feedbackParent := parent;
      }
      FeedbackScheduled(timers, nextHandle, indicatorTimeout, indicatorVisible, feedbackVisible);
      feedbackText := text;
      feedbackVisible := true;
      var handle := nextHandle;
      timers := timers[handle := Timeout(FeedbackHideDelay, HideFeedback)];
      nextHandle := nextHandle + 1;
    }

    // -------------------------------------------------------------------------
    // The keydown handler
    // -------------------------------------------------------------------------

    /** `dispatchNativeKeyEvent(key)`. */
    method DispatchNativeKeyEvent(key: string)
      modifies this
      ensures dispatched == old(dispatched) + [NativeKeyDown(key)]
      ensures fullscreenCalls == old(fullscreenCalls)
      ensures Tracking() == old(Tracking()) && IndicatorState() == old(IndicatorState())
      ensures FeedbackState() == old(FeedbackState()) && TimerState() == old(TimerState())
    {
      dispatched := dispatched + [NativeKeyDown(key)];
    }

    /** The active video's playback state, if there is an active video. */
    function ActivePlayback(): Option<Playback>
      reads this, activeVideo
    {
      if activeVideo == null then None else Some(activeVideo.State())
    }

    /**
     * `handleKeyDown(e)`, with `document.fullscreenElement` given as
     * `fullscreenActive`. The outcome follows `Route` for the event: a key
     * that passes through leaves the controller, the event, the video and
     * its parent as they were; a remapped key dispatches exactly the
     * remapped event; a performed action leaves the video in the computed
     * state, makes the computed fullscreen call and shows the computed
     * feedback as `ShowFeedback` does. A handled key is suppressed, an
     * unhandled one is not.
     */
    method HandleKeyDown(e: KeyEvent, host: string, fullscreenActive: bool)
      requires Valid()
      modifies this, e, activeVideo, ParentOf(activeVideo)
      ensures Valid()
      ensures var o := Route(e.key, e.target, host, old(ActivePlayback()), fullscreenActive);
        && (Handled(o) ==> e.defaultPrevented && e.propagationStopped && e.immediatePropagationStopped)
        && (!Handled(o) ==> unchanged(this, e) && (old(activeVideo) != null ==> unchanged(old(activeVideo))))
        && (!o.Performed? && old(activeVideo) != null && old(activeVideo.parent) != null ==>
              unchanged(old(activeVideo.parent)))
        && (o.Remapped? ==>
              && dispatched == old(dispatched) + [o.event]
              && fullscreenCalls == old(fullscreenCalls)
              && (old(activeVideo) != null ==> unchanged(old(activeVideo)))
              && FeedbackState() == old(FeedbackState()) && TimerState() == old(TimerState()))
        && (o.Performed? ==>
              && activeVideo != null
              && activeVideo.State() == o.video
              && dispatched == old(dispatched)
              && fullscreenCalls == old(fullscreenCalls) + FullscreenLog(o.fullscreen)
              && activeVideo.parent == old(activeVideo.parent)
              && (activeVideo.parent != null ==>
                    var parent := activeVideo.parent;
                    && feedbackParent == parent
                    && feedbackText == o.feedback && feedbackVisible
                    && timers == old(timers)[old(nextHandle) := Timeout(FeedbackHideDelay, HideFeedback)]
                    && nextHandle == old(nextHandle) + 1
                    && parent.position ==
                         (if old(feedbackParent) != parent && old(parent.position) == Static then Relative
                          else old(parent.position)))
              && (activeVideo.parent == null ==>
                    FeedbackState() == old(FeedbackState()) && TimerState() == old(TimerState())))
      ensures Tracking() == old(Tracking()) && IndicatorState() == old(IndicatorState())
    {
      if IsTextEntry(e.target) {
        return;
      }
      if activeVideo == null {
        return;
      }
      var video := activeVideo;
      ghost var p := video.State();
      var lowered := ToLower(e.key);
      var isNetflix := Includes(host, NetflixDomain);
      if isNetflix {
        NetflixRemaps(e.key, e.target, host, p, fullscreenActive);
        RemapKeyDown(e, lowered);
      } else {
        GenericRoute(e.key, e.target, host, p, fullscreenActive);
        GenericKeyDown(e, video, fullscreenActive);
      }
    }

    /**
     * The Netflix branch of `handleKeyDown`: a key of the remap table
     * dispatches its native key and is suppressed; any other key passes.
     */
    method RemapKeyDown(e: KeyEvent, lowered: string)
      modifies this, e
      ensures var o := RemapOutcome(lowered);
        && (o.Remapped? ==>
              && dispatched == old(dispatched) + [o.event]
              && e.defaultPrevented && e.propagationStopped && e.immediatePropagationStopped)
        && (!o.Remapped? ==> unchanged(this, e))
      ensures fullscreenCalls == old(fullscreenCalls)
      ensures Tracking() == old(Tracking()) && IndicatorState() == old(IndicatorState())
      ensures FeedbackState() == old(FeedbackState()) && TimerState() == old(TimerState())
    {
      var handled := true;
      match RemapKey(lowered) {
        case Some(native) =>
          DispatchNativeKeyEvent(native);
        case None =>
          handled := false;
      }
      if handled {
        e.Suppress();
      }
    }

    /**
     * The generic branch of `handleKeyDown` on the active video: a key of
     * the action table performs its action, is suppressed and shows its
     * feedback; any other key passes.
     */
    method GenericKeyDown(e: KeyEvent, video: VideoElement, fullscreenActive: bool)
      requires Valid() && video == activeVideo
      modifies this, e, video, ParentOf(video)
      ensures Valid()
      ensures video.parent == old(video.parent) && dispatched == old(dispatched)
      ensures var o := GenericOutcome(e.key, old(video.State()), fullscreenActive);
        && (o.Performed? ==>
              && e.defaultPrevented && e.propagationStopped && e.immediatePropagationStopped
              && video.State() == o.video
              && fullscreenCalls == old(fullscreenCalls) + FullscreenLog(o.fullscreen)
              && (video.parent != null ==>
                    var parent := video.parent;
                    && feedbackParent == parent
                    && feedbackText == o.feedback && feedbackVisible
                    && timers == old(timers)[old(nextHandle) := Timeout(FeedbackHideDelay, HideFeedback)]
                    && nextHandle == old(nextHandle) + 1
                    && parent.position ==
                         (if old(feedbackParent) != parent && old(parent.position) == Static then Relative
                          else old(parent.position)))
              && (video.parent == null ==>
                    FeedbackState() == old(FeedbackState()) && TimerState() == old(TimerState())))
        && (!o.Performed? ==>
              && unchanged(this, e, video)
              && (old(video.parent) != null ==> unchanged(old(video.parent))))
      ensures Tracking() == old(Tracking()) && IndicatorState() == old(IndicatorState())
    {
      var lowered := ToLower(e.key);
      var handled := true;
      var text := "";
      match ActionFor(lowered) {
        case None =>
          handled := false;
        case Some(action) =>
          var call;
          text, call := PerformAction(video, action, e.key, fullscreenActive);
          fullscreenCalls := fullscreenCalls + FullscreenLog(call);
      }
      if handled {
        e.Suppress();
        if text != "" {
          ShowFeedback(text);
        }
      }
    }
  }

  // ---------------------------------------------------------------------------
  // Stacked feedback hides
  // ---------------------------------------------------------------------------

  /**
   * Because `showFeedback` never cancels the previous hide, the hide
   * scheduled for a first message also hides a second message shown before
   * it fires, while the second message's own hide is still pending.
   */
  method EarlierHideHidesLaterMessage() returns (text: string, visible: bool, pendingHides: nat)
    ensures text == "« 5s" && !visible && pendingHides == 1
  {
    var c := new Controller();
    var parent := new ParentElement(Static);
    var v := new VideoElement(7, 60.0, parent);
    c.Tick(v);
    c.FireTimer(1);
    c.ShowFeedback("5s »");
    var first := c.nextHandle - 1;
    c.ShowFeedback("« 5s");
    c.FireTimer(first);
    text, visible := c.feedbackText, c.feedbackVisible;
    pendingHides := |c.timers.Keys|;
  }
}
