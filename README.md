# Universal Video Controls, modelled in Dafny

Universal Video Controls is a browser content script. It finds the main HTML5 `<video>` on any page and adds
YouTube-style keyboard shortcuts for it: play/pause, seeking, mute, fullscreen, volume and seeking to a percentage.
On Netflix it does not touch the video: it turns the same keys into the keys Netflix's own player understands.
Every two seconds a tracker scans the page again and briefly shows an "active" indicator when the main video changes.
Every handled key shows a short feedback message over the video.

The model covers the decision-making in `universal-video-controller/content.js`:

- `keys.dfy` (`Keys`): `toLowerCase` on the key and the `includes('netflix.com')` host test. Also the two switch tables,
  each written as the source's switch and as a static map, with lemmas that the two agree.
- `router.dfy` (`Router`): `handleKeyDown` and `dispatchNativeKeyEvent` as one pure function, `Route`. It maps the key,
  the event target, the host and the active video's playback state to an outcome. The outcome is pass-through, one
  synthesized keydown, or a new playback state with a feedback text and a fullscreen call. The properties of each table
  entry are lemmas about `Route`.
- `page.dfy` (`Page`): the `<video>` elements and their parents as classes. The document is a tree datatype of elements,
  children and shadow roots; each video records `offsetParent !== null` and its rectangle in whole pixels.
- `scanner.dfy` (`Scanner`): the recursive `collectVideos`, written as a method that appends to a shared list. It is
  proved equal to the function `Collect`. `Collect` is proved complete against an independent reference definition,
  `Reachable`, the multiset of videos in the light tree and in every open shadow tree.
- `selector.dfy` (`Selector`): the visibility filter, the stable sort by area and the choice of the first element. The
  choice is proved against a reference definition, the first candidate of largest area in scan order.
- `controller.dfy` (`Controller`): the script's globals as a class: `activeVideo`, `lastActiveVideo`, the indicator, the
  feedback display and `indicatorTimeout`. It also holds the browser's timer queue and a log of dispatched events and
  fullscreen calls. Its methods are the interval tick, `showFeedback`, a timer firing and `handleKeyDown`, whose Netflix and generic
  branches are methods of their own.
  `HandleKeyDown` changes the live objects. Its outcome is proved to follow `Router.Route`: a pass-through key leaves
  the controller, the event, the video and its parent unchanged; a remapped key dispatches the remapped event; a performed
  action sets the computed video state, fullscreen call and feedback, as `ShowFeedback` does.
  The class invariant `Valid` states these facts:
  - after every tick `lastActiveVideo == activeVideo`;
  - the only pending indicator hide is the one `indicatorTimeout` names;
  - a visible indicator or feedback display always has a hide pending.

Four facts about content.js that the model keeps:

- `Array.prototype.sort` is stable, so among candidates of equal area the earliest in scan order wins. Ties are not
  arbitrary.
- `showFeedback` never cancels the hide it scheduled before. Each call adds another 600 ms timeout, so the hide of an
  earlier message also hides a later one (`Controller.EarlierHideHidesLaterMessage`). The model keeps every pending
  hide in the timer queue rather than a single replaceable handle.
- `collectVideos` keeps no visited set. The document is a finite tree here, so the recursion ends anyway.
- `el.shadowRoot` is `null` for a closed shadow root, so videos inside closed shadow trees are never found.

## Model

| member | source | states |
|---|---|---|
| Keys.ToLower | universal-video-controller/content.js:149-149 | Lower-casing keeps the length, lower-cases each character on its own and leaves no ASCII capital |
| Keys.ToLowerIdempotent | universal-video-controller/content.js:178-178 | Lower-casing an already lower-cased key changes nothing |
| Keys.Includes | universal-video-controller/content.js:143-143 | `includes` is true exactly when the pattern occurs at some position of the string |
| Keys.ModeOf | universal-video-controller/content.js:143-143 | The remap mode is chosen exactly when the host name contains `netflix.com` |
| Keys.RemapKey | universal-video-controller/content.js:149-168 | The Netflix switch remaps only one-character keys, and only to a space, `ArrowLeft`, `ArrowRight`, `m` or `f` |
| Keys.ActionFor | universal-video-controller/content.js:178-219 | The generic switch seeks only by ±5 or ±10 seconds and only to tenths 0 to 9; only the volume keys are longer than one character |
| Keys.RemapKeyIsTable | universal-video-controller/content.js:149-168 | The Netflix switch binds exactly the keys s, k, a, j, d, l, m, f, each to the key of the remap table |
| Keys.ActionForIsTable | universal-video-controller/content.js:178-219 | The generic switch binds exactly the keys of the action table, to the same actions; every other key falls to `default` |
| Keys.DigitAction | universal-video-controller/content.js:214-215 | The key of digit d is bound to seeking to d tenths |
| Keys.AbsoluteSeekKeys | universal-video-controller/content.js:214-217 | Exactly the one-character digit keys seek to a fraction of the duration, and each to its own digit |
| Router.NativeKeyDown | universal-video-controller/content.js:120-128 | The synthesized event is a keydown carrying the given key, bubbling and cancelable |
| Router.Round | universal-video-controller/content.js:212-213 | `Math.round` gives the integer within one half of its argument, halves rounded up |
| Router.FullscreenCallFor | universal-video-controller/content.js:203-211 | A Fullscreen API call is made iff the action is the fullscreen toggle |
| Router.Apply | universal-video-controller/content.js:179-217 | No action of the generic switch changes the duration |
| Router.FeedbackFor | universal-video-controller/content.js:179-217 | Every action of the generic switch has a non-empty feedback text, so every performed key shows feedback |
| Router.IntegerText | universal-video-controller/content.js:212-213 | A template literal writes an integer with a leading minus iff it is negative, otherwise starting with a digit |
| Router.VolumeText | universal-video-controller/content.js:212-213 | The volume message is `Volume: `, the rounded percentage and `%`; a non-negative volume shows no minus sign |
| Router.SeekText | universal-video-controller/content.js:189-198 | A relative-seek message starts with `«` iff the seek goes backwards; a forward seek ends with `»` |
| Router.IsTextEntry | universal-video-controller/content.js:137-139 | Definition of the guard: an `INPUT` or `TEXTAREA` tag, or a content-editable target |
| Router.Perform | universal-video-controller/content.js:178-218 | Every generic action is performed: it shows a non-empty message and never changes the duration |
| Router.RemapOutcome | universal-video-controller/content.js:148-174 | On Netflix a key is remapped iff it is in the remap table, always to the table's key as a bubbling, cancelable keydown; the video is never changed |
| Router.GenericOutcome | universal-video-controller/content.js:178-220 | Elsewhere a key is performed iff it is in the action table, with non-empty feedback and the duration unchanged; it never dispatches a key |
| Router.Route | universal-video-controller/content.js:135-228 | Text-entry targets and a missing video pass through. A key is handled iff it is in the active mode's table. A remapped key occurs only on Netflix; a performed action only elsewhere, with feedback and the duration unchanged |
| Router.GenericRoute | universal-video-controller/content.js:175-220 | Past both guards, off Netflix, the handler is the generic switch |
| Router.PlayPauseToggles | universal-video-controller/content.js:179-188 | `s` and `k` flip `paused` and report `▶ Play` or `❚❚ Pause` |
| Router.SeekTexts | universal-video-controller/content.js:189-198 | The four relative seeks report `« 5s`, `5s »`, `« 10s` and `10s »` |
| Router.RelativeSeeks | universal-video-controller/content.js:189-198 | `a`, `d`, `j`, `l` move `currentTime` by −5, +5, −10, +10 and change nothing else |
| Router.MuteToggles | universal-video-controller/content.js:199-202 | `m` flips `muted` and reports the new state |
| Router.FullscreenToggles | universal-video-controller/content.js:203-211 | `f` requests fullscreen when nothing is fullscreen and exits it otherwise, with the matching message; the video is unchanged |
| Router.RouteOfAction | universal-video-controller/content.js:178-220 | A key bound to an action performs exactly that action |
| Router.DigitSeeks | universal-video-controller/content.js:214-217 | Digit d sets `currentTime` to d tenths of the duration and reports `Seek to d0%` |
| Router.VolumeClamped | universal-video-controller/content.js:212-213 | `ArrowUp` sets the volume to min(1, v + 0.05) and `ArrowDown` to max(0, v − 0.05), reporting the new volume; a volume in [0, 1] stays in [0, 1] |
| Router.VolumeUpRepeated | universal-video-controller/content.js:212-212 | n volume-up presses give min(1, v + 0.05·n) |
| Router.VolumeDownRepeated | universal-video-controller/content.js:213-213 | n volume-down presses give max(0, v − 0.05·n) |
| Router.VolumeStaysInRange | universal-video-controller/content.js:212-213 | A volume in [0, 1] stays in [0, 1] under any number of presses of either volume key |
| Router.VolumeUpFromSilence | universal-video-controller/content.js:212-212 | 25 volume-up presses from silence reach exactly full volume |
| Router.SeekToThirtyPercent | universal-video-controller/content.js:214-217 | Key `3` on a 200 s video seeks to 60 s and reports `Seek to 30%` |
| Router.NetflixRemaps | universal-video-controller/content.js:148-174 | On Netflix, s/k give a space, a/j `ArrowLeft`, d/l `ArrowRight`, m `m`, f `f`; every other key passes through |
| Router.LongKeyPasses | universal-video-controller/content.js:148-174 | On Netflix no key whose name is longer than one character is remapped |
| Router.SelfRemapped | universal-video-controller/content.js:159-164 | On Netflix `m` and `f` are remapped to a keydown of the same key |
| Router.SpacePasses | universal-video-controller/content.js:148-168 | On Netflix a space is not remapped |
| Router.NativeKeysReenter | universal-video-controller/content.js:120-128 | The synthesized keydown, seen again by the capture listener with `window` as target, is remapped again for `m` and `f` and passes through for a space, `ArrowLeft` and `ArrowRight` |
| Router.NetflixKIsSpace | universal-video-controller/content.js:143-152 | On `www.netflix.com`, `k` becomes one synthesized space |
| Scanner.Descendants | universal-video-controller/content.js:94-94 | The elements below a root: at least the root elements, none larger than the root forest |
| Scanner.Collect | universal-video-controller/content.js:92-97 | Definition of the scan order: the root's own videos in document order, then each open shadow tree's scan; its contents are stated by `Scanner.ScanComplete` |
| Scanner.VideosOf | universal-video-controller/content.js:93-93 | The videos among the elements, at most one per element |
| Scanner.ScanComplete | universal-video-controller/content.js:92-98 | The scan lists every video of the light tree and of every open shadow tree, as often as it occurs, and nothing else |
| Scanner.VideoList.PushAll | universal-video-controller/content.js:93-93 | Pushing the found videos appends them, in order, to the shared list |
| Scanner.CollectVideos | universal-video-controller/content.js:92-97 | The recursive collector appends exactly `Collect(root)` to the shared list |
| Selector.VisibleVideos | universal-video-controller/content.js:100-103 | The filter keeps exactly the videos with an offset parent whose width and height both exceed 150 |
| Selector.IsCandidate | universal-video-controller/content.js:102-102 | Definition of the filter: an offset parent, and width and height both above 150 |
| Selector.InsertByArea | universal-video-controller/content.js:107-111 | Inserting adds one element, and the head is the inserted video or the old head |
| Selector.SortByArea | universal-video-controller/content.js:107-111 | The sort keeps the length; `Selector.SortCorrect` states it sorts and permutes |
| Selector.InsertPermutes | universal-video-controller/content.js:107-111 | Inserting into the sorted list adds exactly the inserted video |
| Selector.InsertSorted | universal-video-controller/content.js:107-111 | Inserting into a list sorted by area, largest first, keeps it sorted |
| Selector.SortCorrect | universal-video-controller/content.js:107-111 | The area sort is a permutation of its input, sorted largest first |
| Selector.FirstLargest | universal-video-controller/content.js:107-113 | The first position of a largest area: nothing is larger, nothing earlier is as large |
| Selector.SortHead | universal-video-controller/content.js:107-113 | The stable sort puts the first of the largest elements first |
| Selector.LargestIndex | universal-video-controller/content.js:100-113 | Reference choice: none iff no video qualifies, else the first qualifying video of largest area |
| Selector.FirstLargestCandidate | universal-video-controller/content.js:100-113 | The first largest among the candidates is the first largest qualifying video of the whole scan |
| Selector.SortHeadIsLargest | universal-video-controller/content.js:100-113 | The head of the sorted candidates is the reference choice |
| Selector.SelectMain | universal-video-controller/content.js:100-113 | `null` iff no collected video qualifies; otherwise a qualifying collected video of largest area, the earliest such in scan order |
| Selector.SelectMainIsFirstLargest | universal-video-controller/content.js:100-113 | Selecting through the filter and the sort agrees with the reference choice |
| Selector.FindMainVideo | universal-video-controller/content.js:90-114 | `findMainVideo` returns the selection from the scan; a result is a reachable, qualifying video |
| Controller.ClearPrevious | universal-video-controller/content.js:244-244 | Clearing the previous indicator timeout removes exactly that handle |
| Controller.IndicatorRescheduled | universal-video-controller/content.js:240-250 | Showing the indicator again keeps the timers consistent, with exactly the fresh hide pending for it |
| Controller.FeedbackScheduled | universal-video-controller/content.js:79-83 | Scheduling a feedback hide keeps the timers consistent with the feedback visible |
| Controller.TimerFired | universal-video-controller/content.js:247-249 | A timer that runs leaves the queue and hides what it was scheduled to hide; the rest stays consistent |
| Controller.KeyEvent.Suppress | universal-video-controller/content.js:222-225 | A handled event has preventDefault, stopPropagation and stopImmediatePropagation applied |
| Controller.Controller.constructor | universal-video-controller/content.js:231-233 | After `init` nothing is tracked, the indicator and the display are hidden, and no timer is pending |
| Controller.Controller.Tick | universal-video-controller/content.js:236-256 | A new non-null result shows the indicator and replaces the hide timer. The same result changes neither. A null result hides the indicator at once and keeps the timer. Afterwards `lastActiveVideo == activeVideo` |
| Controller.Controller.TickOnPage | universal-video-controller/content.js:235-257 | The interval callback makes the element of `findMainVideo`'s result both `activeVideo` and `lastActiveVideo`. When that element differs from the previous one, the indicator shows, the previous indicator timeout is cleared and a fresh 3000 ms hide is scheduled. When it is the same, the indicator and the timers are unchanged. When none is found, the indicator hides and the timers are unchanged |
| Controller.Controller.FireTimer | universal-video-controller/content.js:247-249 | A pending timeout runs once: the indicator hide hides the indicator, the feedback hide hides the display |
| Controller.Controller.ShowFeedback | universal-video-controller/content.js:69-84 | No active video or no parent: nothing changes. Otherwise the display moves under the parent, a static parent becomes relative, the text shows, and one more hide is scheduled without cancelling earlier ones |
| Controller.Controller.DispatchNativeKeyEvent | universal-video-controller/content.js:120-128 | Exactly one bubbling, cancelable keydown is dispatched on `window` |
| Controller.PerformAction | universal-video-controller/content.js:178-219 | One case of the generic switch leaves the video in the state `Perform` computes and returns its message and its Fullscreen API call; the video's parent is untouched |
| Controller.Controller.HandleKeyDown | universal-video-controller/content.js:135-228 | A pass-through key is not suppressed and leaves the controller, the event, the video and its parent unchanged. A remapped key dispatches exactly the remapped event and changes nothing else of the controller or the video. A performed action leaves the computed video state and makes the computed fullscreen call. If the video has a parent, the display moves under it, a static parent becomes relative when the display moves, the message shows and a 600 ms hide is scheduled under the next handle. Handled keys are suppressed |
| Controller.Controller.RemapKeyDown | universal-video-controller/content.js:148-174 | On Netflix a key of the remap table dispatches exactly its native keydown and is suppressed; any other key changes neither the controller nor the event; the video state, feedback and timers are never touched |
| Controller.Controller.GenericKeyDown | universal-video-controller/content.js:175-227 | Elsewhere a key of the action table is suppressed, leaves the video in the computed state, makes the computed fullscreen call and shows its feedback as `ShowFeedback` does; any other key changes neither the controller, the event, the video nor its parent |
| Controller.EarlierHideHidesLaterMessage | universal-video-controller/content.js:79-83 | The hide scheduled for a first message hides a second message shown before it fires, while the second hide is still pending |

## Left out

- Creating and styling the indicator and the feedback display (content.js:22-63) is presentation only. The model keeps their visibility, the display's text and its parent.
- Console logging (content.js:8, 121, 205) has no effect on behaviour.
- The Fullscreen API is a parameter and a call log. `document.fullscreenElement` is the `fullscreenActive` flag. `requestFullscreen` and `exitFullscreen` are recorded calls, and the logged rejection of `requestFullscreen` is not modelled.
- `play()` and `pause()` are modelled as setting `paused`. A rejected `play()` promise (for example under an autoplay policy) is not modelled.
- Real time is left out. The 2000 ms interval, 3000 ms indicator hide and 600 ms feedback hide are constants. The caller drives ticks (`TickOnPage`) and chooses which pending timer fires (`FireTimer`); the model does not enforce the order real delays would impose.
- The load-event wiring and the listener registration (content.js:259-266) are left out. `Controller.constructor` stands for `init`.
- `window.dispatchEvent` is recorded in a log. The site's reaction to the synthesized key is not modelled.
- Controller.Controller.HandleKeyDown: the synthesized keydown is dispatched on `window` (content.js:127), where the capture listener (content.js:259) runs `handleKeyDown` on it again, synchronously. On Netflix `m` and `f` remap to themselves, so in the source each such press re-enters without bound until the stack overflows; a space and the arrow keys pass through (`Router.NativeKeysReenter`). The model logs one dispatch and does not run the nested handler.
- Router.Route: the guard sees `e.target` as the capture listener on `window` sees it, retargeted to the shadow host. A text field inside a shadow tree is therefore not protected in the source; the model takes whatever target it is given.
- Router.Route: an infinite `duration` (a live stream) or a NaN `duration` is not modelled. For a digit key, content.js:216 then assigns `Infinity` (or NaN for `0`), and the `currentTime` setter throws a `TypeError`. The handler stops before content.js:222-226, so the key is not suppressed and shows no feedback, while the model returns a performed action.
- Keys.ToLower: lowers only ASCII letters. JavaScript's `toLowerCase` also lowers non-ASCII letters (for example the Kelvin sign to `k`), which the model does not capture.
- Playback values are exact reals. Floating-point rounding of the 0.05 volume step and of `volume * 100` is not modelled.
- The browser's clamping of `currentTime` to [0, duration] is not modelled.
- Bounding rectangles are whole pixels. Fractional sizes from `getBoundingClientRect` are not modelled.
- The `!feedbackDisplay` guard of `showFeedback` (content.js:70) is not modelled. The display exists from `init` on, and the controller only exists after `init`.
- The page cannot remove the feedback display from its parent behind the script's back.
- Layout is a snapshot taken at scan time. In the source the filter and the sort re-read the rectangles, and they cannot change in between within one synchronous call.
- Router.Repeated: stated over the action, not the key. `Router.RouteOfAction` shows that each press of a key bound to the action performs it.
