# Speed controller content script — Dafny model

The speed controller is a browser extension. Its content script lets the
keyboard change the playback rate of every video on a page:

- `d` speeds up by 0.2, capped at 16;
- `s` slows down by 0.2, floored at 0.1;
- `r` resets the rate to 1.0.

After every command the video is muted exactly when its rate has reached a
mute threshold. The threshold is persisted and can be edited through a
settings gear. Each video gets a small overlay that shows its rate and a
speaker icon. A registry maps each video to its overlay. The overlay hangs
under the fullscreen element when there is one, and under the body otherwise.

The model has four modules:

- `Wrappers` (`wrappers.dfy`): the `Option` type. It stands for a missing
  store entry, a cancelled prompt, a non-numeric answer and an unregistered
  video.
- `Playback` (`playback.dfy`): pure functions for one video.
  - Which key names are commands (`ParseKey`, with ASCII lower-casing).
  - How each command moves the rate (`Apply`).
  - How the mute flag follows the rate (`Respond`).
  - A fold over a sequence of keystrokes (`RunKeys`).
  - Lemmas about bounds, reachable rates and the mute rule.
- `Threshold` (`threshold.dfy`): the threshold at load time and the effect of
  a settings edit, as pure functions.
- `Content` (`content.dfy`): the page state as classes updated in place.
  - `Video` holds the rate and the mute flag.
  - `Overlay` holds the video it was made for, the parent of its wrapper and
    its label.
  - `Page` holds the videos, the registry (a `map`), the fullscreen element,
    the threshold and its stored copy.
  - The keydown handler is a `while` loop over the videos. Its invariant
    (`Progress`) records which videos have been visited and what state each
    one had when the key arrived.

Behaviours of the code that the model keeps on purpose:

- An unrecognised key leaves only the callback for the current video. Every
  video still gets an overlay ensured, and nothing else changes.
- A new overlay always shows the speaker icon, even on a muted video.
- Editing the threshold relabels the overlay but does not re-mute or unmute
  any video. The new threshold only takes effect at the next command.
- Any number is accepted as a threshold, including zero and negative values.
  A stored zero is falsy, so it reloads as the default 3.5.
- "Attached" means "inside the body". When the fullscreen element lies outside
  the body, each call to ensure an overlay creates a new one
  (`Content.Page.EnsureTwice`).

The extension's design description makes some claims that the code does not
bear out. The model follows the code in each case:

- The description says the rate bounds hold from any starting rate. They hold
  only from a rate already inside them: `s` at rate 20 gives 19.8
  (`Playback.SpeedDownAboveCap`).
- The description also mentions these features, which the script does not
  implement, so they are not modelled:
  - manual versus automatic mute provenance;
  - arbitration of the active video;
  - at most one overlay on the whole page at any time;
  - clean-up on navigation;
  - debouncing.

## Model

| member | source | states |
|---|---|---|
| Playback.KeyRecognition | content.js:98-113 | After lower-casing, a key is a command exactly when it is d/D (speed up), s/S (slow down) or r/R (reset). Every other key name, including longer names, is ignored. |
| Playback.Apply | content.js:105-110 | Speed-up gives the rate plus 0.2, or exactly 16 when that would pass 16 (`Math.min`). Slow-down gives the rate minus 0.2, or exactly 0.1 when that would fall below 0.1 (`Math.max`). Reset gives 1.0. |
| Playback.Respond | content.js:105-115 | An unrecognised key leaves the video's state unchanged. A command sets the rate that `Apply` gives, and the video is then muted exactly when that rate is at or above the threshold, whatever its previous mute state. Reset gives rate 1.0. |
| Playback.BoundsKept | content.js:106-108 | Over any sequence of keys, a rate that starts at most 16 stays at most 16, and a rate that starts at least 0.1 stays at least 0.1. |
| Playback.SpeedDownAboveCap | content.js:108 | The clamp does not pull a rate above 16 back into range: slowing down from 20 gives 19.8. |
| Playback.GridClosed | content.js:105-110 | With rates taken as exact reals, each command maps a whole number of tenths in [0.1, 16] to another one. |
| Playback.ReachableRates | content.js:102-118 | With rates taken as exact reals, from such a rate (for example 1.0) any sequence of keys leads to a whole number of tenths within [0.1, 16]. |
| Playback.MuteRuleKept | content.js:115 | Once any command has been pressed, the mute flag equals "rate >= threshold". Every later key keeps that true. |
| Playback.UnmuteOverriddenByNextCommand | content.js:105-115 | A video unmuted at rate 4.0 is muted again by the next speed-up when the threshold is 3.5. |
| Threshold.InitialThreshold | content.js:3 | At load, a stored nonzero number becomes the threshold. A missing, unparsable or zero entry gives 3.5. The result is never zero. |
| Threshold.AcceptedEdit | content.js:39-41 | A settings edit is accepted exactly when the prompt was not cancelled and the answer parses as a number. The accepted value is that number. |
| Threshold.ReloadAfterEdit | content.js:41-42 | A reload brings back an accepted nonzero threshold. An accepted zero reloads as 3.5. |
| Content.LabelFor | content.js:89-90 | The label shows the video's rate and the muted-speaker icon exactly when the video is muted. |
| Content.Page.constructor | content.js:3-4 | At script start the registry is empty, the threshold is the load-time value from the store, and the page invariant holds. |
| Content.Page.PositionOverlay | content.js:68-73 | The overlay ends up under the fullscreen element, or under the body when nothing is fullscreen. It is re-appended exactly when its parent was different. Its label is unchanged. |
| Content.Page.EnsureOverlay | content.js:6-57 | A registered overlay whose wrapper is inside the body is returned (its wrapper and text), and the registry is unchanged. Otherwise a new overlay is created and registered for the video. It shows the rate with the speaker icon and is placed under the target parent. No other registry entry changes. |
| Content.Page.UpdateOverlay | content.js:86-91 | A registered video's overlay is relabelled with its current rate and mute icon, and its parent is unchanged. An unregistered video changes nothing. |
| Content.Page.HandleVideo | content.js:102-118 | For one video, the overlay is ensured. On a command the rate and mute flag change as `Respond` says, and the overlay is relabelled and placed under the target parent. No other video's state or registry entry changes. |
| Content.Page.HandleKey | content.js:97-119 | On a page without videos nothing changes. Otherwise every video gets its overlay registered, and the key is applied to each video from the state it had when the key arrived (`KeyApplied`). Registry entries of other videos, the threshold, the store and the fullscreen element do not change. |
| Content.Page.SettingsClick | content.js:37-45 | A cancelled or non-numeric answer changes nothing. A number becomes the threshold and is stored, and the gear's video gets its overlay relabelled. No parent moves. |
| Content.Page.EnsureTwice | content.js:6-8 | Ensuring an overlay twice returns the same wrapper and text when the video already had an attached one, or when the target parent is inside the body. Otherwise two different new overlays are created. |

## Left out

- Styling and geometry of the overlay are not modelled (`content.js:10-35`, `47-48`, `61-66`): style assignments, the bounding rectangle and pixel offsets have no bearing on rates, mute state or the registry.
- The mutation observer, the resize and fullscreen-change listeners and the reflow of all overlays (`content.js:51-53`, `77-84`, `93-94`) are not modelled. They only re-run positioning, which `PositionOverlay` states. Observers of discarded overlays that re-append stale wrappers are not modelled either.
- Content.Page.HandleKey: it does not state that the overlays created for videos without an attached one are new objects. `HandleVideo` and `EnsureOverlay` state that for each call.
- The page's `localStorage` entry and the answer to `prompt` are inputs. They are given to the model already parsed, as `Option<real>`. JavaScript's different coercions in `isNaN` and `parseFloat` are not modelled: for example, an empty answer passes the check and then sets the threshold to NaN.
- NaN and Infinity thresholds or rates are not modelled.
- Rates are exact reals. IEEE double rounding of `rate ± 0.2` is not modelled, and neither is `toFixed(1)` formatting: a label carries the exact rate.
- Playback.ReachableRates and Playback.GridClosed hold only because rates are exact reals. With the script's doubles, steps of 0.2 leave the grid of tenths: from 1.0, three speed-ups give 1.5999999999999999. The same drift can change the mute decision at a threshold boundary: with threshold 2.0, five speed-ups from 1.0 give 1.9999999999999998, which the script leaves unmuted and the model mutes.
- An overlay record is identified with its wrapper and text. The script registers one `{ wrapper, text }` object and returns another with the same two fields (`content.js:56-57`), so the records themselves are not identical. Every use goes through the wrapper and the text, so no behaviour depends on this.
- Lower-casing is ASCII only. Non-ASCII key names never lower-case to `d`, `s` or `r`, so recognition is unaffected.
- The order of an overlay among its parent's children is not modelled. The model records only the parent, and whether the overlay was re-appended.
- Event propagation (`stopPropagation`) and the real DOM tree are not modelled. A host element carries only whether it lies inside the body.
