# Sonos controller UI logic in Dafny

This project models three pieces of control logic from the user interface of an
unofficial Sonos controller. The rendering, Redux and DOM around them is removed.

- **Player store.** This is a mutable record of six playback fields and a list of
  change listeners. A dispatcher callback applies one action at a time, sets
  fields through setters and emits one change event. `player_store.dfy`, module
  `Stores`, holds the transition table `Apply` on values. The class `PlayerStore`
  does the same updates in place, and its `Dispatch` is proved against `Apply`.
- **EQ settings.** `eq_scale.dfy`, module `EqScale`, scales device values to
  slider percentages and back. This includes the mirrored balance range
  `+100..-100`. JavaScript's `Math.round` is computed exactly on integers. The
  module also holds the balance label and the loudness toggle. `eq_pairing.dfy`,
  module `EqPairing`, holds the stereo-pairing resolver: it selects the shown
  player, filters the pairable partners, proposes a default partner and builds
  the pair request with its channel map. `ParseChannelMap` reads a channel map
  back and is proved to be the inverse of the format.
- **Browser list item.** `browser_menu.dfy`, module `BrowserMenu`, holds the
  decisions that do not depend on time: what a resolved click sends, which
  inline-menu entries are offered, and what each entry sends. `browser_clicks.dfy`,
  module `BrowserClicks`, holds the click debouncer, the model-change reset and
  the hide timers of the inline menu. Time is an explicit `Tick` event. The
  pure step function `Step` has a matching class `BrowserListItem`, whose
  handlers are proved to perform `Step`. Lemmas over event traces state what
  clicks send.
- `wrappers.dfy` holds `Option`. `None` stands for JavaScript `undefined` or
  `null`.

The model follows the code as written, including these less obvious behaviours:

- `getDerivedStateFromProps` keeps any truthy `pairWith` already in state, even one
  that is no longer pairable (`EqSettings.jsx` line 59).
- With a host and a visible panel but an empty roster, the derived player is
  `undefined` and the pairable list is empty. The filter's callback never runs, so
  nothing throws at this point.
- `componentDidUpdate` drops the debouncer without cancelling it. The orphaned
  deferred call still fires later, and it reads the new `model`.
- The deferred `_onClick` does not clear `clickedOnce`. So after one resolved click,
  the next isolated click only clears the flag and sends nothing.
- The store sets whatever payload it is given; it checks no range.
- `componentDidUpdate` compares the `model` prop by object identity. Object identity is the `ref` field of `Item`.

## Model

| member | source | states |
|---|---|---|
| Stores.PlayerStore.constructor | src/ui/stores/PlayerStore.js:11-16 | a new store is not playing, has null position, current and next track, is not muted, has volume 0, and has no listeners |
| Stores.PlayerStore.EmitChange | src/ui/stores/PlayerStore.js:18-20 | every registered listener is called once, in registration order; the store fields do not change |
| Stores.PlayerStore.AddChangeListener | src/ui/stores/PlayerStore.js:22-24 | the listener is appended to the listener list; nothing else changes |
| Stores.PlayerStore.SetPlaying | src/ui/stores/PlayerStore.js:30-32 | only `playing` changes, to the argument |
| Stores.PlayerStore.SetPositionInfo | src/ui/stores/PlayerStore.js:38-40 | only `positionInfo` changes, to the argument |
| Stores.PlayerStore.SetCurrentTrack | src/ui/stores/PlayerStore.js:46-48 | only `currentTrack` changes, to the argument |
| Stores.PlayerStore.SetNextTrack | src/ui/stores/PlayerStore.js:54-56 | only `nextTrack` changes, to the argument |
| Stores.PlayerStore.SetMuted | src/ui/stores/PlayerStore.js:62-64 | only `muted` changes, to the argument |
| Stores.PlayerStore.SetVolume | src/ui/stores/PlayerStore.js:70-72 | only `volume` changes, to the argument, with no range check |
| Stores.Writes | src/ui/stores/PlayerStore.js:75-137 | the fields each action writes; the set is empty exactly for the actions that emit nothing (seek, transitioning, unrecognised) |
| Stores.Apply | src/ui/stores/PlayerStore.js:75-137 | every field outside `Writes(a)` keeps its value; a change is emitted exactly when the action notifies; each action stores its payload (pause false, play true, playstate "playing" true and other states false, the info, track, muted and volume payloads, zone-group select nulls both tracks) |
| Stores.PlayerStore.Dispatch | src/ui/stores/PlayerStore.js:75-137 | the store's new fields are `Apply` of the old ones; a notifying action calls each listener once and counts one change; seek, "transitioning" (early return) and unrecognised types call nobody |
| Stores.ApplyIdempotent | src/ui/stores/PlayerStore.js:75-137 | dispatching the same action twice leaves the same fields as dispatching it once |
| Stores.DisjointActionsCommute | src/ui/stores/PlayerStore.js:75-137 | two actions that write disjoint fields give the same store in either order |
| Stores.ReplaySnoc | src/ui/stores/PlayerStore.js:75-137 | replaying a stream and then one more action is the same as one more dispatch |
| Stores.ReplayVolumeIsLastWrite | src/ui/stores/PlayerStore.js:127-130 | after any stream of actions the volume is the payload of the last volume update, or the initial volume when there is none |
| EqScale.RoundPositive | src/ui/components/EqSettings.jsx:33-37 | `Math.round(n/d)` for a positive divisor is the integer nearest to `n/d`, with halves rounded up |
| EqScale.RoundQuotient | src/ui/components/EqSettings.jsx:33-37 | `Math.round(n/d)` for any non-zero divisor is the nearest integer, with halves going towards +infinity |
| EqScale.RoundQuotientUnique | src/ui/components/EqSettings.jsx:33-37 | that nearest integer is unique, so the rounding is determined by its defining inequality |
| EqScale.RoundPositiveMonotone | src/ui/components/EqSettings.jsx:33-34 | rounding is monotone in the dividend |
| EqScale.RoundExactMultiple | src/ui/components/EqSettings.jsx:33-37 | an exact multiple `k*d` divided by `d` rounds to `k` |
| EqScale.RoundHundredthsBetween | src/ui/components/EqSettings.jsx:36-37 | hundredths between `100*lo` and `100*hi` round to a value between `lo` and `hi` |
| EqScale.ToPercentage | src/ui/components/EqSettings.jsx:33-34 | the result is the integer nearest to `(input-min)*100/(max-min)`, with halves up; `min` maps to 0 and `max` to 100, for ordinary and mirrored ranges |
| EqScale.FromPercentage | src/ui/components/EqSettings.jsx:36-37 | the result is the integer nearest to `percentage*(max-min)/100 + min`, with halves up; 0 gives `min`, 100 gives `max`, and a percentage in 0..100 gives a value between `min` and `max` |
| EqScale.ScaleRange | src/ui/components/EqSettings.jsx:33-34 | a value between min and max maps to a percentage in 0..100 |
| EqScale.PercentageError | src/ui/components/EqSettings.jsx:33-34 | the percentage, scaled back, is within half a step of the true distance from min |
| EqScale.RoundTripExact | src/ui/components/EqSettings.jsx:33-37 | for ranges of at most 100 steps, `fromPercentage(toPercentage(v)) = v` for every integer `v` |
| EqScale.RoundTripWithinOne | src/ui/components/EqSettings.jsx:33-37 | for ranges of at most 200 steps, the round trip is within one step of `v` |
| EqScale.DragRequest | src/ui/components/EqSettings.jsx:68-76 | a slider drag sends a set-value request for the panel's host and the control's name; a drag within 0..100 sends a value inside the control's range (-10..10, or 100..-100 for balance), and the two ends send the range's ends |
| EqScale.ToneSlider | src/ui/components/EqSettings.jsx:140-162 | a bass or treble value `v` in -10..10 is shown at `5*(v+10)`, which lies in 0..100, and a drag to that position sends `v` again |
| EqScale.BalanceSlider | src/ui/components/EqSettings.jsx:171-179 | balance 0 is shown at 50; values in -100..100 are shown in 0..100; the round trip returns even values exactly and odd values one lower |
| EqScale.BalanceMagnitude | src/ui/components/EqSettings.jsx:168 | the label magnitude is at most 100, and equals `abs(b)` for `b` in -100..100 |
| EqScale.BalanceSide | src/ui/components/EqSettings.jsx:169 | the suffix is "L" iff `b > 0`, "R" iff `b < 0`, and empty iff `b = 0` |
| EqScale.LoudnessToggle | src/ui/components/EqSettings.jsx:192 | the checkbox sends 0 exactly when the current value is 1, and 1 otherwise |
| EqScale.LoudnessRequest | src/ui/components/EqSettings.jsx:189-194 | the request goes to the host under the name "loudness" and flips a 0/1 value |
| EqPairing.FindIndex | src/ui/components/EqSettings.jsx:51 | the index of the first matching roster entry: no earlier entry matches, and it matches unless it is past the end |
| EqPairing.Find | src/ui/components/EqSettings.jsx:51 | `find` returns undefined exactly when no entry matches; otherwise it returns the first matching roster entry, the one at `FindIndex` |
| EqPairing.PairablePlayers | src/ui/components/EqSettings.jsx:52-57 | an entry is in the result iff it is in the roster with the same model, another UUID and not paired |
| EqPairing.PairablePreservesOrder | src/ui/components/EqSettings.jsx:52-57 | the pairable list is a subsequence of the roster, in roster order |
| EqPairing.DerivedState | src/ui/components/EqSettings.jsx:44-66 | nothing is derived iff the host is falsy or the panel is hidden; the player is undefined exactly for an empty roster, and then the pairable list is empty; otherwise the player is a roster entry, and pairable is exactly the eligible entries and excludes the player; pairWith is a truthy prior, else the first pairable UUID, else undefined |
| EqPairing.SelectedPlayer | src/ui/components/EqSettings.jsx:47-51 | the shown player is the first roster entry on the host, or `players[0]` when none is on it, or undefined for an empty roster |
| EqPairing.DefaultPartnerIsPairable | src/ui/components/EqSettings.jsx:52-59 | without a usable prior, a default partner is proposed exactly when one is pairable, and it is the UUID of an eligible roster entry |
| EqPairing.CreatePairRequest | src/ui/components/EqSettings.jsx:86-101 | RF: left is the player, right is pairWith, and the target is the player; LF: left is pairWith, right is the player, and the target is the roster entry with UUID pairWith (undefined when pairWith is) |
| EqPairing.ChannelMap | src/ui/components/EqSettings.jsx:98 | the map consists of the left UUID, `:LF,LF;`, the right UUID and `:RF,RF`, at the positions their lengths give |
| EqPairing.IndexOfColon | src/ui/components/EqSettings.jsx:98 | the position of the first colon of a string, or its length |
| EqPairing.FirstColonAfter | src/ui/components/EqSettings.jsx:98 | in a colon-free UUID followed by a colon-led suffix, the first colon is at the UUID's end |
| EqPairing.ParseChannelMap | src/ui/components/EqSettings.jsx:98 | every string the parser accepts is exactly the channel map of the two colon-free UUIDs it returns |
| EqPairing.ParseFormatRoundTrip | src/ui/components/EqSettings.jsx:98 | a channel map of two colon-free UUIDs parses back to exactly those UUIDs |
| EqPairing.PairingDirectiveWellFormed | src/ui/components/EqSettings.jsx:86-101 | with a pairable partner, the channel map parses to two different UUIDs with the player on the chosen side, and the target is a roster entry (the player for RF, the partner's UUID for LF) |
| EqPairing.StalePairWithPairsPlayerWithItself | src/ui/components/EqSettings.jsx:59 | a prior `pairWith` of "B" is kept when B itself is the selected player, so a left-side pair request targets B and names B on both channels |
| BrowserMenu.OnClickRequest | src/ui/components/BrowserListItem.jsx:160-176 | `_onClick` sends playNow iff the item is a track, an audio item or has track metadata; otherwise addService iff the action is "addService"; otherwise select; always for the item itself |
| BrowserMenu.MenuEntries | src/ui/components/BrowserListItem.jsx:74-83 | nothing iff collapsed; "Remove" iff a non-play-now service entry; "Play Now" iff play-now-only or not a service; the other three only for the full menu; no entry twice |
| BrowserMenu.EntryRequest | src/ui/components/BrowserListItem.jsx:35-63 | each entry sends its own request; the play entries act on the parent when there is one, else on the item; "Remove" passes the item's service |
| BrowserClicks.Due | src/ui/components/BrowserListItem.jsx:182-192 | the number of timers due at a time is at most their number, and is zero iff all of them are later |
| BrowserClicks.Later | src/ui/components/BrowserListItem.jsx:182-192 | the timers still to come are exactly the later ones, and the due ones are the rest |
| BrowserClicks.DueAppend | src/ui/components/BrowserListItem.jsx:182-192 | the count of due timers adds up over concatenation |
| BrowserClicks.HandleClick | src/ui/components/BrowserListItem.jsx:178-193 | every click flips `clickedOnce`; a first click schedules the deferred `_onClick` 200 later; a second click cancels it; nothing else changes |
| BrowserClicks.ReceiveModel | src/ui/components/BrowserListItem.jsx:152-158 | a different model while `clickedOnce` is set clears the flag and drops the debouncer, but keeps its pending call scheduled; otherwise only the model changes |
| BrowserClicks.HideExpanded | src/ui/components/BrowserListItem.jsx:203-209 | `_hideMenu` collapses the menu and changes nothing else |
| BrowserClicks.ToggleExpanded | src/ui/components/BrowserListItem.jsx:195-201 | `_toggle` flips `isExpanded` and changes nothing else |
| BrowserClicks.FireClicks | src/ui/components/BrowserListItem.jsx:160-176 | every deferred `_onClick` that is due sends one request for the current model; `clickedOnce` is untouched; the later calls stay scheduled |
| BrowserClicks.FireHides | src/ui/components/BrowserListItem.jsx:203-215 | every due hide timer has fired; the menu is expanded afterwards only if it was and no hide timer was due |
| BrowserClicks.Advance | src/ui/components/BrowserListItem.jsx:160-215 | one unit of time: the clock moves on, due clicks send their requests, due hide timers collapse the menu, and the later timers remain |
| BrowserClicks.PointerOut | src/ui/components/BrowserListItem.jsx:211-215 | a new hide timer 500 later is stored in `_hideTimeout`; the timer it replaces stays scheduled |
| BrowserClicks.PointerOver | src/ui/components/BrowserListItem.jsx:217-223 | only the timer `_hideTimeout` names is cleared |
| BrowserClicks.Pick | src/ui/components/BrowserListItem.jsx:35-63 | an inline-menu entry sends its request and then toggles the menu |
| BrowserClicks.Step | src/ui/components/BrowserListItem.jsx:152-223 | only time moves the clock; only time and menu picks send requests; a pick sends its entry's request; click and model events leave the menu and hide timers alone; menu and pointer events leave the click state alone |
| BrowserClicks.Ticks | src/ui/components/BrowserListItem.jsx:182-192 | `n` units of idle time are `n` tick events |
| BrowserClicks.InitialValid | src/ui/components/BrowserListItem.jsx:139-146 | a new list item satisfies the timer invariant |
| BrowserClicks.ClickKeepsValid | src/ui/components/BrowserListItem.jsx:178-193 | a click keeps the timer invariant |
| BrowserClicks.TickKeepsValid | src/ui/components/BrowserListItem.jsx:160-215 | time passing keeps the timer invariant |
| BrowserClicks.ReceiveModelKeepsValid | src/ui/components/BrowserListItem.jsx:152-158 | a model change keeps the timer invariant |
| BrowserClicks.MenuEventKeepsValid | src/ui/components/BrowserListItem.jsx:195-223 | the menu and pointer handlers keep the timer invariant |
| BrowserClicks.StepPreservesValid | src/ui/components/BrowserListItem.jsx:152-223 | every event keeps the invariant: each timer is due within its delay, a click is pending only while `clickedOnce` is set, and `clickedOnce` is set only while a debouncer exists |
| BrowserClicks.RunCons | src/ui/components/BrowserListItem.jsx:152-223 | running an event then a trace is running the trace from that event's successor |
| BrowserClicks.RunAppend | src/ui/components/BrowserListItem.jsx:152-223 | running two traces in a row is running their concatenation |
| BrowserClicks.TicksCons | src/ui/components/BrowserListItem.jsx:182-192 | `n` ticks are one tick followed by `n-1` ticks |
| BrowserClicks.QuietTicks | src/ui/components/BrowserListItem.jsx:182-192 | with no click pending, time passing sends nothing and leaves the click state alone |
| BrowserClicks.OneTimerTicks | src/ui/components/BrowserListItem.jsx:160-192 | with one click pending, nothing is sent before its deadline; from then on exactly one request has gone out, for the current model |
| BrowserClicks.FirstClick | src/ui/components/BrowserListItem.jsx:189-192 | a click from rest sets `clickedOnce` and schedules one call 200 later |
| BrowserClicks.DoubleClickSendsNothing | src/ui/components/BrowserListItem.jsx:182-192 | two clicks less than 200 apart send no request, however long one waits afterwards |
| BrowserClicks.SingleClickSendsOnce | src/ui/components/BrowserListItem.jsx:160-192 | one click and at least 200 of idle time send exactly one request, and `clickedOnce` stays set |
| BrowserClicks.NextClickSwallowed | src/ui/components/BrowserListItem.jsx:160-192 | after a click has resolved, the next click, however much later, sends nothing |
| BrowserClicks.OrphanedClickStillSends | src/ui/components/BrowserListItem.jsx:152-158 | a model change while a click is pending resets the flag, drops the debouncer, and the pending call still sends the request, for the new model |
| BrowserClicks.TwoClicksScheduled | src/ui/components/BrowserListItem.jsx:152-193 | a click, a model change and another click leave two deferred calls scheduled at once |
| BrowserClicks.OfferedPick | src/ui/components/BrowserListItem.jsx:35-63 | picking an entry the open menu offers sends one request (Remove exactly for a service entry, Play Now for a play-now-only item) on the play target or with the item's service, and closes the menu |
| BrowserClicks.MenuLaws | src/ui/components/BrowserListItem.jsx:195-209 | toggling twice restores the menu; hiding twice is hiding once; hiding after a toggle leaves the menu collapsed |
| BrowserClicks.BrowserListItem.constructor | src/ui/components/BrowserListItem.jsx:140-146 | a new item is collapsed, has no click pending and no timers |
| BrowserClicks.BrowserListItem.OnClick | src/ui/components/BrowserListItem.jsx:160-176 | `_onClick` appends the one request `OnClickRequest` gives for the current model |
| BrowserClicks.BrowserListItem.HandleClick | src/ui/components/BrowserListItem.jsx:178-193 | the fields change as `HandleClick` says |
| BrowserClicks.BrowserListItem.ComponentDidUpdate | src/ui/components/BrowserListItem.jsx:152-158 | the fields change as `ReceiveModel` says |
| BrowserClicks.BrowserListItem.Toggle | src/ui/components/BrowserListItem.jsx:195-201 | the fields change as `ToggleExpanded` says |
| BrowserClicks.BrowserListItem.HideMenu | src/ui/components/BrowserListItem.jsx:203-209 | the fields change as `HideExpanded` says |
| BrowserClicks.BrowserListItem.OnMouseOut | src/ui/components/BrowserListItem.jsx:211-215 | the fields change as `PointerOut` says |
| BrowserClicks.BrowserListItem.OnMouseOver | src/ui/components/BrowserListItem.jsx:217-223 | the fields change as `PointerOver` says |
| BrowserClicks.BrowserListItem.PickEntry | src/ui/components/BrowserListItem.jsx:35-63 | the fields change as `Pick` says |
| BrowserClicks.BrowserListItem.FireDueClicks | src/ui/components/BrowserListItem.jsx:160-192 | each due deferred call runs `OnClick` once; the fields change as `FireClicks` says |
| BrowserClicks.BrowserListItem.FireDueHides | src/ui/components/BrowserListItem.jsx:203-215 | the fields change as `FireHides` says |
| BrowserClicks.BrowserListItem.AdvanceClock | src/ui/components/BrowserListItem.jsx:182-215 | the clock moves one unit on; nothing else changes |
| BrowserClicks.BrowserListItem.RunOnClick | src/ui/components/BrowserListItem.jsx:160-176 | `n` runs of `_onClick` append `n` copies of the current model's request |
| BrowserClicks.BrowserListItem.Tick | src/ui/components/BrowserListItem.jsx:160-215 | the clock moves on, then the due clicks fire, then the due hide timers: the fields change as `Advance` is defined |

## Left out

- Rendering is not modelled: JSX, CSS class names, `ValueSlider`, `AlbumArt`, the player and partner `<select>` lists, and the playable-class computation in `BrowserListItem.render`. These only decide what is shown.
- The inline menu's position is not modelled: `getClosest`, `getComputedStyle` and the pixel arithmetic depend on browser layout.
- Redux `connect`, `mapStateToProps`, `mapDispatchToProps`, the action creators and `getPlayers` live in modules not shown here. The requests they would carry are recorded as values instead (`Request`, `SetValue`, `PairRequest`).
- `Dispatcher.register` and the `EventEmitter` internals are not modelled. The dispatcher is the method `Dispatch`, and listeners are identities in a list with a log of the calls made. A listener that re-enters the store during `emitChange` is not modelled.
- The getters `isPlaying`, `getPositionInfo`, `getCurrentTrack`, `getNextTrack`, `getMuted` and `getVolume` are plain field reads. They are the fields of `PlayerStore` itself.
- `_.debounce`, `window.setTimeout`/`clearTimeout` and wall-clock time become an integer clock, deadlines and `Tick` events. The debounce's restart of a pending wait cannot arise, because by the invariant a click never finds a call pending with `clickedOnce` clear.
- `console.log`, `preventDefault`/`stopPropagation` and the `JSON.parse` of `canPlay` are side effects with no decision in them.
- The `_hide`, `_breakPair` and `select` handlers pass their argument straight to an action creator. The `setState` of `pairWith`/`pairOn` from the two selects only sets a field.
- The `eqState[host] || {}` defaults in `render` are not modelled. The modelled functions take the four values as arguments.
- EqScale.ToPercentage: slider percentages and EQ values are integers, and floating-point division is replaced by exact rational rounding. A fractional percentage from a drag is not modelled.
- Falsy values are narrowed: a falsy host is the empty string, and a falsy `pairWith` is `undefined` or the empty string.
- `render` reads `isStereo` and `isPaired` from the derived player (`EqSettings.jsx` line 114). With an empty roster that player is `undefined`, so `render` throws a TypeError there. `render` is not part of this model.
- EqScale.LoudnessToggle: the checkbox value is an integer here. The source compares the string `e.target.value` loosely with `== 1`. A loudness stored as boolean `true` renders as `"true"`, which is not `== 1`, so the source sends 1 again. The model cannot express that case.
- Stores.Action: the payloads are typed. `muted` is a boolean, `volume` an integer and `state` a string, and `Info` has no `undefined`. The source stores whatever value the action carries, including `undefined` for a missing field.
- BrowserClicks.Step: a `PickEntry` event is accepted in any state, including a collapsed menu or an entry the menu does not offer. `OfferedPick` states what happens for an entry the open menu offers.
