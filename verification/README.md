# Wedding invitation gallery controller, in Dafny

The wedding invitation page (`WeddingInvitation` in `src/App.jsx`) keeps a small amount
of state next to its rendering: the section shown, the photo-gallery carousel, and the
RSVP form. This project models that state and its event handlers and proves what they
promise.

- `carousel.dfy`, module `Carousel`: the 13 photos, the wrap-around index arithmetic
  (`NextIndex`, `PrevIndex` and their k-fold iterates `Advance`, `Retreat`), and the
  gallery controller as a state machine. `GalleryState` holds `currentImageIndex`,
  `fullscreenOpen` and `isUserInteracting`. `GalleryEvent` lists arrow clicks, autoplay
  ticks, thumbnail clicks and fullscreen open/close. `Step` is one event and `Run` is a
  sequence of events. The lemmas cover the range invariant, wrap-around, the
  interaction flag, tick gating and three concrete runs: 13 "next" clicks from mount, one
  "previous" click from mount, and a tick before and after opening fullscreen.
- `rsvp.dfy`, module `Rsvp`: the form record. The handler writes the field named by the
  input's `name` attribute, so the record is a `map<string, string>` updated by `WithField`.
- `invitation.dfy`, module `Invitation`: class `WeddingInvitation` with the component's
  state fields. It has one method per handler. Each gallery method is proved to change
  the state exactly as `Carousel.Step` does, and to leave the other fields alone.

The autoplay timer is not modelled as real time. Its effect is the `AutoplayTick`
event and the `Tick` method: one firing of the interval callback. The source installs the interval
only while `!isUserInteracting && !fullscreenOpen` holds, so a firing outside that
condition does nothing. The model's tick checks the same condition.

The previous-photo update is written in the source as
`prev === 0 ? length - 1 : prev - 1`. The usual modular form is `(i - 1 + N) mod N`.
The model follows the code (`PrevIndex`) and proves the two agree on valid indices
(`PrevIsModPred`).

## Model

| member | source | states |
|---|---|---|
| Carousel.NextIndex | src/App.jsx:362 | the next index is always a valid index; from a valid index it is one further on, except that the last photo wraps to 0 |
| Carousel.PrevIndex | src/App.jsx:364 | from a valid index the previous index is valid, and "next" applied to it gives back the original index |
| Carousel.PrevIsModPred | src/App.jsx:364 | on a valid index, the code's `prev === 0 ? N - 1 : prev - 1` equals both (p - 1) mod N and (p - 1 + N) mod N |
| Carousel.PrevNextInverse | src/App.jsx:362-364 | "previous" after "next" and "next" after "previous" both restore the index |
| Carousel.Advance | src/App.jsx:362 | k "next" steps from a valid index i land on (i + k) mod N |
| Carousel.Retreat | src/App.jsx:364 | k "previous" steps from a valid index i land on (i - k) mod N (Euclidean remainder), i.e. (i - 1 + N) mod N for one step |
| Carousel.FullCycle | src/App.jsx:359-366 | N "next" steps, or N "previous" steps, return to the starting index |
| Carousel.PhotoList | src/App.jsx:8-12 | the photo list `WeddingImages` is the 13 file names in the source's order, from "13.png" to "7.JPG"; so `ImageCount` is 13 and never zero |
| Carousel.InitialState | src/App.jsx:305-310 | the mount state `Initial` has index 0, a valid index, and both flags clear, so autoplay runs |
| Carousel.TickMovesIffActive | src/App.jsx:348-356 | `AutoplayActive` is the condition under which the interval is installed, `!isUserInteracting && !fullscreenOpen`: a tick changes the state exactly when it holds |
| Carousel.Step | src/App.jsx:348-366 | one event keeps a valid index valid; only an arrow click sets isUserInteracting and nothing clears it; only the fullscreen button (618), the backdrop (692) and the close button (696) change fullscreenOpen and they leave the index alone; a tick while either flag is set changes nothing, otherwise it moves one photo on; arrows move one photo with wrap-around; a thumbnail click (line 648) sets the index to the thumbnail's |
| Carousel.RunInRange | src/App.jsx:305-366 | any sequence of events with valid thumbnail indices keeps the index in [0, N) |
| Carousel.ReachableInRange | src/App.jsx:305-310 | every state reachable from the mount state (index 0, both flags false) has a valid index |
| Carousel.InteractionSticky | src/App.jsx:359-360 | after any events, isUserInteracting holds iff it held before or some event was an arrow click, so once set it stays set |
| Carousel.TicksSuppressed | src/App.jsx:348-356 | any number of ticks leaves the state unchanged while isUserInteracting or fullscreenOpen is set |
| Carousel.TicksAdvance | src/App.jsx:348-356 | while autoplay is active, k ticks advance the index to (i + k) mod N and leave both flags clear |
| Carousel.TickIsNextWithoutInteraction | src/App.jsx:350-362 | with autoplay active, a tick moves the index exactly as "next" does but leaves isUserInteracting false, while "next" sets it |
| Carousel.NextClicks | src/App.jsx:359-362 | k >= 1 "next" clicks move the index k photos on and set isUserInteracting; fullscreenOpen is unchanged |
| Carousel.FullCycleOfClicks | src/App.jsx:359-362 | N "next" clicks from any valid state return to the same photo, with only isUserInteracting now set |
| Carousel.StartScenarios | src/App.jsx:8-12 | from mount, 13 "next" clicks give index 0 with isUserInteracting set; one "previous" click gives index 12 |
| Carousel.AutoplayScenario | src/App.jsx:348-356 | from index 5 with autoplay active, a tick gives 6; after opening fullscreen a further tick leaves 6 |
| Carousel.ThumbnailKeepsAutoplay | src/App.jsx:645-648 | a thumbnail click sets the index to exactly that thumbnail, changes no flag, and so keeps autoplay active if it was |
| Carousel.FullscreenFrame | src/App.jsx:617-618 | open and close change only fullscreenOpen; a tick just after opening does nothing; after closing, autoplay is active iff the user has not navigated |
| Rsvp.InitialFormShape | src/App.jsx:313-318 | the form on mount, `InitialForm`, has exactly the fields name, phone, guests and message, with guests "1" and the others empty |
| Rsvp.WithField | src/App.jsx:339-344 | the named field takes the new value, the record gains at most that key, and every other field keeps its value |
| Rsvp.WithFieldKeepsFields | src/App.jsx:313-318 | editing one of the four fields (name, phone, guests, message) leaves the record with exactly those four fields |
| Rsvp.WithFieldOverwrites | src/App.jsx:339-344 | two edits of one field keep only the later value; edits of two different fields commute |
| Rsvp.WithSameValue | src/App.jsx:339-344 | writing back a field's current value leaves the record unchanged |
| Invitation.SectionKeys | src/App.jsx:332-337 | `Sections` has exactly the four keys invitation, details, gallery and rsvp, and the section shown on mount is one of them |
| Invitation.WeddingInvitation.constructor | src/App.jsx:304-318 | on mount: the invitation section, index 0, both flags false (so autoplay is active), the form with empty fields and one guest |
| Invitation.WeddingInvitation.CurrentImage | src/App.jsx:559 | the photo on display is one of the gallery's photos |
| Invitation.WeddingInvitation.SelectSection | src/App.jsx:399-402 | a navigation-bar click shows that section and changes nothing else |
| Invitation.WeddingInvitation.NavigateImage | src/App.jsx:359-366 | sets isUserInteracting (autoplay off), moves the index to (i + 1) mod N or (i - 1) mod N, keeps fullscreenOpen, section and form; the new gallery state is Step of the old one |
| Invitation.WeddingInvitation.Tick | src/App.jsx:348-356 | with a flag set, nothing changes; otherwise the index becomes (i + 1) mod N and autoplay stays active; the new gallery state is Step of the old one |
| Invitation.WeddingInvitation.ClickThumbnail | src/App.jsx:645-648 | the index becomes the thumbnail's index; neither flag, the section nor the form changes |
| Invitation.WeddingInvitation.EnterFullscreen | src/App.jsx:617-618 | sets fullscreenOpen (autoplay paused) and changes nothing else |
| Invitation.WeddingInvitation.ExitFullscreen | src/App.jsx:692-696 | clears fullscreenOpen and changes nothing else; autoplay resumes iff the user has not navigated |
| Invitation.WeddingInvitation.HandleInputChange | src/App.jsx:339-344 | the form becomes WithField of the old form: the named field takes the value, the others keep theirs; the gallery and section are unchanged |
| Invitation.AutoplayThenFullscreen | src/App.jsx:348-356 | on a mounted component, selecting index 5 and one tick give index 6; opening fullscreen and one more tick leave index 6 |

## Left out

- Real timing of autoplay: `setInterval`/`clearInterval` and the 4000 ms period are runtime scheduling. Only one firing is modelled, as the tick event.
- Interleaving of React state updates: when a pending interval callback runs relative to a click is decided by the framework. Every handler is modelled as one atomic step, in the order events are given.
- The range invariant is stated for thumbnail clicks carrying a valid index (`ValidEvent`, and `ClickThumbnail`'s requires). Thumbnails are generated from the photo list itself, so they always do.
- Audio: the music button's `isPlaying` toggle and the play/pause effect are browser media I/O.
- RSVP submission (`handleSubmit`): builds a mail URL with `encodeURIComponent` and calls `window.open`. Both are foreign calls with no logic of their own.
- The 3D hero scene and floating hearts, and all of `src/WeddingCardApp.jsx`: floating-point animation rendered by a graphics library.
- Display-only derivations: the progress-bar percentage (floating point), the "i + 1 / N" counter, animation settings, CSS classes, and the placeholder substituted when an image fails to load.
