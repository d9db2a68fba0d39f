/** The photo-gallery carousel of the wedding invitation: the fixed list of
    photos, the wrap-around index arithmetic, and the gallery controller as a
    state machine over discrete events (arrow clicks, autoplay ticks,
    thumbnail clicks, opening and closing the fullscreen viewer). */
module Carousel {

  /** The photos shown by the gallery, in carousel and thumbnail order. */
  const WeddingImages: seq<string> :=
    ["13.png", "4.jpg", "9.jpg", "10.JPG", "11.JPG", "12.jpg", "8.jpg",
     "1.jpg", "2.jpg", "3.jpg", "5.JPG", "6.JPG", "7.JPG"]

  /** The number of photos (weddingImages.length); never zero. */
  const ImageCount: nat := |WeddingImages|

  // ---------------------------------------------------------------------
  // Index arithmetic
  // ---------------------------------------------------------------------

  /** The index after "next": one further on, wrapping from the last photo
      back to the first. The source writes (prev + 1) % n; prev is never
      negative, so JavaScript's truncating % agrees with Dafny's. */
  function NextIndex(i: nat, n: nat): (r: nat)
    requires n >= 1
    ensures r < n
    ensures i < n ==> r == if i == n - 1 then 0 else i + 1
  {
    (i + 1) % n
  }

  /** The index after "previous": one back, wrapping from the first photo to
      the last. */
  function PrevIndex(i: nat, n: nat): (r: nat)
    requires n >= 1
    ensures i < n ==> r < n
    ensures i < n ==> NextIndex(r, n) == i
  {
    if i == 0 then n - 1 else i - 1
  }

  /** "Previous" undoes "next" and "next" undoes "previous". */
  lemma PrevNextInverse(i: nat, n: nat)
    requires n >= 1 && i < n
    ensures PrevIndex(NextIndex(i, n), n) == i
    ensures NextIndex(PrevIndex(i, n), n) == i
  {
  }

  /** (a mod n) + 1, taken mod n again, is (a + 1) mod n. */
  lemma ModSucc(a: int, n: int)
    requires n >= 1
    ensures (a % n + 1) % n == (a + 1) % n
  {
    var q, r := a / n, a % n;
    assert a == q * n + r;
    if r + 1 == n {
      assert a + 1 == (q + 1) * n + 0;
      ModUnique(a + 1, n, q + 1, 0);
      ModUnique(r + 1, n, 1, 0);
    } else {
      ModUnique(a + 1, n, q, r + 1);
      ModUnique(r + 1, n, 0, r + 1);
    }
  }

  /** (a mod n) - 1, taken mod n again, is (a - 1) mod n. */
  lemma ModPred(a: int, n: int)
    requires n >= 1
    ensures (a % n - 1) % n == (a - 1) % n
  {
    var q := a / n;
    assert a == q * n + a % n;
    if a % n == 0 {
      assert a - 1 == (q - 1) * n + (n - 1);
      ModUnique(a - 1, n, q - 1, n - 1);
      ModUnique(-1, n, -1, n - 1);
    } else {
      assert a - 1 == q * n + (a % n - 1);
      ModUnique(a - 1, n, q, a % n - 1);
    }
  }

  /** The remainder is the unique r in [0, n) with a == q * n + r. */
  lemma ModUnique(a: int, n: int, q: int, r: int)
    requires n >= 1 && 0 <= r < n && a == q * n + r
    ensures a % n == r
  {
    var q0, r0 := a / n, a % n;
    assert a == q0 * n + r0;
    var d := q - q0;
    assert d * n == r0 - r;
    if d > 0 {
      MulAtLeast(d, n);
    } else if d < 0 {
      MulAtLeast(-d, n);
    }
  }

  /** A positive multiple of n is at least n. */
  lemma MulAtLeast(d: nat, n: nat)
    requires d >= 1
    ensures d * n >= n
  {
  }

  /** "Previous" is subtraction of one, reduced mod n. */
  lemma PrevIsModPred(p: nat, n: nat)
    requires n >= 1 && p < n
    ensures PrevIndex(p, n) == (p - 1) % n
    ensures PrevIndex(p, n) == (p - 1 + n) % n
  {
    if p == 0 {
      ModUnique(n - 1, n, 0, n - 1);
    } else {
      ModUnique(p - 1 + n, n, 1, p - 1);
    }
  }

  /** The index after k "next" steps from i. */
  function Advance(i: nat, k: nat, n: nat): (r: nat)
    requires n >= 1 && i < n
    ensures r == (i + k) % n
  {
    if k == 0 then i
    else
      var prev := Advance(i, k - 1, n);
      ModSucc(i + k - 1, n);
      NextIndex(prev, n)
  }

  /** The index after k "previous" steps from i. */
  function Retreat(i: nat, k: nat, n: nat): (r: nat)
    requires n >= 1 && i < n
    ensures r == (i - k) % n
  {
    if k == 0 then i
    else
      var prev := Retreat(i, k - 1, n);
      PrevIsModPred(prev, n);
      ModPred(i - k + 1, n);
      PrevIndex(prev, n)
  }

  /** n "next" steps, or n "previous" steps, bring the carousel back to the
      photo it started from. */
  lemma {:induction false} FullCycle(i: nat, n: nat)
    requires n >= 1 && i < n
    ensures Advance(i, n, n) == i
    ensures Retreat(i, n, n) == i
  {
    ModUnique(i + n, n, 1, i);
    ModUnique(i - n, n, -1, i);
  }

  // ---------------------------------------------------------------------
  // The gallery controller as a state machine
  // ---------------------------------------------------------------------

  datatype Direction = Next | Prev

  /** currentImageIndex, fullscreenOpen and isUserInteracting of the
      invitation component. */
  datatype GalleryState = GalleryState(index: nat, fullscreenOpen: bool, isUserInteracting: bool)

  /** The events that change the gallery state. */
  datatype GalleryEvent =
    | Navigate(direction: Direction)   // the arrow buttons, inline or fullscreen
    | AutoplayTick                     // one firing of the autoplay interval
    | SelectThumbnail(thumb: nat)      // a click on the thumbnail at that index
    | OpenFullscreen
    | CloseFullscreen                  // the close button or the backdrop

  /** The state on mount. */
  const Initial := GalleryState(0, false, false)

  /** The photo list is the thirteen files, first "13.png" and last "7.JPG",
      so every index arithmetic above has a non-zero modulus. */
  lemma PhotoList()
    ensures ImageCount == 13 && ImageCount >= 1
    ensures WeddingImages[0] == "13.png" && WeddingImages[ImageCount - 1] == "7.JPG"
  {
  }

  /** On mount the first photo is shown and autoplay is running. */
  lemma InitialState()
    ensures Initial.index == 0 && InRange(Initial)
    ensures AutoplayActive(Initial)
  {
  }

  /** The index names a photo. */
  predicate InRange(s: GalleryState) {
    s.index < ImageCount
  }

  /** Thumbnails are drawn from the photo list, so they carry a valid index. */
  predicate ValidEvent(e: GalleryEvent) {
    e.SelectThumbnail? ==> e.thumb < ImageCount
  }

  /** The autoplay interval is installed exactly when this holds. */
  predicate AutoplayActive(s: GalleryState) {
    !s.isUserInteracting && !s.fullscreenOpen
  }

  /** A tick changes the gallery state exactly when autoplay is active, that
      is, exactly when neither the interaction flag nor the fullscreen flag
      is set. */
  lemma TickMovesIffActive(s: GalleryState)
    requires InRange(s)
    ensures Step(s, AutoplayTick) != s <==> AutoplayActive(s)
    ensures Step(s, AutoplayTick) != s <==> !s.isUserInteracting && !s.fullscreenOpen
  {
  }

  /** The effect of one event on the gallery state. */
  function Step(s: GalleryState, e: GalleryEvent): (r: GalleryState)
    ensures InRange(s) && ValidEvent(e) ==> InRange(r)
    // only an arrow click sets the interaction flag, and nothing clears it
    ensures r.isUserInteracting <==> s.isUserInteracting || e.Navigate?
    // only the fullscreen button, the backdrop and the close button move the
    // fullscreen flag
    ensures e.OpenFullscreen? ==> r.fullscreenOpen
    ensures e.CloseFullscreen? ==> !r.fullscreenOpen
    ensures !e.OpenFullscreen? && !e.CloseFullscreen? ==> r.fullscreenOpen == s.fullscreenOpen
    ensures e.OpenFullscreen? || e.CloseFullscreen? ==> r.index == s.index
    // a tick is inert unless autoplay is active, and then it is a "next"
    ensures e.AutoplayTick? && !AutoplayActive(s) ==> r == s
    ensures e.AutoplayTick? && AutoplayActive(s) && InRange(s) ==>
              r.index == if s.index == ImageCount - 1 then 0 else s.index + 1
    ensures e.Navigate? && InRange(s) ==>
              r.index == if e.direction == Next then Advance(s.index, 1, ImageCount)
                         else Retreat(s.index, 1, ImageCount)
    ensures e.SelectThumbnail? ==> r.index == e.thumb
  {
    match e
    case Navigate(Next) =>
      s.(isUserInteracting := true, index := NextIndex(s.index, ImageCount))
    case Navigate(Prev) =>
      s.(isUserInteracting := true, index := PrevIndex(s.index, ImageCount))
    case AutoplayTick =>
      if AutoplayActive(s) then s.(index := NextIndex(s.index, ImageCount)) else s
    case SelectThumbnail(k) =>
      s.(index := k)
    case OpenFullscreen =>
      s.(fullscreenOpen := true)
    case CloseFullscreen =>
      s.(fullscreenOpen := false)
  }

  /** The state after a sequence of events, in order. */
  function Run(s: GalleryState, events: seq<GalleryEvent>): GalleryState
    decreases |events|
  {
    if events == [] then s else Run(Step(s, events[0]), events[1..])
  }

  /** k events of the same kind. */
  function Repeat(e: GalleryEvent, k: nat): (r: seq<GalleryEvent>)
    ensures |r| == k && forall j :: 0 <= j < k ==> r[j] == e
  {
    if k == 0 then [] else [e] + Repeat(e, k - 1)
  }

  /** Every sequence of valid events keeps the index on a photo. */
  lemma {:induction false} RunInRange(s: GalleryState, events: seq<GalleryEvent>)
    requires InRange(s)
    requires forall j :: 0 <= j < |events| ==> ValidEvent(events[j])
    ensures InRange(Run(s, events))
    decreases |events|
  {
    if events != [] {
      RunInRange(Step(s, events[0]), events[1..]);
    }
  }

  /** From the state on mount, every reachable state has a valid index. */
  lemma ReachableInRange(events: seq<GalleryEvent>)
    requires forall j :: 0 <= j < |events| ==> ValidEvent(events[j])
    ensures InRange(Run(Initial, events))
  {
    RunInRange(Initial, events);
  }

  /** After any events, the user counts as interacting exactly when they
      already did or some event was an arrow click: once set, the flag stays
      set, and no tick, thumbnail or fullscreen event sets it. */
  lemma {:induction false} InteractionSticky(s: GalleryState, events: seq<GalleryEvent>)
    ensures Run(s, events).isUserInteracting <==>
              s.isUserInteracting || exists j :: 0 <= j < |events| && events[j].Navigate?
    decreases |events|
  {
    if events != [] {
      var s' := Step(s, events[0]);
      InteractionSticky(s', events[1..]);
      if exists j :: 0 <= j < |events| && events[j].Navigate? {
        var j :| 0 <= j < |events| && events[j].Navigate?;
        if j > 0 {
          assert events[1..][j - 1].Navigate?;
        }
      }
      if exists j :: 0 <= j < |events[1..]| && events[1..][j].Navigate? {
        var j :| 0 <= j < |events[1..]| && events[1..][j].Navigate?;
        assert events[j + 1].Navigate?;
      }
    }
  }

  /** Ticks change nothing while the user has interacted or fullscreen is
      open. */
  lemma {:induction false} TicksSuppressed(s: GalleryState, k: nat)
    requires !AutoplayActive(s)
    ensures Run(s, Repeat(AutoplayTick, k)) == s
  {
    if k > 0 {
      assert Repeat(AutoplayTick, k)[1..] == Repeat(AutoplayTick, k - 1);
      TicksSuppressed(s, k - 1);
    }
  }

  /** While autoplay is active, k ticks advance the index k photos and leave
      both flags as they were, so autoplay stays active. */
  lemma {:induction false} TicksAdvance(s: GalleryState, k: nat)
    requires AutoplayActive(s) && InRange(s)
    ensures Run(s, Repeat(AutoplayTick, k)) == s.(index := (s.index + k) % ImageCount)
    decreases k
  {
    if k > 0 {
      var s' := Step(s, AutoplayTick);
      assert Repeat(AutoplayTick, k)[1..] == Repeat(AutoplayTick, k - 1);
      TicksAdvance(s', k - 1);
      assert s'.index == Advance(s.index, 1, ImageCount);
      ModSucc(s.index, ImageCount);
      ModSucc(s.index + k - 1, ImageCount);
      assert (s'.index + (k - 1)) % ImageCount == (s.index + k) % ImageCount by {
        ModUnique(s.index + 1, ImageCount, (s.index + 1) / ImageCount, s'.index);
        ModShift(s.index + 1, k - 1, ImageCount);
      }
    }
  }

  /** Adding k commutes with reduction mod n. */
  lemma ModShift(a: int, k: int, n: int)
    requires n >= 1
    ensures (a % n + k) % n == (a + k) % n
  {
    var q := a / n;
    assert a == q * n + a % n;
    var b := a + k;
    var r := b % n;
    assert b == (b / n) * n + r;
    assert a % n + k == (b / n - q) * n + r;
    ModUnique(a % n + k, n, b / n - q, r);
  }

  /** An autoplay tick moves the index exactly as "next" does, but unlike
      "next" it leaves the interaction flag clear. */
  lemma TickIsNextWithoutInteraction(s: GalleryState)
    requires AutoplayActive(s) && InRange(s)
    ensures Step(s, AutoplayTick).index == Step(s, Navigate(Next)).index
    ensures !Step(s, AutoplayTick).isUserInteracting
    ensures Step(s, Navigate(Next)).isUserInteracting
  {
  }

  /** k "next" clicks move k photos forward and set the interaction flag. */
  lemma {:induction false} NextClicks(s: GalleryState, k: nat)
    requires InRange(s) && k >= 1
    ensures Run(s, Repeat(Navigate(Next), k)) ==
              s.(index := Advance(s.index, k, ImageCount), isUserInteracting := true)
    decreases k
  {
    assert Repeat(Navigate(Next), k)[1..] == Repeat(Navigate(Next), k - 1);
    var s' := Step(s, Navigate(Next));
    if k == 1 {
      assert Repeat(Navigate(Next), 1)[1..] == [];
    } else {
      NextClicks(s', k - 1);
      assert Advance(s'.index, k - 1, ImageCount) == Advance(s.index, k, ImageCount) by {
        ModShift(s.index + 1, k - 1, ImageCount);
      }
    }
  }

  /** As many "next" clicks as there are photos bring the carousel back to
      the photo it started from. */
  lemma FullCycleOfClicks(s: GalleryState)
    requires InRange(s)
    ensures Run(s, Repeat(Navigate(Next), ImageCount)) == s.(isUserInteracting := true)
  {
    NextClicks(s, ImageCount);
    FullCycle(s.index, ImageCount);
  }

  /** On mount: thirteen "next" clicks return to the first photo with the
      interaction flag set; one "previous" click shows the last photo. */
  lemma StartScenarios()
    ensures Run(Initial, Repeat(Navigate(Next), 13)) == GalleryState(0, false, true)
    ensures Step(Initial, Navigate(Prev)).index == 12
  {
    FullCycleOfClicks(Initial);
  }

  /** With autoplay active at photo 5, a tick shows photo 6; once fullscreen
      opens, a further tick leaves it at 6. */
  lemma AutoplayScenario()
    ensures Run(GalleryState(5, false, false), [AutoplayTick]).index == 6
    ensures Run(GalleryState(5, false, false), [AutoplayTick, OpenFullscreen, AutoplayTick]).index == 6
  {
    assert [AutoplayTick, OpenFullscreen, AutoplayTick][1..] == [OpenFullscreen, AutoplayTick];
  }

  /** A thumbnail click jumps straight to that photo and, leaving both flags
      alone, keeps autoplay running if it was. */
  lemma ThumbnailKeepsAutoplay(s: GalleryState, k: nat)
    requires k < ImageCount
    ensures Step(s, SelectThumbnail(k)) == s.(index := k)
    ensures AutoplayActive(Step(s, SelectThumbnail(k))) == AutoplayActive(s)
  {
  }

  /** Opening and closing fullscreen touch only the fullscreen flag; while
      fullscreen is open a tick is inert; closing it resumes autoplay exactly
      when the user has not navigated. */
  lemma FullscreenFrame(s: GalleryState)
    ensures Step(s, OpenFullscreen) == s.(fullscreenOpen := true)
    ensures Step(s, CloseFullscreen) == s.(fullscreenOpen := false)
    ensures Step(Step(s, OpenFullscreen), AutoplayTick) == Step(s, OpenFullscreen)
    ensures AutoplayActive(Step(s, CloseFullscreen)) <==> !s.isUserInteracting
  {
  }
}
