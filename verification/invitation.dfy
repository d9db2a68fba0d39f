/** The state of the WeddingInvitation component and its event handlers:
    section navigation, the photo gallery controller, and the RSVP form. Each
    handler is a method that updates the component's fields; the gallery
    handlers are proved to follow Carousel.Step. */
module Invitation {
  import opened Carousel
  import opened Rsvp

  /** The navigation bar's sections, from key to label. */
  const Sections: map<string, string> :=
    map["invitation" := "Thiệp Mời", "details" := "Chi Tiết",
        "gallery" := "Album Ảnh", "rsvp" := "Xác Nhận"]

  /** The navigation bar has four sections, and the one shown on mount is
      among them. */
  lemma SectionKeys()
    ensures Sections.Keys == {"invitation", "details", "gallery", "rsvp"}
    ensures |Sections| == 4 && "invitation" in Sections
  {
  }

  class WeddingInvitation {
    var currentSection: string
    var currentImageIndex: nat
    var fullscreenOpen: bool
    var isUserInteracting: bool
    var formData: map<string, string>

    /** The section shown is a key of the navigation bar, the photo shown is
        one of the gallery's, and the form still has all of its fields. */
    ghost predicate Valid()
      reads this
    {
      currentSection in Sections &&
      currentImageIndex < ImageCount &&
      FormFields <= formData.Keys
    }

    /** The gallery part of the component's state. */
    function Gallery(): GalleryState
      reads this
    {
      GalleryState(currentImageIndex, fullscreenOpen, isUserInteracting)
    }

    /** The file name of the photo on display. */
    function CurrentImage(): (name: string)
      reads this
      requires Valid()
      ensures name in WeddingImages
    {
      WeddingImages[currentImageIndex]
    }

    /** Mount: the invitation section, the first photo, autoplay running,
        an empty form for one guest. */
    constructor ()
      ensures Valid()
      ensures currentSection == "invitation"
      ensures Gallery() == Initial && AutoplayActive(Gallery())
      ensures formData == InitialForm
    {
      currentSection := "invitation";
      currentImageIndex := 0;
      fullscreenOpen := false;
      isUserInteracting := false;
      formData := InitialForm;
    }

    /** A click in the navigation bar shows that section. */
    method SelectSection(key: string)
      requires Valid() && key in Sections
      modifies this
      ensures Valid()
      ensures currentSection == key
      ensures Gallery() == old(Gallery()) && formData == old(formData)
    {
      currentSection := key;
    }

    /** An arrow click: marks the user as interacting, which switches
        autoplay off for good, and steps one photo with wrap-around. */
    method NavigateImage(direction: Direction)
      requires Valid()
      modifies this
      ensures Valid()
      ensures Gallery() == Step(old(Gallery()), Navigate(direction))
      ensures isUserInteracting && !AutoplayActive(Gallery())
      ensures fullscreenOpen == old(fullscreenOpen)
      ensures direction == Next ==> currentImageIndex == (old(currentImageIndex) + 1) % ImageCount
      ensures direction == Prev ==> currentImageIndex == (old(currentImageIndex) - 1) % ImageCount
      ensures currentSection == old(currentSection) && formData == old(formData)
    {
      isUserInteracting := true;
      if direction == Next {
        currentImageIndex := NextIndex(currentImageIndex, ImageCount);
      } else {
        currentImageIndex := PrevIndex(currentImageIndex, ImageCount);
      }
    }

    /** One firing of the autoplay interval. The interval exists only while
        neither flag is set, so a tick outside that condition has no
        effect. */
    method Tick()
      requires Valid()
      modifies this
      ensures Valid()
      ensures Gallery() == Step(old(Gallery()), AutoplayTick)
      ensures !old(AutoplayActive(Gallery())) ==> Gallery() == old(Gallery())
      ensures old(AutoplayActive(Gallery())) ==>
                currentImageIndex == (old(currentImageIndex) + 1) % ImageCount &&
                AutoplayActive(Gallery())
      ensures currentSection == old(currentSection) && formData == old(formData)
    {
      if !isUserInteracting && !fullscreenOpen {
        currentImageIndex := NextIndex(currentImageIndex, ImageCount);
      }
    }

    /** A thumbnail click jumps to that photo and touches neither flag. */
    method ClickThumbnail(index: nat)
      requires Valid() && index < ImageCount
      modifies this
      ensures Valid()
      ensures Gallery() == Step(old(Gallery()), SelectThumbnail(index))
      ensures currentImageIndex == index
      ensures fullscreenOpen == old(fullscreenOpen) && isUserInteracting == old(isUserInteracting)
      ensures currentSection == old(currentSection) && formData == old(formData)
    {
      currentImageIndex := index;
    }

    /** The fullscreen button: opens the viewer on the same photo and pauses
        autoplay. */
    method EnterFullscreen()
      requires Valid()
      modifies this
      ensures Valid()
      ensures Gallery() == Step(old(Gallery()), OpenFullscreen)
      ensures fullscreenOpen && !AutoplayActive(Gallery())
      ensures currentImageIndex == old(currentImageIndex) && isUserInteracting == old(isUserInteracting)
      ensures currentSection == old(currentSection) && formData == old(formData)
    {
      fullscreenOpen := true;
    }

    /** The close button or a click on the backdrop: closes the viewer. */
    method ExitFullscreen()
      requires Valid()
      modifies this
      ensures Valid()
      ensures Gallery() == Step(old(Gallery()), CloseFullscreen)
      ensures !fullscreenOpen && (AutoplayActive(Gallery()) <==> !isUserInteracting)
      ensures currentImageIndex == old(currentImageIndex) && isUserInteracting == old(isUserInteracting)
      ensures currentSection == old(currentSection) && formData == old(formData)
    {
      fullscreenOpen := false;
    }

    /** A change event on the form input called `name`: that field takes the
        input's value, the other fields and the rest of the component stay. */
    method HandleInputChange(name: string, value: string)
      requires Valid()
      modifies this
      ensures Valid()
      ensures formData == WithField(old(formData), name, value)
      ensures formData[name] == value
      ensures forall f :: f in old(formData) && f != name ==> formData[f] == old(formData)[f]
      ensures Gallery() == old(Gallery()) && currentSection == old(currentSection)
    {
      formData := WithField(formData, name, value);
    }
  }

  /** On a freshly mounted component: choosing photo 6 (index 5) and
      letting one tick pass shows index 6; opening fullscreen then pauses
      autoplay, so a further tick leaves the index at 6. */
  method AutoplayThenFullscreen() returns (afterTick: nat, afterFullscreenTick: nat)
    ensures afterTick == 6 && afterFullscreenTick == 6
  {
    var page := new WeddingInvitation();
    page.ClickThumbnail(5);
    page.Tick();
    afterTick := page.currentImageIndex;
    page.EnterFullscreen();
    page.Tick();
    afterFullscreenTick := page.currentImageIndex;
  }
}
