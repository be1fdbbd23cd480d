/**
 * The photo lightbox of src/components/photography/Lightbox.tsx.
 *
 * `currentIndex` belongs to the parent and changes through `onNavigate`;
 * the model keeps it in the object and lets `onNavigate(i)` set it.
 * `onClose` is an action the parent answers by closing.
 */
module Lightbox {
  datatype Key = Escape | ArrowLeft | ArrowRight | Space | OtherKey

  /** What one key press asks for. */
  datatype Action = NoAction | Close | Navigate(to: int) | ToggleZoom

  /** The keyboard handler of lines 35-62. */
  function KeyAction(isOpen: bool, index: int, count: nat, key: Key): (a: Action)
    ensures !isOpen ==> a == NoAction
    ensures isOpen && key == Escape ==> a == Close
    ensures isOpen && key == Space ==> a == ToggleZoom
    ensures a.Navigate? <==>
              isOpen && ((key == ArrowLeft && index > 0) || (key == ArrowRight && index < count - 1))
    ensures a.Navigate? && key == ArrowLeft ==> a.to == index - 1
    ensures a.Navigate? && key == ArrowRight ==> a.to == index + 1
  {
    if !isOpen then NoAction
    else
      match key
      case Escape => Close
      case ArrowLeft => if index > 0 then Navigate(index - 1) else NoAction
      case ArrowRight => if index < count - 1 then Navigate(index + 1) else NoAction
      case Space => ToggleZoom
      case OtherKey => NoAction
  }

  /** A key never navigates outside the image list. */
  lemma KeysStayInRange(isOpen: bool, index: int, count: nat, key: Key)
    requires 0 <= index < count
    ensures var a := KeyAction(isOpen, index, count, key);
            a.Navigate? ==> 0 <= a.to < count
  {
  }

  class LightboxState {
    var count: nat
    var index: int
    var isOpen: bool
    var isZoomed: bool
    var isLoading: bool

    ghost predicate Valid()
      reads this
    {
      0 <= index < count
    }

    /** Mounted with a valid index: not zoomed, loading. */
    constructor (count: nat, index: int, isOpen: bool)
      requires 0 <= index < count
      ensures Valid()
      ensures this.count == count && this.index == index && this.isOpen == isOpen
      ensures !isZoomed && isLoading
    {
      this.count := count;
      this.index := index;
      this.isOpen := isOpen;
      isZoomed := false;
      isLoading := true;
    }

    /** Nothing is rendered while closed. */
    predicate Renders()
      reads this
    {
      isOpen
    }

    predicate ShowsPrevious()
      reads this
    {
      index > 0
    }

    predicate ShowsNext()
      reads this
    {
      index < count - 1
    }

    /** The "i / n" counter of line 172. */
    function Counter(): (c: (int, nat))
      reads this
      requires Valid()
      ensures 1 <= c.0 <= c.1 && c.1 == count && c.0 - 1 == index
    {
      (index + 1, count)
    }

    /**
     * A key press. Returns whether `onClose` was called. Keyboard
     * navigation does not set loading; only the arrow buttons do.
     */
    method HandleKey(key: Key) returns (closeRequested: bool)
      requires Valid()
      modifies this
      ensures Valid()
      ensures var a := KeyAction(old(isOpen), old(index), old(count), key);
              && closeRequested == (a == Close)
              && index == (if a.Navigate? then a.to else old(index))
              && isZoomed == (if a == ToggleZoom then !old(isZoomed) else old(isZoomed))
              && count == old(count) && isOpen == old(isOpen) && isLoading == old(isLoading)
    {
      var a := KeyAction(isOpen, index, count, key);
      KeysStayInRange(isOpen, index, count, key);
      closeRequested := false;
      match a
      case Close => closeRequested := true;
      case Navigate(to) => index := to;
      case ToggleZoom => isZoomed := !isZoomed;
      case NoAction =>
    }

    /** `handlePrevious`: moves back and sets loading only when there is an earlier image. */
    method HandlePrevious()
      requires Valid()
      modifies this
      ensures Valid()
      ensures old(ShowsPrevious()) ==> index == old(index) - 1 && isLoading
      ensures !old(ShowsPrevious()) ==> index == old(index) && isLoading == old(isLoading)
      ensures count == old(count) && isOpen == old(isOpen) && isZoomed == old(isZoomed)
    {
      if index > 0 {
        isLoading := true;
        index := index - 1;
      }
    }

    /** `handleNext`: moves forward and sets loading only when there is a later image. */
    method HandleNext()
      requires Valid()
      modifies this
      ensures Valid()
      ensures old(ShowsNext()) ==> index == old(index) + 1 && isLoading
      ensures !old(ShowsNext()) ==> index == old(index) && isLoading == old(isLoading)
      ensures count == old(count) && isOpen == old(isOpen) && isZoomed == old(isZoomed)
    {
      if index < count - 1 {
        isLoading := true;
        index := index + 1;
      }
    }

    /** `handleImageLoad`. */
    method HandleImageLoad()
      modifies this
      ensures !isLoading
      ensures count == old(count) && index == old(index) && isOpen == old(isOpen) && isZoomed == old(isZoomed)
    {
      isLoading := false;
    }

    /** A click on the image container toggles zoom. */
    method ClickImage()
      modifies this
      ensures isZoomed == !old(isZoomed)
      ensures count == old(count) && index == old(index) && isOpen == old(isOpen) && isLoading == old(isLoading)
    {
      isZoomed := !isZoomed;
    }
  }

  /** An arrow button is shown exactly when pressing its key would navigate. */
  lemma ArrowsMatchKeys(index: int, count: nat)
    ensures KeyAction(true, index, count, ArrowLeft).Navigate? <==> index > 0
    ensures KeyAction(true, index, count, ArrowRight).Navigate? <==> index < count - 1
  {
  }

  /** At the last image, ArrowRight does nothing; at the first, ArrowLeft does nothing. */
  lemma EndsDoNotWrap(count: nat)
    requires count > 0
    ensures KeyAction(true, count - 1, count, ArrowRight) == NoAction
    ensures KeyAction(true, 0, count, ArrowLeft) == NoAction
  {
  }
}
