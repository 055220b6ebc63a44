/** The `Header` component (components/misc/header.tsx) as an object: one field per state
    hook, plus the two pieces of browser state its handlers touch (local storage and
    whether the document root carries the `dark` class). Each handler is a method whose
    new state is given by the pure definitions in Scroll and DarkMode. */
module HeaderComponent {
  import opened Scroll
  import opened DarkMode

  class Header {
    var top: bool
    var visible: bool
    var lastScrollY: nat
    var searching: bool
    var darkMode: bool
    var storage: map<string, string>
    var darkClass: bool

    /** The scroll handler's part of the state. */
    function ScrollView(): ScrollState
      reads this
    {
      ScrollState(top, visible, lastScrollY)
    }

    /** The dark-mode part of the state, browser state included. */
    function DarkView(): DarkState
      reads this
    {
      DarkState(darkMode, storage, darkClass)
    }

    /** The component's initial render, in a browser whose local storage is `stored` and
        whose root does or does not already carry `dark`. */
    constructor (stored: map<string, string>, classOnLoad: bool)
      ensures ScrollView() == Initial()
      ensures !searching && !darkMode
      ensures storage == stored && darkClass == classOnLoad
    {
      top, visible, lastScrollY := true, true, 0;
      searching, darkMode := false, false;
      storage, darkClass := stored, classOnLoad;
    }

    /** The mount effect. */
    method Mount()
      modifies this
      ensures DarkView() == DarkMode.Mount(old(DarkView()))
      ensures ScrollView() == old(ScrollView()) && searching == old(searching)
    {
      var savedMode := DarkKey in storage && storage[DarkKey] == "true";
      darkMode := savedMode;
      if savedMode {
        darkClass := true;
      }
    }

    /** The dark-mode button's click handler. */
    method ToggleDarkMode()
      modifies this
      ensures DarkView() == Toggle(old(DarkView()))
      ensures Consistent(DarkView())
      ensures ScrollView() == old(ScrollView()) && searching == old(searching)
    {
      var newMode := !darkMode;
      darkMode := newMode;
      storage := storage[DarkKey := Encode(newMode)];
      if newMode {
        darkClass := true;
      } else {
        darkClass := false;
      }
    }

    /** The scroll handler, for a scroll event at offset `y`. */
    method OnScroll(y: nat)
      modifies this
      ensures ScrollView() == Step(old(ScrollView()), y)
      ensures top <==> y <= TopBand
      ensures lastScrollY == y
      ensures DarkView() == old(DarkView()) && searching == old(searching)
    {
      top := y <= TopBand;
      if y <= TopBand {
        visible := true;
      } else {
        if y < lastScrollY {
          visible := true;
        } else if y > lastScrollY {
          visible := false;
        }
      }
      lastScrollY := y;
    }

    /** A click on the search button: it opens the overlay; while the overlay is open the
        button is disabled and the click does nothing. */
    method ClickSearch()
      modifies this
      ensures searching  // so a click while open leaves the flag as it was
      ensures ScrollView() == old(ScrollView()) && DarkView() == old(DarkView())
    {
      if !searching {
        searching := !searching;
      }
    }

    /** The setter handed to the search overlay, which uses it to close itself. */
    method SetSearching(open: bool)
      modifies this
      ensures searching == open
      ensures ScrollView() == old(ScrollView()) && DarkView() == old(DarkView())
    {
      searching := open;
    }
  }

  /** A series of scroll events delivered one after another: the header ends in the state
      `Run` gives for those offsets, and nothing but the scroll state changes. */
  method HandleScrolls(h: Header, ys: seq<nat>)
    modifies h
    ensures h.ScrollView() == Run(old(h.ScrollView()), ys)
    ensures h.DarkView() == old(h.DarkView()) && h.searching == old(h.searching)
  {
    for i := 0 to |ys|
      invariant h.ScrollView() == Run(old(h.ScrollView()), ys[..i])
      invariant h.DarkView() == old(h.DarkView()) && h.searching == old(h.searching)
    {
      h.OnScroll(ys[i]);
      RunSnoc(old(h.ScrollView()), ys[..i], ys[i]);
      assert ys[..i] + [ys[i]] == ys[..i + 1];
    }
    assert ys[..|ys|] == ys;
  }

  /** Offsets 0, 5, 50, 40, 90 delivered to a freshly rendered header: near the top for
      the first two, hidden scrolling down to 50, shown scrolling up to 40, hidden at 90. */
  method ScrollScenario() returns (tops: seq<bool>, shown: seq<bool>)
    ensures tops == [true, true, false, false, false]
    ensures shown == [true, true, false, true, false]
  {
    var h := new Header(map[], false);
    h.OnScroll(0);
    tops, shown := [h.top], [h.visible];
    h.OnScroll(5);
    tops, shown := tops + [h.top], shown + [h.visible];
    h.OnScroll(50);
    tops, shown := tops + [h.top], shown + [h.visible];
    h.OnScroll(40);
    tops, shown := tops + [h.top], shown + [h.visible];
    h.OnScroll(90);
    tops, shown := tops + [h.top], shown + [h.visible];
  }

  /** A first visit with nothing stored: mounting leaves dark mode off and the class absent;
      one toggle stores "true" and adds the class; a second restores both the flag and the
      class and stores "false". */
  method DarkModeScenario() returns (afterMount: bool, afterToggle: DarkState, afterSecond: DarkState)
    ensures !afterMount
    ensures afterToggle == DarkState(true, map[DarkKey := "true"], true)
    ensures afterSecond == DarkState(false, map[DarkKey := "false"], false)
  {
    var h := new Header(map[], false);
    h.Mount();
    afterMount := h.darkClass || h.darkMode;
    h.ToggleDarkMode();
    afterToggle := h.DarkView();
    h.ToggleDarkMode();
    afterSecond := h.DarkView();
  }

  /** A click on the search button opens the overlay; a second click, while it is open,
      changes nothing; closing it from the overlay clears the flag. */
  method SearchScenario() returns (afterClick: bool, afterSecond: bool, afterClose: bool)
    ensures afterClick && afterSecond && !afterClose
  {
    var h := new Header(map[], false);
    h.ClickSearch();
    afterClick := h.searching;
    h.ClickSearch();
    afterSecond := h.searching;
    h.SetSearching(false);
    afterClose := h.searching;
  }
}
