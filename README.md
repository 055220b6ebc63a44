# Header state of a personal blog front-end, in Dafny

The site's `Header` component holds the only behaviour among the files modelled here; the `Search` overlay's own logic is left out. It keeps three
pieces of state, and this project models each one:

- **Scroll visibility** (module `Scroll`, `scroll.dfy`). Each scroll event gives a new offset.
  `top` becomes "offset ≤ 10". Near the top the header is always shown. Above the top band it
  is shown when scrolling up and hidden when scrolling down. An unchanged offset leaves it as
  it was. `lastScrollY` always becomes the new offset. `Step` is one event, `Run` is a
  sequence of events and `Trace` records the state after each event. The lemmas describe
  what a whole sequence of events leaves behind.
- **Dark-mode preference** (module `DarkMode`, `dark_mode.dfy`). The preference is persisted
  in local storage under the key `darkMode`, which is modelled as a `map<string, string>`.
  The `dark` class on the document root is modelled as a boolean. `Encode`/`Decode` are the
  string form (`toString` and `=== 'true'`). `Mount` is the mount effect and `Toggle` is the
  toggle button's handler. The lemmas cover the round trip, the consistency a toggle
  establishes, and toggling twice.
- **Search trigger and the component itself** (module `HeaderComponent`, `header.dfy`). The
  class `Header` has one field per state hook, plus the storage map and the class flag. Its
  methods are the handlers, and each one's new state is given by the pure definitions above.
  The search button opens the overlay and is disabled while the overlay is open. The overlay
  closes itself through the setter it is handed. `HandleScrolls` delivers a series of scroll events to
  the class and ends in the state `Run` gives. Three client methods replay three example
  scenarios against the class.

## Model

| member | source | states |
|---|---|---|
| Scroll.Initial | components/misc/header.tsx:6-8 | before any scroll the header is at the top, shown, with offset 0 |
| Scroll.Step | components/misc/header.tsx:34-53 | one scroll event: `top` iff offset ≤ 10; shown near the top whatever came before; above it shown when the offset fell, hidden when it rose, unchanged when equal; the offset is recorded |
| Scroll.Run | components/misc/header.tsx:34-53 | the state after the offsets ys, each handled in order from s; the recorded offset is the latest one |
| Scroll.Trace | components/misc/header.tsx:34-53 | one recorded state per scroll event |
| Scroll.RunEndsAtLast | components/misc/header.tsx:38-52 | after any non-empty sequence of events, `top` holds iff the last offset is ≤ 10, and `lastScrollY` is the last offset |
| Scroll.RunQuiet | components/misc/header.tsx:43-50 | events that repeat the previous offset above the top band never change `visible` |
| Scroll.RunVisibleLastDecisive | components/misc/header.tsx:41-50 | after any sequence of events, `visible` is decided by the last event that was near the top or changed the offset: shown iff that event was near the top or scrolled up |
| Scroll.RunSnoc | components/misc/header.tsx:33-57 | each event is applied to the state left by all earlier events |
| Scroll.TraceAt | components/misc/header.tsx:34-53 | the state recorded for event i is the state after the first i+1 events |
| Scroll.Scenario | components/misc/header.tsx:34-53 | offsets 0, 5, 50, 40, 90 give `top` T,T,F,F,F and `visible` T,T,F,T,F |
| DarkMode.Encode | components/misc/header.tsx:25 | a boolean is stored as `"true"` or `"false"`, and the two are distinct |
| DarkMode.Decode | components/misc/header.tsx:14 | the stored preference reads as true exactly when the key is present and holds `"true"`; absent or any other string reads as false |
| DarkMode.Mount | components/misc/header.tsx:13-19 | mounting decodes storage into the flag, adds `dark` only when the flag is true, never removes it, and never writes storage |
| DarkMode.Toggle | components/misc/header.tsx:22-31 | the flag is negated, storage then holds the encoding of the new flag, the class matches it, and no other key changes |
| DarkMode.DecodeEncode | components/misc/header.tsx:14-25 | decoding what was stored for a boolean gives that boolean back |
| DarkMode.EncodeDecode | components/misc/header.tsx:14-25 | a stored `"true"` or `"false"` is exactly what encoding its decoding writes |
| DarkMode.MountAfterToggle | components/misc/header.tsx:13-31 | a fresh mount after a toggle reads back the flag the toggle set and, on a root without `dark`, is consistent with it |
| DarkMode.MountNothingStored | components/misc/header.tsx:14-18 | with nothing stored, mounting leaves the flag false and adds no class |
| DarkMode.MountApplies | components/misc/header.tsx:14-18 | mounting on a root without `dark` leaves the class matching the decoded flag |
| DarkMode.ToggleTwice | components/misc/header.tsx:22-30 | toggling twice restores the flag and the class, stores the original flag's encoding, and restores the whole state iff storage and class already agreed with the flag |
| DarkMode.ToggleTwiceAfterToggle | components/misc/header.tsx:22-30 | once a toggle has written the preference, two more toggles change nothing |
| HeaderComponent.Header.constructor | components/misc/header.tsx:6-10 | initial hooks: `top`, `visible` true, `lastScrollY` 0, `searching`, `darkMode` false; browser state as found |
| HeaderComponent.Header.Mount | components/misc/header.tsx:13-19 | the mount effect performs `DarkMode.Mount` on the component and leaves scroll and search state alone |
| HeaderComponent.Header.ToggleDarkMode | components/misc/header.tsx:22-31 | the toggle handler performs `DarkMode.Toggle`, leaves flag, storage and class consistent, and leaves scroll and search state alone |
| HeaderComponent.Header.OnScroll | components/misc/header.tsx:34-53 | the scroll handler performs `Scroll.Step` and leaves dark-mode and search state alone |
| HeaderComponent.Header.ClickSearch | components/misc/header.tsx:105-109 | a click opens the search overlay; while open the button is disabled and nothing changes; scroll and dark-mode state are untouched |
| HeaderComponent.Header.SetSearching | components/misc/header.tsx:122 | the setter handed to the overlay sets `searching` and nothing else |
| HeaderComponent.HandleScrolls | components/misc/header.tsx:33-57 | a series of scroll events leaves the header in the state `Scroll.Run` gives for those offsets, and changes nothing else |
| HeaderComponent.ScrollScenario | components/misc/header.tsx:34-53 | the handler, given offsets 0, 5, 50, 40, 90 on a fresh header, shows `top` T,T,F,F,F and `visible` T,T,F,T,F |
| HeaderComponent.DarkModeScenario | components/misc/header.tsx:13-31 | fresh mount with nothing stored: flag and class off; a toggle stores `"true"` and adds `dark`; a second stores `"false"` and removes it |
| HeaderComponent.SearchScenario | components/misc/header.tsx:105-122 | a click opens search, a second click while open changes nothing, the overlay's setter closes it |

## Left out

- Markup, icons, CSS classes, the logo image and the `Link` element (components/misc/header.tsx:59-126) are presentation with no logic. The model keeps only the state they read (`top`, `visible`, `darkMode`, `searching`).
- The `Search` component (`./search`) is not part of this model. Its only effect on the header, closing the overlay, is modelled as a call to `Header.SetSearching`.
- Registering and removing the scroll listener, and React's re-render timing (components/misc/header.tsx:55-57), are not modelled. Each scroll event is assumed to see the latest committed `lastScrollY`. The state updates of one handler are applied together, as they would be in one commit.
- The scroll offset is modelled as a non-negative integer. Browsers can report a fractional `window.pageYOffset`, and floating point is not modelled.
- `localStorage` and `document.documentElement.classList` are a map and a boolean field. Other classes on the root are not modelled. Storage read and write failures, which the code does not handle, are not modelled: `DarkMode.Decode` and `Mount` assume the read succeeds.
- The SEO configuration (`next-seo.config.ts`) and the footer (`components/misc/footer.tsx`) are literal data and static markup with no behaviour.
