/** The header's dark-mode preference (components/misc/header.tsx, the mount effect and
    toggleDarkMode). The preference lives in three places: the in-memory flag, the string
    persisted in the browser's local storage under `darkMode`, and the `dark` class on the
    document's root element. Local storage is a string-to-string map; the class list is
    reduced to whether it holds `dark`. */
module DarkMode {

  /** The local-storage key the preference is persisted under. */
  const DarkKey: string := "darkMode"

  /** How a boolean is persisted: JavaScript's `toString` of a boolean. */
  function Encode(b: bool): (s: string)
    ensures s == "true" <==> b
    ensures s == "false" <==> !b
  {
    if b then "true" else "false"
  }

  /** How the preference is read back: true exactly when the stored value is the string
      that `Encode(true)` writes; an absent key or any other string reads as false. */
  function Decode(storage: map<string, string>): (b: bool)
    ensures b <==> DarkKey in storage && storage[DarkKey] == Encode(true)
  {
    DarkKey in storage && storage[DarkKey] == "true"
  }

  /** The in-memory flag, local storage and whether the root carries the `dark` class. */
  datatype DarkState = DarkState(darkMode: bool, storage: map<string, string>, darkClass: bool)

  /** The `dark` class matches the in-memory flag. */
  predicate Applied(d: DarkState)
  {
    d.darkClass == d.darkMode
  }

  /** Local storage holds exactly the encoding of the in-memory flag. */
  predicate Persisted(d: DarkState)
  {
    DarkKey in d.storage && d.storage[DarkKey] == Encode(d.darkMode)
  }

  /** Storage and class list both agree with the in-memory flag. */
  predicate Consistent(d: DarkState)
  {
    Applied(d) && Persisted(d)
  }

  /** The mount effect: decode the stored preference into the flag and add `dark` when it
      is true. It never removes the class and never writes storage. */
  function Mount(d: DarkState): (r: DarkState)
    ensures r.darkMode <==> DarkKey in d.storage && d.storage[DarkKey] == "true"
    ensures r.storage == d.storage
    ensures r.darkMode ==> r.darkClass
    ensures !r.darkMode ==> r.darkClass == d.darkClass
  {
    var mode := Decode(d.storage);
    DarkState(mode, d.storage, if mode then true else d.darkClass)
  }

  /** toggleDarkMode: flip the flag, persist the new value and set the class to match.
      No other storage key is touched. */
  function Toggle(d: DarkState): (r: DarkState)
    ensures r.darkMode == !d.darkMode
    ensures Consistent(r)
    ensures r.storage.Keys == d.storage.Keys + {DarkKey}
    ensures forall k :: k in d.storage && k != DarkKey ==> r.storage[k] == d.storage[k]
  {
    var newMode := !d.darkMode;
    DarkState(newMode, d.storage[DarkKey := Encode(newMode)], newMode)
  }

  /** Decoding what was stored for `b` gives back `b`, whatever else storage holds. */
  lemma DecodeEncode(storage: map<string, string>, b: bool)
    ensures Decode(storage[DarkKey := Encode(b)]) == b
  {
  }

  /** Conversely, a stored `"true"` or `"false"` is what encoding its decoding writes. */
  lemma EncodeDecode(storage: map<string, string>)
    requires DarkKey in storage && storage[DarkKey] in {"true", "false"}
    ensures Encode(Decode(storage)) == storage[DarkKey]
  {
  }

  /** A fresh mount after a toggle reads back the flag the toggle set, and, starting from a
      root without `dark`, leaves the class consistent with it. */
  lemma MountAfterToggle(d: DarkState, classOnLoad: bool)
    ensures Mount(DarkState(false, Toggle(d).storage, classOnLoad)).darkMode == Toggle(d).darkMode
    ensures !classOnLoad ==> Consistent(Mount(DarkState(false, Toggle(d).storage, classOnLoad)))
  {
  }

  /** Mounting with nothing stored leaves the flag false and does not add `dark`. */
  lemma MountNothingStored(classOnLoad: bool)
    ensures Mount(DarkState(false, map[], classOnLoad)) == DarkState(false, map[], classOnLoad)
  {
  }

  /** Mounting on a root without `dark` leaves the class matching the decoded flag. */
  lemma MountApplies(d: DarkState)
    requires !d.darkClass
    ensures Applied(Mount(d))
    ensures Decode(Mount(d).storage) == Mount(d).darkMode
  {
  }

  /** Toggling twice restores the flag and the class; it restores the whole state exactly
      when storage and class already agreed with the flag. */
  lemma ToggleTwice(d: DarkState)
    ensures Toggle(Toggle(d)).darkMode == d.darkMode
    ensures Toggle(Toggle(d)).storage == d.storage[DarkKey := Encode(d.darkMode)]
    ensures Toggle(Toggle(d)) == d <==> Consistent(d)
  {
  }

  /** Once one toggle has written the preference, toggling twice more changes nothing. */
  lemma ToggleTwiceAfterToggle(d: DarkState)
    ensures Toggle(Toggle(Toggle(d))) == Toggle(d)
  {
  }
}
