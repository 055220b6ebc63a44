/** The header's scroll-visibility state machine (components/misc/header.tsx, scrollHandler).
    Every scroll event delivers the page's vertical offset; the handler derives whether the
    page is near the top (which drives the backdrop blur) and whether the header is shown. */
module Scroll {

  /** Offsets up to and including this value count as "near the top". */
  const TopBand: nat := 10

  /** The three pieces of state the scroll handler reads and writes. */
  datatype ScrollState = ScrollState(top: bool, visible: bool, lastScrollY: nat)

  /** The state before any scroll event: at the top, shown, offset 0. */
  function Initial(): (s: ScrollState)
    ensures s.top && s.visible && s.lastScrollY == 0
  {
    ScrollState(true, true, 0)
  }

  /** One scroll event at offset `y`, seen against the latest committed state `s`. */
  function Step(s: ScrollState, y: nat): (r: ScrollState)
    ensures r.top <==> y <= TopBand
    ensures r.lastScrollY == y
    ensures y <= TopBand ==> r.visible
    ensures y > TopBand && y < s.lastScrollY ==> r.visible
    ensures y > TopBand && y > s.lastScrollY ==> !r.visible
    ensures y > TopBand && y == s.lastScrollY ==> r.visible == s.visible
  {
    var visible :=
      if y <= TopBand then true
      else if y < s.lastScrollY then true
      else if y > s.lastScrollY then false
      else s.visible;
    ScrollState(y <= TopBand, visible, y)
  }

  /** The state after the scroll events `ys`, in order. */
  function Run(s: ScrollState, ys: seq<nat>): (r: ScrollState)
    ensures r.lastScrollY == if ys == [] then s.lastScrollY else ys[|ys| - 1]
    decreases |ys|
  {
    if ys == [] then s else Run(Step(s, ys[0]), ys[1..])
  }

  /** The state after each of the scroll events `ys`, one entry per event. */
  function Trace(s: ScrollState, ys: seq<nat>): (t: seq<ScrollState>)
    ensures |t| == |ys|
    decreases |ys|
  {
    if ys == [] then [] else [Step(s, ys[0])] + Trace(Step(s, ys[0]), ys[1..])
  }

  /** The offset event `i` of `ys` is compared against: the starting offset for the
      first event, the previous event's offset otherwise. */
  function Prev(s: ScrollState, ys: seq<nat>, i: nat): nat
    requires i < |ys|
  {
    if i == 0 then s.lastScrollY else ys[i - 1]
  }

  /** An event is decisive when it fixes `visible` regardless of the previous value:
      it lies in the top band or differs from the offset before it. */
  predicate Decisive(prev: nat, y: nat)
  {
    y <= TopBand || y != prev
  }

  /** What a decisive event sets `visible` to: shown near the top or when scrolling up. */
  predicate Verdict(prev: nat, y: nat)
  {
    y <= TopBand || y < prev
  }

  /** After any non-empty run, `top` says whether the LAST offset is near the top and
      `lastScrollY` is that offset. */
  lemma {:induction false} RunEndsAtLast(s: ScrollState, ys: seq<nat>)
    requires ys != []
    ensures Run(s, ys).top <==> ys[|ys| - 1] <= TopBand
    ensures Run(s, ys).lastScrollY == ys[|ys| - 1]
    decreases |ys|
  {
    if |ys| > 1 {
      RunEndsAtLast(Step(s, ys[0]), ys[1..]);
    }
  }

  /** A run with no decisive event leaves `visible` as it was. */
  lemma {:induction false} RunQuiet(s: ScrollState, ys: seq<nat>)
    requires forall j :: 0 <= j < |ys| ==> !Decisive(Prev(s, ys, j), ys[j])
    ensures Run(s, ys).visible == s.visible
    decreases |ys|
  {
    if ys != [] {
      var t := Step(s, ys[0]);
      assert !Decisive(Prev(s, ys, 0), ys[0]);
      forall j | 0 <= j < |ys[1..]|
        ensures !Decisive(Prev(t, ys[1..], j), ys[1..][j])
      {
        assert Prev(t, ys[1..], j) == Prev(s, ys, j + 1);
        assert !Decisive(Prev(s, ys, j + 1), ys[j + 1]);
      }
      RunQuiet(t, ys[1..]);
    }
  }

  /** After a run, `visible` is the verdict of the last decisive event: every later event
      repeats the offset before it above the top band and so leaves `visible` alone. */
  lemma {:induction false} RunVisibleLastDecisive(s: ScrollState, ys: seq<nat>, i: nat)
    requires i < |ys|
    requires Decisive(Prev(s, ys, i), ys[i])
    requires forall j :: i < j < |ys| ==> !Decisive(ys[j - 1], ys[j])
    ensures Run(s, ys).visible == Verdict(Prev(s, ys, i), ys[i])
    decreases |ys|
  {
    var t := Step(s, ys[0]);
    var rest := ys[1..];
    if i == 0 {
      forall j | 0 <= j < |rest|
        ensures !Decisive(Prev(t, rest, j), rest[j])
      {
        assert Prev(t, rest, j) == ys[j];
        assert !Decisive(ys[j + 1 - 1], ys[j + 1]);
      }
      RunQuiet(t, rest);
    } else {
      assert Prev(t, rest, i - 1) == Prev(s, ys, i);
      forall j | i - 1 < j < |rest|
        ensures !Decisive(rest[j - 1], rest[j])
      {
        assert !Decisive(ys[j + 1 - 1], ys[j + 1]);
      }
      RunVisibleLastDecisive(t, rest, i - 1);
    }
  }

  /** One more event after a run is one more step. */
  lemma {:induction false} RunSnoc(s: ScrollState, ys: seq<nat>, y: nat)
    ensures Run(s, ys + [y]) == Step(Run(s, ys), y)
    decreases |ys|
  {
    if ys == [] {
      assert Run(s, [y]) == Run(Step(s, y), []);
    } else {
      assert (ys + [y])[1..] == ys[1..] + [y];
      RunSnoc(Step(s, ys[0]), ys[1..], y);
    }
  }

  /** Entry `i` of the trace is the state after the first `i + 1` events. */
  lemma {:induction false} TraceAt(s: ScrollState, ys: seq<nat>, i: nat)
    requires i < |ys|
    ensures Trace(s, ys)[i] == Run(s, ys[..i + 1])
    decreases |ys|
  {
    var t := Step(s, ys[0]);
    assert ys[..i + 1][0] == ys[0];
    assert ys[..i + 1][1..] == ys[1..][..i];
    if i > 0 {
      TraceAt(t, ys[1..], i - 1);
    } else {
      assert ys[1..][..0] == [];
    }
  }

  /** Offsets 0, 5, 50, 40, 90 from the initial state: near the top for the first two,
      hidden when scrolling down to 50, shown when scrolling up to 40, hidden at 90. */
  lemma Scenario()
    ensures var t := Trace(Initial(), [0, 5, 50, 40, 90]);
      [t[0].top, t[1].top, t[2].top, t[3].top, t[4].top] == [true, true, false, false, false] &&
      [t[0].visible, t[1].visible, t[2].visible, t[3].visible, t[4].visible] == [true, true, false, true, false]
  {
  }
}
