/**
 * Menu buttons: the button record, the hover-sound guard that every hover-aware
 * view runs per button and per frame, and the vertical layout every view's
 * `render` applies to its button list.
 */
module Buttons {
  import opened Wrappers
  import opened JavaLang
  import opened Lists
  import Audio

  /**
   * A button. A view's button either names a numeric state to go to (`goState`)
   * or a view to activate (`targetView`), depending on the engine variant.
   */
  class Button {
    const text: string
    const goState: int
    const targetView: string
    const height: int
    var hover: bool
    var hoverSounded: bool
    var offX: int
    var offY: int

    constructor WithState(text: string, goState: int, height: int)
      ensures this.text == text && this.goState == goState && this.height == height
      ensures !hover && !hoverSounded
    {
      this.text := text;
      this.goState := goState;
      this.targetView := "";
      this.height := height;
      hover, hoverSounded := false, false;
    }

    constructor WithView(text: string, targetView: string, height: int)
      ensures this.text == text && this.targetView == targetView && this.height == height
      ensures !hover && !hoverSounded
    {
      this.text := text;
      this.goState := 0;
      this.targetView := targetView;
      this.height := height;
      hover, hoverSounded := false, false;
    }

    method SetOffX(x: int)
      modifies this`offX
      ensures offX == x
    {
      offX := x;
    }

    method SetOffY(y: int)
      modifies this`offY
      ensures offY == y
    {
      offY := y;
    }

    /** Records whether the pointer is over the button and hands the same value back. */
    method SetHover(h: bool) returns (r: bool)
      modifies this`hover
      ensures hover == h && r == h
    {
      hover := h;
      r := h;
    }
  }

  // ---------------------------------------------------------------------------
  // Hover-sound guard

  /** Whether the guard asks the hover clip to play, given the button's previous guard flag. */
  function HoverRequest(sounded: bool, hovered: bool, clipRunning: bool): bool {
    hovered && !sounded && !clipRunning
  }

  /**
   * One frame of the guard for one button: the hover flag follows the pointer, the
   * guard flag is set while hovered and cleared otherwise, and one play request is
   * made only on a frame where the button is hovered, was not already sounded and
   * the clip is not running.
   */
  method GuardHover(btn: Button, hovered: bool, clipRunning: bool, clip: Audio.SoundClip)
    modifies btn`hover, btn`hoverSounded, clip`plays
    ensures btn.hover == hovered && btn.hoverSounded == hovered
    ensures clip.plays == old(clip.plays) + if HoverRequest(old(btn.hoverSounded), hovered, clipRunning) then 1 else 0
  {
    var h := btn.SetHover(hovered);
    if h {
      if !btn.hoverSounded {
        if !clipRunning {
          clip.Play();
        }
        btn.hoverSounded := true;
      }
    } else {
      btn.hoverSounded := false;
    }
  }

  /** One button across consecutive frames: the pointer test and the clip's running state. */
  datatype HoverFrame = HoverFrame(hovered: bool, clipRunning: bool)

  /** The play requests the guard makes over a run of frames, starting from guard flag `sounded`. */
  function HoverRequests(sounded: bool, frames: seq<HoverFrame>): nat
    decreases |frames|
  {
    if |frames| == 0 then 0
    else
      (if HoverRequest(sounded, frames[0].hovered, frames[0].clipRunning) then 1 else 0)
      + HoverRequests(frames[0].hovered, frames[1..])
  }

  /** The number of frames on which the pointer enters the button. */
  function HoverEntries(wasHovered: bool, frames: seq<HoverFrame>): nat
    decreases |frames|
  {
    if |frames| == 0 then 0
    else
      (if frames[0].hovered && !wasHovered then 1 else 0)
      + HoverEntries(frames[0].hovered, frames[1..])
  }

  /** At most one hover request per continuous hover span. */
  lemma {:induction false} HoverRequestsAtMostEntries(sounded: bool, frames: seq<HoverFrame>)
    decreases |frames|
    ensures HoverRequests(sounded, frames) <= HoverEntries(sounded, frames)
  {
    if |frames| > 0 {
      HoverRequestsAtMostEntries(frames[0].hovered, frames[1..]);
    }
  }

  /** When the clip is never found running, every entry gets exactly one request. */
  lemma {:induction false} HoverRequestsWhenQuiet(sounded: bool, frames: seq<HoverFrame>)
    decreases |frames|
    requires forall k :: 0 <= k < |frames| ==> !frames[k].clipRunning
    ensures HoverRequests(sounded, frames) == HoverEntries(sounded, frames)
  {
    if |frames| > 0 {
      HoverRequestsWhenQuiet(frames[0].hovered, frames[1..]);
    }
  }

  /**
   * While the pointer stays on the button, at most one request is made, and none if
   * the guard had already fired before the span started.
   */
  lemma {:induction false} HoverSpanRequests(sounded: bool, frames: seq<HoverFrame>)
    decreases |frames|
    requires forall k :: 0 <= k < |frames| ==> frames[k].hovered
    ensures HoverRequests(sounded, frames) <= if sounded then 0 else 1
  {
    if |frames| > 0 {
      HoverSpanRequests(true, frames[1..]);
    }
  }

  /** Leaving the button resets the guard, so coming back with a quiet clip asks once more. */
  lemma HoverReEntry(sounded: bool, running: bool, rest: seq<HoverFrame>)
    ensures HoverRequests(sounded, [HoverFrame(false, running), HoverFrame(true, false)] + rest)
         == 1 + HoverRequests(true, rest)
  {
    var fs := [HoverFrame(false, running), HoverFrame(true, false)] + rest;
    assert fs[1..] == [HoverFrame(true, false)] + rest;
    assert fs[1..][1..] == rest;
  }

  /** The guard flags of a list of buttons, in list order. */
  ghost function SoundedOf(bs: seq<Button>): (r: seq<bool>)
    reads set b | b in bs
    ensures |r| == |bs|
    ensures forall k :: 0 <= k < |bs| ==> r[k] == bs[k].hoverSounded
  {
    if |bs| == 0 then [] else SoundedOf(bs[..|bs| - 1]) + [bs[|bs| - 1].hoverSounded]
  }

  /**
   * The hover play requests one frame of a view makes: one per button that is
   * hovered, was not sounded before the frame and finds the clip not running.
   */
  function FrameHoverRequests(sounded: seq<bool>, hovered: seq<bool>, running: seq<bool>): nat
    requires |sounded| == |hovered| == |running|
  {
    if |sounded| == 0 then 0
    else
      var n := |sounded| - 1;
      FrameHoverRequests(sounded[..n], hovered[..n], running[..n])
      + if HoverRequest(sounded[n], hovered[n], running[n]) then 1 else 0
  }

  /** Extending the handled prefix by one button adds that button's request. */
  lemma FrameHoverRequestsStep(sounded: seq<bool>, hovered: seq<bool>, running: seq<bool>, k: nat)
    requires |sounded| == |hovered| == |running| && k < |sounded|
    ensures FrameHoverRequests(sounded[..k + 1], hovered[..k + 1], running[..k + 1])
         == FrameHoverRequests(sounded[..k], hovered[..k], running[..k])
            + if HoverRequest(sounded[k], hovered[k], running[k]) then 1 else 0
  {
    assert sounded[..k + 1][..k] == sounded[..k];
    assert hovered[..k + 1][..k] == hovered[..k];
    assert running[..k + 1][..k] == running[..k];
  }

  /** A frame never asks for more hover plays than there are hovered buttons that were not sounded. */
  lemma {:induction false} FrameHoverRequestsBound(sounded: seq<bool>, hovered: seq<bool>, running: seq<bool>)
    requires |sounded| == |hovered| == |running|
    ensures FrameHoverRequests(sounded, hovered, running) <= |sounded|
    ensures (forall k :: 0 <= k < |sounded| ==> sounded[k] || !hovered[k])
        ==> FrameHoverRequests(sounded, hovered, running) == 0
  {
    if |sounded| > 0 {
      var n := |sounded| - 1;
      FrameHoverRequestsBound(sounded[..n], hovered[..n], running[..n]);
    }
  }

  // ---------------------------------------------------------------------------
  // Selections in one frame

  /** How many buttons were selected. */
  function SelectedCount(sel: seq<bool>): nat {
    if |sel| == 0 then 0
    else SelectedCount(sel[..|sel| - 1]) + if sel[|sel| - 1] then 1 else 0
  }

  /** The last selected button in list order; a view's later selection overrides earlier ones. */
  function LastSelected(sel: seq<bool>): (r: Option<nat>)
    ensures r.None? <==> forall k :: 0 <= k < |sel| ==> !sel[k]
    ensures r.Some? ==> r.value < |sel| && sel[r.value]
    ensures r.Some? ==> forall k :: r.value < k < |sel| ==> !sel[k]
  {
    if |sel| == 0 then None
    else if sel[|sel| - 1] then Some(|sel| - 1)
    else LastSelected(sel[..|sel| - 1])
  }

  /** Nothing selected, nothing counted; otherwise at least the last selection counts. */
  lemma {:induction false} SelectedCountPositive(sel: seq<bool>)
    ensures SelectedCount(sel) == 0 <==> LastSelected(sel).None?
    ensures SelectedCount(sel) <= |sel|
  {
    if |sel| > 0 {
      SelectedCountPositive(sel[..|sel| - 1]);
    }
  }

  // ---------------------------------------------------------------------------
  // Layout

  /** The vertical space the buttons take: each one's height plus a 5-pixel gap. */
  function Span(bs: seq<Button>): int {
    if |bs| == 0 then 0 else Span(bs[..|bs| - 1]) + bs[|bs| - 1].height + 5
  }

  /**
   * The layout loop of every view's `render`: all buttons are centred on one column
   * 85 pixels left of the middle, and button k starts a quarter of the way down plus
   * the heights and gaps of the buttons above it, whatever its offsets were before.
   */
  method LayOut(buttons: seq<Button>, width: int, height: int)
    requires Distinct(buttons)
    modifies set b | b in buttons
    ensures forall b :: b in buttons ==> b.hover == old(b.hover) && b.hoverSounded == old(b.hoverSounded)
    ensures forall k :: 0 <= k < |buttons| ==>
      buttons[k].offX == Div(width, 2) - 85 && buttons[k].offY == Div(height, 4) + Span(buttons[..k])
  {
    var startY := Div(height, 4);
    for k := 0 to |buttons|
      invariant startY == Div(height, 4) + Span(buttons[..k])
      invariant forall b :: b in buttons ==> b.hover == old(b.hover) && b.hoverSounded == old(b.hoverSounded)
      invariant Placed(buttons, k, Div(width, 2) - 85, Div(height, 4))
    {
      var btn := buttons[k];
      PlaceButton(buttons, k, btn, Div(width, 2) - 85, Div(height, 4), startY);
      startY := startY + btn.height + 5;
      assert buttons[..k + 1][..k] == buttons[..k];
    }
  }

  /** The first k buttons sit in the column x, each below the ones before it, starting at y0. */
  ghost predicate Placed(bs: seq<Button>, k: nat, x: int, y0: int)
    requires k <= |bs|
    reads set b | b in bs
  {
    forall j :: 0 <= j < k ==> bs[j].offX == x && bs[j].offY == y0 + Span(bs[..j])
  }

  /** One turn of the layout loop: button k moves to (x, y), the ones above it stay. */
  method PlaceButton(bs: seq<Button>, k: nat, btn: Button, x: int, y0: int, y: int)
    requires Distinct(bs) && k < |bs| && btn == bs[k] && Placed(bs, k, x, y0) && y == y0 + Span(bs[..k])
    modifies btn`offX, btn`offY
    ensures Placed(bs, k + 1, x, y0)
  {
    btn.SetOffX(x);
    btn.SetOffY(y);
    assert bs[..k + 1][..k] == bs[..k];
  }

  /** Buttons of non-negative height never overlap: each starts 5 pixels below the previous one's end. */
  lemma {:induction false} LayoutGap(bs: seq<Button>, j: nat, k: nat)
    requires j < k <= |bs|
    requires forall i :: 0 <= i < |bs| ==> bs[i].height >= 0
    ensures Span(bs[..k]) >= Span(bs[..j]) + bs[j].height + 5
  {
    if k == j + 1 {
      assert bs[..k][..j] == bs[..j];
    } else {
      LayoutGap(bs, j, k - 1);
      assert bs[..k][..k - 1] == bs[..k - 1];
    }
  }

  /** With buttons of one height h, button k starts k * (h + 5) below the first. */
  lemma {:induction false} UniformSpan(bs: seq<Button>, h: int, k: nat)
    requires k <= |bs|
    requires forall i :: 0 <= i < |bs| ==> bs[i].height == h
    ensures Span(bs[..k]) == k * (h + 5)
  {
    if k > 0 {
      UniformSpan(bs, h, k - 1);
      assert bs[..k][..k - 1] == bs[..k - 1];
    }
  }
}
