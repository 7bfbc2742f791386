/**
 * The pause overlay of the level editor in the Crusade of Ages engine: four buttons
 * that go back to the test run, save the edited level, drop the changes or return
 * to editing. A frame of `update` handles Escape, then walks the buttons in order,
 * applying each selected button's effect and running the hover-sound guard.
 */
module PausedEditView {
  import opened Wrappers
  import opened Lists
  import opened Buttons
  import Audio
  import Container

  /** The button table, in list (and layout) order. */
  const Labels: seq<string> := ["Try", "Save", "Cancel", "Back"]
  const Targets: seq<string> := ["edit", "creativeMode", "creativeMode", "edit"]

  /**
   * The editor state the buttons reach through static fields: whether the player
   * spawns in the edited level (`Editor.setSpawn`), the creative-mode one-shot flag
   * (`CreativeMode.once`) and how many times the edited image has been saved.
   */
  class Editor {
    var spawn: bool
    var creativeOnce: bool
    var imageSaves: nat

    constructor (spawn: bool, creativeOnce: bool)
      ensures this.spawn == spawn && this.creativeOnce == creativeOnce && imageSaves == 0
    {
      this.spawn := spawn;
      this.creativeOnce := creativeOnce;
      imageSaves := 0;
    }
  }

  /** Everything a frame of the overlay changes apart from the buttons and the hover clip. */
  datatype EditState = EditState(
    actiView: string, prevView: string, spawn: bool, creativeOnce: bool, imageSaves: nat, clicks: nat)

  /** Escape asks for the editing view before any button is looked at. */
  function AfterEscape(s: EditState, escape: bool): EditState {
    if escape then s.(actiView := "edit") else s
  }

  /**
   * The effect of selecting a button: its label's side effect, one click, then its
   * target becomes the active view and, read back from there, the previous view.
   */
  function Select(s: EditState, text: string, target: string): EditState {
    var e :=
      match text
      case "Save" => s.(imageSaves := s.imageSaves + 1, creativeOnce := false, spawn := false)
      case "Try" => s.(spawn := true)
      case "Cancel" => s.(spawn := false)
      case _ => s;
    e.(clicks := e.clicks + 1, actiView := target, prevView := target)
  }

  /** The selections of one frame, applied in button order. */
  function AfterSelections(bs: seq<Button>, sel: seq<bool>, s: EditState): EditState
    requires |sel| == |bs|
  {
    if |bs| == 0 then s
    else
      var n := |bs| - 1;
      var p := AfterSelections(bs[..n], sel[..n], s);
      if sel[n] then Select(p, bs[n].text, bs[n].targetView) else p
  }

  /** Extending the handled prefix by one button applies that button's selection, if any. */
  lemma AfterSelectionsStep(bs: seq<Button>, sel: seq<bool>, s: EditState, k: nat)
    requires |sel| == |bs| && k < |bs|
    ensures AfterSelections(bs[..k + 1], sel[..k + 1], s)
         == var p := AfterSelections(bs[..k], sel[..k], s);
            if sel[k] then Select(p, bs[k].text, bs[k].targetView) else p
  {
    assert bs[..k + 1][..k] == bs[..k];
    assert sel[..k + 1][..k] == sel[..k];
  }

  /** How many of the selected buttons carry the label. */
  function SelectedWithLabel(bs: seq<Button>, sel: seq<bool>, text: string): nat
    requires |sel| == |bs|
  {
    if |bs| == 0 then 0
    else
      var n := |bs| - 1;
      SelectedWithLabel(bs[..n], sel[..n], text) + if sel[n] && bs[n].text == text then 1 else 0
  }

  /** The last selected button whose label is one of `labels`. */
  function LastSelectedAmong(bs: seq<Button>, sel: seq<bool>, labels: set<string>): (r: Option<nat>)
    requires |sel| == |bs|
    ensures r.None? <==> forall k :: 0 <= k < |bs| ==> !(sel[k] && bs[k].text in labels)
    ensures r.Some? ==> r.value < |bs| && sel[r.value] && bs[r.value].text in labels
    ensures r.Some? ==> forall k :: r.value < k < |bs| ==> !(sel[k] && bs[k].text in labels)
  {
    if |bs| == 0 then None
    else
      var n := |bs| - 1;
      if sel[n] && bs[n].text in labels then Some(n) else LastSelectedAmong(bs[..n], sel[..n], labels)
  }

  /**
   * The active view after a frame is the target of the last selected button, and the
   * previous view is the same target; with no selection both are as before.
   */
  lemma {:induction false} SelectionNavigation(bs: seq<Button>, sel: seq<bool>, s: EditState)
    requires |sel| == |bs|
    ensures var r := AfterSelections(bs, sel, s);
      match LastSelected(sel)
      case None => r.actiView == s.actiView && r.prevView == s.prevView
      case Some(k) => r.actiView == bs[k].targetView && r.prevView == bs[k].targetView
  {
    if |bs| > 0 {
      var n := |bs| - 1;
      SelectionNavigation(bs[..n], sel[..n], s);
    }
  }

  /** Each selection issues exactly one click request. */
  lemma {:induction false} SelectionClicks(bs: seq<Button>, sel: seq<bool>, s: EditState)
    requires |sel| == |bs|
    ensures AfterSelections(bs, sel, s).clicks == s.clicks + SelectedCount(sel)
  {
    if |bs| > 0 {
      var n := |bs| - 1;
      SelectionClicks(bs[..n], sel[..n], s);
    }
  }

  /**
   * Every "Save" selection saves the image once; the creative-mode flag ends up false
   * exactly when it was false already or "Save" was selected.
   */
  lemma {:induction false} SelectionSaves(bs: seq<Button>, sel: seq<bool>, s: EditState)
    requires |sel| == |bs|
    ensures var r := AfterSelections(bs, sel, s);
      r.imageSaves == s.imageSaves + SelectedWithLabel(bs, sel, "Save")
      && (r.creativeOnce <==> s.creativeOnce && SelectedWithLabel(bs, sel, "Save") == 0)
  {
    if |bs| > 0 {
      var n := |bs| - 1;
      SelectionSaves(bs[..n], sel[..n], s);
    }
  }

  /**
   * The spawn flag is decided by the last selected "Try", "Save" or "Cancel" button:
   * true for "Try", false for the other two; "Back" and unselected buttons leave it.
   */
  lemma {:induction false} SelectionSpawn(bs: seq<Button>, sel: seq<bool>, s: EditState)
    requires |sel| == |bs|
    ensures AfterSelections(bs, sel, s).spawn
         == match LastSelectedAmong(bs, sel, {"Try", "Save", "Cancel"})
            case None => s.spawn
            case Some(k) => bs[k].text == "Try"
  {
    if |bs| > 0 {
      var n := |bs| - 1;
      SelectionSpawn(bs[..n], sel[..n], s);
    }
  }

  /** Escape with no selection lands in the editing view; a selection in the same frame overrides it. */
  lemma EscapeThenSelections(bs: seq<Button>, sel: seq<bool>, s: EditState)
    requires |sel| == |bs|
    ensures LastSelected(sel).None? ==> AfterSelections(bs, sel, AfterEscape(s, true)).actiView == "edit"
    ensures LastSelected(sel).Some? ==>
      AfterSelections(bs, sel, AfterEscape(s, true)).actiView == bs[LastSelected(sel).value].targetView
  {
    SelectionNavigation(bs, sel, AfterEscape(s, true));
  }

  /** The overlay: its buttons, the hover clip and the click clip. */
  class PausedEdit {
    const buttons: seq<Button>
    const hover: Audio.SoundClip
    const click: Audio.SoundClip

    /** Four distinct buttons carrying the label and target table, and two distinct clips. */
    ghost predicate Valid() {
      |buttons| == |Labels| && Distinct(buttons) && hover != click
      && forall k :: 0 <= k < |Labels| ==> buttons[k].text == Labels[k] && buttons[k].targetView == Targets[k]
    }

    constructor (buttonHeight: int)
      ensures Valid() && fresh(hover) && fresh(click)
      ensures forall b :: b in buttons ==> fresh(b) && !b.hover && !b.hoverSounded && b.height == buttonHeight
    {
      var b0 := new Button.WithView("Try", "edit", buttonHeight);
      var b1 := new Button.WithView("Save", "creativeMode", buttonHeight);
      var b2 := new Button.WithView("Cancel", "creativeMode", buttonHeight);
      var b3 := new Button.WithView("Back", "edit", buttonHeight);
      buttons := [b0, b1, b2, b3];
      hover := new Audio.SoundClip();
      click := new Audio.SoundClip();
    }

    ghost function State(gc: Container.GameContainer, ed: Editor): EditState
      reads gc, ed, click
    {
      EditState(gc.actiView, gc.prevView, ed.spawn, ed.creativeOnce, ed.imageSaves, click.plays)
    }

    /**
     * The state of the button loop once the first k buttons are handled: the frame's
     * effects so far are those of the first k selections, those buttons' hover flags
     * follow the pointer, the others are as they were, and the hover clip has had the
     * requests of the first k buttons.
     */
    ghost predicate FrameAt(gc: Container.GameContainer, ed: Editor, k: nat,
                            selected: seq<bool>, hovered: seq<bool>, running: seq<bool>,
                            start: EditState, sounded: seq<bool>, plays0: nat)
      reads gc, ed, click, hover, set b | b in buttons
    {
      k <= |buttons| && |selected| == |hovered| == |running| == |sounded| == |buttons|
      && State(gc, ed) == AfterSelections(buttons[..k], selected[..k], start)
      && (forall j :: 0 <= j < k ==> buttons[j].hover == hovered[j] && buttons[j].hoverSounded == hovered[j])
      && (forall j :: k <= j < |buttons| ==> buttons[j].hoverSounded == sounded[j])
      && hover.plays == plays0 + FrameHoverRequests(sounded[..k], hovered[..k], running[..k])
    }

    /**
     * One frame of `update`. `selected`, `hovered` and `running` are what the view's
     * input tests report for each button and whether the hover clip was running.
     */
    method Update(gc: Container.GameContainer, ed: Editor, escape: bool,
                  selected: seq<bool>, hovered: seq<bool>, running: seq<bool>)
      requires Valid()
      requires |selected| == |hovered| == |running| == |buttons|
      modifies gc`actiView, gc`prevView, ed, click`plays, hover`plays
      modifies (set b | b in buttons)`hover, (set b | b in buttons)`hoverSounded
      ensures State(gc, ed) == AfterSelections(buttons, selected, AfterEscape(old(State(gc, ed)), escape))
      ensures forall k :: 0 <= k < |buttons| ==>
        buttons[k].hover == hovered[k] && buttons[k].hoverSounded == hovered[k]
      ensures hover.plays == old(hover.plays) + FrameHoverRequests(old(SoundedOf(buttons)), hovered, running)
    {
      if escape {
        gc.actiView := "edit";
      }
      ghost var start := State(gc, ed);
      ghost var sounded := SoundedOf(buttons);
      ghost var plays0 := hover.plays;
      for k := 0 to |buttons|
        invariant FrameAt(gc, ed, k, selected, hovered, running, start, sounded, plays0)
      {
        VisitButton(gc, ed, k, selected, hovered, running, start, sounded, plays0);
      }
      assert buttons[..|buttons|] == buttons;
      assert selected[..|buttons|] == selected;
      assert hovered[..|buttons|] == hovered;
      assert running[..|buttons|] == running;
      assert sounded[..|buttons|] == sounded;
    }

    /** The loop body for button k: its selection effect, then its hover guard. */
    method VisitButton(gc: Container.GameContainer, ed: Editor, k: nat,
                       selected: seq<bool>, hovered: seq<bool>, running: seq<bool>,
                       ghost start: EditState, ghost sounded: seq<bool>, ghost plays0: nat)
      requires Valid() && k < |buttons|
      requires FrameAt(gc, ed, k, selected, hovered, running, start, sounded, plays0)
      modifies gc`actiView, gc`prevView, ed, click`plays, hover`plays
      modifies (set b | b in buttons)`hover, (set b | b in buttons)`hoverSounded
      ensures FrameAt(gc, ed, k + 1, selected, hovered, running, start, sounded, plays0)
    {
      var btn := buttons[k];
      if selected[k] {
        Selected(gc, ed, btn);
      }
      GuardHover(btn, hovered[k], running[k], hover);
      AfterSelectionsStep(buttons, selected, start, k);
      FrameHoverRequestsStep(sounded, hovered, running, k);
      forall j | 0 <= j < |buttons| && j != k
        ensures buttons[j] != btn
      {
        assert Distinct(buttons);
      }
    }

    /** What selecting `btn` does: its label's side effect, the click, then the view change. */
    method Selected(gc: Container.GameContainer, ed: Editor, btn: Button)
      modifies gc`actiView, gc`prevView, ed, click`plays
      ensures State(gc, ed) == Select(old(State(gc, ed)), btn.text, btn.targetView)
    {
      match btn.text {
        case "Save" =>
          ed.imageSaves := ed.imageSaves + 1;
          ed.creativeOnce := false;
          ed.spawn := false;
        case "Try" => ed.spawn := true;
        case "Cancel" => ed.spawn := false;
        case _ =>
      }
      click.Play();
      gc.actiView := btn.targetView;
      gc.prevView := gc.actiView;
    }

    /** `render`'s layout loop over this overlay's buttons. */
    method Render(width: int, height: int)
      requires Valid()
      modifies set b | b in buttons
      ensures forall b :: b in buttons ==> b.hover == old(b.hover) && b.hoverSounded == old(b.hoverSounded)
      ensures forall k :: 0 <= k < |buttons| ==>
        buttons[k].offX == JavaLang.Div(width, 2) - 85
        && buttons[k].offY == JavaLang.Div(height, 4) + Span(buttons[..k])
    {
      LayOut(buttons, width, height);
    }
  }

  /** "Try" and "Back" lead back to editing, "Save" and "Cancel" to the creative-mode menu. */
  lemma TableTargets(p: PausedEdit, k: nat)
    requires p.Valid() && k < |p.buttons|
    ensures p.buttons[k].targetView == if p.buttons[k].text in {"Try", "Back"} then "edit" else "creativeMode"
  {
  }
}
