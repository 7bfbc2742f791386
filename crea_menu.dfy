/**
 * The creative-mode menu of the Square Monster engine (`com.strozor` package): three
 * buttons that save the level being built, leave without saving, or go back to
 * building. Only the very `Button` object stored as `save` triggers the save.
 */
module CreaMenuView {
  import opened Wrappers
  import opened Lists
  import opened JavaLang
  import opened Buttons
  import Audio
  import Container

  /** The button table, in list (and layout) order. */
  const Labels: seq<string> := ["Save", "Cancel", "Back"]
  const GoStates: seq<int> := [8, 8, 4]

  /**
   * The creative-mode state the save button reaches through static fields: how many
   * times the level image has been saved, and the level list's one-shot flag
   * (`EditList.once`).
   */
  class CreativeStore {
    var imageSaves: nat
    var editListOnce: bool

    constructor (editListOnce: bool)
      ensures imageSaves == 0 && this.editListOnce == editListOnce
    {
      imageSaves := 0;
      this.editListOnce := editListOnce;
    }
  }

  /** Everything a frame of the menu changes. */
  datatype CreaState = CreaState(state: int, lastState: int, imageSaves: nat, editListOnce: bool, selects: nat)

  /** Escape asks for state 4 before any button is looked at. */
  function AfterEscape(s: CreaState, escape: bool): CreaState {
    if escape then s.(state := 4) else s
  }

  /**
   * The effect of selecting a button: the save side effect when it is the save button
   * itself, then one select sound and the move to the button's state, with 5 (this
   * menu) as the last state.
   */
  function Select(s: CreaState, isSave: bool, goState: int): CreaState {
    var e := if isSave then s.(imageSaves := s.imageSaves + 1, editListOnce := false) else s;
    e.(selects := e.selects + 1, state := goState, lastState := 5)
  }

  /** The selections of one frame, applied in button order; `save` is the stored save button. */
  function AfterSelections(bs: seq<Button>, sel: seq<bool>, save: Button, s: CreaState): CreaState
    requires |sel| == |bs|
  {
    if |bs| == 0 then s
    else
      var n := |bs| - 1;
      var p := AfterSelections(bs[..n], sel[..n], save, s);
      if sel[n] then Select(p, bs[n] == save, bs[n].goState) else p
  }

  /** Extending the handled prefix by one button applies that button's selection, if any. */
  lemma AfterSelectionsStep(bs: seq<Button>, sel: seq<bool>, save: Button, s: CreaState, k: nat)
    requires |sel| == |bs| && k < |bs|
    ensures AfterSelections(bs[..k + 1], sel[..k + 1], save, s)
         == var p := AfterSelections(bs[..k], sel[..k], save, s);
            if sel[k] then Select(p, bs[k] == save, bs[k].goState) else p
  {
    assert bs[..k + 1][..k] == bs[..k];
    assert sel[..k + 1][..k] == sel[..k];
  }

  /**
   * After a frame the state is the last selected button's state and the last state is
   * 5; each selection issues one select sound; with no selection nothing but Escape's
   * request has happened.
   */
  lemma {:induction false} SelectionNavigation(bs: seq<Button>, sel: seq<bool>, save: Button, s: CreaState)
    requires |sel| == |bs|
    ensures var r := AfterSelections(bs, sel, save, s);
      r.selects == s.selects + SelectedCount(sel)
      && match LastSelected(sel)
         case None => r.state == s.state && r.lastState == s.lastState
         case Some(k) => r.state == bs[k].goState && r.lastState == 5
  {
    if |bs| > 0 {
      var n := |bs| - 1;
      SelectionNavigation(bs[..n], sel[..n], save, s);
    }
  }

  /**
   * The save side effect follows object identity: with distinct buttons, the image is
   * saved once when the save button at index i is selected and never otherwise, and
   * the one-shot flag is cleared exactly then. A different button with the same label
   * would not save.
   */
  lemma {:induction false} SaveByIdentity(bs: seq<Button>, sel: seq<bool>, i: nat, s: CreaState)
    requires |sel| == |bs| && Distinct(bs) && i < |bs|
    ensures var r := AfterSelections(bs, sel, bs[i], s);
      r.imageSaves == s.imageSaves + (if sel[i] then 1 else 0)
      && (r.editListOnce <==> s.editListOnce && !sel[i])
  {
    var n := |bs| - 1;
    if i < n {
      assert Distinct(bs[..n]) && bs[..n][i] == bs[i];
      SaveByIdentity(bs[..n], sel[..n], i, s);
      assert bs[n] != bs[i];
    } else {
      NoSaveWithout(bs[..n], sel[..n], bs[i], s);
      DistinctAt(bs, n);
    }
  }

  /** Without the save button among them, selections neither save nor clear the flag. */
  lemma {:induction false} NoSaveWithout(bs: seq<Button>, sel: seq<bool>, save: Button, s: CreaState)
    requires |sel| == |bs| && save !in bs
    ensures AfterSelections(bs, sel, save, s).imageSaves == s.imageSaves
    ensures AfterSelections(bs, sel, save, s).editListOnce == s.editListOnce
  {
    if |bs| > 0 {
      var n := |bs| - 1;
      assert bs[n] in bs;
      assert forall b :: b in bs[..n] ==> b in bs;
      NoSaveWithout(bs[..n], sel[..n], save, s);
    }
  }

  /** The menu: its buttons, the stored save button and the select clip. */
  class CreaMenu {
    const buttons: seq<Button>
    const save: Button
    const select: Audio.SoundClip

    /** Three distinct buttons carrying the label and state table, the first of them stored as `save`. */
    ghost predicate Valid() {
      |buttons| == |Labels| && Distinct(buttons) && save == buttons[0]
      && forall k :: 0 <= k < |Labels| ==> buttons[k].text == Labels[k] && buttons[k].goState == GoStates[k]
    }

    constructor (buttonHeight: int)
      ensures Valid() && fresh(select)
      ensures forall b :: b in buttons ==> fresh(b) && !b.hover && !b.hoverSounded && b.height == buttonHeight
    {
      var b0 := new Button.WithState("Save", 8, buttonHeight);
      var b1 := new Button.WithState("Cancel", 8, buttonHeight);
      var b2 := new Button.WithState("Back", 4, buttonHeight);
      save := b0;
      buttons := [b0, b1, b2];
      select := new Audio.SoundClip();
    }

    ghost function State(gc: Container.GameContainer, store: CreativeStore): CreaState
      reads gc, store, select
    {
      CreaState(gc.state, gc.lastState, store.imageSaves, store.editListOnce, select.plays)
    }

    /**
     * One frame of `update`: Escape, then each selected button's effect in list order.
     * The buttons' hover flags are neither consulted nor changed.
     */
    method Update(gc: Container.GameContainer, store: CreativeStore, escape: bool, selected: seq<bool>)
      requires Valid() && |selected| == |buttons|
      modifies gc`state, gc`lastState, store, select`plays
      ensures State(gc, store) == AfterSelections(buttons, selected, save, AfterEscape(old(State(gc, store)), escape))
      ensures forall b :: b in buttons ==> b.hover == old(b.hover) && b.hoverSounded == old(b.hoverSounded)
    {
      if escape {
        gc.state := 4;
      }
      ghost var start := State(gc, store);
      for k := 0 to |buttons|
        invariant State(gc, store) == AfterSelections(buttons[..k], selected[..k], save, start)
      {
        var btn := buttons[k];
        if selected[k] {
          if btn == save {
            store.imageSaves := store.imageSaves + 1;
            store.editListOnce := false;
          }
          select.Play();
          gc.state := btn.goState;
          gc.lastState := 5;
        }
        AfterSelectionsStep(buttons, selected, save, start, k);
      }
      assert buttons[..|buttons|] == buttons && selected[..|buttons|] == selected;
    }

    /** `render`'s layout loop over this menu's buttons. */
    method Render(width: int, height: int)
      requires Valid()
      modifies set b | b in buttons
      ensures forall b :: b in buttons ==> b.hover == old(b.hover) && b.hoverSounded == old(b.hoverSounded)
      ensures forall k :: 0 <= k < |buttons| ==>
        buttons[k].offX == Div(width, 2) - 85 && buttons[k].offY == Div(height, 4) + Span(buttons[..k])
    {
      LayOut(buttons, width, height);
    }
  }

  /** In this menu only "Save" saves: "Cancel" and "Back" have no side effect. */
  lemma MenuSaves(m: CreaMenu, sel: seq<bool>, s: CreaState)
    requires m.Valid() && |sel| == |m.buttons|
    ensures AfterSelections(m.buttons, sel, m.save, s).imageSaves == s.imageSaves + if sel[0] then 1 else 0
    ensures AfterSelections(m.buttons, sel, m.save, s).editListOnce <==> s.editListOnce && !sel[0]
  {
    SaveByIdentity(m.buttons, sel, 0, s);
  }
}
