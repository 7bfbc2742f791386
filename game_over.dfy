/**
 * The game-over screen of the Square Monster engine (`sm` package): the game-over
 * jingle is requested once when the screen is reached from play (last state 1),
 * and two buttons lead to a new try (state 1) or back to the title (state 0).
 */
module GameOverView {
  import opened Wrappers
  import opened Lists
  import opened JavaLang
  import opened Buttons
  import Audio
  import Container

  /** The button table, in list (and layout) order. */
  const Labels: seq<string> := ["Try again", "Quit to title"]
  const GoStates: seq<int> := [1, 0]

  /** The player statistics, reduced to how many times they have been written out. */
  class PlayerStats {
    var saves: nat

    constructor ()
      ensures saves == 0
    {
      saves := 0;
    }

    method SaveData()
      modifies this`saves
      ensures saves == old(saves) + 1
    {
      saves := saves + 1;
    }
  }

  /** Everything the button loop changes apart from the buttons and the hover clip. */
  datatype OverState = OverState(
    state: int, lastState: int, once: bool, clicks: nat, jingleStops: nat, statSaves: nat)

  /** Whether a frame that starts from the given flag and last state requests the jingle. */
  predicate JingleDue(once: bool, lastState: int) {
    lastState == 1 && !once
  }

  /** The jingle check at the top of `update`. */
  function AfterJingleCheck(s: OverState): OverState {
    if JingleDue(s.once, s.lastState) then s.(once := true) else s
  }

  /**
   * The effect of selecting a button: the statistics are saved when the label
   * mentions "Quit"; then one click, the jingle is stopped and re-armed, and the
   * container goes to the button's state with 7 (game over) as the last state.
   */
  function Select(s: OverState, text: string, goState: int): OverState {
    var e := if Contains(text, "Quit") then s.(statSaves := s.statSaves + 1) else s;
    e.(clicks := e.clicks + 1, jingleStops := e.jingleStops + 1, once := false,
       state := goState, lastState := 7)
  }

  /** The selections of one frame, applied in button order. */
  function AfterSelections(bs: seq<Button>, sel: seq<bool>, s: OverState): OverState
    requires |sel| == |bs|
  {
    if |bs| == 0 then s
    else
      var n := |bs| - 1;
      var p := AfterSelections(bs[..n], sel[..n], s);
      if sel[n] then Select(p, bs[n].text, bs[n].goState) else p
  }

  /** Extending the handled prefix by one button applies that button's selection, if any. */
  lemma AfterSelectionsStep(bs: seq<Button>, sel: seq<bool>, s: OverState, k: nat)
    requires |sel| == |bs| && k < |bs|
    ensures AfterSelections(bs[..k + 1], sel[..k + 1], s)
         == var p := AfterSelections(bs[..k], sel[..k], s);
            if sel[k] then Select(p, bs[k].text, bs[k].goState) else p
  {
    assert bs[..k + 1][..k] == bs[..k];
    assert sel[..k + 1][..k] == sel[..k];
  }

  /** How many selected buttons have a label that mentions "Quit". */
  function QuitSelections(bs: seq<Button>, sel: seq<bool>): nat
    requires |sel| == |bs|
  {
    if |bs| == 0 then 0
    else
      var n := |bs| - 1;
      QuitSelections(bs[..n], sel[..n]) + if sel[n] && Contains(bs[n].text, "Quit") then 1 else 0
  }

  /**
   * After a frame the state is the last selected button's state and the last state is
   * 7; with no selection both are as before.
   */
  lemma {:induction false} SelectionNavigation(bs: seq<Button>, sel: seq<bool>, s: OverState)
    requires |sel| == |bs|
    ensures var r := AfterSelections(bs, sel, s);
      match LastSelected(sel)
      case None => r.state == s.state && r.lastState == s.lastState
      case Some(k) => r.state == bs[k].goState && r.lastState == 7
  {
    if |bs| > 0 {
      var n := |bs| - 1;
      SelectionNavigation(bs[..n], sel[..n], s);
    }
  }

  /**
   * Each selection issues one click and one stop of the jingle, saves the statistics
   * once if its label mentions "Quit", and any selection re-arms the jingle.
   */
  lemma {:induction false} SelectionEffects(bs: seq<Button>, sel: seq<bool>, s: OverState)
    requires |sel| == |bs|
    ensures var r := AfterSelections(bs, sel, s);
      r.clicks == s.clicks + SelectedCount(sel)
      && r.jingleStops == s.jingleStops + SelectedCount(sel)
      && r.statSaves == s.statSaves + QuitSelections(bs, sel)
      && r.once == (s.once && LastSelected(sel).None?)
  {
    if |bs| > 0 {
      var n := |bs| - 1;
      SelectionEffects(bs[..n], sel[..n], s);
    }
  }

  /** Of the two labels, only "Quit to title" mentions "Quit". */
  lemma QuitLabels()
    ensures Contains(Labels[1], "Quit")
    ensures !Contains(Labels[0], "Quit")
  {
    assert OccursAt(Labels[1], "Quit", 0);
    forall i | 0 <= i <= |Labels[0]|
      ensures !OccursAt(Labels[0], "Quit", i)
    {
      if i + 4 <= |Labels[0]| {
        assert Labels[0][i..i + 4][0] == Labels[0][i] != 'Q';
      }
    }
  }

  // ---------------------------------------------------------------------------
  // The jingle across frames

  /** What the screen sees of one frame: the last state it starts from and whether any button was selected. */
  datatype OverFrame = OverFrame(lastState: int, anySelected: bool)

  /** The flag after a frame: set by the jingle check, cleared by any selection. */
  function OnceAfter(once: bool, f: OverFrame): bool {
    !f.anySelected && (once || JingleDue(once, f.lastState))
  }

  /** The jingle requests over a run of frames. */
  function JingleRequests(once: bool, frames: seq<OverFrame>): nat
    decreases |frames|
  {
    if |frames| == 0 then 0
    else
      (if JingleDue(once, frames[0].lastState) then 1 else 0)
      + JingleRequests(OnceAfter(once, frames[0]), frames[1..])
  }

  /**
   * Until a button resets the flag, the jingle is requested at most once, and not at
   * all if it had already been requested.
   */
  lemma {:induction false} JingleAtMostOnce(once: bool, frames: seq<OverFrame>)
    requires forall k :: 0 <= k < |frames| ==> !frames[k].anySelected
    ensures JingleRequests(once, frames) <= if once then 0 else 1
    decreases |frames|
  {
    if |frames| > 0 {
      JingleAtMostOnce(OnceAfter(once, frames[0]), frames[1..]);
    }
  }

  /** After a selection the flag is clear again, so arriving from play requests the jingle once more. */
  lemma JingleAfterReset(once: bool, last: int, rest: seq<OverFrame>)
    ensures JingleRequests(once, [OverFrame(last, true), OverFrame(1, false)] + rest)
         == (if JingleDue(once, last) then 1 else 0) + 1 + JingleRequests(true, rest)
  {
    var fs := [OverFrame(last, true), OverFrame(1, false)] + rest;
    assert fs[1..] == [OverFrame(1, false)] + rest;
    assert fs[1..][1..] == rest;
  }

  /** The game-over screen: its buttons, its three clips and the jingle flag. */
  class GameOver {
    const buttons: seq<Button>
    const hover: Audio.SoundClip
    const click: Audio.SoundClip
    const jingle: Audio.SoundClip
    var once: bool

    /** Two distinct buttons carrying the label and state table, and three distinct clips. */
    ghost predicate Valid() {
      |buttons| == |Labels| && Distinct(buttons)
      && hover != click && hover != jingle && click != jingle
      && forall k :: 0 <= k < |Labels| ==> buttons[k].text == Labels[k] && buttons[k].goState == GoStates[k]
    }

    constructor (buttonHeight: int)
      ensures Valid() && !once && fresh(hover) && fresh(click) && fresh(jingle)
      ensures forall b :: b in buttons ==> fresh(b) && !b.hover && !b.hoverSounded && b.height == buttonHeight
    {
      var b0 := new Button.WithState("Try again", 1, buttonHeight);
      var b1 := new Button.WithState("Quit to title", 0, buttonHeight);
      buttons := [b0, b1];
      hover := new Audio.SoundClip();
      click := new Audio.SoundClip();
      jingle := new Audio.SoundClip();
      once := false;
    }

    ghost function State(gc: Container.GameContainer, stats: PlayerStats): OverState
      reads this, gc, stats, click, jingle
    {
      OverState(gc.state, gc.lastState, once, click.plays, jingle.stops, stats.saves)
    }

    /** The state of the button loop once the first k buttons are handled. */
    ghost predicate FrameAt(gc: Container.GameContainer, stats: PlayerStats, k: nat,
                            selected: seq<bool>, hovered: seq<bool>, running: seq<bool>,
                            start: OverState, sounded: seq<bool>, plays0: nat)
      reads this, gc, stats, click, jingle, hover, set b | b in buttons
    {
      k <= |buttons| && |selected| == |hovered| == |running| == |sounded| == |buttons|
      && State(gc, stats) == AfterSelections(buttons[..k], selected[..k], start)
      && (forall j :: 0 <= j < k ==> buttons[j].hover == hovered[j] && buttons[j].hoverSounded == hovered[j])
      && (forall j :: k <= j < |buttons| ==> buttons[j].hoverSounded == sounded[j])
      && hover.plays == plays0 + FrameHoverRequests(sounded[..k], hovered[..k], running[..k])
    }

    /**
     * One frame of `update`: the jingle check, then each button's selection effect and
     * hover guard, in list order.
     */
    method Update(gc: Container.GameContainer, stats: PlayerStats,
                  selected: seq<bool>, hovered: seq<bool>, running: seq<bool>)
      requires Valid()
      requires |selected| == |hovered| == |running| == |buttons|
      modifies this`once, gc`state, gc`lastState, stats`saves
      modifies click`plays, jingle`plays, jingle`stops, hover`plays
      modifies (set b | b in buttons)`hover, (set b | b in buttons)`hoverSounded
      ensures jingle.plays == old(jingle.plays) + if JingleDue(old(once), old(gc.lastState)) then 1 else 0
      ensures State(gc, stats) == AfterSelections(buttons, selected, AfterJingleCheck(old(State(gc, stats))))
      ensures forall k :: 0 <= k < |buttons| ==>
        buttons[k].hover == hovered[k] && buttons[k].hoverSounded == hovered[k]
      ensures hover.plays == old(hover.plays) + FrameHoverRequests(old(SoundedOf(buttons)), hovered, running)
    {
      CheckJingle(gc, stats);
      ButtonPass(gc, stats, selected, hovered, running);
    }

    /** The jingle check: arriving from play with the flag clear requests the jingle and sets the flag. */
    method CheckJingle(gc: Container.GameContainer, stats: PlayerStats)
      requires Valid()
      modifies this`once, jingle`plays
      ensures jingle.plays == old(jingle.plays) + if JingleDue(old(once), gc.lastState) then 1 else 0
      ensures State(gc, stats) == AfterJingleCheck(old(State(gc, stats)))
    {
      if gc.lastState == 1 && !once {
        jingle.Play();
        once := true;
      }
    }

    /** The button loop of `update`. */
    method ButtonPass(gc: Container.GameContainer, stats: PlayerStats,
                      selected: seq<bool>, hovered: seq<bool>, running: seq<bool>)
      requires Valid()
      requires |selected| == |hovered| == |running| == |buttons|
      modifies this`once, gc`state, gc`lastState, stats`saves, click`plays, jingle`stops, hover`plays
      modifies (set b | b in buttons)`hover, (set b | b in buttons)`hoverSounded
      ensures State(gc, stats) == AfterSelections(buttons, selected, old(State(gc, stats)))
      ensures forall k :: 0 <= k < |buttons| ==>
        buttons[k].hover == hovered[k] && buttons[k].hoverSounded == hovered[k]
      ensures hover.plays == old(hover.plays) + FrameHoverRequests(old(SoundedOf(buttons)), hovered, running)
    {
      ghost var start := State(gc, stats);
      ghost var sounded := SoundedOf(buttons);
      ghost var plays0 := hover.plays;
      for k := 0 to |buttons|
        invariant FrameAt(gc, stats, k, selected, hovered, running, start, sounded, plays0)
      {
        VisitButton(gc, stats, k, selected, hovered, running, start, sounded, plays0);
      }
      assert buttons[..|buttons|] == buttons;
      assert selected[..|buttons|] == selected;
      assert hovered[..|buttons|] == hovered;
      assert running[..|buttons|] == running;
      assert sounded[..|buttons|] == sounded;
    }

    /** The loop body for button k: its selection effect, then its hover guard. */
    method VisitButton(gc: Container.GameContainer, stats: PlayerStats, k: nat,
                       selected: seq<bool>, hovered: seq<bool>, running: seq<bool>,
                       ghost start: OverState, ghost sounded: seq<bool>, ghost plays0: nat)
      requires Valid() && k < |buttons|
      requires FrameAt(gc, stats, k, selected, hovered, running, start, sounded, plays0)
      modifies this`once, gc`state, gc`lastState, stats`saves, click`plays, jingle`stops, hover`plays
      modifies (set b | b in buttons)`hover, (set b | b in buttons)`hoverSounded
      ensures FrameAt(gc, stats, k + 1, selected, hovered, running, start, sounded, plays0)
    {
      var btn := buttons[k];
      if selected[k] {
        Selected(gc, stats, btn);
      }
      GuardHover(btn, hovered[k], running[k], hover);
      AfterSelectionsStep(buttons, selected, start, k);
      FrameHoverRequestsStep(sounded, hovered, running, k);
      forall j | 0 <= j < |buttons| && j != k
        ensures buttons[j] != btn
      {
        assert Distinct(buttons);
      }
    }

    /** What selecting `btn` does. */
    method Selected(gc: Container.GameContainer, stats: PlayerStats, btn: Button)
      requires Valid()
      modifies this`once, gc`state, gc`lastState, stats`saves, click`plays, jingle`stops
      ensures State(gc, stats) == Select(old(State(gc, stats)), btn.text, btn.goState)
    {
      if Contains(btn.text, "Quit") {
        stats.SaveData();
      }
      click.Play();
      jingle.Stop();
      once := false;
      gc.state := btn.goState;
      gc.lastState := 7;
    }

    /** `render`'s layout loop over this screen's buttons. */
    method Render(width: int, height: int)
      requires Valid()
      modifies set b | b in buttons
      ensures forall b :: b in buttons ==> b.hover == old(b.hover) && b.hoverSounded == old(b.hoverSounded)
      ensures forall k :: 0 <= k < |buttons| ==>
        buttons[k].offX == Div(width, 2) - 85 && buttons[k].offY == Div(height, 4) + Span(buttons[..k])
    {
      LayOut(buttons, width, height);
    }
  }

  /** On this screen, selecting "Quit to title" saves the statistics and "Try again" does not. */
  lemma QuitSavesStats(g: GameOver, sel: seq<bool>, s: OverState)
    requires g.Valid() && |sel| == |g.buttons|
    ensures AfterSelections(g.buttons, sel, s).statSaves == s.statSaves + if sel[1] then 1 else 0
  {
    QuitLabels();
    var bs := g.buttons;
    assert bs[..1][..0] == [] && sel[..1][..0] == [];
    assert QuitSelections(bs[..1], sel[..1]) == if sel[0] && Contains(bs[0].text, "Quit") then 1 else 0;
    assert bs[..2] == bs && sel[..2] == sel;
    assert QuitSelections(bs, sel)
        == QuitSelections(bs[..1], sel[..1]) + if sel[1] && Contains(bs[1].text, "Quit") then 1 else 0;
    SelectionEffects(bs, sel, s);
  }
}
