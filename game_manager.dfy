/**
 * The per-frame loop of the game manager: the escape hotkey, the notification pass,
 * the object pass, the automatic level reload when no player is left, and the
 * lookup of an object by tag.
 *
 * The bodies of the objects' and notifications' own `update` are not part of the
 * model: each is an abstract step whose only observable outcome is the object's
 * `dead` flag (resp. the notification's `ended` flag), supplied as
 * the sets `dying` and `ending`: the objects that mark themselves dead, and the
 * notifications that report having ended, when they are updated.
 */
module Manager {
  import opened Wrappers
  import opened Lists
  import opened GameObjects
  import Audio
  import Container

  /** A transient on-screen message. */
  class FlashNotif {
    var ended: bool
    /** How many times the notification's own `update` has run. */
    ghost var updates: nat

    constructor ()
      ensures !ended && updates == 0
    {
      ended := false;
      updates := 0;
    }

    /** The notification's own update; of its effect the model keeps whether it has ended. */
    method Update(ends: bool)
      modifies this
      ensures ended == ends && updates == old(updates) + 1
    {
      ended := ends;
      updates := updates + 1;
    }
  }

  /** The camera, bound to the tag of the object it follows. */
  class Camera {
    const target: string

    constructor (target: string)
      ensures this.target == target
    {
      this.target := target;
    }
  }

  // ---------------------------------------------------------------------------
  // getObject

  /** The first object in list order whose tag is `tag`; `None` exactly when there is none. */
  function FirstTagged(os: seq<GameObject>, tag: string): (r: Option<GameObject>)
    ensures r.None? <==> forall o :: o in os ==> o.tag != tag
    ensures r.Some? ==> exists k :: 0 <= k < |os| && os[k] == r.value && r.value.tag == tag &&
                                    forall j :: 0 <= j < k ==> os[j].tag != tag
  {
    if |os| == 0 then None
    else if os[0].tag == tag then Some(os[0])
    else
      var r := FirstTagged(os[1..], tag);
      assert r.Some? ==> exists k :: 1 <= k < |os| && os[k] == r.value && r.value.tag == tag &&
                                     forall j :: 0 <= j < k ==> os[j].tag != tag by {
        if r.Some? {
          var k :| 0 <= k < |os[1..]| && os[1..][k] == r.value && r.value.tag == tag &&
                   forall j :: 0 <= j < k ==> os[1..][j].tag != tag;
          assert os[k + 1] == r.value;
          assert forall j :: 1 <= j < k + 1 ==> os[j] == os[1..][j - 1];
        }
      }
      r
  }

  /** An object tagged `tag` at the end of the list is found, if by nothing earlier then by itself. */
  lemma FoundAfterAppend(os: seq<GameObject>, p: GameObject)
    ensures FirstTagged(os + [p], p.tag).Some?
  {
    assert p in os + [p];
  }

  // ---------------------------------------------------------------------------
  // Object pass

  /** The objects, in list order, that did not mark themselves dead during their update. */
  function Survivors(os: seq<GameObject>, dying: set<GameObject>): seq<GameObject> {
    if |os| == 0 then []
    else Survivors(os[..|os| - 1], dying) + if os[|os| - 1] in dying then [] else [os[|os| - 1]]
  }

  /** An object survives the pass exactly when it was in the list and did not die. */
  lemma {:induction false} SurvivorsMembership(os: seq<GameObject>, dying: set<GameObject>, o: GameObject)
    ensures o in Survivors(os, dying) <==> o in os && o !in dying
  {
    if |os| > 0 {
      SurvivorsMembership(os[..|os| - 1], dying, o);
      assert os == os[..|os| - 1] + [os[|os| - 1]];
    }
  }

  lemma SurvivorsAlive(os: seq<GameObject>, dying: set<GameObject>)
    ensures forall o :: o in Survivors(os, dying) ==> o in os && o !in dying
  {
    forall o | o in Survivors(os, dying) {
      SurvivorsMembership(os, dying, o);
    }
  }

  /** The pass keeps relative order: the survivors of a concatenation are the concatenated survivors. */
  lemma {:induction false} SurvivorsAppend(a: seq<GameObject>, b: seq<GameObject>, dying: set<GameObject>)
    ensures Survivors(a + b, dying) == Survivors(a, dying) + Survivors(b, dying)
    decreases |b|
  {
    if |b| == 0 {
      assert a + b == a;
    } else {
      SurvivorsAppend(a, b[..|b| - 1], dying);
      assert (a + b)[..|a + b| - 1] == a + b[..|b| - 1];
    }
  }

  /**
   * The object loop after `k` turns: the survivors of the first `k` objects, followed by
   * the objects not reached yet, with the index `i` on the first of those.
   */
  ghost predicate ObjectLoopAt(os: seq<GameObject>, k: nat, objects: seq<GameObject>, i: int, dying: set<GameObject>)
  {
    k <= |os| && objects == Survivors(os[..k], dying) + os[k..] && i == |Survivors(os[..k], dying)|
  }

  /**
   * The objects' flags after `k` turns of the object loop: each of the first `k` has
   * run its own update once and is dead exactly when it died; the rest have not run yet.
   * `u0` holds each object's update count from before the pass.
   */
  ghost predicate ObjectFlagsAt(os: seq<GameObject>, k: nat, dying: set<GameObject>, u0: map<GameObject, nat>)
    reads set o | o in os
  {
    k <= |os|
    && (forall o :: o in os[..k] ==> o in u0 && o.dead == (o in dying) && o.updates == u0[o] + 1)
    && (forall o :: o in os[k..] ==> o in u0 && o.updates == u0[o])
  }

  lemma ObjectLoopDone(os: seq<GameObject>, k: nat, objects: seq<GameObject>, i: int, dying: set<GameObject>)
    requires ObjectLoopAt(os, k, objects, i, dying) && k == |os|
    ensures os[..k] == os && objects == Survivors(os, dying)
  {
    assert os[..k] == os && os[k..] == [];
  }

  lemma ObjectStep(os: seq<GameObject>, k: nat, objects: seq<GameObject>, i: int, dying: set<GameObject>)
    requires ObjectLoopAt(os, k, objects, i, dying) && i < |objects|
    ensures k < |os| && 0 <= i && objects[i] == os[k] && os[..k + 1] == os[..k] + [os[k]]
    ensures os[k] in dying ==> ObjectLoopAt(os, k + 1, objects[..i] + objects[i + 1..], i, dying)
    ensures os[k] !in dying ==> ObjectLoopAt(os, k + 1, objects, i + 1, dying)
    ensures |objects| - i == |os| - k
  {
    var done := Survivors(os[..k], dying);
    assert |objects| == i + |os| - k;
    assert objects[i] == os[k..][0];
    assert os[..k + 1][..k] == os[..k];
    assert os[k..] == [os[k]] + os[k + 1..];
    if os[k] in dying {
      assert Survivors(os[..k + 1], dying) == done;
      assert objects[..i] == done && objects[i + 1..] == os[k + 1..];
    } else {
      assert Survivors(os[..k + 1], dying) == done + [os[k]];
    }
  }

  /** When nothing dies, the list is untouched. */
  lemma {:induction false} SurvivorsAllAlive(os: seq<GameObject>, dying: set<GameObject>)
    requires forall o :: o in os ==> o !in dying
    ensures Survivors(os, dying) == os
  {
    if |os| > 0 {
      SurvivorsAllAlive(os[..|os| - 1], dying);
      assert os == os[..|os| - 1] + [os[|os| - 1]];
    }
  }

  /** Removing objects keeps the list free of duplicates. */
  lemma {:induction false} SurvivorsDistinct(os: seq<GameObject>, dying: set<GameObject>)
    requires Distinct(os)
    ensures Distinct(Survivors(os, dying))
  {
    if |os| > 0 {
      var init := os[..|os| - 1];
      var rest := Survivors(init, dying);
      SurvivorsDistinct(init, dying);
      SurvivorsMembership(init, dying, os[|os| - 1]);
      if os[|os| - 1] !in dying {
        DistinctAppend(rest, os[|os| - 1]);
        assert Survivors(os, dying) == rest + [os[|os| - 1]];
      } else {
        assert Survivors(os, dying) == rest;
      }
    }
  }

  // ---------------------------------------------------------------------------
  // Notification pass

  /**
   * The notifications left by the pass. An ended notification is removed without
   * stepping the index back, so the one that slides into its slot is passed over.
   */
  function NotifSweep(ns: seq<FlashNotif>, ending: set<FlashNotif>): seq<FlashNotif>
    decreases |ns|
  {
    if |ns| == 0 then []
    else if ns[0] !in ending then [ns[0]] + NotifSweep(ns[1..], ending)
    else if |ns| == 1 then []
    else [ns[1]] + NotifSweep(ns[2..], ending)
  }

  /** The notifications the pass updates, in order. */
  function NotifVisits(ns: seq<FlashNotif>, ending: set<FlashNotif>): seq<FlashNotif>
    decreases |ns|
  {
    if |ns| == 0 then []
    else if ns[0] !in ending then [ns[0]] + NotifVisits(ns[1..], ending)
    else if |ns| == 1 then [ns[0]]
    else [ns[0]] + NotifVisits(ns[2..], ending)
  }

  lemma {:induction false} VisitsWithin(ns: seq<FlashNotif>, ending: set<FlashNotif>)
    ensures forall n :: n in NotifVisits(ns, ending) ==> n in ns
    ensures forall n :: n in NotifSweep(ns, ending) ==> n in ns
    decreases |ns|
  {
    if |ns| > 1 {
      VisitsWithin(ns[1..], ending);
      VisitsWithin(ns[2..], ending);
      assert forall n :: n in ns[2..] ==> n in ns;
    } else if |ns| == 1 {
      VisitsWithin(ns[1..], ending);
    }
  }

  /**
   * A notification stays exactly when it was either passed over or found not ended:
   * every ended notification the pass looks at is removed, and none other is.
   */
  lemma {:induction false} NotifSweepMembership(ns: seq<FlashNotif>, ending: set<FlashNotif>, n: FlashNotif)
    requires Distinct(ns)
    ensures n in NotifSweep(ns, ending) <==> n in ns && (n !in NotifVisits(ns, ending) || n !in ending)
    decreases |ns|
  {
    if |ns| > 0 {
      DistinctTail(ns);
      if ns[0] !in ending || |ns| == 1 {
        NotifSweepMembership(ns[1..], ending, n);
        VisitsWithin(ns[1..], ending);
      } else {
        DistinctTail(ns[1..]);
        assert ns[1..][1..] == ns[2..];
        NotifSweepMembership(ns[2..], ending, n);
        VisitsWithin(ns[2..], ending);
        assert ns == [ns[0], ns[1]] + ns[2..];
      }
    }
  }

  /**
   * The notification right behind an ended one is neither updated nor checked in
   * that frame: it stays in the list whether or not it has ended.
   */
  lemma NotifSkippedAfterEnded(ns: seq<FlashNotif>, ending: set<FlashNotif>)
    requires Distinct(ns) && |ns| >= 2 && ns[0] in ending
    ensures ns[1] in NotifSweep(ns, ending) && ns[1] !in NotifVisits(ns, ending)
  {
    VisitsWithin(ns[2..], ending);
    DistinctTail(ns);
    DistinctTail(ns[1..]);
    assert ns[1..][1..] == ns[2..];
  }

  /**
   * The skip happens wherever an ended notification is removed, not only at the front:
   * the notification right after it is kept and never updated in that pass.
   */
  lemma {:induction false} NotifSkippedAfterEndedAt(ns: seq<FlashNotif>, ending: set<FlashNotif>, j: nat)
    requires Distinct(ns) && j + 1 < |ns| && ns[j] in NotifVisits(ns, ending) && ns[j] in ending
    ensures ns[j + 1] in NotifSweep(ns, ending) && ns[j + 1] !in NotifVisits(ns, ending)
    decreases |ns|
  {
    if j == 0 {
      NotifSkippedAfterEnded(ns, ending);
    } else if ns[0] !in ending {
      DistinctTail(ns);
      assert ns[1..][j - 1] == ns[j] && ns[1..][j] == ns[j + 1];
      NotifSkippedAfterEndedAt(ns[1..], ending, j - 1);
    } else if j == 1 {
      NotifSkippedAfterEnded(ns, ending);
      assert false;
    } else {
      DistinctTail(ns);
      DistinctTail(ns[1..]);
      assert ns[1..][1..] == ns[2..];
      assert ns[2..][j - 2] == ns[j] && ns[2..][j - 1] == ns[j + 1];
      NotifSkippedAfterEndedAt(ns[2..], ending, j - 2);
    }
  }

  /** The notification loop's state: notification k of the original list sits at index i. */
  ghost predicate NotifLoopAt(ns: seq<FlashNotif>, k: nat, notifs: seq<FlashNotif>, i: int, visited: seq<FlashNotif>,
                              ending: set<FlashNotif>)
  {
    0 <= i <= |notifs| && k <= |ns| && notifs[i..] == ns[k..]
    && NotifSweep(ns, ending) == notifs[..i] + NotifSweep(notifs[i..], ending)
    && NotifVisits(ns, ending) == visited + NotifVisits(notifs[i..], ending)
    && (forall n :: n in visited ==> n in ns[..k])
  }

  /**
   * The notifications' flags during the pass: those updated so far have run their own
   * update once and report their outcome; the others keep their flag and count from
   * before the pass (`e0`, `u0`).
   */
  ghost predicate NotifFlagsAt(ns: seq<FlashNotif>, visited: seq<FlashNotif>, ending: set<FlashNotif>,
                               e0: map<FlashNotif, bool>, u0: map<FlashNotif, nat>)
    reads set n | n in ns
  {
    (forall n :: n in visited ==> n in ns && n in u0 && n.ended == (n in ending) && n.updates == u0[n] + 1)
    && (forall n :: n in ns && n !in visited ==> n in e0 && n in u0 && n.ended == e0[n] && n.updates == u0[n])
  }

  /** Where the loop looks next: an original notification not updated before. */
  lemma NotifStepFresh(ns: seq<FlashNotif>, k: nat, notifs: seq<FlashNotif>, i: int, visited: seq<FlashNotif>,
                       ending: set<FlashNotif>)
    requires Distinct(ns) && NotifLoopAt(ns, k, notifs, i, visited, ending) && i < |notifs|
    ensures k < |ns| && notifs[i] == ns[k] && notifs[i] !in visited
  {
    assert notifs[i..][0] == notifs[i];
    DistinctAt(ns, k);
  }

  /** An iteration that finds its notification still running keeps it and moves on. */
  lemma NotifStepKept(ns: seq<FlashNotif>, k: nat, notifs: seq<FlashNotif>, i: int, visited: seq<FlashNotif>,
                      ending: set<FlashNotif>)
    requires NotifLoopAt(ns, k, notifs, i, visited, ending) && i < |notifs| && notifs[i] !in ending
    ensures NotifLoopAt(ns, k + 1, notifs, i + 1, visited + [notifs[i]], ending)
  {
    var n := notifs[i];
    assert notifs[i..] == [n] + notifs[i + 1..];
    assert notifs[..i + 1] == notifs[..i] + [n];
    assert ns[k..] == [ns[k]] + ns[k + 1..];
    assert ns[..k + 1] == ns[..k] + [ns[k]];
  }

  /**
   * An iteration that finds its notification ended removes it; the increment then
   * steps over the notification that took its slot.
   */
  lemma NotifStepRemoved(ns: seq<FlashNotif>, k: nat, notifs: seq<FlashNotif>, i: int, visited: seq<FlashNotif>,
                         ending: set<FlashNotif>)
    requires NotifLoopAt(ns, k, notifs, i, visited, ending) && i < |notifs| && notifs[i] in ending
    ensures var r := notifs[..i] + notifs[i + 1..];
      if i < |r| then NotifLoopAt(ns, k + 2, r, i + 1, visited + [notifs[i]], ending)
      else NotifSweep(ns, ending) == r && NotifVisits(ns, ending) == visited + [notifs[i]]
  {
    var n := notifs[i];
    var r := notifs[..i] + notifs[i + 1..];
    assert notifs[i..] == [n] + notifs[i + 1..];
    assert ns[k..] == [ns[k]] + ns[k + 1..];
    if i < |r| {
      assert notifs[i + 1..] == [notifs[i + 1]] + notifs[i + 2..];
      assert r[..i + 1] == notifs[..i] + [notifs[i + 1]];
      assert r[i + 1..] == notifs[i + 2..];
      assert ns[k + 1..] == [ns[k + 1]] + ns[k + 2..];
      assert ns[..k + 2] == ns[..k] + [ns[k], ns[k + 1]];
    } else {
      assert r == notifs[..i];
    }
  }


  // ---------------------------------------------------------------------------
  // The manager

  /** Whether the reload step fires: no object tagged "player", and the last state was 7 or 0. */
  predicate ReloadDue(os: seq<GameObject>, lastState: int) {
    FirstTagged(os, "player").None? && (lastState == 7 || lastState == 0)
  }

  class GameManager {
    var objects: seq<GameObject>
    var notifs: seq<FlashNotif>
    var camera: Camera
    const gameOver: Audio.SoundClip
    /** Map-tester mode and its level path, fixed at launch. */
    const mapTester: bool
    const mapTest: string
    var currLevel: int
    const levelList: seq<string> := ["/levels/0.png", "/levels/1.png"]
    /** The level image last handed to the map, and how many times one was. */
    var loadedLevel: string
    var levelLoads: nat

    ghost predicate Valid()
      reads this
    {
      Distinct(objects) && Distinct(notifs) && 0 <= currLevel < |levelList|
    }

    /** The level image `load` is given: the tester's path, or the current level's entry. */
    function LevelPath(): string
      reads this
      requires Valid()
    {
      if mapTester then mapTest else levelList[currLevel]
    }

    /** A new manager loads the first level and holds one live player followed by the camera. */
    constructor (mapTester: bool, mapTest: string)
      ensures Valid() && fresh(gameOver) && fresh(camera)
      ensures this.mapTester == mapTester && this.mapTest == mapTest && currLevel == 0
      ensures loadedLevel == LevelPath() && levelLoads == 1
      ensures |objects| == 1 && fresh(objects[0]) && objects[0].tag == "player" && !objects[0].dead
      ensures notifs == [] && camera.target == "player"
      ensures gameOver.plays == 0 && gameOver.stops == 0
    {
      this.mapTester := mapTester;
      this.mapTest := mapTest;
      currLevel := 0;
      loadedLevel := if mapTester then mapTest else levelList[0];
      levelLoads := 1;
      gameOver := new Audio.SoundClip();
      var player := new GameObject("player");
      objects := [player];
      notifs := [];
      camera := new Camera("player");
    }

    /** `getObject(tag)`: the first object with that tag, or `None` for Java's `null`. */
    function GetObject(tag: string): (r: Option<GameObject>)
      reads this
      ensures r.None? <==> forall o :: o in objects ==> o.tag != tag
      ensures r.Some? ==> exists k :: 0 <= k < |objects| && objects[k] == r.value && r.value.tag == tag &&
                                      forall j :: 0 <= j < k ==> objects[j].tag != tag
    {
      FirstTagged(objects, tag)
    }

    /**
     * One frame. Escape requests state 2 and the rest of the frame still runs; a saved
     * screenshot adds one notification; then the notification pass, the object pass
     * and the reload step, in that order. The reload check sees the list after the
     * object pass, so a player that dies this frame is replaced in this same call.
     */
    method Update(gc: Container.GameContainer, escape: bool, screenshotSaved: bool,
                  ending: set<FlashNotif>, dying: set<GameObject>)
      returns (ghost shot: seq<FlashNotif>, ghost visited: seq<FlashNotif>)
      requires Valid()
      modifies this`notifs, this`objects, this`camera, this`loadedLevel, this`levelLoads, gc`state, gameOver`stops
      modifies notifs, objects
      ensures Valid()
      ensures gc.state == if escape then 2 else old(gc.state)
      ensures |shot| == (if screenshotSaved then 1 else 0) && forall n :: n in shot ==> fresh(n)
      ensures notifs == NotifSweep(old(notifs) + shot, ending)
      ensures visited == NotifVisits(old(notifs) + shot, ending)
      ensures forall n :: n in old(notifs) ==> n.ended == if n in visited then n in ending else old(n.ended)
      ensures forall n :: n in old(notifs) ==> n.updates == old(n.updates) + if n in visited then 1 else 0
      ensures forall n :: n in shot ==> n.ended == (n in visited && n in ending)
      ensures forall n :: n in shot ==> n.updates == if n in visited then 1 else 0
      ensures forall o :: o in old(objects) ==> o.updates == old(o.updates) + 1 && o.dead == (o in dying)
      ensures forall o :: o in objects ==> !o.dead
      ensures var s := Survivors(old(objects), dying);
              if ReloadDue(s, gc.lastState) then
                |objects| == |s| + 1 && objects[..|s|] == s && fresh(objects[|s|]) && objects[|s|].tag == "player"
                && gameOver.stops == old(gameOver.stops) + 1 && fresh(camera) && camera.target == "player"
                && loadedLevel == LevelPath() && levelLoads == old(levelLoads) + 1
              else
                objects == s && gameOver.stops == old(gameOver.stops) && camera == old(camera)
                && loadedLevel == old(loadedLevel) && levelLoads == old(levelLoads)
    {
      if escape {
        gc.state := 2;
      }
      shot, visited := NotifPhase(screenshotSaved, ending);
      ObjectPhase(gc, dying);
    }

    /** The first half of a frame: a saved screenshot adds a notification, then the notification pass. */
    method NotifPhase(screenshotSaved: bool, ending: set<FlashNotif>)
      returns (ghost shot: seq<FlashNotif>, ghost visited: seq<FlashNotif>)
      requires Distinct(notifs)
      modifies this`notifs, notifs
      ensures Distinct(notifs)
      ensures |shot| == (if screenshotSaved then 1 else 0) && forall n :: n in shot ==> fresh(n)
      ensures notifs == NotifSweep(old(notifs) + shot, ending)
      ensures visited == NotifVisits(old(notifs) + shot, ending)
      ensures forall n :: n in old(notifs) ==> n.ended == if n in visited then n in ending else old(n.ended)
      ensures forall n :: n in old(notifs) ==> n.updates == old(n.updates) + if n in visited then 1 else 0
      ensures forall n :: n in shot ==> n.ended == (n in visited && n in ending)
      ensures forall n :: n in shot ==> n.updates == if n in visited then 1 else 0
    {
      shot := [];
      if screenshotSaved {
        var n := new FlashNotif();
        shot := [n];
        DistinctAppend(notifs, n);
        notifs := notifs + [n];
      }
      ghost var ns := notifs;
      assert ns == old(notifs) + shot;
      visited := NotifPass(ending);
    }

    /** The second half of a frame: the object pass, then the reload step. */
    method ObjectPhase(gc: Container.GameContainer, dying: set<GameObject>)
      requires Valid()
      modifies this`objects, this`camera, this`loadedLevel, this`levelLoads, gameOver`stops, objects
      ensures Valid()
      ensures forall o :: o in old(objects) ==> o.updates == old(o.updates) + 1 && o.dead == (o in dying)
      ensures forall o :: o in objects ==> !o.dead
      ensures var s := Survivors(old(objects), dying);
              if ReloadDue(s, gc.lastState) then
                |objects| == |s| + 1 && objects[..|s|] == s && fresh(objects[|s|]) && objects[|s|].tag == "player"
                && gameOver.stops == old(gameOver.stops) + 1 && fresh(camera) && camera.target == "player"
                && loadedLevel == LevelPath() && levelLoads == old(levelLoads) + 1
              else
                objects == s && gameOver.stops == old(gameOver.stops) && camera == old(camera)
                && loadedLevel == old(loadedLevel) && levelLoads == old(levelLoads)
    {
      ObjectPass(dying);
      SurvivorsDistinct(old(objects), dying);
      ghost var survivors := objects;
      assert survivors == Survivors(old(objects), dying);
      assert forall o :: o in survivors ==> !o.dead;
      var due := Reload(gc);
    }

    /** The notification loop: update each one visited, remove it when ended, no step back. */
    method NotifPass(ending: set<FlashNotif>) returns (ghost visited: seq<FlashNotif>)
      requires Distinct(notifs)
      modifies this`notifs, notifs
      ensures Distinct(notifs)
      ensures notifs == NotifSweep(old(notifs), ending)
      ensures visited == NotifVisits(old(notifs), ending)
      ensures forall n :: n in old(notifs) ==> n.ended == if n in visited then (n in ending) else old(n.ended)
      ensures forall n :: n in old(notifs) ==> n.updates == old(n.updates) + if n in visited then 1 else 0
    {
      ghost var ns := notifs;
      ghost var e0 := map n: FlashNotif | n in ns :: n.ended;
      ghost var u0 := map n: FlashNotif | n in ns :: n.updates;
      ghost var k := 0;
      visited := [];
      var i: int := 0;
      while i < |notifs|
        invariant 0 <= i <= |notifs| + 1 && 0 <= k <= |ns|
        invariant Distinct(notifs)
        invariant i <= |notifs| ==> NotifLoopAt(ns, k, notifs, i, visited, ending)
        invariant i == |notifs| + 1 ==> NotifSweep(ns, ending) == notifs && NotifVisits(ns, ending) == visited
        invariant NotifFlagsAt(ns, visited, ending, e0, u0)
        decreases |notifs| - i
      {
        ghost var before := notifs;
        ghost var n := notifs[i];
        NotifStepFresh(ns, k, notifs, i, visited, ending);
        var removed := VisitNotif(i, ending, ns, visited, e0, u0);
        if removed {
          NotifStepRemoved(ns, k, before, i, visited, ending);
          k := if i < |notifs| then k + 2 else k + 1;
        } else {
          NotifStepKept(ns, k, before, i, visited, ending);
          k := k + 1;
        }
        visited := visited + [n];
        i := i + 1;
      }
      if i <= |notifs| {
        assert notifs[i..] == [];
      }
    }

    /** One turn of the notification loop: update the notification at `i`, and remove it once ended. */
    method VisitNotif(i: nat, ending: set<FlashNotif>, ghost ns: seq<FlashNotif>, ghost visited: seq<FlashNotif>,
                      ghost e0: map<FlashNotif, bool>, ghost u0: map<FlashNotif, nat>)
      returns (removed: bool)
      requires i < |notifs| && Distinct(notifs) && notifs[i] in ns && notifs[i] !in visited
      requires NotifFlagsAt(ns, visited, ending, e0, u0)
      modifies this`notifs, notifs[i]
      ensures NotifFlagsAt(ns, visited + [old(notifs[i])], ending, e0, u0)
      ensures removed == (old(notifs[i]) in ending)
      ensures notifs == if removed then old(notifs[..i] + notifs[i + 1..]) else old(notifs)
      ensures Distinct(notifs)
    {
      var n := notifs[i];
      n.Update(n in ending);
      removed := n.ended;
      if removed {
        RemoveKeepsDistinct(notifs, i);
        notifs := notifs[..i] + notifs[i + 1..];
      }
    }

    /** The object loop: update each object once; one that died is removed and the index stepped back. */
    method ObjectPass(dying: set<GameObject>)
      requires Distinct(objects)
      modifies this`objects, objects
      ensures objects == Survivors(old(objects), dying)
      ensures forall o :: o in old(objects) ==> o.updates == old(o.updates) + 1 && o.dead == (o in dying)
      ensures forall o :: o in objects ==> !o.dead
    {
      ghost var os := objects;
      ghost var u0 := map o: GameObject | o in os :: o.updates;
      ghost var k := 0;
      var i: int := 0;
      assert os[..0] == [] && os[0..] == os;
      while i < |objects|
        invariant ObjectLoopAt(os, k, objects, i, dying) && k <= |os| && |objects| - i == |os| - k
        invariant ObjectFlagsAt(os, k, dying, u0)
        decreases |objects| - i
      {
        i := VisitObject(i, dying, os, k, u0);
        i := i + 1;
        k := k + 1;
      }
      ObjectLoopDone(os, k, objects, i, dying);
      SurvivorsAlive(os, dying);
    }

    /**
     * One turn of the object loop on the object at `i`, which is object `k` of the list
     * the pass started from: update it, and if it died remove it and step the index back.
     */
    method VisitObject(i: int, dying: set<GameObject>, ghost os: seq<GameObject>, ghost k: nat,
                       ghost u0: map<GameObject, nat>) returns (j: int)
      requires ObjectLoopAt(os, k, objects, i, dying) && Distinct(os) && i < |objects|
      requires ObjectFlagsAt(os, k, dying, u0)
      modifies this`objects, objects[i]
      ensures k < |os| && ObjectLoopAt(os, k + 1, objects, j + 1, dying) && |objects| - (j + 1) == |os| - (k + 1)
      ensures ObjectFlagsAt(os, k + 1, dying, u0)
    {
      ObjectStep(os, k, objects, i, dying);
      DistinctAt(os, k);
      DistinctAfter(os, k);
      assert os[k..] == [os[k]] + os[k + 1..];
      var o := objects[i];
      o.Update(o in dying);
      j := i;
      if o.dead {
        objects := objects[..i] + objects[i + 1..];
        j := i - 1;
      }
    }

    /** The reload step: with no player and last state 7 or 0, reload the level and respawn. */
    method Reload(gc: Container.GameContainer) returns (due: bool)
      requires Valid()
      modifies this`objects, this`camera, this`loadedLevel, this`levelLoads, gameOver`stops
      ensures due == ReloadDue(old(objects), gc.lastState)
      ensures Distinct(objects)
      ensures due ==>
                |objects| == |old(objects)| + 1 && objects[..|old(objects)|] == old(objects)
                && fresh(objects[|old(objects)|]) && objects[|old(objects)|].tag == "player"
                && !objects[|old(objects)|].dead
                && gameOver.stops == old(gameOver.stops) + 1 && fresh(camera) && camera.target == "player"
                && loadedLevel == LevelPath() && levelLoads == old(levelLoads) + 1
      ensures !due ==>
                objects == old(objects) && gameOver.stops == old(gameOver.stops) && camera == old(camera)
                && loadedLevel == old(loadedLevel) && levelLoads == old(levelLoads)
      ensures (forall o :: o in old(objects) ==> !o.dead) ==> forall o :: o in objects ==> !o.dead
    {
      due := ReloadDue(objects, gc.lastState);
      if due {
        loadedLevel := LevelPath();
        levelLoads := levelLoads + 1;
        gameOver.Stop();
        var player := new GameObject("player");
        objects := objects + [player];
        camera := new Camera("player");
      }
    }
  }
}
