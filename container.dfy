/**
 * The navigation part of `GameContainer`, the object that owns the window and the
 * top-level loop: the numeric game state and the state visited last (`state`,
 * `lastState`), and the names of the active and previous views (`actiView`,
 * `prevView`). Each engine variant uses a subset of these.
 */
module Container {
  class GameContainer {
    var state: int
    var lastState: int
    var actiView: string
    var prevView: string

    constructor (state: int, lastState: int, actiView: string, prevView: string)
      ensures this.state == state && this.lastState == lastState
      ensures this.actiView == actiView && this.prevView == prevView
    {
      this.state := state;
      this.lastState := lastState;
      this.actiView := actiView;
      this.prevView := prevView;
    }
  }
}
