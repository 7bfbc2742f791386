/**
 * The entity record every game object extends: an identifying tag, size, the
 * player statistics and the `dead` flag that asks the manager to drop the object.
 * Positions are floating point and are not part of the model.
 */
module GameObjects {
  class GameObject {
    /** The tag is set once, when the object is made; no method changes it. */
    const tag: string
    var width: int
    var height: int
    var lives: int
    var coins: int
    var keys: int
    var skulls: int
    var dead: bool
    /** How many times the object's own `update` has run. */
    ghost var updates: nat

    /** A new object: every number starts at zero, as Java initialises fields, and it is alive. */
    constructor (tag: string)
      ensures this.tag == tag && !IsDead()
      ensures Width() == 0 && Height() == 0
      ensures Lives() == 0 && Coins() == 0 && Keys() == 0 && Skulls() == 0
      ensures updates == 0
    {
      this.tag := tag;
      width, height := 0, 0;
      lives, coins, keys, skulls := 0, 0, 0, 0;
      dead := false;
      updates := 0;
    }

    function Tag(): string {
      tag
    }

    function Width(): int
      reads this
    {
      width
    }

    function Height(): int
      reads this
    {
      height
    }

    function IsDead(): bool
      reads this
    {
      dead
    }

    function Lives(): int
      reads this
    {
      lives
    }

    function Coins(): int
      reads this
    {
      coins
    }

    function Keys(): int
      reads this
    {
      keys
    }

    function Skulls(): int
      reads this
    {
      skulls
    }

    method SetDead(b: bool)
      modifies this`dead
      ensures IsDead() == b
    {
      dead := b;
    }

    method SetLives(n: int)
      modifies this`lives
      ensures Lives() == n
    {
      lives := n;
    }

    method SetCoins(n: int)
      modifies this`coins
      ensures Coins() == n
    {
      coins := n;
    }

    method SetKeys(n: int)
      modifies this`keys
      ensures Keys() == n
    {
      keys := n;
    }

    method SetSkulls(n: int)
      modifies this`skulls
      ensures Skulls() == n
    {
      skulls := n;
    }

    /**
     * The object's own per-frame update, whose body belongs to each kind of object.
     * Of its effect the model keeps only what the manager looks at: whether the
     * object has marked itself dead.
     */
    method Update(dies: bool)
      modifies this
      ensures IsDead() == dies && updates == old(updates) + 1
    {
      dead := dies;
      updates := updates + 1;
    }
  }
}
