/** Players of the engine. A player is an object with an id; the engine compares players by
    reference, except where the board's constructor asks whether two players are equal, which
    compares their ids. */
module Players {

  class Player {
    const id: string

    constructor (id: string)
      ensures this.id == id
    {
      this.id := id;
    }
  }
}
