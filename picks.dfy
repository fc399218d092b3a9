/** The server's random choices. The word draw and the imposter draw each become a
    parameter `roll` in [0, 1), taken as an exact real, so every index in [0, n) can
    be drawn; the room code is an input that only has the shape of a generated code. */
module Picks {
  import opened Types

  /** A room code: what the base-36 rendering of a random fraction gives once its
      "0." prefix is dropped, cut to six characters and upper-cased. */
  predicate IsRoomCode(code: string) {
    |code| <= 6 && forall i :: 0 <= i < |code| ==> '0' <= code[i] <= '9' || 'A' <= code[i] <= 'Z'
  }

  /** Math.floor(roll * n): a position drawn from [0, n). */
  function RandomIndex(roll: real, n: nat): (i: nat)
    requires 0.0 <= roll < 1.0 && n > 0
    ensures i < n
    ensures i as real <= roll * n as real < i as real + 1.0
  {
    ScaledRollBounds(roll, n);
    (roll * n as real).Floor
  }

  /** A roll scaled by a positive count lies in [0, count). */
  lemma {:induction false} ScaledRollBounds(roll: real, n: nat)
    requires 0.0 <= roll < 1.0 && n > 0
    ensures 0.0 <= roll * n as real < n as real
  {
    assert roll * n as real < 1.0 * n as real;
  }

  /** The word for a new game: an entry of the word list at a random position. */
  function RandomWord(roll: real): (w: string)
    requires 0.0 <= roll < 1.0
    ensures w in WordList
  {
    WordList[RandomIndex(roll, |WordList|)]
  }
}
