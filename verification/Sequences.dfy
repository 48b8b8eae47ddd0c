/** Sequences of pieces. */
module Sequences {

  /** The pieces one after the other. */
  function Flat<T>(pieces: seq<seq<T>>): seq<T> {
    if pieces == [] then [] else pieces[0] + Flat(pieces[1..])
  }
}
