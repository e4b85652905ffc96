/** What several modules need of sequences. */
module Sequences {

  lemma Regroup<T>(a: seq<T>, b: seq<T>, c: seq<T>)
    ensures a + (b + c) == a + b + c
  {
  }

  predicate Increasing(places: seq<nat>) {
    forall i, j :: 0 <= i < j < |places| ==> places[i] < places[j]
  }

  /** The text blanked out, but for its line breaks. */
  function Whitened(text: string): (out: string)
    ensures |out| == |text|
    ensures forall i :: 0 <= i < |text| ==> out[i] == if text[i] == '\n' then '\n' else ' '
  {
    seq(|text|, i requires 0 <= i < |text| => if text[i] == '\n' then '\n' else ' ')
  }
}
