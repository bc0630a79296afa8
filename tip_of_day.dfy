/** The tip shown once per mount: one of a fixed list, picked with the
    browser's random number. */
module TipOfDay {

  const Tips: seq<string> := [
    "Use vinegar + lemon for mirror shine",
    "Baking soda removes fridge odors",
    "Clean fans monthly to reduce dust",
    "Use microfiber cloths for glass cleaning"
  ]

  /** The index the component computes from a random number in [0, 1):
      the floor of the number times the number of tips, always a valid index. */
  function TipIndex(random: real): (i: int)
    requires 0.0 <= random < 1.0
    ensures 0 <= i < |Tips|
  {
    (random * |Tips| as real).Floor
  }

  /** The tip for a random number; always one of the tips. */
  function PickTip(random: real): (tip: string)
    requires 0.0 <= random < 1.0
    ensures tip in Tips
  {
    Tips[TipIndex(random)]
  }

  /** No tip is left out: each index is reached by some random number. */
  lemma EveryTipReachable(k: int)
    requires 0 <= k < |Tips|
    ensures exists random :: 0.0 <= random < 1.0 && TipIndex(random) == k
  {
    var random := k as real / |Tips| as real;
    assert random * |Tips| as real == k as real;
    assert TipIndex(random) == k;
  }
}
