/** The two scoring strategies of engine.py: a weighted sum (dot product) and a
    cosine similarity between the user's traits and a career's weights. */
module Scoring {
  import opened Dicts
  import opened Builtins

  /** The trait value a scorer uses for key `t`: `traits.get(t, 0.0)`. */
  function TraitOf(traits: Dict<string, real>, t: string): real {
    Get(traits, t, 0.0)
  }

  /** Every weight is zero (this includes an empty weight mapping). */
  predicate ZeroWeights(weights: seq<(string, real)>) {
    forall i :: 0 <= i < |weights| ==> weights[i].1 == 0.0
  }

  /** The user's traits restricted to the keys of `weights` are all zero. */
  predicate ZeroTraitsOn(traits: Dict<string, real>, weights: seq<(string, real)>) {
    forall i :: 0 <= i < |weights| ==> TraitOf(traits, weights[i].0) == 0.0
  }

  /** `sum(traits.get(t, 0.0) * w for t, w in weights.items())`: the weighted
      score.  It is 0 when every weight is 0 or every relevant trait is 0. */
  function Dot(traits: Dict<string, real>, weights: seq<(string, real)>): (r: real)
    ensures ZeroWeights(weights) ==> r == 0.0
    ensures ZeroTraitsOn(traits, weights) ==> r == 0.0
  {
    if weights == [] then 0.0
    else TraitOf(traits, weights[0].0) * weights[0].1 + Dot(traits, weights[1..])
  }

  /** Real multiplication, kept behind a function so that the solver reasons
      about a square as a product of two factors. */
  function Product(a: real, b: real): real {
    a * b
  }

  /** Two factors of the same sign have a positive product. */
  lemma ProductPositive(a: real, b: real)
    requires (a > 0.0 && b > 0.0) || (a < 0.0 && b < 0.0)
    ensures Product(a, b) > 0.0
  {
    if a < 0.0 {
      assert Product(a, b) == (-a) * (-b);
    }
  }

  /** `x ** 2`: never negative, and 0 only for 0. */
  function Squared(x: real): (r: real)
    ensures r >= 0.0
    ensures x != 0.0 ==> r > 0.0
    ensures x == 0.0 ==> r == 0.0
  {
    if x != 0.0 then ProductPositive(x, x); Product(x, x)
    else Product(x, x)
  }

  /** `sum(traits.get(t, 0.0) ** 2 for t in weights)`: the squared norm of the
      user's traits restricted to the weight keys.  It is never negative and is
      0 exactly when those traits are all 0. */
  function TraitNormSquared(traits: Dict<string, real>, weights: seq<(string, real)>): (r: real)
    ensures r >= 0.0
    ensures r == 0.0 <==> ZeroTraitsOn(traits, weights)
  {
    if weights == [] then 0.0
    else
      var x := TraitOf(traits, weights[0].0);
      var rest := TraitNormSquared(traits, weights[1..]);
      assert ZeroTraitsOn(traits, weights) <==> x == 0.0 && ZeroTraitsOn(traits, weights[1..]) by {
        if x == 0.0 && ZeroTraitsOn(traits, weights[1..]) {
          forall i | 0 <= i < |weights| ensures TraitOf(traits, weights[i].0) == 0.0 {
            if i > 0 { assert weights[i] == weights[1..][i - 1]; }
          }
        }
      }
      Squared(x) + rest
  }

  /** `sum(w ** 2 for w in weights.values())`: the squared norm of the weights.
      It is never negative and is 0 exactly when every weight is 0. */
  function WeightNormSquared(weights: seq<(string, real)>): (r: real)
    ensures r >= 0.0
    ensures r == 0.0 <==> ZeroWeights(weights)
  {
    if weights == [] then 0.0
    else
      var w := weights[0].1;
      var rest := WeightNormSquared(weights[1..]);
      assert ZeroWeights(weights) <==> w == 0.0 && ZeroWeights(weights[1..]) by {
        if w == 0.0 && ZeroWeights(weights[1..]) {
          forall i | 0 <= i < |weights| ensures weights[i].1 == 0.0 {
            if i > 0 { assert weights[i] == weights[1..][i - 1]; }
          }
        }
      }
      Squared(w) + rest
  }

  /** What the model assumes of `math.sqrt` on the non-negative numbers it is
      applied to: the result is non-negative and is 0 only for 0. */
  ghost predicate IsSqrt(sqrt: real -> real) {
    forall x :: x >= 0.0 ==> sqrt(x) >= 0.0 && (sqrt(x) == 0.0 <==> x == 0.0)
  }

  /** The cosine score: the dot product over the product of the two norms, or
      0.0 when either norm is 0.  It is 0.0 for all-zero (or no) weights and
      for a user whose relevant traits are all 0; otherwise it is the dot
      product divided by a positive number, so it has the dot product's sign. */
  function Cosine(traits: Dict<string, real>, weights: seq<(string, real)>, sqrt: real -> real): (r: real)
    ensures IsSqrt(sqrt) && (ZeroWeights(weights) || ZeroTraitsOn(traits, weights)) ==> r == 0.0
    ensures IsSqrt(sqrt) && !ZeroWeights(weights) && !ZeroTraitsOn(traits, weights) ==>
      var den := sqrt(TraitNormSquared(traits, weights)) * sqrt(WeightNormSquared(weights));
      && den > 0.0
      && r == Dot(traits, weights) / den
      && (r > 0.0 <==> Dot(traits, weights) > 0.0)
      && (r < 0.0 <==> Dot(traits, weights) < 0.0)
  {
    var num := Dot(traits, weights);
    var den1 := sqrt(TraitNormSquared(traits, weights));
    var den2 := sqrt(WeightNormSquared(weights));
    if den1 == 0.0 || den2 == 0.0 then 0.0
    else
      assert den1 * den2 != 0.0;
      SignOfQuotient(num, den1 * den2);
      num / (den1 * den2)
  }

  lemma SignOfQuotient(n: real, d: real)
    requires d > 0.0 || d != 0.0
    ensures d > 0.0 ==> (n / d > 0.0 <==> n > 0.0) && (n / d < 0.0 <==> n < 0.0)
  {
  }

  /** The scoring strategy a recommender uses. */
  datatype Scorer = WeightedScorer | CosineScorer

  /** `scorer.score(traits, weights)`.  Either strategy scores 0 for a career
      with no (or only zero) weights and for a user whose traits on the
      career's weight keys are all 0. */
  function Score(scorer: Scorer, traits: Dict<string, real>, weights: seq<(string, real)>, sqrt: real -> real): (r: real)
    ensures IsSqrt(sqrt) && (ZeroWeights(weights) || ZeroTraitsOn(traits, weights)) ==> r == 0.0
  {
    match scorer
    case WeightedScorer => Dot(traits, weights)
    case CosineScorer => Cosine(traits, weights, sqrt)
  }
}
