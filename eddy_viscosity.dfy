/** Algebraic eddy-viscosity closures: a closure keeps the dictionary it was
    built from and maps the distances of points from the wall to the eddy
    viscosity there. The Van Driest damping law is the one modelled. */
module EddyViscosities {
  import opened Geometry
  import opened Dictionaries

  function Sqr(x: real): (r: real)
    ensures r >= 0.0
  {
    x * x
  }

  /** The Van Driest closure: the dictionary it was built from, and its two
      constants, the damping constant `APlus` and the von Karman constant
      `kappa`. */
  datatype VanDriest = VanDriest(dict: Dict, APlus: real, kappa: real)
  {
    /** `constDict()`: the dictionary the closure was built from. */
    function ConstDict(): (d: Dict)
      ensures d == dict
    {
      dict
    }

    /** The eddy viscosity at distance `y` from the wall, for friction
        velocity `uTau` and kinematic viscosity `nu`:
        `kappa uTau y (1 - exp(-y+ / APlus))^2` with `y+ = y uTau / nu`. */
    function NutAt(y: real, uTau: real, nu: real, math: Math): (nut: real)
      requires nu != 0.0 && APlus != 0.0
      ensures y == 0.0 ==> nut == 0.0
      ensures kappa >= 0.0 && uTau >= 0.0 && y >= 0.0 ==> nut >= 0.0
    {
      var damping := Sqr(1.0 - math.exp(-(y * uTau / nu) / APlus));
      assert y == 0.0 ==> kappa * uTau * y * damping == 0.0;
      assert kappa >= 0.0 && uTau >= 0.0 && y >= 0.0 ==> kappa * uTau * y * damping >= 0.0 by {
        if kappa >= 0.0 && uTau >= 0.0 && y >= 0.0 {
          ProductNonNegative(kappa, uTau);
          ProductNonNegative(kappa * uTau, y);
          ProductNonNegative(kappa * uTau * y, damping);
        }
      }
      kappa * uTau * y * damping
    }

    /** `value(y, uTau, nu)`: the eddy viscosity at every distance of `y`,
        computed into a fresh list; nothing else changes. */
    method Value(y: seq<real>, uTau: real, nu: real, math: Math) returns (values: seq<real>)
      requires nu != 0.0 && APlus != 0.0
      ensures |values| == |y|
      ensures forall i :: 0 <= i < |y| ==> values[i] == NutAt(y[i], uTau, nu, math)
    {
      var yPlus := seq(|y|, i requires 0 <= i < |y| => y[i] * uTau / nu);
      values := seq(|y|, _ => 0.0);
      for i := 0 to |values|
        invariant |values| == |y|
        invariant forall k :: 0 <= k < i ==> values[k] == NutAt(y[k], uTau, nu, math)
      {
        assert yPlus[i] == y[i] * uTau / nu;
        values := values[i := kappa * uTau * y[i] * Sqr(1.0 - math.exp(-yPlus[i] / APlus))];
      }
    }
  }

  /** The default constants, used when the dictionary does not give them. */
  const DefaultAPlus: real := 18.0
  const DefaultKappa: real := 0.4

  /** Construction from a dictionary: the dictionary is kept as given and
      each constant is read from it, or defaulted when it is absent. */
  function FromDict(d: Dict): (m: VanDriest)
    ensures m.ConstDict() == d
    ensures m.APlus == LookupOrDefault(d, "APlus", DefaultAPlus)
    ensures m.kappa == LookupOrDefault(d, "kappa", DefaultKappa)
  {
    VanDriest(d, LookupOrDefault(d, "APlus", DefaultAPlus), LookupOrDefault(d, "kappa", DefaultKappa))
  }

  /** Construction from a model name and a dictionary: the name has no
      effect on the closure. */
  function FromNameAndDict(modelName: string, d: Dict): (m: VanDriest)
    ensures m == FromDict(d)
  {
    FromDict(d)
  }

  /** A dictionary that names neither constant gives `APlus = 18` and
      `kappa = 0.4`; one that names them gives exactly those values. */
  lemma DefaultsAndOverrides(d: Dict)
    ensures "APlus" !in d.scalars ==> FromDict(d).APlus == 18.0
    ensures "kappa" !in d.scalars ==> FromDict(d).kappa == 0.4
    ensures "APlus" in d.scalars ==> FromDict(d).APlus == d.scalars["APlus"]
    ensures "kappa" in d.scalars ==> FromDict(d).kappa == d.scalars["kappa"]
  {
  }

  /** The model name never matters: two closures built from the same
      dictionary under any two names are the same closure. */
  lemma ModelNameIgnored(a: string, b: string, d: Dict)
    ensures FromNameAndDict(a, d) == FromNameAndDict(b, d)
  {
  }

  lemma ProductNonNegative(a: real, b: real)
    requires a >= 0.0 && b >= 0.0
    ensures a * b >= 0.0
  {
  }

  /** Every value `Value` returns for non-negative distances is non-negative,
      and the value at a distance of zero is zero. */
  lemma ValuesSigns(m: VanDriest, y: seq<real>, values: seq<real>, uTau: real, nu: real, math: Math, i: nat)
    requires nu != 0.0 && m.APlus != 0.0
    requires |values| == |y| && i < |y|
    requires forall k :: 0 <= k < |y| ==> values[k] == m.NutAt(y[k], uTau, nu, math)
    ensures y[i] == 0.0 ==> values[i] == 0.0
    ensures m.kappa >= 0.0 && uTau >= 0.0 && y[i] >= 0.0 ==> values[i] >= 0.0
  {
    assert values[i] == m.NutAt(y[i], uTau, nu, math);
  }
}
