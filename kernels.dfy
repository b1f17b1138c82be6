/** The SPH smoothing kernels of the shader (sketch.js:774-806) and the factors the host
    computes for them (sketch.js:284-294). Every kernel is a polynomial in
    `q = max(1 - r / h, 0)`, so each one vanishes at and beyond the smoothing length `h`.
    `f32` values are modelled as `real`; `PI` is a parameter. */
module Kernels {

  /** The uniforms the kernels read: the smoothing length, its inverse and the six factors. */
  datatype KernelParams = KernelParams(
    h: real, invH: real,
    facSpiky: real, facSpikydiv: real, facNSpiky: real, facNSpikydiv: real,
    facVisclap: real, facSTKernel: real)

  /** What the host's set-up guarantees: a positive `h` with `inv_h` its inverse, positive
      kernel factors, negative gradient factors, each gradient factor the power of `q` times
      its kernel's factor. */
  predicate Valid(k: KernelParams) {
    k.h > 0.0 && k.invH * k.h == 1.0
    && k.facSpiky > 0.0 && k.facNSpiky > 0.0 && k.facVisclap > 0.0 && k.facSTKernel > 0.0
    && k.facSpikydiv == -2.0 * k.facSpiky && k.facNSpikydiv == -3.0 * k.facNSpiky
  }

  /** `updateCustomInputList`'s factors (sketch.js:284-294) for smoothing length `h`. */
  function SetupFactors(h: real, pi: real): (k: KernelParams)
    requires h > 0.0 && pi > 0.0
    ensures Valid(k) && k.h == h
  {
    var h2 := pi * h * h;
    var h4 := 3.0 * pi * h * h * h * h;
    var h6 := pi * h * h * h * h * h * h;
    assert h2 > 0.0 && h4 > 0.0 && h6 > 0.0 by {
      assert h * h > 0.0;
      assert h * h * h * h > 0.0;
      assert h * h * h * h * h * h > 0.0;
    }
    KernelParams(h, 1.0 / h, 6.0 / h2, -12.0 / h2, 10.0 / h2, -30.0 / h2, 20.0 / h4, 32.0 / h6)
  }

  /** `q = max(1 - r * inv_h, 0)`. */
  function Q(r: real, k: KernelParams): real {
    if 1.0 - r * k.invH >= 0.0 then 1.0 - r * k.invH else 0.0
  }

  function Kernel(r: real, k: KernelParams): real {
    k.facSpiky * Q(r, k) * Q(r, k)
  }

  function SKernel(r: real, k: KernelParams): real {
    k.facNSpiky * Q(r, k) * Q(r, k) * Q(r, k)
  }

  function KernelDiv(r: real, k: KernelParams): real {
    k.facSpikydiv * Q(r, k)
  }

  function SKernelDiv(r: real, k: KernelParams): real {
    k.facNSpikydiv * Q(r, k) * Q(r, k)
  }

  function KernelLap(r: real, k: KernelParams): real {
    k.facVisclap * Q(r, k)
  }

  /** The surface-tension kernel: `q^3 r^3`, doubled and shifted down by `h^3 / 64` on the
      inner half of the support. */
  function STKernel(r: real, k: KernelParams): real {
    var c := Q(r, k) * Q(r, k) * Q(r, k) * r * r * r;
    k.facSTKernel * (if 2.0 * r < k.h then 2.0 * c - k.h * k.h * k.h * 0.015625 else c)
  }

  /** `q` runs from 1 at the particle down to 0 at the smoothing length, where it stays: it is
      `1 - r / h` inside the support and zero exactly outside it. */
  lemma QShape(r: real, k: KernelParams)
    requires Valid(k) && r >= 0.0
    ensures 0.0 <= Q(r, k) <= 1.0
    ensures Q(r, k) == 0.0 <==> r >= k.h
    ensures r < k.h ==> Q(r, k) == 1.0 - r / k.h
  {
    assert k.invH == 1.0 / k.h;
    assert r * k.invH == r / k.h;
    if r >= k.h {
      assert r / k.h >= 1.0;
    } else {
      assert r / k.h < 1.0;
    }
  }

  /** Every kernel is zero at and beyond the smoothing length. */
  lemma OutsideSupport(r: real, k: KernelParams)
    requires Valid(k) && r >= k.h
    ensures Kernel(r, k) == 0.0 && SKernel(r, k) == 0.0 && KernelDiv(r, k) == 0.0
    ensures SKernelDiv(r, k) == 0.0 && KernelLap(r, k) == 0.0 && STKernel(r, k) == 0.0
  {
    QShape(r, k);
  }

  /** Inside the support the kernels are positive and the gradients negative. */
  lemma InsideSupport(r: real, k: KernelParams)
    requires Valid(k) && 0.0 <= r < k.h
    ensures Kernel(r, k) > 0.0 && SKernel(r, k) > 0.0 && KernelLap(r, k) > 0.0
    ensures KernelDiv(r, k) < 0.0 && SKernelDiv(r, k) < 0.0
  {
    QShape(r, k);
    var q := Q(r, k);
    assert q * q > 0.0;
    assert q * q * q > 0.0;
    assert k.facSpiky * q * q == k.facSpiky * (q * q);
    assert k.facNSpiky * q * q * q == k.facNSpiky * (q * q * q);
    assert k.facNSpikydiv * q * q == k.facNSpikydiv * (q * q);
  }

  /** `q` does not grow with the distance. */
  lemma QMonotone(r1: real, r2: real, k: KernelParams)
    requires Valid(k) && 0.0 <= r1 <= r2
    ensures Q(r2, k) <= Q(r1, k)
  {
    assert k.invH > 0.0;
    assert r1 * k.invH <= r2 * k.invH;
  }

  /** Squares and cubes of non-negative numbers keep their order. */
  lemma PowersMonotone(a: real, b: real)
    requires 0.0 <= a <= b
    ensures a * a <= b * b && a * a * a <= b * b * b
  {
    assert a * a <= a * b <= b * b;
    assert a * a * a <= a * a * b <= a * b * b <= b * b * b;
  }

  /** Scaling by a non-negative factor keeps the order, by a non-positive one reverses it. */
  lemma ScaleMonotone(fac: real, a: real, b: real)
    requires a <= b
    ensures fac >= 0.0 ==> fac * a <= fac * b
    ensures fac <= 0.0 ==> fac * b <= fac * a
  {
    assert fac * b - fac * a == fac * (b - a);
  }

  /** The kernels fall and the gradients rise towards zero as the distance grows. */
  lemma KernelsMonotone(r1: real, r2: real, k: KernelParams)
    requires Valid(k) && 0.0 <= r1 <= r2
    ensures Kernel(r2, k) <= Kernel(r1, k) && SKernel(r2, k) <= SKernel(r1, k)
    ensures KernelLap(r2, k) <= KernelLap(r1, k)
    ensures KernelDiv(r1, k) <= KernelDiv(r2, k) && SKernelDiv(r1, k) <= SKernelDiv(r2, k)
  {
    QMonotone(r1, r2, k);
    KernelFalls(r1, r2, k);
    SKernelFalls(r1, r2, k);
    GradientsRise(r1, r2, k);
    ScaleMonotone(k.facVisclap, Q(r2, k), Q(r1, k));
  }

  /** The spiky kernel `facSpiky * q^2` falls as `q = h - r` shrinks. */
  lemma KernelFalls(r1: real, r2: real, k: KernelParams)
    requires k.facSpiky >= 0.0 && 0.0 <= Q(r2, k) <= Q(r1, k)
    ensures Kernel(r2, k) <= Kernel(r1, k)
  {
    SquareScaled(k.facSpiky, Q(r2, k), Q(r1, k));
  }

  /** The near-pressure kernel `facNSpiky * q^3` falls as `q` shrinks. */
  lemma SKernelFalls(r1: real, r2: real, k: KernelParams)
    requires k.facNSpiky >= 0.0 && 0.0 <= Q(r2, k) <= Q(r1, k)
    ensures SKernel(r2, k) <= SKernel(r1, k)
  {
    CubeScaled(k.facNSpiky, Q(r2, k), Q(r1, k));
  }

  /** Both gradients carry a non-positive factor, so they rise towards 0 as `q` shrinks. */
  lemma GradientsRise(r1: real, r2: real, k: KernelParams)
    requires k.facSpikydiv <= 0.0 && k.facNSpikydiv <= 0.0 && 0.0 <= Q(r2, k) <= Q(r1, k)
    ensures KernelDiv(r1, k) <= KernelDiv(r2, k) && SKernelDiv(r1, k) <= SKernelDiv(r2, k)
  {
    SquareScaled(k.facNSpikydiv, Q(r2, k), Q(r1, k));
    ScaleMonotone(k.facSpikydiv, Q(r2, k), Q(r1, k));
  }

  lemma SquareScaled(fac: real, a: real, b: real)
    requires 0.0 <= a <= b
    ensures fac >= 0.0 ==> fac * a * a <= fac * b * b
    ensures fac <= 0.0 ==> fac * b * b <= fac * a * a
  {
    PowersMonotone(a, b);
    ScaleMonotone(fac, a * a, b * b);
    assert fac * a * a == fac * (a * a) && fac * b * b == fac * (b * b);
  }

  lemma CubeScaled(fac: real, a: real, b: real)
    requires 0.0 <= a <= b && fac >= 0.0
    ensures fac * a * a * a <= fac * b * b * b
  {
    PowersMonotone(a, b);
    ScaleMonotone(fac, a * a * a, b * b * b);
    assert fac * a * a * a == fac * (a * a * a) && fac * b * b * b == fac * (b * b * b);
  }

  /** Each gradient is minus the derivative of its kernel with respect to `q`:
      `q * dW/dq == n * W` for `W = fac * q^n`. */
  lemma GradientsMatchKernels(r: real, k: KernelParams)
    requires Valid(k)
    ensures KernelDiv(r, k) * Q(r, k) == -2.0 * Kernel(r, k)
    ensures SKernelDiv(r, k) * Q(r, k) == -3.0 * SKernel(r, k)
  {
  }

  /** The two branches of the surface-tension kernel meet at half the smoothing length, where
      it is `h^3 / 64` times its factor. */
  lemma STKernelContinuous(k: KernelParams)
    requires Valid(k)
    ensures STKernel(k.h / 2.0, k) == k.facSTKernel * k.h * k.h * k.h * 0.015625
    ensures var r, q := k.h / 2.0, Q(k.h / 2.0, k);
      k.facSTKernel * (2.0 * q * q * q * r * r * r - k.h * k.h * k.h * 0.015625) == STKernel(r, k)
  {
    var r := k.h / 2.0;
    QShape(r, k);
    assert Q(r, k) == 0.5;
    assert r * r * r == k.h * k.h * k.h / 8.0;
  }

  /** At zero distance the surface-tension kernel is negative: `-h^3 / 64` times its factor. */
  lemma STKernelAtZero(k: KernelParams)
    requires Valid(k)
    ensures STKernel(0.0, k) == -k.facSTKernel * k.h * k.h * k.h * 0.015625 < 0.0
  {
    assert k.h * k.h * k.h > 0.0 by {
      assert k.h * k.h > 0.0;
    }
  }
}
