/** The reflector set the simulator reads: Miller indices with an optional
    complex structure factor and an optional Bragg angle per reflector. */
module Reflectors {
  import opened Results
  import opened Indices

  datatype Complex = Complex(re: real, im: real)

  function Conjugate(z: Complex): Complex
  {
    Complex(z.re, -z.im)
  }

  function Mul(z: Complex, w: Complex): Complex
  {
    Complex(z.re * w.re - z.im * w.im, z.re * w.im + z.im * w.re)
  }

  /** |z|², the squared modulus. */
  function Norm2(z: Complex): real
  {
    z.re * z.re + z.im * z.im
  }

  datatype Factor = Factor(value: Complex, modulus: real)

  /** A structure factor F together with its modulus |F|. Dafny's reals have
      no square root, so the modulus travels with the value and the subset
      type pins it down as the non-negative root of |F|². */
  type StructureFactor = f: Factor | f.modulus >= 0.0 && f.modulus * f.modulus == Norm2(f.value)
    witness Factor(Complex(1.0, 0.0), 1.0)

  /** One reciprocal-lattice vector. `None` stands for an attribute that was
      never calculated upstream. */
  datatype Reflector = Reflector(hkl: Triplet, structureFactor: Option<StructureFactor>, theta: Option<real>)

  /** F · conj(F) is the real number |F|². */
  lemma MulConjugateIsNorm2(z: Complex)
    ensures Mul(z, Conjugate(z)) == Complex(Norm2(z), 0.0)
  {
    assert z.re * -z.im + z.im * z.re == 0.0;
    assert z.re * z.re - z.im * -z.im == z.re * z.re + z.im * z.im;
  }
}
