/** Remainders by a variable modulus, kept away from the other proofs. */
module Modular {

  lemma TimesMonotone(m: nat, a: nat, b: nat)
    requires a <= b
    ensures m * a <= m * b
  {
  }

  lemma ModNone(x: nat, d: nat)
    requires x < d
    ensures x % d == x
  {
  }

  lemma ModOnce(x: nat, d: nat)
    requires 0 < d <= x < 2 * d
    ensures x % d == x - d
  {
    var q := x / d;
    assert x == d * q + x % d;
    if q >= 2 {
      TimesMonotone(d, 2, q);
      assert false;
    }
  }

  /** j modulo l, by subtraction. */
  function Wrap(j: nat, l: nat): (r: nat)
    requires l > 0
    ensures r < l
    decreases j
  {
    if j < l then j else Wrap(j - l, l)
  }

  lemma {:induction false} WrapIsModulo(j: nat, l: nat)
    requires l > 0
    ensures Wrap(j, l) == j % l
    decreases j
  {
    if j < l {
      ModNone(j, l);
    } else {
      WrapIsModulo(j - l, l);
      ModPlus(j - l, l);
    }
  }

  lemma ModPlus(x: nat, l: nat)
    requires l > 0
    ensures (x + l) % l == x % l
  {
    var r := x % l;
    assert x == l * (x / l) + r;
    var q := (x + l) / l;
    assert x + l == l * q + (x + l) % l;
    assert x + l == l * (x / l + 1) + r;
    if q <= x / l {
      TimesMonotone(l, q, x / l);
      assert false;
    }
    if q >= x / l + 2 {
      TimesMonotone(l, x / l + 2, q);
      assert false;
    }
  }

  lemma {:induction false} WrapAdd(x: nat, y: nat, l: nat)
    requires l > 0
    ensures Wrap(Wrap(x, l) + y, l) == Wrap(x + y, l)
    decreases x
  {
    if x >= l {
      WrapAdd(x - l, y, l);
    }
  }

  lemma {:induction false} WrapTimes(q: nat, z: nat, l: nat)
    requires l > 0
    ensures Wrap(l * q + z, l) == Wrap(z, l)
    decreases q
  {
    if q > 0 {
      assert l * q + z == l * (q - 1) + z + l;
      TimesMonotone(l, 0, q - 1);
      WrapTimes(q - 1, z, l);
    }
  }

  /** One step of a cursor below l: the program computes (p + 1) % l. */
  lemma WrapStep(p: nat, l: nat)
    requires p < l
    ensures (p + 1) % l == Wrap(p + 1, l)
  {
    if p + 1 < l {
      ModNone(p + 1, l);
    } else {
      ModOnce(p + 1, l);
    }
  }
}
