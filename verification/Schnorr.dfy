/**
 The smoke agent's pure BIP-340 signer over an abstract curve: an abelian group with a
 generator of known order, and coordinates in which negation flips the parity of y.
 */
module Schnorr {
  import opened Wrappers

  /** `zero` is the point at infinity (None in the source). */
  datatype Curve<!P> = Curve(
    add: (P, P) -> P, zero: P, neg: P -> P, g: P, order: nat, x: P -> nat, evenY: P -> bool)

  ghost predicate Group<P(!new)>(c: Curve<P>) {
    && (forall p, q :: c.add(p, q) == c.add(q, p))
    && (forall p, q, r :: c.add(c.add(p, q), r) == c.add(p, c.add(q, r)))
    && (forall p :: c.add(p, c.zero) == p)
    && (forall p :: c.add(p, c.neg(p)) == c.zero)
  }

  /** The generator's order, and what negation does to coordinates. */
  ghost predicate Lawful<P(!new)>(c: Curve<P>) {
    && Group(c) && c.order > 0
    && Times(c, c.order, c.g) == c.zero
    && (forall k: nat :: 0 < k < c.order ==> Times(c, k, c.g) != c.zero)
    && (forall p :: p != c.zero ==> c.x(c.neg(p)) == c.x(p) && c.evenY(c.neg(p)) == !c.evenY(p))
  }

  /** k-fold addition of p. */
  ghost function Times<P>(c: Curve<P>, k: nat, p: P): P {
    if k == 0 then c.zero else c.add(Times(c, k - 1, p), p)
  }

  lemma Commutes<P(!new)>(c: Curve<P>, p: P, q: P)
    requires Group(c)
    ensures c.add(p, q) == c.add(q, p)
  {
  }

  lemma Associates<P(!new)>(c: Curve<P>, p: P, q: P, r: P)
    requires Group(c)
    ensures c.add(c.add(p, q), r) == c.add(p, c.add(q, r))
  {
  }

  lemma Identity<P(!new)>(c: Curve<P>, p: P)
    requires Group(c)
    ensures c.add(p, c.zero) == p && c.add(c.zero, p) == p && c.add(p, c.neg(p)) == c.zero
  {
    Commutes(c, c.zero, p);
  }

  lemma {:induction false} TimesAdd<P(!new)>(c: Curve<P>, k: nat, m: nat, p: P)
    requires Group(c)
    ensures Times(c, k + m, p) == c.add(Times(c, k, p), Times(c, m, p))
  {
    hide Group;
    if m == 0 {
      Identity(c, Times(c, k, p));
    } else {
      TimesAdd(c, k, m - 1, p);
      assert k + m - 1 == k + (m - 1);
      Associates(c, Times(c, k, p), Times(c, m - 1, p), p);
    }
  }

  lemma {:induction false} TimesZero<P(!new)>(c: Curve<P>, k: nat)
    requires Group(c)
    ensures Times(c, k, c.zero) == c.zero
  {
    hide Group;
    Identity(c, c.zero);
    if k > 0 { TimesZero(c, k - 1); }
  }

  lemma TimesOnce<P(!new)>(c: Curve<P>, p: P)
    requires Group(c)
    ensures Times(c, 1, p) == p && Times(c, 2, p) == c.add(p, p)
  {
    hide Group;
    Identity(c, p);
    assert Times(c, 1, p) == c.add(Times(c, 0, p), p);
    assert Times(c, 2, p) == c.add(Times(c, 1, p), p);
  }

  lemma {:induction false} TimesTimes<P(!new)>(c: Curve<P>, k: nat, m: nat, p: P)
    requires Group(c)
    ensures Times(c, k * m, p) == Times(c, k, Times(c, m, p))
  {
    hide Group;
    if k > 0 {
      TimesTimes(c, k - 1, m, p);
      assert k * m == (k - 1) * m + m;
      TimesAdd(c, (k - 1) * m, m, p);
    }
  }

  /** Double-and-add computes k-fold addition; it fails only where the sum is the infinite point. */
  method PMul<P(!new, ==)>(c: Curve<P>, k: nat) returns (r: Option<P>)
    requires Group(c)
    ensures r == if Times(c, k, c.g) == c.zero then None else Some(Times(c, k, c.g))
  {
    hide Group;
    Identity(c, Times(c, k, c.g));
    var q, p, n := c.zero, c.g, k;
    while n > 0
      invariant c.add(q, Times(c, n, p)) == Times(c, k, c.g)
    {
      Halve(c, n, q, p);
      if n % 2 == 1 {
        q := c.add(q, p);
      }
      p := c.add(p, p);
      n := n / 2;
    }
    Identity(c, q);
    r := if q == c.zero then None else Some(q);
  }

  lemma Halve<P(!new)>(c: Curve<P>, n: nat, q: P, p: P)
    requires Group(c) && n > 0
    ensures var q' := if n % 2 == 1 then c.add(q, p) else q;
      c.add(q', Times(c, n / 2, c.add(p, p))) == c.add(q, Times(c, n, p))
  {
    hide Group, Times;
    var h := n / 2;
    TimesOnce(c, p);
    TimesTimes(c, h, 2, p);
    if n % 2 == 1 {
      assert n == 1 + h * 2;
      TimesAdd(c, 1, h * 2, p);
      Associates(c, q, p, Times(c, h * 2, p));
    } else {
      assert n == h * 2;
    }
  }

  lemma OrderFacts<P(!new)>(c: Curve<P>)
    requires Lawful(c)
    ensures Group(c) && c.order > 0 && Times(c, c.order, c.g) == c.zero
  {
  }

  lemma DivMod(k: nat, n: nat)
    requires n > 0
    ensures k == k / n * n + k % n && k / n >= 0 && k / n * n >= 0
  {
  }

  lemma MultiplesVanish<P(!new)>(c: Curve<P>, q: nat)
    requires Lawful(c)
    ensures Times(c, q * c.order, c.g) == c.zero
  {
    hide Group, Times, Lawful;
    OrderFacts(c);
    TimesTimes(c, q, c.order, c.g);
    TimesZero(c, q);
  }

  lemma AddVanishing<P(!new)>(c: Curve<P>, a: nat, r: nat)
    requires Group(c) && Times(c, a, c.g) == c.zero
    ensures Times(c, a + r, c.g) == Times(c, r, c.g)
  {
    hide Group, Times;
    TimesAdd(c, a, r, c.g);
    Identity(c, Times(c, r, c.g));
  }

  lemma TimesModOrder<P(!new)>(c: Curve<P>, k: nat, r: nat)
    requires Lawful(c) && c.order > 0 && r == k % c.order
    ensures Times(c, r, c.g) == Times(c, k, c.g)
  {
    hide Group, Times, Lawful;
    OrderFacts(c);
    DivMod(k, c.order);
    var q := k / c.order;
    MultiplesVanish(c, q);
    var a := q * c.order;
    AddVanishing(c, a, r);
  }

  lemma NegUnique<P(!new)>(c: Curve<P>, p: P, q: P)
    requires Group(c) && c.add(p, q) == c.zero
    ensures q == c.neg(p)
  {
    hide Group;
    calc {
      q;
      { Identity(c, q); Identity(c, p); }
      c.add(q, c.add(p, c.neg(p)));
      { Associates(c, q, p, c.neg(p)); }
      c.add(c.add(q, p), c.neg(p));
      { Commutes(c, p, q); }
      c.add(c.zero, c.neg(p));
      { Identity(c, c.neg(p)); }
      c.neg(p);
    }
  }

  lemma TimesFlipped<P(!new)>(c: Curve<P>, d: nat)
    requires Lawful(c) && d <= c.order
    ensures Times(c, c.order - d, c.g) == c.neg(Times(c, d, c.g))
  {
    hide Group, Times;
    TimesAdd(c, d, c.order - d, c.g);
    NegUnique(c, Times(c, d, c.g), Times(c, c.order - d, c.g));
  }

  // ---- Signing and verifying -------------------------------------------------------

  /** Hashes reduced to numbers: the nonce of (d, Px, msg) and the challenge of (Rx, Px, msg). */
  datatype Hashes = Hashes(nonce: (nat, nat, string) -> nat, challenge: (nat, nat, string) -> nat)

  datatype Fault = DegenerateScalar | NegativeKey | DegenerateNonce

  /** The point with this x and even y that verification lifts a public key to. */
  ghost predicate Lifts<P>(c: Curve<P>, px: nat, p: P) { p != c.zero && c.x(p) == px && c.evenY(p) }

  /** The "Verification" section of BIP-340: R = s*G - e*P is finite, has even y and x = rx. */
  ghost predicate Verifies<P>(c: Curve<P>, h: Hashes, p: P, px: nat, msg: string, rx: nat, s: nat)
    requires c.order > 0
  {
    && Lifts(c, px, p) && s < c.order
    && var e := h.challenge(rx, px, msg) % c.order;
       var r := c.add(Times(c, s, c.g), c.neg(Times(c, e, p)));
       r != c.zero && c.evenY(r) && c.x(r) == rx
  }

  /** A scalar and its parity-flipped twin give the even-y point with the same x. */
  lemma EvenTwin<P(!new)>(c: Curve<P>, k: nat)
    requires Lawful(c) && Times(c, k, c.g) != c.zero
    ensures var p := Times(c, k, c.g);
      && (c.evenY(p) ==> Lifts(c, c.x(p), p))
      && (!c.evenY(p) && k <= c.order ==> Lifts(c, c.x(p), Times(c, c.order - k, c.g)))
  {
    hide Group, Times;
    var p := Times(c, k, c.g);
    Identity(c, p);
    if !c.evenY(p) && k <= c.order { TimesFlipped(c, k); }
  }

  lemma EquationHolds<P(!new)>(c: Curve<P>, k: nat, e: nat, d: nat, ed: nat, s: nat)
    requires Lawful(c) && c.order > 0 && ed == e * d && s == (k + ed) % c.order
    ensures c.add(Times(c, s, c.g), c.neg(Times(c, e, Times(c, d, c.g)))) == Times(c, k, c.g)
  {
    hide Group, Times, Lawful;
    OrderFacts(c);
    TimesModOrder(c, k + ed, s);
    TimesAdd(c, k, ed, c.g);
    TimesTimes(c, e, d, c.g);
    var r, ep := Times(c, k, c.g), Times(c, e, Times(c, d, c.g));
    Associates(c, r, ep, c.neg(ep));
    Identity(c, ep);
    Identity(c, r);
  }

  /**
   `_schnorr_sign`. Every signature it returns satisfies the verification equation for the
   signer's x-only key, whichever of the two parity flips were taken; it fails exactly for a
   scalar whose point is infinite, an out-of-range scalar that needs flipping, or a zero nonce.
   */
  method SchnorrSign<P(!new, ==)>(c: Curve<P>, h: Hashes, d0: nat, msg: string)
    returns (r: Result<(nat, nat), Fault>, ghost key: P)
    requires Lawful(c)
    ensures r.Ok? ==> Verifies(c, h, key, c.x(Times(c, d0, c.g)), msg, r.value.0, r.value.1)
    ensures r.Ok? ==> var p := Times(c, d0, c.g);
      var k := h.nonce(if c.evenY(p) || d0 > c.order then d0 else c.order - d0, c.x(p), msg) % c.order;
      r.value.0 == c.x(Times(c, k, c.g))
    ensures r == Err(DegenerateScalar) <==> Times(c, d0, c.g) == c.zero
    ensures r == Err(NegativeKey) <==>
      Times(c, d0, c.g) != c.zero && !c.evenY(Times(c, d0, c.g)) && d0 > c.order
    ensures r == Err(DegenerateNonce) <==>
      var p := Times(c, d0, c.g);
      p != c.zero && (c.evenY(p) || d0 <= c.order)
      && h.nonce(if c.evenY(p) then d0 else c.order - d0, c.x(p), msg) % c.order == 0
    ensures 0 < d0 < c.order ==> r.Ok? || r == Err(DegenerateNonce)
  {
    hide Group, Times;
    key := c.zero;
    var p := PMul(c, d0);
    if p.None? { return Err(DegenerateScalar), key; }
    var px := c.x(p.value);
    if !c.evenY(p.value) && d0 > c.order { return Err(NegativeKey), key; }
    var d := if c.evenY(p.value) then d0 else c.order - d0;
    EvenTwin(c, d0);
    key := Times(c, d, c.g);
    var k0 := h.nonce(d, px, msg) % c.order;
    if k0 == 0 { return Err(DegenerateNonce), key; }
    var point := PMul(c, k0);
    EvenTwin(c, k0);
    var k := if c.evenY(point.value) then k0 else c.order - k0;
    var rx := c.x(point.value);
    var e := h.challenge(rx, px, msg) % c.order;
    var s := (k + e * d) % c.order;
    EquationHolds(c, k, e, d, e * d, s);
    return Ok((rx, s)), key;
  }

  /** The laws are consistent: the group of three elements satisfies them. */
  datatype Three = O | A | B

  function AddThree(p: Three, q: Three): Three {
    match (p, q)
    case (O, _) => q
    case (_, O) => p
    case (A, A) => B
    case (B, B) => A
    case _ => O
  }

  lemma LawsAreConsistent()
    ensures exists c: Curve<Three> :: Lawful(c)
  {
    var c := Curve(AddThree, O, (p: Three) => match p case O => O case A => B case B => A, A, 3,
                   (p: Three) => if p == O then 0 else 1, (p: Three) => p == A);
    assert Times(c, 1, A) == A;
    assert Times(c, 2, A) == B;
    assert Times(c, 3, A) == O;
    assert Group(c);
    forall k: nat | 0 < k < 3 ensures Times(c, k, A) != O { assert k == 1 || k == 2; }
    assert Lawful(c);
  }
}
