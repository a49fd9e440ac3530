/** Abelian groups as records of operations, and integer powers in them. */
module Groups {

  /** An abelian group, written multiplicatively. */
  datatype Group<!T(!new)> = Group(one: T, mul: (T, T) -> T, inv: T -> T) {
    ghost predicate Comm(x: T, y: T) { mul(x, y) == mul(y, x) }
    ghost predicate Assoc(x: T, y: T, z: T) { mul(mul(x, y), z) == mul(x, mul(y, z)) }
    ghost predicate One(x: T) { mul(x, one) == x }
    ghost predicate Inv(x: T) { mul(x, inv(x)) == one }

    ghost predicate Lawful() {
      (forall x, y :: Comm(x, y)) && (forall x, y, z :: Assoc(x, y, z)) && (forall x :: One(x)) && forall x :: Inv(x)
    }

    lemma Cancel(x: T, y: T, z: T)
      requires Lawful() && mul(x, z) == mul(y, z)
      ensures x == y
    {
      assert Assoc(x, z, inv(z)) && Assoc(y, z, inv(z)) && Inv(z) && One(x) && One(y);
    }

    lemma OneMul(x: T)
      requires Lawful()
      ensures mul(one, x) == x
    {
      assert Comm(one, x) && One(x);
    }

    /** x * y == 1 and z * y == 1 force x == z. */
    lemma InverseUnique(x: T, y: T, z: T)
      requires Lawful() && mul(z, y) == one
      ensures mul(x, y) == one <==> x == z
    {
      if mul(x, y) == one {
        Cancel(x, z, y);
      }
    }
  }

  ghost function PowNat<T(!new)>(G: Group<T>, g: T, n: nat): T {
    if n == 0 then G.one else G.mul(PowNat(G, g, n - 1), g)
  }

  /** g^n for any integer n. */
  ghost function Pow<T(!new)>(G: Group<T>, g: T, n: int): T {
    if n >= 0 then PowNat(G, g, n) else G.inv(PowNat(G, g, -n))
  }

  lemma PowNext<T(!new)>(G: Group<T>, g: T, n: int)
    requires G.Lawful()
    ensures Pow(G, g, n + 1) == G.mul(Pow(G, g, n), g)
  {
    if n < 0 {
      var k := -n;
      var a, b := PowNat(G, g, k), PowNat(G, g, k - 1);
      // a == b * g, so inv(a) * g == inv(b)
      assert a == G.mul(b, g);
      assert G.Inv(a) && G.Inv(b) && G.Comm(a, G.inv(a)) && G.Comm(b, G.inv(b));
      assert G.Comm(b, g) && G.Assoc(G.inv(a), g, b);
      G.InverseUnique(G.mul(G.inv(a), g), b, G.inv(b));
      if k == 1 {
        assert G.Inv(G.one);
        G.OneMul(G.inv(G.one));
      }
    }
  }

  lemma {:induction false} PowAdd<T(!new)>(G: Group<T>, g: T, a: int, b: int)
    requires G.Lawful()
    ensures Pow(G, g, a + b) == G.mul(Pow(G, g, a), Pow(G, g, b))
    decreases if b >= 0 then b else -b
  {
    if b == 0 {
      assert G.One(Pow(G, g, a));
    } else if b > 0 {
      PowAdd(G, g, a, b - 1);
      PowNext(G, g, a + b - 1);
      PowNext(G, g, b - 1);
      assert G.Assoc(Pow(G, g, a), Pow(G, g, b - 1), g);
    } else {
      PowAdd(G, g, a, b + 1);
      PowNext(G, g, a + b);
      PowNext(G, g, b);
      assert G.Assoc(Pow(G, g, a), Pow(G, g, b), g);
      G.Cancel(Pow(G, g, a + b), G.mul(Pow(G, g, a), Pow(G, g, b)), g);
    }
  }

  lemma {:induction false} PowPow<T(!new)>(G: Group<T>, g: T, a: int, b: int)
    requires G.Lawful()
    ensures Pow(G, Pow(G, g, a), b) == Pow(G, g, a * b)
    decreases if b >= 0 then b else -b
  {
    if b > 0 {
      PowPow(G, g, a, b - 1);
      PowNext(G, Pow(G, g, a), b - 1);
      PowAdd(G, g, a * (b - 1), a);
      assert a * (b - 1) + a == a * b;
    } else if b < 0 {
      PowPow(G, g, a, b + 1);
      PowNext(G, Pow(G, g, a), b);
      PowAdd(G, g, a * b, a);
      assert a * b + a == a * (b + 1);
      G.Cancel(Pow(G, Pow(G, g, a), b), Pow(G, g, a * b), Pow(G, g, a));
    }
  }

  lemma {:induction false} PowOfOne<T(!new)>(G: Group<T>, n: int)
    requires G.Lawful()
    ensures Pow(G, G.one, n) == G.one
    decreases if n >= 0 then n else -n
  {
    if n > 0 {
      PowOfOne(G, n - 1);
      PowNext(G, G.one, n - 1);
      assert G.One(G.one);
    } else if n < 0 {
      PowOfOne(G, n + 1);
      PowNext(G, G.one, n);
      assert G.One(Pow(G, G.one, n));
    }
  }
}
