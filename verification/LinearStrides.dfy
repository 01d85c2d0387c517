/** Iterating a linear map, and summing a stream of words in four interleaved strides instead of one by one. Nothing
    here is about bits: `add` stands for exclusive or, `f` for advancing a register over one zero byte. */
module LinearStrides {

  function Iterate<G>(f: G -> G, n: nat, x: G): G {
    if n == 0 then x else Iterate(f, n - 1, f(x))
  }

  ghost predicate LinearAt<G(!new)>(add: (G, G) -> G, f: G -> G, a: G, b: G) {
    f(add(a, b)) == add(f(a), f(b))
  }

  ghost predicate Linear<G(!new)>(add: (G, G) -> G, f: G -> G) {
    forall a, b :: LinearAt(add, f, a, b)
  }

  ghost predicate AssocAt<G(!new)>(add: (G, G) -> G, a: G, b: G, c: G) {
    add(add(a, b), c) == add(a, add(b, c))
  }

  ghost predicate CommAt<G(!new)>(add: (G, G) -> G, a: G, b: G) {
    add(a, b) == add(b, a)
  }

  ghost predicate Commutative<G(!new)>(add: (G, G) -> G) {
    (forall a, b, c :: AssocAt(add, a, b, c)) && (forall a, b :: CommAt(add, a, b))
  }

  lemma {:induction false} IterateLinear<G(!new)>(add: (G, G) -> G, f: G -> G, n: nat, x: G, y: G)
    requires Linear(add, f)
    ensures Iterate(f, n, add(x, y)) == add(Iterate(f, n, x), Iterate(f, n, y))
  {
    if n > 0 {
      assert LinearAt(add, f, x, y);
      IterateLinear(add, f, n - 1, f(x), f(y));
    }
  }

  lemma {:induction false} IterateAdd<G>(f: G -> G, m: nat, n: nat, x: G)
    ensures Iterate(f, m + n, x) == Iterate(f, n, Iterate(f, m, x))
  {
    if m > 0 {
      IterateAdd(f, m - 1, n, f(x));
    }
  }

  /** What four partial sums stand for: each is added in and advanced over one word in turn. */
  function Combine<G>(add: (G, G) -> G, f: G -> G, c0: G, c1: G, c2: G, c3: G): G {
    Iterate(f, 4, add(c3, Iterate(f, 4, add(c2, Iterate(f, 4, add(c1, Iterate(f, 4, c0)))))))
  }

  /** Advancing the oldest partial sum over a whole swath, adding the next word to it and making it the newest one has
      the effect of taking that word into the combined sum. */
  lemma RotateStep<G(!new)>(add: (G, G) -> G, f: G -> G, c0: G, c1: G, c2: G, c3: G, w: G)
    requires Commutative(add) && Linear(add, f)
    ensures Combine(add, f, c1, c2, c3, add(w, Iterate(f, 16, c0))) == Iterate(f, 4, add(w, Combine(add, f, c0, c1, c2, c3)))
  {
    var a4, a8, a12, a16 := Iterate(f, 4, c0), Iterate(f, 8, c0), Iterate(f, 12, c0), Iterate(f, 16, c0);
    IterateAdd(f, 4, 4, c0);
    IterateAdd(f, 8, 4, c0);
    IterateAdd(f, 12, 4, c0);
    var b1 := Iterate(f, 4, c1);
    TakeOut(add, f, c1, a4, a8);
    assert Iterate(f, 4, add(c1, a4)) == add(b1, a8);
    var b2 := Iterate(f, 4, add(c2, b1));
    assert AssocAt(add, c2, b1, a8);
    TakeOut(add, f, add(c2, b1), a8, a12);
    assert Iterate(f, 4, add(c2, add(b1, a8))) == add(b2, a12);
    var b3 := Iterate(f, 4, add(c3, b2));
    assert AssocAt(add, c3, b2, a12);
    TakeOut(add, f, add(c3, b2), a12, a16);
    assert Combine(add, f, c0, c1, c2, c3) == add(b3, a16);
    assert CommAt(add, b3, a16) && AssocAt(add, w, a16, b3);
  }

  lemma TakeOut<G(!new)>(add: (G, G) -> G, f: G -> G, x: G, y: G, y': G)
    requires Linear(add, f) && y' == Iterate(f, 4, y)
    ensures Iterate(f, 4, add(x, y)) == add(Iterate(f, 4, x), y')
  {
    IterateLinear(add, f, 4, x, y);
  }

  /** Taking in four bytes one at a time is taking in the word they form. A byte held k places up in the word comes
      down to its own value after k steps. */
  lemma FourBytes<G(!new)>(add: (G, G) -> G, f: G -> G, l: G, b0: G, b1: G, b2: G, b3: G,
                           p1: G, p2: G, q2: G, p3: G, q3: G, r3: G)
    requires Commutative(add) && Linear(add, f)
    requires f(p1) == b1 && f(p2) == q2 && f(q2) == b2 && f(p3) == q3 && f(q3) == r3 && f(r3) == b3
    ensures f(add(f(add(f(add(f(add(l, b0)), b1)), b2)), b3))
         == Iterate(f, 4, add(l, add(b0, add(p1, add(p2, p3)))))
  {
    var s1, s2, s3 := f(add(l, b0)), f(add(f(add(l, b0)), b1)), f(add(f(add(f(add(l, b0)), b1)), b2));
    assert AssocAt(add, l, b0, add(p1, add(p2, p3)));
    var t := add(p1, add(p2, p3));
    assert LinearAt(add, f, add(l, b0), t) && LinearAt(add, f, p1, add(p2, p3)) && LinearAt(add, f, p2, p3);
    assert f(add(add(l, b0), t)) == add(s1, add(b1, add(q2, q3)));
    assert AssocAt(add, s1, b1, add(q2, q3));
    assert LinearAt(add, f, add(s1, b1), add(q2, q3)) && LinearAt(add, f, q2, q3);
    assert f(add(add(s1, b1), add(q2, q3))) == add(s2, add(b2, r3));
    assert AssocAt(add, s2, b2, r3) && LinearAt(add, f, add(s2, b2), r3);
    assert f(add(add(s2, b2), r3)) == add(s3, b3);
    Iterate4(f, add(l, add(b0, t)));
  }

  lemma Iterate4<G>(f: G -> G, x: G)
    ensures Iterate(f, 4, x) == f(f(f(f(x))))
  {
    IterateAdd(f, 1, 3, x);
    IterateAdd(f, 1, 2, f(x));
    IterateAdd(f, 1, 1, f(f(x)));
  }

  /** Advancing a value part by part and adding the results in turn is advancing the whole. */
  lemma FourParts<G(!new)>(add: (G, G) -> G, f: G -> G, n: nat, w: G, p0: G, p1: G, p2: G, p3: G)
    requires Commutative(add) && Linear(add, f)
    ensures add(add(add(add(w, Iterate(f, n, p0)), Iterate(f, n, p1)), Iterate(f, n, p2)), Iterate(f, n, p3))
         == add(w, Iterate(f, n, add(p0, add(p1, add(p2, p3)))))
  {
    var q0, q1, q2, q3 := Iterate(f, n, p0), Iterate(f, n, p1), Iterate(f, n, p2), Iterate(f, n, p3);
    IterateLinear(add, f, n, p2, p3);
    IterateLinear(add, f, n, p1, add(p2, p3));
    IterateLinear(add, f, n, p0, add(p1, add(p2, p3)));
    assert AssocAt(add, w, q0, q1) && AssocAt(add, w, add(q0, q1), q2) && AssocAt(add, w, add(add(q0, q1), q2), q3);
    assert AssocAt(add, q0, q1, q2) && AssocAt(add, q0, add(q1, q2), q3) && AssocAt(add, q1, q2, q3);
  }
}
