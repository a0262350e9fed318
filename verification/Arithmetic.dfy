/** Facts about products and quotients of variables, proved once so that the models' proofs need not search for them. */
module Arithmetic {

  lemma MulGrows(a: nat, b: nat, c: nat)
    requires b <= c
    ensures 0 <= a * b <= a * c
  {
    assert a * c == a * b + a * (c - b);
  }

  lemma MulPositive(a: int, b: int)
    requires a >= 1 && b >= 1
    ensures a * b >= a && a * b >= b
  {
    assert a * b == a * (b - 1) + a;
  }

  lemma MulAdds(a: int, b: int, c: int)
    ensures a * c + b * c == (a + b) * c && c * a + c * b == c * (a + b)
  {
  }

  lemma DivMod(a: int, b: int)
    requires b > 0
    ensures a == b * (a / b) + a % b && 0 <= a % b < b
  {
  }

  lemma QuotientBounds(a: nat, b: int)
    requires b > 0
    ensures 0 <= a / b <= a
    ensures a < b ==> a / b == 0
  {
    var q := a / b;
    DivMod(a, b);
    if q < 0 {
      MulPositive(-q, b);
    } else if q > 0 {
      MulPositive(q, b);
    }
  }

  lemma DivModUnique(x: nat, y: int, b: int)
    requires x < b
    ensures (x + b * y) / b == y && (x + b * y) % b == x
  {
    var a := x + b * y;
    var q := a / b;
    DivMod(a, b);
    assert b * (y - q) == a % b - x;
    if y > q {
      MulPositive(b, y - q);
    } else if y < q {
      MulPositive(b, q - y);
    }
  }

  /** Dividing twice is dividing by the product. */
  lemma DivDiv(a: nat, b: int, c: int)
    requires b > 0 && c > 0
    ensures b * c > 0 && a / b / c == a / (b * c)
  {
    var q, r := a / b, a % b;
    var p, s := q / c, q % c;
    DivMod(a, b);
    DivMod(q, c);
    MulPositive(b, c);
    MulGrows(b, s, c - 1);
    assert b * (c * p + s) == b * c * p + b * s;
    assert b * (c - 1) == b * c - b;
    DivModUnique(b * s + r, p, b * c);
  }

  /** Comparing with a quotient is comparing the product. */
  lemma QuotientCompares(x: int, room: int, w: int)
    requires w > 0
    ensures x <= room / w <==> x * w <= room
  {
    var q := room / w;
    DivMod(room, w);
    assert w * (x - q) == x * w - w * q;
    if x > q {
      MulPositive(w, x - q);
    } else if x < q {
      MulPositive(w, q - x);
      assert w * (x - q) == -(w * (q - x));
    }
  }
}
