/** Small shared vocabulary: optional values and integer helpers. */
module Common {

  datatype Option<+T> = None | Some(value: T)

  function Max(a: int, b: int): int {
    if a < b then b else a
  }

  function Min(a: int, b: int): int {
    if a < b then a else b
  }

  /** Whether `t` occurs somewhere in `s`. */
  predicate Contains(s: string, t: string) {
    t <= s || (s != "" && Contains(s[1..], t))
  }

  /** `t` stands in `s` at position `i`. */
  ghost predicate Occurs(s: string, t: string, i: nat) {
    i + |t| <= |s| && s[i..i + |t|] == t
  }

  lemma {:induction false} ContainsOccurs(s: string, t: string)
    ensures Contains(s, t) ==> exists i: nat :: Occurs(s, t, i)
  {
    if t <= s {
      assert Occurs(s, t, 0);
    } else if s != "" {
      ContainsOccurs(s[1..], t);
      if Contains(s, t) {
        var i: nat :| Occurs(s[1..], t, i);
        assert Occurs(s, t, i + 1);
      }
    }
  }

  lemma {:induction false} OccursContains(s: string, t: string, i: nat)
    requires Occurs(s, t, i)
    ensures Contains(s, t)
  {
    if i == 0 {
      assert t == s[..|t|];
    } else {
      assert Occurs(s[1..], t, i - 1);
      OccursContains(s[1..], t, i - 1);
    }
  }

  lemma ContainsIffOccurs(s: string, t: string)
    ensures Contains(s, t) <==> exists i: nat :: Occurs(s, t, i)
  {
    ContainsOccurs(s, t);
    forall i: nat | Occurs(s, t, i) ensures Contains(s, t) { OccursContains(s, t, i); }
  }

  /** Quotient and remainder are unique. */
  lemma DivUnique(x: int, w: int, q: int, r: int)
    requires w > 0 && x == q * w + r && 0 <= r < w
    ensures x / w == q && x % w == r
  {
    var k := x / w - q;
    assert k * w == r - x % w by {
      assert x == x / w * w + x % w;
      assert k * w == x / w * w - q * w;
    }
    if k >= 1 { Scale(1, k, w); }
    if k <= -1 { Scale(k, -1, w); }
  }

  lemma Scale(a: int, b: int, w: int)
    requires a <= b && 0 <= w
    ensures a * w <= b * w
  {
    assert (b - a) * w >= 0;
  }
}
