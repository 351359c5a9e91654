/** The order Rust gives strings: compare at the first position that differs. */
module Text {

  predicate Before(a: string, b: string) {
    if b == [] then false
    else if a == [] then true
    else a[0] < b[0] || (a[0] == b[0] && Before(a[1..], b[1..]))
  }

  lemma {:induction false} BeforeTotal(a: string, b: string)
    ensures Before(a, b) || a == b || Before(b, a)
    ensures !(Before(a, b) && Before(b, a))
    ensures !Before(a, a)
  {
    if a != [] {
      BeforeTotal(a[1..], a[1..]);
      if b != [] && a[0] == b[0] {
        BeforeTotal(a[1..], b[1..]);
        if a[1..] == b[1..] {
          assert a == [a[0]] + a[1..] == [b[0]] + b[1..] == b;
        }
      }
    }
  }

  lemma {:induction false} BeforeTransitive(a: string, b: string, c: string)
    requires Before(a, b) && Before(b, c)
    ensures Before(a, c)
  {
    if a != [] && a[0] == b[0] == c[0] {
      BeforeTransitive(a[1..], b[1..], c[1..]);
    }
  }

  /** `a` no later than `b`, and `b` before `c`. */
  lemma BeforeChain(a: string, b: string, c: string)
    requires !Before(b, a)
    ensures Before(b, c) ==> Before(a, c)
    ensures Before(c, a) ==> Before(c, b)
  {
    BeforeTotal(a, b);
    if a != b {
      if Before(b, c) {
        BeforeTransitive(a, b, c);
      }
      if Before(c, a) {
        BeforeTransitive(c, a, b);
      }
    }
  }

  /** A common prefix decides nothing. */
  lemma {:induction false} BeforeSkipsPrefix(p: string, a: string, b: string)
    ensures Before(p + a, p + b) <==> Before(a, b)
  {
    if p == [] {
      assert p + a == a && p + b == b;
    } else {
      assert (p + a)[1..] == p[1..] + a && (p + b)[1..] == p[1..] + b;
      BeforeSkipsPrefix(p[1..], a, b);
    }
  }

  /** Texts of one width are ordered by their heads, whatever follows. */
  lemma {:induction false} BeforeByHead(a: string, b: string, x: string, y: string)
    requires |a| == |b| && a != b
    ensures Before(a + x, b + y) <==> Before(a, b)
  {
    assert a != [];
    assert (a + x)[1..] == a[1..] + x && (b + y)[1..] == b[1..] + y;
    if a[0] == b[0] {
      assert a == [a[0]] + a[1..] && b == [b[0]] + b[1..];
      BeforeByHead(a[1..], b[1..], x, y);
    }
  }
}
