/** The order text sorts in. */
module TextOrder {

  /** Text order, character by character. */
  predicate LexLess(a: string, b: string) {
    if b == "" then false
    else if a == "" then true
    else a[0] < b[0] || (a[0] == b[0] && LexLess(a[1..], b[1..]))
  }

  lemma {:induction false} LexTotal(a: string, b: string)
    ensures LexLess(a, b) || LexLess(b, a) || a == b
    ensures !(LexLess(a, b) && LexLess(b, a))
    ensures !LexLess(a, a)
  {
    if a != "" && b != "" {
      LexTotal(a[1..], b[1..]);
      LexTotal(a[1..], a[1..]);
      assert a == [a[0]] + a[1..] && b == [b[0]] + b[1..];
    } else if a != "" {
      LexTotal(a[1..], b);
    }
  }

  lemma {:induction false} LexTransitive(a: string, b: string, c: string)
    requires LexLess(a, b) && LexLess(b, c)
    ensures LexLess(a, c)
  {
    if a != "" && a[0] == b[0] && b[0] == c[0] {
      LexTransitive(a[1..], b[1..], c[1..]);
    }
  }

  /** The first character two texts differ in decides, and a text comes before every longer
      one that starts with it. */
  lemma {:induction false} FirstDifferenceDecides(p: string, a: char, x: string, b: char, y: string)
    requires a != b
    ensures LexLess(p + [a] + x, p + [b] + y) <==> a < b
    ensures LexLess(p, p + [a] + x) && !LexLess(p + [a] + x, p)
  {
    if p != "" {
      FirstDifferenceDecides(p[1..], a, x, b, y);
      assert (p + [a] + x)[1..] == p[1..] + [a] + x && (p + [b] + y)[1..] == p[1..] + [b] + y;
    }
  }
}
