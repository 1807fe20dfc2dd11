/** Small shared vocabulary: the optional value that stands for JavaScript's
    `T | undefined`, bytes, and character counting. */
module Common {

  datatype Option<+T> = None | Some(value: T)

  /** An octet of a Node.js Buffer. */
  newtype byte = x: int | 0 <= x < 256

  /** Number of occurrences of `c` in `s`. */
  function Count(s: string, c: char): (n: nat)
    ensures n <= |s|
    ensures n == 0 <==> c !in s
  {
    if |s| == 0 then 0
    else (if s[0] == c then 1 else 0) + Count(s[1..], c)
  }

  lemma {:induction false} CountAppend(a: string, b: string, c: char)
    ensures Count(a + b, c) == Count(a, c) + Count(b, c)
  {
    if |a| == 0 {
      assert a + b == b;
    } else {
      assert (a + b)[1..] == a[1..] + b;
      CountAppend(a[1..], b, c);
    }
  }
}
