/** Datatypes shared by every module. */
module Prelude {
  datatype Option<+T> = None | Some(value: T)

  datatype Result<+T, +E> = Ok(value: T) | Err(error: E)

  /** What becomes of a command sent to Redis or to the database: lost, executed with the answer lost, or
      executed and answered. Without an answer the caller gets an exception. */
  datatype Fate = NotExecuted | Unanswered | Answered

  datatype List<T> = Nil | Cons(head: T, tail: List<T>)

  function Append<T>(a: List<T>, b: List<T>): List<T> {
    match a
    case Nil => b
    case Cons(x, rest) => Cons(x, Append(rest, b))
  }

  function Repeat<T>(x: T, k: nat, rest: List<T>): List<T> {
    if k == 0 then rest else Cons(x, Repeat(x, k - 1, rest))
  }

  function LowerChar(c: char): char {
    if 'A' <= c <= 'Z' then c - 'A' + 'a' else c
  }

  function Lower(s: string): (r: string)
    ensures |r| == |s|
  {
    seq(|s|, i requires 0 <= i < |s| => LowerChar(s[i]))
  }

  /** The strings differ at most in the case of ASCII letters. */
  predicate SameUpToCase(a: string, b: string) {
    && |a| == |b|
    && forall i | 0 <= i < |a| ::
         || a[i] == b[i]
         || ('A' <= a[i] <= 'Z' && b[i] as int == a[i] as int + 32)
         || ('A' <= b[i] <= 'Z' && a[i] as int == b[i] as int + 32)
  }

  lemma LowersAlikeIff(a: string, b: string)
    ensures Lower(a) == Lower(b) <==> SameUpToCase(a, b)
  {
    if Lower(a) == Lower(b) {
      forall i | 0 <= i < |a| ensures LowerChar(a[i]) == LowerChar(b[i]) {
        assert Lower(a)[i] == Lower(b)[i];
      }
    }
    if SameUpToCase(a, b) {
      assert Lower(a) == Lower(b);
    }
  }
}
