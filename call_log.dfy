/** Recorded-call logs. A fake collaborator appends one record per call it
    receives; `Times(log, c)` is how often the exact call `c` was made, which
    is what a mock verification `verify(mock, times(n)).call(args)` checks. */
module CallLog {

  /** The number of entries of `log` equal to `x`. */
  function Times<T(==)>(log: seq<T>, x: T): nat
  {
    if log == [] then 0 else (if log[0] == x then 1 else 0) + Times(log[1..], x)
  }

  /** Counting distributes over concatenation of logs. */
  lemma {:induction false} TimesAppend<T>(a: seq<T>, b: seq<T>, x: T)
    ensures Times(a + b, x) == Times(a, x) + Times(b, x)
  {
    if a == [] {
      assert a + b == b;
    } else {
      assert (a + b)[1..] == a[1..] + b;
      TimesAppend(a[1..], b, x);
    }
  }

  /** A one-entry log holds `x` once if it is `x` and never otherwise. */
  lemma TimesSingle<T>(y: T, x: T)
    ensures Times([y], x) == if y == x then 1 else 0
  {
  }

  /** Recording one more call adds one to its own count and nothing to any
      other call's count. */
  lemma TimesPush<T>(log: seq<T>, y: T, x: T)
    ensures Times(log + [y], x) == Times(log, x) + if y == x then 1 else 0
  {
    TimesAppend(log, [y], x);
    TimesSingle(y, x);
  }
}
