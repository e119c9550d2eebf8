/** Types shared by the modules of the daemon. */
module Types {

  /** `pdns_status_t` (src/pdns-logger.h.in). */
  datatype Status = NO | OK | FORK | RETRY

  datatype Option<+T> = None | Some(value: T)

  type byte = x: int | 0 <= x < 256

  type Positive = x: int | 0 < x witness 1

  function Min(a: int, b: int): (m: int)
    ensures m <= a && m <= b && (m == a || m == b)
  {
    if a < b then a else b
  }

  /** Concatenation of a sequence of sequences. */
  function Flatten<T>(parts: seq<seq<T>>): (whole: seq<T>)
  {
    if parts == [] then [] else parts[0] + Flatten(parts[1..])
  }

  lemma {:induction false} FlattenAppend<T>(a: seq<seq<T>>, b: seq<seq<T>>)
    ensures Flatten(a + b) == Flatten(a) + Flatten(b)
  {
    if a == [] {
      assert a + b == b;
    } else {
      FlattenAppend(a[1..], b);
      assert (a + b)[1..] == a[1..] + b;
      Associative(a[0], Flatten(a[1..]), Flatten(b));
    }
  }

  lemma Associative<T>(a: seq<T>, b: seq<T>, c: seq<T>)
    ensures a + (b + c) == (a + b) + c
  {
  }

  lemma SliceOfPrefix<T>(s: seq<T>, n: nat, lo: nat, hi: nat)
    requires lo <= hi <= n <= |s|
    ensures s[..n][lo..hi] == s[lo..hi]
  {
  }

  lemma FlattenOne<T>(p: seq<T>)
    ensures Flatten([p]) == p
  {
    assert Flatten([p]) == p + Flatten<T>([]);
  }
}
