/** Types shared by several components. */
module Common {

  /** One octet. */
  type byte = x: int | 0 <= x < 256

  datatype Option<+T> = None | Some(value: T)

  function SaturatingSub(a: nat, b: nat): nat {
    if a < b then 0 else a - b
  }

  /** The parts of a vectored write, or the payloads of a frame, end to end. */
  function Flatten<T>(parts: seq<seq<T>>): seq<T> {
    if parts == [] then [] else parts[0] + Flatten(parts[1..])
  }

  lemma {:induction false} FlattenAppend<T>(a: seq<seq<T>>, b: seq<seq<T>>)
    ensures Flatten(a + b) == Flatten(a) + Flatten(b)
  {
    if a == [] {
      assert a + b == b;
    } else {
      assert (a + b)[0] == a[0] && (a + b)[1..] == a[1..] + b;
      assert Flatten(a + b) == a[0] + Flatten(a[1..] + b) && Flatten(a) == a[0] + Flatten(a[1..]);
      hide Flatten;
      FlattenAppend(a[1..], b);
    }
  }

  /** Two ways to cut one sequence, the second no later than the first. */
  lemma {:induction false} CutEarlier<T>(a: seq<T>, b: seq<T>, c: seq<T>, d: seq<T>)
    requires a + b == c + d && |c| <= |a|
    ensures c == a[..|c|] && d == a[|c|..] + b
  {
    assert c == (c + d)[..|c|] == a[..|c|];
    assert d == (c + d)[|c|..] == a[|c|..] + b;
  }

  lemma {:induction false} Regroup<T>(a: seq<T>, x: T, b: seq<T>)
    ensures a + ([x] + b) == (a + [x]) + b
  {
  }

  lemma {:induction false} SliceInTwoSteps<T>(s: seq<T>, i: nat, n: nat, j: nat)
    requires i <= n <= j <= |s|
    ensures s[i..j][..n - i] == s[i..n] == s[..n][i..n]
  {
  }
}
