/** The undo history `prev_masks`: mask snapshots, oldest first, of which
    only the newest three are kept. */
module History {

  const Capacity: nat := 3

  /** `prev_masks.append(s)`, then `del prev_masks[0]` when the list has
      grown beyond the capacity. */
  function Push<T>(h: seq<T>, s: T): seq<T>
  {
    if |h + [s]| > Capacity then (h + [s])[1..] else h + [s]
  }

  /** `prev_masks.pop(-1)`: the newest snapshot and what remains. */
  function Pop<T>(h: seq<T>): (r: (T, seq<T>))
    requires h != []
    ensures r.1 + [r.0] == h
  {
    (h[|h| - 1], h[..|h| - 1])
  }

  /** A push keeps the history within its capacity, ends with the new
      snapshot, and keeps the newest of the older snapshots: the result is
      the tail of `h + [s]` of length `min(|h| + 1, 3)`. */
  lemma PushKeepsNewest<T>(h: seq<T>, s: T)
    requires |h| <= Capacity
    ensures |Push(h, s)| == if |h| < Capacity then |h| + 1 else Capacity
    ensures Push(h, s) == (h + [s])[|h| + 1 - |Push(h, s)|..]
    ensures Push(h, s)[|Push(h, s)| - 1] == s
  {
  }

  /** Undo right after a push returns the snapshot pushed and leaves the
      history as it was, except for the oldest snapshot when it had to be
      dropped. */
  lemma PopUndoesPush<T>(h: seq<T>, s: T)
    requires |h| <= Capacity
    ensures Push(h, s) != []
    ensures Pop(Push(h, s)) == (s, if |h| < Capacity then h else h[1..])
  {
    if |h| == Capacity {
      assert (h + [s])[1..][..Capacity - 1] == h[1..];
    } else {
      assert (h + [s])[..|h|] == h;
    }
  }

  /** Counting back from the end, a push shifts the older snapshots it
      keeps by one place. */
  lemma PushShifts<T>(h: seq<T>, s: T, k: nat)
    requires |h| <= Capacity && 0 < k <= |h| && k < Capacity
    ensures |Push(h, s)| > k && Push(h, s)[|Push(h, s)| - 1 - k] == h[|h| - k]
  {
    PushKeepsNewest(h, s);
  }

  /** Three pushes leave exactly the three snapshots pushed, whatever the
      history held before. */
  lemma ThreePushes<T>(h: seq<T>, a: T, b: T, c: T)
    requires |h| <= Capacity
    ensures Push(Push(Push(h, a), b), c) == [a, b, c]
  {
    var h1 := Push(h, a);
    PushKeepsNewest(h, a);
    var h2 := Push(h1, b);
    PushKeepsNewest(h1, b);
    PushShifts(h1, b, 1);
    var h3 := Push(h2, c);
    PushKeepsNewest(h2, c);
    PushShifts(h2, c, 1);
    PushShifts(h2, c, 2);
    assert h3[0] == a && h3[1] == b && h3[2] == c;
  }

  /** Three snapshots pushed one after the other come back in reverse order
      from three undos, after which the history is empty. */
  lemma ThreeUndos<T>(h: seq<T>, a: T, b: T, c: T)
    requires |h| <= Capacity
    ensures var h3 := Push(Push(Push(h, a), b), c);
      && Pop(h3).0 == c && Pop(Pop(h3).1).0 == b && Pop(Pop(Pop(h3).1).1).0 == a
      && Pop(Pop(Pop(h3).1).1).1 == []
  {
    ThreePushes(h, a, b, c);
    assert [a, b, c][..2] == [a, b] && [a, b][..1] == [a] && [a][..0] == [];
  }
}
