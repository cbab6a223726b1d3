/**
  The phrase history behind "repeat last phrase" (`previousSentences`):
  at most five processed phrases, oldest first, the oldest dropped when a
  new one arrives and five are already kept.
 */
module History {

  /** How many phrases the history keeps. */
  const Capacity: nat := 5

  /** The last `n` elements of `xs` (all of them when there are fewer). */
  function Newest<T>(xs: seq<T>, n: nat): (r: seq<T>)
    ensures |r| == if |xs| <= n then |xs| else n
    ensures r == xs[|xs| - |r|..]
  {
    if |xs| <= n then xs else xs[|xs| - n..]
  }

  /**
    `updatePreviousSentences`: with five or more entries the first is shifted
    out, then the phrase is pushed.  On a history within capacity the result
    is the newest five of the old entries followed by the phrase.
   */
  function Remember(h: seq<string>, s: string): (r: seq<string>)
    ensures |r| > 0 && r[|r| - 1] == s
    ensures |h| <= Capacity ==> |r| <= Capacity
    ensures |h| <= Capacity ==> r == Newest(h + [s], Capacity)
  {
    (if |h| >= Capacity then h[1..] else h) + [s]
  }

  /** Keeping the newest `n` twice over, with more elements in between, is keeping them once. */
  lemma NewestOfNewest<T>(a: seq<T>, b: seq<T>, n: nat)
    ensures Newest(Newest(a, n) + b, n) == Newest(a + b, n)
  {
    var a' := Newest(a, n);
    if |a' + b| > n {
      assert (a' + b)[|a' + b| - n..] == (a + b)[|a + b| - n..];
    }
  }

  /** The history after pushing `xs` one by one, in order. */
  function RememberAll(h: seq<string>, xs: seq<string>): seq<string>
    decreases |xs|
  {
    if xs == [] then h else RememberAll(Remember(h, xs[0]), xs[1..])
  }

  /** Pushing any number of phrases leaves exactly the newest five of old and new entries. */
  lemma {:induction false} RememberAllKeepsNewest(h: seq<string>, xs: seq<string>)
    requires |h| <= Capacity
    ensures RememberAll(h, xs) == Newest(h + xs, Capacity)
    decreases |xs|
  {
    if xs == [] {
      assert h + xs == h;
    } else {
      var h' := Remember(h, xs[0]);
      RememberAllKeepsNewest(h', xs[1..]);
      NewestOfNewest(h + [xs[0]], xs[1..], Capacity);
      assert h + [xs[0]] + xs[1..] == h + xs;
    }
  }

  /** Six phrases pushed into an empty history: the first is gone, the sixth is last. */
  lemma SixPushesExample()
    ensures RememberAll([], ["A", "B", "C", "D", "E", "F"]) == ["B", "C", "D", "E", "F"]
  {
    RememberAllKeepsNewest([], ["A", "B", "C", "D", "E", "F"]);
    assert [] + ["A", "B", "C", "D", "E", "F"] == ["A", "B", "C", "D", "E", "F"];
  }
}
