/**
 * The colour-code allocator behind `MemoryCulling.getNextColor`: a
 * three-channel counter with a rotation index, stepped once per instance,
 * and the `"r-g-b"` key under which a colour is registered and decoded.
 */
module ColorCodes {
  import opened Decimal

  /** The allocator's `colors` record: channels r, g, b and rotation index i. */
  datatype Counter = Counter(r: nat, g: nat, b: nat, i: nat)

  /** The state the allocator starts in, and the state after its last fresh code. */
  const Init := Counter(0, 0, 0, 0)
  const Last := Counter(255, 255, 255, 0)

  /** Number of calls from `Init` that yield fresh codes before the counter wraps. */
  const Capacity: nat := 16712190

  /** The key `"r-g-b"` of a colour, with each channel in decimal. */
  function Key(r: nat, g: nat, b: nat): string {
    NatToString(r) + "-" + NatToString(g) + "-" + NatToString(b)
  }

  /** The key of the colour a counter state stands for. */
  function CodeOf(c: Counter): string {
    Key(c.r, c.g, c.b)
  }

  /** The channels as one base-256 number, blue least significant. */
  function Rank(c: Counter): nat {
    c.r * 65536 + c.g * 256 + c.b
  }

  /**
   * The states `getNextColor` can leave behind when started from `Init`:
   * every channel is a byte, and the rotation index is 1 exactly right after
   * red was incremented, when green and blue are both 0.
   */
  ghost predicate Reachable(c: Counter) {
    && c.r < 256 && c.g < 256 && c.b < 256
    && c.i <= 1
    && (c.i == 1 <==> c.r >= 1 && c.g == 0)
    && (c.i == 1 ==> c.b == 0)
  }

  /** How many calls from `Init` lead to a reachable state. */
  function Ordinal(c: Counter): int {
    if c.r == 0 then c.g * 256 + c.b
    else if c.g == 0 then 65536 + (c.r - 1) * 65281
    else 65537 + (c.r - 1) * 65281 + (c.g - 1) * 256 + c.b
  }

  /**
   * One call of `getNextColor`: blue is incremented while the index is 0;
   * a blue overflow hands over to green, a green overflow to red, and a red
   * overflow resets the counter. Red's increment leaves the index at 1, so
   * the call after it increments green rather than blue.
   */
  function Advance(c: Counter): Counter {
    var afterBlue :=
      if c.i == 0 then
        if c.b + 1 == 256 then c.(b := 0, i := 1) else c.(b := c.b + 1)
      else c;
    var afterGreen :=
      if afterBlue.i == 1 then
        if afterBlue.g + 1 == 256 then afterBlue.(g := 0, i := 2) else afterBlue.(g := afterBlue.g + 1, i := 0)
      else afterBlue;
    if afterGreen.i == 2 then
      if afterGreen.r + 1 == 256 then afterGreen.(r := 0, i := 0) else afterGreen.(r := afterGreen.r + 1, i := 1)
    else afterGreen
  }

  /**
   * A call keeps a reachable counter reachable. From `Last` it wraps to
   * `Init`; from any other reachable state it moves one place along and
   * strictly increases the channels read as a base-256 number.
   */
  lemma AdvanceStep(c: Counter)
    requires Reachable(c)
    ensures Reachable(Advance(c))
    ensures c == Last ==> Advance(c) == Init
    ensures c != Last ==> Rank(Advance(c)) > Rank(c) && Ordinal(Advance(c)) == Ordinal(c) + 1
  {
    if c.i == 1 {
      assert Advance(c) == Counter(c.r, 1, 0, 0);
    } else if c.b < 255 {
      assert Advance(c) == c.(b := c.b + 1);
    } else if c.g < 255 {
      assert Advance(c) == Counter(c.r, c.g + 1, 0, 0);
    } else if c.r < 255 {
      assert Advance(c) == Counter(c.r + 1, 0, 0, 1);
    } else {
      assert Advance(c) == Init;
    }
  }

  /** The counter after `n` calls. */
  function Iterate(c: Counter, n: nat): Counter
    decreases n
  {
    if n == 0 then c else Iterate(Advance(c), n - 1)
  }

  /** The key returned by call number `j + 1` made from state `c`. */
  function AllocatedCode(c: Counter, j: nat): string {
    CodeOf(Iterate(c, j + 1))
  }

  lemma {:induction false} IterateLast(c: Counter, n: nat)
    ensures Iterate(c, n + 1) == Advance(Iterate(c, n))
    decreases n
  {
    if n > 0 {
      IterateLast(Advance(c), n - 1);
    }
  }

  lemma {:induction false} IterateAdd(c: Counter, m: nat, n: nat)
    ensures Iterate(c, m + n) == Iterate(Iterate(c, m), n)
    decreases m
  {
    if m > 0 {
      assert Iterate(c, m + n) == Iterate(Advance(c), (m - 1) + n);
      assert Iterate(c, m) == Iterate(Advance(c), m - 1);
      IterateAdd(Advance(c), m - 1, n);
    }
  }

  /** The first call from the initial state returns the code "0-0-1". */
  lemma FirstCode()
    ensures Advance(Init) == Counter(0, 0, 1, 0)
    ensures AllocatedCode(Init, 0) == "0-0-1"
  {
    assert AllocatedCode(Init, 0) == Key(0, 0, 1) by {
      assert Advance(Init) == Counter(0, 0, 1, 0);
      assert Iterate(Init, 1) == Iterate(Advance(Init), 0);
    }
    assert Key(0, 0, 1) == "0-0-1" by {
      assert NatToString(0) == "0";
      assert NatToString(1) == "1";
    }
  }

  /** A reachable state is determined by its channels: the index follows from them. */
  lemma ReachableChannelsDetermineState(x: Counter, y: Counter)
    requires Reachable(x) && Reachable(y)
    requires x.r == y.r && x.g == y.g && x.b == y.b
    ensures x == y
  {
  }

  /** Every reachable state lies at most `Capacity` calls from `Init`, and only `Last` lies exactly there. */
  lemma OrdinalBound(c: Counter)
    requires Reachable(c)
    ensures 0 <= Ordinal(c) <= Capacity
    ensures Ordinal(c) == Capacity ==> c == Last
    ensures Ordinal(c) == 0 ==> c == Init
  {
  }

  /** After `k <= Capacity` calls from `Init` the counter is reachable and `k` calls along. */
  lemma {:induction false} IterateFromInit(k: nat)
    requires k <= Capacity
    ensures Reachable(Iterate(Init, k))
    ensures Ordinal(Iterate(Init, k)) == k
    decreases k
  {
    if k > 0 {
      IterateFromInit(k - 1);
      IterateLast(Init, k - 1);
      var c := Iterate(Init, k - 1);
      OrdinalBound(Last);
      assert c != Last;
      AdvanceStep(c);
    }
  }

  /** Index of the first separator in `s`, or `|s|` when there is none. */
  function SeparatorIndex(s: string): nat
    ensures SeparatorIndex(s) <= |s|
  {
    if s == [] || s[0] == '-' then 0 else 1 + SeparatorIndex(s[1..])
  }

  lemma {:induction false} SeparatorIndexAfter(a: string, b: string)
    requires '-' !in a
    ensures SeparatorIndex(a + "-" + b) == |a|
  {
    if a != [] {
      assert (a + "-" + b)[1..] == a[1..] + "-" + b;
      SeparatorIndexAfter(a[1..], b);
    }
  }

  /** A string cut at its first separator comes apart uniquely. */
  lemma SplitAtSeparator(a: string, b: string, c: string, d: string)
    requires '-' !in a && '-' !in c
    requires a + "-" + b == c + "-" + d
    ensures a == c && b == d
  {
    var s := a + "-" + b;
    SeparatorIndexAfter(a, b);
    SeparatorIndexAfter(c, d);
    assert a == s[..|a|];
    assert b == s[|a| + 1..];
  }

  /** Distinct colours have distinct keys. */
  lemma KeyInjective(r: nat, g: nat, b: nat, r': nat, g': nat, b': nat)
    requires Key(r, g, b) == Key(r', g', b')
    ensures r == r' && g == g' && b == b'
  {
    var R, G, B := NatToString(r), NatToString(g), NatToString(b);
    var R', G', B' := NatToString(r'), NatToString(g'), NatToString(b');
    assert Key(r, g, b) == R + "-" + (G + "-" + B);
    assert Key(r', g', b') == R' + "-" + (G' + "-" + B');
    SplitAtSeparator(R, G + "-" + B, R', G' + "-" + B');
    SplitAtSeparator(G, B, G', B');
    NatToStringInjective(r, r');
    NatToStringInjective(g, g');
    NatToStringInjective(b, b');
  }

  /** From a fresh allocator, calls 1 to `Capacity` return pairwise distinct codes. */
  lemma AllocationsDistinct(j: nat, k: nat)
    requires j < k < Capacity
    ensures AllocatedCode(Init, j) != AllocatedCode(Init, k)
  {
    var x, y := Iterate(Init, j + 1), Iterate(Init, k + 1);
    IterateFromInit(j + 1);
    IterateFromInit(k + 1);
    if CodeOf(x) == CodeOf(y) {
      KeyInjective(x.r, x.g, x.b, y.r, y.g, y.b);
      ReachableChannelsDetermineState(x, y);
      assert false;
    }
  }

  /** No call among the first `Capacity` from a fresh allocator returns the background code "0-0-0". */
  lemma AllocationsNotBackground(j: nat)
    requires j < Capacity
    ensures AllocatedCode(Init, j) != Key(0, 0, 0)
  {
    var x := Iterate(Init, j + 1);
    IterateFromInit(j + 1);
    if CodeOf(x) == Key(0, 0, 0) {
      KeyInjective(x.r, x.g, x.b, 0, 0, 0);
      OrdinalBound(x);
      assert false;
    }
  }

  /**
   * The counter has no capacity check: call `Capacity + 1` returns "0-0-0"
   * and every later call repeats the code of the call `Capacity + 1` places
   * before it.
   */
  lemma {:induction false} AllocatorWraps(k: nat)
    ensures CodeOf(Iterate(Init, Capacity + 1)) == Key(0, 0, 0)
    ensures Iterate(Init, Capacity + 1 + k) == Iterate(Init, k)
  {
    IterateFromInit(Capacity);
    OrdinalBound(Iterate(Init, Capacity));
    IterateLast(Init, Capacity);
    AdvanceStep(Iterate(Init, Capacity));
    IterateAdd(Init, Capacity + 1, k);
  }
}
