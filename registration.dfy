/**
 * The colour half of `MemoryCulling.loadBoxes`: each box draws the next
 * colour and the box's fragment is recorded under that colour's key in
 * `fragmentColorMap`; and the lookup `getFragmentsIDs` makes in that map.
 */
module Registration {
  import opened Ids
  import opened Decimal
  import opened ColorCodes

  /** The allocator counter together with the reverse map `fragmentColorMap`. */
  datatype Allocation = Allocation(colorMap: map<string, Option<FragmentId>>, colors: Counter)

  /** `expressIDTofragmentIDMap[expressID]`: undefined where the array has no entry. */
  function FragmentOf(fragmentIds: map<int, FragmentId>, expressId: int): Option<FragmentId> {
    if expressId in fragmentIds then Some(fragmentIds[expressId]) else None
  }

  /**
   * The boxes with the given express IDs, in order, each take the next
   * colour, and the box's fragment (possibly undefined) is written under
   * that colour's key, overwriting whatever the key held.
   */
  function Register(a: Allocation, expressIds: seq<int>, fragmentIds: map<int, FragmentId>): Allocation
    decreases |expressIds|
  {
    if expressIds == [] then a
    else
      var next := Advance(a.colors);
      var colorMap := a.colorMap[CodeOf(next) := FragmentOf(fragmentIds, expressIds[0])];
      Register(Allocation(colorMap, next), expressIds[1..], fragmentIds)
  }

  /** The keys handed to `n` boxes by an allocator in state `c`. */
  ghost function AllocatedCodes(c: Counter, n: nat): set<string> {
    set j | 0 <= j < n :: AllocatedCode(c, j)
  }

  /** Box `j` of `n` is the last one whose code is written under its key. */
  ghost predicate LastWriter(c: Counter, n: nat, j: nat) {
    forall j' :: j < j' < n ==> AllocatedCode(c, j') != AllocatedCode(c, j)
  }

  /** The fragments that a set of colour keys stands for; unknown keys and undefined entries are dropped. */
  function Resolve(colorMap: map<string, Option<FragmentId>>, colors: set<string>): set<FragmentId> {
    set key | key in colors && key in colorMap && colorMap[key].Some? :: colorMap[key].value
  }

  /** Allocating from the state after one call is allocating from one place further along. */
  lemma AllocatedCodeShift(c: Counter, j: nat)
    ensures AllocatedCode(Advance(c), j) == AllocatedCode(c, j + 1)
    ensures AllocatedCode(c, 0) == CodeOf(Advance(c))
  {
    assert Iterate(c, j + 2) == Iterate(Advance(c), j + 1);
    assert Iterate(c, 1) == Iterate(Advance(c), 0);
  }

  lemma AllocatedCodesShift(c: Counter, n: nat)
    requires n > 0
    ensures AllocatedCodes(c, n) == {CodeOf(Advance(c))} + AllocatedCodes(Advance(c), n - 1)
  {
    AllocatedCodeShift(c, 0);
    forall key | key in AllocatedCodes(c, n) ensures key in {CodeOf(Advance(c))} + AllocatedCodes(Advance(c), n - 1) {
      var j :| 0 <= j < n && key == AllocatedCode(c, j);
      if j > 0 {
        AllocatedCodeShift(c, j - 1);
      }
    }
    forall key | key in AllocatedCodes(Advance(c), n - 1) ensures key in AllocatedCodes(c, n) {
      var j :| 0 <= j < n - 1 && key == AllocatedCode(Advance(c), j);
      AllocatedCodeShift(c, j);
    }
  }

  /**
   * After registering boxes the counter has moved once per box, and the
   * map's keys are the old keys plus every allocated code.
   */
  lemma {:induction false} RegisterKeys(a: Allocation, expressIds: seq<int>, fragmentIds: map<int, FragmentId>)
    ensures Register(a, expressIds, fragmentIds).colors == Iterate(a.colors, |expressIds|)
    ensures Register(a, expressIds, fragmentIds).colorMap.Keys == a.colorMap.Keys + AllocatedCodes(a.colors, |expressIds|)
    decreases |expressIds|
  {
    var n := |expressIds|;
    if n == 0 {
      assert AllocatedCodes(a.colors, 0) == {};
    } else {
      var next := Advance(a.colors);
      var a' := Allocation(a.colorMap[CodeOf(next) := FragmentOf(fragmentIds, expressIds[0])], next);
      assert Register(a, expressIds, fragmentIds) == Register(a', expressIds[1..], fragmentIds);
      RegisterKeys(a', expressIds[1..], fragmentIds);
      AllocatedCodesShift(a.colors, n);
    }
  }

  /** Registering two groups one after the other is registering their concatenation. */
  lemma {:induction false} RegisterConcat(a: Allocation, xs: seq<int>, ys: seq<int>, fragmentIds: map<int, FragmentId>)
    ensures Register(Register(a, xs, fragmentIds), ys, fragmentIds) == Register(a, xs + ys, fragmentIds)
    decreases |xs|
  {
    if xs == [] {
      assert xs + ys == ys;
    } else {
      var next := Advance(a.colors);
      var a' := Allocation(a.colorMap[CodeOf(next) := FragmentOf(fragmentIds, xs[0])], next);
      assert (xs + ys)[0] == xs[0] && (xs + ys)[1..] == xs[1..] + ys;
      assert Register(a, xs + ys, fragmentIds) == Register(a', xs[1..] + ys, fragmentIds);
      RegisterConcat(a', xs[1..], ys, fragmentIds);
    }
  }

  /** A key that no box received keeps the entry it had. */
  lemma {:induction false} RegisterKeepsOthers(a: Allocation, expressIds: seq<int>, fragmentIds: map<int, FragmentId>, key: string)
    requires key in a.colorMap && key !in AllocatedCodes(a.colors, |expressIds|)
    ensures key in Register(a, expressIds, fragmentIds).colorMap
    ensures Register(a, expressIds, fragmentIds).colorMap[key] == a.colorMap[key]
    decreases |expressIds|
  {
    var n := |expressIds|;
    if n > 0 {
      var next := Advance(a.colors);
      var a' := Allocation(a.colorMap[CodeOf(next) := FragmentOf(fragmentIds, expressIds[0])], next);
      assert Register(a, expressIds, fragmentIds) == Register(a', expressIds[1..], fragmentIds);
      AllocatedCodesShift(a.colors, n);
      RegisterKeepsOthers(a', expressIds[1..], fragmentIds, key);
    }
  }

  /**
   * A box's code maps to the box's fragment unless a later box received the
   * same code: then the later write wins.
   */
  lemma {:induction false} RegisterLastWrite(a: Allocation, expressIds: seq<int>, fragmentIds: map<int, FragmentId>, j: nat)
    requires j < |expressIds| && LastWriter(a.colors, |expressIds|, j)
    ensures AllocatedCode(a.colors, j) in Register(a, expressIds, fragmentIds).colorMap
    ensures Register(a, expressIds, fragmentIds).colorMap[AllocatedCode(a.colors, j)] == FragmentOf(fragmentIds, expressIds[j])
    decreases |expressIds|
  {
    var n := |expressIds|;
    var c := a.colors;
    var next := Advance(c);
    var a' := Allocation(a.colorMap[CodeOf(next) := FragmentOf(fragmentIds, expressIds[0])], next);
    var rest := expressIds[1..];
    assert Register(a, expressIds, fragmentIds) == Register(a', rest, fragmentIds);
    if j == 0 {
      AllocatedCodeShift(c, 0);
      forall k | 0 <= k < n - 1 ensures AllocatedCode(next, k) != AllocatedCode(c, 0) {
        AllocatedCodeShift(c, k);
      }
      RegisterKeepsOthers(a', rest, fragmentIds, AllocatedCode(c, 0));
    } else {
      AllocatedCodeShift(c, j - 1);
      forall k | j - 1 < k < n - 1 ensures AllocatedCode(next, k) != AllocatedCode(next, j - 1) {
        AllocatedCodeShift(c, k);
      }
      RegisterLastWrite(a', rest, fragmentIds, j - 1);
    }
  }

  /**
   * On a fresh allocator with an empty map, registering at most `Capacity`
   * boxes gives every box its own code, so each box's code resolves to its
   * own fragment, and the background code "0-0-0" stays unregistered.
   */
  lemma FreshRegistrationResolves(expressIds: seq<int>, fragmentIds: map<int, FragmentId>)
    requires |expressIds| <= Capacity
    ensures Register(Allocation(map[], Init), expressIds, fragmentIds).colorMap.Keys == AllocatedCodes(Init, |expressIds|)
    ensures forall j :: 0 <= j < |expressIds| ==>
              Register(Allocation(map[], Init), expressIds, fragmentIds).colorMap[AllocatedCode(Init, j)]
              == FragmentOf(fragmentIds, expressIds[j])
    ensures Key(0, 0, 0) !in Register(Allocation(map[], Init), expressIds, fragmentIds).colorMap
  {
    var n := |expressIds|;
    var a := Allocation(map[], Init);
    RegisterKeys(a, expressIds, fragmentIds);
    forall j | 0 <= j < n
      ensures Register(a, expressIds, fragmentIds).colorMap[AllocatedCode(Init, j)] == FragmentOf(fragmentIds, expressIds[j])
    {
      forall k | j < k < n ensures AllocatedCode(Init, k) != AllocatedCode(Init, j) {
        AllocationsDistinct(j, k);
      }
      RegisterLastWrite(a, expressIds, fragmentIds, j);
    }
    forall j | 0 <= j < n ensures AllocatedCode(Init, j) != Key(0, 0, 0) {
      AllocationsNotBackground(j);
    }
  }

  /** Resolving a single key: its defined fragment, or nothing for an unknown key or undefined entry. */
  lemma ResolveOne(colorMap: map<string, Option<FragmentId>>, key: string)
    ensures key !in colorMap ==> Resolve(colorMap, {key}) == {}
    ensures key in colorMap ==> Resolve(colorMap, {key}) == if colorMap[key].Some? then {colorMap[key].value} else {}
  {
  }

  /** Resolution distributes over a union of colour sets, such as the pixels of two buffers. */
  lemma ResolveUnion(colorMap: map<string, Option<FragmentId>>, xs: set<string>, ys: set<string>)
    ensures Resolve(colorMap, xs + ys) == Resolve(colorMap, xs) + Resolve(colorMap, ys)
  {
  }

  /**
   * Two opaque boxes then one transparent box, with express IDs 1, 2 and 3
   * standing for fragments F1, F2 and F3, take the codes "0-0-1" to "0-0-3";
   * the opaque render's keys resolve to F1 and F2, and the combined render's
   * keys, background included, to all three.
   */
  lemma ThreeBoxScene()
    ensures var a := Register(Allocation(map[], Init), [1, 2] + [3], map[1 := "F1", 2 := "F2", 3 := "F3"]);
      && a.colorMap == map["0-0-1" := Some("F1"), "0-0-2" := Some("F2"), "0-0-3" := Some("F3")]
      && Resolve(a.colorMap, {"0-0-1", "0-0-2"}) == {"F1", "F2"}
      && Resolve(a.colorMap, {"0-0-0", "0-0-1", "0-0-2", "0-0-3"}) == {"F1", "F2", "F3"}
  {
    var f := map[1 := "F1", 2 := "F2", 3 := "F3"];
    var c1, c2, c3 := Counter(0, 0, 1, 0), Counter(0, 0, 2, 0), Counter(0, 0, 3, 0);
    assert Advance(Init) == c1 && Advance(c1) == c2 && Advance(c2) == c3;
    assert NatToString(0) == "0" && NatToString(1) == "1" && NatToString(2) == "2" && NatToString(3) == "3";
    assert CodeOf(c1) == "0-0-1" && CodeOf(c2) == "0-0-2" && CodeOf(c3) == "0-0-3";
    var m1 := map["0-0-1" := Some("F1")];
    var m2 := m1["0-0-2" := Some("F2")];
    var m3 := m2["0-0-3" := Some("F3")];
    assert [1, 2] + [3] == [1, 2, 3];
    assert Register(Allocation(map[], Init), [1, 2, 3], f) == Register(Allocation(m1, c1), [2, 3], f);
    assert Register(Allocation(m1, c1), [2, 3], f) == Register(Allocation(m2, c2), [3], f);
    assert Register(Allocation(m2, c2), [3], f) == Allocation(m3, c3);
    assert "0-0-0" !in m3;
  }
}
