/**
 * The `MemoryCulling` object: it paints every bounding box in a colour of
 * its own, reads the colour-coded render back as two RGBA buffers per
 * update (opaque boxes alone, then with the transparent boxes added), has
 * a worker decode each buffer into colour keys, and turns the keys of each
 * pair of answers into the discovered, newly discovered and undiscovered
 * fragments.
 */
module Culling {
  import opened Ids
  import opened ColorCodes
  import opened Registration
  import opened PixelDecoder
  import opened Tracking

  /** What `getNextColor` returns: the new channels and their key. */
  datatype NewColor = NewColor(r: nat, g: nat, b: nat, code: string)

  /** The render a buffer posted to the worker was read back from. */
  datatype Pass = OpaquePass | CombinedPass

  /** `list` names every element of `s` exactly once and nothing else. */
  predicate Enumerates(list: seq<FragmentId>, s: set<FragmentId>) {
    && (forall k :: 0 <= k < |list| ==> list[k] in s)
    && (forall id :: id in s ==> id in list)
    && (forall j, k :: 0 <= j < k < |list| ==> list[j] != list[k])
  }

  /** The pass that buffer `k` of a queue of `n` buffers comes from, when the queue ends with a combined pass. */
  function PassAt(n: nat, k: nat): Pass {
    if (n - k) % 2 == 0 then OpaquePass else CombinedPass
  }

  /** Two more buffers, opaque then combined, keep a queue alternating. */
  lemma PostPairKeepsAlternation(q: seq<Pass>)
    requires forall k :: 0 <= k < |q| ==> q[k] == PassAt(|q|, k)
    ensures forall k :: 0 <= k < |q| + 2 ==> (q + [OpaquePass, CombinedPass])[k] == PassAt(|q| + 2, k)
  {
    var q' := q + [OpaquePass, CombinedPass];
    forall k | 0 <= k < |q'| ensures q'[k] == PassAt(|q'|, k) {
      if k < |q| {
        assert q'[k] == q[k];
      }
    }
  }

  /** Answering the oldest buffer keeps a queue alternating; that buffer's pass follows from the queue's parity. */
  lemma AnswerKeepsAlternation(q: seq<Pass>)
    requires q != [] && forall k :: 0 <= k < |q| ==> q[k] == PassAt(|q|, k)
    ensures q[0] == if |q| % 2 == 0 then OpaquePass else CombinedPass
    ensures forall k :: 0 <= k < |q| - 1 ==> q[1..][k] == PassAt(|q| - 1, k)
  {
    forall k | 0 <= k < |q| - 1 ensures q[1..][k] == PassAt(|q| - 1, k) {
      assert q[1..][k] == q[k + 1];
    }
  }

  class MemoryCulling {
    const rtWidth: nat
    const rtHeight: nat
    /** Bytes in one read-back: four per pixel of the render target. */
    const bufferSize: nat

    var enabled: bool
    /** Whether `loadBoxes` has set `opaqueMesh`. */
    var hasOpaqueMesh: bool
    /** How many opaque box meshes `loadBoxes` has added to the culling scene. */
    var opaqueMeshesInScene: nat
    /** Whether the transparent box mesh is currently in the culling scene. */
    var transparentInScene: bool
    /** Colour key to fragment; `None` where the box's express ID had no fragment. */
    var fragmentColorMap: map<string, Option<FragmentId>>
    var needsUpdate: bool
    var isFirstRenderingPass: bool
    var discoveredFragments: set<FragmentId>
    var undiscoveredFragments: map<FragmentId, Time>
    var previouslyDiscoveredFragments: set<FragmentId>
    var colors: Counter

    /** Buffers posted to the worker and not yet answered, already decoded into their colour keys. */
    var workerQueue: seq<set<string>>
    /** The render each queued buffer was read back from. */
    ghost var queuedPasses: seq<Pass>
    /** The lists `fragmentsDiscovered` has been triggered with, oldest first. */
    ghost var discoveryEvents: seq<seq<FragmentId>>

    /** The discovery bookkeeping as a value. */
    function State(): Tracker
      reads this
    {
      Tracker(isFirstRenderingPass, discoveredFragments, previouslyDiscoveredFragments, undiscoveredFragments)
    }

    /**
     * The object invariant: buffers hold whole pixels, the allocator is in a
     * reachable state, the bookkeeping is consistent, the transparent mesh is
     * outside the scene between updates, and the queued buffers alternate
     * opaque, combined, ending with a combined one, so that the pass flag
     * tells which render the next answer comes from.
     */
    ghost predicate Valid()
      reads this
    {
      && bufferSize % 4 == 0
      && Reachable(colors)
      && Consistent(State())
      && !transparentInScene
      && |queuedPasses| == |workerQueue|
      && (isFirstRenderingPass <==> |workerQueue| % 2 == 0)
      && (forall k :: 0 <= k < |queuedPasses| ==> queuedPasses[k] == PassAt(|queuedPasses|, k))
    }

    constructor(rtWidth: nat := 512, rtHeight: nat := 512)
      ensures Valid()
      ensures this.rtWidth == rtWidth && this.rtHeight == rtHeight && bufferSize == rtWidth * rtHeight * 4
      ensures enabled && !hasOpaqueMesh && opaqueMeshesInScene == 0 && !needsUpdate
      ensures fragmentColorMap == map[] && colors == Init
      ensures State() == Initial
      ensures workerQueue == [] && discoveryEvents == []
    {
      this.rtWidth := rtWidth;
      this.rtHeight := rtHeight;
      var area := rtWidth * rtHeight;
      assert (area * 4) % 4 == 0;
      bufferSize := area * 4;
      enabled := true;
      hasOpaqueMesh := false;
      opaqueMeshesInScene := 0;
      transparentInScene := false;
      fragmentColorMap := map[];
      needsUpdate := false;
      isFirstRenderingPass := true;
      discoveredFragments := {};
      undiscoveredFragments := map[];
      previouslyDiscoveredFragments := {};
      colors := Init;
      workerQueue := [];
      queuedPasses := [];
      discoveryEvents := [];
    }

    /**
     * One step of the allocator, updating the counter in place, and the new
     * channels with their key. A reachable counter stays reachable.
     */
    method GetNextColor() returns (newCol: NewColor)
      modifies this`colors
      ensures colors == Advance(old(colors))
      ensures old(Reachable(colors)) ==> Reachable(colors)
      ensures newCol.r == colors.r && newCol.g == colors.g && newCol.b == colors.b
      ensures newCol.code == Key(newCol.r, newCol.g, newCol.b)
    {
      if colors.i == 0 {
        colors := colors.(b := colors.b + 1);
        if colors.b == 256 {
          colors := colors.(b := 0, i := 1);
        }
      }
      if colors.i == 1 {
        colors := colors.(g := colors.g + 1, i := 0);
        if colors.g == 256 {
          colors := colors.(g := 0, i := 2);
        }
      }
      if colors.i == 2 {
        colors := colors.(r := colors.r + 1, i := 1);
        if colors.r == 256 {
          colors := colors.(r := 0, i := 0);
        }
      }
      if old(Reachable(colors)) {
        AdvanceStep(old(colors));
      }
      newCol := NewColor(colors.r, colors.g, colors.b, Key(colors.r, colors.g, colors.b));
    }

    /**
     * The colour half of `loadBoxes`: the opaque boxes, then the transparent
     * ones, each take the next colour and have their fragment written under
     * its key; the opaque mesh is added to the scene and recorded.
     */
    method LoadBoxes(opaqueIds: seq<int>, transparentIds: seq<int>, fragmentIds: map<int, FragmentId>)
      requires Valid()
      modifies this`colors, this`fragmentColorMap, this`hasOpaqueMesh, this`opaqueMeshesInScene
      ensures Valid()
      ensures Allocation(fragmentColorMap, colors)
              == Register(Allocation(old(fragmentColorMap), old(colors)), opaqueIds + transparentIds, fragmentIds)
      ensures hasOpaqueMesh && opaqueMeshesInScene == old(opaqueMeshesInScene) + 1
    {
      ghost var before := Allocation(fragmentColorMap, colors);
      RegisterBoxes(opaqueIds, fragmentIds);
      RegisterBoxes(transparentIds, fragmentIds);
      RegisterConcat(before, opaqueIds, transparentIds, fragmentIds);
      opaqueMeshesInScene := opaqueMeshesInScene + 1;
      hasOpaqueMesh := true;
    }

    /**
     * One box loop of `loadBoxes`, run over a group of express IDs: each box
     * takes the next colour and its fragment is written under the colour's key.
     */
    method RegisterBoxes(expressIds: seq<int>, fragmentIds: map<int, FragmentId>)
      requires Reachable(colors)
      modifies this`colors, this`fragmentColorMap
      ensures Reachable(colors)
      ensures Allocation(fragmentColorMap, colors)
              == Register(Allocation(old(fragmentColorMap), old(colors)), expressIds, fragmentIds)
    {
      ghost var target := Register(Allocation(fragmentColorMap, colors), expressIds, fragmentIds);
      assert expressIds[0..] == expressIds;
      var i := 0;
      while i < |expressIds|
        invariant 0 <= i <= |expressIds|
        invariant Reachable(colors)
        invariant Register(Allocation(fragmentColorMap, colors), expressIds[i..], fragmentIds) == target
      {
        var newCol := GetNextColor();
        var fragmentId := FragmentOf(fragmentIds, expressIds[i]);
        assert expressIds[i..][1..] == expressIds[i + 1..];
        fragmentColorMap := fragmentColorMap[newCol.code := fragmentId];
        i := i + 1;
      }
    }

    /**
     * `updateVisibility`: unless there is no opaque mesh, culling is
     * disabled, or no update is due and none is forced, renders the scene
     * twice, first without and then with the transparent mesh, posts each
     * read-back to the worker, takes the transparent mesh out again and
     * clears `needsUpdate`. The pixel buffers are what the two renders read
     * back.
     */
    method UpdateVisibility(force: bool, opaquePixels: seq<Byte>, combinedPixels: seq<Byte>)
      requires Valid()
      requires |opaquePixels| == bufferSize && |combinedPixels| == bufferSize
      modifies this`workerQueue, this`queuedPasses, this`transparentInScene, this`needsUpdate
      ensures Valid()
      ensures !hasOpaqueMesh || !enabled || (!old(needsUpdate) && !force) ==> unchanged(this)
      ensures hasOpaqueMesh && enabled && (old(needsUpdate) || force) ==>
                && workerQueue == old(workerQueue) + [PixelColors(opaquePixels), PixelColors(combinedPixels)]
                && queuedPasses == old(queuedPasses) + [OpaquePass, CombinedPass]
                && !needsUpdate
    {
      if !hasOpaqueMesh {
        return;
      }
      if !enabled {
        return;
      }
      if !needsUpdate && !force {
        return;
      }
      var opaqueColors := DecodePixels(opaquePixels);
      ghost var opaqueRender := if transparentInScene then CombinedPass else OpaquePass;
      transparentInScene := true;
      var combinedColors := DecodePixels(combinedPixels);
      ghost var combinedRender := if transparentInScene then CombinedPass else OpaquePass;
      PostPairKeepsAlternation(queuedPasses);
      workerQueue := workerQueue + [opaqueColors, combinedColors];
      queuedPasses := queuedPasses + [opaqueRender, combinedRender];
      transparentInScene := false;
      needsUpdate := false;
    }

    /**
     * The worker answers the oldest posted buffer and `handleWorkerMessage`
     * runs on its colour keys. The answer always comes from the render the
     * pass flag expects: the opaque render on a first pass, the combined
     * render on a second.
     */
    method DeliverWorkerMessage(now: Time)
      requires Valid() && workerQueue != []
      modifies this`workerQueue, this`queuedPasses, this`isFirstRenderingPass, this`discoveredFragments,
               this`previouslyDiscoveredFragments, this`undiscoveredFragments, this`discoveryEvents
      ensures Valid()
      ensures old(queuedPasses[0]) == if old(isFirstRenderingPass) then OpaquePass else CombinedPass
      ensures workerQueue == old(workerQueue[1..]) && queuedPasses == old(queuedPasses[1..])
      ensures State() == Handle(old(State()), Resolve(fragmentColorMap, old(workerQueue[0])), now)
      ensures old(isFirstRenderingPass) ==> discoveryEvents == old(discoveryEvents)
      ensures !old(isFirstRenderingPass) ==>
                && |discoveryEvents| == |old(discoveryEvents)| + 1
                && discoveryEvents[..|old(discoveryEvents)|] == old(discoveryEvents)
                && Enumerates(discoveryEvents[|old(discoveryEvents)|],
                              NewlyDiscovered(old(State()), Resolve(fragmentColorMap, old(workerQueue[0]))))
    {
      AnswerKeepsAlternation(queuedPasses);
      var colorKeys := workerQueue[0];
      workerQueue := workerQueue[1..];
      queuedPasses := queuedPasses[1..];
      HandleKeepsConsistent(State(), Resolve(fragmentColorMap, colorKeys), now);
      HandleWorkerMessage(colorKeys, now);
    }

    /**
     * `handleWorkerMessage`: resolves the colour keys to fragments and runs
     * the first or the second pass according to the flag.
     */
    method HandleWorkerMessage(colorKeys: set<string>, now: Time)
      modifies this`isFirstRenderingPass, this`discoveredFragments, this`previouslyDiscoveredFragments,
               this`undiscoveredFragments, this`discoveryEvents
      ensures State() == Handle(old(State()), Resolve(fragmentColorMap, colorKeys), now)
      ensures old(isFirstRenderingPass) ==> discoveryEvents == old(discoveryEvents)
      ensures !old(isFirstRenderingPass) ==>
                && |discoveryEvents| == |old(discoveryEvents)| + 1
                && discoveryEvents[..|old(discoveryEvents)|] == old(discoveryEvents)
                && Enumerates(discoveryEvents[|old(discoveryEvents)|],
                              NewlyDiscovered(old(State()), Resolve(fragmentColorMap, colorKeys)))
    {
      var found := GetFragmentsIDs(colorKeys);
      if isFirstRenderingPass {
        RenderFirstPass(found);
      } else {
        RenderSecondPass(found, now);
      }
    }

    /**
     * `getFragmentsIDs`: the fragments registered under the given colour
     * keys. Keys never registered, such as the background's, and keys whose
     * box had no fragment contribute nothing.
     */
    method GetFragmentsIDs(colorKeys: set<string>) returns (found: set<FragmentId>)
      ensures found == Resolve(fragmentColorMap, colorKeys)
      ensures forall id :: id in found <==>
                exists key :: key in colorKeys && key in fragmentColorMap && fragmentColorMap[key] == Some(id)
    {
      found := {};
      var rest := colorKeys;
      while rest != {}
        invariant rest <= colorKeys
        invariant found == Resolve(fragmentColorMap, colorKeys - rest)
        decreases |rest|
      {
        var col :| col in rest;
        ghost var done := colorKeys - rest;
        var fragmentId := if col in fragmentColorMap then fragmentColorMap[col] else None;
        if fragmentId.Some? {
          found := found + {fragmentId.value};
        }
        ResolveOne(fragmentColorMap, col);
        ResolveUnion(fragmentColorMap, done, {col});
        rest := rest - {col};
        assert colorKeys - rest == done + {col};
      }
      assert colorKeys - rest == colorKeys;
      forall id | id in found
        ensures exists key :: key in colorKeys && key in fragmentColorMap && fragmentColorMap[key] == Some(id)
      {
        var key :| key in colorKeys && key in fragmentColorMap && fragmentColorMap[key].Some? && fragmentColorMap[key].value == id;
      }
    }

    /** `renderFirstPass`: the discovered set becomes exactly the found fragments, and the next answer is a second pass. */
    method RenderFirstPass(found: set<FragmentId>)
      modifies this`discoveredFragments, this`isFirstRenderingPass
      ensures State() == FirstPass(old(State()), found)
    {
      discoveredFragments := {};
      SaveFoundFragments(found);
      isFirstRenderingPass := false;
    }

    /**
     * `renderSecondPass`: adds the found fragments to the discovered set,
     * stamps previously discovered fragments missing from them, moves the
     * discovered set into the previously discovered one while listing the
     * fragments not in it before, removes the found fragments from the
     * undiscovered map, triggers the event with the list and rearms the
     * first pass.
     */
    method RenderSecondPass(found: set<FragmentId>, now: Time)
      modifies this`discoveredFragments, this`previouslyDiscoveredFragments, this`undiscoveredFragments,
               this`isFirstRenderingPass, this`discoveryEvents
      ensures State() == SecondPass(old(State()), found, now)
      ensures |discoveryEvents| == |old(discoveryEvents)| + 1
      ensures discoveryEvents[..|old(discoveryEvents)|] == old(discoveryEvents)
      ensures Enumerates(discoveryEvents[|old(discoveryEvents)|], NewlyDiscovered(old(State()), found))
    {
      SaveFoundFragments(found);
      StampUndiscovered(found, now);
      var newlyDiscoveredFrags := AbsorbDiscovered();
      ForgetFound(found);
      discoveryEvents := discoveryEvents + [newlyDiscoveredFrags];
      isFirstRenderingPass := true;
    }

    /** The first loop of `renderSecondPass`: each previously discovered fragment not found is stamped `now`. */
    method StampUndiscovered(found: set<FragmentId>, now: Time)
      modifies this`undiscoveredFragments
      ensures undiscoveredFragments
              == MarkUndiscovered(old(undiscoveredFragments), previouslyDiscoveredFragments, found, now)
    {
      var rest := previouslyDiscoveredFragments;
      while rest != {}
        invariant rest <= previouslyDiscoveredFragments
        invariant undiscoveredFragments
                  == MarkUndiscovered(old(undiscoveredFragments), previouslyDiscoveredFragments - rest, found, now)
        decreases |rest|
      {
        var item :| item in rest;
        ghost var done := previouslyDiscoveredFragments - rest;
        MarkUndiscoveredStep(old(undiscoveredFragments), done, item, found, now);
        if item !in found {
          undiscoveredFragments := undiscoveredFragments[item := now];
        }
        rest := rest - {item};
        assert previouslyDiscoveredFragments - rest == done + {item};
      }
      assert previouslyDiscoveredFragments - rest == previouslyDiscoveredFragments;
    }

    /**
     * The second loop of `renderSecondPass`: the discovered fragments join
     * the previously discovered ones, and the list names those that were not
     * there before.
     */
    method AbsorbDiscovered() returns (newlyDiscoveredFrags: seq<FragmentId>)
      modifies this`previouslyDiscoveredFragments
      ensures previouslyDiscoveredFragments == old(previouslyDiscoveredFragments) + discoveredFragments
      ensures Enumerates(newlyDiscoveredFrags, discoveredFragments - old(previouslyDiscoveredFragments))
    {
      newlyDiscoveredFrags := [];
      var rest := discoveredFragments;
      while rest != {}
        invariant rest <= discoveredFragments
        invariant previouslyDiscoveredFragments == old(previouslyDiscoveredFragments) + (discoveredFragments - rest)
        invariant Enumerates(newlyDiscoveredFrags, (discoveredFragments - rest) - old(previouslyDiscoveredFragments))
        decreases |rest|
      {
        var frag :| frag in rest;
        if frag !in previouslyDiscoveredFragments {
          newlyDiscoveredFrags := newlyDiscoveredFrags + [frag];
        }
        previouslyDiscoveredFragments := previouslyDiscoveredFragments + {frag};
        rest := rest - {frag};
      }
    }

    /** The third loop of `renderSecondPass`: the found fragments leave the undiscovered map. */
    method ForgetFound(found: set<FragmentId>)
      modifies this`undiscoveredFragments
      ensures undiscoveredFragments == old(undiscoveredFragments) - found
    {
      var rest := found;
      while rest != {}
        invariant rest <= found
        invariant undiscoveredFragments == old(undiscoveredFragments) - (found - rest)
        decreases |rest|
      {
        var item :| item in rest;
        undiscoveredFragments := undiscoveredFragments - {item};
        rest := rest - {item};
      }
    }

    /** `saveFoundFragments`: every found fragment joins the discovered set, which keeps what it had. */
    method SaveFoundFragments(found: set<FragmentId>)
      modifies this`discoveredFragments
      ensures discoveredFragments == old(discoveredFragments) + found
    {
      var rest := found;
      while rest != {}
        invariant rest <= found
        invariant discoveredFragments == old(discoveredFragments) + (found - rest)
        decreases |rest|
      {
        var item :| item in rest;
        discoveredFragments := discoveredFragments + {item};
        rest := rest - {item};
      }
    }
  }
}
