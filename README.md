# Memory culling: a verified Dafny model

This project models `MemoryCulling` from `library/src/fragment/memory-culling.ts`. That class decides which fragments of a BIM model are on screen so that their geometry can be streamed in, and which have left the view so that they can later be evicted.

How it works:

- Every bounding box is painted in a colour of its own, up to 16712190 boxes (see below for what happens after that). A 24-bit counter hands out the colours, and each colour's `"r-g-b"` key is registered against the box's fragment.
- On each update the culling scene is rendered off-screen twice: first with the opaque boxes alone, then with the transparent boxes added. Each read-back buffer goes to a worker that collects the colour keys of its pixels.
- The two answers of a cycle are resolved to fragments and fed to a two-pass tracker. The tracker maintains:
  - the discovered fragments of the cycle;
  - every fragment ever discovered;
  - a map from the fragments no longer seen to a timestamp.

  At the end of each cycle it fires an event with the newly discovered fragments.

The modules follow the pieces of the class:

- `Decimal`: the decimal rendering of a channel (`${n}` in the source). It has an inverse, so keys are injective.
- `ColorCodes`: the counter of `getNextColor` (`Advance`), the states it can reach, and how many calls it takes to reach each of them.
- `Registration`: the colour half of `loadBoxes` as a function on the colour map (`Register`), and the lookup of `getFragmentsIDs` (`Resolve`).
- `PixelDecoder`: the worker's decode loop (`DecodePixels`) and the set it computes (`PixelColors`).
- `Tracking`: the first and second pass as functions on the tracker state (`FirstPass`, `SecondPass`, `Handle`).
- `Culling`: the class `MemoryCulling` itself. Its fields are updated in place by methods that mirror the source's methods, and each method is proved against the functions above.

The worker channel is a queue of decoded colour sets. `UpdateVisibility` appends two sets, and `DeliverWorkerMessage` pops the oldest one and runs `handleWorkerMessage` on it. Two ghost fields record what the object does:

- which render each queued buffer came from;
- every list the `fragmentsDiscovered` event fired with.

The object invariant `Valid` implies that an answer handled on a first pass always comes from the opaque render, and one handled on a second pass from the combined render. This holds even when several updates are in flight.

Where the intended design and the code differ, the model follows the code:

- **No capacity error.** The allocator never reports exhaustion.
  - After call 16712190 from a fresh counter it wraps to `0-0-0` and repeats its sequence (`AllocatorWraps`).
  - The number of distinct codes is 16712190, not 256³ − 1. Incrementing red leaves the rotation index at 1, so the next call increments green: the codes `r-0-1` … `r-0-255` are never produced for `r ≥ 1`.
  - Colliding codes overwrite earlier entries in the colour map without any error; the transparent loop only logs a message when the old entry is defined (`RegisterLastWrite`).
- **Pending removal is settled by the combined pass alone.** Both the stamping of unseen fragments and the removal of seen ones use the fragments found by the second message, not the union kept in `discoveredFragments`. A previously discovered fragment seen only in the opaque render ends the cycle both discovered and pending removal (`OpaqueOnlyFragmentStaysPending`). A fragment discovered for the first time by the opaque render alone is not stamped in that cycle, since the stamping loop goes over the old previously discovered set only; it joins that set at the end of the cycle, so a later cycle whose combined render misses it does stamp it.
- **Timestamps record when a fragment was last found unseen.** Every cycle stamps all unseen fragments again (`PendingRemovalIsLatest`), so the stamp is the latest cycle that missed the fragment, not the first.

## Model

| member | source | states |
|---|---|---|
| `Decimal.NatToString` | library/src/fragment/memory-culling.ts:156 | the rendering of a channel is a non-empty string of decimal digits with no `-` in it |
| `Decimal.ParseNatToString` | library/src/fragment/memory-culling.ts:156 | parsing the decimal rendering of `n` gives back `n` |
| `Decimal.NatToStringInjective` | library/src/fragment/memory-culling.ts:156 | distinct numbers render as distinct strings |
| `ColorCodes.Key` | library/src/fragment/memory-culling.ts:156 | definition: the key of a colour is its red, green and blue channels in decimal, joined by `-`, as the template at line 156 and the concatenation at line 58 build it |
| `ColorCodes.CodeOf` | library/src/fragment/memory-culling.ts:152-157 | definition: the code `getNextColor` returns is the key of the counter's new channels |
| `ColorCodes.Advance` | library/src/fragment/memory-culling.ts:125-150 | definition: one `getNextColor` step, stage by stage: blue is incremented while the index is 0 and hands over to green on overflow; green is then incremented while the index is 1, resetting the index to 0 or handing over to red on overflow; red is incremented while the index is 2, leaving the index at 1, or the counter resets on overflow |
| `ColorCodes.AdvanceStep` | library/src/fragment/memory-culling.ts:125-150 | one `getNextColor` step keeps every channel a byte and the rotation index 0 or 1; from the last state it wraps to the initial state; from any other state it strictly increases `r*65536+g*256+b` and moves one place along the enumeration |
| `ColorCodes.FirstCode` | library/src/fragment/memory-culling.ts:125-158 | from `{0,0,0,0}` the first call gives counter `(0,0,1,0)` and code `"0-0-1"` |
| `ColorCodes.ReachableChannelsDetermineState` | library/src/fragment/memory-culling.ts:125-150 | in a reachable state the rotation index is determined by the channels |
| `ColorCodes.OrdinalBound` | library/src/fragment/memory-culling.ts:125-150 | every reachable state is at most 16712190 calls from the start; only `(255,255,255)` is exactly that far, and only the initial state is 0 calls away |
| `ColorCodes.IterateFromInit` | library/src/fragment/memory-culling.ts:125-150 | after `k ≤ 16712190` calls from the start, the counter is reachable and exactly `k` places along |
| `ColorCodes.KeyInjective` | library/src/fragment/memory-culling.ts:156 | two colours with the same `"r-g-b"` key have the same channels |
| `ColorCodes.AllocationsDistinct` | library/src/fragment/memory-culling.ts:125-158 | the first 16712190 calls from a fresh counter return pairwise distinct codes |
| `ColorCodes.AllocationsNotBackground` | library/src/fragment/memory-culling.ts:125-158 | none of the first 16712190 calls returns the background code `"0-0-0"` |
| `ColorCodes.AllocatorWraps` | library/src/fragment/memory-culling.ts:143-150 | call 16712191 returns `"0-0-0"`, and from then on the counter repeats the states of the calls 16712191 places earlier |
| `Registration.Register` | library/src/fragment/memory-culling.ts:171-218 | definition: the boxes take the next colour one after another, in order, and each box's fragment from the express-ID map (undefined when absent) is written under its code, replacing what the key held |
| `Registration.Resolve` | library/src/fragment/memory-culling.ts:235-249 | definition: the fragments that the given keys map to; keys absent from the map and entries that are undefined contribute nothing |
| `Registration.RegisterKeys` | library/src/fragment/memory-culling.ts:171-218 | registering boxes advances the counter once per box, and the colour map's keys become the old keys plus every code handed out |
| `Registration.RegisterConcat` | library/src/fragment/memory-culling.ts:171-218 | running the transparent loop after the opaque loop registers the opaque IDs followed by the transparent IDs |
| `Registration.RegisterKeepsOthers` | library/src/fragment/memory-culling.ts:188-217 | a key that no registered box received keeps its old entry |
| `Registration.RegisterLastWrite` | library/src/fragment/memory-culling.ts:188-217 | a box's code maps to that box's fragment (or to undefined) unless a later box received the same code, in which case the later write wins |
| `Registration.FreshRegistrationResolves` | library/src/fragment/memory-culling.ts:160-223 | on a fresh object, up to 16712190 boxes each get their own code: the map holds exactly those codes, each resolves to its own box's fragment, and `"0-0-0"` stays unregistered |
| `Registration.ResolveOne` | library/src/fragment/memory-culling.ts:235-249 | resolving one key gives its registered fragment, or nothing when the key is unknown or its box had no fragment |
| `Registration.ResolveUnion` | library/src/fragment/memory-culling.ts:235-249 | resolving a union of key sets gives the union of the resolved fragments |
| `Registration.ThreeBoxScene` | library/src/fragment/memory-culling.ts:160-249 | two opaque boxes and one transparent box for F1, F2, F3 get codes `"0-0-1"` to `"0-0-3"`; the keys of the opaque render resolve to {F1, F2}; the keys of the combined render, background included, resolve to {F1, F2, F3} |
| `PixelDecoder.PixelKey` | library/src/fragment/memory-culling.ts:55-58 | definition: the key of pixel `k` is built from bytes `4k`, `4k+1` and `4k+2`; byte `4k+3`, the alpha, is not read |
| `PixelDecoder.PixelColors` | library/src/fragment/memory-culling.ts:53-61 | definition: the set of the keys of every pixel of a buffer of whole pixels |
| `PixelDecoder.DecodePixels` | library/src/fragment/memory-culling.ts:50-63 | the worker's stride-4 loop returns exactly the keys `"buf[4k]-buf[4k+1]-buf[4k+2]"` of all pixels `k` |
| `PixelDecoder.EmptyBufferNoColors` | library/src/fragment/memory-culling.ts:53-61 | an empty buffer decodes to the empty set |
| `PixelDecoder.AlphaIgnored` | library/src/fragment/memory-culling.ts:55-58 | buffers that differ only in alpha bytes decode alike |
| `PixelDecoder.ConcatColors` | library/src/fragment/memory-culling.ts:53-61 | decoding two buffers laid end to end gives the union of their key sets |
| `PixelDecoder.DuplicatesCollapse` | library/src/fragment/memory-culling.ts:53-61 | a buffer repeated twice decodes to the same set as the buffer itself |
| `PixelDecoder.CounterPixelDecodesToCode` | library/src/fragment/memory-culling.ts:53-61 | a pixel whose red, green and blue bytes are a counter state's channels decodes to exactly that state's `"r-g-b"` code, the key `getNextColor` returns for it, whatever its alpha; rendering itself is not modelled |
| `PixelDecoder.ThreePixelExample` | library/src/fragment/memory-culling.ts:53-61 | pixels (1,2,3,255), (1,2,3,0), (4,5,6,10) decode to {"1-2-3", "4-5-6"} |
| `Tracking.FirstPass` | library/src/fragment/memory-culling.ts:251-255 | definition: the discovered set becomes exactly the found fragments and the flag is cleared; the other fields are kept |
| `Tracking.MarkUndiscovered` | library/src/fragment/memory-culling.ts:260-264 | definition: every fragment of the previously discovered set that is not among the found fragments is stamped `now`; other entries keep their time |
| `Tracking.SecondPass` | library/src/fragment/memory-culling.ts:257-281 | definition: the found fragments join the discovered set; the previously discovered fragments missing from the found fragments are stamped; the discovered set joins the previously discovered set; the found fragments leave the pending map; the flag is set again |
| `Tracking.NewlyDiscovered` | library/src/fragment/memory-culling.ts:266-272 | definition: the fragments the event reports are those in the discovered set after the found fragments join it, and not in the previously discovered set before the pass |
| `Tracking.Handle` | library/src/fragment/memory-culling.ts:225-233 | definition: a message runs the first pass when the flag is set and the second pass otherwise |
| `Tracking.HandleKeepsConsistent` | library/src/fragment/memory-culling.ts:225-281 | each message flips the pass flag, never shrinks the previously discovered set, and keeps the pending-removal map within the previously discovered set |
| `Tracking.RunKeepsConsistent` | library/src/fragment/memory-culling.ts:225-281 | across any sequence of messages: consistency holds, the previously discovered set only grows, and the flag has flipped once per message |
| `Tracking.SecondPassUndiscovered` | library/src/fragment/memory-culling.ts:260-276 | after a second message: its fragments are absent from the pending-removal map; previously discovered fragments missing from it carry `now`; other entries keep their timestamps; nothing else is added |
| `Tracking.PendingRemovalIsLatest` | library/src/fragment/memory-culling.ts:260-276 | in a consistent state, after a second message the map holds exactly the previously discovered fragments that message missed, all stamped `now` |
| `Tracking.CycleOutcome` | library/src/fragment/memory-culling.ts:251-281 | a whole cycle: the first message replaces the discovered set and touches nothing else; after the second, the discovered set is the union of both passes, the event set is that union minus the previously discovered set, the previously discovered set absorbs both passes, and pending removal is settled by the second pass |
| `Tracking.OpaqueOnlyFragmentStaysPending` | library/src/fragment/memory-culling.ts:257-276 | a previously discovered fragment found in the opaque pass but not in the combined pass ends the cycle both discovered and pending removal |
| `Tracking.TwoCycleScenario` | library/src/fragment/memory-culling.ts:225-289 | cycle 1 (opaque {F1,F2}, combined {F1,F2,F3}) reports all three and leaves nothing pending; cycle 2 (F1 only) reports nothing and leaves F2 and F3 pending with cycle 2's time |
| `Culling.PostPairKeepsAlternation` | library/src/fragment/memory-culling.ts:93-112 | posting an opaque buffer and then a combined buffer keeps the queue alternating |
| `Culling.AnswerKeepsAlternation` | library/src/fragment/memory-culling.ts:225-233 | the oldest queued buffer's render follows from the queue's parity, and removing it keeps the queue alternating |
| `Culling.MemoryCulling.constructor` | library/src/fragment/memory-culling.ts:16-48 | a new object is enabled, has no opaque mesh and nothing due, has an empty colour map and a counter at `{0,0,0,0}`, has empty tracking state with the flag set, has an empty queue, and uses a buffer of `rtWidth*rtHeight*4` bytes (512×512 by default) |
| `Culling.MemoryCulling.GetNextColor` | library/src/fragment/memory-culling.ts:125-158 | the counter field takes one `Advance` step and stays reachable; the returned triple is the new channels and its code is their `"r-g-b"` key |
| `Culling.MemoryCulling.LoadBoxes` | library/src/fragment/memory-culling.ts:160-223 | colour map and counter become `Register` of the opaque IDs followed by the transparent IDs; the opaque mesh is set and added to the scene |
| `Culling.MemoryCulling.RegisterBoxes` | library/src/fragment/memory-culling.ts:171-189 | one box loop of `loadBoxes` leaves the counter reachable and makes the colour map and counter `Register` of its express IDs, in order |
| `Culling.MemoryCulling.UpdateVisibility` | library/src/fragment/memory-culling.ts:71-123 | with no opaque mesh, when disabled, or with nothing due and no force, the object is unchanged; otherwise the queue gains the decoded opaque read-back and then the decoded combined read-back, tagged with the opaque and the combined render, the transparent mesh is out of the scene again, and `needsUpdate` is false |
| `Culling.MemoryCulling.DeliverWorkerMessage` | library/src/fragment/memory-culling.ts:225-233 | the oldest queued answer is handled, and it comes from the opaque render on a first pass and from the combined render on a second; the state becomes `Handle` of its resolved fragments; a second pass appends exactly one event |
| `Culling.MemoryCulling.HandleWorkerMessage` | library/src/fragment/memory-culling.ts:225-233 | the tracker state becomes `Handle` of the resolved fragments; a first pass fires no event; a second fires exactly one, listing each newly discovered fragment once |
| `Culling.MemoryCulling.GetFragmentsIDs` | library/src/fragment/memory-culling.ts:235-249 | returns exactly the fragments registered under the given keys: an id is returned iff some given key maps to it |
| `Culling.MemoryCulling.RenderFirstPass` | library/src/fragment/memory-culling.ts:251-255 | the discovered set becomes exactly the found fragments and the flag is cleared; nothing else changes |
| `Culling.MemoryCulling.RenderSecondPass` | library/src/fragment/memory-culling.ts:257-281 | the tracker state becomes `SecondPass`; exactly one event is appended, listing each fragment discovered this cycle and never before exactly once |
| `Culling.MemoryCulling.StampUndiscovered` | library/src/fragment/memory-culling.ts:260-264 | every previously discovered fragment not found is stamped `now`; other entries are kept |
| `Culling.MemoryCulling.AbsorbDiscovered` | library/src/fragment/memory-culling.ts:266-272 | the discovered set joins the previously discovered set, and the returned list names each fragment that was not in it before exactly once |
| `Culling.MemoryCulling.ForgetFound` | library/src/fragment/memory-culling.ts:274-276 | the found fragments leave the pending-removal map, and nothing else does |
| `Culling.MemoryCulling.SaveFoundFragments` | library/src/fragment/memory-culling.ts:283-289 | the discovered set becomes its old contents plus the found fragments |

## Left out

- three.js rendering is not modelled: the renderer, render target, instanced meshes, matrices and `THREE.Color` parsing. The two read-back buffers are parameters of `UpdateVisibility`, and the scene is reduced to a count of opaque meshes added plus whether the transparent mesh is in it.
- The Worker, Blob and object-URL construction, and message transport, are not modelled. A posted buffer is decoded when it is posted, and the decoded set waits in a FIFO queue. This is equivalent because `postMessage` copies the buffer at that moment.
- The `setInterval` timer, `updateInterval` and `autoUpdate` are not modelled: they only schedule `updateVisibility`.
- Camera access and `renderDebugFrame` are not modelled. The debug render draws to the screen and has no effect on the state.
- The `console.log` calls are not modelled: the collision warning and the `"0226"` check.
- `materialCache`, `exclusions`, `meshes` and `visibleExpressId` are not modelled: no modelled logic reads them.
- The two box loops of `loadBoxes` (lines 171-189 and 198-218) are modelled as two calls of one loop method, `RegisterBoxes`. They differ in mesh calls, in the order of two independent statements, and in the collision test of the transparent loop (lines 213-215), which only reads the map and logs.
- `Object.keys`, `Object.values` and `parseInt` are not modelled. Each group's express IDs are given as a sequence of integers in the order the loop visits them, and `expressIDTofragmentIDMap` is a map from integer to fragment ID.
- Culling.MemoryCulling.RenderSecondPass: the event list is specified as naming each newly discovered fragment exactly once. Its order is JavaScript set insertion order, which is not modelled.
- Culling.MemoryCulling.StampUndiscovered: one time value stands for `performance.now()` over the whole second pass; the source reads the clock afresh for each stamped fragment.
- Culling.MemoryCulling.GetFragmentsIDs: keys with no fragment are dropped rather than returned as `undefined`. The rest of the class behaves the same either way: `saveFoundFragments` skips `undefined`, and membership tests and deletions on fragment IDs never match it.
- Listeners of `fragmentsDiscovered` are not modelled. An event is recorded in a ghost log and has no other effect.
- The replacement of `transparentMesh` by a later `loadBoxes` call is not modelled, because that mesh is not part of the modelled state. Earlier opaque meshes remain in the scene, which the mesh count records.
