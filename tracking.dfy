/**
 * The discovery bookkeeping of `MemoryCulling` as functions on its state:
 * what `renderFirstPass` and `renderSecondPass` make of the fragments a
 * decoded buffer resolved to, and what holds across passes and cycles.
 */
module Tracking {
  import opened Ids

  /**
   * The fields `isFirstRenderingPass`, `discoveredFragments`,
   * `previouslyDiscoveredFragments` and `undiscoveredFragments`.
   */
  datatype Tracker = Tracker(
    isFirstRenderingPass: bool,
    discovered: set<FragmentId>,
    previouslyDiscovered: set<FragmentId>,
    undiscovered: map<FragmentId, Time>)

  /** The state of a newly constructed `MemoryCulling`. */
  const Initial := Tracker(true, {}, {}, map[])

  /** First message of a cycle: the found fragments replace the discovered set, and the next message is the second. */
  function FirstPass(t: Tracker, found: set<FragmentId>): Tracker {
    t.(isFirstRenderingPass := false, discovered := found)
  }

  /** Every previously discovered fragment missing from `found` is stamped with `now`. */
  function MarkUndiscovered(undiscovered: map<FragmentId, Time>, previously: set<FragmentId>,
                            found: set<FragmentId>, now: Time): map<FragmentId, Time> {
    undiscovered + map id | id in previously && id !in found :: now
  }

  /** Stamping one more previously discovered fragment: it gets `now` unless it was found. */
  lemma MarkUndiscoveredStep(undiscovered: map<FragmentId, Time>, done: set<FragmentId>, item: FragmentId,
                             found: set<FragmentId>, now: Time)
    ensures MarkUndiscovered(undiscovered, done + {item}, found, now)
            == if item in found then MarkUndiscovered(undiscovered, done, found, now)
               else MarkUndiscovered(undiscovered, done, found, now)[item := now]
  {
    var before := MarkUndiscovered(undiscovered, done, found, now);
    var after := MarkUndiscovered(undiscovered, done + {item}, found, now);
    var expected := if item in found then before else before[item := now];
    assert after.Keys == expected.Keys;
    forall id | id in after.Keys ensures after[id] == expected[id] {
    }
  }

  /**
   * Second message of a cycle: the found fragments join the discovered set;
   * previously discovered fragments missing from this message's fragments
   * are stamped `now`; the discovered set joins the previously discovered
   * one; this message's fragments leave the undiscovered map; and the next
   * message starts a new cycle.
   */
  function SecondPass(t: Tracker, found: set<FragmentId>, now: Time): Tracker {
    var discovered := t.discovered + found;
    Tracker(
      true,
      discovered,
      t.previouslyDiscovered + discovered,
      MarkUndiscovered(t.undiscovered, t.previouslyDiscovered, found, now) - found)
  }

  /** The fragments the second message's event reports: discovered in this cycle and never before. */
  function NewlyDiscovered(t: Tracker, found: set<FragmentId>): set<FragmentId> {
    (t.discovered + found) - t.previouslyDiscovered
  }

  /** `handleWorkerMessage` on the fragments a message resolved to. */
  function Handle(t: Tracker, found: set<FragmentId>, now: Time): Tracker {
    if t.isFirstRenderingPass then FirstPass(t, found) else SecondPass(t, found, now)
  }

  /** A worker message reduced to what the tracker uses: the resolved fragments and the time it is handled. */
  datatype Message = Message(found: set<FragmentId>, now: Time)

  /** The tracker after handling messages in order. */
  function Run(t: Tracker, messages: seq<Message>): Tracker
    decreases |messages|
  {
    if messages == [] then t else Run(Handle(t, messages[0].found, messages[0].now), messages[1..])
  }

  /**
   * The bookkeeping is consistent: only fragments once discovered are
   * pending removal, and between cycles every discovered fragment has been
   * recorded as previously discovered.
   */
  ghost predicate Consistent(t: Tracker) {
    && t.undiscovered.Keys <= t.previouslyDiscovered
    && (t.isFirstRenderingPass ==> t.discovered <= t.previouslyDiscovered)
  }

  /**
   * A message flips the pass flag, never shrinks the previously discovered
   * set, and keeps the bookkeeping consistent.
   */
  lemma HandleKeepsConsistent(t: Tracker, found: set<FragmentId>, now: Time)
    requires Consistent(t)
    ensures Consistent(Handle(t, found, now))
    ensures Handle(t, found, now).isFirstRenderingPass == !t.isFirstRenderingPass
    ensures t.previouslyDiscovered <= Handle(t, found, now).previouslyDiscovered
  {
  }

  /**
   * Over any sequence of messages, consistency is kept, the previously
   * discovered set only grows, and the pass flag has flipped once per message.
   */
  lemma {:induction false} RunKeepsConsistent(t: Tracker, messages: seq<Message>)
    requires Consistent(t)
    ensures Consistent(Run(t, messages))
    ensures t.previouslyDiscovered <= Run(t, messages).previouslyDiscovered
    ensures Run(t, messages).isFirstRenderingPass == (t.isFirstRenderingPass == (|messages| % 2 == 0))
    decreases |messages|
  {
    if messages != [] {
      var t' := Handle(t, messages[0].found, messages[0].now);
      HandleKeepsConsistent(t, messages[0].found, messages[0].now);
      RunKeepsConsistent(t', messages[1..]);
    }
  }

  /**
   * The undiscovered map after a second message: this message's fragments
   * are gone from it; every previously discovered fragment missing from them
   * carries `now`; any other entry keeps its time; nothing else is added.
   */
  lemma SecondPassUndiscovered(t: Tracker, found: set<FragmentId>, now: Time)
    ensures var u := SecondPass(t, found, now).undiscovered;
      && u.Keys == (t.undiscovered.Keys + t.previouslyDiscovered) - found
      && (forall id :: id in t.previouslyDiscovered && id !in found ==> u[id] == now)
      && (forall id :: id in t.undiscovered && id !in t.previouslyDiscovered && id !in found ==>
            u[id] == t.undiscovered[id])
  {
  }

  /**
   * In a consistent state every pending-removal entry is refreshed by each
   * second message: afterwards the map holds exactly the previously
   * discovered fragments missing from that message, all stamped `now`.
   */
  lemma PendingRemovalIsLatest(t: Tracker, found: set<FragmentId>, now: Time)
    requires Consistent(t) && !t.isFirstRenderingPass
    ensures Handle(t, found, now).undiscovered == map id | id in t.previouslyDiscovered && id !in found :: now
  {
    var u := Handle(t, found, now).undiscovered;
    var expected := map id | id in t.previouslyDiscovered && id !in found :: now;
    assert u.Keys == expected.Keys;
  }

  /**
   * One whole cycle from its start: the discovered set is the union of both
   * passes, the event reports exactly its fragments not seen before, these
   * join the previously discovered set, and the pending-removal map is
   * settled by the second pass's fragments alone.
   */
  lemma CycleOutcome(t: Tracker, firstFound: set<FragmentId>, secondFound: set<FragmentId>, now1: Time, now2: Time)
    requires t.isFirstRenderingPass
    ensures var t1 := Handle(t, firstFound, now1);
      && !t1.isFirstRenderingPass && t1.discovered == firstFound
      && t1.previouslyDiscovered == t.previouslyDiscovered && t1.undiscovered == t.undiscovered
    ensures var t1 := Handle(t, firstFound, now1);
      var t2 := Handle(t1, secondFound, now2);
      && t2.isFirstRenderingPass
      && t2.discovered == firstFound + secondFound
      && NewlyDiscovered(t1, secondFound) == (firstFound + secondFound) - t.previouslyDiscovered
      && t2.previouslyDiscovered == t.previouslyDiscovered + firstFound + secondFound
      && (forall id :: id in secondFound ==> id !in t2.undiscovered)
      && (forall id :: id in t.previouslyDiscovered && id !in secondFound ==>
            id in t2.undiscovered && t2.undiscovered[id] == now2)
  {
  }

  /**
   * The pending-removal check looks only at the second pass: a previously
   * discovered fragment seen in the opaque pass but hidden in the combined
   * pass ends the cycle both discovered and pending removal.
   */
  lemma OpaqueOnlyFragmentStaysPending(t: Tracker, firstFound: set<FragmentId>, secondFound: set<FragmentId>,
                                       now1: Time, now2: Time, id: FragmentId)
    requires t.isFirstRenderingPass
    requires id in t.previouslyDiscovered && id in firstFound && id !in secondFound
    ensures var t2 := Handle(Handle(t, firstFound, now1), secondFound, now2);
      id in t2.discovered && id in t2.undiscovered && t2.undiscovered[id] == now2
  {
  }

  /**
   * Two cycles from a fresh tracker. Cycle one: the opaque pass finds F1 and
   * F2, the combined pass F1, F2 and F3, and all three are reported. Cycle
   * two: both passes find only F1, nothing is reported, and F2 and F3 are
   * pending removal with the second cycle's time.
   */
  lemma TwoCycleScenario(now1: Time, now2: Time, now3: Time, now4: Time)
    ensures var c1a := Handle(Initial, {"F1", "F2"}, now1);
      var c1b := Handle(c1a, {"F1", "F2", "F3"}, now2);
      var c2a := Handle(c1b, {"F1"}, now3);
      var c2b := Handle(c2a, {"F1"}, now4);
      && NewlyDiscovered(c1a, {"F1", "F2", "F3"}) == {"F1", "F2", "F3"}
      && c1b.undiscovered == map[]
      && NewlyDiscovered(c2a, {"F1"}) == {}
      && c2b.undiscovered == map["F2" := now4, "F3" := now4]
      && c2b.previouslyDiscovered == {"F1", "F2", "F3"}
  {
    var c1b := Handle(Handle(Initial, {"F1", "F2"}, now1), {"F1", "F2", "F3"}, now2);
    var c2a := Handle(c1b, {"F1"}, now3);
    PendingRemovalIsLatest(c2a, {"F1"}, now4);
    assert (map id | id in c2a.previouslyDiscovered && id !in {"F1"} :: now4) == map["F2" := now4, "F3" := now4];
  }
}
