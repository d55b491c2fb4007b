/**
 * The page-rotation bookkeeping of the DispmanX triple-buffering layer, as a
 * sequential state machine over values.
 *
 * Every surface owns a fixed pool of pages, each with a `used` flag, and has
 * at most one page on screen (`current`).  One counter, `pending`, is shared
 * by all surfaces: the compositor accepts a new flip only when it is 0.  A
 * submitted flip is remembered here as `flight`, the completion token the
 * compositor hands back to the vsync callback (the `page` argument of the
 * callback, whose back-reference names its surface).
 *
 * The two events are the producer's frame submission and the compositor's
 * completion callback, each treated as atomic.  The blocking waits of the
 * producer are the enabling conditions of `SubmitFrame`.
 */
module PageFlip {
  import opened Wrappers

  /** `unsigned int` of the platform. */
  const Uint32Modulus: int := 0x1_0000_0000
  type Uint32 = x: int | 0 <= x < 0x1_0000_0000

  /** `pageflip_pending++` on an unsigned int. */
  function Inc32(x: Uint32): Uint32 { (x + 1) % Uint32Modulus }

  /** `pageflip_pending--` on an unsigned int: 0 would wrap to the maximum. */
  function Dec32(x: Uint32): Uint32 { (x + Uint32Modulus - 1) % Uint32Modulus }

  /** One surface's page pool: the `used` flag of every page, and the page on screen. */
  datatype SurfaceState = SurfaceState(used: seq<bool>, current: Option<nat>)

  /** The one flip the compositor has accepted and not yet completed. */
  datatype Flight = Flight(surface: nat, page: nat)

  datatype State = State(surfaces: seq<SurfaceState>, pending: Uint32, flight: Option<Flight>)

  datatype Event = SubmitFrame(surface: nat) | FlipComplete

  /** The indices of the pages whose `used` flag is set. */
  function UsedPages(used: seq<bool>): set<nat>
  {
    set i: nat | i < |used| && used[i]
  }

  /** The page pool as surface setup leaves it: every flag clear, nothing on screen. */
  function FreshPool(numpages: nat): (s: SurfaceState)
    ensures |s.used| == numpages && s.current == None
    ensures UsedPages(s.used) == {}
  {
    SurfaceState(seq(numpages, _ => false), None)
  }

  /** The state right after the surfaces are set up, before any flip. */
  function Initial(numpages: seq<nat>): (st: State)
    ensures |st.surfaces| == |numpages|
    ensures forall id :: 0 <= id < |numpages| ==>
      |st.surfaces[id].used| == numpages[id] && UsedPages(st.surfaces[id].used) == {}
    ensures st.pending == 0 && st.flight == None
  {
    State(seq(|numpages|, i requires 0 <= i < |numpages| => FreshPool(numpages[i])), 0, None)
  }

  /** The scan of the page pool: the lowest-index page whose `used` flag is clear. */
  function FirstFree(used: seq<bool>): (r: Option<nat>)
    ensures r.Some? ==> r.value < |used| && !used[r.value]
    ensures r.Some? ==> forall j :: 0 <= j < r.value ==> used[j]
    ensures r.None? <==> forall j :: 0 <= j < |used| ==> used[j]
  {
    if |used| == 0 then None
    else if !used[0] then Some(0)
    else match FirstFree(used[1..])
      case None => None
      case Some(i) => Some(i + 1)
  }

  /** The same surfaces, each with a pool of the same number of pages. */
  predicate SamePools(st: State, r: State)
  {
    && |r.surfaces| == |st.surfaces|
    && forall k :: 0 <= k < |st.surfaces| ==> |r.surfaces[k].used| == |st.surfaces[k].used|
  }

  /** The page a surface shows, as a set of at most one index. */
  function OnScreen(s: SurfaceState): set<nat>
  {
    if s.current.Some? then {s.current.value} else {}
  }

  /** The page of surface `id` that is waiting to be flipped, as a set of at most one index. */
  function InFlight(st: State, id: nat): set<nat>
  {
    if st.flight.Some? && st.flight.value.surface == id then {st.flight.value.page} else {}
  }

  /** A surface's used pages are exactly its on-screen page and its in-flight page. */
  ghost predicate SurfaceInv(st: State, id: nat)
    requires id < |st.surfaces|
  {
    var s := st.surfaces[id];
    && (s.current.Some? ==> s.current.value < |s.used|)
    && UsedPages(s.used) == OnScreen(s) + InFlight(st, id)
  }

  /** The safety invariant of the rotation. */
  ghost predicate Inv(st: State)
  {
    && st.pending <= 1
    && (st.pending == 1 <==> st.flight.Some?)
    && (st.flight.Some? ==>
          var f := st.flight.value;
          && f.surface < |st.surfaces|
          && f.page < |st.surfaces[f.surface].used|
          && st.surfaces[f.surface].current != Some(f.page))
    && forall id :: 0 <= id < |st.surfaces| ==> SurfaceInv(st, id)
  }

  /**
   * The producer gets past both of its waits: no flip is pending, and the
   * surface has a page whose flag is clear.
   */
  predicate CanSubmit(st: State, id: nat)
  {
    id < |st.surfaces| && st.pending == 0 && FirstFree(st.surfaces[id].used).Some?
  }

  /** A frame submission: take the lowest free page, mark it used, count one pending flip. */
  function Submit(st: State, id: nat): (r: State)
    requires CanSubmit(st, id)
    ensures SamePools(st, r)
    ensures r.flight.Some? && r.flight.value.surface == id
    ensures var p := r.flight.value.page;
      p < |st.surfaces[id].used| && !st.surfaces[id].used[p] && r.surfaces[id].used[p]
    ensures r.surfaces[id].current == st.surfaces[id].current
    ensures forall k :: 0 <= k < |st.surfaces| && k != id ==> r.surfaces[k] == st.surfaces[k]
  {
    var s := st.surfaces[id];
    var p := FirstFree(s.used).value;
    State(st.surfaces[id := s.(used := s.used[p := true])], Inc32(st.pending), Some(Flight(id, p)))
  }

  /** The compositor calls back only for a flip it accepted; the page pointers are valid. */
  predicate CanComplete(st: State)
  {
    && st.flight.Some?
    && st.flight.value.surface < |st.surfaces|
    && var s := st.surfaces[st.flight.value.surface];
       s.current.Some? ==> s.current.value < |s.used|
  }

  /**
   * The vsync callback: free the page that was on screen, make the flipped
   * page current, and drop the pending count.
   */
  function Complete(st: State): (r: State)
    requires CanComplete(st)
    ensures SamePools(st, r)
    ensures r.flight == None
    ensures var f := st.flight.value; r.surfaces[f.surface].current == Some(f.page)
    ensures var s := st.surfaces[st.flight.value.surface];
      s.current.Some? && s.current != Some(st.flight.value.page) ==>
        !r.surfaces[st.flight.value.surface].used[s.current.value]
    ensures forall k :: 0 <= k < |st.surfaces| && k != st.flight.value.surface ==> r.surfaces[k] == st.surfaces[k]
  {
    var f := st.flight.value;
    var s := st.surfaces[f.surface];
    var used := if s.current.Some? then s.used[s.current.value := false] else s.used;
    State(st.surfaces[f.surface := SurfaceState(used, Some(f.page))], Dec32(st.pending), None)
  }

  /** One event, or None when it cannot happen now (the producer would still be waiting). */
  function Step(st: State, e: Event): (r: Option<State>)
    ensures r.Some? ==> SamePools(st, r.value)
    ensures e.FlipComplete? ==> (r.Some? <==> CanComplete(st))
    ensures e.SubmitFrame? ==> (r.Some? <==> CanSubmit(st, e.surface))
    ensures r.Some? ==> r.value.flight.Some? == e.SubmitFrame?
  {
    match e
    case SubmitFrame(id) => if CanSubmit(st, id) then Some(Submit(st, id)) else None
    case FlipComplete => if CanComplete(st) then Some(Complete(st)) else None
  }

  /** A sequence of events in order; None when some event is not enabled at its turn. */
  function Run(st: State, events: seq<Event>): (r: Option<State>)
    ensures r.Some? ==> SamePools(st, r.value)
    ensures events == [] ==> r == Some(st)
    decreases |events|
  {
    if events == [] then Some(st)
    else match Step(st, events[0])
      case None => None
      case Some(next) => Run(next, events[1..])
  }

  lemma UsedPagesUpdate(used: seq<bool>, p: nat, b: bool)
    requires p < |used|
    ensures UsedPages(used[p := b]) == if b then UsedPages(used) + {p} else UsedPages(used) - {p}
  {
  }

  /** Setup leaves every surface's pool free, nothing on screen and no flip pending. */
  lemma InitialInv(numpages: seq<nat>)
    ensures Inv(Initial(numpages))
  {
  }

  /**
   * A submission on a surface writes a page that was free and is not on
   * screen, reserves exactly that page, leaves exactly one flip pending, and
   * touches no other surface.
   */
  lemma SubmitStep(st: State, id: nat)
    requires Inv(st) && CanSubmit(st, id)
    ensures
      var r := Submit(st, id);
      var s := st.surfaces[id];
      var p := FirstFree(s.used).value;
      && Inv(r)
      && r.pending == 1
      && r.flight == Some(Flight(id, p))
      && !s.used[p]
      && s.current != Some(p)
      && r.surfaces[id].current == s.current
      && UsedPages(r.surfaces[id].used) == UsedPages(s.used) + {p}
      && SamePools(st, r)
      && forall k :: 0 <= k < |st.surfaces| && k != id ==> r.surfaces[k] == st.surfaces[k]
  {
    var s := st.surfaces[id];
    var p := FirstFree(s.used).value;
    UsedPagesUpdate(s.used, p, true);
    assert SurfaceInv(st, id);
    var r := Submit(st, id);
    forall k | 0 <= k < |r.surfaces| ensures SurfaceInv(r, k) {
      assert SurfaceInv(st, k);
    }
  }

  /**
   * A completion frees the page that was on screen, makes the flipped page
   * current while keeping it reserved, brings the pending count from 1 to 0,
   * and touches no other surface.
   */
  lemma CompleteStep(st: State)
    requires Inv(st) && st.flight.Some?
    ensures CanComplete(st)
    ensures
      var r := Complete(st);
      var f := st.flight.value;
      var before := st.surfaces[f.surface];
      var after := r.surfaces[f.surface];
      && Inv(r)
      && st.pending == 1 && r.pending == 0
      && r.flight == None
      && after.current == Some(f.page)
      && after.used[f.page]
      && (before.current.Some? ==> !after.used[before.current.value])
      && UsedPages(after.used) == {f.page}
      && SamePools(st, r)
      && forall k :: 0 <= k < |st.surfaces| && k != f.surface ==> r.surfaces[k] == st.surfaces[k]
  {
    var f := st.flight.value;
    var s := st.surfaces[f.surface];
    assert SurfaceInv(st, f.surface);
    if s.current.Some? {
      UsedPagesUpdate(s.used, s.current.value, false);
    }
    var r := Complete(st);
    assert f.page in UsedPages(r.surfaces[f.surface].used);
    forall k | 0 <= k < |r.surfaces| ensures SurfaceInv(r, k) {
      assert SurfaceInv(st, k);
    }
  }

  lemma StepPreservesInv(st: State, e: Event)
    requires Inv(st)
    ensures Step(st, e).Some? ==> Inv(Step(st, e).value)
    ensures Step(st, e).Some? ==> SamePools(st, Step(st, e).value)
  {
    match e
    case SubmitFrame(id) =>
      if CanSubmit(st, id) { SubmitStep(st, id); }
    case FlipComplete =>
      if CanComplete(st) { CompleteStep(st); }
  }

  /** Whatever order submissions and completions come in, the invariant holds throughout. */
  lemma {:induction false} RunPreservesInv(st: State, events: seq<Event>)
    requires Inv(st)
    ensures Run(st, events).Some? ==> Inv(Run(st, events).value)
    ensures Run(st, events).Some? ==> SamePools(st, Run(st, events).value)
    decreases |events|
  {
    if events != [] {
      StepPreservesInv(st, events[0]);
      match Step(st, events[0])
      case None =>
      case Some(next) => RunPreservesInv(next, events[1..]);
    }
  }

  /**
   * From setup on, under any order of events: at most one flip is pending,
   * and every surface's used pages are exactly its on-screen page and its
   * in-flight page.
   */
  lemma AnyRunFromSetup(numpages: seq<nat>, events: seq<Event>)
    ensures Run(Initial(numpages), events).Some? ==>
      var r := Run(Initial(numpages), events).value;
      && r.pending <= 1
      && |r.surfaces| == |numpages|
      && (forall id :: 0 <= id < |r.surfaces| ==> |r.surfaces[id].used| == numpages[id])
      && forall id :: 0 <= id < |r.surfaces| ==>
           UsedPages(r.surfaces[id].used) == OnScreen(r.surfaces[id]) + InFlight(r, id)
  {
    InitialInv(numpages);
    RunPreservesInv(Initial(numpages), events);
    if Run(Initial(numpages), events).Some? {
      var r := Run(Initial(numpages), events).value;
      forall id | 0 <= id < |r.surfaces|
        ensures UsedPages(r.surfaces[id].used) == OnScreen(r.surfaces[id]) + InFlight(r, id)
      {
        assert SurfaceInv(r, id);
      }
    }
  }

  /** With no flip pending, at most the on-screen page is used, so page 0 or page 1 is free. */
  lemma IdleLeavesFirstTwoNotBothUsed(st: State, id: nat)
    requires Inv(st) && id < |st.surfaces| && st.pending == 0
    requires |st.surfaces[id].used| >= 2
    ensures !st.surfaces[id].used[0] || !st.surfaces[id].used[1]
  {
    var s := st.surfaces[id];
    assert SurfaceInv(st, id);
    assert InFlight(st, id) == {};
    assert s.used[0] ==> 0 in UsedPages(s.used);
    assert s.used[1] ==> 1 in UsedPages(s.used);
  }

  /**
   * On a surface of two or more pages (the three-page main surface), the
   * free-page search never has to wait once the pending flip has completed.
   */
  lemma FreePageWhenIdle(st: State, id: nat)
    requires Inv(st) && id < |st.surfaces| && st.pending == 0
    requires |st.surfaces[id].used| >= 2
    ensures CanSubmit(st, id)
  {
    IdleLeavesFirstTwoNotBothUsed(st, id);
  }

  /**
   * Once the only page of a one-page surface (the blanking surface) is on
   * screen, no sequence of events ever changes that surface again, and a
   * second submission on it never gets past the free-page search.
   */
  lemma {:induction false} OnePageSurfaceStuck(st: State, id: nat, events: seq<Event>)
    requires Inv(st) && id < |st.surfaces|
    requires |st.surfaces[id].used| == 1 && st.surfaces[id].current.Some?
    ensures Run(st, events).Some? ==>
      var r := Run(st, events).value;
      id < |r.surfaces| && r.surfaces[id] == st.surfaces[id] && !CanSubmit(r, id)
    decreases |events|
  {
    var s := st.surfaces[id];
    assert SurfaceInv(st, id);
    assert 0 in UsedPages(s.used);
    assert !CanSubmit(st, id);
    assert st.flight.Some? ==> st.flight.value.surface != id;
    if events != [] {
      StepPreservesInv(st, events[0]);
      match events[0]
      case SubmitFrame(k) =>
        if CanSubmit(st, k) {
          SubmitStep(st, k);
          OnePageSurfaceStuck(Submit(st, k), id, events[1..]);
        }
      case FlipComplete =>
        if CanComplete(st) {
          CompleteStep(st);
          OnePageSurfaceStuck(Complete(st), id, events[1..]);
        }
    }
  }

  /** No page past the second is used on any surface. */
  ghost predicate FirstTwoOnly(st: State)
  {
    forall id, i :: 0 <= id < |st.surfaces| && 2 <= i < |st.surfaces[id].used| ==> !st.surfaces[id].used[i]
  }

  /** The page a submission picks is page 0 or page 1, since at most one page is on screen. */
  lemma SubmitPicksFirstTwo(st: State, id: nat)
    requires Inv(st) && CanSubmit(st, id)
    ensures FirstFree(st.surfaces[id].used).value < 2
  {
    if |st.surfaces[id].used| >= 2 {
      IdleLeavesFirstTwoNotBothUsed(st, id);
    }
  }

  /**
   * Because a submission waits for the previous flip to complete, the
   * rotation only ever hands out pages 0 and 1: a third page is allocated
   * and never used.
   */
  lemma {:induction false} OnlyTwoPagesRotate(st: State, events: seq<Event>)
    requires Inv(st) && FirstTwoOnly(st)
    ensures Run(st, events).Some? ==> FirstTwoOnly(Run(st, events).value)
    decreases |events|
  {
    if events != [] {
      StepPreservesInv(st, events[0]);
      match events[0]
      case SubmitFrame(k) =>
        if CanSubmit(st, k) {
          SubmitPicksFirstTwo(st, k);
          var r := Submit(st, k);
          assert FirstTwoOnly(r) by {
            forall id, i | 0 <= id < |r.surfaces| && 2 <= i < |r.surfaces[id].used|
              ensures !r.surfaces[id].used[i]
            {
              assert !st.surfaces[id].used[i];
            }
          }
          OnlyTwoPagesRotate(r, events[1..]);
        }
      case FlipComplete =>
        if CanComplete(st) {
          var r := Complete(st);
          assert FirstTwoOnly(r) by {
            forall id, i | 0 <= id < |r.surfaces| && 2 <= i < |r.surfaces[id].used|
              ensures !r.surfaces[id].used[i]
            {
              assert !st.surfaces[id].used[i];
            }
          }
          OnlyTwoPagesRotate(r, events[1..]);
        }
    }
  }

  /** From setup on, the third page of the main surface is never handed to the producer. */
  lemma ThirdPageNeverUsed(numpages: seq<nat>, events: seq<Event>)
    ensures Run(Initial(numpages), events).Some? ==>
      var r := Run(Initial(numpages), events).value;
      forall id :: 0 <= id < |r.surfaces| && |r.surfaces[id].used| > 2 ==> !r.surfaces[id].used[2]
  {
    InitialInv(numpages);
    var st := Initial(numpages);
    assert FirstTwoOnly(st) by {
      forall id, i | 0 <= id < |st.surfaces| && 2 <= i < |st.surfaces[id].used|
        ensures !st.surfaces[id].used[i]
      {
        assert st.surfaces[id] == FreshPool(numpages[id]);
      }
    }
    OnlyTwoPagesRotate(st, events);
  }

  /**
   * From setup with a pool of at least two pages on a surface, whenever no
   * flip is pending a submission on that surface gets past both waits.
   */
  lemma IdleSubmissionNeverWaits(numpages: seq<nat>, events: seq<Event>, id: nat)
    requires id < |numpages| && numpages[id] >= 2
    ensures Run(Initial(numpages), events).Some? && Run(Initial(numpages), events).value.pending == 0 ==>
      CanSubmit(Run(Initial(numpages), events).value, id)
  {
    AnyRunFromSetup(numpages, events);
    InitialInv(numpages);
    RunPreservesInv(Initial(numpages), events);
    if Run(Initial(numpages), events).Some? && Run(Initial(numpages), events).value.pending == 0 {
      FreePageWhenIdle(Run(Initial(numpages), events).value, id);
    }
  }
}
