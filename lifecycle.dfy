/** Whole program runs over `auto_handle` containers that share one deleter
    type: which handles reach `destroy_function`, and how often.

    A run is a sequence of the lifecycle events the containers' methods
    perform (construction, move construction, move assignment, `reset`,
    destruction), each with the effect the `AutoHandle` method of the same
    name states, built on the same `ReleaseOf`. An event naming a container
    that is not alive cannot occur in a C++ program; here it changes nothing. */
module Lifecycle {
  import opened Nullable
  import opened Deleters
  import opened AutoHandles

  /** A container: alive and storing a pointer, or already destroyed. */
  datatype Slot<P> = Alive(stored: P) | Gone

  /** The containers created so far, in order of creation, and the handles
      `destroy_function` has been called with. */
  datatype World<P, H> = World(slots: seq<Slot<P>>, released: seq<H>)

  datatype Event<P> =
      /** A new container adopting `p`; `p` is `pointer()` for default construction. */
    | Construct(p: P)
      /** A new container move-constructed from container `src`. */
    | MoveConstruct(src: nat)
      /** `dst = std::move(src)`. */
    | MoveAssign(dst: nat, src: nat)
    | Reset(slot: nat, p: P)
    | Destroy(slot: nat)

  /** The world a program starts in. */
  function Start<P, H>(): (w: World<P, H>)
    ensures |w.slots| == 0 && |w.released| == 0
  {
    World([], [])
  }

  predicate IsAlive<P, H>(w: World<P, H>, i: nat)
  {
    i < |w.slots| && w.slots[i].Alive?
  }

  /** Whether every container the event names is alive. */
  predicate Enabled<P, H>(w: World<P, H>, e: Event<P>)
  {
    match e
    case Construct(_) => true
    case MoveConstruct(src) => IsAlive(w, src)
    case MoveAssign(dst, src) => IsAlive(w, dst) && IsAlive(w, src)
    case Reset(i, _) => IsAlive(w, i)
    case Destroy(i) => IsAlive(w, i)
  }

  /** The effect of one event. An event that names a container that is not
      alive changes nothing. Otherwise the log only grows, by at most one
      `destroy_function` call. At most one container is added, and a
      destroyed container stays destroyed. */
  function Step<P(==), H>(d: Deleter<P, H>, w: World<P, H>, e: Event<P>): (next: World<P, H>)
    ensures !Enabled(w, e) ==> next == w
    ensures w.released <= next.released && |next.released| <= |w.released| + 1
    ensures |w.slots| <= |next.slots| <= |w.slots| + 1
    ensures forall i :: 0 <= i < |w.slots| && w.slots[i] == Gone ==> next.slots[i] == Gone
  {
    if !Enabled(w, e) then w
    else match e
      case Construct(p) =>
        w.(slots := w.slots + [Alive(p)])
      case MoveConstruct(src) =>
        w.(slots := w.slots[src := Alive(d.nullPointer)] + [w.slots[src]])
      case MoveAssign(dst, src) =>
        if dst == src then w
        else
          var taken := w.slots[src].stored;
          var previous := w.slots[dst].stored;
          World(w.slots[src := Alive(d.nullPointer)][dst := Alive(taken)], w.released + ReleaseOf(d, previous))
      case Reset(i, p) =>
        World(w.slots[i := Alive(p)], w.released + ReleaseOf(d, w.slots[i].stored))
      case Destroy(i) =>
        World(w.slots[i := Gone], w.released + ReleaseOf(d, w.slots[i].stored))
  }

  function Run<P(==), H>(d: Deleter<P, H>, w: World<P, H>, events: seq<Event<P>>): (end: World<P, H>)
    decreases |events|
  {
    if events == [] then w else Run(d, Step(d, w, events[0]), events[1..])
  }

  /** The handle a container is responsible for releasing, if any. */
  function Owned<P(==), H>(d: Deleter<P, H>, s: Slot<P>): (m: multiset<H>)
  {
    if s.Alive? && s.stored != d.nullPointer then multiset{d.toHandle(s.stored)} else multiset{}
  }

  /** The handles owned by live containers. */
  function LiveHandles<P(==), H>(d: Deleter<P, H>, slots: seq<Slot<P>>): (m: multiset<H>)
    decreases |slots|
  {
    if slots == [] then multiset{}
    else LiveHandles(d, slots[..|slots| - 1]) + Owned(d, slots[|slots| - 1])
  }

  /** Every handle the run has taken in: released already or still owned. */
  function Accounted<P(==), H>(d: Deleter<P, H>, w: World<P, H>): (m: multiset<H>)
  {
    multiset(w.released) + LiveHandles(d, w.slots)
  }

  /** The handle an event hands over to a container from outside (from an
      acquisition such as `fopen` or `SDL_OpenAudioDevice`), if any. */
  function Acquired<P(==), H>(d: Deleter<P, H>, w: World<P, H>, e: Event<P>): (m: multiset<H>)
  {
    if !Enabled(w, e) then multiset{}
    else match e
      case Construct(p) => Owned(d, Alive(p))
      case Reset(_, p) => Owned(d, Alive(p))
      case _ => multiset{}
  }

  function AcquiredAlong<P(==), H>(d: Deleter<P, H>, w: World<P, H>, events: seq<Event<P>>): (m: multiset<H>)
    decreases |events|
  {
    if events == [] then multiset{}
    else Acquired(d, w, events[0]) + AcquiredAlong(d, Step(d, w, events[0]), events[1..])
  }

  /** Single ownership at acquisition: each handle handed over is one the run
      has not taken in before. */
  ghost predicate FreshAlong<P, H>(d: Deleter<P, H>, w: World<P, H>, events: seq<Event<P>>)
    decreases |events|
  {
    events == [] ||
    ((forall h :: h in Acquired(d, w, events[0]) ==> h !in Accounted(d, w)) &&
     FreshAlong(d, Step(d, w, events[0]), events[1..]))
  }

  /** No handle taken in twice. */
  ghost predicate Exclusive<P, H(!new)>(d: Deleter<P, H>, w: World<P, H>)
  {
    forall h :: Accounted(d, w)[h] <= 1
  }

  /** Every container has been destroyed. */
  ghost predicate AllGone<P>(slots: seq<Slot<P>>)
  {
    forall i :: 0 <= i < |slots| ==> slots[i] == Gone
  }

  lemma LiveHandlesAppend<P, H>(d: Deleter<P, H>, slots: seq<Slot<P>>, s: Slot<P>)
    ensures LiveHandles(d, slots + [s]) == LiveHandles(d, slots) + Owned(d, s)
  {
    assert (slots + [s])[..|slots|] == slots;
  }

  /** Replacing one container's state changes the live handles by exactly
      what the old and the new state own. */
  lemma {:induction false} LiveHandlesUpdate<P, H>(d: Deleter<P, H>, slots: seq<Slot<P>>, i: nat, s: Slot<P>)
    requires i < |slots|
    ensures LiveHandles(d, slots[i := s]) + Owned(d, slots[i]) == LiveHandles(d, slots) + Owned(d, s)
    decreases |slots|
  {
    var n := |slots| - 1;
    var updated := slots[i := s];
    LiveHandlesLast(d, slots);
    LiveHandlesLast(d, updated);
    if i == n {
      assert updated[..n] == slots[..n];
      SwapLast(LiveHandles(d, slots[..n]), Owned(d, s), Owned(d, slots[n]));
    } else {
      var prefix := slots[..n];
      assert updated[..n] == prefix[i := s];
      assert prefix[i] == slots[i];
      LiveHandlesUpdate(d, prefix, i, s);
      AddBoth(LiveHandles(d, prefix[i := s]), Owned(d, slots[i]), LiveHandles(d, prefix), Owned(d, s), Owned(d, slots[n]));
    }
  }

  lemma SwapLast<H>(c: multiset<H>, x: multiset<H>, y: multiset<H>)
    ensures (c + x) + y == (c + y) + x
  {
  }

  /** `LiveHandles` of a non-empty sequence of containers, unfolded once. */
  lemma LiveHandlesLast<P, H>(d: Deleter<P, H>, slots: seq<Slot<P>>)
    requires slots != []
    ensures LiveHandles(d, slots) == LiveHandles(d, slots[..|slots| - 1]) + Owned(d, slots[|slots| - 1])
  {
  }

  /** Adding the same multiset to both sides of an equation between sums. */
  lemma AddBoth<H>(a: multiset<H>, x: multiset<H>, b: multiset<H>, y: multiset<H>, c: multiset<H>)
    requires a + x == b + y
    ensures (a + c) + x == (b + c) + y
  {
    calc {
      (a + c) + x;
      (a + x) + c;
      (b + y) + c;
      (b + c) + y;
    }
  }

  lemma {:induction false} LiveHandlesOfGone<P, H>(d: Deleter<P, H>, slots: seq<Slot<P>>)
    requires AllGone(slots)
    ensures LiveHandles(d, slots) == multiset{}
    decreases |slots|
  {
    if slots != [] {
      LiveHandlesOfGone(d, slots[..|slots| - 1]);
    }
  }

  /** Taking a container's pointer and leaving it null, then storing that
      pointer in another live container, keeps the live handles. */
  lemma LiveHandlesTransfer<P, H>(d: Deleter<P, H>, slots: seq<Slot<P>>, dst: nat, src: nat)
    requires dst < |slots| && src < |slots| && dst != src && slots[src].Alive?
    ensures LiveHandles(d, slots[src := Alive(d.nullPointer)][dst := slots[src]]) + Owned(d, slots[dst])
         == LiveHandles(d, slots)
  {
    var s1 := slots[src := Alive(d.nullPointer)];
    LiveHandlesUpdate(d, slots, src, Alive(d.nullPointer));
    assert Owned(d, Alive(d.nullPointer)) == multiset{};
    assert s1[dst] == slots[dst];
    LiveHandlesUpdate(d, s1, dst, slots[src]);
  }

  /** With the corrected deleter, one event moves handles between "owned"
      and "released" without creating or losing any, apart from what it
      acquires. */
  lemma StepAccounts<P, H>(d: Deleter<P, H>, w: World<P, H>, e: Event<P>)
    requires d.guard == ForwardIfNotNull
    ensures Accounted(d, Step(d, w, e)) == Accounted(d, w) + Acquired(d, w, e)
  {
    if Enabled(w, e) {
      match e
      case Construct(p) =>
        LiveHandlesAppend(d, w.slots, Alive(p));
      case MoveConstruct(src) =>
        var s1 := w.slots[src := Alive(d.nullPointer)];
        LiveHandlesUpdate(d, w.slots, src, Alive(d.nullPointer));
        assert Owned(d, Alive(d.nullPointer)) == multiset{};
        LiveHandlesAppend(d, s1, w.slots[src]);
      case MoveAssign(dst, src) =>
        if dst != src {
          MoveAssignAccounts(d, w, dst, src);
        }
      case Reset(i, p) =>
        ReplaceAccounts(d, w, i, Alive(p));
      case Destroy(i) =>
        ReplaceAccounts(d, w, i, Gone);
    }
  }

  lemma MoveAssignAccounts<P, H>(d: Deleter<P, H>, w: World<P, H>, dst: nat, src: nat)
    requires d.guard == ForwardIfNotNull
    requires IsAlive(w, dst) && IsAlive(w, src) && dst != src
    ensures Accounted(d, Step(d, w, MoveAssign(dst, src))) == Accounted(d, w)
  {
    var previous := w.slots[dst].stored;
    var next := Step(d, w, MoveAssign(dst, src));
    assert next.slots == w.slots[src := Alive(d.nullPointer)][dst := w.slots[src]];
    assert next.released == w.released + ReleaseOf(d, previous);
    LiveHandlesTransfer(d, w.slots, dst, src);
    CorrectedReleaseIsExact(d, previous);
    assert multiset(ReleaseOf(d, previous)) == Owned(d, w.slots[dst]);
  }

  /** `reset` and destruction: the container's old pointer is released and
      its new state owns what it is given. */
  lemma ReplaceAccounts<P, H>(d: Deleter<P, H>, w: World<P, H>, i: nat, s: Slot<P>)
    requires d.guard == ForwardIfNotNull
    requires IsAlive(w, i)
    ensures Accounted(d, World(w.slots[i := s], w.released + ReleaseOf(d, w.slots[i].stored)))
         == Accounted(d, w) + Owned(d, s)
  {
    var released := ReleaseOf(d, w.slots[i].stored);
    var before, after := LiveHandles(d, w.slots), LiveHandles(d, w.slots[i := s]);
    LiveHandlesUpdate(d, w.slots, i, s);
    assert after + Owned(d, w.slots[i]) == before + Owned(d, s);
    CorrectedReleaseIsExact(d, w.slots[i].stored);
    assert multiset(released) == Owned(d, w.slots[i]);
    calc {
      Accounted(d, World(w.slots[i := s], w.released + released));
      multiset(w.released + released) + after;
      (multiset(w.released) + multiset(released)) + after;
      multiset(w.released) + (after + Owned(d, w.slots[i]));
      multiset(w.released) + (before + Owned(d, s));
      Accounted(d, w) + Owned(d, s);
    }
  }

  /** With the corrected deleter, what a run has released or still owns is
      exactly what it started with plus what it acquired. */
  lemma {:induction false} RunAccounts<P, H>(d: Deleter<P, H>, w: World<P, H>, events: seq<Event<P>>)
    requires d.guard == ForwardIfNotNull
    ensures Accounted(d, Run(d, w, events)) == Accounted(d, w) + AcquiredAlong(d, w, events)
    decreases |events|
  {
    if events != [] {
      StepAccounts(d, w, events[0]);
      RunAccounts(d, Step(d, w, events[0]), events[1..]);
    }
  }

  /** With the corrected deleter and fresh acquisitions, no handle is ever
      owned or released twice, across any moves and resets. */
  lemma {:induction false} RunStaysExclusive<P, H(!new)>(d: Deleter<P, H>, w: World<P, H>, events: seq<Event<P>>)
    requires d.guard == ForwardIfNotNull
    requires Exclusive(d, w) && FreshAlong(d, w, events)
    ensures Exclusive(d, Run(d, w, events))
    decreases |events|
  {
    if events != [] {
      var e := events[0];
      StepAccounts(d, w, e);
      var next := Step(d, w, e);
      forall h ensures Accounted(d, next)[h] <= 1 {
        if h in Acquired(d, w, e) {
          assert Acquired(d, w, e)[h] <= 1;
        }
      }
      RunStaysExclusive(d, next, events[1..]);
    }
  }

  /** No handle is owned by two live containers. */
  ghost predicate LiveExclusive<P, H(!new)>(d: Deleter<P, H>, slots: seq<Slot<P>>)
  {
    forall h :: LiveHandles(d, slots)[h] <= 1
  }

  /** Each handle handed over during the run is not owned by a live
      container at that moment. Handles already released may come back. */
  ghost predicate FreshLiveAlong<P, H>(d: Deleter<P, H>, w: World<P, H>, events: seq<Event<P>>)
    decreases |events|
  {
    events == [] ||
    ((forall h :: h in Acquired(d, w, events[0]) ==> h !in LiveHandles(d, w.slots)) &&
     FreshLiveAlong(d, Step(d, w, events[0]), events[1..]))
  }

  /** Whatever the deleter's test, one event leaves live only handles that
      were live before or that it acquires: moves hand a handle on and leave
      the source null, and `reset` and destruction drop the old one. */
  lemma StepLive<P, H>(d: Deleter<P, H>, w: World<P, H>, e: Event<P>)
    ensures LiveHandles(d, Step(d, w, e).slots) <= LiveHandles(d, w.slots) + Acquired(d, w, e)
  {
    if Enabled(w, e) {
      match e
      case Construct(p) =>
        LiveHandlesAppend(d, w.slots, Alive(p));
      case MoveConstruct(src) =>
        var s1 := w.slots[src := Alive(d.nullPointer)];
        LiveHandlesUpdate(d, w.slots, src, Alive(d.nullPointer));
        assert Owned(d, Alive(d.nullPointer)) == multiset{};
        LiveHandlesAppend(d, s1, w.slots[src]);
      case MoveAssign(dst, src) =>
        if dst != src {
          LiveHandlesTransfer(d, w.slots, dst, src);
        }
      case Reset(i, p) =>
        LiveHandlesUpdate(d, w.slots, i, Alive(p));
      case Destroy(i) =>
        LiveHandlesUpdate(d, w.slots, i, Gone);
    }
  }

  /** Single ownership among live containers, for any deleter test,
      including the one as coded: if each acquired handle is not live at the
      time, no run ever lets two live containers own the same handle. */
  lemma {:induction false} RunKeepsLiveExclusive<P, H(!new)>(d: Deleter<P, H>, w: World<P, H>, events: seq<Event<P>>)
    requires LiveExclusive(d, w.slots) && FreshLiveAlong(d, w, events)
    ensures LiveExclusive(d, Run(d, w, events).slots)
    decreases |events|
  {
    if events != [] {
      var e := events[0];
      var next := Step(d, w, e);
      StepLive(d, w, e);
      forall h ensures LiveHandles(d, next.slots)[h] <= 1 {
        if h in Acquired(d, w, e) {
          assert Acquired(d, w, e)[h] <= 1;
        }
      }
      RunKeepsLiveExclusive(d, next, events[1..]);
    }
  }

  /** A live container's handle is among the live handles. */
  lemma {:induction false} OwnedWithin<P, H>(d: Deleter<P, H>, slots: seq<Slot<P>>, i: nat)
    requires i < |slots|
    ensures Owned(d, slots[i]) <= LiveHandles(d, slots)
    decreases |slots|
  {
    var n := |slots| - 1;
    LiveHandlesLast(d, slots);
    if i < n {
      OwnedWithin(d, slots[..n], i);
    }
  }

  /** Two distinct containers' handles are both among the live handles. */
  lemma {:induction false} OwnedPairWithin<P, H>(d: Deleter<P, H>, slots: seq<Slot<P>>, i: nat, j: nat)
    requires i < j < |slots|
    ensures Owned(d, slots[i]) + Owned(d, slots[j]) <= LiveHandles(d, slots)
    decreases |slots|
  {
    var n := |slots| - 1;
    LiveHandlesLast(d, slots);
    if j == n {
      OwnedWithin(d, slots[..n], i);
    } else {
      OwnedPairWithin(d, slots[..n], i, j);
    }
  }

  /** Read per container: when no handle is owned twice, no two live
      containers hold non-null pointers with the same handle. */
  lemma LiveExclusiveDistinct<P, H(!new)>(d: Deleter<P, H>, slots: seq<Slot<P>>)
    requires LiveExclusive(d, slots)
    ensures forall i, j :: 0 <= i < j < |slots| && slots[i].Alive? && slots[j].Alive? &&
              slots[i].stored != d.nullPointer && slots[j].stored != d.nullPointer
              ==> d.toHandle(slots[i].stored) != d.toHandle(slots[j].stored)
  {
    forall i, j | 0 <= i < j < |slots| && slots[i].Alive? && slots[j].Alive? &&
                  slots[i].stored != d.nullPointer && slots[j].stored != d.nullPointer
      ensures d.toHandle(slots[i].stored) != d.toHandle(slots[j].stored)
    {
      OwnedPairWithin(d, slots, i, j);
      var h := d.toHandle(slots[i].stored);
      assert Owned(d, slots[i])[h] == 1;
      assert (Owned(d, slots[i]) + Owned(d, slots[j]))[h] <= LiveHandles(d, slots)[h] <= 1;
      assert Owned(d, slots[j])[h] == 0;
    }
  }

  /** Whatever the deleter's test: in a run whose acquisitions never hand
      over a handle a live container already owns, no two live containers
      ever hold non-null pointers with the same handle. */
  lemma LiveHandlesStayDistinct<P, H(!new)>(d: Deleter<P, H>, events: seq<Event<P>>)
    requires FreshLiveAlong(d, Start(), events)
    ensures var slots := Run(d, Start(), events).slots;
      forall i, j :: 0 <= i < j < |slots| && slots[i].Alive? && slots[j].Alive? &&
        slots[i].stored != d.nullPointer && slots[j].stored != d.nullPointer
        ==> d.toHandle(slots[i].stored) != d.toHandle(slots[j].stored)
  {
    var w: World<P, H> := Start();
    assert LiveHandles(d, w.slots) == multiset{};
    RunKeepsLiveExclusive(d, w, events);
    LiveExclusiveDistinct(d, Run(d, w, events).slots);
  }

  /** With the corrected deleter, a program run whose containers have all
      been destroyed has called `destroy_function` with exactly the non-null
      handles it acquired, each as often as it was acquired: nothing leaks
      and nothing is released that was not acquired. This is what the
      comments at boni.hpp:198 and boni.hpp:403 ("is automatically called")
      and sdl2.hpp:107 ("Closes the managed device when going out of scope")
      describe. No freshness of the acquired handles is needed. */
  lemma ReleasedIsAcquired<P, H>(d: Deleter<P, H>, events: seq<Event<P>>)
    requires d.guard == ForwardIfNotNull
    requires AllGone(Run(d, Start(), events).slots)
    ensures multiset(Run(d, Start(), events).released) == AcquiredAlong(d, Start(), events)
  {
    var w: World<P, H> := Start();
    var end := Run(d, w, events);
    assert Accounted(d, w) == multiset{};
    RunAccounts(d, w, events);
    LiveHandlesOfGone(d, end.slots);
    assert Accounted(d, end) == multiset(end.released);
  }

  /** The same, when no acquisition in the run hands over a handle the run
      already holds or has released: then every acquired non-null handle is
      released exactly once. The freshness premise rules out `fopen` or
      `SDL_OpenAudioDevice` returning, within one run, a value that an
      earlier, already closed handle had; the C libraries may reuse values
      that way, and then the count of that value is the number of times it
      was acquired, as `ReleasedIsAcquired` states. */
  lemma ReleasedExactlyOnce<P, H(!new)>(d: Deleter<P, H>, events: seq<Event<P>>)
    requires d.guard == ForwardIfNotNull
    requires FreshAlong(d, Start(), events)
    requires AllGone(Run(d, Start(), events).slots)
    ensures multiset(Run(d, Start(), events).released) == AcquiredAlong(d, Start(), events)
    ensures forall h :: multiset(Run(d, Start(), events).released)[h] <= 1
  {
    var w: World<P, H> := Start();
    var end := Run(d, w, events);
    ReleasedIsAcquired(d, events);
    assert Accounted(d, w) == multiset{};
    LiveHandlesOfGone(d, end.slots);
    assert Accounted(d, end) == multiset(end.released);
    RunStaysExclusive(d, w, events);
  }

  /** The deleters as coded: no run of any length ever calls `destroy_function`. */
  lemma {:induction false} AsWrittenReleasesNothing<P, H>(d: Deleter<P, H>, w: World<P, H>, events: seq<Event<P>>)
    requires d.guard == ForwardIfNull
    ensures Run(d, w, events).released == w.released
    decreases |events|
  {
    if events != [] {
      var e := events[0];
      if Enabled(w, e) {
        match e
        case Construct(_) =>
        case MoveConstruct(_) =>
        case MoveAssign(dst, _) =>
          AsWrittenReleaseIsEmpty(d, w.slots[dst].stored);
        case Reset(i, _) =>
          AsWrittenReleaseIsEmpty(d, w.slots[i].stored);
        case Destroy(i) =>
          AsWrittenReleaseIsEmpty(d, w.slots[i].stored);
      }
      AsWrittenReleasesNothing(d, Step(d, w, e), events[1..]);
    }
  }

  /** One event of a run: how `Run` unfolds on a non-empty run. */
  lemma RunFirst<P, H>(d: Deleter<P, H>, w: World<P, H>, e: Event<P>, rest: seq<Event<P>>)
    ensures Run(d, w, [e] + rest) == Run(d, Step(d, w, e), rest)
  {
    assert ([e] + rest)[1..] == rest;
  }

  /** What the program does with its audio device: a default-constructed
      `audio_device`, a temporary adopting the id `SDL_OpenAudioDevice`
      returned, move assignment from the temporary, destruction of the
      temporary, then of `audio_device` at the end of the program. */
  function AudioDeviceRun(id: AudioDeviceId): (events: seq<Event<Nullable<AudioDeviceId>>>)
    ensures |events| == 5 && events[1] == Construct(FromHandle(id))
  {
    [Construct(FromNullptr(0)), Construct(FromHandle(id)), MoveAssign(0, 1), Destroy(1), Destroy(0)]
  }

  /** For any deleter whose `pointer()` is the empty nullable, the program's
      audio device sequence releases exactly what giving up the adopted id
      releases: the default-constructed container and the moved-from
      temporary hold `pointer()` when they give it up. */
  lemma AudioDeviceRunReleases(d: Deleter<Nullable<AudioDeviceId>, AudioDeviceId>, id: AudioDeviceId)
    requires d.nullPointer == FromNullptr(0)
    ensures Run(d, Start(), AudioDeviceRun(id)).released == ReleaseOf(d, FromHandle(id))
  {
    var events := AudioDeviceRun(id);
    var w0: World<Nullable<AudioDeviceId>, AudioDeviceId> := Start();
    var w1 := Step(d, w0, events[0]);
    var w2 := Step(d, w1, events[1]);
    var w3 := Step(d, w2, events[2]);
    var w4 := Step(d, w3, events[3]);
    var w5 := Step(d, w4, events[4]);
    assert w1.slots == [Alive(FromNullptr(0))] && w1.released == [];
    assert w2.slots == [Alive(FromNullptr(0)), Alive(FromHandle(id))] && w2.released == [];
    assert w3.slots == [Alive(FromHandle(id)), Alive(FromNullptr(0))] && w3.released == [];
    assert w4.slots == [Alive(FromHandle(id)), Gone] && w4.released == [];
    assert w5.released == ReleaseOf(d, FromHandle(id));
    RunFirst(d, w0, events[0], events[1..]);
    RunFirst(d, w1, events[1], events[2..]);
    RunFirst(d, w2, events[2], events[3..]);
    RunFirst(d, w3, events[3], events[4..]);
    RunFirst(d, w4, events[4], []);
  }

  /** As coded, the device is never closed; with the corrected deleter it is
      closed exactly once, and a failed open (id 0) closes nothing. */
  lemma AudioDeviceClosed(id: AudioDeviceId)
    ensures Run(AudioDeviceDeleter(), Start(), AudioDeviceRun(id)).released == []
    ensures Run(Corrected(AudioDeviceDeleter()), Start(), AudioDeviceRun(id)).released
         == if id != 0 then [id] else []
  {
    AudioDeviceRunReleases(AudioDeviceDeleter(), id);
    AsWrittenReleaseIsEmpty(AudioDeviceDeleter(), FromHandle(id));
    AudioDeviceRunReleases(Corrected(AudioDeviceDeleter()), id);
    CorrectedReleaseIsExact(Corrected(AudioDeviceDeleter()), FromHandle(id));
  }

  /** The sequence of `AudioDeviceRun` performed on `AutoHandle` objects, as
      main.cpp:88-100 performs it: default construction, a temporary
      adopting the id, move assignment from the temporary, destruction of
      the temporary and then of `audio_device`. The log it leaves is the one
      the `Run` of `AudioDeviceRun` predicts. */
  method AudioDeviceProgram(d: Deleter<Nullable<AudioDeviceId>, AudioDeviceId>, log: ReleaseLog<AudioDeviceId>, id: AudioDeviceId)
    requires d.nullPointer == FromNullptr(0)
    modifies log
    ensures log.released == old(log.released) + Run(d, Start(), AudioDeviceRun(id)).released
    ensures d.guard == ForwardIfNull ==> log.released == old(log.released)
    ensures d.guard == ForwardIfNotNull ==>
      log.released == old(log.released) + (if id != 0 then [d.toHandle(FromHandle(id))] else [])
  {
    var audio := new AutoHandle(d, log, FromNullptr(0));
    var temp := new AutoHandle(d, log, FromHandle(id));
    audio.MoveFrom(temp);
    temp.Destroy();
    audio.Destroy();
    AudioDeviceRunReleases(d, id);
  }

  /** A `file` adopting a `FILE*` and going out of scope: as coded `fclose`
      is never called, even for a successfully opened file; corrected, it
      is called once with that file, and never for `nullptr`. */
  lemma FileClosed(f: FilePointer)
    ensures Run(FileDeleter(), Start(), [Construct(f), Destroy(0)]).released == []
    ensures Run(Corrected(FileDeleter()), Start(), [Construct(f), Destroy(0)]).released
         == if f != 0 then [f] else []
  {
    var events: seq<Event<FilePointer>> := [Construct(f), Destroy(0)];
    AsWrittenReleasesNothing(FileDeleter(), Start(), events);
    var d := Corrected(FileDeleter());
    var w0: World<FilePointer, FilePointer> := Start();
    var w1 := Step(d, w0, events[0]);
    assert w1.slots == [Alive(f)] && w1.released == [];
    RunFirst(d, w0, events[0], [events[1]]);
    RunFirst(d, w1, events[1], []);
  }

  /** A `file` adopting `f`, move-constructed into a second one, after
      which both go out of scope, the moved-from one first. */
  function FileMoveRun(f: FilePointer): (events: seq<Event<FilePointer>>)
    ensures |events| == 4 && events[0] == Construct(f)
  {
    [Construct(f), MoveConstruct(0), Destroy(0), Destroy(1)]
  }

  /** For any deleter whose `pointer()` is `nullptr`, that sequence releases
      exactly what giving up `f` once releases: the moved-from container
      holds `nullptr` when it is destroyed. */
  lemma FileMoveRunReleases(d: Deleter<FilePointer, FilePointer>, f: FilePointer)
    requires d.nullPointer == 0
    ensures Run(d, Start(), FileMoveRun(f)).released == ReleaseOf(d, f)
  {
    var events := FileMoveRun(f);
    var w0: World<FilePointer, FilePointer> := Start();
    var w1 := Step(d, w0, events[0]);
    var w2 := Step(d, w1, events[1]);
    var w3 := Step(d, w2, events[2]);
    var w4 := Step(d, w3, events[3]);
    assert w1.slots == [Alive(f)] && w1.released == [];
    assert w2.slots == [Alive(0), Alive(f)] && w2.released == [];
    assert w3.slots == [Gone, Alive(f)] && w3.released == [];
    assert w4.released == ReleaseOf(d, f);
    RunFirst(d, w0, events[0], events[1..]);
    RunFirst(d, w1, events[1], events[2..]);
    RunFirst(d, w2, events[2], events[3..]);
    RunFirst(d, w3, events[3], []);
  }

  /** As coded nothing is closed; corrected, the file is closed exactly once,
      and a `nullptr` is never passed to `fclose`. */
  lemma FileMovedThenClosed(f: FilePointer)
    ensures Run(FileDeleter(), Start(), FileMoveRun(f)).released == []
    ensures Run(Corrected(FileDeleter()), Start(), FileMoveRun(f)).released
         == if f != 0 then [f] else []
  {
    FileMoveRunReleases(FileDeleter(), f);
    AsWrittenReleaseIsEmpty(FileDeleter(), f);
    FileMoveRunReleases(Corrected(FileDeleter()), f);
    CorrectedReleaseIsExact(Corrected(FileDeleter()), f);
  }

  /** The sequence of `FileMoveRun` performed on `AutoHandle` objects. The log
      it leaves is the one the `Run` of `FileMoveRun` predicts. */
  method FileMoveProgram(d: Deleter<FilePointer, FilePointer>, log: ReleaseLog<FilePointer>, f: FilePointer)
    requires d.nullPointer == 0
    modifies log
    ensures log.released == old(log.released) + Run(d, Start(), FileMoveRun(f)).released
    ensures d.guard == ForwardIfNull ==> log.released == old(log.released)
    ensures d.guard == ForwardIfNotNull ==>
      log.released == old(log.released) + (if f != 0 then [d.toHandle(f)] else [])
  {
    var first := new AutoHandle(d, log, f);
    var second := new AutoHandle.Move(first);
    first.Destroy();
    second.Destroy();
    FileMoveRunReleases(d, f);
  }
}
