/** `boni::auto_handle<deleter_type>`: a `std::unique_ptr<pointer, deleter_type>`
    with an added implicit conversion to `deleter_type::handle_type`.

    Everything but the conversion is inherited, so the lifecycle below is
    that of `std::unique_ptr` in C++17: the destructor and `reset` hand the
    stored pointer to the deleter only when it differs from `pointer()`, and
    a move leaves its source holding `pointer()`. */
module AutoHandles {
  import opened Deleters

  /** The `destroy_function` calls made when a container gives up the
      pointer it stores (destructor, `reset`, move assignment): none for
      `pointer()`, otherwise whatever one deleter call makes. */
  function ReleaseOf<P(==), H>(d: Deleter<P, H>, stored: P): (calls: seq<H>)
    ensures stored == d.nullPointer ==> calls == []
    ensures stored != d.nullPointer ==> calls == Calls(d, stored)
  {
    if stored != d.nullPointer then Calls(d, stored) else []
  }

  /** With the deleter test as coded, giving up a pointer never calls
      `destroy_function`: the container filters out `pointer()` and the
      deleter lets only `pointer()` through. */
  lemma AsWrittenReleaseIsEmpty<P, H>(d: Deleter<P, H>, stored: P)
    requires d.guard == ForwardIfNull
    ensures ReleaseOf(d, stored) == []
  {
  }

  /** With the test as its doc comment describes, giving up a non-null
      pointer calls `destroy_function` exactly once with its handle, and
      giving up `pointer()` calls nothing. */
  lemma CorrectedReleaseIsExact<P, H>(d: Deleter<P, H>, stored: P)
    requires d.guard == ForwardIfNotNull
    ensures ReleaseOf(d, stored) == if stored != d.nullPointer then [d.toHandle(stored)] else []
  {
  }

  class AutoHandle<P(==), H> {
    /** The pointer `get()` returns. */
    var stored: P
    /** The deleter type's constants. */
    const deleter: Deleter<P, H>
    /** Where the deleter's `destroy_function` records its calls. */
    const log: ReleaseLog<H>

    /** Construction from a pointer (`unique_ptr(pointer p)`); passing
        `pointer()` is default or `nullptr` construction. No release. */
    constructor (deleter: Deleter<P, H>, log: ReleaseLog<H>, p: P)
      ensures this.deleter == deleter && this.log == log
      ensures stored == p
    {
      this.deleter := deleter;
      this.log := log;
      stored := p;
    }

    /** Move construction: takes over what `other` stores and leaves it null. */
    constructor Move(other: AutoHandle<P, H>)
      modifies other
      ensures deleter == other.deleter && log == other.log
      ensures stored == old(other.stored)
      ensures other.stored == other.deleter.nullPointer
      ensures other.log.released == old(other.log.released)
    {
      deleter := other.deleter;
      log := other.log;
      stored := other.stored;
      new;
      other.stored := other.deleter.nullPointer;
    }

    /** `get()`: the pointer the container currently stores. */
    function Get(): (p: P)
      reads this
      ensures p == stored
    {
      stored
    }

    /** The implicit conversion `operator handle_type()`: `get()` converted
        to the handle type. Reading it changes neither the pointer nor the log. */
    function AsHandle(): (h: H)
      reads this
      ensures h == deleter.toHandle(Get())
    {
      deleter.toHandle(stored)
    }

    /** `explicit operator bool`: whether `get()` differs from `pointer()`.
        A container that tests false releases nothing when it gives its
        pointer up. */
    predicate Owns(): (b: bool)
      reads this
      ensures b <==> Get() != deleter.nullPointer
      ensures !b ==> ReleaseOf(deleter, Get()) == []
    {
      stored != deleter.nullPointer
    }

    /** `release()`: gives up ownership without calling the deleter. */
    method Release() returns (p: P)
      modifies this
      ensures p == old(stored)
      ensures stored == deleter.nullPointer && !Owns()
      ensures log.released == old(log.released)
    {
      p := stored;
      stored := deleter.nullPointer;
    }

    /** `reset(p)`: stores `p`, then hands the old pointer to the deleter if it
        was not `pointer()`. */
    method Reset(p: P)
      modifies this, log
      ensures stored == p
      ensures log.released == old(log.released) + ReleaseOf(deleter, old(stored))
    {
      var previous := stored;
      stored := p;
      if previous != deleter.nullPointer {
        Invoke(deleter, log, previous);
      }
    }

    /** Move assignment `this = std::move(other)`, that is
        `reset(other.release())`: `this` takes over what `other` stored and
        gives up what it held before; `other` is left null. Assigning a
        container to itself changes nothing. */
    method MoveFrom(other: AutoHandle<P, H>)
      requires other.deleter == deleter && other.log == log
      modifies this, other, log
      ensures other != this ==> stored == old(other.stored) && other.stored == deleter.nullPointer
      ensures other == this ==> stored == old(stored)
      ensures log.released == old(log.released) + (if other == this then [] else ReleaseOf(deleter, old(stored)))
    {
      var p := other.Release();
      Reset(p);
    }

    /** The destructor: hands the stored pointer to the deleter unless it is `pointer()`. */
    method Destroy()
      modifies log
      ensures log.released == old(log.released) + ReleaseOf(deleter, stored)
    {
      if stored != deleter.nullPointer {
        Invoke(deleter, log, stored);
      }
    }
  }

  /** Adopting a pointer and converting the container back yields the
      pointer's handle unchanged (the conversion the program uses to pass
      an `audio_device` to SDL calls). */
  method AdoptThenConvert<P(==), H>(deleter: Deleter<P, H>, log: ReleaseLog<H>, p: P) returns (h: H)
    ensures h == deleter.toHandle(p)
  {
    var container := new AutoHandle(deleter, log, p);
    h := container.AsHandle();
  }

  /** A `file` adopting a `FILE*` converts back to that same `FILE*`. */
  method FileRoundTrip(f: FilePointer, log: ReleaseLog<FilePointer>) returns (g: FilePointer)
    ensures g == f
  {
    var file := new AutoHandle(FileDeleter(), log, f);
    g := file.AsHandle();
  }
}
