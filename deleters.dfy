/** The deleters of boni.hpp: `nullable_deleter`, `unsafe_handle_deleter`
    and its alias `handle_deleter`, each a callable that forwards a handle
    to a fixed `destroy_function` behind a test against the null pointer.

    A deleter type fixes three things, kept here in a `Deleter` value:
    the `pointer` value `pointer()` it tests against, the conversion from
    `pointer` to the `handle_type` that `destroy_function` accepts, and the
    direction of the test. The calls of `destroy_function` are observed
    through a `ReleaseLog`. */
module Deleters {
  import opened Nullable

  /** The direction of the test in a deleter's `operator()`. */
  datatype Guard =
      /** `if (p == pointer())`: what boni.hpp:136 and boni.hpp:227 test. */
    | ForwardIfNull
      /** "only if the argument is not null": what their doc comments promise. */
    | ForwardIfNotNull

  /** A deleter type with `pointer` = P and `handle_type` = H. */
  datatype Deleter<!P, H> = Deleter(nullPointer: P, toHandle: P -> H, guard: Guard)

  /** Whether `operator()(p)` calls `destroy_function`. */
  predicate Forwards<P(==), H>(d: Deleter<P, H>, p: P)
  {
    match d.guard
    case ForwardIfNull => p == d.nullPointer
    case ForwardIfNotNull => p != d.nullPointer
  }

  /** The `destroy_function` calls one `operator()(p)` makes: at most one,
      with `p` converted to the handle type, and one exactly when the
      guard lets `p` through. */
  function Calls<P(==), H>(d: Deleter<P, H>, p: P): (calls: seq<H>)
    ensures |calls| <= 1
    ensures forall h :: h in calls ==> h == d.toHandle(p)
    ensures calls != [] <==> Forwards(d, p)
  {
    if Forwards(d, p) then [d.toHandle(p)] else []
  }

  /** `nullable_deleter<H, destroy_function>`: `pointer` is `nullable<H>`,
      `pointer()` is the empty nullable, and the handle passed on is the
      nullable converted back to H. */
  function NullableDeleter<H(==,!new)>(nullValue: H): (d: Deleter<Nullable<H>, H>)
    ensures d.nullPointer == FromNullptr(nullValue)
    ensures forall n :: d.toHandle(n) == ToHandle(n)
    ensures d.guard == ForwardIfNull
  {
    Deleter(Empty(nullValue), ToHandle, ForwardIfNull)
  }

  /** `unsafe_handle_deleter<H, R, destroy_function>`: `pointer` is H itself
      and `pointer()` is the value-initialised H, given here as `zero`.
      The R that `destroy_function` returns is discarded, so it does not
      appear in the model. */
  function UnsafeHandleDeleter<H(==,!new)>(zero: H): (d: Deleter<H, H>)
    ensures d.nullPointer == zero
    ensures forall h :: d.toHandle(h) == h
    ensures d.guard == ForwardIfNull
  {
    Deleter(zero, h => h, ForwardIfNull)
  }

  /** `handle_deleter<H, f>` is `unsafe_handle_deleter<H, void, f>`: the same
      deleter for a `destroy_function` that returns nothing. */
  function HandleDeleter<H(==,!new)>(zero: H): (d: Deleter<H, H>)
    ensures d.nullPointer == zero
    ensures forall h :: Calls(d, h) == Calls(UnsafeHandleDeleter(zero), h)
  {
    UnsafeHandleDeleter(zero)
  }

  /** The same deleter with the test turned the way its doc comment describes. */
  function Corrected<P, H>(d: Deleter<P, H>): (c: Deleter<P, H>)
    ensures c.nullPointer == d.nullPointer && c.toHandle == d.toHandle
    ensures c.guard == ForwardIfNotNull
  {
    d.(guard := ForwardIfNotNull)
  }

  /** `FILE*`, as an address in which 0 stands for `nullptr`. */
  type FilePointer = nat

  /** `file_deleter = unsafe_handle_deleter<FILE*, int, std::fclose>`. */
  function FileDeleter(): (d: Deleter<FilePointer, FilePointer>)
    ensures d.nullPointer == 0
    ensures forall f :: Calls(d, f) == (if f == 0 then [0] else [])
  {
    UnsafeHandleDeleter(0)
  }

  /** `SDL_AudioDeviceID`, an unsigned 32-bit integer. */
  newtype AudioDeviceId = x: int | 0 <= x < 0x1_0000_0000

  /** `audio_device_deleter = nullable_deleter<SDL_AudioDeviceID, SDL_CloseAudioDevice>`,
      with the default sentinel `SDL_AudioDeviceID{}`, that is 0. */
  function AudioDeviceDeleter(): (d: Deleter<Nullable<AudioDeviceId>, AudioDeviceId>)
    ensures d.nullPointer == FromNullptr(0)
    ensures forall n :: Calls(d, n) == (if IsSet(n, 0) then [] else [0])
  {
    NullableDeleter(0)
  }

  /** What a deleter's doc comment promises: `destroy_function` is called,
      with the handle, for every non-null pointer and for no null one. */
  ghost predicate ForwardsExactlyNonNull<P(!new), H>(d: Deleter<P, H>)
  {
    forall p :: Calls(d, p) == (if p != d.nullPointer then [d.toHandle(p)] else [])
  }

  /** As coded, `nullable_deleter` calls `destroy_function` exactly on the
      pointers that test false, and then always with `null_value` itself. */
  lemma NullableDeleterForwardsOnlyNull<H(!new)>(nullValue: H, n: Nullable<H>)
    ensures Calls(NullableDeleter(nullValue), n) == (if IsSet(n, nullValue) then [] else [nullValue])
  {
  }

  /** As coded, `unsafe_handle_deleter` calls `destroy_function` only on the
      value-initialised handle. */
  lemma UnsafeHandleDeleterForwardsOnlyNull<H(!new)>(zero: H, h: H)
    ensures Calls(UnsafeHandleDeleter(zero), h) == (if h == zero then [zero] else [])
  {
  }

  /** The doc comment does not describe the code: no deleter with the coded
      test forwards exactly the non-null pointers, whatever its types. */
  lemma DocCommentDoesNotHold<P(!new), H>(d: Deleter<P, H>)
    requires d.guard == ForwardIfNull
    ensures !ForwardsExactlyNonNull(d)
  {
    var p := d.nullPointer;
    assert Calls(d, p) == [d.toHandle(p)];
  }

  /** With the test turned round, every deleter keeps its doc comment's promise. */
  lemma CorrectedKeepsDocComment<P(!new), H>(d: Deleter<P, H>)
    ensures ForwardsExactlyNonNull(Corrected(d))
  {
    forall p ensures Calls(Corrected(d), p) == (if p != d.nullPointer then [d.toHandle(p)] else []) {
    }
  }

  /** The observable effect of a fixed `destroy_function` (`std::fclose`,
      `SDL_CloseAudioDevice`): the handles it has been called with, in order. */
  class ReleaseLog<H> {
    ghost var released: seq<H>

    constructor ()
      ensures released == []
    {
      released := [];
    }

    /** One call of `destroy_function(h)`. Whatever status it returns is
        discarded by every caller in this model. */
    method Destroy(h: H)
      modifies this
      ensures released == old(released) + [h]
    {
      released := released + [h];
    }
  }

  /** `operator()(pointer p)` of `nullable_deleter` and of `unsafe_handle_deleter`:
      at most one call of `destroy_function`, decided by the guard alone,
      and no other effect. */
  method Invoke<P(==), H>(d: Deleter<P, H>, log: ReleaseLog<H>, p: P)
    modifies log
    ensures log.released == old(log.released) + Calls(d, p)
  {
    if Forwards(d, p) {
      log.Destroy(d.toHandle(p));
    }
  }
}
