# boni ownership wrappers, modelled in Dafny

This project models `boni.hpp`, the resource-ownership layer of a small text-to-speech example program. That layer adapts C-style handles (`FILE*`, an SDL audio device id) to `std::unique_ptr`. It has three parts:

- **`nullable<handle_type, null_value>`** lets a handle with no natural null behave as a nullable pointer. Module `Nullable`, in `nullable.dfy`, models it as a datatype with pure functions.
- **The deleters** `nullable_deleter`, `unsafe_handle_deleter` and the alias `handle_deleter` forward a handle to a fixed `destroy_function`. Module `Deleters`, in `deleters.dfy`, models them.
  - A `Deleter` value holds what the deleter type fixes: `pointer()`, the conversion from `pointer` to `handle_type`, and which way the test in `operator()` points.
  - `destroy_function` is an opaque effect recorded in the ghost log of a `ReleaseLog` object.
  - `Invoke` is `operator()`.
  - The two instantiations the program uses are included: `file_deleter` (`fclose`) and `audio_device_deleter` (`SDL_CloseAudioDevice`, sentinel 0).
- **`auto_handle<deleter>`** is a `std::unique_ptr` with an implicit conversion to the handle type. Module `AutoHandles`, in `auto_handle.dfy`, models it as a class with a mutable `stored` field.
  - The lifecycle it inherits is the C++17 one, per ISO/IEC 14882:2017, [unique.ptr.single]:
    - the constructor adopts a pointer;
    - move construction and move assignment leave the source holding `pointer()`;
    - `release` gives up ownership without deleting;
    - `reset` and the destructor hand the old pointer to the deleter only when it differs from `pointer()`.
  - `ReleaseOf` gives the `destroy_function` calls made when a container gives up a pointer.

Module `Lifecycle`, in `lifecycle.dfy`, models whole program runs over many containers. A run is a sequence of construction, move, `reset` and destruction events. Each event has the effect that an `AutoHandle` member states, and both are built on `ReleaseOf`. `Construct` corresponds to the constructor, `MoveConstruct` to `Move`, `MoveAssign` to `MoveFrom`, `Reset` to `Reset` and `Destroy` to `Destroy`. This agreement is proved only for the program's two sequences: `AudioDeviceProgram` and `FileMoveProgram` perform them on `AutoHandle` objects and prove that the log they leave is the one `Run` predicts. Over these runs the module proves what the comments at boni.hpp:198, boni.hpp:403 and sdl2.hpp:107 say: a managed handle is released automatically when its container goes out of scope. Its lemmas compare the deleter test as coded with the test its doc comments describe (see Findings).

`FILE*` is an address (`nat`) with 0 as `nullptr`. `SDL_AudioDeviceID` is an unsigned 32-bit newtype.

## Model

| member | source | states |
|---|---|---|
| Nullable.Empty | boni.hpp:45-50 | default construction stores `null_value` |
| Nullable.FromNullptr | boni.hpp:52-56 | construction from `nullptr` stores `null_value` and tests false |
| Nullable.FromHandle | boni.hpp:58-63 | construction from a raw handle stores it verbatim |
| Nullable.ToHandle | boni.hpp:73 | `operator handle_type` returns the stored handle, from which the nullable is rebuilt unchanged |
| Nullable.IsSet | boni.hpp:70 | `explicit operator bool` is true exactly when the value differs from the default-constructed one |
| Nullable.Equal | boni.hpp:80-83 | `operator==` holds exactly when the two nullables are the same value |
| Nullable.NotEqual | boni.hpp:89-91 | `operator!=` holds exactly when the two nullables differ |
| Nullable.RoundTrip | boni.hpp:58-73 | raw handle → nullable → raw handle is the identity, and so is the other order |
| Nullable.EmptyTestsFalse | boni.hpp:45-70 | default and `nullptr` construction agree, and the result converts to `false` |
| Nullable.IsSetIffNotNull | boni.hpp:65-70 | `bool(n)` holds iff `n != nullptr`, i.e. iff n is not the empty value (both directions) |
| Nullable.SentinelCollision | boni.hpp:63-70 | wrapping the raw value `null_value` gives exactly the empty value, which tests false |
| Nullable.NonSentinelTestsTrue | boni.hpp:63-70 | wrapping any other raw value tests true |
| Nullable.EqualityLaws | boni.hpp:75-91 | `==` compares stored values, is reflexive, symmetric and transitive, and coincides with value equality; `!=` is its negation |
| Deleters.Calls | boni.hpp:130-139 | one `operator()` calls `destroy_function` at most once, only with its own argument converted to the handle type, and exactly when the guard lets the argument through |
| Deleters.NullableDeleter | boni.hpp:112-128 | `nullable_deleter` tests against the empty nullable and passes the stored value on, with the test as coded |
| Deleters.UnsafeHandleDeleter | boni.hpp:208-219 | `unsafe_handle_deleter` tests against `H{}` and passes the handle on unchanged, with the test as coded |
| Deleters.HandleDeleter | boni.hpp:319-321 | `handle_deleter` makes the same calls as `unsafe_handle_deleter` on every handle |
| Deleters.Corrected | boni.hpp:130-134 | the same deleter with the test the doc comment describes |
| Deleters.FileDeleter | boni.hpp:434-438 | `file_deleter` would call `fclose` only for `nullptr`, and then with `nullptr` |
| Deleters.AudioDeviceDeleter | sdl2.hpp:97-103 | `audio_device_deleter` would call `SDL_CloseAudioDevice` only for an empty id, and then with 0 |
| Deleters.NullableDeleterForwardsOnlyNull | boni.hpp:135-139 | as coded, `nullable_deleter` forwards exactly the values that test false, always as `null_value` |
| Deleters.UnsafeHandleDeleterForwardsOnlyNull | boni.hpp:226-230 | as coded, `unsafe_handle_deleter` forwards only the value-initialised handle |
| Deleters.DocCommentDoesNotHold | boni.hpp:130-139 | no deleter with the coded test forwards exactly the non-null pointers |
| Deleters.CorrectedKeepsDocComment | boni.hpp:221-225 | the corrected deleter forwards exactly the non-null pointers, with their handle |
| Deleters.ReleaseLog.Destroy | boni.hpp:155-159 | one `destroy_function(h)` call appends h to the log; its result is not used |
| Deleters.Invoke | boni.hpp:226-230 | `operator()` appends exactly `Calls(d, p)` to the log and has no other effect |
| AutoHandles.ReleaseOf | boni.hpp:409-415 | giving up `pointer()` calls nothing; giving up any other pointer calls what one deleter call makes |
| AutoHandles.AsWrittenReleaseIsEmpty | boni.hpp:398-405 | with the coded deleters, giving up any pointer, null or not, never calls `destroy_function` |
| AutoHandles.CorrectedReleaseIsExact | boni.hpp:337-341 | with the corrected deleter, giving up a non-null pointer calls `destroy_function` once with its handle |
| AutoHandles.AutoHandle.constructor | boni.hpp:413-415 | construction adopts the pointer, with no release |
| AutoHandles.AutoHandle.Move | boni.hpp:413-415 | move construction takes the source's pointer and leaves the source null, with no release |
| AutoHandles.AutoHandle.Get | boni.hpp:431 | `get()` returns the pointer the container currently stores, and only reads |
| AutoHandles.AutoHandle.Owns | boni.hpp:413-415 | the inherited `operator bool` is `get() != pointer()`, and a container that tests false releases nothing when it gives its pointer up |
| AutoHandles.AutoHandle.AsHandle | boni.hpp:420-431 | the implicit conversion is `get()` converted to the handle type, and reads only |
| AutoHandles.AutoHandle.Release | boni.hpp:413-415 | `release()` returns the stored pointer, leaves null and calls nothing |
| AutoHandles.AutoHandle.Reset | boni.hpp:413-415 | `reset(p)` stores p and gives up the old pointer through `ReleaseOf` |
| AutoHandles.AutoHandle.MoveFrom | main.cpp:98-100 | move assignment takes the source's pointer, leaves the source null and gives up the old pointer; self-assignment changes nothing |
| AutoHandles.AutoHandle.Destroy | boni.hpp:403-404 | the destructor gives up the stored pointer through `ReleaseOf` |
| AutoHandles.AdoptThenConvert | boni.hpp:420-431 | adopting p and converting back yields p's handle unchanged |
| AutoHandles.FileRoundTrip | boni.hpp:440-444 | a `file` adopting a `FILE*` converts back to that same `FILE*` |
| Lifecycle.Step | boni.hpp:413-415 | one lifecycle event: a no-op if it names a container that is not alive; otherwise the log only grows, by at most one call, at most one container is added, and a destroyed container stays destroyed |
| Lifecycle.StepAccounts | boni.hpp:337-341 | with the corrected deleter, one event neither creates nor loses a handle: released plus owned grows only by what it acquires |
| Lifecycle.RunAccounts | boni.hpp:337-341 | the same over a whole run |
| Lifecycle.RunStaysExclusive | boni.hpp:337-341 | with the corrected deleter and fresh acquisitions, no handle is ever owned or released twice, across moves and resets |
| Lifecycle.StepLive | boni.hpp:413-415 | for any deleter test, one event leaves live only handles that were live before or that it acquires |
| Lifecycle.RunKeepsLiveExclusive | boni.hpp:413-415 | for any deleter test, including the one as coded, a run whose acquisitions hand over no handle that is already live never lets two live containers own the same handle |
| Lifecycle.LiveExclusiveDistinct | boni.hpp:413-415 | when no handle is owned twice, no two live containers hold non-null pointers with the same handle |
| Lifecycle.LiveHandlesStayDistinct | boni.hpp:413-415 | for any deleter test, at every point of such a run from the start, no two live containers hold non-null pointers with the same handle |
| Lifecycle.ReleasedIsAcquired | boni.hpp:337-341 | with the corrected deleter, once every container is destroyed, the handles released are exactly the non-null handles acquired, each as many times as it was acquired |
| Lifecycle.ReleasedExactlyOnce | boni.hpp:337-341 | with the corrected deleter, once every container is destroyed, each acquired non-null handle has been released exactly once and nothing else has been released, provided no acquisition returns a value the run already holds or has released |
| Lifecycle.AsWrittenReleasesNothing | boni.hpp:398-405 | with the coded deleters, no run of any length ever calls `destroy_function` |
| Lifecycle.AudioDeviceRun | main.cpp:88-100 | the program's five audio device events; the second adopts the id `SDL_OpenAudioDevice` returned |
| Lifecycle.AudioDeviceRunReleases | main.cpp:88-100 | for any deleter whose `pointer()` is the empty id, the program's audio device sequence releases exactly what giving up the opened id once releases |
| Lifecycle.AudioDeviceProgram | main.cpp:88-100 | the same sequence on `AutoHandle` objects leaves the log `Run` predicts: nothing as coded, and the opened id once, when it is not 0, when corrected |
| Lifecycle.AudioDeviceClosed | main.cpp:88-100 | the program's audio device is never closed as coded; corrected, it is closed once if the open succeeded and not at all if it failed |
| Lifecycle.FileClosed | boni.hpp:376-404 | a `file` going out of scope is never `fclose`d as coded; corrected, it is closed once, and never for `nullptr` |
| Lifecycle.FileMoveRun | boni.hpp:413-415 | adopting f, move-constructing a second `file` from it, then destroying the first and the second; the first event adopts f |
| Lifecycle.FileMoveRunReleases | boni.hpp:413-415 | for any deleter whose `pointer()` is `nullptr`, adopting f, move-constructing a second `file` from it and destroying both releases exactly what giving up f once releases |
| Lifecycle.FileMovedThenClosed | boni.hpp:413-415 | after a move construction and both destructions, the file is closed once when corrected and never as coded |
| Lifecycle.FileMoveProgram | boni.hpp:413-415 | the same sequence on `AutoHandle` objects leaves the log `Run` predicts: nothing as coded, and f once, when it is not `nullptr`, when corrected |

## Findings

| source | as written | input that shows it | evidently intended | confidence | as-written member | corrected member |
|---|---|---|---|---|---|---|
| boni.hpp:135-139, boni.hpp:226-230 | the deleters call `destroy_function` only when the argument equals `pointer()`, so only with the null value | `nullable_deleter` with sentinel 0 given id 42 calls nothing; given 0, it calls `SDL_CloseAudioDevice(0)`. `file_deleter` given `nullptr` calls `fclose(nullptr)` | forward only when the argument is not null, as the doc comments at boni.hpp:130-134 and 221-224 say | high; not executed | Deleters.DocCommentDoesNotHold | Deleters.CorrectedKeepsDocComment |
| boni.hpp:398-405, sdl2.hpp:105-109 | `unique_ptr` hands only non-null pointers to the deleter, and the deleter drops them, so no `auto_handle` ever releases its handle | the program's audio device (main.cpp:88-100) with any id ≠ 0: the release log stays empty | each adopted non-null handle is released exactly once ("`fclose(hello_file.get());` is automatically called") | high; not executed | Lifecycle.AsWrittenReleasesNothing | Lifecycle.ReleasedExactlyOnce |

The instantiations `FileDeleter` and `AudioDeviceDeleter` keep the test as coded. `Deleters.Corrected` turns the test round. The `Lifecycle` lemmas that state the intended promises (`StepAccounts`, `RunAccounts`, `RunStaysExclusive`, `ReleasedIsAcquired`, `ReleasedExactlyOnce`) are proved for the corrected deleter. The scenario lemmas state both outcomes side by side.

## Left out

- The return value of `destroy_function` (`fclose`'s `int`) is not modelled. `unsafe_handle_deleter` discards it, so `Invoke` has no result, and `ReleaseLog.Destroy` takes none.
- What `fclose` and `SDL_CloseAudioDevice` actually do is left out. Each is an opaque call recorded in the release log.
- Exceptions and stack unwinding are not modelled. When `SDL_OpenAudioDevice` fails, main.cpp:100 throws, and `main` has no handler. Whether the stack is unwound before `std::terminate` is then implementation-defined ([except.handle] in ISO/IEC 14882:2017), so `audio_device` may never be destroyed. It holds 0 at that point, and its destruction would release nothing anyway. So for id 0, `AudioDeviceClosed` still gives the release log, whether or not the destructors run.
- Lifecycle.ReleasedExactlyOnce: assumes that no acquisition within one run returns a value the run already holds or has released. `fopen` and `SDL_OpenAudioDevice` may reuse a value after it is closed. Without that premise, `ReleasedIsAcquired` gives the count: each value is released as many times as it was acquired.
- Template machinery is replaced by Dafny type parameters and a `Deleter` value:
  - the inherited constructors (`using parent_type::parent_type`);
  - the selection of `deleter_type::pointer`;
  - the note that the conversion may fail for macros (boni.hpp:426-429).
- `std::unique_ptr` members the program does not use are left out: `get_deleter`, `swap`, comparisons other than with `pointer()`, and converting moves between different deleter types.
- Deleted copy construction and copy assignment are not modelled: `AutoHandle` simply has no copy operation.
- In `Lifecycle`, an event that names a container that is not alive changes nothing. A C++ program cannot perform such an event.
- Runs in `Lifecycle` never call `release()` directly. It appears only inside move assignment, as `reset(u.release())`. So `StepAccounts` and the lemmas after it say nothing about a handle that leaves its container through `release()`. `AutoHandle.Release` states that call on its own.
- espeak-ng.hpp, the rest of sdl2.hpp and main.cpp are wrappers over the eSpeak NG and SDL2 C APIs, plus audio I/O, timing and logging. They are not part of this model. From them, only the `audio_device` type (sdl2.hpp:102-109) and its use at main.cpp:88-100 appear here, as an instantiation.
