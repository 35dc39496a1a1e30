# DirectWrite factory façade

This project models the managed `Factory` wrapper of WPF's DirectWrite text interface
(`dwritewrapper/factory.cpp`). The façade:

- owns the native `IDWriteFactory` interface;
- registers two loader bridges with it: the font file loader and the font collection loader;
- creates font files, font faces and font collections through it;
- falls back to WPF's legacy font source to raise more precise errors when the engine fails;
- keeps a per-thread cache of font-file last-write times, which a dispatcher operation clears.

The model is imperative, like the source:

- `DWriteFactory.Factory` is a class with the source's fields (`_pFactory`, `_wpfFontFileLoader`, `_wpfFontCollectionLoader`, `_fontSourceFactory`).
- `TimeStampCache.ThreadCache` is a class with the thread-static dictionary and the cleanup marker.

Nothing native is executed. Each engine call, each Win32 file call, the dispatcher lookup and
the legacy `TestFileOpenable` check is an oracle: a parameter that gives the call's answer.
A `Reply` gives an `HRESULT` and an opaque handle, and a `LegacyFailure` option gives what the
legacy check raises. The calls the engine receives are recorded in a ghost event log.
`NativeLog.Replay` folds that log into the engine's view:

- how many factory references are held;
- which loaders are registered;
- how many temporary COM identities of each loader are outstanding;
- whether every call so far respected the engine's protocol.

The class invariant `Factory.Valid` ties this view to the fields.

Modules:

- `Values`: plain values (options, 32-bit words, `FILETIME`, the parts of a `Uri` the façade reads).
- `HResults`: `HRESULT`, `FAILED`, `DWRITE_E_FILEFORMAT`, the errors raised, and `ConvertHresultToException`.
- `NativeLog`: the event log, the protocol, and the invariant every protocol-respecting log keeps.
- `TimeStampCache`: the lookup decision as a function, the thread cache as a class, and the at-most-one-cleanup property.
- `DWriteFactory`: the façade itself.

## Model

| member | source | states |
|---|---|---|
| HResults.FromBits | jsProject/Source/WPF/src/Core/cpp/dwritewrapper/factory.cpp:282 | a 32-bit pattern such as `DWRITE_E_FILEFORMAT` denotes the signed code congruent to it mod 2^32, and that code is a failure exactly when the severity bit is set |
| HResults.ToBits | jsProject/Source/WPF/src/Core/cpp/dwritewrapper/factory.cpp:282 | the inverse of `FromBits`: reading back the bit pattern gives the same code, and the top bit is set exactly for failures |
| NativeLog.ProtocolInvariant | jsProject/Source/WPF/src/Core/cpp/dwritewrapper/factory.cpp:62-169 | in every protocol-respecting log, the collection loader is registered only while the file loader is, no loader is registered without a held factory, at most one factory reference is held, and releases plus held references equal creations |
| TimeStampCache.Lookup | jsProject/Source/WPF/src/Core/cpp/dwritewrapper/factory.cpp:392-456 | see the list after this table |
| TimeStampCache.SecondLookupHits | jsProject/Source/WPF/src/Core/cpp/dwritewrapper/factory.cpp:404-410 | after a miss that cached a time, the next lookup of the same file in the same turn is a hit: no open, no cleanup, and the same time |
| TimeStampCache.AtMostOneCleanupPerTurn | jsProject/Source/WPF/src/Core/cpp/dwritewrapper/factory.cpp:441-446 | any sequence of lookups in one dispatcher turn posts at most one cleanup: none if one was pending, one exactly when the turn left one pending that was not; the staleness bound is kept |
| TimeStampCache.ThreadCache.TimeStampFor | jsProject/Source/WPF/src/Core/cpp/dwritewrapper/factory.cpp:392-456 | the in-place dictionary update, the timestamp passed, the open and the post all equal `Lookup` of the old state; one cleanup is counted as posted exactly when it is scheduled; the thread invariant is kept |
| DWriteFactory.Factory.IsInvalid | jsProject/Source/WPF/src/Core/cpp/dwritewrapper/factory.cpp:509-512 | the handle is invalid exactly when the engine's view holds no factory reference |
| DWriteFactory.Factory.Initialize | jsProject/Source/WPF/src/Core/cpp/dwritewrapper/factory.cpp:111-127 | one factory creation is sent; on a failed code the `Factory::Initialize` error is raised and `_pFactory` stays NULL, otherwise it holds the created factory |
| DWriteFactory.Factory.Construct | jsProject/Source/WPF/src/Core/cpp/dwritewrapper/factory.cpp:62-103 | the exact engine log of each outcome: a failed creation stops everything; the file loader is registered before the collection loader; a failed file registration never attempts the collection loader; every temporary identity is released even on failure; success leaves both loaders registered |
| DWriteFactory.Factory.RegisterLoaders | jsProject/Source/WPF/src/Core/cpp/dwritewrapper/factory.cpp:69-102 | the loaders are built with the given sources; registrations are logged in order, each bracketed by its identity; the error is the first failed registration's code at `Factory::Factory` |
| DWriteFactory.Factory.Create | jsProject/Source/WPF/src/Core/cpp/dwritewrapper/factory.cpp:43-50 | a valid, live façade with both loaders registered is returned exactly when all three native steps succeed; otherwise the first failure's error |
| DWriteFactory.Factory.Teardown | jsProject/Source/WPF/src/Core/cpp/dwritewrapper/factory.cpp:140-166 | on a live handle: unregister the collection loader, then the file loader, then release the factory, nulling each field; exactly one release is added |
| DWriteFactory.Factory.ReleaseHandle | jsProject/Source/WPF/src/Core/cpp/dwritewrapper/factory.cpp:138-169 | see the list after this table |
| DWriteFactory.Factory.CreateFontFileReference | jsProject/Source/WPF/src/Core/cpp/dwritewrapper/factory.cpp:370-485 | a local file is referenced by path with the timestamp the cache decision gives; any other file gets a custom reference keyed by its absolute URI of `(Length + 1) * 2` bytes through a released file-loader identity; the cache moves exactly as `Lookup` says |
| DWriteFactory.Factory.LocalFileReference | jsProject/Source/WPF/src/Core/cpp/dwritewrapper/factory.cpp:379-462 | the local branch: the file is opened only on a miss, a cleanup is posted only when scheduled, and the reference carries the looked-up timestamp (null without a dispatcher or after a failed read) |
| DWriteFactory.Factory.CreateFontFile | jsProject/Source/WPF/src/Core/cpp/dwritewrapper/factory.cpp:175-201 | a failed reference always runs the legacy check; its error wins, otherwise the reference's code is raised at `FontFile^ Factory::CreateFontFile`; a success code skips the check and returns the file |
| DWriteFactory.Factory.FaceFromFile | jsProject/Source/WPF/src/Core/cpp/dwritewrapper/factory.cpp:230-290 | see the list after this table |
| DWriteFactory.Factory.CreateFontFace | jsProject/Source/WPF/src/Core/cpp/dwritewrapper/factory.cpp:223-291 | the composition of the two: each outcome's complete engine log and error, starting with the file's own error when the file cannot be created |
| DWriteFactory.Factory.CreateFontFaceDefault | jsProject/Source/WPF/src/Core/cpp/dwritewrapper/factory.cpp:207-217 | the same five outcomes as `CreateFontFace` with `NO_SIMULATIONS`: a failed reference gives the file's error after the legacy check; an out-of-range index raises `faceIndex` with no face created; an in-range one creates the face with no simulations and returns it or raises its code; a failed analysis runs the legacy check only for `DWRITE_E_FILEFORMAT` and converts its code |
| DWriteFactory.Factory.GetSystemFontCollection | jsProject/Source/WPF/src/Core/cpp/dwritewrapper/factory.cpp:303-317 | one system-collection call carrying `checkForUpdates`; its failure code is raised, otherwise the collection is returned |
| DWriteFactory.Factory.GetSystemFontCollectionDefault | jsProject/Source/WPF/src/Core/cpp/dwritewrapper/factory.cpp:293-296 | one system-collection call with `checkForUpdates` false; its failure code is raised at the system-collection site, otherwise that collection is returned |
| DWriteFactory.Factory.GetFontCollection | jsProject/Source/WPF/src/Core/cpp/dwritewrapper/factory.cpp:332-359 | a custom collection keyed by the absolute URI through the collection loader's identity; the identity is released before the code is converted, so none is outstanding on failure |
| DWriteFactory.Factory.CleanupTimeStampCache | jsProject/Source/WPF/src/Core/cpp/dwritewrapper/factory.cpp:487-491 | the posted operation clears the marker and empties the dictionary; no cleanup remains posted |

`TimeStampCache.Lookup` states:

- without a dispatcher, or for a non-local file, the cache is untouched and the timestamp is null;
- a hit passes the cached time, with no open and no post;
- a miss opens the file;
- a successful read adds exactly that entry and posts a cleanup only when none is pending;
- a failed read leaves the entries and the marker alone and passes null;
- the marker is set afterwards exactly when it was before or a cleanup was posted;
- "an entry is cached exactly when a cleanup is pending" is preserved.

`DWriteFactory.Factory.ReleaseHandle` states:

- on a live handle, the log gains exactly the teardown calls, in that order, and the factory reference is released exactly once;
- on a released handle, nothing reaches the engine: calling it twice is the same as once;
- it always returns true;
- afterwards the handle is invalid, no loader is registered, and releases equal creations.

`DWriteFactory.Factory.FaceFromFile` states:

- analysis runs first;
- a supported file with `faceIndex >= numberOfFaces` raises `ArgumentOutOfRange("faceIndex")` without any face creation;
- an in-range index creates the face with the analysed face type and the given simulations, and converts its code;
- an unsupported file runs the legacy check only when the code is `DWRITE_E_FILEFORMAT`;
- the analysis code is converted, and a success code yields the null face.

## Left out

- The native engine, the Win32 file calls (`CreateFile`, `GetFileInformationByHandle`, `CloseHandle`), `Dispatcher::FromThread`/`BeginInvoke` and `IFontSource::TestFileOpenable` are not modelled. Each is an oracle parameter. The engine is observed only through the ghost log and the protocol `NativeLog.Step` checks.
- `ConvertHresultToException` is abstracted as `HResults.CheckHResult`. It raises one `HResultError(hr, site)` rather than the exception type the source picks for each code. Each façade method's contract states the code and the site it converts.
- `Factory::IsLocalUri` is not part of this model. Its verdict is the `isLocal` field of `Values.Uri`.
- `Uri` keys are compared structurally, not with `System::Uri` equality.
- Strings are sequences of UTF-16 code units, so a key's byte size is `(Length + 1) * 2`.
- `DWriteTypeConverter::Convert` and the static GUID constructor are not modelled. Face types stay opaque numbers, simulations stay a flag pair, and the factory kind is passed through.
- The file type that `Analyze` reports is not modelled, because the façade never uses it.
- `CreateTextAnalyzer` is not modelled: it is a passthrough to the native call and lies outside the modelled façade operations.
- `GC::KeepAlive`, `pin_ptr`, the security attributes and the permission asserts are not modelled. They are runtime and security plumbing with no behaviour.
- COM reference counting is not modelled. Only the outstanding temporary identities of each loader are counted.
- Per-thread separation of the cache is not modelled. One `ThreadCache` stands for the calling thread's storage.
- Dispatcher shutdown is not modelled. A posted cleanup is an explicit step the environment may take.
- Operations on a released façade are modelled with the precondition `!IsInvalid()`. The source has no check of its own there, and each operation fails differently:
  - `GetSystemFontCollection` calls through the NULL `_pFactory` (factory.cpp:308).
  - `GetFontCollection` passes the nulled `_wpfFontCollectionLoader` to `GetComInterfaceForObject` (factory.cpp:338), which raises `ArgumentNullException` before the factory is used.
  - `CreateFontFile` and `CreateFontFace` on a non-local URI pass the nulled `_wpfFontFileLoader` to `GetComInterfaceForObject` (factory.cpp:471), with the same `ArgumentNullException`.
  - On a local URI they first run the whole timestamp step, so they may open the file, add a cache entry and post a cleanup, and only then call through the NULL factory (factory.cpp:459).
- `DWriteFactory.Factory.CreateFontFileReference` models the static `CreateFontFile(factory, loader, uri, &file)` overload as the façade always calls it: with the façade's own factory and file loader.
- `DWriteFactory.Factory.Construct`: the finalizer of a partially constructed object is not modelled. The state a failed registration leaves still satisfies `Valid()`, so `ReleaseHandle` applies to it.
- `DWriteFactory.Factory.CleanupTimeStampCache` requires that a cleanup is pending. In the source it runs only as the posted dispatcher operation, and with nothing posted its `_timeStampCache->Clear()` could meet a null dictionary.
- `TimeStampCache.ThreadCache.TimeStampFor`: opening the file and reading its information are one oracle, whose result is a time or nothing. Both failures have the same effect in the source.
