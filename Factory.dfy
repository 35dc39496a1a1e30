/** The DirectWrite factory façade: it owns the native factory, registers the two loader
    bridges with it, creates font files, faces and collections with the legacy error
    fallback, and tears everything down in mirror order.

    The native engine, the file system, the dispatcher and the legacy font source are not
    modelled: each call takes their answers as parameters, and the ghost `log` records the
    calls the engine receives. */
module DWriteFactory {
  import opened Values
  import opened HResults
  import opened NativeLog
  import opened TimeStampCache

  /** The call sites that `ConvertHresultToException` reports. */
  const INITIALIZE_SITE := "Factory::Initialize"
  const CONSTRUCTOR_SITE := "Factory::Factory"
  const FONT_FILE_SITE := "FontFile^ Factory::CreateFontFile"
  const FONT_FACE_SITE := "FontFace^ Factory::CreateFontFace"
  const SYSTEM_COLLECTION_SITE := "FontCollection^ Factory::GetSystemFontCollection"
  const FONT_COLLECTION_SITE := "FontCollection^ Factory::GetFontCollection"

  /** The bridge that serves font files to the engine from an `IFontSourceFactory`. */
  class FontFileLoader {
    const fontSourceFactory: FontSourceFactory

    constructor (fontSourceFactory: FontSourceFactory)
      ensures this.fontSourceFactory == fontSourceFactory
    {
      this.fontSourceFactory := fontSourceFactory;
    }
  }

  /** The bridge that serves collections; it resolves the files it finds through the file loader. */
  class FontCollectionLoader {
    const fontSourceCollectionFactory: FontSourceCollectionFactory
    const fileLoader: FontFileLoader

    constructor (fontSourceCollectionFactory: FontSourceCollectionFactory, fileLoader: FontFileLoader)
      ensures this.fontSourceCollectionFactory == fontSourceCollectionFactory
      ensures this.fileLoader == fileLoader
    {
      this.fontSourceCollectionFactory := fontSourceCollectionFactory;
      this.fileLoader := fileLoader;
    }
  }

  /** The wrappers handed to callers, each around one native object. */
  datatype FontFile = FontFile(native: Handle)
  datatype FontFace = FontFace(native: Handle)
  datatype FontCollection = FontCollection(native: Handle)

  /** What `FontFile::Analyze` reports: whether the file is a supported font, the status
      code, the face type and the number of faces in the file. */
  datatype Analysis = Analysis(supported: bool, hr: HResult, faceType: nat, numberOfFaces: UInt32)

  /** The calls made for a local file, given what the timestamp step did: the file is
      opened to read its time on a cache miss, a cleanup is posted when one was scheduled,
      and a plain reference is created with the timestamp found. */
  ghost function LocalReferenceEvents(path: string, step: LookupResult): seq<Event> {
    (if step.fileOpened then [QueryFileTime(path)] else [])
    + (if step.scheduled then [ScheduleCleanup] else [])
    + [FileReference(path, step.timeStamp)]
  }

  /** The engine calls made while creating a reference to the font file `uri`, given the
      thread's cache state `s` before the call. */
  ghost function ReferenceEvents(uri: Uri, s: CacheState, hasDispatcher: bool, fileInfo: Option<FileTime>): seq<Event> {
    if uri.isLocal then
      LocalReferenceEvents(uri.localPath, Lookup(s, uri, hasDispatcher, fileInfo))
    else
      [AcquireIdentity(FileLoader),
       CustomFileReference(uri.absoluteUri, KeySize(uri.absoluteUri)),
       ReleaseIdentity(FileLoader)]
  }

  /** The engine calls of a teardown: the collection loader is unregistered first, then the
      file loader, each through its temporary identity, then the factory is released. */
  ghost function TeardownEvents(): seq<Event> {
    [AcquireIdentity(CollectionLoader), Unregister(CollectionLoader), ReleaseIdentity(CollectionLoader)]
    + [AcquireIdentity(FileLoader), Unregister(FileLoader), ReleaseIdentity(FileLoader)]
    + [ReleaseFactory]
  }

  class Factory {
    var pFactory: Option<Handle>                    // _pFactory; None is NULL
    var fileLoader: FontFileLoader?                 // _wpfFontFileLoader
    var collectionLoader: FontCollectionLoader?     // _wpfFontCollectionLoader
    var fontSourceFactory: Option<FontSourceFactory>  // _fontSourceFactory
    ghost var log: seq<Event>

    /** The engine's view agrees with the fields: the protocol was kept, every temporary
        identity was released, one native factory at most was ever created, and the façade
        holds a reference on it exactly while `pFactory` is set. */
    ghost predicate LogValid()
      reads this
    {
      var v := Replay(log);
      && v.ok
      && NoIdentities(v)
      && Creations(log) <= 1
      && v.factoryRefs == (if pFactory.Some? then 1 else 0)
    }

    /** The object invariant: the loaders exist exactly while the native factory does, the
        collection loader resolves through the façade's file loader, and the legacy font
        source is the one the file loader serves from. */
    ghost predicate Valid()
      reads this
    {
      && LogValid()
      && (pFactory.Some? <==> fileLoader != null)
      && (fileLoader != null <==> collectionLoader != null)
      && (collectionLoader != null ==> collectionLoader.fileLoader == fileLoader)
      && (fileLoader != null ==> fontSourceFactory == Some(fileLoader.fontSourceFactory))
    }

    /** `IsInvalid`: the handle is invalid when no native factory is held. */
    function IsInvalid(): (r: bool)
      reads this
      ensures LogValid() ==> (r <==> Replay(log).factoryRefs == 0)
    {
      pFactory.None?
    }

    /** Records one engine call. */
    ghost method Emit(e: Event)
      modifies this`log
      ensures log == old(log) + [e]
      ensures Replay(log) == Step(old(Replay(log)), e)
      ensures Creations(log) == old(Creations(log)) + (if e.CreateFactory? && e.succeeded then 1 else 0)
      ensures Releases(log) == old(Releases(log)) + (if e == ReleaseFactory then 1 else 0)
    {
      ReplaySnoc(log, e);
      log := log + [e];
    }

    /** Records a call that leaves the engine's view as it was while a factory is held:
        file-system and dispatcher calls, the legacy check, analysis, and factory calls that
        need no loader identity. */
    ghost method Observe(e: Event)
      requires Replay(log).factoryRefs > 0
      requires e.QueryFileTime? || e.ScheduleCleanup? || e.LegacyCheck? || e.Analyze?
               || e.FileReference? || e.CreateFace? || e.SystemCollection?
      modifies this`log
      ensures log == old(log) + [e]
      ensures Replay(log) == old(Replay(log))
      ensures Creations(log) == old(Creations(log)) && Releases(log) == old(Releases(log))
    {
      Emit(e);
    }

    /** Records the calls made for a local file once its timestamp step is done. */
    ghost method RecordLocalReference(path: string, step: LookupResult)
      requires Replay(log).factoryRefs > 0
      modifies this`log
      ensures log == old(log) + LocalReferenceEvents(path, step)
      ensures Replay(log) == old(Replay(log))
      ensures Creations(log) == old(Creations(log)) && Releases(log) == old(Releases(log))
    {
      if step.fileOpened {
        Observe(QueryFileTime(path));
      }
      if step.scheduled {
        Observe(ScheduleCleanup);
      }
      Observe(FileReference(path, step.timeStamp));
    }

    /** Records a factory call made through the temporary identity of loader `l`, which is
        obtained just before the call and released just after it. */
    ghost method ThroughIdentity(l: Loader, e: Event)
      requires Replay(log).factoryRefs > 0
      requires (l == FileLoader && e.CustomFileReference?) || (l == CollectionLoader && e.CustomCollection?)
      modifies this`log
      ensures log == old(log) + [AcquireIdentity(l), e, ReleaseIdentity(l)]
      ensures Replay(log) == old(Replay(log))
      ensures Creations(log) == old(Creations(log)) && Releases(log) == old(Releases(log))
    {
      ghost var v := Replay(log);
      Emit(AcquireIdentity(l));
      Emit(e);
      Emit(ReleaseIdentity(l));
      StepThroughIdentity(v, l, e);
    }

    /** Records the registration of loader `l` through its temporary identity. */
    ghost method RegisterThroughIdentity(l: Loader, succeeded: bool)
      requires Replay(log).factoryRefs > 0
      modifies this`log
      ensures log == old(log) + [AcquireIdentity(l), Register(l, succeeded), ReleaseIdentity(l)]
      ensures var v := old(Replay(log));
        Replay(log) == (if succeeded then WithRegistered(v, l, true) else v).(
                         ok := v.ok && (succeeded && l == CollectionLoader ==> v.fileRegistered))
      ensures Creations(log) == old(Creations(log)) && Releases(log) == old(Releases(log))
    {
      ghost var v := Replay(log);
      Emit(AcquireIdentity(l));
      Emit(Register(l, succeeded));
      Emit(ReleaseIdentity(l));
      StepRegister(v, l, succeeded);
    }

    /** Records the unregistration of loader `l` through its temporary identity. */
    ghost method UnregisterThroughIdentity(l: Loader)
      requires Replay(log).factoryRefs > 0
      modifies this`log
      ensures log == old(log) + [AcquireIdentity(l), Unregister(l), ReleaseIdentity(l)]
      ensures var v := old(Replay(log));
        Replay(log) == WithRegistered(v, l, false).(ok := v.ok && (l == FileLoader ==> !v.collectionRegistered))
      ensures Creations(log) == old(Creations(log)) && Releases(log) == old(Releases(log))
    {
      ghost var v := Replay(log);
      Emit(AcquireIdentity(l));
      Emit(Unregister(l));
      Emit(ReleaseIdentity(l));
      StepUnregister(v, l);
    }

    /** Records the unregistration of both loaders: the collection loader first, then the
        file loader, each through its temporary identity. */
    ghost method UnregisterLoaders()
      requires LogValid() && Replay(log).factoryRefs > 0
      modifies this`log
      ensures log == old(log)
        + [AcquireIdentity(CollectionLoader), Unregister(CollectionLoader), ReleaseIdentity(CollectionLoader)]
        + [AcquireIdentity(FileLoader), Unregister(FileLoader), ReleaseIdentity(FileLoader)]
      ensures Replay(log) == old(Replay(log)).(fileRegistered := false, collectionRegistered := false)
      ensures Creations(log) == old(Creations(log)) && Releases(log) == old(Releases(log))
    {
      ProtocolInvariant(log);
      UnregisterThroughIdentity(CollectionLoader);
      UnregisterThroughIdentity(FileLoader);
    }

    /** Records the teardown of a live façade: both loaders are unregistered, and then the
        factory reference is released. */
    ghost method RecordTeardown()
      requires LogValid() && Replay(log).factoryRefs > 0
      modifies this`log
      ensures log == old(log) + TeardownEvents()
      ensures Replay(log) == old(Replay(log)).(fileRegistered := false, collectionRegistered := false, factoryRefs := 0)
      ensures Creations(log) == old(Creations(log)) && Releases(log) == old(Releases(log)) + 1
    {
      UnregisterLoaders();
      ghost var unregistered := Replay(log);
      Emit(ReleaseFactory);
      StepReleaseFactory(unregistered);
    }

    /** The handle as `CriticalHandle(IntPtr::Zero)` leaves it, before the constructor body runs. */
    constructor ()
      ensures Valid() && IsInvalid() && log == []
      ensures fileLoader == null && collectionLoader == null && fontSourceFactory.None?
    {
      pFactory := None;
      fileLoader := null;
      collectionLoader := null;
      fontSourceFactory := None;
      log := [];
    }

    /** `Initialize`: creates the native factory; a failure code is raised and nothing is stored. */
    method Initialize(factoryType: FactoryType, create: Reply) returns (r: Result<()>)
      requires LogValid() && pFactory.None? && Creations(log) == 0
      modifies this`pFactory, this`log
      ensures LogValid()
      ensures log == old(log) + [CreateFactory(factoryType, !Failed(create.hr))]
      ensures r.Ok? <==> !Failed(create.hr)
      ensures r.Err? ==> r.error == HResultError(create.hr, INITIALIZE_SITE)
      ensures pFactory == if Failed(create.hr) then None else Some(create.out)
    {
      Emit(CreateFactory(factoryType, !Failed(create.hr)));
      r := CheckHResult(create.hr, INITIALIZE_SITE);
      if r.Err? {
        return;
      }
      pFactory := Some(create.out);
    }

    /** The constructor body after the native factory exists: make both loaders, then
        register the file loader and after it the collection loader, each through a temporary
        identity that is released before the registration's code is converted. */
    method RegisterLoaders(collectionSource: FontSourceCollectionFactory, fileSource: FontSourceFactory,
                           registerFile: HResult, registerCollection: HResult)
      returns (r: Result<()>)
      requires LogValid() && pFactory.Some? && NoneRegistered(Replay(log))
      modifies this`fileLoader, this`collectionLoader, this`fontSourceFactory, this`log
      ensures Valid() && pFactory == old(pFactory)
      ensures fileLoader != null && fresh(fileLoader) && fileLoader.fontSourceFactory == fileSource
      ensures collectionLoader != null && fresh(collectionLoader)
      ensures collectionLoader.fontSourceCollectionFactory == collectionSource
      ensures r.Ok? <==> !Failed(registerFile) && !Failed(registerCollection)
      // Registering the file loader failed: the collection loader is never registered.
      ensures Failed(registerFile) ==>
        && r == Err(HResultError(registerFile, CONSTRUCTOR_SITE))
        && log == old(log) + [AcquireIdentity(FileLoader), Register(FileLoader, false), ReleaseIdentity(FileLoader)]
      ensures !Failed(registerFile) ==>
        && log == old(log)
             + [AcquireIdentity(FileLoader), Register(FileLoader, true), ReleaseIdentity(FileLoader)]
             + [AcquireIdentity(CollectionLoader), Register(CollectionLoader, !Failed(registerCollection)),
                ReleaseIdentity(CollectionLoader)]
        && (Failed(registerCollection) ==> r == Err(HResultError(registerCollection, CONSTRUCTOR_SITE)))
      ensures r.Ok? ==> Replay(log).fileRegistered && Replay(log).collectionRegistered
    {
      fileLoader := new FontFileLoader(fileSource);
      collectionLoader := new FontCollectionLoader(collectionSource, fileLoader);
      fontSourceFactory := Some(fileSource);

      RegisterThroughIdentity(FileLoader, !Failed(registerFile));
      r := CheckHResult(registerFile, CONSTRUCTOR_SITE);
      if r.Err? {
        return;
      }

      RegisterThroughIdentity(CollectionLoader, !Failed(registerCollection));
      r := CheckHResult(registerCollection, CONSTRUCTOR_SITE);
    }

    /** The constructor body: create the native factory, then make and register the loaders. */
    method Construct(factoryType: FactoryType, collectionSource: FontSourceCollectionFactory,
                     fileSource: FontSourceFactory, create: Reply,
                     registerFile: HResult, registerCollection: HResult)
      returns (r: Result<()>)
      requires Valid() && IsInvalid() && log == []
      modifies this`pFactory, this`fileLoader, this`collectionLoader, this`fontSourceFactory, this`log
      ensures Valid()
      ensures r.Ok? <==> !Failed(create.hr) && !Failed(registerFile) && !Failed(registerCollection)
      // Creating the native factory failed: nothing else is attempted.
      ensures Failed(create.hr) ==>
        && r == Err(HResultError(create.hr, INITIALIZE_SITE))
        && log == [CreateFactory(factoryType, false)]
        && IsInvalid()
      ensures !Failed(create.hr) ==>
        && pFactory == Some(create.out)
        && fileLoader != null && fresh(fileLoader) && fileLoader.fontSourceFactory == fileSource
        && collectionLoader != null && fresh(collectionLoader)
        && collectionLoader.fontSourceCollectionFactory == collectionSource
      // Registering the file loader failed: the collection loader is never registered.
      ensures !Failed(create.hr) && Failed(registerFile) ==>
        && r == Err(HResultError(registerFile, CONSTRUCTOR_SITE))
        && log == [CreateFactory(factoryType, true),
                   AcquireIdentity(FileLoader), Register(FileLoader, false), ReleaseIdentity(FileLoader)]
      ensures !Failed(create.hr) && !Failed(registerFile) ==>
        && log == [CreateFactory(factoryType, true),
                   AcquireIdentity(FileLoader), Register(FileLoader, true), ReleaseIdentity(FileLoader),
                   AcquireIdentity(CollectionLoader), Register(CollectionLoader, !Failed(registerCollection)),
                   ReleaseIdentity(CollectionLoader)]
        && (Failed(registerCollection) ==> r == Err(HResultError(registerCollection, CONSTRUCTOR_SITE)))
      ensures r.Ok? ==> !IsInvalid() && Replay(log).fileRegistered && Replay(log).collectionRegistered
    {
      r := Initialize(factoryType, create);
      if r.Err? {
        return;
      }
      assert Replay(log) == INITIAL.(factoryRefs := 1);
      r := RegisterLoaders(collectionSource, fileSource, registerFile, registerCollection);
    }

    /** `Factory::Create`: a façade is returned only when every construction step succeeded. */
    static method Create(factoryType: FactoryType, collectionSource: FontSourceCollectionFactory,
                         fileSource: FontSourceFactory, create: Reply,
                         registerFile: HResult, registerCollection: HResult)
      returns (r: Result<Factory>)
      ensures r.Ok? <==> !Failed(create.hr) && !Failed(registerFile) && !Failed(registerCollection)
      ensures r.Ok? ==>
        && fresh(r.value) && r.value.Valid() && !r.value.IsInvalid()
        && Replay(r.value.log).fileRegistered && Replay(r.value.log).collectionRegistered
        && r.value.fontSourceFactory == Some(fileSource)
      ensures r.Err? ==>
        r.error == if Failed(create.hr) then HResultError(create.hr, INITIALIZE_SITE)
                   else if Failed(registerFile) then HResultError(registerFile, CONSTRUCTOR_SITE)
                   else HResultError(registerCollection, CONSTRUCTOR_SITE)
    {
      var factory := new Factory();
      var constructed := factory.Construct(factoryType, collectionSource, fileSource, create,
                                           registerFile, registerCollection);
      if constructed.Err? {
        return Err(constructed.error);
      }
      r := Ok(factory);
    }

    /** The body of `ReleaseHandle` on a live handle: unregister the collection loader, then
        the file loader, then release the native factory, clearing each field in turn. */
    method Teardown()
      requires Valid() && !IsInvalid()
      modifies this`pFactory, this`fileLoader, this`collectionLoader, this`log
      ensures Valid() && IsInvalid() && fileLoader == null && collectionLoader == null
      ensures log == old(log) + TeardownEvents()
      ensures Replay(log) == old(Replay(log)).(fileRegistered := false, collectionRegistered := false, factoryRefs := 0)
      ensures Creations(log) == old(Creations(log)) && Releases(log) == old(Releases(log)) + 1
    {
      RecordTeardown();
      collectionLoader := null;
      fileLoader := null;
      pFactory := None;
    }

    /** `ReleaseHandle`: on a live handle, tear down in mirror order of construction; on a
        released one, do nothing. */
    method ReleaseHandle() returns (released: bool)
      requires Valid()
      modifies this`pFactory, this`fileLoader, this`collectionLoader, this`log
      ensures Valid() && IsInvalid() && fileLoader == null && collectionLoader == null
      ensures released
      // A live handle: collection loader, then file loader, then the factory itself.
      ensures !old(IsInvalid()) ==> log == old(log) + TeardownEvents()
      // Idempotent: on a released handle nothing reaches the engine.
      ensures old(IsInvalid()) ==> log == old(log)
      ensures NoneRegistered(Replay(log)) && Replay(log).factoryRefs == 0
      // Every native factory reference obtained was released, and exactly once.
      ensures Releases(log) == Creations(log) <= 1
      ensures !old(IsInvalid()) ==> Releases(log) == 1
    {
      ProtocolInvariant(log);
      // The source guards each of its three steps on its own field being non-NULL; Valid()
      // makes the three guards agree, since both loaders are set exactly while the factory is.
      if !IsInvalid() {
        Teardown();
      }
      released := true;
    }

    /** The local-file branch of the static `CreateFontFile` overload: take the timestamp from
        the thread's cache, or read it from the file, and create a plain file reference. */
    method LocalFileReference(uri: Uri, cache: ThreadCache, hasDispatcher: bool, fileInfo: Option<FileTime>)
      requires Valid() && !IsInvalid() && cache.Valid() && uri.isLocal
      modifies this`log, cache
      ensures Valid() && cache.Valid()
      ensures cache.State() == Lookup(old(cache.State()), uri, hasDispatcher, fileInfo).after
      ensures log == old(log) + ReferenceEvents(uri, old(cache.State()), hasDispatcher, fileInfo)
    {
      ghost var before := cache.State();
      var timeStamp, fileOpened, scheduled := cache.TimeStampFor(uri, hasDispatcher, fileInfo);
      RecordLocalReference(uri.localPath, LookupResult(cache.State(), timeStamp, fileOpened, scheduled));
    }

    /** The static `CreateFontFile(factory, loader, uri, &file)` overload, always called here
        with the façade's own factory and file loader. A local file gets a reference with a
        timestamp from the thread's cache when there is one; any other file gets a custom
        reference through the file loader's temporary identity. */
    method CreateFontFileReference(uri: Uri, cache: ThreadCache, hasDispatcher: bool,
                                   fileInfo: Option<FileTime>, reference: Reply)
      returns (hr: HResult, file: Handle)
      requires Valid() && !IsInvalid() && cache.Valid()
      modifies this`log, cache
      ensures Valid() && cache.Valid()
      ensures cache.State() == Lookup(old(cache.State()), uri, hasDispatcher, fileInfo).after
      ensures log == old(log) + ReferenceEvents(uri, old(cache.State()), hasDispatcher, fileInfo)
      ensures hr == reference.hr && file == reference.out
    {
      if uri.isLocal {
        LocalFileReference(uri, cache, hasDispatcher, fileInfo);
      } else {
        ThroughIdentity(FileLoader, CustomFileReference(uri.absoluteUri, KeySize(uri.absoluteUri)));
      }
      hr, file := reference.hr, reference.out;
    }

    /** `CreateFontFile(uri)`: a failed reference always runs the legacy check, whose own
        error wins; if it passes, the reference's code is raised. */
    method CreateFontFile(uri: Uri, cache: ThreadCache, hasDispatcher: bool, fileInfo: Option<FileTime>,
                          reference: Reply, legacy: Option<LegacyFailure>)
      returns (r: Result<FontFile>)
      requires Valid() && !IsInvalid() && cache.Valid()
      modifies this`log, cache
      ensures Valid() && cache.Valid()
      ensures cache.State() == Lookup(old(cache.State()), uri, hasDispatcher, fileInfo).after
      ensures log == old(log) + ReferenceEvents(uri, old(cache.State()), hasDispatcher, fileInfo)
                     + (if Failed(reference.hr) then [LegacyCheck(uri.absoluteUri)] else [])
      ensures r.Ok? <==> !Failed(reference.hr)
      ensures r.Ok? ==> r.value == FontFile(reference.out)
      ensures Failed(reference.hr) ==> r == Err(FallbackError(legacy, reference.hr, FONT_FILE_SITE))
    {
      var hr, file := CreateFontFileReference(uri, cache, hasDispatcher, fileInfo, reference);
      if Failed(hr) {
        Observe(LegacyCheck(uri.absoluteUri));
        return Err(FallbackError(legacy, hr, FONT_FILE_SITE));
      }
      r := Ok(FontFile(file));
    }

    /** The second half of `CreateFontFace`, once the font file exists: analyse it, check the
        face index locally, and create the face; a file the engine does not support is
        re-validated through the legacy check only when analysis reported
        `DWRITE_E_FILEFORMAT`. `None` stands for the null face returned when analysis fails
        with a success code. */
    method FaceFromFile(uri: Uri, file: FontFile, faceIndex: UInt32, simulations: FontSimulations,
                        legacy: Option<LegacyFailure>, analysis: Analysis, face: Reply)
      returns (r: Result<Option<FontFace>>)
      requires Valid() && !IsInvalid()
      modifies this`log
      ensures Valid()
      // The index is checked locally: out of range, no face is created.
      ensures analysis.supported && faceIndex >= analysis.numberOfFaces ==>
        && log == old(log) + [Analyze(file.native)]
        && r == Err(ArgumentOutOfRange("faceIndex"))
      ensures analysis.supported && faceIndex < analysis.numberOfFaces ==>
        && log == old(log) + [Analyze(file.native), CreateFace(file.native, analysis.faceType, faceIndex, simulations)]
        && (r.Ok? <==> !Failed(face.hr))
        && (r.Ok? ==> r.value == Some(FontFace(face.out)))
        && (r.Err? ==> r.error == HResultError(face.hr, FONT_FACE_SITE))
      // Analysis failed with DWRITE_E_FILEFORMAT: the legacy check runs again.
      ensures !analysis.supported && analysis.hr == DWRITE_E_FILEFORMAT ==>
        && log == old(log) + [Analyze(file.native), LegacyCheck(uri.absoluteUri)]
        && r == Err(FallbackError(legacy, analysis.hr, FONT_FACE_SITE))
      // Analysis failed otherwise: its code is converted; a success code yields the null face.
      ensures !analysis.supported && analysis.hr != DWRITE_E_FILEFORMAT ==>
        && log == old(log) + [Analyze(file.native)]
        && (r.Ok? <==> !Failed(analysis.hr))
        && (r.Ok? ==> r.value == None)
        && (r.Err? ==> r.error == HResultError(analysis.hr, FONT_FACE_SITE))
    {
      Observe(Analyze(file.native));
      if analysis.supported {
        if faceIndex >= analysis.numberOfFaces {
          return Err(ArgumentOutOfRange("faceIndex"));
        }
        Observe(CreateFace(file.native, analysis.faceType, faceIndex, simulations));
        var created := CheckHResult(face.hr, FONT_FACE_SITE);
        if created.Err? {
          return Err(created.error);
        }
        return Ok(Some(FontFace(face.out)));
      }
      if analysis.hr == DWRITE_E_FILEFORMAT {
        Observe(LegacyCheck(uri.absoluteUri));
        return Err(FallbackError(legacy, analysis.hr, FONT_FACE_SITE));
      }
      var analysed := CheckHResult(analysis.hr, FONT_FACE_SITE);
      if analysed.Err? {
        return Err(analysed.error);
      }
      r := Ok(None);
    }

    /** `CreateFontFace(uri, faceIndex, simulations)`: create the font file, then the face. */
    method CreateFontFace(uri: Uri, faceIndex: UInt32, simulations: FontSimulations,
                          cache: ThreadCache, hasDispatcher: bool, fileInfo: Option<FileTime>,
                          reference: Reply, legacy: Option<LegacyFailure>,
                          analysis: Analysis, face: Reply)
      returns (r: Result<Option<FontFace>>)
      requires Valid() && !IsInvalid() && cache.Valid()
      modifies this`log, cache
      ensures Valid() && cache.Valid()
      ensures cache.State() == Lookup(old(cache.State()), uri, hasDispatcher, fileInfo).after
      // The font file could not be created: the error of CreateFontFile, nothing analysed.
      ensures Failed(reference.hr) ==>
        && log == old(log) + ReferenceEvents(uri, old(cache.State()), hasDispatcher, fileInfo)
                  + [LegacyCheck(uri.absoluteUri)]
        && r == Err(FallbackError(legacy, reference.hr, FONT_FILE_SITE))
      // The index is checked locally: out of range, no face is created.
      ensures !Failed(reference.hr) && analysis.supported && faceIndex >= analysis.numberOfFaces ==>
        && log == old(log) + ReferenceEvents(uri, old(cache.State()), hasDispatcher, fileInfo)
                  + [Analyze(reference.out)]
        && r == Err(ArgumentOutOfRange("faceIndex"))
      ensures !Failed(reference.hr) && analysis.supported && faceIndex < analysis.numberOfFaces ==>
        && log == old(log) + ReferenceEvents(uri, old(cache.State()), hasDispatcher, fileInfo)
                  + [Analyze(reference.out), CreateFace(reference.out, analysis.faceType, faceIndex, simulations)]
        && (r.Ok? <==> !Failed(face.hr))
        && (r.Ok? ==> r.value == Some(FontFace(face.out)))
        && (r.Err? ==> r.error == HResultError(face.hr, FONT_FACE_SITE))
      // Analysis failed with DWRITE_E_FILEFORMAT: the legacy check runs again.
      ensures !Failed(reference.hr) && !analysis.supported && analysis.hr == DWRITE_E_FILEFORMAT ==>
        && log == old(log) + ReferenceEvents(uri, old(cache.State()), hasDispatcher, fileInfo)
                  + [Analyze(reference.out), LegacyCheck(uri.absoluteUri)]
        && r == Err(FallbackError(legacy, analysis.hr, FONT_FACE_SITE))
      // Analysis failed otherwise: its code is converted; a success code yields the null face.
      ensures !Failed(reference.hr) && !analysis.supported && analysis.hr != DWRITE_E_FILEFORMAT ==>
        && log == old(log) + ReferenceEvents(uri, old(cache.State()), hasDispatcher, fileInfo)
                  + [Analyze(reference.out)]
        && (r.Ok? <==> !Failed(analysis.hr))
        && (r.Ok? ==> r.value == None)
        && (r.Err? ==> r.error == HResultError(analysis.hr, FONT_FACE_SITE))
    {
      var file := CreateFontFile(uri, cache, hasDispatcher, fileInfo, reference, legacy);
      if file.Err? {
        return Err(file.error);
      }
      r := FaceFromFile(uri, file.value, faceIndex, simulations, legacy, analysis, face);
    }

    /** `CreateFontFace(uri, faceIndex)`: the same with no simulations. */
    method CreateFontFaceDefault(uri: Uri, faceIndex: UInt32,
                                 cache: ThreadCache, hasDispatcher: bool, fileInfo: Option<FileTime>,
                                 reference: Reply, legacy: Option<LegacyFailure>,
                                 analysis: Analysis, face: Reply)
      returns (r: Result<Option<FontFace>>)
      requires Valid() && !IsInvalid() && cache.Valid()
      modifies this`log, cache
      ensures Valid() && cache.Valid()
      ensures cache.State() == Lookup(old(cache.State()), uri, hasDispatcher, fileInfo).after
      // The font file could not be created: the error of CreateFontFile, nothing analysed.
      ensures Failed(reference.hr) ==>
        && log == old(log) + ReferenceEvents(uri, old(cache.State()), hasDispatcher, fileInfo)
                  + [LegacyCheck(uri.absoluteUri)]
        && r == Err(FallbackError(legacy, reference.hr, FONT_FILE_SITE))
      // The index is checked locally: out of range, no face is created.
      ensures !Failed(reference.hr) && analysis.supported && faceIndex >= analysis.numberOfFaces ==>
        && log == old(log) + ReferenceEvents(uri, old(cache.State()), hasDispatcher, fileInfo)
                  + [Analyze(reference.out)]
        && r == Err(ArgumentOutOfRange("faceIndex"))
      ensures !Failed(reference.hr) && analysis.supported && faceIndex < analysis.numberOfFaces ==>
        && log == old(log) + ReferenceEvents(uri, old(cache.State()), hasDispatcher, fileInfo)
                  + [Analyze(reference.out), CreateFace(reference.out, analysis.faceType, faceIndex, NO_SIMULATIONS)]
        && (r.Ok? <==> !Failed(face.hr))
        && (r.Ok? ==> r.value == Some(FontFace(face.out)))
        && (r.Err? ==> r.error == HResultError(face.hr, FONT_FACE_SITE))
      // Analysis failed with DWRITE_E_FILEFORMAT: the legacy check runs again.
      ensures !Failed(reference.hr) && !analysis.supported && analysis.hr == DWRITE_E_FILEFORMAT ==>
        && log == old(log) + ReferenceEvents(uri, old(cache.State()), hasDispatcher, fileInfo)
                  + [Analyze(reference.out), LegacyCheck(uri.absoluteUri)]
        && r == Err(FallbackError(legacy, analysis.hr, FONT_FACE_SITE))
      // Analysis failed otherwise: its code is converted; a success code yields the null face.
      ensures !Failed(reference.hr) && !analysis.supported && analysis.hr != DWRITE_E_FILEFORMAT ==>
        && log == old(log) + ReferenceEvents(uri, old(cache.State()), hasDispatcher, fileInfo)
                  + [Analyze(reference.out)]
        && (r.Ok? <==> !Failed(analysis.hr))
        && (r.Ok? ==> r.value == None)
        && (r.Err? ==> r.error == HResultError(analysis.hr, FONT_FACE_SITE))
    {
      r := CreateFontFace(uri, faceIndex, NO_SIMULATIONS, cache, hasDispatcher, fileInfo,
                          reference, legacy, analysis, face);
    }

    /** `GetSystemFontCollection(checkForUpdates)`: a passthrough whose failure code is raised. */
    method GetSystemFontCollection(checkForUpdates: bool, collection: Reply)
      returns (r: Result<FontCollection>)
      requires Valid() && !IsInvalid()
      modifies this`log
      ensures Valid()
      ensures log == old(log) + [SystemCollection(checkForUpdates)]
      ensures r.Ok? <==> !Failed(collection.hr)
      ensures r.Ok? ==> r.value == FontCollection(collection.out)
      ensures r.Err? ==> r.error == HResultError(collection.hr, SYSTEM_COLLECTION_SITE)
    {
      Observe(SystemCollection(checkForUpdates));
      var checked := CheckHResult(collection.hr, SYSTEM_COLLECTION_SITE);
      if checked.Err? {
        return Err(checked.error);
      }
      r := Ok(FontCollection(collection.out));
    }

    /** `GetSystemFontCollection()`: the same without checking for updates. */
    method GetSystemFontCollectionDefault(collection: Reply) returns (r: Result<FontCollection>)
      requires Valid() && !IsInvalid()
      modifies this`log
      ensures Valid()
      ensures log == old(log) + [SystemCollection(false)]
      ensures r.Ok? <==> !Failed(collection.hr)
      ensures r.Ok? ==> r.value == FontCollection(collection.out)
      ensures r.Err? ==> r.error == HResultError(collection.hr, SYSTEM_COLLECTION_SITE)
    {
      r := GetSystemFontCollection(false, collection);
    }

    /** `GetFontCollection(uri)`: a custom collection keyed by the absolute URI, made through
        the collection loader's temporary identity, which is released before the code is
        converted. */
    method GetFontCollection(uri: Uri, collection: Reply) returns (r: Result<FontCollection>)
      requires Valid() && !IsInvalid()
      modifies this`log
      ensures Valid()
      ensures log == old(log) + [AcquireIdentity(CollectionLoader),
                                 CustomCollection(uri.absoluteUri, KeySize(uri.absoluteUri)),
                                 ReleaseIdentity(CollectionLoader)]
      ensures r.Ok? <==> !Failed(collection.hr)
      ensures r.Ok? ==> r.value == FontCollection(collection.out)
      ensures r.Err? ==> r.error == HResultError(collection.hr, FONT_COLLECTION_SITE)
    {
      ThroughIdentity(CollectionLoader, CustomCollection(uri.absoluteUri, KeySize(uri.absoluteUri)));
      var checked := CheckHResult(collection.hr, FONT_COLLECTION_SITE);
      if checked.Err? {
        return Err(checked.error);
      }
      r := Ok(FontCollection(collection.out));
    }

    /** `CleanupTimeStampCache`: the posted dispatcher operation; it clears the pending
        marker and empties the thread's dictionary. */
    static method CleanupTimeStampCache(cache: ThreadCache)
      requires cache.Valid() && cache.cleanupPending
      modifies cache
      ensures cache.Valid()
      ensures cache.State() == CacheState(Some(map[]), false)
      ensures cache.postedCleanups == old(cache.postedCleanups) - 1 == 0
    {
      cache.cleanupPending := false;
      cache.table := Some(map[]);
      cache.postedCleanups := cache.postedCleanups - 1;
    }
  }
}
