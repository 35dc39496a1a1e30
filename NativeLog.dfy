/** The native engine's view of the façade: the calls it receives, in order, and the
    protocol those calls must follow. The façade keeps this log as ghost state. */
module NativeLog {
  import opened Values

  /** The two loader bridges registered with the engine. */
  datatype Loader = FileLoader | CollectionLoader

  datatype Event =
    | CreateFactory(kind: FactoryType, succeeded: bool)        // DWriteCreateFactory
    | AcquireIdentity(loader: Loader)                           // Marshal::GetComInterfaceForObject
    | ReleaseIdentity(loader: Loader)                           // Marshal::Release
    | Register(loader: Loader, succeeded: bool)                 // RegisterFont{File,Collection}Loader
    | Unregister(loader: Loader)                                // UnregisterFont{File,Collection}Loader
    | ReleaseFactory                                            // _pFactory->Release()
    | QueryFileTime(path: string)                               // CreateFile, GetFileInformationByHandle, CloseHandle
    | ScheduleCleanup                                           // BeginInvoke(CleanupTimeStampCache)
    | FileReference(path: string, timeStamp: Option<FileTime>)  // CreateFontFileReference
    | CustomFileReference(key: string, keySize: nat)            // CreateCustomFontFileReference
    | LegacyCheck(absoluteUri: string)                          // Create(uri)->TestFileOpenable()
    | Analyze(file: Handle)                                     // FontFile::Analyze
    | CreateFace(file: Handle, faceType: nat, faceIndex: UInt32, simulations: FontSimulations)
    | SystemCollection(checkForUpdates: bool)                   // GetSystemFontCollection
    | CustomCollection(key: string, keySize: nat)               // CreateCustomFontCollection

  /** What the engine has seen so far. */
  datatype NativeView = NativeView(
    factoryRefs: nat,               // references on the native factory the façade holds
    fileRegistered: bool,           // the file loader is registered with the factory
    collectionRegistered: bool,     // the collection loader is registered with the factory
    fileIdentities: nat,            // temporary COM identities of the file loader not yet released
    collectionIdentities: nat,      // the same for the collection loader
    ok: bool)                       // no call so far broke the protocol

  const INITIAL := NativeView(0, false, false, 0, 0, true)

  function WithRegistered(v: NativeView, l: Loader, b: bool): NativeView {
    if l == FileLoader then v.(fileRegistered := b) else v.(collectionRegistered := b)
  }

  function Identities(v: NativeView, l: Loader): nat {
    if l == FileLoader then v.fileIdentities else v.collectionIdentities
  }

  function WithIdentities(v: NativeView, l: Loader, n: nat): NativeView {
    if l == FileLoader then v.(fileIdentities := n) else v.(collectionIdentities := n)
  }

  /** No loader is registered. */
  predicate NoneRegistered(v: NativeView) {
    !v.fileRegistered && !v.collectionRegistered
  }

  /** Every temporary identity obtained has been released. */
  predicate NoIdentities(v: NativeView) {
    v.fileIdentities == 0 && v.collectionIdentities == 0
  }

  /** One call's effect. The protocol: the factory is created only while none is held and
      released only while held and with no loader registered; every factory call needs a
      held factory; a loader is registered or unregistered, and a custom reference or
      collection is created, only through a live temporary identity of that loader; the
      collection loader is registered only after the file loader, and the file loader is
      unregistered only after the collection loader. */
  function Step(v: NativeView, e: Event): NativeView {
    match e
    case CreateFactory(_, succeeded) =>
      if succeeded then v.(factoryRefs := v.factoryRefs + 1, ok := v.ok && v.factoryRefs == 0) else v
    case AcquireIdentity(l) =>
      WithIdentities(v, l, Identities(v, l) + 1)
    case ReleaseIdentity(l) =>
      var held := Identities(v, l);
      WithIdentities(v, l, if held > 0 then held - 1 else 0).(ok := v.ok && held > 0)
    case Register(l, succeeded) =>
      var callOk := v.ok && v.factoryRefs > 0 && Identities(v, l) > 0;
      if succeeded then
        WithRegistered(v, l, true).(ok := callOk && (l == CollectionLoader ==> v.fileRegistered))
      else
        v.(ok := callOk)
    case Unregister(l) =>
      WithRegistered(v, l, false).(
        ok := v.ok && v.factoryRefs > 0 && Identities(v, l) > 0
              && (l == FileLoader ==> !v.collectionRegistered))
    case ReleaseFactory =>
      v.(factoryRefs := if v.factoryRefs > 0 then v.factoryRefs - 1 else 0,
         ok := v.ok && v.factoryRefs > 0 && NoneRegistered(v))
    case CustomFileReference(_, _) =>
      v.(ok := v.ok && v.factoryRefs > 0 && v.fileIdentities > 0)
    case CustomCollection(_, _) =>
      v.(ok := v.ok && v.factoryRefs > 0 && v.collectionIdentities > 0)
    case FileReference(_, _) =>
      v.(ok := v.ok && v.factoryRefs > 0)
    case CreateFace(_, _, _, _) =>
      v.(ok := v.ok && v.factoryRefs > 0)
    case SystemCollection(_) =>
      v.(ok := v.ok && v.factoryRefs > 0)
    case QueryFileTime(_) => v
    case ScheduleCleanup => v
    case LegacyCheck(_) => v
    case Analyze(_) => v
  }

  /** The view after a whole log. */
  function Replay(log: seq<Event>): NativeView
    decreases |log|
  {
    if log == [] then INITIAL else Step(Replay(log[..|log| - 1]), log[|log| - 1])
  }

  /** How many native factories were successfully created. */
  function Creations(log: seq<Event>): nat
    decreases |log|
  {
    if log == [] then 0
    else Creations(log[..|log| - 1]) + (if log[|log| - 1].CreateFactory? && log[|log| - 1].succeeded then 1 else 0)
  }

  /** How many times a native factory reference was released. */
  function Releases(log: seq<Event>): nat
    decreases |log|
  {
    if log == [] then 0
    else Releases(log[..|log| - 1]) + (if log[|log| - 1] == ReleaseFactory then 1 else 0)
  }

  /** Appending one call replays that call on the view so far. */
  lemma ReplaySnoc(log: seq<Event>, e: Event)
    ensures Replay(log + [e]) == Step(Replay(log), e)
    ensures Creations(log + [e]) == Creations(log) + (if e.CreateFactory? && e.succeeded then 1 else 0)
    ensures Releases(log + [e]) == Releases(log) + (if e == ReleaseFactory then 1 else 0)
  {
    assert (log + [e])[..|log|] == log;
  }

  /** A call made through a loader's temporary identity, obtained just before it and
      released just after it, leaves the view as it was while a factory is held. */
  lemma StepThroughIdentity(v: NativeView, l: Loader, e: Event)
    requires v.factoryRefs > 0
    requires (l == FileLoader && e.CustomFileReference?) || (l == CollectionLoader && e.CustomCollection?)
    ensures Step(Step(Step(v, AcquireIdentity(l)), e), ReleaseIdentity(l)) == v
  {
  }

  /** Registering loader `l` through its temporary identity marks it registered when the
      engine accepts, and keeps to the protocol only if the file loader comes first. */
  lemma StepRegister(v: NativeView, l: Loader, succeeded: bool)
    requires v.factoryRefs > 0
    ensures Step(Step(Step(v, AcquireIdentity(l)), Register(l, succeeded)), ReleaseIdentity(l))
         == (if succeeded then WithRegistered(v, l, true) else v).(
              ok := v.ok && (succeeded && l == CollectionLoader ==> v.fileRegistered))
  {
  }

  /** Unregistering loader `l` through its temporary identity marks it unregistered, and keeps
      to the protocol only if the collection loader goes first. */
  lemma StepUnregister(v: NativeView, l: Loader)
    requires v.factoryRefs > 0
    ensures Step(Step(Step(v, AcquireIdentity(l)), Unregister(l)), ReleaseIdentity(l))
         == WithRegistered(v, l, false).(ok := v.ok && (l == FileLoader ==> !v.collectionRegistered))
  {
  }

  /** Releasing the only factory reference once no loader is registered leaves none held. */
  lemma StepReleaseFactory(v: NativeView)
    requires v.factoryRefs == 1 && NoneRegistered(v)
    ensures Step(v, ReleaseFactory) == v.(factoryRefs := 0)
  {
  }

  /** The facts a well-behaved log keeps, with `releases` and `creations` the counts so far. */
  ghost predicate Consistent(v: NativeView, releases: nat, creations: nat) {
    && (v.collectionRegistered ==> v.fileRegistered)
    && (!NoneRegistered(v) ==> v.factoryRefs > 0)
    && v.factoryRefs <= 1
    && releases + v.factoryRefs == creations
  }

  /** One call that keeps to the protocol keeps the facts. */
  lemma StepConsistent(v: NativeView, e: Event, releases: nat, creations: nat)
    requires Consistent(v, releases, creations)
    requires Step(v, e).ok
    ensures Consistent(Step(v, e),
                       releases + (if e == ReleaseFactory then 1 else 0),
                       creations + (if e.CreateFactory? && e.succeeded then 1 else 0))
  {
  }

  /** Whatever the façade does, as long as it keeps to the protocol: the collection loader is
      never registered without the file loader, no loader stays registered once the factory is
      gone, at most one factory reference is held, and every reference obtained is either still
      held or was released exactly once. */
  lemma {:induction false} ProtocolInvariant(log: seq<Event>)
    ensures Replay(log).ok ==> Consistent(Replay(log), Releases(log), Creations(log))
    decreases |log|
  {
    if log != [] {
      var prefix := log[..|log| - 1];
      var last := log[|log| - 1];
      if Replay(log).ok {
        assert Replay(prefix).ok;
        ProtocolInvariant(prefix);
        StepConsistent(Replay(prefix), last, Releases(prefix), Creations(prefix));
      }
    }
  }
}
