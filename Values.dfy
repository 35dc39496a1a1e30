/** Plain values shared by the model of the DirectWrite factory façade. */
module Values {

  datatype Option<+T> = None | Some(value: T)

  /** An unsigned 32-bit word (`DWORD`, `unsigned int`). */
  type UInt32 = x: int | 0 <= x < 0x1_0000_0000

  /** A Win32 `FILETIME`: a last-write time held as two 32-bit words. */
  datatype FileTime = FileTime(low: UInt32, high: UInt32)

  /** The parts of a `System::Uri` that the façade reads. `isLocal` is the verdict of
      `Factory::IsLocalUri`, which is not part of this model. */
  datatype Uri = Uri(absoluteUri: string, localPath: string, isLocal: bool)

  /** An opaque native object (a factory, font file, font face or collection interface). */
  type Handle = nat

  /** `FactoryType`: the kind of native factory requested from `DWriteCreateFactory`. */
  datatype FactoryType = Shared | Isolated

  /** `FontSimulations`: the synthetic style flags passed through to face creation. */
  datatype FontSimulations = FontSimulations(bold: bool, italic: bool)

  const NO_SIMULATIONS := FontSimulations(false, false)

  /** The collaborators given to the constructor (`IFontSourceFactory`,
      `IFontSourceCollectionFactory`); only their identity matters here. */
  datatype FontSourceFactory = FontSourceFactory(id: nat)
  datatype FontSourceCollectionFactory = FontSourceCollectionFactory(id: nat)

  /** The size in bytes of a key string handed to the engine: its UTF-16 units plus the
      terminating NUL, `(Length + 1) * sizeof(WCHAR)`. */
  function KeySize(key: string): nat {
    (|key| + 1) * 2
  }
}
