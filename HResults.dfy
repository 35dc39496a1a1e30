/** COM status codes and the errors the façade raises. */
module HResults {
  import opened Values

  /** A COM `HRESULT`: a signed 32-bit status code. */
  type HResult = x: int | -0x8000_0000 <= x < 0x8000_0000

  /** The `FAILED` macro: the severity bit, which is the sign bit, is set. */
  predicate Failed(hr: HResult) {
    hr < 0
  }

  /** Reads a 32-bit pattern, written as in the SDK headers, as the signed code it denotes. */
  function FromBits(u: UInt32): (hr: HResult)
    ensures (hr + 0x1_0000_0000) % 0x1_0000_0000 == u
    ensures Failed(hr) <==> u >= 0x8000_0000
  {
    if u < 0x8000_0000 then u else u - 0x1_0000_0000
  }

  /** The 32-bit pattern of a code; `FromBits` undoes it. */
  function ToBits(hr: HResult): (u: UInt32)
    ensures FromBits(u) == hr
    ensures u >= 0x8000_0000 <==> Failed(hr)
  {
    if hr >= 0 then hr else hr + 0x1_0000_0000
  }

  /** `DWRITE_E_FILEFORMAT` of dwrite.h: severity error, facility 0x898, code 0x5000. */
  const DWRITE_E_FILEFORMAT: HResult := FromBits(0x8898_5000)

  /** What the legacy `IFontSource::TestFileOpenable` check can raise. */
  datatype LegacyFailure = FileNotFound | UnauthorizedAccess | FileFormat | OtherIO

  datatype Error =
    | HResultError(hr: HResult, site: string)   // raised by ConvertHresultToException
    | ArgumentOutOfRange(paramName: string)     // System::ArgumentOutOfRangeException
    | LegacyError(failure: LegacyFailure)       // raised by the legacy font source

  datatype Result<+T> = Ok(value: T) | Err(error: Error)

  /** `ConvertHresultToException(hr, site)`: a failure code becomes an error that carries
      the code and the call site; any success code passes. */
  function CheckHResult(hr: HResult, site: string): (r: Result<()>)
    ensures r.Ok? <==> !Failed(hr)
    ensures r.Err? ==> r.error == HResultError(hr, site)
  {
    if Failed(hr) then Err(HResultError(hr, site)) else Ok(())
  }

  /** The legacy re-validation chain: when the legacy check raises, its specific error
      wins; when it passes, the native failure code is what gets converted. */
  function FallbackError(legacy: Option<LegacyFailure>, hr: HResult, site: string): Error {
    if legacy.Some? then LegacyError(legacy.value) else HResultError(hr, site)
  }

  /** The answer of one native call: its status code and, on success, the object it made. */
  datatype Reply = Reply(hr: HResult, out: Handle)
}
