/** The integer encodings the host shares with the native library: the
    `SystemCapability` bit flags, the component event kinds and the async
    error codes. */
module Enums {
  import opened Native

  /** Access intent of a system over one component type. */
  datatype SystemCapability =
    | Readonly | Writeonly | ReadWrite
    | OptionalReadonly | OptionalWriteonly | OptionalReadWrite
    | Include | Exclude | Adds | Removes

  const ReadonlyValue: bv32 := 1
  const WriteonlyValue: bv32 := 2
  const ReadWriteValue: bv32 := 3
  const IncludeValue: bv32 := 8
  const ExcludeValue: bv32 := 16
  const OptionalBit: bv32 := 4
  const AddsBit: bv32 := 32
  const RemovesBit: bv32 := 64

  /** The `Int32` value of each capability, written as the source composes it. */
  function CapabilityValue(c: SystemCapability): bv32
  {
    match c
    case Readonly => ReadonlyValue
    case Writeonly => WriteonlyValue
    case ReadWrite => ReadWriteValue
    case OptionalReadonly => OptionalBit | ReadonlyValue
    case OptionalWriteonly => OptionalBit | WriteonlyValue
    case OptionalReadWrite => OptionalBit | ReadWriteValue
    case Include => IncludeValue
    case Exclude => ExcludeValue
    case Adds => AddsBit | ExcludeValue
    case Removes => RemovesBit | IncludeValue
  }

  /** The capability named by a value, if any member has it. */
  function CapabilityFromValue(v: bv32): Option<SystemCapability>
  {
    if v == 1 then Some(Readonly)
    else if v == 2 then Some(Writeonly)
    else if v == 3 then Some(ReadWrite)
    else if v == 5 then Some(OptionalReadonly)
    else if v == 6 then Some(OptionalWriteonly)
    else if v == 7 then Some(OptionalReadWrite)
    else if v == 8 then Some(Include)
    else if v == 16 then Some(Exclude)
    else if v == 48 then Some(Adds)
    else if v == 72 then Some(Removes)
    else None
  }

  /** True when every bit of `flag` is set in `v`. */
  predicate HasBits(v: bv32, flag: bv32)
  {
    v & flag == flag
  }

  /** Decoding a capability's value gives the capability back, so no two
      capabilities share a value. */
  lemma CapabilityRoundTrip(c: SystemCapability)
    ensures CapabilityFromValue(CapabilityValue(c)) == Some(c)
  {
  }

  lemma CapabilityValuesDistinct(c: SystemCapability, d: SystemCapability)
    requires c != d
    ensures CapabilityValue(c) != CapabilityValue(d)
  {
    CapabilityRoundTrip(c);
    CapabilityRoundTrip(d);
  }

  /** The bit structure of the flags: read-write is read plus write; each
      optional mode is its base mode plus the optional bit; `Adds` carries
      the `Exclude` bit and `Removes` the `Include` bit. */
  lemma CapabilityComposition()
    ensures CapabilityValue(ReadWrite) == CapabilityValue(Readonly) | CapabilityValue(Writeonly)
    ensures forall c :: c in {Readonly, Writeonly, ReadWrite} ==>
      CapabilityValue(Optional(c)) == OptionalBit | CapabilityValue(c)
      && !HasBits(CapabilityValue(c), OptionalBit)
    ensures HasBits(CapabilityValue(Adds), CapabilityValue(Exclude))
    ensures HasBits(CapabilityValue(Removes), CapabilityValue(Include))
    ensures !HasBits(CapabilityValue(Adds), CapabilityValue(Include))
    ensures !HasBits(CapabilityValue(Removes), CapabilityValue(Exclude))
  {
  }

  /** The optional variant of a base access mode. */
  function Optional(c: SystemCapability): SystemCapability
  {
    match c
    case Readonly => OptionalReadonly
    case Writeonly => OptionalWriteonly
    case ReadWrite => OptionalReadWrite
    case _ => c
  }

  /** The three component lifecycle events and their `EcsactEvent` codes. */
  datatype EventKind = InitEvent | UpdateEvent | RemoveEvent

  function EventCode(k: EventKind): int
  {
    match k
    case InitEvent => 0
    case UpdateEvent => 1
    case RemoveEvent => 2
  }

  /** The event kind an `EcsactEvent` code names, if any. */
  function EventKindFromCode(code: int): (r: Option<EventKind>)
    ensures r.Some? <==> 0 <= code <= 2
  {
    if code == 0 then Some(InitEvent)
    else if code == 1 then Some(UpdateEvent)
    else if code == 2 then Some(RemoveEvent)
    else None
  }

  /** Each kind's code decodes back to it, and every code in range is some
      kind's code. */
  lemma EventCodeRoundTrip(k: EventKind, code: int)
    ensures EventKindFromCode(EventCode(k)) == Some(k)
    ensures EventKindFromCode(code).Some? ==> EventCode(EventKindFromCode(code).value) == code
  {
  }

  /** The async error kinds and their `AsyncError` codes, in declaration order. */
  datatype AsyncError =
    | ConnectionClosed | ConnectFail | SocketFail
    | StateFail | StartFail | InvalidConnectionString

  function AsyncErrorCode(e: AsyncError): int
  {
    match e
    case ConnectionClosed => 0
    case ConnectFail => 1
    case SocketFail => 2
    case StateFail => 3
    case StartFail => 4
    case InvalidConnectionString => 5
  }

  function AsyncErrorFromCode(code: int): (r: Option<AsyncError>)
    ensures r.Some? <==> 0 <= code <= 5
  {
    if code == 0 then Some(ConnectionClosed)
    else if code == 1 then Some(ConnectFail)
    else if code == 2 then Some(SocketFail)
    else if code == 3 then Some(StateFail)
    else if code == 4 then Some(StartFail)
    else if code == 5 then Some(InvalidConnectionString)
    else None
  }

  lemma AsyncErrorRoundTrip(e: AsyncError)
    ensures AsyncErrorFromCode(AsyncErrorCode(e)) == Some(e)
  {
  }
}
