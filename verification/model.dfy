/**
 * The domain values the bundle decoder produces, and the outside code it
 * calls.
 *
 * Floating-point numbers are opaque: a double is known only by where it
 * came from (an integer, a literal's text, or NaN).  The query, document
 * and value types keep exactly the attributes the decoder fills in.
 */
module Model {
  import opened Wrappers
  import opened Numbers

  newtype byte = x: int | 0 <= x < 256

  /** An opaque double: the conversion of an integer, a number as written, or NaN. */
  datatype Double = FromInteger(i: int) | FromText(text: string) | NaN

  const Zero: Double := FromInteger(0)

  /** Seconds since the Unix epoch and nanoseconds within the second. */
  datatype Timestamp = Timestamp(seconds: int, nanos: int)

  const Epoch: Timestamp := Timestamp(0, 0)

  datatype SnapshotVersion = SnapshotVersion(timestamp: Timestamp)

  /** `absl::Time` as returned by `absl::ParseTime`. */
  datatype Instant = Instant(unixSeconds: int, nanos: int)

  type ResourcePath = seq<string>

  datatype FieldPath = FieldPath(segments: seq<string>)

  const EmptyFieldPath: FieldPath := FieldPath([])

  datatype DocumentKey = DocumentKey(path: ResourcePath)

  datatype FieldValue =
    | Null
    | BooleanValue(b: bool)
    | IntegerValue(i: int)
    | DoubleValue(d: Double)
    | TimestampValue(t: Timestamp)
    | StringValue(s: string)
    | BlobValue(bytes: seq<byte>)
    | ReferenceValue(project: string, database: string, key: DocumentKey)
    | GeoPointValue(latitude: Double, longitude: Double)
    | ArrayValue(values: seq<FieldValue>)
    | MapValue(fields: map<string, FieldValue>)

  /** The ten comparison operators of a field filter. */
  datatype Operator =
    | LessThan
    | LessThanOrEqual
    | Equal
    | NotEqual
    | GreaterThanOrEqual
    | GreaterThan
    | ArrayContains
    | In
    | ArrayContainsAny
    | NotIn

  datatype Filter = FieldFilter(field: FieldPath, op: Operator, value: FieldValue)

  /** `InvalidFilter()`: a filter built from value-initialised arguments. */
  const InvalidFilter: Filter := FieldFilter(EmptyFieldPath, LessThan, Null)

  datatype Direction = Ascending | Descending

  datatype OrderBy = OrderBy(field: FieldPath, direction: Direction)

  datatype Bound = Bound(position: seq<FieldValue>, before: bool)

  /** `LimitType`; `Unspecified` is the source's `LimitType::None`. */
  datatype LimitType = Unspecified | First | Last

  /** `Target::kNoLimit`, the largest 32-bit signed integer. */
  const NoLimit: int := 0x7fff_ffff

  datatype Target = Target(
    path: ResourcePath,
    collectionGroup: Option<string>,
    filters: seq<Filter>,
    orderBy: seq<OrderBy>,
    limit: int,
    startAt: Option<Bound>,
    endAt: Option<Bound>)

  datatype BundledQuery = BundledQuery(target: Target, limitType: LimitType)

  datatype BundleMetadata = BundleMetadata(
    id: string,
    version: int,
    createTime: SnapshotVersion,
    totalDocuments: int,
    totalBytes: int)

  datatype NamedQuery = NamedQuery(name: string, bundledQuery: BundledQuery, readTime: SnapshotVersion)

  datatype BundledDocumentMetadata = BundledDocumentMetadata(
    key: DocumentKey,
    readTime: SnapshotVersion,
    documentExists: bool,
    queries: seq<string>)

  datatype DocumentState = Synced | HasLocalMutations | HasCommittedMutations

  datatype Document = Document(
    data: map<string, FieldValue>,
    key: DocumentKey,
    version: SnapshotVersion,
    state: DocumentState)

  datatype BundleDocument = BundleDocument(document: Document)

  // Default-constructed results, handed back after a failure; callers that
  // check `ok()` never look at them.
  const NoVersion: SnapshotVersion := SnapshotVersion(Epoch)
  const EmptyTarget: Target := Target([], None, [], [], NoLimit, None, None)
  const DefaultBundledQuery: BundledQuery := BundledQuery(EmptyTarget, Unspecified)
  const DefaultBundleMetadata: BundleMetadata := BundleMetadata("", 0, NoVersion, 0, 0)
  const DefaultNamedQuery: NamedQuery := NamedQuery("", DefaultBundledQuery, NoVersion)
  const DefaultDocumentMetadata: BundledDocumentMetadata :=
    BundledDocumentMetadata(DocumentKey([]), NoVersion, false, [])
  const DefaultBundleDocument: BundleDocument :=
    BundleDocument(Document(map[], DocumentKey([]), NoVersion, Synced))

  /**
   * Library functions the decoder calls but does not define: absl's time,
   * base-64 and floating-point parsers, the field-path and resource-path
   * parsers, and the range checks that turn raw seconds and nanoseconds
   * into a timestamp.  Failures carry the library's message.
   */
  datatype Library = Library(
    simpleAtod: string -> Option<Double>,
    parseTime: string -> Result<Instant, string>,
    timestampFromTime: Instant -> Result<Timestamp, string>,
    timestampFromSecondsAndNanos: (int, int) -> Result<Timestamp, string>,
    base64Unescape: string -> Option<seq<byte>>,
    fieldPathFromServerFormat: string -> Result<FieldPath, string>,
    resourcePathFromString: string -> ResourcePath)

  /**
   * The wire-protocol serializer the bundle serializer holds: it decides
   * whether a resource name belongs to the configured project and database,
   * and turns a reference string into a value (recording its own failure,
   * if any).
   */
  datatype RpcSerializer = RpcSerializer(
    isLocalResourceName: ResourcePath -> bool,
    decodeReference: string -> (FieldValue, Option<string>))
}
