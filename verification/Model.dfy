/** The canonical table model every format is translated through (pkg/model). */
module Model {
  import opened Common

  datatype Precision = Millis | Micros | Nanos

  /** Scalar types with the type-specific metadata the adapters read. */
  datatype Atom =
    | Boolean | Int | Long | Float | Double | String | Enum | Uuid | Bytes
    | Fixed(size: Option<int>)
    | Date
    | Timestamp(unit: Option<Precision>)
    | TimestampNtz(unit: Option<Precision>)
    | Decimal(precision: int, scale: int)
    | Union | Null

  datatype Schema =
    | Scalar(atom: Atom, nullable: bool)
    | Record(fields: seq<Field>, nullable: bool)
    | ListOf(element: Schema, nullable: bool)
    | MapOf(key: Schema, value: Schema, nullable: bool)

  datatype Field = Field(name: string, id: Option<int>, schema: Schema)

  /** A partition column; `identity` is false for the year/month/day/hour transforms. */
  datatype PartitionField = PartitionField(name: string, schema: Schema, identity: bool)

  datatype Table = Table(fields: seq<Field>, partitions: seq<PartitionField>)

  /** The sync watermark a target persists: the derived instant and version of the last commit synced. */
  datatype SyncMetadata = SyncMetadata(instant: int, source: int)
}
