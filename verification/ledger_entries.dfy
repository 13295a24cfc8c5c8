/**
 Reading ledger rows written by newer or older versions: typed entries where the reader
 knows the type and version, wrappers that lose nothing where it does not.
 */
module LedgerEntries {
  import opened SharedTypes

  datatype Json =
    | Null
    | Bool(flag: bool)
    | Number(number: real)
    | String(text: string)
    | Array(items: seq<Json>)
    | Object(fields: map<string, Json>)

  /** A row's payload column: missing, text that does not parse, or a parsed value. */
  datatype Column = Absent | Malformed | Parsed(json: Json)

  /** The type column may be missing, and may hold any value. */
  datatype Row = Row(entryType: Option<Json>, payload: Column)

  /** A reader: its registry of entry types with their latest schema versions, and the
      validation of the base fields, which may convert or refuse a value. */
  datatype Reader = Reader(registry: map<string, int>, coerce: (string, Json) -> Option<Json>)

  /** An unknown entry as held in memory; `base` has the four base fields. */
  datatype Wrapper = Wrapper(rawEntryType: string, rawPayload: map<string, Json>, base: map<string, Json>)

  datatype Error = ValueError | TypeError | ValidationError

  /** `Typed` stands for whatever validating the payload as the registered class yields. */
  datatype Entry =
    | Typed(entryType: string, payload: map<string, Json>)
    | Wrapped(wrapper: Wrapper)
    | Failed(error: Error)

  const UNKNOWN := "unknown"
  const BASE_FIELDS: set<string> := {"entry_id", "schema_version", "timestamp", "metadata"}

  /** Numbers compare, and so do the booleans; nothing else does. */
  function AsNumber(j: Json): Option<real> {
    match j
    case Number(n) => Some(n)
    case Bool(b) => Some(if b then 1.0 else 0.0)
    case _ => None
  }

  /** The discriminator and payload a row stands for, one wrapper removed. */
  datatype Resolution = Resolution(entryType: Json, payload: map<string, Json>) | Unreadable

  function Resolve(row: Row): Resolution {
    if !row.payload.Parsed? || !row.payload.json.Object? then Unreadable
    else
      var entryType := match row.entryType case None => String("") case Some(t) => t;
      var payload := row.payload.json.fields;
      if entryType == String(UNKNOWN) && "raw_entry_type" in payload && "raw_payload" in payload then
        Resolution(payload["raw_entry_type"],
                   if payload["raw_payload"].Object? then payload["raw_payload"].fields else map[])
      else Resolution(entryType, payload)
  }

  function SchemaVersion(payload: map<string, Json>): Json {
    if "schema_version" in payload then payload["schema_version"] else Number(1.0)
  }

  function Defaults(now: Json): map<string, Json> {
    map["entry_id" := Number(0.0), "schema_version" := Number(1.0), "timestamp" := now, "metadata" := Object(map[])]
  }

  /** The base fields of a wrapper: lifted where the payload has them, defaulted elsewhere. */
  function BaseFields(reader: Reader, payload: map<string, Json>, now: Json): Option<map<string, Json>> {
    if exists k :: k in BASE_FIELDS && k in payload && reader.coerce(k, payload[k]) == None then None
    else Some(Defaults(now) +
              map k | k in BASE_FIELDS && k in payload && reader.coerce(k, payload[k]).Some? ::
                reader.coerce(k, payload[k]).value)
  }

  function Wrap(reader: Reader, entryType: Json, payload: map<string, Json>, now: Json): Entry {
    var base := BaseFields(reader, payload, now);
    if !entryType.String? || base.None? then Failed(ValidationError)
    else Wrapped(Wrapper(entryType.text, payload, base.value))
  }

  /** `deserialize_entry` for the given reader and clock. */
  function DeserializeEntry(reader: Reader, row: Row, now: Json): Entry {
    match Resolve(row)
    case Unreadable => Failed(ValueError)
    case Resolution(entryType, payload) =>
      if entryType.Array? || entryType.Object? then Failed(TypeError)
      else if entryType.String? && entryType.text in reader.registry then
        match AsNumber(SchemaVersion(payload))
        case None => Failed(TypeError)
        case Some(version) =>
          if version <= reader.registry[entryType.text] as real then Typed(entryType.text, payload)
          else Wrap(reader, entryType, payload, now)
      else Wrap(reader, entryType, payload, now)
  }

  /** The row that storing a wrapper writes. */
  function WriteBack(w: Wrapper): Row {
    Row(Some(String(UNKNOWN)), Parsed(Object(w.base + map[
      "entry_type" := String(UNKNOWN),
      "raw_entry_type" := String(w.rawEntryType),
      "raw_payload" := Object(w.rawPayload)])))
  }

  // ----- nothing is lost -----

  /** Storing a wrapper keeps the discriminator and payload the original row stood for. */
  lemma WriteBackResolves(reader: Reader, row: Row, now: Json)
    requires DeserializeEntry(reader, row, now).Wrapped?
    ensures var w := DeserializeEntry(reader, row, now).wrapper;
      && Resolve(row) == Resolution(String(w.rawEntryType), w.rawPayload)
      && Resolve(WriteBack(w)) == Resolve(row)
  {
  }

  /** Any reader reads the stored wrapper exactly as it reads the original row. */
  lemma OldReaderLosesNothing(older: Reader, row: Row, now: Json, reader: Reader, later: Json)
    requires DeserializeEntry(older, row, now).Wrapped?
    ensures var w := DeserializeEntry(older, row, now).wrapper;
            DeserializeEntry(reader, WriteBack(w), later) == DeserializeEntry(reader, row, later)
  {
    WriteBackResolves(older, row, now);
  }

  datatype Visit = Visit(reader: Reader, now: Json)

  /** The row after each visitor in turn has read it and, having wrapped it, stored it. */
  function Visited(row: Row, visits: seq<Visit>): Row
    decreases |visits|
  {
    if visits == [] then row
    else
      var entry := DeserializeEntry(visits[0].reader, row, visits[0].now);
      Visited(if entry.Wrapped? then WriteBack(entry.wrapper) else row, visits[1..])
  }

  /** Whoever read and stored the row before, in whatever number and version, every reader
      still reads what it would have read from the original. */
  lemma {:induction false} VisitsLoseNothing(row: Row, visits: seq<Visit>, reader: Reader, now: Json)
    ensures DeserializeEntry(reader, Visited(row, visits), now) == DeserializeEntry(reader, row, now)
    decreases |visits|
  {
    if visits != [] {
      var entry := DeserializeEntry(visits[0].reader, row, visits[0].now);
      if entry.Wrapped? {
        OldReaderLosesNothing(visits[0].reader, row, visits[0].now, reader, now);
        VisitsLoseNothing(WriteBack(entry.wrapper), visits[1..], reader, now);
      } else {
        VisitsLoseNothing(row, visits[1..], reader, now);
      }
    }
  }

  /** A reader that has learnt the type and version recovers the original payload. */
  lemma UpgradeRecovers(row: Row, entryType: string, payload: map<string, Json>, visits: seq<Visit>,
                      reader: Reader, now: Json)
    requires row == Row(Some(String(entryType)), Parsed(Object(payload))) && entryType != UNKNOWN
    requires entryType in reader.registry
    requires var version := AsNumber(SchemaVersion(payload));
             version.Some? && version.value <= reader.registry[entryType] as real
    ensures DeserializeEntry(reader, Visited(row, visits), now) == Typed(entryType, payload)
  {
    VisitsLoseNothing(row, visits, reader, now);
  }

  /** Levels of wrapping in a row's payload. */
  function Nesting(j: Json): nat {
    if j.Object? && "raw_entry_type" in j.fields && "raw_payload" in j.fields
    then 1 + Nesting(j.fields["raw_payload"]) else 0
  }

  /** Wrappers never pile up: reading and storing again yields the same discriminator and
      payload, and a row that has been stored once is never nested deeper by later visits. */
  lemma {:induction false} WrappersNeverNest(row: Row, visits: seq<Visit>, reader: Reader, now: Json)
    requires DeserializeEntry(reader, row, now).Wrapped?
    ensures var w := DeserializeEntry(reader, row, now).wrapper;
      var again := DeserializeEntry(reader, Visited(WriteBack(w), visits), now);
      && again == DeserializeEntry(reader, row, now)
      && Nesting(Visited(WriteBack(w), visits).payload.json) == 1 + Nesting(Object(w.rawPayload))
  {
    var w := DeserializeEntry(reader, row, now).wrapper;
    OldReaderLosesNothing(reader, row, now, reader, now);
    VisitsLoseNothing(WriteBack(w), visits, reader, now);
    StoredShape(w, visits);
  }

  /** After a first storing the row keeps its shape: only the outer base fields change. */
  lemma {:induction false} StoredShape(w: Wrapper, visits: seq<Visit>)
    ensures exists base :: Visited(WriteBack(w), visits) == WriteBack(w.(base := base))
    ensures Visited(WriteBack(w), visits).payload.Parsed?
    ensures Nesting(Visited(WriteBack(w), visits).payload.json) == 1 + Nesting(Object(w.rawPayload))
    decreases |visits|
  {
    assert w.(base := w.base) == w;
    if visits != [] {
      var entry := DeserializeEntry(visits[0].reader, WriteBack(w), visits[0].now);
      if entry.Wrapped? {
        WriteBackResolves(visits[0].reader, WriteBack(w), visits[0].now);
        StoredShape(entry.wrapper, visits[1..]);
        var base :| Visited(WriteBack(entry.wrapper), visits[1..]) == WriteBack(entry.wrapper.(base := base));
        assert entry.wrapper.(base := base) == w.(base := base);
      } else {
        StoredShape(w, visits[1..]);
      }
    }
  }

  /** A readable row is wrapped only for a reason: the type is not registered, or its
      version is newer than the reader knows. */
  lemma WrapsOnlyWhatItCannotRead(reader: Reader, row: Row, now: Json)
    requires DeserializeEntry(reader, row, now).Wrapped?
    ensures var w := DeserializeEntry(reader, row, now).wrapper;
      && (w.rawEntryType !in reader.registry
          || AsNumber(SchemaVersion(w.rawPayload)).value > reader.registry[w.rawEntryType] as real)
      && (forall k :: k in BASE_FIELDS && k in w.rawPayload ==>
            Some(w.base[k]) == reader.coerce(k, w.rawPayload[k]))
      && w.base.Keys == BASE_FIELDS
  {
  }

  // ----- what is read -----

  /** None of the base fields that are present is refused. */
  predicate BaseAccepted(reader: Reader, payload: map<string, Json>) {
    && ("entry_id" in payload ==> reader.coerce("entry_id", payload["entry_id"]).Some?)
    && ("schema_version" in payload ==> reader.coerce("schema_version", payload["schema_version"]).Some?)
    && ("timestamp" in payload ==> reader.coerce("timestamp", payload["timestamp"]).Some?)
    && ("metadata" in payload ==> reader.coerce("metadata", payload["metadata"]).Some?)
  }

  /** The entry wraps this type and payload, with the base fields taken from the payload where
      they are there: otherwise the id is zero, the version one, the time now, and there is no
      metadata. */
  ghost predicate Wraps(entry: Entry, reader: Reader, t: string, payload: map<string, Json>, now: Json) {
    && entry.Wrapped? && entry.wrapper.rawEntryType == t && entry.wrapper.rawPayload == payload
    && entry.wrapper.base.Keys == {"entry_id", "schema_version", "timestamp", "metadata"}
    && (forall k :: k in entry.wrapper.base && k in payload ==>
          Some(entry.wrapper.base[k]) == reader.coerce(k, payload[k]))
    && ("entry_id" !in payload ==> entry.wrapper.base["entry_id"] == Number(0.0))
    && ("schema_version" !in payload ==> entry.wrapper.base["schema_version"] == Number(1.0))
    && ("timestamp" !in payload ==> entry.wrapper.base["timestamp"] == now)
    && ("metadata" !in payload ==> entry.wrapper.base["metadata"] == Object(map[]))
  }

  /** A row of a type that the reader does not know is wrapped, whatever is in it, unless a base
      field is refused. */
  lemma UnregisteredIsWrapped(reader: Reader, t: string, payload: map<string, Json>, now: Json)
    requires t !in reader.registry && t != "unknown"
    ensures var entry := DeserializeEntry(reader, Row(Some(String(t)), Parsed(Object(payload))), now);
      if BaseAccepted(reader, payload) then Wraps(entry, reader, t, payload, now)
      else entry == Failed(ValidationError)
  {
    WrapIsExact(reader, t, payload, now);
  }

  lemma WrapIsExact(reader: Reader, t: string, payload: map<string, Json>, now: Json)
    ensures if BaseAccepted(reader, payload) then Wraps(Wrap(reader, String(t), payload, now), reader, t, payload, now)
            else Wrap(reader, String(t), payload, now) == Failed(ValidationError)
  {
    BaseFieldsExact(reader, payload, now);
  }

  lemma BaseFieldsExact(reader: Reader, payload: map<string, Json>, now: Json)
    ensures BaseAccepted(reader, payload) <==> BaseFields(reader, payload, now).Some?
  {
    if BaseFields(reader, payload, now).None? {
      var k :| k in BASE_FIELDS && k in payload && reader.coerce(k, payload[k]) == None;
      assert k == "entry_id" || k == "schema_version" || k == "timestamp" || k == "metadata";
    } else {
      forall k | k in BASE_FIELDS && k in payload ensures reader.coerce(k, payload[k]).Some? {
      }
      assert "entry_id" in BASE_FIELDS && "schema_version" in BASE_FIELDS;
      assert "timestamp" in BASE_FIELDS && "metadata" in BASE_FIELDS;
    }
  }

  /** A row of a known type is read as that type when its version, one by default, is not newer
      than the reader knows, and wrapped when it is. */
  lemma VersionDecides(reader: Reader, t: string, payload: map<string, Json>, version: real, now: Json)
    requires t in reader.registry && t != "unknown"
    requires if "schema_version" in payload then payload["schema_version"] == Number(version) else version == 1.0
    ensures var entry := DeserializeEntry(reader, Row(Some(String(t)), Parsed(Object(payload))), now);
      if version <= reader.registry[t] as real then entry == Typed(t, payload)
      else if BaseAccepted(reader, payload) then Wraps(entry, reader, t, payload, now)
      else entry == Failed(ValidationError)
  {
    WrapIsExact(reader, t, payload, now);
  }

  /** A complete wrapper row is read as the row it wraps; if its payload is no dictionary, as a
      row with an empty one. */
  lemma WrapperIsUnwrapped(reader: Reader, t: string, payload: map<string, Json>, now: Json)
    requires t != "unknown"
    requires "raw_entry_type" in payload && payload["raw_entry_type"] == String(t) && "raw_payload" in payload
    ensures var inner := if payload["raw_payload"].Object? then payload["raw_payload"].fields else map[];
      DeserializeEntry(reader, Row(Some(String("unknown")), Parsed(Object(payload))), now)
      == DeserializeEntry(reader, Row(Some(String(t)), Parsed(Object(inner))), now)
  {
  }

  /** A partial wrapper row is wrapped as it stands, as of the type "unknown"; so is a wrapper of
      a wrapper, one level down, and a row without a type is of the empty type. */
  lemma PartialIsWrapped(reader: Reader, payload: map<string, Json>, now: Json)
    requires "unknown" !in reader.registry && BaseAccepted(reader, payload)
    ensures "raw_entry_type" !in payload || "raw_payload" !in payload ==>
              Wraps(DeserializeEntry(reader, Row(Some(String("unknown")), Parsed(Object(payload))), now),
                    reader, "unknown", payload, now)
    ensures var outer := map["raw_entry_type" := String("unknown"), "raw_payload" := Object(payload)];
      Wraps(DeserializeEntry(reader, Row(Some(String("unknown")), Parsed(Object(outer))), now),
            reader, "unknown", payload, now)
    ensures DeserializeEntry(reader, Row(None, Parsed(Object(payload))), now)
            == DeserializeEntry(reader, Row(Some(String("")), Parsed(Object(payload))), now)
  {
    WrapIsExact(reader, "unknown", payload, now);
  }

  /** What is stored for a wrapper: its base fields, its own type, and the original's type and
      payload. */
  lemma StoredRow(w: Wrapper)
    requires w.base.Keys == {"entry_id", "schema_version", "timestamp", "metadata"}
    ensures var row := WriteBack(w);
      && row.entryType == Some(String("unknown")) && row.payload.Parsed? && row.payload.json.Object?
      && (var stored := row.payload.json.fields;
          && stored.Keys == w.base.Keys + {"entry_type", "raw_entry_type", "raw_payload"}
          && stored["entry_type"] == String("unknown") && stored["raw_entry_type"] == String(w.rawEntryType)
          && stored["raw_payload"] == Object(w.rawPayload)
          && forall k :: k in w.base ==> stored[k] == w.base[k])
  {
    assert "entry_type" !in w.base && "raw_entry_type" !in w.base && "raw_payload" !in w.base;
  }

  /** A row is unreadable exactly when its payload is missing, malformed or no dictionary. */
  lemma UnreadableIff(reader: Reader, row: Row, now: Json)
    ensures DeserializeEntry(reader, row, now) == Failed(ValueError) <==>
            !(row.payload.Parsed? && row.payload.json.Object?)
  {
  }

  /** A known type with a version that is no number cannot be compared; a type that is a list or
      a dictionary cannot be looked up; one that is no string otherwise cannot be wrapped. */
  lemma OddTypesAndVersions(reader: Reader, row: Row, now: Json)
    requires row.payload.Parsed? && row.payload.json.Object? && row.entryType.Some?
    requires row.entryType.value != String("unknown")
    ensures var t, payload := row.entryType.value, row.payload.json.fields;
      && (t.Array? || t.Object? ==> DeserializeEntry(reader, row, now) == Failed(TypeError))
      && (t.Null? || t.Bool? || t.Number? ==> DeserializeEntry(reader, row, now) == Failed(ValidationError))
      && (t.String? && t.text in reader.registry && "schema_version" in payload
          && !payload["schema_version"].Number? && !payload["schema_version"].Bool? ==>
            DeserializeEntry(reader, row, now) == Failed(TypeError))
  {
  }
}
