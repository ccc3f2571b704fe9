/** Outbox rows, jobs, audit events, and the ids events carry. */
module AuditEvents {
  import opened Common

  const BUSINESS_SOURCE := "business-service"
  const CREATED := "business.item.created"
  const UPDATED := "business.item.updated"
  const DELETED := "business.item.deleted"

  lemma KindsDiffer()
    ensures CREATED != UPDATED && UPDATED != DELETED && CREATED != DELETED
  {}

  /** The value under one key of a JSON object, as far as the readers here tell values apart. */
  datatype Json = JString(text: string) | JOther(code: int)

  /** A payload column as the dispatcher's decoder finds it. */
  datatype Payload = NoBytes | JsonNull | Fields(fields: map<string, Json>) | NotAnObject

  /** A committed row of business_outbox, without its published_at column. */
  datatype OutboxRow = OutboxRow(id: string, eventType: string, payload: Payload, createdAt: int)

  /** An audit event. Time counts from Go's zero time, so 0 is the zero time. */
  datatype Event = Event(id: string, source: string, eventType: string, subject: string, time: int,
                         tenant: string, actor: string, data: map<string, Json>)

  /** The envelope of a job on the platform work queue. */
  datatype Job = Job(id: string, kind: string, actor: string, tenant: string, payload: map<string, Json>)

  /** v, _ := data[key].(string): anything but a string reads as empty. */
  function TextField(fields: map<string, Json>, key: string): (text: string) {
    if key in fields && fields[key].JString? then fields[key].text else ""
  }

  function PayloadFields(payload: Payload): (fields: map<string, Json>) {
    if payload.Fields? then payload.fields else map[]
  }

  function ItemOf(row: OutboxRow): (id: string) { TextField(PayloadFields(row.payload), "item_id") }

  function RowToEvent(row: OutboxRow): (event: Option<Event>) {
    if row.payload.NotAnObject? then None
    else
      var data := PayloadFields(row.payload);
      var item := TextField(data, "item_id");
      Some(Event(row.id, BUSINESS_SOURCE, row.eventType, if item != "" then "item:" + item else "",
                 row.createdAt, TextField(data, "tenant_id"), TextField(data, "actor_user_id"), data))
  }

  /** What HTTPEmitter.Emit demands before it posts. */
  predicate Emittable(e: Event) { e.id != "" && e.source != "" && e.eventType != "" }

  /** What the ingest handler demands before it inserts; fits says that the body is within
      the 1 MiB limit and that the data round-trips through the protobuf contract. */
  predicate Acceptable(e: Event, fits: Event -> bool) { Emittable(e) && e.time != 0 && fits(e) }

  /** Rows whose event can reach the audit table at all. */
  predicate Deliverable(row: OutboxRow, fits: Event -> bool) {
    var e := RowToEvent(row);
    e.Some? && Acceptable(e.value, fits)
  }

  // Ids. Postgres prints a uuid as 8-4-4-4-12 hex digits; audit.newID gives 32 hex digits;
  // the webhook gives "logto-" and 64 hex digits.

  predicate IsHex(s: string) {
    forall c :: c in s ==> '0' <= c <= '9' || 'a' <= c <= 'f'
  }

  predicate IsUuidText(s: string) {
    |s| == 36 && s[8] == '-' && s[13] == '-' && s[18] == '-' && s[23] == '-'
    && IsHex(s[..8]) && IsHex(s[9..13]) && IsHex(s[14..18]) && IsHex(s[19..23]) && IsHex(s[24..])
  }

  predicate IsForeignId(s: string) {
    (|s| == 32 && IsHex(s)) || (|s| == 70 && s[..6] == "logto-" && IsHex(s[6..]))
  }

  /** No event of the gateway or of auth-service can carry the id of an outbox row. */
  lemma IdsAreDisjoint(s: string)
    ensures !(IsUuidText(s) && IsForeignId(s))
  {}

  /** text is the string under the key, and empty when there is no string under it. */
  predicate Holds(data: map<string, Json>, key: string, text: string) {
    if key in data && data[key].JString? then text == data[key].text else text == ""
  }

  /** The event tells what the row tells: when it was written, the payload, and from it tenant, actor and
      item. */
  predicate Describes(e: Event, row: OutboxRow) {
    && e.id == row.id && e.eventType == row.eventType && e.time == row.createdAt && e.source == "business-service"
    && (row.payload.Fields? ==> e.data == row.payload.fields)
    && (row.payload.NoBytes? || row.payload.JsonNull? ==> e.data == map[])
    && !row.payload.NotAnObject?
    && Holds(e.data, "tenant_id", e.tenant) && Holds(e.data, "actor_user_id", e.actor)
    && (e.subject == "" <==> Holds(e.data, "item_id", ""))
    && (e.subject != "" ==> "item:" <= e.subject && Holds(e.data, "item_id", e.subject[5..]))
  }

  /** Every row but one whose payload is no object has an event, which describes it. */
  lemma EventDescribesRow(row: OutboxRow)
    ensures RowToEvent(row).None? <==> row.payload.NotAnObject?
    ensures RowToEvent(row).Some? ==> Describes(RowToEvent(row).value, row)
  {}
}
