/** The `message` table as a value, and what each statement the message service
    runs does to it. The service class is proved to behave as these functions
    say; the lemmas here state what the service promises across calls. */
module MessageTable {
  import opened Model

  /** The table's rows by `message_id`, and the next key the auto-increment
      column will hand out. */
  datatype Table = Table(rows: map<int, Message>, nextId: int)

  /** The table after an operation, and what the operation returned. */
  datatype Step<+T> = Step(table: Table, result: T)

  /** What holds of every table the service can produce: each row is stored
      under its own id, below the next generated key, and has valid text. */
  ghost predicate Inv(t: Table)
  {
    forall id | id in t.rows :: t.rows[id].id == id && id < t.nextId && ValidText(t.rows[id].text)
  }

  /** The table with no rows that the service starts from. */
  function Empty(): (t: Table)
    ensures Inv(t) && t.rows == map[]
  {
    Table(map[], 1)
  }

  /** `INSERT INTO message ...` after text validation: the new row gets the
      generated key and echoes the request's `posted_by`, text and time. */
  function Create(t: Table, message: Message, dbUp: bool): (s: Step<Result<Message>>)
    ensures s.result.Ok? <==> ValidText(message.text) && dbUp
    ensures s.result.ServiceError? ==> s.table == t
    ensures s.result.Ok? ==>
              var m := s.result.value;
              && m.id == t.nextId
              && m.postedBy == message.postedBy
              && m.text == message.text
              && m.timePostedEpoch == message.timePostedEpoch
              && s.table.rows == t.rows[m.id := m]
              && s.table.nextId > m.id
  {
    if !ValidText(message.text) || !dbUp then
      Step(t, ServiceError)
    else
      var m := Message(t.nextId, message.postedBy, message.text, message.timePostedEpoch);
      Step(Table(t.rows[m.id := m], t.nextId + 1), Ok(m))
  }

  /** `SELECT * FROM message WHERE message_id = ?`; a storage failure reads as
      no row. */
  function Lookup(t: Table, id: int, dbUp: bool): (m: Option<Message>)
    ensures m.Some? <==> dbUp && id in t.rows
    ensures m.Some? ==> m.value == t.rows[id]
  {
    if dbUp && id in t.rows then Some(t.rows[id]) else None
  }

  /** Text validation, the existence check, then `UPDATE message SET
      message_text = ? WHERE message_id = ?`. Only the text of that one row
      changes, and the result carries the stored `posted_by` and time. */
  function Update(t: Table, message: Message, dbUp: bool): (s: Step<Result<Message>>)
    ensures s.result.Ok? <==> ValidText(message.text) && dbUp && message.id in t.rows
    ensures s.result.ServiceError? ==> s.table == t
    ensures s.result.Ok? ==>
              var before := t.rows[message.id];
              var m := s.result.value;
              && m.id == message.id
              && m.text == message.text
              && m.postedBy == before.postedBy
              && m.timePostedEpoch == before.timePostedEpoch
              && s.table == Table(t.rows[message.id := m], t.nextId)
  {
    if !ValidText(message.text) || !dbUp || message.id !in t.rows then
      Step(t, ServiceError)
    else
      var before := t.rows[message.id];
      var m := Message(message.id, before.postedBy, message.text, before.timePostedEpoch);
      Step(Table(t.rows[message.id := m], t.nextId), Ok(m))
  }

  /** `DELETE FROM message WHERE message_id = ?`: succeeds whether or not the
      row exists, and fails only when storage does. */
  function Delete(t: Table, message: Message, dbUp: bool): (s: Step<Result<()>>)
    ensures s.result.Ok? <==> dbUp
    ensures s.table.nextId == t.nextId
    ensures s.result.ServiceError? ==> s.table == t
    ensures s.result.Ok? ==>
              && s.table.rows.Keys == t.rows.Keys - {message.id}
              && forall id | id in s.table.rows :: s.table.rows[id] == t.rows[id]
  {
    if !dbUp then Step(t, ServiceError) else Step(Table(t.rows - {message.id}, t.nextId), Ok(()))
  }

  /** `m` is the row the table holds under `m`'s id. */
  ghost predicate IsRow(t: Table, m: Message)
  {
    m.id in t.rows && t.rows[m.id] == m
  }

  /** The keys of the rows posted by account `accountId`. */
  ghost function IdsPostedBy(t: Table, accountId: int): set<int>
  {
    set id | id in t.rows && t.rows[id].postedBy == accountId
  }

  /** A listing names each row at most once. */
  ghost predicate DistinctIds(messages: seq<Message>)
  {
    forall i, j | 0 <= i < j < |messages| :: messages[i].id != messages[j].id
  }

  /** The write statements of the service, for reasoning about sequences of calls. */
  datatype Op =
    | CreateOp(message: Message, dbUp: bool)
    | UpdateOp(message: Message, dbUp: bool)
    | DeleteOp(message: Message, dbUp: bool)

  /** The table after one write; a failed write leaves it as it was. */
  function Apply(t: Table, op: Op): (after: Table)
    ensures after.nextId >= t.nextId
  {
    match op
    case CreateOp(m, up) => Create(t, m, up).table
    case UpdateOp(m, up) => Update(t, m, up).table
    case DeleteOp(m, up) => Delete(t, m, up).table
  }

  /** The table after the writes `ops`, run one after another from `t`. */
  function Run(t: Table, ops: seq<Op>): (after: Table)
    decreases |ops|
  {
    if ops == [] then t else Run(Apply(t, ops[0]), ops[1..])
  }

  /** A created message is read back with every field as created. */
  lemma CreateThenLookup(t: Table, message: Message)
    requires ValidText(message.text)
    ensures var s := Create(t, message, true);
            Lookup(s.table, s.result.value.id, true) == Some(s.result.value)
  {
  }

  /** The generated key is fresh, so a successful create adds exactly one row. */
  lemma CreateAddsOneRow(t: Table, message: Message, dbUp: bool)
    requires Inv(t)
    ensures var s := Create(t, message, dbUp);
            s.result.Ok? ==> s.result.value.id !in t.rows && |s.table.rows| == |t.rows| + 1
  {
  }

  /** After a successful update the row reads back with the new text and its
      old owner and time; every other row reads back as before. */
  lemma UpdateThenLookup(t: Table, message: Message, other: int)
    requires Inv(t) && ValidText(message.text) && message.id in t.rows
    ensures var s := Update(t, message, true);
            && Lookup(s.table, message.id, true) == Some(t.rows[message.id].(text := message.text))
            && (other != message.id ==> Lookup(s.table, other, true) == Lookup(t, other, true))
  {
  }

  /** After a successful delete the id reads as absent. */
  lemma DeleteThenLookup(t: Table, message: Message)
    ensures Lookup(Delete(t, message, true).table, message.id, true) == None
  {
  }

  /** Deleting twice is deleting once. */
  lemma DeleteIdempotent(t: Table, message: Message)
    ensures var once := Delete(t, message, true);
            Delete(once.table, message, true) == once
  {
  }

  /** One write keeps the table invariant and never moves the key counter back. */
  lemma ApplyPreservesInv(t: Table, op: Op)
    requires Inv(t)
    ensures Inv(Apply(t, op)) && t.nextId <= Apply(t, op).nextId
  {
  }

  /** Whatever sequence of writes runs, every row keeps valid text, is stored
      under its own id, and the key counter never goes back. */
  lemma {:induction false} RunPreservesInv(t: Table, ops: seq<Op>)
    requires Inv(t)
    ensures Inv(Run(t, ops)) && t.nextId <= Run(t, ops).nextId
    decreases |ops|
  {
    if ops != [] {
      ApplyPreservesInv(t, ops[0]);
      RunPreservesInv(Apply(t, ops[0]), ops[1..]);
    }
  }

  /** A message that was deleted stays deleted: no later write brings its id
      back, since updates need an existing row and creates take fresh keys. */
  lemma {:induction false} DeletedStaysDeleted(t: Table, ops: seq<Op>, id: int)
    requires Inv(t) && id < t.nextId && id !in t.rows
    ensures id !in Run(t, ops).rows
    decreases |ops|
  {
    if ops != [] {
      ApplyPreservesInv(t, ops[0]);
      DeletedStaysDeleted(Apply(t, ops[0]), ops[1..], id);
    }
  }
}
