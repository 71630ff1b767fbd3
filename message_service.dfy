/** The message service over its table. The table is the object's state and
    the writes change it in place; whether storage works on a call is an
    input, since the database is not part of the model. */
module Service {
  import opened Model
  import opened MessageTable

  class MessageService {
    /** The rows of the `message` table, by `message_id`. */
    var rows: map<int, Message>
    /** The next key the auto-increment `message_id` column hands out. */
    var nextId: int

    function State(): Table
      reads this
    {
      Table(rows, nextId)
    }

    ghost predicate Valid()
      reads this
    {
      Inv(State())
    }

    constructor ()
      ensures Valid() && State() == Empty()
    {
      rows := map[];
      nextId := 1;
    }

    /** Validates the text, then inserts a row with a generated key. The
        `account` argument plays no part: existence of the poster is the
        caller's check. */
    method CreateMessage(message: Message, account: Option<Account>, dbUp: bool) returns (r: Result<Message>)
      requires Valid()
      modifies this
      ensures Valid()
      ensures Step(State(), r) == Create(old(State()), message, dbUp)
    {
      if message.text.None? || |message.text.value| == 0 {
        return ServiceError;
      }
      if |message.text.value| > MaxTextLength {
        return ServiceError;
      }
      if !dbUp {
        return ServiceError;
      }
      var created := Message(nextId, message.postedBy, message.text, message.timePostedEpoch);
      rows := rows[nextId := created];
      nextId := nextId + 1;
      r := Ok(created);
    }

    /** Every row of the table, in no particular order. If storage fails after
        `failAfter` rows have been read, the rows read so far are returned. */
    method GetAllMessages(failAfter: Option<nat>) returns (messages: seq<Message>)
      requires Valid()
      ensures forall m | m in messages :: IsRow(State(), m)
      ensures DistinctIds(messages)
      ensures failAfter.None? ==> forall id | id in rows :: rows[id] in messages
      ensures failAfter.Some? ==> |messages| <= failAfter.value
      ensures failAfter.Some? && failAfter.value < |rows| ==> |messages| == failAfter.value
      ensures failAfter.Some? && failAfter.value >= |rows| ==> forall id | id in rows :: rows[id] in messages
    {
      messages := [];
      var unread := rows.Keys;
      // The guard names a key outright: the verifier does not derive one from `unread != {}`.
      while exists id :: id in unread
        invariant unread <= rows.Keys
        invariant forall m | m in messages :: IsRow(State(), m) && m.id !in unread
        invariant DistinctIds(messages)
        invariant forall id | id in rows && id !in unread :: rows[id] in messages
        invariant failAfter.Some? ==> |messages| <= failAfter.value
        invariant |messages| + |unread| == |rows|
        decreases unread
      {
        if failAfter == Some(|messages|) {
          break;
        }
        var id :| id in unread;
        messages := messages + [rows[id]];
        unread := unread - {id};
      }
      if !exists id :: id in unread {
        assert unread == {};
      }
    }

    /** The row with the given id, or `None` when there is none or storage fails. */
    method GetMessageById(id: int, dbUp: bool) returns (m: Option<Message>)
      ensures m == Lookup(State(), id, dbUp)
    {
      if !dbUp || id !in rows {
        return None;
      }
      m := Some(rows[id]);
    }

    /** Validates the new text, checks that the row exists, and replaces its
        text; the row's owner and time stay as stored. */
    method UpdateMessage(message: Message, dbUp: bool) returns (r: Result<Message>)
      requires Valid()
      modifies this
      ensures Valid()
      ensures Step(State(), r) == Update(old(State()), message, dbUp)
    {
      if message.text.None? || |message.text.value| == 0 {
        return ServiceError;
      }
      if |message.text.value| > MaxTextLength {
        return ServiceError;
      }
      if !dbUp {
        return ServiceError;
      }
      if message.id !in rows {
        return ServiceError;
      }
      var stored := rows[message.id];
      var updated := Message(message.id, stored.postedBy, message.text, stored.timePostedEpoch);
      rows := rows[message.id := updated];
      r := Ok(updated);
    }

    /** Deletes the row with the message's id, if there is one. */
    method DeleteMessage(message: Message, dbUp: bool) returns (r: Result<()>)
      requires Valid()
      modifies this
      ensures Valid()
      ensures Step(State(), r) == Delete(old(State()), message, dbUp)
    {
      if !dbUp {
        return ServiceError;
      }
      rows := rows - {message.id};
      r := Ok(());
    }

    /** The rows posted by `accountId`, in no particular order. If storage fails
        after `failAfter` rows have been read, the rows read so far are returned. */
    method GetMessagesByAccountId(accountId: int, failAfter: Option<nat>) returns (messages: seq<Message>)
      requires Valid()
      ensures forall m | m in messages :: IsRow(State(), m) && m.postedBy == accountId
      ensures DistinctIds(messages)
      ensures failAfter.None? ==> forall id | id in rows && rows[id].postedBy == accountId :: rows[id] in messages
      ensures failAfter.Some? ==> |messages| <= failAfter.value
      ensures failAfter.Some? && failAfter.value < |IdsPostedBy(State(), accountId)| ==> |messages| == failAfter.value
      ensures failAfter.Some? && failAfter.value >= |IdsPostedBy(State(), accountId)| ==>
                forall id | id in rows && rows[id].postedBy == accountId :: rows[id] in messages
    {
      messages := [];
      var unread := rows.Keys;
      // The account's rows not yet read: the rows the database still has to return.
      ghost var pending := IdsPostedBy(State(), accountId);
      // The guard names a key outright: the verifier does not derive one from `unread != {}`.
      while exists id :: id in unread
        invariant unread <= rows.Keys
        invariant forall m | m in messages :: IsRow(State(), m) && m.postedBy == accountId && m.id !in unread
        invariant DistinctIds(messages)
        invariant forall id | id in rows && id !in unread && rows[id].postedBy == accountId :: rows[id] in messages
        invariant failAfter.Some? ==> |messages| <= failAfter.value
        invariant pending == set id | id in unread && id in rows && rows[id].postedBy == accountId
        invariant |messages| + |pending| == |IdsPostedBy(State(), accountId)|
        decreases unread
      {
        if failAfter == Some(|messages|) {
          break;
        }
        var id :| id in unread;
        if rows[id].postedBy == accountId {
          messages := messages + [rows[id]];
          pending := pending - {id};
        }
        unread := unread - {id};
      }
      if !exists id :: id in unread {
        assert pending == {};
      }
      if |pending| == 0 {
        forall id | id in rows && rows[id].postedBy == accountId
          ensures rows[id] in messages
        {
          assert id !in pending;
        }
      }
    }
  }
}
