/** The HTTP handlers: each turns a decoded request and the service's answers
    into a status and an optional JSON body. Path-id parsing and JSON decoding
    are inputs (`None` when they fail), and the account service is an oracle. */
module Controller {
  import opened Model
  import opened MessageTable
  import opened Service

  /** What a handler passes to `ctx.json`. */
  datatype Body =
    | MessageJson(message: Message)
    | MessagesJson(messages: seq<Message>)
    | AccountJson(account: Account)

  /** The status and the JSON body, if any, a handler leaves in the context. */
  datatype Response = Response(status: int, body: Option<Body>)

  const BadRequest := Response(400, None)
  const Unauthorized := Response(401, None)

  /** `ctx.json(body)` with the default status. */
  function Json(body: Body): Response
  {
    Response(200, Some(body))
  }

  /** `POST /register`: the created account, or 400 when the body does not
      decode or the account service refuses. */
  function RegisterAccount(body: Option<Account>, createAccount: Account -> Result<Account>): (resp: Response)
    ensures resp.status == 200 <==> body.Some? && createAccount(body.value).Ok?
    ensures resp.status == 200 ==> resp.body == Some(AccountJson(createAccount(body.value).value))
    ensures resp.status != 200 ==> resp == BadRequest
  {
    match body
    case None => BadRequest
    case Some(account) =>
      match createAccount(account)
      case ServiceError => BadRequest
      case Ok(registered) => Json(AccountJson(registered))
  }

  /** `POST /login`: the matching account, or 401 alike for an undecodable
      body, a service failure and credentials that match no account. */
  function LoginAccount(body: Option<Account>, validateLogin: Account -> Result<Option<Account>>): (resp: Response)
    ensures resp.status == 200 <==> body.Some? && validateLogin(body.value).Ok? && validateLogin(body.value).value.Some?
    ensures resp.status == 200 ==> resp.body == Some(AccountJson(validateLogin(body.value).value.value))
    ensures resp.status != 200 ==> resp == Unauthorized
  {
    match body
    case None => Unauthorized
    case Some(account) =>
      match validateLogin(account)
      case ServiceError => Unauthorized
      case Ok(None) => Unauthorized
      case Ok(Some(loggedIn)) => Json(AccountJson(loggedIn))
  }

  /** `POST /messages` on table `t`: the poster must be a known account
      before the service is asked to create anything. */
  function HandleCreate(t: Table, body: Option<Message>, getAccountById: int -> Option<Account>, dbUp: bool): (s: Step<Response>)
    ensures s.result.status == 200 <==>
              body.Some? && getAccountById(body.value.postedBy).Some? && ValidText(body.value.text) && dbUp
    ensures s.result.status != 200 ==> s == Step(t, BadRequest)
    ensures s.result.status == 200 ==>
              var m := Message(t.nextId, body.value.postedBy, body.value.text, body.value.timePostedEpoch);
              s.result == Json(MessageJson(m)) && s.table.rows == t.rows[m.id := m]
  {
    match body
    case None => Step(t, BadRequest)
    case Some(message) =>
      if getAccountById(message.postedBy).None? then
        Step(t, BadRequest)
      else
        var c := Create(t, message, dbUp);
        match c.result
        case ServiceError => Step(c.table, BadRequest)
        case Ok(created) => Step(c.table, Json(MessageJson(created)))
  }

  /** `GET /messages/{message_id}` on table `t`: the message, or 200 with no
      body when there is none, or 400 for an id that does not parse. */
  function HandleGetById(t: Table, pathId: Option<int>, dbUp: bool): (resp: Response)
    ensures pathId.None? ==> resp == BadRequest
    ensures pathId.Some? ==> resp.status == 200
    ensures resp.body.Some? <==> pathId.Some? && dbUp && pathId.value in t.rows
    ensures resp.body.Some? ==> resp.body.value == MessageJson(t.rows[pathId.value])
  {
    match pathId
    case None => BadRequest
    case Some(id) =>
      match Lookup(t, id, dbUp)
      case None => Response(200, None)
      case Some(m) => Json(MessageJson(m))
  }

  /** `DELETE /messages/{message_id}` on table `t`: look the message up, and
      only if it is there delete it and answer with the row as it was. */
  function HandleDelete(t: Table, pathId: Option<int>, lookupUp: bool, deleteUp: bool): (s: Step<Response>)
    requires Inv(t)
    ensures Inv(s.table)
    ensures s.result.status == 400 <==> pathId.None? || (lookupUp && pathId.value in t.rows && !deleteUp)
    ensures s.result.status != 400 ==> s.result.status == 200
    ensures s.result.body.Some? <==> pathId.Some? && lookupUp && deleteUp && pathId.value in t.rows
    ensures s.result.body.Some? ==>
              && s.result.body.value == MessageJson(t.rows[pathId.value])
              && s.table == Table(t.rows - {pathId.value}, t.nextId)
    ensures s.result.body.None? ==> s.table == t
  {
    match pathId
    case None => Step(t, BadRequest)
    case Some(id) =>
      match Lookup(t, id, lookupUp)
      case None => Step(t, Response(200, None))
      case Some(m) =>
        var d := Delete(t, m, deleteUp);
        if d.result.ServiceError? then
          Step(t, BadRequest)
        else
          assert d.table.rows == t.rows - {id};
          Step(d.table, Json(MessageJson(m)))
  }

  /** `PATCH /messages/{message_id}` on table `t`: the path id replaces the
      body's id, and of the body only the text is used. */
  function HandleUpdate(t: Table, pathId: Option<int>, body: Option<Message>, dbUp: bool): (s: Step<Response>)
    ensures s.result.status == 200 <==>
              pathId.Some? && body.Some? && ValidText(body.value.text) && dbUp && pathId.value in t.rows
    ensures s.result.status != 200 ==> s == Step(t, BadRequest)
    ensures s.result.status == 200 ==>
              var id := pathId.value;
              var before := t.rows[id];
              var m := Message(id, before.postedBy, body.value.text, before.timePostedEpoch);
              s.result == Json(MessageJson(m)) && s.table == Table(t.rows[id := m], t.nextId)
  {
    if pathId.None? || body.None? then
      Step(t, BadRequest)
    else
      var u := Update(t, body.value.(id := pathId.value), dbUp);
      match u.result
      case ServiceError => Step(u.table, BadRequest)
      case Ok(updated) => Step(u.table, Json(MessageJson(updated)))
  }

  /** A message the create handler answers with is what the get handler
      answers with afterwards. */
  lemma CreatedMessageReadsBack(t: Table, body: Option<Message>, getAccountById: int -> Option<Account>, dbUp: bool)
    requires HandleCreate(t, body, getAccountById, dbUp).result.status == 200
    ensures var s := HandleCreate(t, body, getAccountById, dbUp);
            HandleGetById(s.table, Some(s.result.body.value.message.id), true) == s.result
  {
  }

  /** Deleting through the handler twice: the second call finds nothing,
      answers 200 with no body and changes nothing, and a read finds nothing. */
  lemma DeleteHandlerTwice(t: Table, id: int)
    requires Inv(t)
    ensures var first := HandleDelete(t, Some(id), true, true);
            && HandleDelete(first.table, Some(id), true, true) == Step(first.table, Response(200, None))
            && HandleGetById(first.table, Some(id), true) == Response(200, None)
  {
  }

  /** Two update bodies with the same text have the same effect, whatever id,
      owner or time they carry. */
  lemma UpdateUsesOnlyBodyText(t: Table, id: int, body1: Message, body2: Message, dbUp: bool)
    requires body1.text == body2.text
    ensures HandleUpdate(t, Some(id), Some(body1), dbUp) == HandleUpdate(t, Some(id), Some(body2), dbUp)
  {
  }

  /** The controller and the message service it calls. */
  class SocialMediaController {
    const messageService: MessageService

    constructor ()
      ensures fresh(messageService) && messageService.Valid() && messageService.State() == Empty()
    {
      messageService := new MessageService();
    }

    method CreateMessage(body: Option<Message>, getAccountById: int -> Option<Account>, dbUp: bool) returns (resp: Response)
      requires messageService.Valid()
      modifies messageService
      ensures messageService.Valid()
      ensures Step(messageService.State(), resp) == HandleCreate(old(messageService.State()), body, getAccountById, dbUp)
    {
      if body.None? {
        return BadRequest;
      }
      var message := body.value;
      var account := getAccountById(message.postedBy);
      if account.None? {
        return BadRequest;
      }
      var created := messageService.CreateMessage(message, account, dbUp);
      if created.ServiceError? {
        return BadRequest;
      }
      resp := Json(MessageJson(created.value));
    }

    /** `GET /messages`: always 200 with the service's list, possibly empty. */
    method GetAllMessages(failAfter: Option<nat>) returns (resp: Response)
      requires messageService.Valid()
      ensures resp.status == 200 && resp.body.Some? && resp.body.value.MessagesJson?
      ensures forall m | m in resp.body.value.messages :: IsRow(messageService.State(), m)
      ensures DistinctIds(resp.body.value.messages)
      ensures failAfter.None? ==>
                forall id | id in messageService.rows :: messageService.rows[id] in resp.body.value.messages
      ensures failAfter == Some(0) ==> resp.body.value.messages == []
      ensures failAfter.Some? && failAfter.value < |messageService.rows| ==>
                |resp.body.value.messages| == failAfter.value
      ensures failAfter.Some? && failAfter.value >= |messageService.rows| ==>
                forall id | id in messageService.rows :: messageService.rows[id] in resp.body.value.messages
    {
      var messages := messageService.GetAllMessages(failAfter);
      resp := Json(MessagesJson(messages));
    }

    method GetMessageById(pathId: Option<int>, dbUp: bool) returns (resp: Response)
      ensures resp == HandleGetById(messageService.State(), pathId, dbUp)
    {
      if pathId.None? {
        return BadRequest;
      }
      var message := messageService.GetMessageById(pathId.value, dbUp);
      if message.Some? {
        resp := Json(MessageJson(message.value));
      } else {
        resp := Response(200, None);
      }
    }

    method DeleteMessageById(pathId: Option<int>, lookupUp: bool, deleteUp: bool) returns (resp: Response)
      requires messageService.Valid()
      modifies messageService
      ensures messageService.Valid()
      ensures Step(messageService.State(), resp) == HandleDelete(old(messageService.State()), pathId, lookupUp, deleteUp)
    {
      if pathId.None? {
        return BadRequest;
      }
      var message := messageService.GetMessageById(pathId.value, lookupUp);
      if message.Some? {
        var deleted := messageService.DeleteMessage(message.value, deleteUp);
        if deleted.ServiceError? {
          return BadRequest;
        }
        resp := Json(MessageJson(message.value));
      } else {
        resp := Response(200, None);
      }
    }

    method UpdateMessageById(pathId: Option<int>, body: Option<Message>, dbUp: bool) returns (resp: Response)
      requires messageService.Valid()
      modifies messageService
      ensures messageService.Valid()
      ensures Step(messageService.State(), resp) == HandleUpdate(old(messageService.State()), pathId, body, dbUp)
    {
      if pathId.None? || body.None? {
        return BadRequest;
      }
      var updated := messageService.UpdateMessage(body.value.(id := pathId.value), dbUp);
      if updated.ServiceError? {
        return BadRequest;
      }
      resp := Json(MessageJson(updated.value));
    }

    /** `GET /accounts/{account_id}/messages`: 400 only for an id that does not
        parse; otherwise 200 with that account's messages, possibly none. */
    method GetMessagesByAccountId(pathId: Option<int>, failAfter: Option<nat>) returns (resp: Response)
      requires messageService.Valid()
      ensures pathId.None? <==> resp == BadRequest
      ensures pathId.Some? ==>
                && resp.status == 200 && resp.body.Some? && resp.body.value.MessagesJson?
                && (forall m | m in resp.body.value.messages ::
                      IsRow(messageService.State(), m) && m.postedBy == pathId.value)
                && DistinctIds(resp.body.value.messages)
                && (failAfter.None? ==>
                      forall id | id in messageService.rows && messageService.rows[id].postedBy == pathId.value ::
                        messageService.rows[id] in resp.body.value.messages)
                && (failAfter.Some? ==> |resp.body.value.messages| <= failAfter.value)
                && (failAfter == Some(0) ==> resp.body.value.messages == [])
                && (failAfter.Some? && failAfter.value < |IdsPostedBy(messageService.State(), pathId.value)| ==>
                      |resp.body.value.messages| == failAfter.value)
                && (failAfter.Some? && failAfter.value >= |IdsPostedBy(messageService.State(), pathId.value)| ==>
                      forall id | id in messageService.rows && messageService.rows[id].postedBy == pathId.value ::
                        messageService.rows[id] in resp.body.value.messages)
    {
      if pathId.None? {
        return BadRequest;
      }
      var messages := messageService.GetMessagesByAccountId(pathId.value, failAfter);
      resp := Json(MessagesJson(messages));
    }
  }
}
