/** The JSON replies the PHP endpoints send: a status code and one of the
    body shapes they encode. */
module Http {
  import Store

  datatype Body =
    | Error(message: string)            // {success: false, error}
    | Errors(messages: seq<string>)     // {success: false, errors}
    | Saved(id: int)                    // {success: true, id}
    | Verdict(success: bool, valid: bool)
    | Rooms(rows: seq<Store.RoomRow>)   // {success: true, data}
    | Fatal                             // an uncaught PHP `Error`: no JSON body

  datatype Reply = Reply(status: int, body: Body)

  /** The reply to the result of `registerParticipant`: the stored id is
      echoed with 200; an aborted registration dies on an uncaught `Error`,
      which the server answers with 500 and no JSON body. */
  function FromOutcome(o: Store.Outcome): (r: Reply)
    ensures r.status == 200 <==> o.Registered?
    ensures r.body.Saved? <==> o.Registered?
    ensures o.Registered? ==> r.body.id == o.id
    ensures o.Aborted? ==> r == Reply(500, Fatal)
  {
    match o
    case Registered(id) => Reply(200, Saved(id))
    case Aborted(_) => Reply(500, Fatal)
  }
}
