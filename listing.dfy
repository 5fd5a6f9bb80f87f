/**
 * `RetrieveData`: fetch every record and print them numbered from 1 in the
 * order received.
 */
module Listing {
  import opened Http

  /** How the reply to the listing request is read. */
  datatype ListReply =
    | Received(items: seq<DataItem>)  // a success status and a JSON list
    | NullList                        // a success status and JSON null: nothing is printed
    | EmptyStore                      // 409, the service's answer for an empty store
    | RequestFailed                   // a transport failure or a non-success status
    | Unexpected                      // a success status and a body that is not a list

  /** One printed line: its number and the record. */
  datatype Row = Row(number: nat, item: DataItem)

  /**
   * The reply as the numbered `RetrieveData` reads it: `GetFromJsonAsync`
   * raises on every non-success status, 409 included, and that is reported
   * as a network or server error.
   */
  function ReadReplyAsWritten(resp: Response): (v: ListReply)
    ensures v == RequestFailed <==> resp.Transport? || !IsSuccessStatusCode(resp.status)
    ensures v.Received? <==> resp.Answered? && IsSuccessStatusCode(resp.status) && resp.payload.Records?
    ensures v.Received? ==> resp.payload == Records(v.items)
    ensures v != EmptyStore
  {
    match resp
    case Transport => RequestFailed
    case Answered(status, payload) =>
      if !IsSuccessStatusCode(status) then RequestFailed
      else
        match payload
        case JsonNull => NullList
        case Records(items) => Received(items)
        case _ => Unexpected
  }

  /** The reply read as intended: 409 is the empty store, as the earlier listing and the diagnostics treat it. */
  function ReadReply(resp: Response): (v: ListReply)
    ensures v == EmptyStore <==> resp.Answered? && resp.status == CONFLICT
    ensures v == RequestFailed <==> resp.Transport? || (!IsSuccessStatusCode(resp.status) && resp.status != CONFLICT)
    ensures v.Received? <==> resp.Answered? && IsSuccessStatusCode(resp.status) && resp.payload.Records?
    ensures v.Received? ==> resp.payload == Records(v.items)
    ensures v == NullList <==> resp.Answered? && IsSuccessStatusCode(resp.status) && resp.payload == JsonNull
  {
    if resp.Answered? && resp.status == CONFLICT then EmptyStore else ReadReplyAsWritten(resp)
  }

  /** As written, the 409 of an empty store is reported as a failed request. */
  lemma EmptyStoreReportedAsFailure(payload: Payload)
    ensures ReadReplyAsWritten(Answered(CONFLICT, payload)) == RequestFailed
    ensures ReadReply(Answered(CONFLICT, payload)) == EmptyStore
  {
  }

  /** The two readings differ only on 409. */
  lemma ReadingsAgreeBut409(resp: Response)
    ensures ReadReply(resp) == ReadReplyAsWritten(resp) <==> !(resp.Answered? && resp.status == CONFLICT)
  {
  }

  /** The rows printed for a reply: its records numbered from 1 in order, or none. */
  function RowsOf(reply: ListReply): seq<Row> {
    if reply.Received? then seq(|reply.items|, j requires 0 <= j < |reply.items| => Row(j + 1, reply.items[j])) else []
  }

  /**
   * `RetrieveData` after `history` was issued: a single listing request,
   * and the received records numbered from 1 in the order received.
   */
  method RetrieveData(history: seq<Request>, server: Server) returns (request: Request, reply: ListReply, rows: seq<Row>)
    ensures request == GetAll
    ensures reply == ReadReply(server(history + [GetAll]))
    ensures !reply.Received? ==> rows == []
    ensures reply.Received? ==> |rows| == |reply.items|
                                && forall j :: 0 <= j < |rows| ==> rows[j] == Row(j + 1, reply.items[j])
    ensures rows == RowsOf(reply)
  {
    request := GetAll;
    reply := ReadReply(server(history + [request]));
    rows := [];
    if reply.Received? {
      var i := 1;
      var p := 0;
      while p < |reply.items|
        invariant 0 <= p <= |reply.items| && i == p + 1
        invariant |rows| == p
        invariant forall j :: 0 <= j < p ==> rows[j] == Row(j + 1, reply.items[j])
      {
        rows := rows + [Row(i, reply.items[p])];
        i := i + 1;
        p := p + 1;
      }
    }
  }
}
