/**
 * `HandleDelete`: read a key, look the record up, ask for a confirmation key
 * and only on `Y` delete the record under the key that was looked up.
 */
module Deletion {
  import opened Wrappers
  import opened Terminal
  import opened Http

  /** How a deletion ends. */
  datatype DeleteEnd =
    | Blank                                   // the key is empty or white space
    | NotFound                                // the lookup was answered 404
    | LookupFailed(status: int)               // the lookup was answered with another non-success status
    | NoRecord                                // the lookup's body is JSON null
    | Faulted                                 // a transport failure or a body that is not a record
    | Stalled                                 // no key event left for the confirmation
    | Declined(item: DataItem)                // the confirmation key is not Y
    | Deleted(item: DataItem)                 // the deletion succeeded
    | DeleteRefused(item: DataItem, status: int) // the deletion was answered without success

  /**
   * The key that was read, the requests issued, how the deletion ended and
   * the position of the first key event left unread.
   */
  datatype DeleteRun = DeleteRun(key: string, issued: seq<Request>, end: DeleteEnd, next: nat)

  /** `Console.ReadLine() ?? ""`. */
  function KeyOf(line: Option<string>): string {
    match line
    case None => ""
    case Some(s) => s
  }

  /** The lookup was answered with a success status and a record. */
  predicate Found(r: Response) {
    r.Answered? && IsSuccessStatusCode(r.status) && r.payload.Record?
  }

  /**
   * `HandleDelete` on the next console line `line` and the key events of
   * `keys` from `at` on, after `history` was issued.
   */
  function HandleDelete(line: Option<string>, keys: seq<KeyInfo>, at: nat, history: seq<Request>, server: Server): (r: DeleteRun)
    requires at <= |keys|
    ensures r.key == KeyOf(line)
    ensures r.issued == [] || r.issued == [GetItem(r.key)] || r.issued == [GetItem(r.key), DeleteItem(r.key)]
    ensures r.issued == [] <==> IsBlank(r.key)
    ensures at <= r.next <= |keys|
  {
    var key := KeyOf(line);
    if IsBlank(key) then DeleteRun(key, [], Blank, at)
    else
      var lookup := GetItem(key);
      match server(history + [lookup])
      case Transport => DeleteRun(key, [lookup], Faulted, at)
      case Answered(status, payload) =>
        if !IsSuccessStatusCode(status) then
          DeleteRun(key, [lookup], if status == NOT_FOUND then NotFound else LookupFailed(status), at)
        else
          match payload
          case JsonNull => DeleteRun(key, [lookup], NoRecord, at)
          case Record(item) => (
            if at == |keys| then DeleteRun(key, [lookup], Stalled, at)
            else if keys[at].key != Y then DeleteRun(key, [lookup], Declined(item), at + 1)
            else
              var removal := DeleteItem(key);
              match server(history + [lookup, removal])
              case Transport => DeleteRun(key, [lookup, removal], Faulted, at + 1)
              case Answered(deleteStatus, _) =>
                if IsSuccessStatusCode(deleteStatus) then DeleteRun(key, [lookup, removal], Deleted(item), at + 1)
                else DeleteRun(key, [lookup, removal], DeleteRefused(item, deleteStatus), at + 1))
          case _ => DeleteRun(key, [lookup], Faulted, at)
  }

  /** The lookup `HandleDelete` issues for a key that is not blank. */
  function LookupReply(line: Option<string>, history: seq<Request>, server: Server): Response {
    server(history + [GetItem(KeyOf(line))])
  }

  /**
   * A DELETE is issued only after the lookup found a record and the next
   * key event is `Y`, and then it is issued exactly once.
   */
  lemma DeleteOnlyAfterConfirmation(line: Option<string>, keys: seq<KeyInfo>, at: nat, history: seq<Request>, server: Server)
    requires at <= |keys|
    ensures var r := HandleDelete(line, keys, at, history, server);
            |r.issued| == 2 <==>
              !IsBlank(KeyOf(line)) && Found(LookupReply(line, history, server)) && at < |keys| && keys[at].key == Y
    ensures var r := HandleDelete(line, keys, at, history, server);
            r.next == if !IsBlank(KeyOf(line)) && Found(LookupReply(line, history, server)) && at < |keys| then at + 1 else at
  {
  }

  /** "Key not found" is reported exactly for a 404 lookup, and a null record exactly for a null body. */
  lemma LookupOutcomes(line: Option<string>, keys: seq<KeyInfo>, at: nat, history: seq<Request>, server: Server)
    requires at <= |keys|
    ensures var r := HandleDelete(line, keys, at, history, server);
            var g := LookupReply(line, history, server);
            && (r.end == NotFound <==> !IsBlank(KeyOf(line)) && g.Answered? && g.status == NOT_FOUND)
            && (r.end == NoRecord <==> !IsBlank(KeyOf(line)) && g.Answered? && IsSuccessStatusCode(g.status) && g.payload == JsonNull)
            && (r.end.LookupFailed? <==> !IsBlank(KeyOf(line)) && g.Answered? && !IsSuccessStatusCode(g.status) && g.status != NOT_FOUND)
  {
  }

  /** The record shown for the confirmation is the one the lookup returned. */
  lemma ConfirmedRecordIsLookedUp(line: Option<string>, keys: seq<KeyInfo>, at: nat, history: seq<Request>, server: Server)
    requires at <= |keys|
    ensures var r := HandleDelete(line, keys, at, history, server);
            r.end.Declined? || r.end.Deleted? || r.end.DeleteRefused? ==>
              Found(LookupReply(line, history, server)) && LookupReply(line, history, server).payload == Record(r.end.item)
  {
  }
}
