/**
 * `HandleUpload`: prompt for a key, then for a value, parse the value as an
 * `int`, POST the record and classify the answer, and prompt again until a
 * prompt is cancelled or the value does not parse.
 */
module Upload {
  import opened Wrappers
  import opened Terminal
  import opened Http
  import opened LineReader
  import opened Int32Text

  /** How the service answered a POST. */
  datatype Posted = Uploaded | KeyInUse | Refused(status: int)

  /** One completed round: the value as typed, the record posted and the answer. */
  datatype Attempt = Attempt(valueText: string, item: DataItem, posted: Posted)

  /** How an upload session ends. */
  datatype UploadEnd =
    | CancelledAtKey              // Escape at the key prompt
    | CancelledAtValue            // Escape at the value prompt
    | InvalidValue(text: string)  // the value is not an int
    | Crashed                     // the POST failed in transport; the exception is not caught
    | Stalled                     // the key events ran out inside a prompt

  /**
   * The completed rounds, the requests issued, how the session ended and the
   * position of the first key event left unread.
   */
  datatype UploadRun = UploadRun(attempts: seq<Attempt>, issued: seq<Request>, end: UploadEnd, next: nat)

  /** The classification of a POST's status: success, 409 for a key in use, or another status. */
  function Classify(status: int): (p: Posted)
    ensures p == Uploaded <==> 200 <= status <= 299
    ensures p == KeyInUse <==> status == 409
    ensures p.Refused? ==> p.status == status
  {
    if IsSuccessStatusCode(status) then Uploaded
    else if status == CONFLICT then KeyInUse
    else Refused(status)
  }

  /** A read by `ReadLineOrEscape` of the events from `i` on. */
  function ReadAt(keys: seq<KeyInfo>, i: nat): (r: Read)
    requires i <= |keys|
    ensures !r.Waiting? ==> i < r.next <= |keys|
  {
    ReadFrom(Blocking, keys, i, "")
  }

  /** Prefixes the rounds before `rest`. */
  function Then(attempts: seq<Attempt>, issued: seq<Request>, rest: UploadRun): UploadRun {
    UploadRun(attempts + rest.attempts, issued + rest.issued, rest.end, rest.next)
  }

  lemma ThenThen(attempts: seq<Attempt>, issued: seq<Request>, attempt: Attempt, request: Request, rest: UploadRun)
    ensures Then(attempts, issued, Then([attempt], [request], rest)) == Then(attempts + [attempt], issued + [request], rest)
  {
    assert attempts + ([attempt] + rest.attempts) == (attempts + [attempt]) + rest.attempts;
    assert issued + ([request] + rest.issued) == (issued + [request]) + rest.issued;
  }

  /**
   * The upload session from key event `i` on, after `history` was issued:
   * one round is a key prompt, a value prompt, the parse and the POST.
   */
  function UploadFrom(keys: seq<KeyInfo>, i: nat, history: seq<Request>, server: Server): (r: UploadRun)
    requires i <= |keys|
    ensures i <= r.next <= |keys|
    decreases |keys| - i
  {
    match ReadAt(keys, i)
    case Waiting => UploadRun([], [], Stalled, |keys|)
    case Cancelled(j) => UploadRun([], [], CancelledAtKey, j)
    case Entered(key, j) =>
      match ReadAt(keys, j)
      case Waiting => UploadRun([], [], Stalled, |keys|)
      case Cancelled(k) => UploadRun([], [], CancelledAtValue, k)
      case Entered(valueText, k) =>
        match TryParse(valueText)
        case None => UploadRun([], [], InvalidValue(valueText), k)
        case Some(value) =>
          var item := DataItem(key, value);
          var request := PostItem(item);
          match server(history + [request])
          case Transport => UploadRun([], [request], Crashed, k)
          case Answered(status, _) =>
            Then([Attempt(valueText, item, Classify(status))], [request], UploadFrom(keys, k, history + [request], server))
  }

  /**
   * `HandleUpload`, reading the key events of `keys` from `at` on and issuing
   * its POSTs after `history`.
   */
  method HandleUpload(keys: seq<KeyInfo>, at: nat, history: seq<Request>, server: Server) returns (r: UploadRun)
    requires at <= |keys|
    ensures r == UploadFrom(keys, at, history, server)
  {
    var i := at;
    var attempts: seq<Attempt> := [];
    var issued: seq<Request> := [];
    var trace := history;  // every request the service has received, which its answers may depend on
    ghost var whole := UploadFrom(keys, at, history, server);
    assert Then(attempts, issued, whole) == whole;
    while true
      invariant i <= |keys|
      invariant whole == Then(attempts, issued, UploadFrom(keys, i, trace, server))
      decreases |keys| - i
    {
      var key := ReadLineOrEscape(keys, i);
      if key.Waiting? {
        return Then(attempts, issued, UploadRun([], [], Stalled, |keys|));
      }
      if key.Cancelled? {
        return Then(attempts, issued, UploadRun([], [], CancelledAtKey, key.next));
      }
      var j := key.next;
      var valueStr := ReadLineOrEscape(keys, j);
      if valueStr.Waiting? {
        return Then(attempts, issued, UploadRun([], [], Stalled, |keys|));
      }
      if valueStr.Cancelled? {
        return Then(attempts, issued, UploadRun([], [], CancelledAtValue, valueStr.next));
      }
      var k := valueStr.next;
      var value := TryParse(valueStr.line);
      if value.None? {
        return Then(attempts, issued, UploadRun([], [], InvalidValue(valueStr.line), k));
      }
      var item := DataItem(key.line, value.value);
      var request := PostItem(item);
      var response := server(trace + [request]);
      if response.Transport? {
        return Then(attempts, issued, UploadRun([], [request], Crashed, k));
      }
      var attempt := Attempt(valueStr.line, item, Classify(response.status));
      ThenThen(attempts, issued, attempt, request, UploadFrom(keys, k, trace + [request], server));
      attempts := attempts + [attempt];
      issued := issued + [request];
      trace := trace + [request];
      i := k;
    }
  }

  /** A request that can come out of an upload: a POST of a printable key and an `int` value. */
  predicate IsUploadPost(q: Request) {
    q.PostItem? && Printable(q.item.key) && InRange(q.item.value)
  }

  /**
   * What an upload session issued: one POST per completed round, carrying
   * the entered key and the parsed value, and one more only when the session
   * ended on a transport failure.
   */
  predicate Accounted(r: UploadRun) {
    |r.issued| == |r.attempts| + (if r.end == Crashed then 1 else 0)
    && (forall a :: 0 <= a < |r.attempts| ==>
          r.issued[a] == PostItem(r.attempts[a].item)
          && TryParse(r.attempts[a].valueText) == Some(r.attempts[a].item.value))
    && (forall q :: 0 <= q < |r.issued| ==> IsUploadPost(r.issued[q]))
  }

  lemma ThenAccounted(attempt: Attempt, request: Request, rest: UploadRun)
    requires Accounted(rest)
    requires request == PostItem(attempt.item) && IsUploadPost(request)
    requires TryParse(attempt.valueText) == Some(attempt.item.value)
    ensures Accounted(Then([attempt], [request], rest))
  {
    var r := Then([attempt], [request], rest);
    assert forall a :: 0 < a < |r.attempts| ==> r.attempts[a] == rest.attempts[a - 1] && r.issued[a] == rest.issued[a - 1];
    assert forall q :: 0 < q < |r.issued| ==> r.issued[q] == rest.issued[q - 1];
  }

  /**
   * Every upload session is accounted for: a cancelled prompt or a value
   * that does not parse issues nothing, and each POST carries a printable
   * key and a value that fits in an `int`.
   */
  lemma {:induction false} UploadPostsOnlyAcceptedPairs(keys: seq<KeyInfo>, i: nat, history: seq<Request>, server: Server)
    requires i <= |keys|
    ensures Accounted(UploadFrom(keys, i, history, server))
    decreases |keys| - i
  {
    var key := ReadAt(keys, i);
    if key.Entered? {
      var value := ReadAt(keys, key.next);
      if value.Entered? {
        var parsed := TryParse(value.line);
        if parsed.Some? {
          var item := DataItem(key.line, parsed.value);
          var request := PostItem(item);
          var response := server(history + [request]);
          if response.Answered? {
            UploadPostsOnlyAcceptedPairs(keys, value.next, history + [request], server);
            ThenAccounted(Attempt(value.line, item, Classify(response.status)), request, UploadFrom(keys, value.next, history + [request], server));
          }
        }
      }
    }
  }

  /**
   * A round's key and value were both entered and the value parses: the
   * condition for an upload round to reach its POST.
   */
  predicate BothAccepted(keys: seq<KeyInfo>, i: nat)
    requires i <= |keys|
  {
    var key := ReadAt(keys, i);
    key.Entered? && ReadAt(keys, key.next).Entered? && TryParse(ReadAt(keys, key.next).line).Some?
  }

  /**
   * A round issues a request exactly when both inputs were accepted, and
   * then its first request is the POST of the entered key with the parsed value.
   */
  lemma PostOnlyAfterBothInputs(keys: seq<KeyInfo>, i: nat, history: seq<Request>, server: Server)
    requires i <= |keys|
    ensures UploadFrom(keys, i, history, server).issued != [] <==> BothAccepted(keys, i)
    ensures BothAccepted(keys, i) ==>
              var key := ReadAt(keys, i);
              var value := ReadAt(keys, key.next);
              UploadFrom(keys, i, history, server).issued[0] == PostItem(DataItem(key.line, TryParse(value.line).value))
  {
  }

  /**
   * After an answered POST the session prompts for a key again, from the
   * first event after the value's Enter, with the POST added to the trace.
   */
  lemma AnsweredRoundPromptsAgain(keys: seq<KeyInfo>, i: nat, history: seq<Request>, server: Server)
    requires i <= |keys| && BothAccepted(keys, i)
    requires var key := ReadAt(keys, i);
             var value := ReadAt(keys, key.next);
             server(history + [PostItem(DataItem(key.line, TryParse(value.line).value))]).Answered?
    ensures var key := ReadAt(keys, i);
            var value := ReadAt(keys, key.next);
            var item := DataItem(key.line, TryParse(value.line).value);
            var status := server(history + [PostItem(item)]).status;
            var r := UploadFrom(keys, i, history, server);
            var rest := UploadFrom(keys, value.next, history + [PostItem(item)], server);
            r.attempts == [Attempt(value.line, item, Classify(status))] + rest.attempts
            && r.issued == [PostItem(item)] + rest.issued
            && r.end == rest.end
  {
  }
}
