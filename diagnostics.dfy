/** The startup diagnostics that gate the menu: a tunnel check, then a database check. */
module Diagnostics {
  import opened Wrappers
  import opened Http

  /** Why a run of the diagnostics failed. */
  datatype Failure =
    | Unreachable                   // the health request failed in transport
    | TunnelStatus(status: int)     // the health request was answered without success
    | DatabaseStatus(status: int)   // the data request was answered with neither 200 nor 409
    | DatabaseError                 // the data request failed in transport

  /** The requests a run issued, and its failure if any. */
  datatype Diagnosis = Diagnosis(sent: seq<Request>, failure: Option<Failure>) {
    predicate Passed() {
      failure.None?
    }
  }

  /** The tunnel check passes on a success status. */
  predicate TunnelUp(r: Response) {
    r.Answered? && IsSuccessStatusCode(r.status)
  }

  /** The database check passes on 200, or on the 409 the service uses for an empty store. */
  predicate DatabaseUp(r: Response) {
    r.Answered? && (r.status == OK || r.status == CONFLICT)
  }

  /**
   * `RunDiagnostics`: the checks run in order and the first failure ends the
   * run, so a failed tunnel check issues no data request.
   */
  function RunDiagnostics(server: Server): (d: Diagnosis)
    ensures d.Passed() <==> TunnelUp(server([GetHealth])) && DatabaseUp(server([GetHealth, GetAll]))
    ensures d.sent == if TunnelUp(server([GetHealth])) then [GetHealth, GetAll] else [GetHealth]
    ensures d.failure == Some(Unreachable) <==> server([GetHealth]).Transport?
    ensures d.failure == Some(DatabaseError) <==> TunnelUp(server([GetHealth])) && server([GetHealth, GetAll]).Transport?
  {
    match server([GetHealth])
    case Transport => Diagnosis([GetHealth], Some(Unreachable))
    case Answered(status, _) =>
      if !IsSuccessStatusCode(status) then Diagnosis([GetHealth], Some(TunnelStatus(status)))
      else
        match server([GetHealth, GetAll])
        case Transport => Diagnosis([GetHealth, GetAll], Some(DatabaseError))
        case Answered(dbStatus, _) =>
          if dbStatus == OK || dbStatus == CONFLICT then Diagnosis([GetHealth, GetAll], None)
          else Diagnosis([GetHealth, GetAll], Some(DatabaseStatus(dbStatus)))
  }

  /** The earlier one-check `RunDiagnostics`: true on a success status of the health request. */
  function CheckTunnel(server: Server): (up: bool)
    ensures up <==> TunnelUp(server([GetHealth]))
  {
    match server([GetHealth])
    case Transport => false
    case Answered(status, _) => IsSuccessStatusCode(status)
  }

  /** The two-check diagnostics pass only where the one-check version passes. */
  lemma DiagnosticsImplyTunnelCheck(server: Server)
    ensures RunDiagnostics(server).Passed() ==> CheckTunnel(server)
  {
  }

  /** ... and not conversely: a service whose data request fails passes the one-check version only. */
  lemma TunnelCheckIsWeaker()
    ensures exists server: Server :: CheckTunnel(server) && !RunDiagnostics(server).Passed()
  {
    var server: Server := h => if h == [GetHealth] then Answered(OK, NoContent) else Answered(500, NoContent);
    assert server([GetHealth]) == Answered(OK, NoContent);
    assert server([GetHealth, GetAll]) == Answered(500, NoContent);
    assert CheckTunnel(server) && !RunDiagnostics(server).Passed();
  }
}
