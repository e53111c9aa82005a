/** The scanner screen (components/Scanner.tsx): a detected code is cleaned of whitespace,
    an empty payload is rejected and scanning re-arms after a delay, otherwise the user
    confirms or cancels, and a confirmed scan reads the registration's `attendance` flag
    and writes `true` only when it reads `false`. The flags `scanned` and `cameraOn` form
    the debounce: no scan handler is attached while a scan is being dealt with. */
module Scanner {
  import opened Wrappers
  import opened Strings
  import opened Backend

  /** What the scan handler makes of a payload: a cleaned identifier to confirm, or a
      rejection. */
  datatype Intake = Prompt(uuid: string) | Invalid

  /** The decision of `handleBarCodeScanned`: a payload made only of whitespace (the empty
      payload included) is rejected; any other is offered with its whitespace removed and its
      other characters kept in order. */
  function ScanIntake(data: string): (r: Intake)
    ensures r.Invalid? <==> AllSpaces(data)
    ensures r.Prompt? ==> r.uuid != [] && NoSpaces(r.uuid) && |r.uuid| <= |data|
    ensures r.Prompt? ==> forall c :: !IsSpace(c) ==> multiset(r.uuid)[c] == multiset(data)[c]
    ensures r.Prompt? ==> r.uuid == StripSpaces(data)
  {
    var cleaned := StripSpaces(data);
    if cleaned != [] then Prompt(cleaned) else Invalid
  }

  /** How `giveAttendance` ends, as its alerts and toasts report it. */
  datatype Outcome =
    | Marked                        // "Attendance marked successfully!"
    | AlreadyPresent                // "Already Present"
    | ReadFailed(error: ApiError)   // the read's error, rethrown and shown
    | NoData                        // no row came back: destructuring the null `data` throws
    | WriteFailed(error: ApiError)  // the update's error, shown

  /** The table after `giveAttendance`, the requests it issued and what it reported. */
  datatype Effect = Effect(table: map<string, bool>, requests: seq<Request>, outcome: Outcome)

  /** `giveAttendance(uuid)` against `table`, when the read meets `readFault` and the write
      meets `writeFault` (None: no fault). A read error other than 406 is thrown; a 406 falls
      through to the destructuring of null data, which throws too. A write error with status
      406 is not reported, so the scan is reported as marked. */
  function Attend(table: map<string, bool>, uuid: string, readFault: Option<ApiError>,
                  writeFault: Option<ApiError>): (e: Effect)
    // the read always comes first, and at most one write follows it
    ensures e.requests == [SelectAttendance(uuid)]
         || e.requests == [SelectAttendance(uuid), UpdateAttendance(uuid, true)]
    // a write is issued exactly when the stored flag was read as false
    ensures UpdateAttendance(uuid, true) in e.requests <==> readFault.None? && uuid in table && !table[uuid]
    ensures e.outcome == AlreadyPresent <==> readFault.None? && uuid in table && table[uuid]
    // only the scanned registration can change, and only from false to true
    ensures e.table.Keys == table.Keys
    ensures forall k :: k in table && k != uuid ==> e.table[k] == table[k]
    ensures e.table != table <==> readFault.None? && writeFault.None? && uuid in table && !table[uuid]
    ensures e.table != table ==> e.table[uuid]
    // after a read and a write that both go through, the registration is present
    ensures readFault.None? && writeFault.None? && uuid in table ==> e.table[uuid]
    // a read error other than 406 is reported and nothing is written
    ensures readFault.Some? && readFault.value.status != NotAcceptable
            ==> e == Effect(table, [SelectAttendance(uuid)], ReadFailed(readFault.value))
    // a 406 read error falls through to the missing data, which throws; nothing is written
    ensures readFault.Some? && readFault.value.status == NotAcceptable
            ==> e == Effect(table, [SelectAttendance(uuid)], NoData)
    // an unknown qrID reads no row and ends in an error, with nothing written
    ensures readFault.None? && uuid !in table ==> e == Effect(table, [SelectAttendance(uuid)], NoData)
    // after a write, a non-406 write error is reported; otherwise the scan is reported as
    // marked, a 406 write error included
    ensures readFault.None? && uuid in table && !table[uuid] ==>
              e.outcome == if writeFault.Some? && writeFault.value.status != NotAcceptable
                           then WriteFailed(writeFault.value) else Marked
  {
    match ReadSingle(table, uuid, readFault)
    case Failed(error) =>
      Effect(table, [SelectAttendance(uuid)], if error.status != NotAcceptable then ReadFailed(error) else NoData)
    case Row(attendance) =>
      if !attendance then
        var outcome := if writeFault.Some? && writeFault.value.status != NotAcceptable
                       then WriteFailed(writeFault.value) else Marked;
        Effect(Written(table, uuid, true, writeFault),
               [SelectAttendance(uuid), UpdateAttendance(uuid, true)], outcome)
      else
        Effect(table, [SelectAttendance(uuid)], AlreadyPresent)
  }

  /** Once a scan has been marked, scanning the same code again reports "Already Present"
      and changes nothing: giving attendance is idempotent. */
  lemma AttendTwice(table: map<string, bool>, uuid: string)
    requires uuid in table
    ensures var first := Attend(table, uuid, None, None);
            var second := Attend(first.table, uuid, None, None);
            second.outcome == AlreadyPresent && second.table == first.table
  {
  }

  class Scanner {
    // `scanned`, `cameraOn` and `isTorchOn` are lifted into the parent screen and handed
    // down with their setters; `isLoading` is the component's own.
    var scanned: bool
    var cameraOn: bool
    var isTorchOn: bool
    var isLoading: bool

    constructor (scanned: bool, cameraOn: bool, isTorchOn: bool)
      ensures this.scanned == scanned && this.cameraOn == cameraOn && this.isTorchOn == isTorchOn
      ensures !isLoading
    {
      this.scanned, this.cameraOn, this.isTorchOn := scanned, cameraOn, isTorchOn;
      isLoading := false;
    }

    /** The camera view exists only while `cameraOn`, and it is given the scan handler only
        while `scanned` is false. */
    predicate HandlerAttached(): (b: bool)
      reads this
      ensures b ==> cameraOn
      ensures b ==> !scanned
    {
      cameraOn && !scanned
    }

    /** `handleBarCodeScanned`: every scan, accepted or not, first stops scanning. */
    method HandleBarCodeScanned(data: string) returns (r: Intake)
      modifies this`scanned, this`cameraOn
      ensures scanned && !cameraOn
      ensures r == ScanIntake(data)
    {
      var cleaned := StripSpaces(data);
      scanned := true;
      cameraOn := false;
      if cleaned != [] {
        r := Prompt(cleaned);
      } else {
        r := Invalid;
      }
    }

    /** A code detected by the camera reaches the handler only when one is attached: while a
        scan is being dealt with, further codes are ignored. */
    method OnBarcodeScanned(data: string) returns (r: Option<Intake>)
      modifies this`scanned, this`cameraOn
      ensures old(HandlerAttached()) ==> r == Some(ScanIntake(data)) && scanned && !cameraOn
      ensures !old(HandlerAttached()) ==> r == None && scanned == old(scanned) && cameraOn == old(cameraOn)
    {
      if HandlerAttached() {
        var intake := HandleBarCodeScanned(data);
        r := Some(intake);
      } else {
        r := None;
      }
    }

    /** The callback that runs 3000 ms after an invalid scan. */
    method ReArm()
      modifies this`scanned, this`cameraOn
      ensures !scanned && cameraOn
    {
      scanned := false;
      cameraOn := true;
    }

    /** `handleCancel`: no backend call, scanning re-armed. */
    method HandleCancel()
      modifies this`scanned, this`cameraOn
      ensures !scanned && cameraOn
    {
      scanned := false;
      cameraOn := true;
    }

    /** `giveAttendance`: the read, the write when the flag was false, and a `finally` that
        clears the loading flag and re-arms scanning whatever happened. */
    method GiveAttendance(uuid: string, backend: Table, readFault: Option<ApiError>, writeFault: Option<ApiError>)
      returns (outcome: Outcome)
      modifies this`isLoading, this`scanned, this`cameraOn, backend
      ensures var e := Attend(old(backend.rows), uuid, readFault, writeFault);
              backend.rows == e.table && backend.requests == old(backend.requests) + e.requests
              && outcome == e.outcome
      ensures !isLoading && !scanned && cameraOn
    {
      isLoading := true;
      var reply := backend.Select(uuid, readFault);
      match reply {
      case Failed(error) =>
        if error.status != NotAcceptable {
          outcome := ReadFailed(error);
        } else {
          outcome := NoData;
        }
      case Row(attendance) =>
        if !attendance {
          var error := backend.Update(uuid, true, writeFault);
          if error.Some? && error.value.status != NotAcceptable {
            outcome := WriteFailed(error.value);
          } else {
            outcome := Marked;
          }
        } else {
          outcome := AlreadyPresent;
        }
      }
      isLoading := false;
      scanned := false;
      cameraOn := true;
    }

    /** `toggleCamera` */
    method ToggleCamera()
      modifies this`cameraOn, this`scanned
      ensures cameraOn == !old(cameraOn) && !scanned
    {
      cameraOn := !cameraOn;
      scanned := false;
    }

    /** `toggleTorch` */
    method ToggleTorch()
      modifies this`isTorchOn
      ensures isTorchOn == !old(isTorchOn)
    {
      isTorchOn := !isTorchOn;
    }
  }

  /** One pass of the scanning protocol from an armed scanner: the code is scanned; an
      invalid one waits for the re-arm, a valid one waits for the user, who confirms
      (`confirm`) or cancels. Every pass ends armed again, and the backend is asked
      something only when a valid code is confirmed. */
  method ScanCycle(s: Scanner, data: string, confirm: bool, backend: Table,
                   readFault: Option<ApiError>, writeFault: Option<ApiError>)
    returns (outcome: Option<Outcome>)
    requires s.HandlerAttached() && !s.isLoading
    modifies s`scanned, s`cameraOn, s`isLoading, backend
    ensures s.HandlerAttached() && !s.isLoading
    ensures ScanIntake(data).Invalid? || !confirm ==>
              outcome == None && backend.rows == old(backend.rows) && backend.requests == old(backend.requests)
    ensures ScanIntake(data).Prompt? && confirm ==>
              var e := Attend(old(backend.rows), ScanIntake(data).uuid, readFault, writeFault);
              outcome == Some(e.outcome) && backend.rows == e.table
              && backend.requests == old(backend.requests) + e.requests
  {
    var intake := s.OnBarcodeScanned(data);
    match intake.value
    case Invalid =>
      s.ReArm();
      outcome := None;
    case Prompt(uuid) =>
      if confirm {
        var o := s.GiveAttendance(uuid, backend, readFault, writeFault);
        outcome := Some(o);
      } else {
        s.HandleCancel();
        outcome := None;
      }
  }
}
