/** The hosted registration table that the scanner and the attendance list talk to, reduced
    to what those screens use: the `attendance` flag of each registration, keyed by its
    `qrID`. The client, the network and the query language are not modelled: a request
    either meets a fault (an error object with an HTTP status) or is answered from the table.
    Every request is recorded in a ghost log, so that contracts can say which calls a
    handler issued and which it did not. */
module Backend {
  import opened Wrappers

  /** An error object handed back by the client, with the HTTP status of the response. */
  datatype ApiError = ApiError(status: int, message: string)

  /** The status the server answers when `.single()` finds no row. */
  const NotAcceptable := 406

  const NoRowsMessage := "JSON object requested, multiple (or no) rows returned"

  /** One registration as the attendance list selects it. */
  datatype Registration = Registration(name: string, regNo: string, attendance: bool, qrID: string)

  /** The answer to a read of the whole table: the rows, or an error. */
  datatype FetchReply = Rows(rows: seq<Registration>) | FetchFailed(error: ApiError)

  datatype Request =
    | SelectAttendance(qrID: string)               // the `attendance` column of one qrID, `.single()`
    | UpdateAttendance(qrID: string, value: bool)  // set `attendance` on the rows with that qrID
    | SelectAll                                    // every registration

  /** What a `.single()` read hands back: the row's flag, or an error with its status. */
  datatype SingleReply = Row(attendance: bool) | Failed(error: ApiError)

  /** The reply to a `.single()` read of `qrID` that meets `fault` (if any). */
  function ReadSingle(table: map<string, bool>, qrID: string, fault: Option<ApiError>): (r: SingleReply)
    ensures r.Row? <==> fault.None? && qrID in table
    ensures r.Row? ==> r.attendance == table[qrID]
    ensures fault.Some? ==> r == Failed(fault.value)
    ensures fault.None? && qrID !in table ==> r.Failed? && r.error.status == NotAcceptable
  {
    if fault.Some? then Failed(fault.value)
    else if qrID in table then Row(table[qrID])
    else Failed(ApiError(NotAcceptable, NoRowsMessage))
  }

  /** The table after an update of `qrID` to `value` that meets `fault` (if any): a failed
      update changes nothing, and neither does one whose filter matches no row. */
  function Written(table: map<string, bool>, qrID: string, value: bool, fault: Option<ApiError>): (t: map<string, bool>)
    ensures t.Keys == table.Keys
    ensures forall k :: k in table && k != qrID ==> t[k] == table[k]
    ensures fault.None? && qrID in table ==> t[qrID] == value
    ensures fault.Some? ==> t == table
  {
    if fault.None? && qrID in table then table[qrID := value] else table
  }

  class Table {
    var rows: map<string, bool>
    ghost var requests: seq<Request>

    constructor (rows: map<string, bool>)
      ensures this.rows == rows && requests == []
    {
      this.rows := rows;
      requests := [];
    }

    method Select(qrID: string, fault: Option<ApiError>) returns (reply: SingleReply)
      modifies this`requests
      ensures reply == ReadSingle(rows, qrID, fault)
      ensures requests == old(requests) + [SelectAttendance(qrID)]
    {
      reply := ReadSingle(rows, qrID, fault);
      requests := requests + [SelectAttendance(qrID)];
    }

    method Update(qrID: string, value: bool, fault: Option<ApiError>) returns (error: Option<ApiError>)
      modifies this
      ensures error == fault
      ensures rows == Written(old(rows), qrID, value, fault)
      ensures requests == old(requests) + [UpdateAttendance(qrID, value)]
    {
      rows := Written(rows, qrID, value, fault);
      requests := requests + [UpdateAttendance(qrID, value)];
      error := fault;
    }

    /** A read of every registration. The names and registration numbers are not part of
        this model of the table, so the server's answer is given by the caller. */
    method SelectEvery(answer: FetchReply) returns (reply: FetchReply)
      modifies this`requests
      ensures reply == answer
      ensures requests == old(requests) + [SelectAll]
    {
      reply := answer;
      requests := requests + [SelectAll];
    }
  }
}
