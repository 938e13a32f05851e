/** Result codes of the M2X client: its own negative error codes and the
    HTTP status codes the server answers with, and the helpers that classify
    them. */
module M2xStatus {

  const E_OK: int := 0
  const E_NOCONNECTION: int := -1
  const E_DISCONNECTED: int := -2
  const E_NOTREACHABLE: int := -3
  const E_INVALID: int := -4
  const E_JSON_INVALID: int := -5
  const E_BUFFER_TOO_SMALL: int := -6
  const E_TIMESTAMP_ERROR: int := -8

  const DEFAULT_M2X_PORT: int := 80

  /** The client's own error codes. */
  const ClientErrors: seq<int> :=
    [E_NOCONNECTION, E_DISCONNECTED, E_NOTREACHABLE, E_INVALID, E_JSON_INVALID, E_BUFFER_TOO_SMALL, E_TIMESTAMP_ERROR]

  predicate IsSuccess(status: int) {
    status == E_OK || (status >= 200 && status <= 299)
  }

  predicate IsClientError(status: int) {
    status >= 400 && status <= 499
  }

  predicate IsServerError(status: int) {
    status >= 500 && status <= 599
  }

  predicate IsError(status: int) {
    IsClientError(status) || IsServerError(status)
  }

  /** The class of an HTTP status code: its first digit (section 6 of
      RFC 7231). */
  function StatusClass(status: nat): (c: nat)
    ensures c * 100 <= status < c * 100 + 100
  {
    status / 100
  }

  /** The helpers agree with the status classes of RFC 7231: success is the
      2xx class (or the client's own `E_OK`), client errors are 4xx, server
      errors 5xx, and an error is one of the two; no code is both a success
      and an error. */
  lemma {:induction false} StatusClasses(status: int)
    ensures IsSuccess(status) <==> status == E_OK || (status >= 0 && StatusClass(status) == 2)
    ensures IsClientError(status) <==> status >= 0 && StatusClass(status) == 4
    ensures IsServerError(status) <==> status >= 0 && StatusClass(status) == 5
    ensures IsError(status) <==> status >= 0 && (StatusClass(status) == 4 || StatusClass(status) == 5)
    ensures !(IsSuccess(status) && IsError(status))
    ensures !(IsClientError(status) && IsServerError(status))
  {
    if status >= 0 {
      var c := StatusClass(status);
      assert c * 100 <= status < c * 100 + 100;
      if c <= 1 {
        assert status < 200;
      } else if c == 2 {
      } else if c == 3 {
      } else if c == 4 {
      } else if c == 5 {
      } else {
        assert status >= 600;
      }
    }
  }

  /** The client's own error codes are distinct, negative, and neither a
      success nor an error status; `E_OK` is a success. */
  lemma {:induction false} ClientErrorCodes()
    ensures forall i, j :: 0 <= i < j < |ClientErrors| ==> ClientErrors[i] != ClientErrors[j]
    ensures forall i :: 0 <= i < |ClientErrors| ==>
              ClientErrors[i] < 0 && !IsSuccess(ClientErrors[i]) && !IsError(ClientErrors[i])
    ensures IsSuccess(E_OK)
  {
  }
}
