/**
 How `main` turns the server's reply into what it reports and the exit
 status it ends with (main.go:199-231).
 */
module Response {

  /** What `extractJSON` makes of a response body. */
  datatype Body =
    | NotJson                      // json.Unmarshal fails
    | JsonObject(hasErrors: bool)  // a JSON object; whether its `errors` member is present and not null
    | JsonOther                    // valid JSON that is not an object

  /**
   The part of an HTTP reply the decision reads: the status code, the
   parsed body, and whether the three `X-Limit-App-*` headers are present.
   */
  datatype Reply = Reply(status: int, body: Body, limitHeaders: bool)

  /** What `main` reports. */
  datatype Outcome =
    | Success                            // "Success" (and, verbose, the request id and quota)
    | UnreadableAck                      // status 200 but the body is not JSON: the parse error
    | ClientFailure(errorsShown: bool)   // 4xx: "Fail" and the `errors` member, or the parse error
    | OtherStatus(statusText: string)    // any other status: its standard reason phrase

  const StatusOK: int := 200

  /** 400 to 499 inclusive. */
  predicate IsClientError(status: int)
  {
    400 <= status <= 499
  }

  /**
   The replies `main` handles without a runtime panic: a body it parses
   (for 200 and 4xx) must not be JSON other than an object; a 4xx object
   must have a non-null `errors` member; and a verbose 200 with an object
   body must carry the `X-Limit-App-*` headers, which are indexed unchecked.
   */
  predicate Handled(verbose: bool, r: Reply)
  {
    && ((r.status == StatusOK || IsClientError(r.status)) ==> !r.body.JsonOther?)
    && (IsClientError(r.status) && r.body.JsonObject? ==> r.body.hasErrors)
    && (verbose && r.status == StatusOK && r.body.JsonObject? ==> r.limitHeaders)
  }

  /**
   The status branching. `statusText` stands for `http.StatusText`, the
   standard reason phrase of a code. Exactly one outcome applies: success
   only for 200 with a JSON object body; 4xx is a client failure whether
   or not the body parsed; every other code is reported with its reason
   phrase.
   */
  function Classify(verbose: bool, r: Reply, statusText: int -> string): (o: Outcome)
    requires Handled(verbose, r)
    ensures o.Success? <==> r.status == StatusOK && r.body.JsonObject?
    ensures o.UnreadableAck? <==> r.status == StatusOK && r.body.NotJson?
    ensures o.ClientFailure? <==> IsClientError(r.status)
    ensures o.ClientFailure? ==> o.errorsShown == r.body.JsonObject?
    ensures o.OtherStatus? <==> r.status != StatusOK && !IsClientError(r.status)
    ensures o.OtherStatus? ==> o.statusText == statusText(r.status)
  {
    if r.status == StatusOK then
      if r.body.NotJson? then UnreadableAck else Success
    else if IsClientError(r.status) then
      ClientFailure(r.body.JsonObject?)
    else
      OtherStatus(statusText(r.status))
  }

  /** The process exit status after an outcome: `os.Exit(1)` on every failure. */
  function ExitCode(o: Outcome): (code: int)
  {
    if o.Success? then 0 else 1
  }

  /**
   A send either fully succeeds or is reported as failed: the exit status
   is 0 exactly for a 200 reply whose body is a JSON object, and 1
   otherwise; verbose output does not change it.
   */
  lemma ExitZeroOnlyOnAcknowledgement(verbose: bool, r: Reply, statusText: int -> string)
    requires Handled(verbose, r)
    ensures ExitCode(Classify(verbose, r, statusText)) == (if r.status == StatusOK && r.body.JsonObject? then 0 else 1)
    ensures Handled(false, r) && Classify(false, r, statusText) == Classify(verbose, r, statusText)
  {
  }
}
