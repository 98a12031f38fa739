/** The signing exchange of Register.register, seen from its outcome: the answer to the
    sign request as an already-received value, and the validation that turns it into
    the issued certificate chain or into a failed attempt. */
module SignResponse {

  datatype Option<T> = None | Some(value: T)

  const HTTP_OK: int := 200

  const SIGNED_CERT: string := "signedCert"
  const INTERMEDIATE_CA_CERT: string := "intermediateCaCert"
  const ROOT_CA_CERT: string := "rootCaCert"

  /** What one attempt got back from the CA front-end. NoResponse stands for any
      exception raised by the login or the sign request (connection refused, TLS error, ...);
      a Reply's body is None when it does not decode to a JSON object, and otherwise
      maps each string-valued field name to its value. */
  datatype Response =
    | NoResponse
    | Reply(status: int, body: Option<map<string, string>>)

  /** The three PEM blobs of a successful signing. */
  datatype Chain = Chain(signedCert: string, intermediateCaCert: string, rootCaCert: string)

  /** A reply that carries status 200 and all three fields. */
  predicate IsCompleteOk(resp: Response) {
    && resp.Reply?
    && resp.status == HTTP_OK
    && resp.body.Some?
    && SIGNED_CERT in resp.body.value
    && INTERMEDIATE_CA_CERT in resp.body.value
    && ROOT_CA_CERT in resp.body.value
  }

  /** The checks of Register.register in their order: the status must be exactly 200,
      the body must be a JSON object, and the three fields are read one after the other;
      any failure along the way is an exception that ends the attempt with nothing. */
  function Validate(resp: Response): Option<Chain> {
    match resp
    case NoResponse => None
    case Reply(status, body) =>
      if status != HTTP_OK then None
      else match body
        case None => None
        case Some(fields) =>
          if SIGNED_CERT !in fields then None
          else if INTERMEDIATE_CA_CERT !in fields then None
          else if ROOT_CA_CERT !in fields then None
          else Some(Chain(fields[SIGNED_CERT], fields[INTERMEDIATE_CA_CERT], fields[ROOT_CA_CERT]))
  }

  /** What Register.register returns for this reply: the signed leaf certificate, or None. */
  function Leaf(resp: Response): Option<string> {
    match Validate(resp)
    case Some(chain) => Some(chain.signedCert)
    case None => None
  }

  /** Register.register succeeds exactly on a status-200 reply whose body holds all three
      fields, and then returns the signed certificate and carries the two CA certificates
      taken from those fields. */
  lemma ValidateAcceptsExactlyCompleteOk(resp: Response)
    ensures Validate(resp).Some? <==> IsCompleteOk(resp)
    ensures Leaf(resp).Some? <==> IsCompleteOk(resp)
    ensures IsCompleteOk(resp) ==>
      && Leaf(resp) == Some(resp.body.value[SIGNED_CERT])
      && Validate(resp).value == Chain(resp.body.value[SIGNED_CERT],
                                       resp.body.value[INTERMEDIATE_CA_CERT],
                                       resp.body.value[ROOT_CA_CERT])
  {
  }

  /** The reply a CA sends when it signs: status 200 and the three fields. */
  function OkReply(chain: Chain): Response {
    Reply(HTTP_OK, Some(map[SIGNED_CERT := chain.signedCert,
                            INTERMEDIATE_CA_CERT := chain.intermediateCaCert,
                            ROOT_CA_CERT := chain.rootCaCert]))
  }

  /** Validation recovers exactly the chain the CA sent. */
  lemma ValidateOkReply(chain: Chain)
    ensures Validate(OkReply(chain)) == Some(chain)
  {
  }

  /** Any status other than 200 fails, whatever the body says. */
  lemma NonOkStatusFails(status: int, body: Option<map<string, string>>)
    requires status != HTTP_OK
    ensures Validate(Reply(status, body)) == None
  {
  }

  /** A 200 reply missing any of the three fields fails like a network error. */
  lemma MissingFieldFails(fields: map<string, string>, missing: string)
    requires missing in {SIGNED_CERT, INTERMEDIATE_CA_CERT, ROOT_CA_CERT}
    requires missing !in fields
    ensures Validate(Reply(HTTP_OK, Some(fields))) == Validate(NoResponse) == None
  {
  }
}
