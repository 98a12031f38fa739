/** The agent's run-time state and the steps of the script that change it: the
    module-global retry counter, the certificate directory, and the calls made so far.
    Key and CSR generation (OpenSSL), the HTTP exchange and the clock are outside the
    model: the CSR and key arrive as opaque strings and each attempt's answer from the CA
    is given by ca. */
module Agent {
  import opened CertFiles
  import opened SignResponse
  import opened Retry

  class Host {
    /** The certificate directory. */
    var files: FileSystem
    /** The module-global retry_count. */
    var retryCount: nat
    /** Register.register, Cert.store and time.sleep calls, in order. */
    ghost var trace: seq<Event>

    ghost function Snapshot(): State
      reads this
    {
      State(files, retryCount, trace)
    }

    /** Module load: retry_count starts at 0 over whatever the directory holds. */
    constructor (fs: FileSystem)
      ensures files == fs && retryCount == 0 && trace == []
    {
      files := fs;
      retryCount := 0;
      trace := [];
    }

    /** Register.register: one attempt. On a complete 200 reply the root CA file and then
        the intermediate CA file are overwritten and the signed leaf certificate is returned;
        on anything else (no reply, another status, a body that is not an object, a missing
        field) nothing is written and None is returned. */
    method Register(csr: string, key: string, resp: Response) returns (cert: Option<string>)
      modifies this`files, this`trace
      ensures cert == Leaf(resp)
      ensures files == match Validate(resp)
                       case Some(chain) => ChainWritten(old(files), chain.rootCaCert, chain.intermediateCaCert)
                       case None => old(files)
      ensures trace == old(trace) + [Registered(csr, key, cert)]
    {
      cert := None;
      if resp.Reply? && resp.status == HTTP_OK && resp.body.Some? {
        var fields := resp.body.value;
        if SIGNED_CERT in fields && INTERMEDIATE_CA_CERT in fields && ROOT_CA_CERT in fields {
          files := files[CA_FILE := fields[ROOT_CA_CERT]];
          files := files[INTERMEDIATE_CA_FILE := fields[INTERMEDIATE_CA_CERT]];
          cert := Some(fields[SIGNED_CERT]);
        }
      }
      trace := trace + [Registered(csr, key, cert)];
    }

    /** Cert.store: overwrite the leaf certificate file, then the key file. */
    method Store(cert: string, key: string)
      modifies this`files, this`trace
      ensures files == Stored(old(files), cert, key)
      ensures trace == old(trace) + [CertStored(cert, key)]
    {
      files := files[CERT_FILE := cert];
      files := files[KEY_FILE := key];
      trace := trace + [CertStored(cert, key)];
    }

    /** time.sleep(retry_interval); only the fact that it happened is kept. */
    method Sleep()
      modifies this`trace
      ensures trace == old(trace) + [Slept]
    {
      trace := trace + [Slept];
    }

    /** Register.__init__: attempt with the same CSR and key until one attempt succeeds
        (then store the leaf pair and stop) or the incremented counter equals retries
        (then stop), sleeping between attempts. It terminates only if some iteration
        ends it, which is what the precondition asks. */
    method RegisterLoop(csr: string, key: string, retries: real, ca: nat -> Response) returns (ghost last: nat)
      requires exists c: nat :: retryCount <= c && Ends(ca, retries, c)
      modifies this`files, this`trace, this`retryCount
      ensures FirstEnd(ca, retries, old(retryCount), last)
      ensures Snapshot() == Run(old(Snapshot()), csr, key, ca, last)
    {
      ghost var s0 := Snapshot();
      ghost var start := retryCount;
      ghost var bound: nat :| retryCount <= bound && Ends(ca, retries, bound);
      while true
        invariant start <= retryCount <= bound
        invariant forall c :: start <= c < retryCount ==> !Ends(ca, retries, c)
        invariant files == s0.files
        invariant trace == s0.trace + Failures(csr, key, retryCount - start)
        decreases bound - retryCount
      {
        var cert := Register(csr, key, ca(retryCount));
        if cert.Some? {
          Store(cert.value, key);
          last := retryCount;
          RunOnSuccess(s0, csr, key, ca, last, Validate(ca(last)).value);
          break;
        }
        retryCount := retryCount + 1;
        if Breaks(retryCount, retries) {
          last := retryCount - 1;
          RunOnExhaustion(s0, csr, key, ca, last);
          break;
        }
        Sleep();
        FailuresExtend(csr, key, retryCount - 1 - start);
      }
    }

    /** The script's main block: when the leaf certificate and key both exist nothing is
        attempted and nothing changes; otherwise the freshly generated csr and key go
        through the retry loop. */
    method Bootstrap(csr: string, key: string, retries: real, ca: nat -> Response)
      returns (ghost registered: bool, ghost last: nat)
      requires !Exist(files) ==> exists c: nat :: retryCount <= c && Ends(ca, retries, c)
      modifies this`files, this`trace, this`retryCount
      ensures registered <==> !Exist(old(files))
      ensures !registered ==> Snapshot() == old(Snapshot())
      ensures CERT_FILE in old(files) && KEY_FILE in old(files) ==> !registered && Snapshot() == old(Snapshot())
      ensures registered ==> FirstEnd(ca, retries, old(retryCount), last)
      ensures registered ==> Snapshot() == Run(old(Snapshot()), csr, key, ca, last)
    {
      registered, last := false, retryCount;
      if !Exist(files) {
        registered := true;
        last := RegisterLoop(csr, key, retries, ca);
      }
    }
  }
}
